/** The fold's segments as they really lie: growing members of the container, published by its commits. What
    `Segstore` promises of a store of segments, the container keeps; and what a synced fold handed out, a
    committed container gives back after any power loss. */
module SegmentMembers {
  import opened Bytes
  import opened Host
  import opened Directory
  import opened Layout
  import opened Superblocks
  import opened Device
  import opened Staging
  import opened Publication
  import opened Durability
  import opened DurabilitySteps
  import opened Readers
  import opened Checksums
  import opened Pens
  import opened CrashSafety
  import opened Containers
  import FoldCore
  import FoldImage
  import FoldReopen
  import FoldState
  import Folds
  import Frames
  import Segments
  import Sidecars

  // ---- member names -------------------------------------------------------------------------

  /** The last `k` decimal digits of a number. */
  function Digits(n: nat, k: nat): (d: seq<Byte>)
    ensures |d| == k
  {
    if k == 0 then [] else Digits(n / 10, k - 1) + [(48 + n % 10) as Byte]
  }

  function Pow10(k: nat): nat { if k == 0 then 1 else 10 * Pow10(k - 1) }

  lemma {:induction false} DigitsTell(m: nat, n: nat, k: nat)
    requires m < Pow10(k) && n < Pow10(k) && Digits(m, k) == Digits(n, k)
    ensures m == n
  {
    if k > 0 {
      var a, b := Digits(m, k), Digits(n, k);
      assert a[k - 1] == (48 + m % 10) as Byte && b[k - 1] == (48 + n % 10) as Byte;
      assert a[..k - 1] == Digits(m / 10, k - 1) && b[..k - 1] == Digits(n / 10, k - 1);
      DigitsTell(m / 10, n / 10, k - 1);
    }
  }

  lemma EightDigits()
    ensures Pow10(8) == Segments.MAX_SEGMENT_NUMBER + 1
  {
    assert Pow10(2) == 100 && Pow10(4) == 10_000 && Pow10(6) == 1_000_000;
  }

  /** `{prefix}/seg-NNNNNNNN.fold`. */
  function SegName(prefix: Name, n: nat): Name {
    prefix + [47, 115, 101, 103, 45] + Digits(n, 8) + [46, 102, 111, 108, 100]
  }

  /** `{prefix}/seg-NNNNNNNN.dir`. */
  function SidecarName(prefix: Name, n: nat): Name {
    prefix + [47, 115, 101, 103, 45] + Digits(n, 8) + [46, 100, 105, 114]
  }

  lemma NamesDiffer(prefix: Name, m: nat, n: nat)
    requires m <= Segments.MAX_SEGMENT_NUMBER && n <= Segments.MAX_SEGMENT_NUMBER
    ensures m != n ==> SegName(prefix, m) != SegName(prefix, n)
    ensures SegName(prefix, m) != SidecarName(prefix, n)
  {
    EightDigits();
    var at := |prefix| + 5;
    assert SegName(prefix, m)[at..at + 8] == Digits(m, 8) && SegName(prefix, n)[at..at + 8] == Digits(n, 8);
    if SegName(prefix, m) == SegName(prefix, n) { DigitsTell(m, n, 8); }
    assert |SegName(prefix, m)| == |SidecarName(prefix, n)| + 1;
  }

  // ---- the store of segments -------------------------------------------------------------------

  /** The container's segment members are exactly these, in order. */
  ghost predicate Holds(k: Container, prefix: Name, members: seq<seq<Byte>>)
    reads k, k.f
  {
    && k.Valid() && |members| <= Segments.MAX_SEGMENT_NUMBER + 1
    && forall n: nat :: n <= Segments.MAX_SEGMENT_NUMBER ==>
         ReadMember(k.f.bytes, k.dir, SegName(prefix, n)) == (if n < |members| then Some(members[n]) else None)
  }

  ghost predicate NamesAreText(p: Platform, prefix: Name) {
    forall n: nat :: n <= Segments.MAX_SEGMENT_NUMBER ==>
      p.utf8(SegName(prefix, n)) && p.utf8(SidecarName(prefix, n))
  }

  /** A member's recorded length is the length of what it reads as. */
  lemma MemberLength(c: Config, w: World, name: Name)
    requires Inv(c, w) && w.phase.Idle? && !w.h.poisoned && Contains(w.h.tables.dir, name)
    ensures var m := w.h.tables.dir[Position(w.h.tables.dir, name)].member;
            ReadMember(w.disk.volatile, w.h.tables.dir, name) == Some(ReadExtents(w.disk.volatile, m.extents))
            && m.len == |ReadExtents(w.disk.volatile, m.extents)|
  {
    hide DiskInv, HandleInv, ReadersInv, MemberClaims, ReadExtents, Position;
    var dir := w.h.tables.dir;
    var i := Position(dir, name);
    assert EntrySum(c.p, dir[i].member, Contents(w.disk.volatile, dir)[i], w.marred);
  }

  /** `append`: a missing member, or one whose length is not the append point, is refused before any byte
      moves. */
  method Append(k: Container, prefix: Name, seg: nat, off: nat, frame: seq<Byte>, ghost members: seq<seq<Byte>>)
    returns (ok: bool)
    requires Holds(k, prefix, members) && seg <= Segments.MAX_SEGMENT_NUMBER
    modifies k, k.f
    ensures ok ==> seg < |members| && |members[seg]| == off
    ensures Holds(k, prefix, if ok then members[seg := members[seg] + frame] else members)
    ensures !ok ==> seg >= |members| || |members[seg]| != off || k.f.faulted
                    || !old(k.MayAppend(SegName(prefix, seg), |frame|))
  {
    hide SegName, Container.Valid, StageGrow, ReadMember, Position, AppendAt, Coalesces, Container.BytesStay;
    var name := SegName(prefix, seg);
    Present(k, name);
    if !Contains(k.dir, name) {
      assert ReadMember(k.f.bytes, k.dir, name) == None;
      return false;
    }
    var have := k.dir[Position(k.dir, name)].member.len;
    if have != off {
      assert k.poisoned ==> !k.MayAppend(name, |frame|);
      return false;
    }
    ok := k.AppendStream(name, Source(frame, None));
    ghost var after := if ok then members[seg := members[seg] + frame] else members;
    assert frame == [] ==> members[seg] + frame == members[seg];
    forall n: nat | n <= Segments.MAX_SEGMENT_NUMBER
      ensures ReadMember(k.f.bytes, k.dir, SegName(prefix, n)) == (if n < |after| then Some(after[n]) else None)
    {
      NamesDiffer(prefix, n, seg);
      assert n != seg ==> ReadMember(k.f.bytes, k.dir, SegName(prefix, n))
                          == ReadMember(old(k.f.bytes), old(k.dir), SegName(prefix, n));
    }
  }

  lemma Present(k: Container, name: Name)
    requires k.Valid()
    ensures Contains(k.dir, name) <==> ReadMember(k.f.bytes, k.dir, name).Some?
    ensures Contains(k.dir, name) && !k.poisoned ==>
      k.dir[Position(k.dir, name)].member.len == |ReadMember(k.f.bytes, k.dir, name).value|
  {
    hide Run, Inv, Position, ReadExtents;
    k.Known();
    if Contains(k.dir, name) && !k.poisoned { MemberLength(k.cfg, k.Last(), name); }
  }

  /** `create_segment`: stage the next segment, just its header. */
  method CreateSegment(k: Container, prefix: Name, next: nat, ghost members: seq<seq<Byte>>) returns (ok: bool)
    requires Holds(k, prefix, members) && next == |members| <= Segments.MAX_SEGMENT_NUMBER
    requires NamesAreText(k.cfg.p, prefix)
    modifies k, k.f
    ensures Holds(k, prefix, if ok then members + [Segments.SegHeader(next, Segments.NoDict())] else members)
    ensures !ok ==> k.f.faulted || !old(k.MayPut(SegName(prefix, next), Frames.SEG_HDR_LEN, 1))
  {
    hide SegName, SidecarName, Container.Valid, StagePut, ReadMember, Container.BytesStay, Segments.SegHeader, FreshMember;
    var name := SegName(prefix, next);
    ok := k.PutStream(name, Source(Segments.SegHeader(next, Segments.NoDict()), None));
    forall n: nat | n <= Segments.MAX_SEGMENT_NUMBER ensures n != next ==> SegName(prefix, n) != name {
      NamesDiffer(prefix, n, next);
    }
  }

  /** `write_sidecar`: the sidecar is a member of its own, and no segment moves. */
  method WriteSidecar(k: Container, prefix: Name, seg: nat, tail: nat, entries: seq<Segments.Entry>,
                      ghost members: seq<seq<Byte>>)
    returns (ok: bool)
    requires Holds(k, prefix, members) && seg <= Segments.MAX_SEGMENT_NUMBER && NamesAreText(k.cfg.p, prefix)
    modifies k, k.f
    ensures Holds(k, prefix, members)
    ensures ok ==> ReadMember(k.f.bytes, k.dir, SidecarName(prefix, seg))
                   == Some(Sidecars.SidecarBytes(k.cfg.p, seg, tail, entries))
    ensures !ok ==> k.f.faulted
                    || !old(k.MayPut(SidecarName(prefix, seg), |Sidecars.SidecarBytes(k.cfg.p, seg, tail, entries)|, 1))
  {
    hide SegName, SidecarName, Container.Valid, StagePut, ReadMember, Container.BytesStay, FreshMember, Sidecars.SidecarBytes;
    var name := SidecarName(prefix, seg);
    var bytes := Sidecars.EncodeDirSidecar(k.cfg.p, seg, tail, entries);
    ok := k.PutStream(name, Source(bytes, None));
    forall n: nat | n <= Segments.MAX_SEGMENT_NUMBER ensures SegName(prefix, n) != name {
      NamesDiffer(prefix, n, seg);
    }
  }

  // ---- what survives ---------------------------------------------------------------------------

  /** The directory's segment members read as these files. */
  ghost predicate Carries(file: seq<Byte>, dir: seq<Entry>, prefix: Name, files: seq<seq<Byte>>) {
    forall n: nat :: n < |files| ==> ReadMember(file, dir, SegName(prefix, n)) == Some(files[n])
  }

  /** A piece read from segment files through a rebuilt block directory. */
  function PieceFrom(p: Platform, limits: Frames.ReadLimits, files: seq<seq<Byte>>, blocks: FoldImage.Directory,
                     loc: Frames.Loc): Outcome<seq<Byte>>
  {
    if !FoldImage.Has(blocks, loc.blockId) || blocks[loc.blockId].value.seg >= |files| then Err
    else
      var place := blocks[loc.blockId].value;
      var raw :- Frames.ReadBlock(p, limits, files[place.seg], place.off, loc.blockId);
      if loc.inOff + loc.raw <= |raw| then Ok(raw[loc.inOff..loc.inOff + loc.raw]) else Err
  }

  /** From these members alone the writer's block directory is rebuilt, and every piece the fold handed out is
      read back. */
  ghost predicate Recovers(p: Platform, limits: Frames.ReadLimits, file: seq<Byte>, dir: seq<Entry>, prefix: Name,
                           c: FoldCore.Core)
  {
    && Carries(file, dir, prefix, c.files)
    && var rebuilt := FoldReopen.OpenedAll(p, limits, [], FoldReopen.Index([], 0, 0), c.files, 0);
       && rebuilt.Ok? && rebuilt.value.dir == c.dir && rebuilt.value.next == c.next
       && forall loc :: loc in c.pieces ==> PieceFrom(p, limits, c.files, rebuilt.value.dir, loc) == Ok(c.pieces[loc])
  }

  /** What a sync leaves in memory: nothing that is not in a segment. */
  predicate Synced(c: FoldCore.Core) { c.open == [] && c.inflight == map[] }

  lemma SyncedPieceOnDisk(p: Platform, limits: Frames.ReadLimits, c: FoldCore.Core, loc: Frames.Loc)
    requires FoldCore.Sound(p, limits, c) && Synced(c) && loc in c.pieces
    ensures PieceFrom(p, limits, c.files, c.dir, loc) == Ok(c.pieces[loc])
  {
    hide FoldCore.Sound, FoldImage.Has;
    FoldCore.PieceServed(p, limits, c, loc);
    FoldCore.BlockReadable(p, limits, c, loc.blockId);
  }

  lemma SyncedRecovers(p: Platform, limits: Frames.ReadLimits, file: seq<Byte>, dir: seq<Entry>, prefix: Name,
                       c: FoldCore.Core)
    requires FoldCore.Sound(p, limits, c) && Synced(c) && Carries(file, dir, prefix, c.files)
    ensures Recovers(p, limits, file, dir, prefix, c)
  {
    hide FoldCore.Sound, Carries, PieceFrom, FoldReopen.OpenedAll;
    FoldReopen.ReopenRebuildsWriter(p, limits, c);
    forall loc | loc in c.pieces ensures PieceFrom(p, limits, c.files, c.dir, loc) == Ok(c.pieces[loc]) {
      SyncedPieceOnDisk(p, limits, c, loc);
    }
  }

  // ---- published segments ----------------------------------------------------------------------

  /** A published state whose segment members are these files. */
  ghost predicate Publishes(s: Snapshot, prefix: Name, files: seq<seq<Byte>>) {
    && |s.contents| == |s.tables.dir|
    && forall n: nat :: n < |files| ==>
         && Contains(s.tables.dir, SegName(prefix, n))
         && s.contents[Position(s.tables.dir, SegName(prefix, n))] == files[n]
  }

  lemma PublishesIsCarries(file: seq<Byte>, s: Snapshot, prefix: Name, files: seq<seq<Byte>>)
    requires Contents(file, s.tables.dir) == s.contents
    ensures Publishes(s, prefix, files) <==> Carries(file, s.tables.dir, prefix, files)
  {
    hide SegName, ReadExtents, Position;
  }

  /** Every piece of the one fold state is a piece of the other. */
  ghost predicate Extends(c: FoldCore.Core, later: FoldCore.Core) {
    forall loc :: loc in c.pieces ==> loc in later.pieces && later.pieces[loc] == c.pieces[loc]
  }

  /** A published state that carries a synced fold holding at least the pieces of `c`. */
  ghost predicate HoldsFast(p: Platform, limits: Frames.ReadLimits, s: Snapshot, prefix: Name, c: FoldCore.Core) {
    exists d :: Keeper(p, limits, s, prefix, c, d)
  }

  ghost predicate Keeper(p: Platform, limits: Frames.ReadLimits, s: Snapshot, prefix: Name, c: FoldCore.Core, d: FoldCore.Core) {
    FoldCore.Sound(p, limits, d) && Synced(d) && Extends(c, d) && Publishes(s, prefix, d.files)
  }

  /** The file opens as the state, the block directory is rebuilt from its segments, and every piece of `c` is
      read back. */
  ghost predicate Regains(cfg: Config, limits: Frames.ReadLimits, img: seq<Byte>, s: Snapshot, marred: set<nat>,
                          prefix: Name, c: FoldCore.Core)
  {
    && OpensAs(cfg, img, s, marred)
    && exists d :: Extends(c, d) && Recovers(cfg.p, limits, img, s.tables.dir, prefix, d)
  }

  lemma KeeperRegains(cfg: Config, limits: Frames.ReadLimits, img: seq<Byte>, s: Snapshot, marred: set<nat>, prefix: Name,
                      c: FoldCore.Core, d: FoldCore.Core)
    requires OpensAs(cfg, img, s, marred) && Keeper(cfg.p, limits, s, prefix, c, d)
    ensures Regains(cfg, limits, img, s, marred, prefix, c)
    ensures Recovers(cfg.p, limits, img, s.tables.dir, prefix, d)
  {
    hide FoldCore.Sound, Carries, Publishes, Recovers, Extends, Open, SelectIn, Selected, SumsOk;
    PublishesIsCarries(img, s, prefix, d.files);
    SyncedRecovers(cfg.p, limits, img, s.tables.dir, prefix, d);
  }

  /** Whatever power loss, also one that finds a later commit's slot write unsettled: what is left opens as one
      of the states the container stands between, rebuilds its block directory, and reads back every piece
      handed out before the older of them was published. */
  lemma PiecesSurvivePowerLoss(cfg: Config, ws: seq<World>, i: nat, img: seq<Byte>, limits: Frames.ReadLimits,
                               prefix: Name, c: FoldCore.Core)
    requires cfg.p.Lawful() && Run(cfg, ws) && i < |ws| && DiskOk(ws[i].disk) && CrashImage(cfg.p, ws[i].disk, img)
    requires HoldsFast(cfg.p, limits, ws[i].fallback, prefix, c)
    requires ws[i].attempt.Some? ==> HoldsFast(cfg.p, limits, ws[i].attempt.value, prefix, c)
    ensures Regains(cfg, limits, img, ws[i].fallback, ws[i].marred, prefix, c)
         || (ws[i].attempt.Some? && Regains(cfg, limits, img, ws[i].attempt.value, ws[i].marred, prefix, c))
  {
    hide Run, OpensAs, Regains, Keeper, CrashImage, DiskOk;
    CrashAtomicity(cfg, ws, i, img);
    if OpensAs(cfg, img, ws[i].fallback, ws[i].marred) {
      var d :| Keeper(cfg.p, limits, ws[i].fallback, prefix, c, d);
      KeeperRegains(cfg, limits, img, ws[i].fallback, ws[i].marred, prefix, c, d);
    } else {
      var d :| Keeper(cfg.p, limits, ws[i].attempt.value, prefix, c, d);
      KeeperRegains(cfg, limits, img, ws[i].attempt.value, ws[i].marred, prefix, c, d);
    }
  }

  /** Where the states of the next world come from: those of this one, or the slot write publishing the staged
      directory. */
  lemma StatesComeFrom(cfg: Config, w: World, w2: World)
    requires cfg.p.Lawful() && Inv(cfg, w) && Next(cfg, w, w2)
    ensures w2.fallback == w.fallback || Some(w2.fallback) == w.attempt
    ensures w2.attempt.None? || w2.attempt == w.attempt
         || (w.phase.Barred? && w2.attempt.value.tables.dir == w.h.tables.dir
             && w2.attempt.value.contents == Contents(w.disk.volatile, w.h.tables.dir))
  {
    hide Inv, CrashStep, PunchStep, PenStep, PastTail, DiskOk, OwnStep, Contents;
    InvFacts(cfg, w);
    if t, data, ok :| PenStep(cfg, w, w2, t, data, ok) && PastTail(w, t) {
      PenMovesNoState(cfg, w, w2, t, data, ok);
    } else if img :| CrashStep(cfg, w, w2, img) {
      CrashComesFrom(cfg, w, w2, img);
    } else {
      OwnStatesComeFrom(cfg, w, w2);
    }
  }

  lemma PenMovesNoState(cfg: Config, w: World, w2: World, t: PenId, data: seq<Byte>, ok: bool)
    requires DiskOk(w.disk) && PenStep(cfg, w, w2, t, data, ok)
    ensures w2.fallback == w.fallback && w2.attempt == w.attempt
  {
    hide Wrote;
  }

  lemma OwnStatesComeFrom(cfg: Config, w: World, w2: World)
    requires DiskOk(w.disk) && w.fallbackSlot <= 1 && OwnStep(cfg, w, w2)
    requires !(exists img :: CrashStep(cfg, w, w2, img))
    ensures w2.fallback == w.fallback || Some(w2.fallback) == w.attempt
    ensures w2.attempt.None? || w2.attempt == w.attempt
         || (w.phase.Barred? && w2.attempt.value.tables.dir == w.h.tables.dir
             && w2.attempt.value.contents == Contents(w.disk.volatile, w.h.tables.dir))
  {
    hide CrashStep, DiskOk, BarrierStep, FlipStep, SettleStep, AcknowledgeStep, SealStep, PunchStep, WriteStep, PutStep, GrowStep,
         DropStep, BeginStep, FinishStep, DiscardStep, RefuseStep, ReconcileStep, ReopenStep, AbandonStep, Contents;
    if ok :| FlipStep(cfg, w, w2, ok) { FlipPublishes(cfg, w, w2, ok); }
    else if ok :| BarrierStep(cfg, w, w2, ok) { BarrierSettles(cfg, w, w2, ok); }
    else if ok :| SettleStep(w, w2, ok) { SettleSettles(w, w2, ok); }
    else if ok :| SealStep(cfg, w, w2, ok) { SealMovesNoState(cfg, w, w2, ok); }
    else if AcknowledgeStep(w, w2) { AcknowledgeSettles(w, w2); }
    else { StagingMovesNoState(cfg, w, w2); }
  }

  lemma FlipPublishes(cfg: Config, w: World, w2: World, ok: bool)
    requires DiskOk(w.disk) && FlipStep(cfg, w, w2, ok)
    ensures w2.fallback == w.fallback && w.phase.Barred?
    ensures w2.attempt.None? || (w2.attempt.value.tables.dir == w.h.tables.dir
                                 && w2.attempt.value.contents == Contents(w.disk.volatile, w.h.tables.dir))
  {
    hide Wrote, EncodeSlot, Contents;
  }

  lemma BarrierSettles(cfg: Config, w: World, w2: World, ok: bool)
    requires w.fallbackSlot <= 1 && BarrierStep(cfg, w, w2, ok)
    ensures w2.fallback in {w.fallback, w.Current()} && (w2.attempt.None? || w2.attempt == w.attempt)
  {
    hide Poisoned;
  }

  lemma SettleSettles(w: World, w2: World, ok: bool)
    requires w.fallbackSlot <= 1 && SettleStep(w, w2, ok)
    ensures w2.fallback in {w.fallback, w.Current()} && (w2.attempt.None? || w2.attempt == w.attempt)
  {
  }

  lemma AcknowledgeSettles(w: World, w2: World)
    requires w.fallbackSlot <= 1 && AcknowledgeStep(w, w2)
    ensures w2.fallback == w.Current() && w2.attempt.None?
  {
  }

  lemma SealMovesNoState(cfg: Config, w: World, w2: World, ok: bool)
    requires DiskOk(w.disk) && SealStep(cfg, w, w2, ok)
    ensures w2.fallback == w.fallback && w2.attempt == w.attempt
  {
    hide Wrote, Committable, Poisoned, NextSuperblock, StoredDirectory;
  }

  lemma StagingMovesNoState(cfg: Config, w: World, w2: World)
    requires DiskOk(w.disk) && w.fallbackSlot <= 1
    requires || (exists off, data, ok :: WriteStep(cfg, w, w2, off, data, ok))
             || (exists name, content :: PutStep(cfg, w, w2, name, content))
             || (exists name, delta :: GrowStep(cfg, w, w2, name, delta))
             || (exists name :: DropStep(w, w2, name))
             || (exists name :: BeginStep(cfg, w, w2, name))
             || AbandonStep(w, w2) || FinishStep(cfg, w, w2) || DiscardStep(cfg, w, w2) || RefuseStep(cfg, w, w2)
             || ReconcileStep(cfg, w, w2) || IdleStep(w, w2) || ReopenStep(cfg, w, w2)
             || (exists f, grace, ok :: PunchStep(cfg, w, w2, f, grace, ok))
    ensures w2.fallback == w.fallback && w2.attempt == w.attempt
  {
    hide DiskOk, Wrote, Stands, Poisoned, Reconciled, Discarded, StagePut, StageGrow, StageDrop, ValidName, Open, Punchable,
         FreshMember, AppendAt, Coalesces, AlignUp;
  }

  lemma CrashComesFrom(cfg: Config, w: World, w2: World, img: seq<Byte>)
    requires cfg.p.Lawful() && Inv(cfg, w) && DiskOk(w.disk) && CrashStep(cfg, w, w2, img)
    ensures w2.fallback == w.fallback || Some(w2.fallback) == w.attempt
    ensures w2.attempt.None?
  {
    hide DiskInv, HandleInv, ReadersInv, SumsInv, PensInv, Open, CrashImage, Contents, DiskOk;
    CrashKeepsInv(cfg, w, w2, img);
  }

  // ---- a fold's commit -------------------------------------------------------------------------

  /** The states the world stands on, durable or in the balance, all hold the pieces of `c`. */
  ghost predicate Rests(p: Platform, limits: Frames.ReadLimits, w: World, prefix: Name, c: FoldCore.Core) {
    && HoldsFast(p, limits, w.fallback, prefix, c)
    && (w.attempt.Some? ==> HoldsFast(p, limits, w.attempt.value, prefix, c))
  }

  /** No power loss here loses a piece of `c`. */
  ghost predicate NoneLost(cfg: Config, limits: Frames.ReadLimits, w: World, prefix: Name, c: FoldCore.Core) {
    DiskOk(w.disk) &&
    forall img :: CrashImage(cfg.p, w.disk, img) ==>
      || Regains(cfg, limits, img, w.fallback, w.marred, prefix, c)
      || (w.attempt.Some? && Regains(cfg, limits, img, w.attempt.value, w.marred, prefix, c))
  }

  /** Commit a container that carries a synced fold. Once it succeeds, every power loss leaves a file from
      which every piece the fold handed out is read back. At every instant on the way, and if it fails, none of
      the pieces published before is lost. */
  method CommitFold(fold: Folds.Fold, k: Container, prefix: Name, ghost before: FoldCore.Core) returns (r: Outcome<nat>)
    requires fold.Valid() && fold.openBlock == [] && fold.inflight == map[] && fold.p == k.cfg.p
    requires Holds(k, prefix, fold.segs.members)
    requires Extends(before, fold.State(fold.pool.jobs))
    modifies k, k.f
    ensures k.Valid()
    ensures r.Ok? ==> Survives(k, fold.limits, prefix, fold.State(fold.pool.jobs))
    ensures r.Ok? ==> Rests(k.cfg.p, fold.limits, k.Last(), prefix, fold.State(fold.pool.jobs))
    ensures old(Rests(k.cfg.p, fold.limits, k.Last(), prefix, before)) ==>
      && Rests(k.cfg.p, fold.limits, k.Last(), prefix, before)
      && forall j :: old(|k.trace|) <= j < |k.trace| ==> NoneLost(k.cfg, fold.limits, k.trace[j], prefix, before)
    ensures r.Err? ==> k.f.faulted || !old(Writable(k.View())) || (old(k.staged) && !old(k.Sealable()))
  {
    hide FoldCore.Sound, Folds.Fold.Valid, Run, Inv, ReadMember, SegName, Survives, Rests, NoneLost, CanSeal, NextFree, DiskOk,
         Container.Valid, Extends, KeptBelow;
    SoundFold(fold);
    Standing(k);
    ghost var w, n := k.Last(), |k.trace|;
    ghost var c := fold.State(fold.pool.jobs);
    assert Carries(k.f.bytes, k.dir, prefix, c.files);
    r := k.Commit();
    Standing(k);
    if Rests(k.cfg.p, fold.limits, w, prefix, before) && Writable(w.h) {
      forall j | n - 1 <= j < |k.trace|
        ensures Rests(k.cfg.p, fold.limits, k.trace[j], prefix, before)
        ensures NoneLost(k.cfg, fold.limits, k.trace[j], prefix, before)
      {
        StaysAtRest(k.cfg, k.trace, n, j, fold.limits, prefix, before, c);
        AtRestNoneLost(k.cfg, k.trace, j, fold.limits, prefix, before);
      }
    }
    if r.Ok? { CommittedFoldSurvives(k, w, fold.limits, prefix, c); }
  }

  /** What `StaysAtRest` asks of the steps recorded during a commit. */
  ghost predicate SteadyFrom(ws: seq<World>, n: nat, dir: seq<Entry>, bytes: seq<Byte>, tail: nat) {
    forall j :: n <= j < |ws| && !ws[j].phase.Idle? ==>
      ws[j].h.tables.dir == dir && KeptBelow(bytes, ws[j].disk.volatile, tail)
  }

  lemma {:induction false} StaysAtRest(cfg: Config, ws: seq<World>, n: nat, j: nat, limits: Frames.ReadLimits, prefix: Name,
                                       before: FoldCore.Core, c: FoldCore.Core)
    requires cfg.p.Lawful() && Run(cfg, ws) && 1 <= n <= j + 1 <= |ws|
    requires FoldCore.Sound(cfg.p, limits, c) && Synced(c) && Extends(before, c)
    requires var w := ws[n - 1];
      && w.phase.Idle? && !w.h.poisoned && Rests(cfg.p, limits, w, prefix, before)
      && Carries(w.disk.volatile, w.h.tables.dir, prefix, c.files)
      && SteadyFrom(ws, n, w.h.tables.dir, w.disk.volatile, w.h.tail)
    ensures Rests(cfg.p, limits, ws[j], prefix, before)
  {
    hide Run, Inv, FoldCore.Sound, Carries, Extends, HoldsFast, Next, KeptBelow;
    if j >= n {
      StaysAtRest(cfg, ws, n, j - 1, limits, prefix, before, c);
      RunKeepsInv(cfg, ws, n - 1);
      RunKeepsInv(cfg, ws, j - 1);
      RunStep(cfg, ws, j);
      StatesComeFrom(cfg, ws[j - 1], ws[j]);
      if ws[j].attempt.Some? && ws[j].attempt != ws[j - 1].attempt {
        FreshStateHolds(cfg, ws[n - 1], ws[j - 1], ws[j].attempt.value, limits, prefix, before, c);
      }
    }
  }

  lemma RunStep(cfg: Config, ws: seq<World>, j: nat)
    requires Run(cfg, ws) && 0 < j < |ws|
    ensures Next(cfg, ws[j - 1], ws[j])
  {
    hide Next;
    assert Next(cfg, ws[j - 1], ws[j - 1 + 1]);
  }

  lemma FreshStateHolds(cfg: Config, w: World, barred: World, s: Snapshot, limits: Frames.ReadLimits, prefix: Name,
                        before: FoldCore.Core, c: FoldCore.Core)
    requires Inv(cfg, w) && w.phase.Idle? && !w.h.poisoned
    requires FoldCore.Sound(cfg.p, limits, c) && Synced(c) && Extends(before, c)
    requires Carries(w.disk.volatile, w.h.tables.dir, prefix, c.files)
    requires barred.h.tables.dir == w.h.tables.dir && KeptBelow(w.disk.volatile, barred.disk.volatile, w.h.tail)
    requires s.tables.dir == w.h.tables.dir && s.contents == Contents(barred.disk.volatile, w.h.tables.dir)
    ensures HoldsFast(cfg.p, limits, s, prefix, before)
  {
    hide Inv, FoldCore.Sound, Extends, ReadMember, SegName, Contents, Publishes;
    ReadsStay(cfg, w, barred.disk.volatile);
    assert Carries(barred.disk.volatile, s.tables.dir, prefix, c.files);
    PublishesIsCarries(barred.disk.volatile, s, prefix, c.files);
    assert Keeper(cfg.p, limits, s, prefix, before, c);
  }

  lemma AtRestNoneLost(cfg: Config, ws: seq<World>, j: nat, limits: Frames.ReadLimits, prefix: Name, c: FoldCore.Core)
    requires cfg.p.Lawful() && Run(cfg, ws) && j < |ws| && Rests(cfg.p, limits, ws[j], prefix, c)
    ensures NoneLost(cfg, limits, ws[j], prefix, c)
  {
    hide Run, Inv, HoldsFast, Regains, CrashImage, DiskOk;
    RunKeepsInv(cfg, ws, j);
    InvFacts(cfg, ws[j]);
    forall img | CrashImage(cfg.p, ws[j].disk, img)
      ensures Regains(cfg, limits, img, ws[j].fallback, ws[j].marred, prefix, c)
           || (ws[j].attempt.Some? && Regains(cfg, limits, img, ws[j].attempt.value, ws[j].marred, prefix, c))
    {
      PiecesSurvivePowerLoss(cfg, ws, j, img, limits, prefix, c);
    }
  }

  /** Every power loss from here leaves a file that opens as the published state and gives back the fold. */
  ghost predicate Survives(k: Container, limits: Frames.ReadLimits, prefix: Name, c: FoldCore.Core)
    requires k.Valid()
    reads k, k.f
  {
    DiskOk(k.f.State()) &&
    forall img :: CrashImage(k.cfg.p, k.f.State(), img) ==>
      && OpensAs(k.cfg, img, k.Last().fallback, k.Last().marred)
      && Recovers(k.cfg.p, limits, img, k.Last().fallback.tables.dir, prefix, c)
  }

  lemma Standing(k: Container)
    requires k.Valid()
    ensures |k.trace| > 0 && Inv(k.cfg, k.Last()) && k.Last().phase.Idle? && k.Last().h == k.View() && k.Last().disk == k.f.State()
    ensures Run(k.cfg, k.trace) && k.cfg.p.Lawful()
  {
    hide Run, Inv;
    k.Known();
  }

  lemma CommittedFoldSurvives(k: Container, w: World, limits: Frames.ReadLimits, prefix: Name, c: FoldCore.Core)
    requires k.Valid() && !k.poisoned && !k.staged && k.acknowledged
    requires Inv(k.cfg, w) && w.phase.Idle? && !w.h.poisoned && w.h.tables.dir == k.dir
    requires KeptBelow(w.disk.volatile, k.f.bytes, w.h.tail)
    requires FoldCore.Sound(k.cfg.p, limits, c) && Synced(c) && Carries(w.disk.volatile, k.dir, prefix, c.files)
    ensures Survives(k, limits, prefix, c)
    ensures Rests(k.cfg.p, limits, k.Last(), prefix, c)
  {
    hide FoldCore.Sound, Run, Inv, ReadMember, SegName, Recovers, OpensAs, CrashImage, DiskOk, Publishes, Contents;
    k.Known();
    PublishedView(k);
    ReadsStay(k.cfg, w, k.f.bytes);
    assert Carries(k.f.bytes, k.dir, prefix, c.files);
    var s := k.Last().fallback;
    PublishesIsCarries(k.f.bytes, s, prefix, c.files);
    assert Keeper(k.cfg.p, limits, s, prefix, c, c);
    forall img | CrashImage(k.cfg.p, k.f.State(), img)
      ensures OpensAs(k.cfg, img, s, k.Last().marred)
      ensures Recovers(k.cfg.p, limits, img, s.tables.dir, prefix, c)
    {
      CrashAtomicity(k.cfg, k.trace, |k.trace| - 1, img);
      KeeperRegains(k.cfg, limits, img, s, k.Last().marred, prefix, c, c);
    }
  }

  lemma PublishedView(k: Container)
    requires k.Valid() && !k.poisoned && !k.staged && k.acknowledged
    ensures k.Last().attempt.None? && k.Last().fallback.tables.dir == k.dir
    ensures Contents(k.f.bytes, k.dir) == k.Last().fallback.contents
  {
    hide Run, ReadersInv, SumsInv, StagedOk, SnapOk, Slots, Durable;
    k.Known();
    VolatileSelectsCurrent(k.cfg, k.Last());
  }

  lemma SoundFold(fold: Folds.Fold)
    requires fold.Valid()
    ensures FoldCore.Sound(fold.p, fold.limits, fold.State(fold.pool.jobs))
  {
    hide FoldCore.Sound;
  }
}
