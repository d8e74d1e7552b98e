/** Every step of the publication protocol keeps the crash-safety invariant. */
module DurabilitySteps {
  import opened Bytes
  import opened Host
  import opened Directory
  import opened Layout
  import opened Superblocks
  import opened Device
  import opened Staging
  import opened Publication
  import opened Durability

  // ---- the writer's handle -----------------------------------------------------------------------

  /** What a handle that still accepts mutation holds, phase by phase. */
  ghost predicate HandleInv(c: Config, w: World)
    requires w.fallbackSlot <= 1
  {
    && w.h.slot <= 1
    && (!w.phase.Idle? ==> !w.h.poisoned)
    && (!w.h.poisoned ==>
          match w.phase
          case Idle =>
            AtCurrent(c, w) && (w.h.acknowledged ==> w.attempt.None?)
          case Sealed(next, free) =>
            AtCurrent(c, w) && SealReady(c, w, next, free)
          case Barred(next, free) =>
            AtCurrent(c, w) && SealReady(c, w, next, free) && w.attempt.None? && w.disk == Flushed(w.disk)
          case Flipped(next, free) =>
            && AtFallback(w)
            && w.attempt.Some? && w.attempt.value.sb == next
            && w.attempt.value.tables == Tables(w.h.tables.dir, free)
          case Broken(next) =>
            AtFallback(w) && (w.attempt.Some? ==> w.attempt.value.sb == next))
  }

  ghost predicate AtFallback(w: World) {
    w.h.sb == w.fallback.sb && w.h.slot == w.fallbackSlot
  }

  /** The handle sits on the state a fresh open would select, with publishable staged tables. */
  ghost predicate AtCurrent(c: Config, w: World)
    requires w.fallbackSlot <= 1
  {
    && w.h.sb == w.Current().sb && w.h.slot == w.CurrentSlot()
    && w.h.sb.tail <= w.h.tail
    && StagedOk(c.p, w.h.tables, DirExtent(w.h.sb), w.h.tail, NextSeq(w.h))
    && (!w.h.staged ==> w.h.tables == w.Current().tables && w.h.tail == w.h.sb.tail)
    && (w.h.staged ==> NextSeq(w.h) <= U64_MAX)
  }

  ghost predicate SealReady(c: Config, w: World, next: Superblock, free: seq<Freed>) {
    var stored := StoredDirectory(c, w.h);
    && Committable(c.p, NextTables(w.h), NextDirOff(w.h)) && NextSeq(w.h) <= U64_MAX
    && next == NextSuperblock(c, w.h) && free == NextFree(w.h)
    && next.tail <= |w.disk.volatile|
    && w.disk.volatile[NextDirOff(w.h)..NextDirOff(w.h) + |stored|] == stored
  }

  // ---- birth ---------------------------------------------------------------------------------------

  lemma BirthInv(c: Config)
    requires c.p.Lawful()
    ensures DiskInv(c, BirthWorld(c)) && HandleInv(c, BirthWorld(c))
  {
    hide Platform.Lawful, EncodeSlot, DecodeSlot;
    var w := BirthWorld(c);
    DecodeInvertsEncode(c.p, BIRTH);
    var file := BirthImage(c);
    assert SlotBytes(file, 0) == EncodeSlot(c.p, BIRTH);
    assert SlotBytes(file, 1) == Zeros(SLOT_LEN);
    BlankSlot(c);
    BirthPlaced();
    assert Contents(file, []) == [];
  }

  lemma BlankSlot(c: Config)
    requires c.p.Lawful()
    ensures DecodeSlot(c.p, Zeros(SLOT_LEN)) == Ok(None)
  {
    var z := Zeros(SLOT_LEN);
    assert z[..HEAD_LEN] == Zeros(52) && z[HEAD_LEN..SB_LEN] == Zeros(4);
  }

  lemma BirthPlaced()
    ensures Placed(Tables([], []), [], REGION_START)
  {
    var l: seq<Extent> := [];
    assert Packed(l) && TailOf(l, REGION_START);
    assert multiset(l) == ClaimBag(Tables([], []), []);
  }

  // ---- writes into the region -------------------------------------------------------------------------

  lemma RegionWriteKeepsDisk(c: Config, w: World, w2: World, off: nat, data: seq<Byte>, ok: bool)
    requires c.p.Lawful() && DiskInv(c, w) && Wrote(c.p, w.disk, off, data, ok, w2.disk)
    requires off >= w.Current().sb.tail
    requires w2.fallback == w.fallback && w2.fallbackSlot == w.fallbackSlot && w2.attempt == w.attempt
    ensures DiskInv(c, w2) && |w.disk.volatile| <= |w2.disk.volatile|
    ensures forall i :: 0 <= i < off && i < |w.disk.volatile| ==> w2.disk.volatile[i] == w.disk.volatile[i]
  {
    hide SnapOk, DecodeSlot, EncodeSlot, Reads, NamedAt;
    TailsOrdered(c, w);
    RegionWriteBytes(c.p, w.disk, off, data, ok, w2.disk);
    StillDurable(c, w.disk, w2.disk, w.fallback, off);
    if w.attempt.Some? { StillDurable(c, w.disk, w2.disk, w.attempt.value, off); }
    SlotBytesEqual(w.disk.volatile, w2.disk.volatile, 0);
    SlotBytesEqual(w.disk.volatile, w2.disk.volatile, 1);
  }

  lemma RegionWriteBytes(p: Platform, d: Disk, off: nat, data: seq<Byte>, ok: bool, d2: Disk)
    requires DiskOk(d) && Wrote(p, d, off, data, ok, d2) && off >= REGION_START
    ensures DiskOk(d2)
    ensures forall i :: 0 <= i < off && i < |d.volatile| ==> d2.volatile[i] == d.volatile[i]
  {
    hide SlotOutcome, DecodeSlot;
  }

  lemma TailsOrdered(c: Config, w: World)
    requires DiskInv(c, w)
    ensures REGION_START <= w.fallback.sb.tail
    ensures w.fallback.sb.tail <= w.Current().sb.tail <= |w.disk.durable|
  {
    hide ReadTables, Contents, DecodeSlot, EncodeSlot, DirOk, FreeOk;
    SemanticBounds(w.fallback.sb);
    if w.attempt.Some? { SemanticBounds(w.attempt.value.sb); }
  }

  lemma StillDurable(c: Config, d: Disk, d2: Disk, s: Snapshot, off: nat)
    requires SnapOk(c, s) && Durable(c, d, s) && d2.durable == d.durable
    requires forall i :: i in d2.dirty ==> i in d.dirty || i < REGION_START || off <= i
    requires off >= s.sb.tail
    ensures Durable(c, d2, s)
  {
    hide SnapOk, Reads, NamedAt;
    forall i | i in d2.dirty ensures !NamedAt(s, i) {
      if NamedAt(s, i) { NamedBelowTail(c, s, i); }
    }
  }

  lemma WriteKeepsInv(c: Config, w: World, w2: World, off: nat, data: seq<Byte>, ok: bool)
    requires c.p.Lawful() && DiskInv(c, w) && HandleInv(c, w) && RegionWrite(c, w, w2, off, data, ok)
    ensures DiskInv(c, w2) && HandleInv(c, w2)
  {
    hide SnapOk, Durable, Slots, StagedOk, Wrote;
    RegionWriteKeepsDisk(c, w, w2, off, data, ok);
  }

  lemma TailWriteKeepsInv(c: Config, w: World, w2: World, off: nat, data: seq<Byte>, ok: bool)
    requires c.p.Lawful() && DiskInv(c, w) && HandleInv(c, w) && TailWrite(c, w, w2, off, data, ok)
    ensures DiskInv(c, w2) && HandleInv(c, w2)
  {
    hide HandleInv, SnapOk, Durable, Wrote, Struck;
    RegionWriteKeepsDisk(c, w, w2, off, data, ok);
    SameHandle(c, w, w2);
  }

  lemma SameHandle(c: Config, w: World, w2: World)
    requires DiskInv(c, w) && w.fallbackSlot <= 1 && HandleInv(c, w) && w.phase.Idle?
    requires w2 == w.(disk := w2.disk, pens := w2.pens, marred := w2.marred)
    ensures HandleInv(c, w2)
  {
    hide DiskInv, StagedOk;
  }

  // ---- staging ----------------------------------------------------------------------------------------

  lemma SnapshotIsStaged(c: Config, s: Snapshot)
    requires SnapOk(c, s)
    ensures StagedOk(c.p, s.tables, DirExtent(s.sb), s.sb.tail, s.sb.seqno + 1)
  {
    hide Placed, ValidName;
    SemanticBounds(s.sb);
    forall e | e in s.tables.dir ensures EntryOk(c.p, e, s.sb.tail) {
      EntryOkMono(c.p, e, s.sb.dirOff, s.sb.tail);
    }
    FreeOkMono(s.tables.free, s.sb.dirOff, s.sb.tail, s.sb.seqno, s.sb.seqno + 1);
  }

  lemma RegisterKeepsInv(c: Config, w: World, w2: World, name: Name, content: seq<Byte>)
    requires c.p.Lawful() && DiskInv(c, w) && HandleInv(c, w) && RegisterStep(c, w, w2, name, content)
    ensures DiskInv(c, w2) && HandleInv(c, w2)
  {
    hide SnapOk, Durable, Slots, StagedOk, StagePut, FreshMember, ValidName, DiskOk, Stands;
    assert c.p.crc(content) <= U32_MAX;
    PutKeepsStagedOk(c.p, w.h.tables, DirExtent(w.h.sb), w.h.tail, NextSeq(w.h), name, |content|, c.p.crc(content));
  }

  lemma GrowKeepsInv(c: Config, w: World, w2: World, name: Name, delta: seq<Byte>)
    requires c.p.Lawful() && DiskInv(c, w) && HandleInv(c, w) && GrowStep(c, w, w2, name, delta)
    ensures DiskInv(c, w2) && HandleInv(c, w2)
  {
    hide SnapOk, Durable, Slots, StagedOk, StageGrow, ValidName, DiskOk;
    var m := w.h.tables.dir[Position(w.h.tables.dir, name)].member;
    var xsum := c.p.crcCombine(m.xsum, c.p.crc(delta), |delta|);
    assert xsum <= U32_MAX;
    GrowKeepsStagedOk(c.p, w.h.tables, DirExtent(w.h.sb), w.h.tail, NextSeq(w.h), name, |delta|, xsum);
  }

  lemma DropKeepsInv(c: Config, w: World, w2: World, name: Name)
    requires c.p.Lawful() && DiskInv(c, w) && HandleInv(c, w) && DropStep(w, w2, name)
    ensures DiskInv(c, w2) && HandleInv(c, w2)
  {
    hide SnapOk, Durable, Slots, StagedOk, StageDrop, DiskOk;
    DropKeepsStagedOk(c.p, w.h.tables, DirExtent(w.h.sb), w.h.tail, NextSeq(w.h), name);
  }

  lemma DiscardKeepsInv(c: Config, w: World, w2: World)
    requires c.p.Lawful() && DiskInv(c, w) && HandleInv(c, w) && DiscardStep(c, w, w2)
    ensures DiskInv(c, w2) && HandleInv(c, w2)
  {
    hide SnapOk, Durable, Slots, StagedOk, ReadTables, Contents, Open;
    VolatileSelectsCurrent(c, w);
    SnapshotIsStaged(c, w.Current());
  }

  // ---- publication --------------------------------------------------------------------------------------

  lemma SealKeepsInv(c: Config, w: World, w2: World, ok: bool)
    requires c.p.Lawful() && DiskInv(c, w) && HandleInv(c, w) && SealStep(c, w, w2, ok)
    ensures DiskInv(c, w2) && HandleInv(c, w2)
  {
    hide SnapOk, Durable, Slots, StagedOk, Payload, SlotOutcome, Committable;
    var stored := StoredDirectory(c, w.h);
    RegionWriteKeepsDisk(c, w, w2, NextDirOff(w.h), stored, ok);
    if ok {
      assert |stored| > 0 by { SealIsSemanticLen(c, w); }
      assert w2.disk.volatile == Patch(w.disk.volatile, NextDirOff(w.h), stored);
      assert w2.disk.volatile[NextDirOff(w.h)..NextDirOff(w.h) + |stored|] == stored;
    }
  }

  lemma SealIsSemanticLen(c: Config, w: World)
    requires c.p.Lawful()
    ensures |StoredDirectory(c, w.h)| > 0
  {
    var payload := Payload(NextTables(w.h));
    assert |payload| >= 1 && c.p.compress(payload) != [];
  }

  /** Any successful barrier leaves the current state as the durable fallback. */
  lemma FlushKeepsInv(c: Config, w: World)
    requires c.p.Lawful() && DiskInv(c, w)
    ensures DiskInv(c, Settled(w).(disk := Flushed(w.disk)))
  {
    hide SnapOk, NamedAt, DecodeSlot, EncodeSlot, Open, Reads;
    VolatileSelectsCurrent(c, w);
    if w.attempt.Some? { ClaimIsOlder(c, w.fallback, w.attempt.value.sb.seqno); }
  }

  lemma BarrierKeepsInv(c: Config, w: World, w2: World, ok: bool)
    requires c.p.Lawful() && DiskInv(c, w) && HandleInv(c, w) && BarrierStep(c, w, w2, ok)
    ensures DiskInv(c, w2) && HandleInv(c, w2)
  {
    hide SnapOk, Durable, StagedOk, EncodeSlot, DecodeSlot, Committable, StoredDirectory, NextSuperblock, NextFree;
    FlushKeepsInv(c, w);
    assert DiskInv(c, Settled(w).(disk := Flushed(w.disk)));
  }

  lemma SuccessorOk(c: Config, w: World)
    requires c.p.Lawful() && DiskInv(c, w) && HandleInv(c, w) && w.phase.Barred?
    ensures SnapOk(c, Successor(w, w.phase.next, w.phase.free))
    ensures Reads(c, w.disk.durable, Successor(w, w.phase.next, w.phase.free))
  {
    hide DiskInv, Contents, Payload, ReadTables, ValidName;
    var h, next := w.h, w.phase.next;
    var t, dirOff := NextTables(h), NextDirOff(h);
    SealIsSemantic(c.p, t, dirOff, NextSeq(h));
    forall e | e in t.dir ensures EntryOk(c.p, e, dirOff) { EntryOkMono(c.p, e, h.tail, dirOff); }
    NextFreeOk(c, w);
    var l := SuccessorLayout(c, w);
    PublishedTablesRead(c.p, t, l, dirOff, NextSeq(h), w.disk.durable);
  }

  lemma NextFreeOk(c: Config, w: World)
    requires DiskInv(c, w) && HandleInv(c, w) && w.phase.Barred?
    ensures FreeOk(NextFree(w.h), NextDirOff(w.h), NextSeq(w.h))
  {
    hide Durable, Slots, Placed, DirOk, Payload;
    var h := w.h;
    FreeOkMono(h.tables.free, h.tail, NextDirOff(h), NextSeq(h), NextSeq(h));
    SemanticBounds(h.sb);
    assert NextDirOff(h) <= U64_MAX;
  }

  /** The next directory is allocated like any other claim, and the old one becomes free. */
  lemma SuccessorLayout(c: Config, w: World) returns (l: seq<Extent>)
    requires c.p.Lawful() && DiskInv(c, w) && HandleInv(c, w) && w.phase.Barred?
    ensures Packed(l) && TailOf(l, w.phase.next.tail)
    ensures multiset(l) == ClaimBag(NextTables(w.h), DirExtent(w.phase.next))
  {
    hide DiskInv, Packed, TailOf, DirOk, FreeOk, Payload, Committable, AlignUp, Platform.Lawful, Semantic;
    var h := w.h;
    var stored := |StoredDirectory(c, h)|;
    var k: seq<Extent> :| Packed(k) && TailOf(k, h.tail) && multiset(k) == ClaimBag(h.tables, DirExtent(h.sb));
    SealIsSemanticLen(c, w);
    PackedAppend(k, h.tail, stored);
    var added := Extent(NextDirOff(h), stored);
    l := k + [added];
    assert DirExtent(w.phase.next) == [added];
    OldDirectoryFreed(h);
    assert multiset(l) == multiset(k) + multiset{added};
  }

  lemma OldDirectoryFreed(h: Handle)
    ensures multiset(FreeClaims(NextFree(h))) == multiset(FreeClaims(h.tables.free)) + multiset(DirExtent(h.sb))
  {
    assert FreeClaims(NextFree(h)) == FreeClaims(h.tables.free) + DirExtent(h.sb);
  }

  lemma FlipKeepsInv(c: Config, w: World, w2: World, ok: bool)
    requires c.p.Lawful() && DiskInv(c, w) && HandleInv(c, w) && FlipStep(c, w, w2, ok)
    ensures DiskInv(c, w2) && HandleInv(c, w2)
  {
    hide DiskInv, HandleInv, Wrote;
    BarredAtFallback(c, w);
    FlipKeepsDisk(c, w, w2, ok);
    FlipKeepsHandle(c, w, w2, ok);
  }

  lemma BarredAtFallback(c: Config, w: World)
    requires c.p.Lawful() && DiskInv(c, w) && HandleInv(c, w) && w.phase.Barred?
    ensures DiskOk(w.disk) && w.fallbackSlot <= 1
    ensures !w.h.poisoned && w.attempt.None? && AtFallback(w) && w.disk == Flushed(w.disk)
    ensures Representable(w.phase.next)
    ensures w.phase.next.seqno == w.fallback.sb.seqno + 1 && w.fallback.sb.tail <= w.phase.next.tail
  {
    hide StagedOk, Durable, CodecEncode, Payload, Semantic, SlotBytes, EncodeSlot, Placed, DirOk, FreeOk;
    SemanticBounds(w.fallback.sb);
    SealIsSemantic(c.p, NextTables(w.h), NextDirOff(w.h), NextSeq(w.h));
  }

  lemma FlipKeepsHandle(c: Config, w: World, w2: World, ok: bool)
    requires DiskOk(w.disk) && FlipStep(c, w, w2, ok) && w.fallbackSlot <= 1
    requires !w.h.poisoned && w.attempt.None? && AtFallback(w)
    requires ok ==> w2.attempt.Some?
    ensures HandleInv(c, w2)
  {
    hide Wrote, EncodeSlot, SlotBytes, StagedOk, AtCurrent, SealReady;
  }

  lemma FlipKeepsDisk(c: Config, w: World, w2: World, ok: bool)
    requires c.p.Lawful() && DiskInv(c, w) && HandleInv(c, w) && FlipStep(c, w, w2, ok)
    requires w.attempt.None? && AtFallback(w) && w.disk == Flushed(w.disk) && Representable(w.phase.next)
    requires w.phase.next.seqno == w.fallback.sb.seqno + 1 && w.fallback.sb.tail <= w.phase.next.tail
    ensures DiskInv(c, w2) && (ok ==> w2.attempt.Some?)
  {
    hide HandleInv, SnapOk, Reads, NamedAt, DecodeSlot, EncodeSlot, StagedOk, Contents, Semantic, Platform.Lawful, SlotOutcome, Older;
    var s := Successor(w, w.phase.next, w.phase.free);
    var slot := 1 - w.h.slot;
    SuccessorOk(c, w);
    DecodeInvertsEncode(c.p, w.phase.next);
    SlotWriteBytes(c, w.disk, slot, EncodeSlot(c.p, w.phase.next), ok, w2.disk);
    LandedOrOlder(c, SlotBytes(w.disk.volatile, slot), EncodeSlot(c.p, w.phase.next), SlotBytes(w2.disk.volatile, slot),
                  w.fallback.sb.seqno);
    StillDurable(c, w.disk, w2.disk, w.fallback, w.fallback.sb.tail);
    StillDurable(c, w.disk, w2.disk, s, s.sb.tail);
  }

  lemma LandedOrOlder(c: Config, before: seq<Byte>, image: seq<Byte>, got: seq<Byte>, seqno: nat)
    requires c.p.Lawful() && SlotOutcome(c.p, before, image, got) && Older(c, before, seqno)
    ensures got == image || Older(c, got, seqno)
  {
    hide DecodeSlot, Platform.Lawful, Covered;
    TornClaimsNothing(c.p, got);
  }

  lemma SlotWriteBytes(c: Config, d: Disk, slot: nat, image: seq<Byte>, ok: bool, d2: Disk)
    requires slot <= 1 && |image| == SLOT_LEN
    requires DiskOk(d) && Wrote(c.p, d, slot * SLOT_LEN, image, ok, d2)
    ensures DiskOk(d2)
    ensures SlotBytes(d2.volatile, 1 - slot) == SlotBytes(d.volatile, 1 - slot)
    ensures SlotOutcome(c.p, SlotBytes(d.volatile, slot), image, SlotBytes(d2.volatile, slot))
    ensures ok ==> SlotBytes(d2.volatile, slot) == image
  {
    hide DecodeSlot;
    var p := Patch(d.volatile, slot * SLOT_LEN, image);
    assert SlotBytes(p, slot) == image;
    SlotBytesEqual(d.volatile, d2.volatile, 1 - slot);
  }

  lemma SettleKeepsInv(c: Config, w: World, w2: World, ok: bool)
    requires c.p.Lawful() && DiskInv(c, w) && HandleInv(c, w) && SettleStep(w, w2, ok)
    ensures DiskInv(c, w2) && HandleInv(c, w2)
  {
    hide SnapOk, Durable, Slots, StagedOk;
    FlushKeepsInv(c, w);
    SnapshotIsStaged(c, w.Current());
  }

  lemma ReconcileKeepsInv(c: Config, w: World, w2: World)
    requires c.p.Lawful() && DiskInv(c, w) && HandleInv(c, w) && ReconcileStep(c, w, w2)
    ensures DiskInv(c, w2) && HandleInv(c, w2)
  {
    hide SnapOk, Durable, Slots, StagedOk, Open, Reads;
    VolatileSelectsCurrent(c, w);
    SnapshotIsStaged(c, w.Current());
  }

  lemma AcknowledgeKeepsInv(c: Config, w: World, w2: World)
    requires c.p.Lawful() && DiskInv(c, w) && HandleInv(c, w) && AcknowledgeStep(w, w2)
    ensures DiskInv(c, w2) && HandleInv(c, w2)
  {
    hide SnapOk, Durable, Slots, StagedOk;
    FlushKeepsInv(c, w);
  }

  lemma ReopenKeepsInv(c: Config, w: World, w2: World)
    requires c.p.Lawful() && DiskInv(c, w) && ReopenStep(c, w, w2)
    ensures DiskInv(c, w2) && HandleInv(c, w2)
  {
    hide SnapOk, Durable, Slots, StagedOk, Open, Reads;
    VolatileSelectsCurrent(c, w);
    SnapshotIsStaged(c, w.Current());
  }

  lemma CrashKeepsInv(c: Config, w: World, w2: World, img: seq<Byte>)
    requires c.p.Lawful() && DiskInv(c, w) && CrashStep(c, w, w2, img)
    ensures DiskInv(c, w2) && HandleInv(c, w2)
    ensures w2.fallback == w.fallback || Some(w2.fallback) == w.attempt
  {
    hide SnapOk, EncodeSlot, StagedOk, Open, ReadTables, Platform.Lawful, Contents, Older, DiskInv, Reads;
    CrashedOn(c, w, w2, img);
    SnapshotIsStaged(c, w2.fallback);
    SettledDisk(c, w2, img);
  }

  /** The state a power loss leaves, and the slot that names it. */
  lemma CrashedOn(c: Config, w: World, w2: World, img: seq<Byte>)
    requires c.p.Lawful() && DiskInv(c, w) && CrashStep(c, w, w2, img)
    ensures w2.fallback == w.fallback || Some(w2.fallback) == w.attempt
    ensures w2.fallbackSlot <= 1 && |img| >= REGION_START
    ensures SnapOk(c, w2.fallback) && Reads(c, img, w2.fallback)
    ensures SlotBytes(img, w2.fallbackSlot) == EncodeSlot(c.p, w2.fallback.sb)
    ensures Older(c, SlotBytes(img, 1 - w2.fallbackSlot), w2.fallback.sb.seqno)
  {
    hide SnapOk, DecodeSlot, EncodeSlot, Open, ReadTables, SlotOutcome, Platform.Lawful, Contents, Older, Admits;
    CrashSelectsOldOrNew(c, w, img);
  }

  /** A file with nothing in doubt that reads back a state is protected on it. */
  lemma SettledDisk(c: Config, w: World, img: seq<Byte>)
    requires w.disk == Disk(img, img, iset{}) && w.attempt.None? && w.fallbackSlot <= 1 && |img| >= REGION_START
    requires SnapOk(c, w.fallback) && Reads(c, img, w.fallback)
    requires SlotBytes(img, w.fallbackSlot) == EncodeSlot(c.p, w.fallback.sb)
    requires Older(c, SlotBytes(img, 1 - w.fallbackSlot), w.fallback.sb.seqno)
    ensures DiskInv(c, w)
  {
    hide SnapOk, EncodeSlot, Older, Reads;
  }
}
