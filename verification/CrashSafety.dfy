/** The container's promises over whole runs: any sequence of staging, commits, failed barriers,
    process deaths, power losses and hole punches, starting from a new container. */
module CrashSafety {
  import opened Bytes
  import opened Host
  import opened Directory
  import opened Layout
  import opened Superblocks
  import opened Device
  import opened Staging
  import opened Publication
  import opened Durability
  import opened DurabilitySteps
  import opened Readers
  import opened Checksums
  import opened Pens

  ghost predicate Inv(c: Config, w: World) {
    DiskInv(c, w) && w.fallbackSlot <= 1 && HandleInv(c, w) && ReadersInv(c, w) && SumsInv(c, w) && PensInv(c, w)
  }

  lemma InvFacts(c: Config, w: World)
    requires Inv(c, w)
    ensures DiskOk(w.disk) && w.fallbackSlot <= 1
  {
    hide HandleInv, ReadersInv, SumsInv, PensInv, SnapOk, Durable, Slots;
  }

  // ---- the invariant is inductive -------------------------------------------------------------------

  lemma StagingKeepsInv(c: Config, w: World, w2: World)
    requires c.p.Lawful() && Inv(c, w)
    requires (exists name, content :: PutStep(c, w, w2, name, content))
          || (exists name, delta :: GrowStep(c, w, w2, name, delta))
          || (exists name :: DropStep(w, w2, name))
    ensures Inv(c, w2)
  {
    hide Inv, RegisterStep, GrowStep, DropStep;
    if name, content :| PutStep(c, w, w2, name, content) {
      RegisterKeepsAll(c, w, w2, name, content);
    } else if name, delta :| GrowStep(c, w, w2, name, delta) {
      GrowKeepsAll(c, w, w2, name, delta);
    } else {
      var name :| DropStep(w, w2, name);
      DropKeepsAll(c, w, w2, name);
    }
  }

  lemma RegisterKeepsAll(c: Config, w: World, w2: World, name: Name, content: seq<Byte>)
    requires c.p.Lawful() && Inv(c, w) && RegisterStep(c, w, w2, name, content)
    ensures Inv(c, w2)
  {
    hide DiskInv, HandleInv, ReadersInv, SumsInv, PensInv, KeptExtent, StagePut, Stands;
    RegisterKeepsInv(c, w, w2, name, content);
    RegisterKeepsSums(c, w, w2, name, content);
    PensStay(c, w, w2);
    var m := FreshMember(AlignUp(w.h.tail), |content|, c.p.crc(content));
    PutKeepsExtents(w.h.tables, name, m, NextSeq(w.h));
    PutKeepsFree(w.h.tables, name, m, NextSeq(w.h));
    EditKeepsReaders(c, w, w2);
  }

  lemma GrowKeepsAll(c: Config, w: World, w2: World, name: Name, delta: seq<Byte>)
    requires c.p.Lawful() && Inv(c, w) && GrowStep(c, w, w2, name, delta)
    ensures Inv(c, w2)
  {
    hide DiskInv, HandleInv, ReadersInv, SumsInv, PensInv, KeptExtent, StageGrow;
    GrowKeepsInv(c, w, w2, name, delta);
    GrowKeepsSums(c, w, w2, name, delta);
    PensStay(c, w, w2);
    var m := w.h.tables.dir[Position(w.h.tables.dir, name)].member;
    var xsum := c.p.crcCombine(m.xsum, c.p.crc(delta), |delta|);
    GrowKeepsExtents(w.h.tables, name, w.h.tail, |delta|, xsum, NextSeq(w.h));
    GrowKeepsFree(w.h.tables, name, w.h.tail, |delta|, xsum);
    EditKeepsReaders(c, w, w2);
  }

  lemma DropKeepsAll(c: Config, w: World, w2: World, name: Name)
    requires c.p.Lawful() && Inv(c, w) && DropStep(w, w2, name)
    ensures Inv(c, w2)
  {
    hide DiskInv, HandleInv, ReadersInv, SumsInv, PensInv, KeptExtent, StageDrop;
    DropKeepsInv(c, w, w2, name);
    DropKeepsSums(c, w, w2, name);
    PensStay(c, w, w2);
    DropKeepsExtents(w.h.tables, name, NextSeq(w.h));
    DropKeepsFree(w.h.tables, name, NextSeq(w.h));
    EditKeepsReaders(c, w, w2);
  }

  lemma PutKeepsFree(t: Tables, name: Name, m: Member, nextSeq: nat)
    ensures forall f :: f in t.free ==> f in StagePut(t, name, m, nextSeq).free
  {
  }

  lemma GrowKeepsFree(t: Tables, name: Name, tail: nat, len: nat, xsum: nat)
    requires Contains(t.dir, name)
    ensures StageGrow(t, name, tail, len, xsum).free == t.free
  {
  }

  lemma DropKeepsFree(t: Tables, name: Name, nextSeq: nat)
    ensures forall f :: f in t.free ==> f in StageDrop(t, name, nextSeq).free
  {
  }

  lemma WriteKeepsAll(c: Config, w: World, w2: World, off: nat, data: seq<Byte>, ok: bool)
    requires c.p.Lawful() && Inv(c, w) && WriteStep(c, w, w2, off, data, ok)
    ensures Inv(c, w2)
  {
    hide DiskInv, HandleInv, ReadersInv, SumsInv, PensInv, Wrote;
    PensStay(c, w, w2);
    WriteKeepsInv(c, w, w2, off, data, ok);
    WriteKeepsReaders(c, w, w2, off, data, ok);
    WriteKeepsSums(c, w, w2, off, data, ok);
  }

  /** A write through any handle at or past the published tail, the listed handle or not. */
  lemma PenKeepsAll(c: Config, w: World, w2: World, t: PenId, data: seq<Byte>, ok: bool)
    requires c.p.Lawful() && Inv(c, w) && DiskOk(w.disk) && PenStep(c, w, w2, t, data, ok) && PastTail(w, t)
    ensures Inv(c, w2)
  {
    hide DiskInv, HandleInv, ReadersInv, SumsInv, PensInv, Wrote, DiskOk, Struck;
    var off := w.pens[t].At();
    PenKeepsPens(c, w, w2, t, data, ok);
    TailWriteKeepsInv(c, w, w2, off, data, ok);
    TailWriteKeepsReaders(c, w, w2, off, data, ok);
    TailWriteKeepsSums(c, w, w2, off, data, ok);
  }

  /** The listed handle's next byte is past the cursor, and so past the published tail. */
  lemma ListedIsPast(c: Config, w: World)
    requires w.fallbackSlot <= 1 && HandleInv(c, w) && PensInv(c, w) && w.h.openMember.Some?
    ensures w.Listed() in w.pens && PastTail(w, w.Listed())
  {
    hide ValidName, StagedOk;
    AlignedPast(w.h.tail);
  }

  lemma BeginKeepsAll(c: Config, w: World, w2: World, name: Name)
    requires c.p.Lawful() && Inv(c, w) && BeginStep(c, w, w2, name)
    ensures Inv(c, w2)
  {
    hide Protected, ReadersInv, SumsInv, PensInv, StagedOk, ValidName, AlignUp;
    RebasedKeepsReaders(c, w, w2);
    RebasedKeepsSums(c, w, w2);
    BeginKeepsPens(c, w, w2, name);
  }

  lemma AbandonKeepsAll(c: Config, w: World, w2: World)
    requires c.p.Lawful() && Inv(c, w) && AbandonStep(w, w2)
    ensures Inv(c, w2)
  {
    hide Protected, ReadersInv, SumsInv, PensInv, StagedOk;
    RebasedKeepsReaders(c, w, w2);
    RebasedKeepsSums(c, w, w2);
    if w2 == Released(w) { ReleaseKeepsPens(c, w); } else { PensStay(c, w, w2); }
  }

  lemma FinishKeepsAll(c: Config, w: World, w2: World)
    requires c.p.Lawful() && Inv(c, w) && FinishStep(c, w, w2)
    ensures Inv(c, w2)
  {
    hide Inv, RegisterStep;
    AbandonKeepsAll(c, w, Released(w));
    var pen := w.pens[w.Listed()];
    RegisterKeepsAll(c, Released(w), w2, pen.name, pen.content);
  }

  lemma DiscardKeepsAll(c: Config, w: World, w2: World)
    requires c.p.Lawful() && Inv(c, w) && (DiscardStep(c, w, w2) || RefuseStep(c, w, w2))
    ensures Inv(c, w2)
  {
    hide Protected, ReadersInv, SumsInv, StagedOk, ReadTables, Open, Contents;
    if DiscardStep(c, w, w2) {
      DiscardKeepsInv(c, w, w2);
      if !w.h.poisoned { VolatileSelectsCurrent(c, w); }
    }
    RebasedKeepsReaders(c, w, w2);
    RebasedKeepsSums(c, w, w2);
    PensStay(c, w, w2);
  }

  lemma SealKeepsAll(c: Config, w: World, w2: World, ok: bool)
    requires c.p.Lawful() && Inv(c, w) && SealStep(c, w, w2, ok)
    ensures Inv(c, w2)
  {
    hide DiskInv, ReadersInv, SumsInv, StagedOk, Wrote, Payload, SealOf, Committable, AlignUp, ReadTables, CodecEncode;
    SealKeepsInv(c, w, w2, ok);
    SealKeepsSums(c, w, w2, ok);
    AlignedPast(w.h.tail);
    RegionWriteKeepsDisk(c, w, w2, NextDirOff(w.h), StoredDirectory(c, w.h), ok);
    UnseenWriteAll(c, w, w2);
    PensStay(c, w, w2);
  }

  lemma BarrierKeepsAll(c: Config, w: World, w2: World, ok: bool)
    requires c.p.Lawful() && Inv(c, w) && BarrierStep(c, w, w2, ok)
    ensures Inv(c, w2)
  {
    hide DiskInv, HandleInv, ReadersInv, SumsInv, ReadTables;
    BarrierKeepsInv(c, w, w2, ok);
    RebasedKeepsReaders(c, w, w2);
    RebasedKeepsSums(c, w, w2);
    PensStay(c, w, w2);
  }

  lemma FlipKeepsAll(c: Config, w: World, w2: World, ok: bool)
    requires c.p.Lawful() && Inv(c, w) && FlipStep(c, w, w2, ok)
    ensures Inv(c, w2)
  {
    hide ReadersInv, SumsInv, SnapOk, Durable, Slots, StagedOk, Wrote, EncodeSlot, SealOf;
    FlipKeepsInv(c, w, w2, ok);
    FlipKeepsReaders(c, w, w2, ok);
    FlipKeepsSums(c, w, w2, ok);
    PensStay(c, w, w2);
  }

  lemma SettleKeepsAll(c: Config, w: World, w2: World, ok: bool)
    requires c.p.Lawful() && Inv(c, w) && SettleStep(w, w2, ok)
    ensures Inv(c, w2)
  {
    hide DiskInv, ReadersInv, SumsInv, StagedOk;
    SettleKeepsInv(c, w, w2, ok);
    RebasedKeepsReaders(c, w, w2);
    RebasedKeepsSums(c, w, w2);
    PensStay(c, w, w2);
  }

  lemma ReconcileKeepsAll(c: Config, w: World, w2: World)
    requires c.p.Lawful() && Inv(c, w) && ReconcileStep(c, w, w2)
    ensures Inv(c, w2)
  {
    hide DiskInv, ReadersInv, SumsInv, StagedOk, Open, Reads;
    ReconcileKeepsInv(c, w, w2);
    VolatileSelectsCurrent(c, w);
    RebasedKeepsReaders(c, w, w2);
    RebasedKeepsSums(c, w, w2);
    PensStay(c, w, w2);
  }

  lemma AcknowledgeKeepsAll(c: Config, w: World, w2: World)
    requires c.p.Lawful() && Inv(c, w) && AcknowledgeStep(w, w2)
    ensures Inv(c, w2)
  {
    hide DiskInv, HandleInv, ReadersInv, SumsInv;
    AcknowledgeKeepsInv(c, w, w2);
    RebasedKeepsReaders(c, w, w2);
    RebasedKeepsSums(c, w, w2);
    PensStay(c, w, w2);
  }

  lemma PunchKeepsAll(c: Config, w: World, w2: World, f: Freed, grace: nat, ok: bool)
    requires c.p.Lawful() && Inv(c, w) && PunchStep(c, w, w2, f, grace, ok)
    ensures Inv(c, w2)
  {
    hide DiskInv, HandleInv, ReadersInv, SumsInv, Wrote, Punchable;
    PunchKeepsInv(c, w, w2, f, grace, ok);
    PunchKeepsReaders(c, w, w2, f, grace, ok);
    PunchKeepsSums(c, w, w2, f, grace, ok);
    InvFacts(c, w);
    PunchBytes(c, w, w2, f, grace, ok);
    PensStay(c, w, w2);
  }

  lemma ReopenKeepsAll(c: Config, w: World, w2: World)
    requires c.p.Lawful() && Inv(c, w) && ReopenStep(c, w, w2)
    ensures Inv(c, w2)
  {
    hide DiskInv, HandleInv, ReadersInv, SumsInv, Open, Reads;
    ReopenKeepsInv(c, w, w2);
    VolatileSelectsCurrent(c, w);
    RebasedKeepsReaders(c, w, w2);
    RebasedKeepsSums(c, w, w2);
    ReopenKeepsPens(c, w, w2);
  }

  lemma CrashKeepsAll(c: Config, w: World, w2: World, img: seq<Byte>)
    requires c.p.Lawful() && Inv(c, w) && CrashStep(c, w, w2, img)
    ensures Inv(c, w2)
  {
    hide SnapOk, Reads, Slots, Durable, StagedOk, Open, CrashImage, SumsOk, MemberClaims;
    CrashKeepsInv(c, w, w2, img);
    KeptBySelf(w2.fallback);
    CrashReaders(c, w2);
    assert SumsOk(c.p, w2.fallback.tables.dir, w2.fallback.contents, w2.marred);
    CurrentFileSumsOf(c, w2);
    CrashKeepsPens(c, w, w2, img);
  }

  lemma CrashReaders(c: Config, w: World)
    requires DiskInv(c, w) && w.attempt.None? && w.readers == [w.fallback] && w.horizon == w.fallback.sb.seqno
    requires w.disk == Flushed(w.disk) && (StillStaging(w) ==> w.h.tables == w.fallback.tables)
    ensures ReadersInv(c, w)
  {
    hide SnapOk, Slots, ReadTables, Contents;
    KeptBySelf(w.fallback);
  }

  lemma CurrentFileSumsOf(c: Config, w: World)
    requires c.p.Lawful() && DiskInv(c, w) && w.attempt.None? && SumsOk(c.p, w.fallback.tables.dir, w.fallback.contents, w.marred)
    ensures FileSums(c.p, w.disk.volatile, w.fallback.tables.dir, w.marred)
  {
    hide Protected, SumsOk, FileSums;
    var w2 := w.(h := w.h.(poisoned := true));
    assert DiskInv(c, w2);
    CurrentFileSums(c, w2);
  }

  lemma OwnKeepsInv(c: Config, w: World, w2: World)
    requires c.p.Lawful() && Inv(c, w) && DiskOk(w.disk) && w.fallbackSlot <= 1 && OwnStep(c, w, w2)
    ensures Inv(c, w2)
  {
    hide Inv, WriteStep, PutStep, GrowStep, DropStep, BeginStep, PenStep,
         AbandonStep, FinishStep, DiscardStep, SealStep, RefuseStep, BarrierStep,
         FlipStep, SettleStep, ReconcileStep, AcknowledgeStep, PunchStep, ReopenStep, CrashStep, DiskOk;
    if off, data, ok :| WriteStep(c, w, w2, off, data, ok) { WriteKeepsAll(c, w, w2, off, data, ok); }
    else if (exists name, content :: PutStep(c, w, w2, name, content))
         || (exists name, delta :: GrowStep(c, w, w2, name, delta))
         || (exists name :: DropStep(w, w2, name)) { StagingKeepsInv(c, w, w2); }
    else if name :| BeginStep(c, w, w2, name) { BeginKeepsAll(c, w, w2, name); }
    else if AbandonStep(w, w2) { AbandonKeepsAll(c, w, w2); }
    else if FinishStep(c, w, w2) { FinishKeepsAll(c, w, w2); }
    else if DiscardStep(c, w, w2) || RefuseStep(c, w, w2) { DiscardKeepsAll(c, w, w2); }
    else if ok :| SealStep(c, w, w2, ok) { SealKeepsAll(c, w, w2, ok); }
    else if ok :| BarrierStep(c, w, w2, ok) { BarrierKeepsAll(c, w, w2, ok); }
    else if ok :| FlipStep(c, w, w2, ok) { FlipKeepsAll(c, w, w2, ok); }
    else if ok :| SettleStep(w, w2, ok) { SettleKeepsAll(c, w, w2, ok); }
    else if ReconcileStep(c, w, w2) { ReconcileKeepsAll(c, w, w2); }
    else if AcknowledgeStep(w, w2) { AcknowledgeKeepsAll(c, w, w2); }
    else if f, grace, ok :| PunchStep(c, w, w2, f, grace, ok) { PunchKeepsAll(c, w, w2, f, grace, ok); }
    else if ReopenStep(c, w, w2) { ReopenKeepsAll(c, w, w2); }
    else if img :| CrashStep(c, w, w2, img) { CrashKeepsAll(c, w, w2, img); }
  }

  lemma NextKeepsInv(c: Config, w: World, w2: World)
    requires c.p.Lawful() && Inv(c, w) && Next(c, w, w2)
    ensures Inv(c, w2)
  {
    hide Inv, OwnStep, PenStep, PastTail;
    if OwnStep(c, w, w2) {
      OwnKeepsInv(c, w, w2);
    } else {
      var t, data, ok :| PenStep(c, w, w2, t, data, ok) && PastTail(w, t);
      PenKeepsAll(c, w, w2, t, data, ok);
    }
  }

  lemma {:induction false} RunKeepsInv(c: Config, ws: seq<World>, i: nat)
    requires c.p.Lawful() && Run(c, ws) && i < |ws|
    ensures Inv(c, ws[i])
  {
    hide Next, DiskInv, HandleInv, ReadersInv, SumsInv, PensInv;
    if i == 0 {
      BirthInv(c);
      BirthReaders(c);
      BirthSums(c);
      BirthPens(c);
    } else {
      RunKeepsInv(c, ws, i - 1);
      assert Next(c, ws[i - 1], ws[i - 1 + 1]);
      NextKeepsInv(c, ws[i - 1], ws[i]);
    }
  }

  // ---- what it promises -------------------------------------------------------------------------------

  /** A file opened as exactly `s`: its directory, its free list and every member byte, with the one
      refusal that runtime limits may make of that state. Every checksum is right but, it may be, those of
      members that begin where one was registered over bytes that no longer stood. */
  ghost predicate OpensAs(c: Config, file: seq<Byte>, s: Snapshot, marred: set<nat>) {
    && (exists slot :: SelectIn(c.p, file) == Ok((s.sb, slot)) && Open(c, file) == Selected(c, s, slot))
    && Contents(file, s.tables.dir) == s.contents
    && SumsOk(c.p, s.tables.dir, s.contents, marred)
  }

  /** Crash atomicity over whole runs: power may fail between any two file operations, and every
      file it may leave opens as the last durable state or as the one being published -- never a
      mixture, and never as contradictory superblocks. */
  lemma CrashAtomicity(c: Config, ws: seq<World>, i: nat, img: seq<Byte>)
    requires c.p.Lawful() && Run(c, ws) && i < |ws| && DiskOk(ws[i].disk) && CrashImage(c.p, ws[i].disk, img)
    ensures OpensAs(c, img, ws[i].fallback, ws[i].marred)
         || (ws[i].attempt.Some? && OpensAs(c, img, ws[i].attempt.value, ws[i].marred))
  {
    hide DiskInv, HandleInv, ReadersInv, Open, Selected, SumsOk, Run, CrashImage, DiskOk;
    RunKeepsInv(c, ws, i);
    CrashOpensAs(c, ws[i], img);
  }

  lemma CrashOpensAs(c: Config, w: World, img: seq<Byte>)
    requires c.p.Lawful() && DiskInv(c, w) && SumsInv(c, w) && CrashImage(c.p, w.disk, img)
    ensures OpensAs(c, img, w.fallback, w.marred) || (w.attempt.Some? && OpensAs(c, img, w.attempt.value, w.marred))
  {
    hide SnapOk, Open, Selected, SumsOk, CrashImage, ReadTables, EncodeSlot, DecodeSlot;
    CrashSelectsOldOrNew(c, w, img);
    if Open(c, img) == Selected(c, w.fallback, w.fallbackSlot) && Reads(c, img, w.fallback)
       && Older(c, SlotBytes(img, 1 - w.fallbackSlot), w.fallback.sb.seqno)
       && SlotBytes(img, w.fallbackSlot) == EncodeSlot(c.p, w.fallback.sb) {
      OpenSelects(c, img, w.fallback, w.fallbackSlot);
    } else {
      OpenSelects(c, img, w.attempt.value, 1 - w.fallbackSlot);
    }
  }

  /** Failed publication: whatever errors came before, a handle that still accepts mutation and
      holds nothing staged is exactly what a fresh open of the file would build. */
  lemma WritableHandleIsFresh(c: Config, ws: seq<World>, i: nat)
    requires c.p.Lawful() && Run(c, ws) && i < |ws|
    requires ws[i].phase.Idle? && !ws[i].h.poisoned
    ensures var w := ws[i]; var h := w.h;
      && Selected(c, w.Current(), h.slot) == Open(c, w.disk.volatile)
      && h.sb == w.Current().sb
      && (!h.staged ==> h.tables == w.Current().tables && h.tail == h.sb.tail)
      && (h.acknowledged ==> w.attempt.None? && Durable(c, w.disk, w.Current()))
  {
    hide Open, SumsInv, ReadersInv, SnapOk, Slots, StagedOk, Reads, NamedAt, Run;
    RunKeepsInv(c, ws, i);
    VolatileSelectsCurrent(c, ws[i]);
  }

  /** Before any slot is overwritten, the other slot and everything it names are durable, even when
      that slot was adopted without an acknowledged barrier. */
  lemma OverwrittenSlotHasDurablePeer(c: Config, ws: seq<World>, i: nat, ok: bool)
    requires c.p.Lawful() && Run(c, ws) && i < |ws| - 1 && ws[i].fallbackSlot <= 1 && DiskOk(ws[i].disk)
    requires FlipStep(c, ws[i], ws[i + 1], ok)
    ensures var d := ws[i].disk;
      && SlotBytes(d.durable, ws[i].h.slot) == EncodeSlot(c.p, ws[i].h.sb)
      && ws[i].h.sb == ws[i].fallback.sb && Durable(c, d, ws[i].fallback) && d.dirty == iset{}
  {
    hide SumsInv, ReadersInv, SnapOk, StagedOk, Reads, NamedAt, EncodeSlot, DecodeSlot, Run, Wrote, SealReady;
    RunKeepsInv(c, ws, i);
  }

  /** Reader isolation: a state some reader may hold keeps its bytes, unless a punch declared it
      older than the grace window. */
  lemma ReaderIsolation(c: Config, ws: seq<World>, i: nat, s: Snapshot)
    requires c.p.Lawful() && Run(c, ws) && i < |ws|
    requires s in ws[i].readers && ws[i].horizon <= s.sb.seqno
    ensures Contents(ws[i].disk.volatile, s.tables.dir) == s.contents
    ensures Kept(s, ws[i].Current().tables)
  {
    hide DiskInv, HandleInv, SumsInv, Run, Contents, SnapOk, Kept;
    RunKeepsInv(c, ws, i);
    assert ReaderOk(c, ws[i].disk.volatile, ws[i].Current(), s);
  }

  /** Only a power loss ends a reader's hold, and only a punch moves the horizon, never past the
      grace window behind the selected state. */
  lemma ReadersPersist(c: Config, w: World, w2: World)
    requires Next(c, w, w2)
    ensures (exists img :: CrashStep(c, w, w2, img))
         || ((forall s :: s in w.readers ==> s in w2.readers)
             && (w2.horizon == w.horizon
                 || exists f, grace, ok :: PunchStep(c, w, w2, f, grace, ok) && w2.horizon == Max(w.horizon, Spared(w.h.sb.seqno, grace))))
  {
    hide CrashStep, PunchStep, PenStep, PastTail, DiskOk, OwnStep;
    if t, data, ok :| PenStep(c, w, w2, t, data, ok) && PastTail(w, t) {
      PenHolds(c, w, w2, t, data, ok);
    } else if f, grace, ok :| PunchStep(c, w, w2, f, grace, ok) {
      PunchHolds(c, w, w2, f, grace, ok);
    } else if !exists img :: CrashStep(c, w, w2, img) {
      OwnStepHolds(c, w, w2);
    }
  }

  lemma PenHolds(c: Config, w: World, w2: World, t: PenId, data: seq<Byte>, ok: bool)
    requires DiskOk(w.disk) && PenStep(c, w, w2, t, data, ok)
    ensures t in w.pens && w.phase.Idle? && w2.readers == w.readers && w2.horizon == w.horizon
  {
    hide Wrote;
  }

  lemma PunchHolds(c: Config, w: World, w2: World, f: Freed, grace: nat, ok: bool)
    requires DiskOk(w.disk) && PunchStep(c, w, w2, f, grace, ok)
    ensures w2.readers == w.readers && w2.horizon == Max(w.horizon, Spared(w.h.sb.seqno, grace))
  {
    hide Wrote;
  }

  lemma OwnStepHolds(c: Config, w: World, w2: World)
    requires DiskOk(w.disk) && w.fallbackSlot <= 1 && OwnStep(c, w, w2)
    requires !(exists img :: CrashStep(c, w, w2, img)) && !(exists f, grace, ok :: PunchStep(c, w, w2, f, grace, ok))
    ensures (forall s :: s in w.readers ==> s in w2.readers) && w2.horizon == w.horizon
  {
    hide CrashStep, PunchStep, DiskOk, Wrote, Stands, Committable, Poisoned, Reconciled, Discarded, StagePut, StageGrow, StageDrop,
         ValidName, Open, EncodeSlot, Successor, NextSuperblock, FreshMember, AppendAt, Coalesces, AlignUp;
  }

  /** Directory soundness, space: in every state of every run, each byte of a published region is claimed at
      most once, and an unclaimed byte is alignment padding. */
  lemma PublishedSpaceAccounted(c: Config, ws: seq<World>, i: nat, s: Snapshot, b: nat)
    requires c.p.Lawful() && Run(c, ws) && i < |ws|
    requires s == ws[i].fallback || s == ws[i].Current() || (s in ws[i].readers && ws[i].horizon <= s.sb.seqno)
    requires REGION_START <= b < s.sb.tail
    ensures var claims := Claims(s.tables, DirExtent(s.sb));
      && (forall i, j :: 0 <= i < j < |claims| ==> !(Covers(claims[i], b) && Covers(claims[j], b)))
      && ((forall i :: 0 <= i < |claims| ==> !Covers(claims[i], b)) ==>
            exists e :: e in claims && End(e) <= b < AlignUp(End(e)))
  {
    hide Run, HandleInv, SumsInv, Durable, Slots, SnapOk, Kept;
    RunKeepsInv(c, ws, i);
    assert SnapOk(c, s);
    SpaceAccounted(c, s, b);
  }

  lemma SpaceAccounted(c: Config, s: Snapshot, b: nat)
    requires SnapOk(c, s) && REGION_START <= b < s.sb.tail
    ensures var claims := Claims(s.tables, DirExtent(s.sb));
      && (forall i, j :: 0 <= i < j < |claims| ==> !(Covers(claims[i], b) && Covers(claims[j], b)))
      && ((forall i :: 0 <= i < |claims| ==> !Covers(claims[i], b)) ==>
            exists e :: e in claims && End(e) <= b < AlignUp(End(e)))
  {
    hide Packed, DirOk, FreeOk, Semantic, Claims, AlignUp;
    var claims := Claims(s.tables, DirExtent(s.sb));
    var l: seq<Extent> :| Packed(l) && TailOf(l, s.sb.tail) && multiset(l) == ClaimBag(s.tables, DirExtent(s.sb));
    ClaimBagOf(s.tables, DirExtent(s.sb));
    forall i, j | 0 <= i < j < |claims| ensures !(Covers(claims[i], b) && Covers(claims[j], b)) {
      assert claims[i] in multiset(claims) && claims[j] in multiset(claims);
      assert claims[i] in multiset(l) && claims[j] in multiset(l);
      if claims[i] == claims[j] {
        PackedOnce(l, claims[i]);
        Repeated(claims, i, j);
        assert false;
      }
      ClaimsDisjoint(l, claims[i], claims[j]);
    }
    EveryByteAccounted(l, s.sb.tail, b);
    if forall i :: 0 <= i < |claims| ==> !Covers(claims[i], b) {
      forall k | 0 <= k < |l| ensures l[k] in claims {
        assert l[k] in multiset(l);
        assert l[k] in multiset(claims);
      }
    }
  }
}
