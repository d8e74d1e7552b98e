/** Member-write handles that outlive their turn. `write_all_at` looks at nothing but the handle, so a
    handle whose member was discarded still writes at its old place: runs in which that damages a staged member,
    the member being written, and a published one, exactly where it damages nothing, and the check that would
    keep it from doing any. */
module StaleHandles {
  import opened Bytes
  import opened Host
  import Varint
  import opened Directory
  import opened Layout
  import opened Superblocks
  import opened Device
  import opened Staging
  import opened Publication
  import opened Durability
  import opened DurabilitySteps
  import opened Readers
  import opened Checksums
  import opened Pens
  import opened CrashSafety

  // ---- a commit may run to its end ----------------------------------------------------------------------

  /** From any state with publishable staged changes a commit may run to its end. */
  lemma CommitRuns(c: Config, w: World) returns (ws: seq<World>)
    requires c.p.Lawful() && DiskInv(c, w) && HandleInv(c, w)
    requires w.phase.Idle? && Writable(w.h) && w.h.staged
    requires NextSeq(w.h) <= U64_MAX && Committable(c.p, NextTables(w.h), NextDirOff(w.h))
    ensures |ws| == 5 && ws[0] == w && forall i :: 0 <= i < 4 ==> Next(c, ws[i], ws[i + 1])
    ensures DiskInv(c, ws[4]) && ws[4].phase.Idle? && ws[4].attempt.None? && ws[4].disk == Flushed(ws[4].disk)
    ensures ws[4].fallback.tables == NextTables(w.h) && ws[4].fallback.sb == NextSuperblock(c, w.h) && ws[4].pens == w.pens
    ensures Carries(w.disk.volatile, ws[4].disk.volatile, w.h.tail)
  {
    hide DiskInv, HandleInv, Next, Committable, NextFree, NextSuperblock, StoredDirectory, Wrote;
    var sealed := SealRuns(c, w);
    var barred := BarrierRuns(c, sealed);
    var flipped := FlipRuns(c, barred);
    var settled := SettleRuns(c, flipped);
    ws := [w, sealed, barred, flipped, settled];
    CarriesOn(w.disk.volatile, sealed.disk.volatile, flipped.disk.volatile, w.h.tail);
  }

  /** No byte of the region below `end` has changed. */
  ghost predicate Carries(a: seq<Byte>, b: seq<Byte>, end: nat) {
    && |a| <= |b|
    && forall i :: REGION_START <= i < end && i < |a| ==> b[i] == a[i]
  }

  lemma CarriesOn(a: seq<Byte>, b: seq<Byte>, d: seq<Byte>, end: nat)
    requires Carries(a, b, end) && Carries(b, d, |b|)
    ensures Carries(a, d, end)
  {
  }

  lemma SealRuns(c: Config, w: World) returns (w2: World)
    requires c.p.Lawful() && DiskInv(c, w) && HandleInv(c, w)
    requires w.phase.Idle? && Writable(w.h) && w.h.staged
    requires NextSeq(w.h) <= U64_MAX && Committable(c.p, NextTables(w.h), NextDirOff(w.h))
    ensures Next(c, w, w2) && DiskInv(c, w2) && HandleInv(c, w2)
    ensures w2.phase == Sealed(NextSuperblock(c, w.h), NextFree(w.h))
    ensures w2.h == w.h.(failedSelected := None) && w2.pens == w.pens
    ensures Carries(w.disk.volatile, w2.disk.volatile, w.h.tail)
  {
    hide SnapOk, Durable, Slots, StagedOk, Committable, NextTables, NextSuperblock, StoredDirectory, DecodeSlot;
    var stored := StoredDirectory(c, w.h);
    var d := Landed(w.disk, NextDirOff(w.h), stored);
    w2 := w.(disk := d, phase := Sealed(NextSuperblock(c, w.h), NextFree(w.h)), h := w.h.(failedSelected := None));
    assert SealStep(c, w, w2, true);
    SealKeepsInv(c, w, w2, true);
  }

  /** The disk after a write that succeeds. */
  ghost function Landed(d: Disk, off: nat, data: seq<Byte>): Disk {
    Disk(d.durable, Patch(d.volatile, off, data), iset i: int | i in d.dirty || off <= i < off + |data|)
  }

  lemma BarrierRuns(c: Config, w: World) returns (w2: World)
    requires c.p.Lawful() && DiskInv(c, w) && HandleInv(c, w) && w.phase.Sealed?
    ensures Next(c, w, w2) && DiskInv(c, w2) && HandleInv(c, w2)
    ensures w2.phase == Barred(w.phase.next, w.phase.free) && w2.h == w.h && w2.disk.volatile == w.disk.volatile
    ensures w2.pens == w.pens
  {
    hide SnapOk, Durable, Slots, StagedOk, SealReady, DecodeSlot;
    w2 := Settled(w).(disk := Flushed(w.disk), phase := Barred(w.phase.next, w.phase.free));
    assert BarrierStep(c, w, w2, true);
    BarrierKeepsInv(c, w, w2, true);
  }

  lemma FlipRuns(c: Config, w: World) returns (w2: World)
    requires c.p.Lawful() && DiskInv(c, w) && HandleInv(c, w) && w.phase.Barred?
    ensures Next(c, w, w2) && DiskInv(c, w2) && HandleInv(c, w2)
    ensures w2.phase == Flipped(w.phase.next, w.phase.free) && w2.h == w.h && w2.pens == w.pens
    ensures w2.attempt.Some? && w2.attempt.value.tables == Tables(w.h.tables.dir, w.phase.free)
    ensures w2.attempt.value.sb == w.phase.next
    ensures Carries(w.disk.volatile, w2.disk.volatile, |w.disk.volatile|)
  {
    hide SnapOk, Durable, Slots, StagedOk, SealReady, DecodeSlot, EncodeSlot;
    var slot, image := 1 - w.h.slot, EncodeSlot(c.p, w.phase.next);
    EncodeSlotLength(c.p, w.phase.next);
    var d := Landed(w.disk, slot * SLOT_LEN, image);
    assert SlotBytes(d.volatile, slot) == image;
    var s := Successor(w, w.phase.next, w.phase.free);
    w2 := w.(disk := d, phase := Flipped(w.phase.next, w.phase.free), attempt := Some(s), readers := w.readers + [s]);
    assert FlipStep(c, w, w2, true);
    FlipKeepsInv(c, w, w2, true);
  }

  lemma SettleRuns(c: Config, w: World) returns (w2: World)
    requires c.p.Lawful() && DiskInv(c, w) && HandleInv(c, w) && w.phase.Flipped? && w.attempt.Some?
    ensures Next(c, w, w2) && DiskInv(c, w2) && HandleInv(c, w2)
    ensures w2.phase.Idle? && w2.attempt.None? && w2.fallback == w.attempt.value && w2.pens == w.pens
    ensures w2.disk == Flushed(w.disk)
  {
    hide SnapOk, Durable, Slots, StagedOk, DecodeSlot, EncodeSlot;
    w2 := Settled(w).(
      disk := Flushed(w.disk), phase := Idle,
      h := w.h.(tables := Tables(w.h.tables.dir, w.phase.free), sb := w.phase.next, tail := w.phase.next.tail,
                slot := if w.h.slot == 0 then 1 else 0, staged := false, failedSelected := None, acknowledged := true));
    assert SettleStep(w, w2, true);
    SettleKeepsInv(c, w, w2, true);
  }

  /** A one-member directory is far below every ceiling. */
  lemma SmallDirectory(p: Platform, name: Name, n: nat, xsum: nat)
    requires ValidName(name) && 0 < n <= U32_MAX && xsum <= U32_MAX
    ensures Committable(p, Tables([Entry(name, FreshMember(REGION_START, n, xsum))], []), AlignUp(REGION_START + n))
  {
    hide CodecEncode, Varint.Put, AlignUp;
    var m := FreshMember(REGION_START, n, xsum);
    var t := Tables([Entry(name, m)], []);
    assert m.extents == [Extent(REGION_START, n)];
    Short(1);
    Short(0);
    Short(|name|);
    Short(REGION_START);
    Short(n);
    OneEntryPayload(name, m);
    AlignUpBelow(REGION_START + n);
  }

  lemma AlignUpBelow(x: nat)
    ensures AlignUp(x) < x + ALIGN
  {
  }

  lemma OneEntryPayload(name: Name, m: Member)
    requires |m.extents| == 1
    ensures |Payload(Tables([Entry(name, m)], []))|
         == 2 * |Varint.Put(1)| + |Varint.Put(|name|)| + |name|
            + |Varint.Put(m.extents[0].off)| + |Varint.Put(m.extents[0].len)| + 4 + |Varint.Put(0)|
  {
    hide Varint.Put;
    var rest := Varint.Put(0) + PutFree([], []);
    var e := Entry(name, m);
    assert m.extents[1..] == [] && [e][1..] == [];
    assert PutExtents([], Le(m.xsum, 4) + rest) == Le(m.xsum, 4) + rest;
    assert PutExtents(m.extents, Le(m.xsum, 4) + rest)
        == Varint.Put(m.extents[0].off) + (Varint.Put(m.extents[0].len) + PutExtents(m.extents[1..], Le(m.xsum, 4) + rest));
    assert PutEntries([], rest) == rest && PutFree([], []) == [];
    assert PutEntries([e], rest) == PutEntry(e, PutEntries([e][1..], rest));
  }

  lemma Short(v: nat)
    requires v <= U64_MAX
    ensures |Varint.Put(v)| <= 10
  {
    Varint.GetInvertsPut(v, []);
    assert Varint.Put(v) + [] == Varint.Put(v);
    GetUses(Varint.Put(v), 0);
  }

  lemma {:induction false} GetUses(b: seq<Byte>, index: nat)
    requires index <= 9
    ensures Varint.GetAt(b, index).Ok? ==> Varint.GetAt(b, index).value.1 <= 10 - index
    decreases 9 - index
  {
    if |b| > 0 && index < 9 { GetUses(b[1..], index + 1); }
  }

  function OneMember(p: Platform, name: Name, content: seq<Byte>): seq<Entry> {
    [Entry(name, FreshMember(REGION_START, |content|, p.crc(content)))]
  }

  // ---- a run that damages a staged member ---------------------------------------------------------------

  const FIRST := PenId(0, 1)
  const SECOND := PenId(0, 2)

  /** A handle on the first member of a new container, its turn over before a byte was written. */
  ghost function Abandoned(c: Config, name: Name): World {
    var w := BirthWorld(c);
    w.(h := w.h.(nextToken := 1), pens := map[FIRST := Pen(name, REGION_START, [])])
  }

  /** Birth, `begin_member`, `discard_staged`. */
  lemma BegunThenDiscarded(c: Config, name: Name) returns (ws: seq<World>)
    requires c.p.Lawful() && ValidName(name) && c.p.utf8(name)
    ensures |ws| == 3 && ws[0] == BirthWorld(c) && ws[2] == Abandoned(c, name)
    ensures Next(c, ws[0], ws[1]) && Next(c, ws[1], ws[2])
    ensures BeginStep(c, ws[0], ws[1], name) && DiscardStep(c, ws[1], ws[2])
    ensures Inv(c, ws[2])
  {
    hide DiskInv, HandleInv, ReadersInv, SumsInv, PensInv, EncodeSlot, SlotOutcome, StagedOk, Zeros, ValidName, Platform.Lawful;
    var w0 := BirthWorld(c);
    BirthRunKeepsInv(c, w0);
    BirthDisk(c);
    var w1 := w0.(h := w0.h.(openMember := Some(1), nextToken := 1), pens := map[FIRST := Pen(name, REGION_START, [])]);
    assert AlignUp(REGION_START) == REGION_START;
    assert BeginStep(c, w0, w1, name);
    var w2 := Abandoned(c, name);
    assert DiscardStep(c, w1, w2);
    NextKeepsInv(c, w0, w1);
    NextKeepsInv(c, w1, w2);
    ws := [w0, w1, w2];
  }

  lemma BirthDisk(c: Config)
    requires c.p.Lawful()
    ensures DiskOk(BirthWorld(c).disk) && |BirthWorld(c).disk.volatile| == REGION_START
  {
    EncodeSlotLength(c.p, BIRTH);
  }

  /** The put that takes the discarded member's place. */
  lemma PutTakesThePlace(c: Config, w: World, name: Name, content: seq<Byte>) returns (w2: World, w3: World)
    requires c.p.Lawful() && ValidName(name) && c.p.utf8(name) && 0 < |content| <= U32_MAX
    requires w == Abandoned(c, name) && Inv(c, w)
    requires DiskOk(BirthWorld(c).disk) && |BirthWorld(c).disk.volatile| == REGION_START
    ensures Next(c, w, w2) && Next(c, w2, w3) && Inv(c, w3) && DiskOk(w3.disk)
    ensures w3.phase.Idle? && Writable(w3.h) && w3.h.staged && w3.h.sb == BIRTH
    ensures w3.h.tail == REGION_START + |content| <= |w3.disk.volatile|
    ensures w3.h.tables == Tables(OneMember(c.p, name, content), [])
    ensures ReadMember(w3.disk.volatile, w3.h.tables.dir, name) == Some(content)
    ensures w3.fallback == w.fallback && w3.attempt == w.attempt && w3.pens == w.pens
    ensures w3.disk.volatile[REGION_START..REGION_START + |content|] == content
  {
    hide DiskInv, HandleInv, ReadersInv, SumsInv, PensInv, EncodeSlot, StagedOk, ValidName, Platform.Lawful, SlotOutcome;
    var n := |content|;
    w2 := w.(disk := Landed(w.disk, REGION_START, content));
    assert WriteStep(c, w, w2, REGION_START, content, true);
    NextKeepsInv(c, w, w2);
    assert w2.disk.volatile[REGION_START..REGION_START + n] == content;
    w3 := w2.(h := w2.h.(tables := Tables(OneMember(c.p, name, content), []), tail := REGION_START + n, staged := true));
    PutIsOneMember(c.p, name, content, NextSeq(w2.h));
    assert PutStep(c, w2, w3, name, content);
    NextKeepsInv(c, w2, w3);
    ReadsOneMember(c.p, w3.disk.volatile, name, content, content);
  }

  /** The old handle writes over it. The step is one of the protocol: nothing is published there yet. */
  lemma Overwrites(c: Config, w: World, n: nat, other: seq<Byte>) returns (w2: World)
    requires c.p.Lawful() && Inv(c, w) && w.phase.Idle? && |other| == n
    requires w.Current().sb.tail <= REGION_START && REGION_START + n <= |w.disk.volatile|
    requires DiskOk(w.disk) && FIRST in w.pens && w.pens[FIRST].At() == REGION_START && n <= U32_MAX
    ensures PenStep(c, w, w2, FIRST, other, true) && PastTail(w, FIRST) && Next(c, w, w2)
    ensures w2 == w.(disk := w2.disk, pens := w2.pens, marred := w2.marred)
    ensures forall t :: t in w.pens && t != FIRST ==> t in w2.pens && w2.pens[t] == w.pens[t]
    ensures Inv(c, w2) && DiskOk(w2.disk)
    ensures |w2.disk.volatile| == |w.disk.volatile| && w2.disk.volatile[REGION_START..REGION_START + n] == other
  {
    hide DiskInv, HandleInv, ReadersInv, SumsInv, PensInv, EncodeSlot, Platform.Lawful, SlotOutcome, Struck, OwnStep;
    w2 := w.(disk := Landed(w.disk, REGION_START, other),
             pens := w.pens[FIRST := w.pens[FIRST].(content := w.pens[FIRST].content + other)],
             marred := w.marred + Struck(StagedDir(w), REGION_START, n));
    assert Wrote(c.p, w.disk, REGION_START, other, true, w2.disk);
    assert PenStep(c, w, w2, FIRST, other, true);
    InvFacts(c, w);
    NextKeepsInv(c, w, w2);
    InvFacts(c, w2);
    assert w2.disk.volatile[REGION_START..REGION_START + n] == other;
  }

  lemma PutIsOneMember(p: Platform, name: Name, content: seq<Byte>, nextSeq: nat)
    ensures AlignUp(REGION_START) == REGION_START
    ensures StagePut(Tables([], []), name, FreshMember(REGION_START, |content|, p.crc(content)), nextSeq)
         == Tables(OneMember(p, name, content), [])
  {
  }

  lemma ReadsOneMember(p: Platform, file: seq<Byte>, name: Name, content: seq<Byte>, there: seq<Byte>)
    requires 0 < |content| == |there|
    requires REGION_START + |content| <= |file| && file[REGION_START..REGION_START + |content|] == there
    ensures ReadMember(file, OneMember(p, name, content), name) == Some(there)
    ensures Contents(file, OneMember(p, name, content)) == [there]
  {
    hide ReadExtents, FreshMember;
    FreshReads(file, REGION_START, there, p.crc(content));
    LessIrreflexive(name);
    assert Position(OneMember(p, name, content), name) == 0;
  }

  lemma StillOther(a: seq<Byte>, b: seq<Byte>, n: nat)
    requires REGION_START + n <= |a|
    requires Carries(a, b, REGION_START + n)
    ensures REGION_START + n <= |b|
    ensures b[REGION_START..REGION_START + n] == a[REGION_START..REGION_START + n]
  {
  }

  /** The durable file opens, and the member reads as bytes that are not those its checksum is of. */
  ghost predicate PublishesOther(c: Config, w: World, name: Name, content: seq<Byte>, other: seq<Byte>) {
    && w.phase.Idle? && w.disk == Flushed(w.disk) && w.fallbackSlot <= 1
    && Open(c, w.disk.durable) == Selected(c, w.fallback, w.fallbackSlot)
    && w.fallback.tables.dir == OneMember(c.p, name, content)
    && ReadMember(w.disk.durable, w.fallback.tables.dir, name) == Some(other)
    && Contents(w.disk.durable, w.fallback.tables.dir) == [other]
  }

  /** With two texts the checksum separates, no such directory passes. */
  lemma OtherFailsItsSum(c: Config, w: World, name: Name, content: seq<Byte>, other: seq<Byte>)
    requires PublishesOther(c, w, name, content, other) && c.p.crc(other) != c.p.crc(content)
    ensures !SumsOk(c.p, w.fallback.tables.dir, Contents(w.disk.durable, w.fallback.tables.dir), {})
  {
    hide Open, Selected, ReadMember;
    assert !EntrySum(c.p, w.fallback.tables.dir[0].member, Contents(w.disk.durable, w.fallback.tables.dir)[0], {});
  }

  /** A commit of one staged member over which other bytes have been written. */
  lemma CommitPublishes(c: Config, w: World, name: Name, content: seq<Byte>, other: seq<Byte>) returns (ws: seq<World>)
    requires c.p.Lawful() && ValidName(name) && 0 < |content| == |other| <= U32_MAX
    requires DiskInv(c, w) && HandleInv(c, w) && w.phase.Idle? && Writable(w.h) && w.h.staged && w.h.sb == BIRTH
    requires w.h.tail == REGION_START + |content| <= |w.disk.volatile|
    requires w.h.tables == Tables(OneMember(c.p, name, content), [])
    requires w.disk.volatile[REGION_START..REGION_START + |content|] == other
    ensures |ws| == 5 && ws[0] == w && forall i :: 0 <= i < 4 ==> Next(c, ws[i], ws[i + 1])
    ensures PublishesOther(c, ws[4], name, content, other)
    ensures ws[4].pens == w.pens && ws[4].attempt.None? && ws[4].fallback.sb == NextSuperblock(c, w.h) && DiskInv(c, ws[4])
  {
    hide DiskInv, HandleInv, Next, Committable, Open, Selected, Wrote, ReadMember, SumsOk, AlignUp, NextSuperblock;
    SmallDirectory(c.p, name, |content|, c.p.crc(content));
    assert NextTables(w.h) == Tables(OneMember(c.p, name, content), []);
    ws := CommitRuns(c, w);
    StillOther(w.disk.volatile, ws[4].disk.volatile, |content|);
    VolatileSelectsCurrent(c, ws[4]);
    ReadsOneMember(c.p, ws[4].disk.volatile, name, content, other);
  }

  /** `begin_member`, `discard_staged`, a put that takes the handle's place, a write through the old handle, a
      commit: every step is one of the protocol, and the handle writes below the cursor. */
  lemma DiscardedHandleDamages(c: Config, name: Name, content: seq<Byte>, other: seq<Byte>) returns (ws: seq<World>)
    requires c.p.Lawful() && ValidName(name) && c.p.utf8(name)
    requires 0 < |content| == |other| <= U32_MAX
    ensures Run(c, ws) && |ws| == 10
    ensures BeginStep(c, ws[0], ws[1], name) && DiscardStep(c, ws[1], ws[2])
    ensures ReadMember(ws[4].disk.volatile, ws[4].h.tables.dir, name) == Some(content)
    ensures DiskOk(ws[4].disk) && PenStep(c, ws[4], ws[5], FIRST, other, true) && !Guarded(ws[4], FIRST)
    ensures PublishesOther(c, ws[9], name, content, other)
  {
    hide DiskInv, HandleInv, Next, BeginStep, DiscardStep, PenStep, ReadMember, OneMember, Inv, PublishesOther;
    var begun := BegunThenDiscarded(c, name);
    BirthDisk(c);
    var w3, w4 := PutTakesThePlace(c, begun[2], name, content);
    var w5 := Overwrites(c, w4, |content|, other);
    InvParts(c, w5);
    var after := CommitPublishes(c, w5, name, content, other);
    ws := begun + [w3, w4] + after;
    forall i | 0 <= i < 9 ensures Next(c, ws[i], ws[i + 1]) {
      if i >= 5 { assert ws[i] == after[i - 5] && ws[i + 1] == after[i - 4]; }
    }
  }

  lemma InvParts(c: Config, w: World)
    requires Inv(c, w)
    ensures DiskInv(c, w) && w.fallbackSlot <= 1 && HandleInv(c, w) && PensInv(c, w)
  {
    hide DiskInv, HandleInv, ReadersInv, SumsInv, PensInv;
  }

  // ---- a run that damages the member being written ------------------------------------------------------

  /** A second member begins where the first did, and its handle writes. */
  lemma SecondTakesThePlace(c: Config, w: World, name: Name, content: seq<Byte>) returns (w2: World, w3: World)
    requires c.p.Lawful() && ValidName(name) && c.p.utf8(name) && 0 < |content| <= U32_MAX
    requires w == Abandoned(c, name) && Inv(c, w)
    requires DiskOk(BirthWorld(c).disk) && |BirthWorld(c).disk.volatile| == REGION_START
    ensures Next(c, w, w2) && Next(c, w2, w3) && Inv(c, w3) && DiskOk(w3.disk) && DiskOk(w2.disk)
    ensures BeginStep(c, w, w2, name) && PenStep(c, w2, w3, SECOND, content, true) && PastTail(w2, SECOND)
    ensures w3.phase.Idle? && w3.h == w.h.(openMember := Some(2), nextToken := 2) && w3.opening == 0
    ensures w3.pens == w.pens[SECOND := Pen(name, REGION_START, content)]
    ensures |w3.disk.volatile| == REGION_START + |content|
    ensures w3.fallback == w.fallback && w3.attempt == w.attempt
  {
    hide DiskInv, HandleInv, ReadersInv, SumsInv, PensInv, EncodeSlot, StagedOk, ValidName, Platform.Lawful, SlotOutcome, Patch,
         Semantic, Open, Contents, DirOk, FreeOk, Placed;
    assert AlignUp(REGION_START) == REGION_START;
    w2 := w.(h := w.h.(openMember := Some(2), nextToken := 2), pens := w.pens[SECOND := Pen(name, REGION_START, [])]);
    assert BeginStep(c, w, w2, name);
    NextKeepsInv(c, w, w2);
    w3 := w2.(disk := Landed(w2.disk, REGION_START, content), pens := w.pens[SECOND := Pen(name, REGION_START, content)]);
    assert [] + content == content;
    assert PenStep(c, w2, w3, SECOND, content, true);
    NextKeepsInv(c, w2, w3);
  }

  /** `finish_member` registers the member with the checksum of what its handle wrote. */
  lemma Finishes(c: Config, w: World, name: Name, content: seq<Byte>, other: seq<Byte>) returns (w2: World)
    requires c.p.Lawful() && ValidName(name) && c.p.utf8(name) && 0 < |content| <= U32_MAX
    requires Inv(c, w) && DiskOk(w.disk) && w.phase.Idle? && w.opening == 0
    requires w.h == Abandoned(c, name).h.(openMember := Some(2), nextToken := 2)
    requires SECOND in w.pens && w.pens[SECOND] == Pen(name, REGION_START, content)
    requires |w.disk.volatile| == REGION_START + |content| && |other| == |content| && other != content
    requires w.disk.volatile[REGION_START..REGION_START + |content|] == other
    ensures FinishStep(c, w, w2) && Next(c, w, w2) && Inv(c, w2) && w2.disk == w.disk && w2.phase.Idle?
    ensures Writable(w2.h) && w2.h.staged && w2.h.sb == BIRTH && w2.h.tail == REGION_START + |content|
    ensures w2.h.tables == Tables(OneMember(c.p, name, content), []) && REGION_START in w2.marred
  {
    hide DiskInv, HandleInv, ReadersInv, SumsInv, PensInv, EncodeSlot, StagedOk, ValidName, Platform.Lawful;
    PutIsOneMember(c.p, name, content, NextSeq(w.h));
    w2 := Released(w).(
      h := w.h.(tables := Tables(OneMember(c.p, name, content), []), tail := REGION_START + |content|, staged := true,
                openMember := None),
      marred := w.marred + {REGION_START});
    assert FinishStep(c, w, w2);
    InvFacts(c, w);
    NextKeepsInv(c, w, w2);
  }

  /** `begin_member`, `discard_staged`, `begin_member` again, which takes the same place, a write through the
      second handle and as long a write through the first, `finish_member` of the second, a commit. Every write
      is at or past the cursor. */
  lemma OpenMemberDamaged(c: Config, name: Name, content: seq<Byte>, other: seq<Byte>) returns (ws: seq<World>)
    requires c.p.Lawful() && ValidName(name) && c.p.utf8(name)
    requires 0 < |content| == |other| <= U32_MAX && other != content
    ensures Run(c, ws) && |ws| == 11
    ensures BeginStep(c, ws[0], ws[1], name) && DiscardStep(c, ws[1], ws[2]) && BeginStep(c, ws[2], ws[3], name)
    ensures DiskOk(ws[3].disk) && PenStep(c, ws[3], ws[4], SECOND, content, true) && PastTail(ws[3], SECOND)
    ensures DiskOk(ws[4].disk) && PenStep(c, ws[4], ws[5], FIRST, other, true) && PastTail(ws[4], FIRST)
    ensures !Guarded(ws[4], FIRST)
    ensures FinishStep(c, ws[5], ws[6])
    ensures PublishesOther(c, ws[10], name, content, other)
  {
    hide DiskInv, HandleInv, Next, BeginStep, DiscardStep, PenStep, FinishStep, ReadMember, OneMember, Inv, PublishesOther;
    var begun := BegunThenDiscarded(c, name);
    BirthDisk(c);
    var w3, w4 := SecondTakesThePlace(c, begun[2], name, content);
    var w5 := Overwrites(c, w4, |content|, other);
    var w6 := Finishes(c, w5, name, content, other);
    InvParts(c, w6);
    var after := CommitPublishes(c, w6, name, content, other);
    ws := begun + [w3, w4, w5] + after;
    forall i | 0 <= i < 10 ensures Next(c, ws[i], ws[i + 1]) {
      if i >= 6 { assert ws[i] == after[i - 6] && ws[i + 1] == after[i - 5]; }
    }
  }

  // ---- a write that damages a published member ------------------------------------------------------------

  /** `begin_member`, `discard_staged`, a put and a commit, then a write through the old handle: the position is
      below the published tail, no step of the protocol, and the published member reads as other bytes at once. */
  lemma PublishedMemberDamaged(c: Config, name: Name, content: seq<Byte>, other: seq<Byte>) returns (ws: seq<World>, last: World)
    requires c.p.Lawful() && ValidName(name) && c.p.utf8(name)
    requires 0 < |content| == |other| <= U32_MAX
    ensures Run(c, ws) && |ws| == 9 && PublishesOther(c, ws[8], name, content, content)
    ensures DiskOk(ws[8].disk) && PenStep(c, ws[8], last, FIRST, other, true) && !PastTail(ws[8], FIRST)
    ensures last.fallback == ws[8].fallback && ReadMember(last.disk.volatile, last.fallback.tables.dir, name) == Some(other)
  {
    hide DiskInv, HandleInv, Next, BeginStep, DiscardStep, PenStep, ReadMember, OneMember, Inv, PublishesOther, NextSuperblock,
         StoredDirectory;
    var begun := BegunThenDiscarded(c, name);
    BirthDisk(c);
    var w3, w4 := PutTakesThePlace(c, begun[2], name, content);
    InvParts(c, w4);
    var after := CommitPublishes(c, w4, name, content, content);
    ws := begun + [w3] + after;
    forall i | 0 <= i < 8 ensures Next(c, ws[i], ws[i + 1]) {
      if i >= 4 { assert ws[i] == after[i - 4] && ws[i + 1] == after[i - 3]; }
    }
    NextTailPast(c, w4.h);
    last := OverwritesPublished(c, after[4], name, content, other);
  }

  lemma NextTailPast(c: Config, h: Handle)
    ensures NextSuperblock(c, h).tail >= h.tail
  {
    hide Payload, CodecEncode, AlignUp;
    AlignedPast(h.tail);
  }

  lemma OverwritesPublished(c: Config, w: World, name: Name, content: seq<Byte>, other: seq<Byte>) returns (last: World)
    requires c.p.Lawful() && 0 < |content| == |other| <= U32_MAX && DiskInv(c, w)
    requires PublishesOther(c, w, name, content, content) && w.attempt.None?
    requires FIRST in w.pens && w.pens[FIRST] == Pen(name, REGION_START, []) && w.fallback.sb.tail > REGION_START
    ensures DiskOk(w.disk) && PenStep(c, w, last, FIRST, other, true) && !PastTail(w, FIRST)
    ensures last.fallback == w.fallback && ReadMember(last.disk.volatile, last.fallback.tables.dir, name) == Some(other)
  {
    hide ReadMember, Open, Selected, SlotOutcome, Struck, EncodeSlot, Durable, SnapOk, Contents, Platform.Lawful;
    var n := |content|;
    last := w.(disk := Landed(w.disk, REGION_START, other), pens := w.pens[FIRST := Pen(name, REGION_START, other)],
               marred := w.marred + Struck(StagedDir(w), REGION_START, n));
    assert [] + other == other;
    assert last.disk.volatile[REGION_START..REGION_START + n] == other;
    ReadsOneMember(c.p, last.disk.volatile, name, content, other);
  }

  // ---- where a write damages nothing ------------------------------------------------------------------

  /** The end of the last of some claims, or of the slots. */
  function MaxEnd(es: seq<Extent>): nat {
    if |es| == 0 then REGION_START else Max(MaxEnd(es[1..]), End(es[0]))
  }

  lemma {:induction false} MaxEndIsMax(es: seq<Extent>)
    ensures REGION_START <= MaxEnd(es) && forall e :: e in es ==> End(e) <= MaxEnd(es)
    ensures MaxEnd(es) > REGION_START ==> exists e :: e in es && End(e) == MaxEnd(es)
  {
    if |es| > 0 {
      MaxEndIsMax(es[1..]);
      assert es == [es[0]] + es[1..];
      if MaxEnd(es) == End(es[0]) { assert es[0] in es; }
    }
  }

  /** What has been written through the listed handle, which `finish_member` will register. */
  function OpenClaim(w: World): seq<Extent> {
    if w.h.openMember.Some? && w.Listed() in w.pens && |w.pens[w.Listed()].content| > 0
    then [Extent(w.pens[w.Listed()].off, |w.pens[w.Listed()].content|)]
    else []
  }

  /** Every range somebody depends on: published members, the published directory, staged members, and the
      member being written. */
  function LiveClaims(w: World): seq<Extent> {
    MemberClaims(w.Current().tables.dir) + (DirExtent(w.Current().sb) + (MemberClaims(StagedDir(w)) + OpenClaim(w)))
  }

  function LiveEnd(w: World): nat { MaxEnd(LiveClaims(w)) }

  /** The file still has the slots, the directory, every published and staged member's bytes, and those of the
      member being written. */
  ghost predicate Undisturbed(w: World, file: seq<Byte>) {
    var was, sb := w.disk.volatile, w.Current().sb;
    && SameRange(was, file, 0, REGION_START)
    && SameRange(was, file, sb.dirOff, sb.dirOff + sb.dirStored)
    && Contents(file, w.Current().tables.dir) == Contents(was, w.Current().tables.dir)
    && Contents(file, StagedDir(w)) == Contents(was, StagedDir(w))
    && forall e :: e in OpenClaim(w) ==> SameRange(was, file, e.off, End(e))
  }

  lemma LiveClaimsInside(c: Config, w: World)
    requires c.p.Lawful() && Inv(c, w) && w.phase.Idle?
    ensures forall e :: e in LiveClaims(w) ==> 0 < e.len && End(e) <= |w.disk.volatile|
    ensures w.Current().sb.tail <= LiveEnd(w) && REGION_START <= |w.disk.volatile|
    ensures w.Current().sb.dirOff + w.Current().sb.dirStored <= LiveEnd(w)
    ensures Writable(w.h) ==> LiveEnd(w) <= w.h.tail
    ensures w.h.openMember.Some? ==> w.Listed() in w.pens && LiveEnd(w) <= w.pens[w.Listed()].At()
  {
    hide DiskInv, HandleInv, ReadersInv, SumsInv, PensInv, MemberClaims, LiveClaims, DirExtent, OpenClaim;
    var cur, staged := w.Current(), StagedDir(w);
    CurrentFacts(c, w);
    StagedFacts(c, w);
    OpenFacts(c, w);
    MaxEndIsMax(LiveClaims(w));
    forall e | e in LiveClaims(w)
      ensures 0 < e.len && End(e) <= |w.disk.volatile|
      ensures Writable(w.h) ==> End(e) <= w.h.tail
      ensures w.h.openMember.Some? ==> End(e) <= w.pens[w.Listed()].At()
    {
      LiveClaimIs(w, e);
    }
    if cur.sb.dirStored > 0 { assert Extent(cur.sb.dirOff, cur.sb.dirStored) in LiveClaims(w) by { DirectoryIsLive(w); } }
  }

  lemma LiveClaimIs(w: World, e: Extent)
    ensures e in LiveClaims(w) <==>
      || e in MemberClaims(w.Current().tables.dir) || e in DirExtent(w.Current().sb)
      || e in MemberClaims(StagedDir(w)) || e in OpenClaim(w)
  {
    hide MemberClaims, DirExtent, OpenClaim;
  }

  lemma OpenFacts(c: Config, w: World)
    requires c.p.Lawful() && PensInv(c, w)
    ensures w.h.openMember.Some? ==>
      && w.phase.Idle? && !w.h.poisoned && w.Listed() in w.pens && w.h.tail <= w.pens[w.Listed()].At()
      && forall e :: e in OpenClaim(w) ==> 0 < e.len && End(e) == w.pens[w.Listed()].At() <= |w.disk.volatile|
    ensures w.h.openMember.None? ==> OpenClaim(w) == []
  {
    hide ValidName;
    AlignedPast(w.h.tail);
  }

  lemma DirectoryIsLive(w: World)
    requires w.Current().sb.dirStored > 0
    ensures Extent(w.Current().sb.dirOff, w.Current().sb.dirStored) in LiveClaims(w)
  {
    hide MemberClaims, OpenClaim;
    LiveClaimIs(w, Extent(w.Current().sb.dirOff, w.Current().sb.dirStored));
  }

  lemma CurrentFacts(c: Config, w: World)
    requires c.p.Lawful() && DiskInv(c, w) && HandleInv(c, w) && w.phase.Idle?
    ensures var cur := w.Current();
      && REGION_START <= cur.sb.tail <= |w.disk.volatile| && cur.sb.dirOff + cur.sb.dirStored == cur.sb.tail
      && (cur.sb.dirStored == 0 ==> cur.sb.tail == REGION_START)
      && (!w.h.poisoned ==> cur.sb.tail <= w.h.tail)
      && forall e :: e in DirExtent(cur.sb) || e in MemberClaims(cur.tables.dir) ==>
           0 < e.len && End(e) <= cur.sb.tail
  {
    hide Durable, Slots, Placed, DirOk, FreeOk, StagedOk, MemberClaims;
    TailsOrdered(c, w);
    SemanticBounds(w.Current().sb);
    forall e | e in MemberClaims(w.Current().tables.dir) ensures 0 < e.len && End(e) <= w.Current().sb.tail {
      ClaimInDir(w.Current().tables.dir, c.p, w.Current().sb.dirOff, e);
    }
  }

  lemma StagedFacts(c: Config, w: World)
    requires DiskInv(c, w) && HandleInv(c, w) && SumsInv(c, w) && w.phase.Idle?
    ensures forall e :: e in MemberClaims(StagedDir(w)) ==> 0 < e.len && End(e) <= w.h.tail && End(e) <= |w.disk.volatile|
  {
    hide DiskInv, Placed, FreeOk, SumsOk;
    if w.h.poisoned {
      assert MemberClaims(StagedDir(w)) == [];
    } else {
      forall e | e in MemberClaims(w.h.tables.dir) ensures 0 < e.len && End(e) <= w.h.tail {
        ClaimInDir(w.h.tables.dir, c.p, w.h.tail, e);
      }
    }
  }

  /** Equal reads of one member are equal bytes in each of its extents. */
  lemma {:induction false} SameReadSameSlices(a: seq<Byte>, b: seq<Byte>, es: seq<Extent>, k: nat)
    requires ReadExtents(a, es) == ReadExtents(b, es) && k < |es|
    requires forall e :: e in es ==> End(e) <= |a| && End(e) <= |b|
    ensures Slice(a, es[k]) == Slice(b, es[k])
    decreases |es|
  {
    var head, last := es[..|es| - 1], es[|es| - 1];
    assert last in es && forall e :: e in head ==> e in es;
    SplitEqual(ReadExtents(a, head), Slice(a, last), ReadExtents(b, head), Slice(b, last));
    if k < |es| - 1 {
      assert head[k] == es[k];
      SameReadSameSlices(a, b, head, k);
    }
  }

  lemma SplitEqual(a: seq<Byte>, x: seq<Byte>, b: seq<Byte>, y: seq<Byte>)
    requires a + x == b + y && |x| == |y|
    ensures a == b && x == y
  {
    assert a == (a + x)[..|a|] && b == (b + y)[..|b|];
    assert x == (a + x)[|a|..] && y == (b + y)[|b|..];
  }

  /** A byte of a member cannot change unseen. */
  lemma SameContentsSameByte(a: seq<Byte>, b: seq<Byte>, dir: seq<Entry>, e: Extent, x: nat)
    requires e in MemberClaims(dir) && e.off <= x < End(e)
    requires forall f :: f in MemberClaims(dir) ==> End(f) <= |a| && End(f) <= |b|
    requires Contents(a, dir) == Contents(b, dir)
    ensures a[x] == b[x]
  {
    hide MemberClaims, ReadExtents, Slice;
    MemberClaimsFrom(dir, e);
    var i, k :| 0 <= i < |dir| && 0 <= k < |dir[i].member.extents| && dir[i].member.extents[k] == e;
    var es := dir[i].member.extents;
    assert ReadExtents(a, es) == Contents(a, dir)[i] == Contents(b, dir)[i] == ReadExtents(b, es);
    forall f | f in es ensures End(f) <= |a| && End(f) <= |b| { EntryClaims(dir, dir[i], f); }
    SameReadSameSlices(a, b, es, k);
    SlicedByte(a, e, x);
    SlicedByte(b, e, x);
  }

  lemma SlicedByte(file: seq<Byte>, e: Extent, x: nat)
    requires e.off <= x < End(e) <= |file|
    ensures x - e.off < |Slice(file, e)| && Slice(file, e)[x - e.off] == file[x]
  {
  }

  lemma LateWriteDisturbsNothing(c: Config, w: World, at: nat, data: seq<Byte>)
    requires c.p.Lawful() && Inv(c, w) && w.phase.Idle? && at >= LiveEnd(w)
    ensures Undisturbed(w, Patch(w.disk.volatile, at, data))
  {
    hide Inv, MemberClaims, LiveClaims, LiveEnd, DirExtent, OpenClaim, Contents, Patch;
    var was := w.disk.volatile;
    var now := Patch(was, at, data);
    LiveClaimsInside(c, w);
    LiveEndIsMax(w);
    forall e | e in LiveClaims(w) ensures SameRange(was, now, e.off, End(e)) { }
    forall e | e in MemberClaims(w.Current().tables.dir) || e in MemberClaims(StagedDir(w)) || e in OpenClaim(w)
      ensures SameRange(was, now, e.off, End(e))
    {
      LiveClaimIs(w, e);
    }
    ContentsLocal(was, now, w.Current().tables.dir);
    ContentsLocal(was, now, StagedDir(w));
    CurrentEnds(c, w);
  }

  lemma CurrentEnds(c: Config, w: World)
    requires c.p.Lawful() && Inv(c, w) && w.phase.Idle?
    ensures w.Current().sb.dirOff + w.Current().sb.dirStored <= |w.disk.volatile|
  {
    hide DiskInv, HandleInv, ReadersInv, SumsInv;
    CurrentFacts(c, w);
  }

  lemma LiveEndIsMax(w: World)
    ensures REGION_START <= LiveEnd(w) && forall e :: e in LiveClaims(w) ==> End(e) <= LiveEnd(w)
    ensures LiveEnd(w) > REGION_START ==> exists e :: e in LiveClaims(w) && End(e) == LiveEnd(w)
  {
    hide LiveClaims;
    MaxEndIsMax(LiveClaims(w));
  }

  /** The bytes from `at` to `x` again, the last of them changed. */
  function Flipping(file: seq<Byte>, at: nat, x: nat): (data: seq<Byte>)
    requires at <= x < |file|
    ensures |data| == x + 1 - at
  {
    file[at..x] + [if file[x] == 0 then 1 else 0]
  }

  lemma FlipsOneByte(file: seq<Byte>, at: nat, x: nat)
    requires at <= x < |file|
    ensures var now := Patch(file, at, Flipping(file, at, x)); |now| == |file| && now[x] != file[x]
  {
    var data := Flipping(file, at, x);
    assert Patch(file, at, data)[at + (x - at)] == data[x - at];
  }

  /** From any earlier position some write damages a slot, the directory, a member or the member being written. */
  lemma EarlyWriteDisturbs(c: Config, w: World, at: nat) returns (data: seq<Byte>)
    requires c.p.Lawful() && Inv(c, w) && w.phase.Idle? && at < LiveEnd(w)
    ensures !Undisturbed(w, Patch(w.disk.volatile, at, data))
  {
    hide Inv, MemberClaims, LiveClaims, LiveEnd, OpenClaim, Contents, Patch, Flipping;
    var was := w.disk.volatile;
    LiveClaimsInside(c, w);
    LiveEndIsMax(w);
    if at < REGION_START {
      data := Flipping(was, at, at);
      FlipsOneByte(was, at, at);
      return;
    }
    var e :| e in LiveClaims(w) && End(e) == LiveEnd(w);
    var x := End(e) - 1;
    data := Flipping(was, at, x);
    FlipsOneByte(was, at, x);
    var now := Patch(was, at, data);
    LiveClaimIs(w, e);
    forall f | f in MemberClaims(w.Current().tables.dir) || f in MemberClaims(StagedDir(w)) ensures End(f) <= |was| {
      LiveClaimIs(w, f);
    }
    if Undisturbed(w, now) {
      if e in MemberClaims(w.Current().tables.dir) {
        SameContentsSameByte(was, now, w.Current().tables.dir, e, x);
      } else if e in MemberClaims(StagedDir(w)) {
        SameContentsSameByte(was, now, StagedDir(w), e, x);
      }
    }
  }

  /** Between two calls of the container, in any state any run reaches: a write through a handle leaves the
      slots, the directory, every published and staged member and the member being written as they were,
      whatever is written, exactly when its position is at or past the end of the last live claim. */
  lemma HandleWriteHarmlessIff(c: Config, ws: seq<World>, i: nat, at: nat)
    requires c.p.Lawful() && Run(c, ws) && i < |ws| && ws[i].phase.Idle?
    ensures (forall data :: Undisturbed(ws[i], Patch(ws[i].disk.volatile, at, data))) <==> at >= LiveEnd(ws[i])
  {
    hide Run, Inv, Undisturbed, Patch, LiveEnd;
    RunKeepsInv(c, ws, i);
    if at >= LiveEnd(ws[i]) {
      forall data ensures Undisturbed(ws[i], Patch(ws[i].disk.volatile, at, data)) {
        LateWriteDisturbsNothing(c, ws[i], at, data);
      }
    } else {
      var data := EarlyWriteDisturbs(c, ws[i], at);
    }
  }

  // ---- runs that heed it ------------------------------------------------------------------------------

  /** Between calls the file holds what was written through the listed handle, and every checksum is right. */
  ghost predicate Unharmed(c: Config, w: World) {
    Inv(c, w) && w.marred == {} && OpenStands(w)
  }

  ghost predicate OpenStands(w: World) {
    w.h.openMember.Some? && w.Listed() in w.pens ==>
      Stands(w.disk.volatile, w.pens[w.Listed()].off, w.pens[w.Listed()].content)
  }

  lemma LateTouchesNothing(c: Config, w: World, off: nat, len: nat)
    requires c.p.Lawful() && Inv(c, w) && w.phase.Idle? && off >= LiveEnd(w)
    ensures Struck(StagedDir(w), off, len) == {}
  {
    hide Inv, LiveEnd, LiveClaims, OpenClaim, MemberClaims, DirExtent;
    LiveEndIsMax(w);
    var dir := StagedDir(w);
    forall i, e | 0 <= i < |dir| && e in dir[i].member.extents ensures End(e) <= off {
      EntryClaims(dir, dir[i], e);
      LiveClaimIs(w, e);
    }
  }

  /** A write through any handle at or past the last live claim, whole or torn, is a step of the protocol that
      mars no member, and the member being written stands as it stood. */
  lemma LateWriteKeepsInv(c: Config, w: World, w2: World, t: PenId, data: seq<Byte>, ok: bool)
    requires c.p.Lawful() && Inv(c, w) && DiskOk(w.disk) && PenStep(c, w, w2, t, data, ok)
    requires w.pens[t].At() >= LiveEnd(w)
    ensures PastTail(w, t) && Inv(c, w2) && w2.marred == w.marred
    ensures OpenStands(w) ==> OpenStands(w2)
  {
    hide DiskInv, HandleInv, ReadersInv, SumsInv, PensInv, Wrote, LiveEnd, LiveClaims, MemberClaims, DiskOk, OpenStands, Struck;
    LiveClaimsInside(c, w);
    LateTouchesNothing(c, w, w.pens[t].At(), |data|);
    PenKeepsAll(c, w, w2, t, data, ok);
    if OpenStands(w) { LateWriteKeepsOpen(c, w, w2, t, data, ok); }
  }

  lemma LateWriteKeepsOpen(c: Config, w: World, w2: World, t: PenId, data: seq<Byte>, ok: bool)
    requires c.p.Lawful() && Inv(c, w) && DiskOk(w.disk) && PenStep(c, w, w2, t, data, ok)
    requires w.pens[t].At() >= LiveEnd(w) && OpenStands(w)
    ensures OpenStands(w2)
  {
    hide DiskInv, HandleInv, ReadersInv, SumsInv, PensInv, SlotOutcome, LiveEnd, LiveClaims, Patch, DiskOk;
    if w.h.openMember.Some? && w.Listed() in w.pens {
      var pen := w.pens[w.Listed()];
      if t == w.Listed() {
        if ok { StandsLonger(w.disk.volatile, pen.off, pen.content, data); }
        else { StandsApart(w.disk.volatile, w2.disk.volatile, pen.off, pen.content, pen.At()); }
      } else {
        if |pen.content| > 0 { OpenIsLive(w); }
        StandsApart(w.disk.volatile, w2.disk.volatile, pen.off, pen.content, w.pens[t].At());
      }
    }
  }

  lemma OpenIsLive(w: World)
    requires w.h.openMember.Some? && w.Listed() in w.pens && |w.pens[w.Listed()].content| > 0
    ensures w.pens[w.Listed()].At() <= LiveEnd(w)
  {
    hide MemberClaims, DirExtent, LiveEnd;
    LiveEndIsMax(w);
    var e := Extent(w.pens[w.Listed()].off, |w.pens[w.Listed()].content|);
    assert e in OpenClaim(w);
    LiveClaimIs(w, e);
  }

  lemma StandsApart(a: seq<Byte>, b: seq<Byte>, off: nat, content: seq<Byte>, at: nat)
    requires Stands(a, off, content) && |a| <= |b| && (|content| > 0 ==> off + |content| <= at)
    requires forall i :: 0 <= i < at && i < |a| ==> b[i] == a[i]
    ensures Stands(b, off, content)
  {
    if |content| > 0 {
      var n := |content|;
      assert b[off..off + n] == a[off..off + n];
    }
  }

  lemma StandsLonger(a: seq<Byte>, off: nat, content: seq<Byte>, data: seq<Byte>)
    requires Stands(a, off, content)
    ensures Stands(Patch(a, off + |content|, data), off, content + data)
  {
    hide Patch;
    var n, both := |content|, content + data;
    var b := Patch(a, off + n, data);
    if |both| > 0 {
      forall i | 0 <= i < |both| ensures off + i < |b| && b[off + i] == both[i] {
        if i < n {
          assert a[off..off + n][i] == content[i];
        } else {
          assert b[off + n + (i - n)] == data[i - n];
        }
      }
      assert b[off..off + |both|] == both;
    }
  }

  /** The container's own calls register only what stands, if the member being written does. */
  lemma OwnStepKeepsUnharmed(c: Config, w: World, w2: World)
    requires c.p.Lawful() && Unharmed(c, w) && DiskOk(w.disk) && w.fallbackSlot <= 1 && OwnStep(c, w, w2)
    ensures Unharmed(c, w2)
  {
    hide Inv, OpenStands;
    OwnKeepsInv(c, w, w2);
    InvParts(c, w);
    OwnStepMarksNothing(c, w, w2);
    OwnStepKeepsOpen(c, w, w2);
  }

  /** A write of `len` bytes at `off` meets an extent of the member that begins at `x`. */
  predicate Meets(dir: seq<Entry>, x: nat, off: nat, len: nat) {
    exists i, k :: 0 <= i < |dir| && 0 <= k < |dir[i].member.extents| && dir[i].member.extents[0].off == x
                   && var e := dir[i].member.extents[k]; e.off < off + len && off < e.off + e.len
  }

  /** A member becomes marred in no other way than by a write through a handle that meets its bytes, or by being
      finished while the file does not hold what was written through its handle. */
  lemma MarredOnlyBy(c: Config, w: World, w2: World, x: nat)
    requires Next(c, w, w2) && x in w2.marred && x !in w.marred
    ensures (exists t, data, ok :: PenStep(c, w, w2, t, data, ok) && Meets(w.h.tables.dir, x, w.pens[t].At(), |data|))
         || (FinishStep(c, w, w2) && x == AlignUp(w.h.tail) && !Stands(w.disk.volatile, x, w.pens[w.Listed()].content))
  {
    hide OwnStep, PenStep, FinishStep, PastTail, DiskOk;
    if t, data, ok :| PenStep(c, w, w2, t, data, ok) && PastTail(w, t) {
      MarredByPen(c, w, w2, t, data, ok, x);
    } else {
      MarredByOwn(c, w, w2, x);
    }
  }

  lemma MarredByPen(c: Config, w: World, w2: World, t: PenId, data: seq<Byte>, ok: bool, x: nat)
    requires DiskOk(w.disk) && PenStep(c, w, w2, t, data, ok) && x in w2.marred && x !in w.marred
    ensures t in w.pens && Meets(w.h.tables.dir, x, w.pens[t].At(), |data|)
  {
    hide Wrote, DiskOk;
    var dir := StagedDir(w);
    var i :| 0 <= i < |dir| && Touched(dir[i].member, w.pens[t].At(), |data|) && dir[i].member.extents[0].off == x;
    var e :| e in dir[i].member.extents && e.off < w.pens[t].At() + |data| && w.pens[t].At() < End(e);
    var k :| 0 <= k < |dir[i].member.extents| && dir[i].member.extents[k] == e;
  }

  lemma MarredByOwn(c: Config, w: World, w2: World, x: nat)
    requires DiskOk(w.disk) && w.fallbackSlot <= 1 && OwnStep(c, w, w2) && x in w2.marred && x !in w.marred
    ensures FinishStep(c, w, w2) && x == AlignUp(w.h.tail) && !Stands(w.disk.volatile, x, w.pens[w.Listed()].content)
  {
    hide Wrote, Stands, ValidName, StagePut, StageGrow, StageDrop, FreshMember, AlignUp, Open, Committable, Poisoned, Discarded,
         Reconciled, EncodeSlot, Successor, CrashImage, Punchable, NextSuperblock, StoredDirectory, DiskOk, Contents;
  }

  lemma OwnStepMarksNothing(c: Config, w: World, w2: World)
    requires PensInv(c, w) && w.marred == {} && OpenStands(w) && DiskOk(w.disk) && w.fallbackSlot <= 1 && OwnStep(c, w, w2)
    ensures w2.marred == {}
  {
    hide Wrote, Stands, ValidName, StagePut, StageGrow, StageDrop, FreshMember, AlignUp, Open, Committable, Poisoned, Discarded,
         Reconciled, EncodeSlot, Successor, CrashImage, Punchable, NextSuperblock, StoredDirectory, DiskOk, Contents;
  }

  /** A call that leaves a member open has just opened it, or leaves its bytes alone. */
  lemma OwnStepKeepsOpen(c: Config, w: World, w2: World)
    requires c.p.Lawful() && Inv(c, w) && OpenStands(w) && DiskOk(w.disk) && w.fallbackSlot <= 1 && OwnStep(c, w, w2)
    ensures OpenStands(w2)
  {
    hide DiskInv, HandleInv, ReadersInv, SumsInv, PensInv, OpenStands, PunchStep, BeginStep, OwnStep;
    if f, grace, ok :| PunchStep(c, w, w2, f, grace, ok) {
      PunchKeepsOpen(c, w, w2, f, grace, ok);
    } else if name :| BeginStep(c, w, w2, name) {
      JustOpened(c, w, w2, name);
    } else {
      OthersKeepOpen(c, w, w2);
    }
  }

  lemma JustOpened(c: Config, w: World, w2: World, name: Name)
    requires BeginStep(c, w, w2, name)
    ensures OpenStands(w2)
  {
    hide ValidName, AlignUp;
  }

  lemma OthersKeepOpen(c: Config, w: World, w2: World)
    requires PensInv(c, w) && OpenStands(w) && DiskOk(w.disk) && w.fallbackSlot <= 1 && OwnStep(c, w, w2)
    requires !(exists name :: BeginStep(c, w, w2, name)) && !(exists f, grace, ok :: PunchStep(c, w, w2, f, grace, ok))
    ensures OpenStands(w2)
  {
    hide PensInv, Stands, PunchStep, BeginStep, WriteStep, PutStep, GrowStep, DropStep, SealStep, BarrierStep, FlipStep, SettleStep,
         RefuseStep, ReconcileStep, FinishStep, AbandonStep, ReopenStep, CrashStep, DiscardStep, AcknowledgeStep;
    if off, data, ok :| WriteStep(c, w, w2, off, data, ok) { ClosedByWrite(c, w, w2, off, data, ok); }
    else if name, content :| PutStep(c, w, w2, name, content) { ClosedByPut(c, w, w2, name, content); }
    else if name, delta :| GrowStep(c, w, w2, name, delta) { ClosedByGrow(c, w, w2, name, delta); }
    else if name :| DropStep(w, w2, name) { ClosedByDrop(c, w, w2, name); }
    else if ok :| SealStep(c, w, w2, ok) { ClosedBySeal(c, w, w2, ok); }
    else if ok :| BarrierStep(c, w, w2, ok) { ClosedByBarrier(c, w, w2, ok); }
    else if ok :| FlipStep(c, w, w2, ok) { ClosedByFlip(c, w, w2, ok); }
    else if ok :| SettleStep(w, w2, ok) { ClosedBySettle(c, w, w2, ok); }
    else if img :| CrashStep(c, w, w2, img) { ClosedByCrash(c, w, w2, img); }
    else { ClosedOrAlike(c, w, w2); }
  }

  lemma ClosedByWrite(c: Config, w: World, w2: World, off: nat, data: seq<Byte>, ok: bool)
    requires DiskOk(w.disk) && WriteStep(c, w, w2, off, data, ok)
    ensures w2.h.openMember.None?
  {
    hide Wrote;
  }

  lemma ClosedByPut(c: Config, w: World, w2: World, name: Name, content: seq<Byte>)
    requires PutStep(c, w, w2, name, content)
    ensures w2.h.openMember.None?
  {
    hide Stands, StagePut, FreshMember, ValidName, AlignUp;
  }

  lemma ClosedByGrow(c: Config, w: World, w2: World, name: Name, delta: seq<Byte>)
    requires GrowStep(c, w, w2, name, delta)
    ensures w2.h.openMember.None?
  {
    hide StageGrow, AppendAt, Coalesces;
  }

  lemma ClosedByDrop(c: Config, w: World, w2: World, name: Name)
    requires DropStep(w, w2, name)
    ensures w2.h.openMember.None?
  {
    hide StageDrop;
  }

  lemma ClosedBySeal(c: Config, w: World, w2: World, ok: bool)
    requires DiskOk(w.disk) && SealStep(c, w, w2, ok)
    ensures w2.h.openMember.None?
  {
    hide Wrote, Committable, NextSuperblock, StoredDirectory, ReadAdmitted;
  }

  lemma ClosedByBarrier(c: Config, w: World, w2: World, ok: bool)
    requires PensInv(c, w) && w.fallbackSlot <= 1 && BarrierStep(c, w, w2, ok)
    ensures w2.h.openMember.None?
  {
    hide ReadAdmitted, Listable;
  }

  lemma ClosedByFlip(c: Config, w: World, w2: World, ok: bool)
    requires PensInv(c, w) && DiskOk(w.disk) && FlipStep(c, w, w2, ok)
    ensures w2.h.openMember.None?
  {
    hide Wrote, EncodeSlot, Successor, Listable;
  }

  lemma ClosedBySettle(c: Config, w: World, w2: World, ok: bool)
    requires PensInv(c, w) && w.fallbackSlot <= 1 && SettleStep(w, w2, ok)
    ensures w2.h.openMember.None?
  {
    hide Listable;
  }

  lemma ClosedByCrash(c: Config, w: World, w2: World, img: seq<Byte>)
    requires DiskOk(w.disk) && CrashStep(c, w, w2, img)
    ensures w2.h.openMember.None?
  {
    hide CrashImage, Open, Contents;
  }

  /** The remaining calls close the open member, or leave it and the file alone. */
  lemma ClosedOrAlike(c: Config, w: World, w2: World)
    requires PensInv(c, w) && OpenStands(w) && w.fallbackSlot <= 1
    requires AbandonStep(w, w2) || FinishStep(c, w, w2) || DiscardStep(c, w, w2) || RefuseStep(c, w, w2)
          || ReconcileStep(c, w, w2) || AcknowledgeStep(w, w2) || IdleStep(w, w2) || ReopenStep(c, w, w2)
    ensures OpenStands(w2)
  {
    hide Stands, StagePut, FreshMember, ValidName, AlignUp, Open, ReadAdmitted, Listable;
  }

  lemma PunchKeepsOpen(c: Config, w: World, w2: World, f: Freed, grace: nat, ok: bool)
    requires c.p.Lawful() && Inv(c, w) && OpenStands(w) && DiskOk(w.disk) && PunchStep(c, w, w2, f, grace, ok)
    ensures OpenStands(w2)
  {
    hide DiskInv, ReadersInv, SumsInv, Wrote, SlotOutcome, DirOk, Placed, Stands, ValidName, AlignUp, DiskOk;
    PunchBytes(c, w, w2, f, grace, ok);
    PunchWindow(f);
    AlignedPast(w.h.tail);
    if w.h.openMember.Some? {
      var pen := w.pens[w.Listed()];
      StandsPast(w.disk.volatile, w2.disk.volatile, pen.off, pen.content);
    }
  }

  lemma StandsPast(a: seq<Byte>, b: seq<Byte>, off: nat, content: seq<Byte>)
    requires Stands(a, off, content) && |a| <= |b|
    requires forall i :: off <= i < |a| ==> b[i] == a[i]
    ensures Stands(b, off, content)
  {
    if |content| > 0 { assert b[off..off + |content|] == a[off..off + |content|]; }
  }

  /** A run in which every write through a handle heeds the last live claim. */
  ghost predicate HeedfulRun(c: Config, ws: seq<World>) {
    && |ws| > 0 && ws[0] == BirthWorld(c)
    && forall i :: 0 <= i < |ws| - 1 ==> HeedfulStep(c, ws[i], ws[i + 1])
  }

  ghost predicate HeedfulStep(c: Config, w: World, w2: World) {
    && DiskOk(w.disk) && w.fallbackSlot <= 1
    && (OwnStep(c, w, w2) || exists t, data, ok :: HeedfulWrite(c, w, w2, t, data, ok))
  }

  ghost predicate HeedfulWrite(c: Config, w: World, w2: World, t: PenId, data: seq<Byte>, ok: bool)
    requires DiskOk(w.disk)
  {
    t in w.pens && w.pens[t].At() >= LiveEnd(w) && PenStep(c, w, w2, t, data, ok)
  }

  lemma {:induction false} HeedfulRunUnharmed(c: Config, ws: seq<World>, i: nat)
    requires c.p.Lawful() && HeedfulRun(c, ws) && i < |ws|
    ensures Unharmed(c, ws[i])
  {
    hide OwnStep, PenStep, Inv, OpenStands, LiveEnd;
    if i == 0 {
      BirthRunKeepsInv(c, ws[0]);
      BirthStands(c);
    } else {
      HeedfulRunUnharmed(c, ws, i - 1);
      var w, w2 := ws[i - 1], ws[i - 1 + 1];
      assert HeedfulStep(c, w, w2);
      if OwnStep(c, w, w2) {
        OwnStepKeepsUnharmed(c, w, w2);
      } else {
        var t, data, ok :| HeedfulWrite(c, w, w2, t, data, ok);
        LateWriteKeepsInv(c, w, w2, t, data, ok);
      }
    }
  }

  lemma BirthStands(c: Config)
    ensures OpenStands(BirthWorld(c)) && BirthWorld(c).marred == {}
  {
  }

  lemma BirthRunKeepsInv(c: Config, w: World)
    requires c.p.Lawful() && w == BirthWorld(c)
    ensures Inv(c, w)
  {
    hide Inv;
    RunKeepsInv(c, [w], 0);
  }

  /** Crash atomicity holds of every such run with every checksum right, whatever became of the handles'
      owners. */
  lemma HeedfulCrashAtomicity(c: Config, ws: seq<World>, i: nat, img: seq<Byte>)
    requires c.p.Lawful() && HeedfulRun(c, ws) && i < |ws| && DiskOk(ws[i].disk) && CrashImage(c.p, ws[i].disk, img)
    ensures OpensAs(c, img, ws[i].fallback, {})
         || (ws[i].attempt.Some? && OpensAs(c, img, ws[i].attempt.value, {}))
  {
    hide DiskInv, HandleInv, ReadersInv, PensInv, Open, Selected, SumsOk, HeedfulRun, CrashImage, DiskOk, OpenStands;
    HeedfulRunUnharmed(c, ws, i);
    CrashOpensAs(c, ws[i], img);
  }

  /** And `finish_member` in such a run registers a member that reads as exactly what was written through its
      handle. */
  lemma HeedfulFinishReads(c: Config, ws: seq<World>, i: nat)
    requires c.p.Lawful() && HeedfulRun(c, ws) && i < |ws| - 1 && FinishStep(c, ws[i], ws[i + 1])
    ensures var pen := ws[i].pens[ws[i].Listed()];
      ReadMember(ws[i + 1].disk.volatile, ws[i + 1].h.tables.dir, pen.name) == Some(pen.content)
  {
    hide HeedfulRun, ReadersInv, SumsInv, DiskInv, EntryOk, Placed, FreeOk, ValidName, StagePut, FreshMember, ReadMember, AlignUp;
    HeedfulRunUnharmed(c, ws, i);
    var w, pen := ws[i], ws[i].pens[ws[i].Listed()];
    RegisteredReads(w.disk.volatile, w.h.tables, pen.name, pen.off, pen.content, c.p.crc(pen.content), NextSeq(w.h));
  }

  lemma RegisteredReads(file: seq<Byte>, t: Tables, name: Name, off: nat, content: seq<Byte>, xsum: nat, nextSeq: nat)
    requires NamesAscend(t.dir) && Stands(file, off, content)
    ensures ReadMember(file, StagePut(t, name, FreshMember(off, |content|, xsum), nextSeq).dir, name) == Some(content)
  {
    hide FreshMember, PutEntryIn, ReadExtents;
    LookupAfterPut(t.dir, Entry(name, FreshMember(off, |content|, xsum)), name);
    FreshReads(file, off, content, xsum);
  }

  // ---- a check that suffices -----------------------------------------------------------------------------

  /** What a caller can ask of the container before a write: it lists this very handle, or it lists none, accepts
      changes, and its cursor is not past the handle's position. */
  predicate Guarded(w: World, t: PenId) {
    && t in w.pens
    && (if w.h.openMember.Some? then t == w.Listed() else !w.h.poisoned && w.pens[t].At() >= w.h.tail)
  }

  /** The code makes no such check. With it, every write heeds the last live claim, and is one the protocol
      itself takes. */
  lemma GuardSuffices(c: Config, w: World, w2: World, t: PenId, data: seq<Byte>, ok: bool)
    requires c.p.Lawful() && Inv(c, w) && DiskOk(w.disk) && w.fallbackSlot <= 1
    requires PenStep(c, w, w2, t, data, ok) && Guarded(w, t)
    ensures w.pens[t].At() >= LiveEnd(w) && HeedfulStep(c, w, w2) && Next(c, w, w2)
  {
    hide DiskInv, HandleInv, ReadersInv, SumsInv, PensInv, PenStep, LiveEnd, OwnStep, DiskOk;
    PenHolds(c, w, w2, t, data, ok);
    LiveClaimsInside(c, w);
    LateWriteKeepsInv(c, w, w2, t, data, ok);
    assert HeedfulWrite(c, w, w2, t, data, ok);
  }
}
