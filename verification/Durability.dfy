/** The crash-safety invariant of the publication protocol: what is durable, what each slot says,
    and therefore what any crash image selects. */
module Durability {
  import opened Bytes
  import opened Host
  import opened Directory
  import opened Layout
  import opened Superblocks
  import opened Device
  import opened Staging
  import opened Publication

  // ---- snapshots ------------------------------------------------------------------------------

  /** A state some commit could have published. */
  ghost predicate SnapOk(c: Config, s: Snapshot) {
    && Representable(s.sb) && Semantic(s.sb)
    && DirOk(c.p, s.tables.dir, s.sb.dirOff) && FreeOk(s.tables.free, s.sb.dirOff, s.sb.seqno)
    && Placed(s.tables, DirExtent(s.sb), s.sb.tail)
    && |s.contents| == |s.tables.dir|
  }

  /** The bytes a reader of `s` depends on: its directory and its members. */
  ghost predicate NamedAt(s: Snapshot, i: int) {
    s.sb.dirOff <= i < s.sb.tail || exists e :: e in MemberClaims(s.tables.dir) && e.off <= i < End(e)
  }

  ghost predicate Reads(c: Config, file: seq<Byte>, s: Snapshot) {
    && s.sb.tail <= |file|
    && ReadTables(c.p, file, s.sb) == Ok(s.tables)
    && Contents(file, s.tables.dir) == s.contents
  }

  /** `s` survives any power loss. */
  ghost predicate Durable(c: Config, d: Disk, s: Snapshot) {
    && Reads(c, d.durable, s)
    && forall i :: i in d.dirty ==> !NamedAt(s, i)
  }

  /** A slot that loses to any claim at `seqno`. */
  predicate Older(c: Config, slot: seq<Byte>, seqno: nat) {
    var r := DecodeSlot(c.p, slot);
    r.Ok? && (r.value.None? || r.value.value.seqno < seqno)
  }

  predicate InSlot(slot: nat, i: int) { slot * SLOT_LEN <= i < slot * SLOT_LEN + SLOT_LEN }

  ghost predicate Slots(c: Config, d: Disk, fallback: Snapshot, slot: nat, attempt: Option<Snapshot>)
    requires DiskOk(d)
  {
    && slot <= 1
    && var other := 1 - slot;
       var seqno := fallback.sb.seqno;
       && SlotBytes(d.durable, slot) == EncodeSlot(c.p, fallback.sb)
       && (forall i :: i in d.dirty ==> !InSlot(slot, i))
       && Older(c, SlotBytes(d.durable, other), seqno)
       && match attempt
          case None => Older(c, SlotBytes(d.volatile, other), seqno)
          case Some(a) => SlotBytes(d.volatile, other) == EncodeSlot(c.p, a.sb) && a.sb.seqno == seqno + 1
  }

  ghost predicate Protected(c: Config, d: Disk, fallback: Snapshot, slot: nat, attempt: Option<Snapshot>) {
    && DiskOk(d)
    && SnapOk(c, fallback) && Durable(c, d, fallback)
    && (attempt.Some? ==>
          && SnapOk(c, attempt.value) && Durable(c, d, attempt.value)
          && fallback.sb.tail <= attempt.value.sb.tail)
    && Slots(c, d, fallback, slot, attempt)
  }

  /** The crash-safety invariant. */
  ghost predicate DiskInv(c: Config, w: World) {
    Protected(c, w.disk, w.fallback, w.fallbackSlot, w.attempt)
  }

  // ---- locality ----------------------------------------------------------------------------------

  lemma ClaimInDir(dir: seq<Entry>, p: Platform, dirOff: nat, e: Extent)
    requires DirOk(p, dir, dirOff) && e in MemberClaims(dir)
    ensures e.len > 0 && InRegion(e.off, e.len, dirOff)
  {
    MemberClaimsFrom(dir, e);
    var i, k :| 0 <= i < |dir| && 0 <= k < |dir[i].member.extents| && dir[i].member.extents[k] == e;
    assert EntryOk(p, dir[i], dirOff);
  }

  lemma NamedBelowTail(c: Config, s: Snapshot, i: int)
    requires SnapOk(c, s) && NamedAt(s, i)
    ensures REGION_START <= i < s.sb.tail
  {
    hide DirOk, Semantic, Placed, FreeOk;
    if !(s.sb.dirOff <= i < s.sb.tail) {
      var e :| e in MemberClaims(s.tables.dir) && e.off <= i < End(e);
      ClaimInDir(s.tables.dir, c.p, s.sb.dirOff, e);
    }
    SemanticBounds(s.sb);
  }

  lemma SemanticBounds(sb: Superblock)
    requires Semantic(sb)
    ensures REGION_START <= sb.dirOff <= sb.dirOff + sb.dirStored == sb.tail
  {
  }

  /** Reading a snapshot depends only on the bytes it names. */
  lemma ReadsLocal(c: Config, a: seq<Byte>, b: seq<Byte>, s: Snapshot)
    requires SnapOk(c, s) && Reads(c, a, s) && s.sb.tail <= |b|
    requires forall i :: NamedAt(s, i) && 0 <= i < |a| && i < |b| ==> a[i] == b[i]
    ensures Reads(c, b, s)
  {
    hide ReadTables, Semantic, Placed, DirOk, FreeOk, Contents;
    SemanticBounds(s.sb);
    assert SameRange(a, b, s.sb.dirOff, s.sb.tail) by {
      forall i | s.sb.dirOff <= i < s.sb.tail ensures a[i] == b[i] { assert NamedAt(s, i); }
    }
    ReadTablesLocal(c.p, a, b, s.sb);
    forall e | e in MemberClaims(s.tables.dir) ensures SameRange(a, b, e.off, End(e)) {
      ClaimInDir(s.tables.dir, c.p, s.sb.dirOff, e);
      forall i | e.off <= i < End(e) ensures a[i] == b[i] { assert NamedAt(s, i); }
    }
    ContentsLocal(a, b, s.tables.dir);
  }

  // ---- selection -----------------------------------------------------------------------------------

  /** What `open` answers when it selects `s`: the state, unless runtime limits refuse it. */
  function Selected(c: Config, s: Snapshot, slot: nat): Outcome<Opened> {
    if Admits(c.limits, s.sb, s.tables) then Ok(Opened(s.sb, slot, s.tables)) else Err
  }

  lemma OpenSelects(c: Config, file: seq<Byte>, s: Snapshot, slot: nat)
    requires c.p.Lawful() && SnapOk(c, s) && Reads(c, file, s) && slot <= 1 && |file| >= REGION_START
    requires SlotBytes(file, slot) == EncodeSlot(c.p, s.sb)
    requires Older(c, SlotBytes(file, 1 - slot), s.sb.seqno)
    ensures SelectIn(c.p, file) == Ok((s.sb, slot))
    ensures Open(c, file) == Selected(c, s, slot)
  {
    hide DecodeSlot, EncodeSlot, ReadTables, DirOk, FreeOk, Placed, Semantic, Contents;
    DecodeInvertsEncode(c.p, s.sb);
  }

  lemma SlotBytesEqual(a: seq<Byte>, b: seq<Byte>, slot: nat)
    requires slot <= 1 && |a| >= REGION_START && |b| >= REGION_START
    requires forall i :: InSlot(slot, i) ==> a[i] == b[i]
    ensures SlotBytes(a, slot) == SlotBytes(b, slot)
  {
    forall k | 0 <= k < SLOT_LEN ensures SlotBytes(a, slot)[k] == SlotBytes(b, slot)[k] {
      assert InSlot(slot, slot * SLOT_LEN + k);
    }
  }

  lemma CrashKeepsSnapshot(c: Config, d: Disk, img: seq<Byte>, s: Snapshot)
    requires DiskOk(d) && CrashImage(c.p, d, img) && SnapOk(c, s) && Durable(c, d, s)
    ensures Reads(c, img, s)
  {
    hide Placed, DirOk, FreeOk, Semantic, ReadTables, Contents;
    forall i | NamedAt(s, i) && 0 <= i < |d.durable| && i < |img| ensures d.durable[i] == img[i] {
      assert i !in d.dirty;
    }
    ReadsLocal(c, d.durable, img, s);
  }

  /** The heart of crash safety: whatever a power loss leaves, `open` selects exactly the durable
      fallback or exactly the attempt in flight -- directory, free list and every member byte --
      and the only refusal is the runtime limits' refusal of that very state. */
  lemma CrashSelectsOldOrNew(c: Config, w: World, img: seq<Byte>)
    requires c.p.Lawful() && DiskInv(c, w) && CrashImage(c.p, w.disk, img)
    ensures |img| >= REGION_START
    ensures (Open(c, img) == Selected(c, w.fallback, w.fallbackSlot) && Reads(c, img, w.fallback)
             && Older(c, SlotBytes(img, 1 - w.fallbackSlot), w.fallback.sb.seqno)
             && SlotBytes(img, w.fallbackSlot) == EncodeSlot(c.p, w.fallback.sb))
         || (w.attempt.Some? && Open(c, img) == Selected(c, w.attempt.value, 1 - w.fallbackSlot) && Reads(c, img, w.attempt.value)
             && Older(c, SlotBytes(img, w.fallbackSlot), w.attempt.value.sb.seqno)
             && SlotBytes(img, 1 - w.fallbackSlot) == EncodeSlot(c.p, w.attempt.value.sb))
  {
    hide SnapOk, Durable, Reads, NamedAt, Open, DecodeSlot, EncodeSlot;
    var d, f, o := w.disk, w.fallbackSlot, 1 - w.fallbackSlot;
    CrashKeepsSnapshot(c, d, img, w.fallback);
    forall i | InSlot(f, i) ensures d.durable[i] == img[i] { assert i !in d.dirty; }
    SlotBytesEqual(d.durable, img, f);
    var got := SlotBytes(img, o);
    assert SlotOutcome(c.p, SlotBytes(d.durable, o), SlotBytes(d.volatile, o), got);
    if w.attempt.Some? && got == EncodeSlot(c.p, w.attempt.value.sb) {
      var a := w.attempt.value;
      CrashKeepsSnapshot(c, d, img, a);
      ClaimIsOlder(c, w.fallback, a.sb.seqno);
      OpenSelects(c, img, a, o);
    } else {
      TornClaimsNothing(c.p, got);
      assert Older(c, got, w.fallback.sb.seqno);
      OpenSelects(c, img, w.fallback, f);
    }
  }

  lemma ClaimIsOlder(c: Config, s: Snapshot, seqno: nat)
    requires c.p.Lawful() && SnapOk(c, s) && s.sb.seqno < seqno
    ensures Older(c, EncodeSlot(c.p, s.sb), seqno)
  {
    DecodeInvertsEncode(c.p, s.sb);
  }

  /** And the file as a running process reads it selects the current state. */
  lemma VolatileSelectsCurrent(c: Config, w: World)
    requires c.p.Lawful() && DiskInv(c, w)
    ensures w.fallbackSlot <= 1
    ensures Open(c, w.disk.volatile) == Selected(c, w.Current(), w.CurrentSlot())
    ensures Reads(c, w.disk.volatile, w.Current())
    ensures SlotBytes(w.disk.volatile, w.fallbackSlot) == EncodeSlot(c.p, w.fallback.sb)
  {
    hide SnapOk, Open, DecodeSlot, EncodeSlot;
    var d, f, o := w.disk, w.fallbackSlot, 1 - w.fallbackSlot;
    forall i | InSlot(f, i) ensures d.durable[i] == d.volatile[i] { assert i !in d.dirty; }
    SlotBytesEqual(d.durable, d.volatile, f);
    var s := w.Current();
    DurableReadsVolatile(c, d, s);
    if w.attempt.Some? { ClaimIsOlder(c, w.fallback, s.sb.seqno); }
    OpenSelects(c, d.volatile, s, w.CurrentSlot());
  }

  lemma DurableReadsVolatile(c: Config, d: Disk, s: Snapshot)
    requires DiskOk(d) && SnapOk(c, s) && Durable(c, d, s)
    ensures Reads(c, d.volatile, s)
  {
    hide Placed, DirOk, FreeOk, Semantic, ReadTables, Contents;
    forall i | NamedAt(s, i) && 0 <= i < |d.durable| ensures d.durable[i] == d.volatile[i] {
      assert i !in d.dirty;
    }
    ReadsLocal(c, d.durable, d.volatile, s);
  }
}
