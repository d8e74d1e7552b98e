/** One container file under power loss: what a process reads, what survives, and which bytes are
    in doubt; and `open`, the function from a file image to the published state it selects. */
module Device {
  import opened Bytes
  import opened Host
  import opened Directory
  import opened Layout
  import opened Superblocks

  datatype Config = Config(p: Platform, limits: Limits)

  /** `volatile` is the file as every process reads it. `durable` is the file as of the last
      successful barrier, and `dirty` holds the offsets written since. */
  datatype Disk = Disk(durable: seq<Byte>, volatile: seq<Byte>, ghost dirty: iset<int>)

  ghost predicate DiskOk(d: Disk) {
    && REGION_START <= |d.durable| <= |d.volatile|
    && forall i :: 0 <= i < |d.durable| && i !in d.dirty ==> d.volatile[i] == d.durable[i]
  }

  /** A slot after a crash, or after a failed slot write: the old bytes, the new bytes, or a tear,
      which is any bytes whose own digest does not cover them. */
  predicate SlotOutcome(p: Platform, before: seq<Byte>, after: seq<Byte>, got: seq<Byte>) {
    got == before || got == after || !Covered(p, got)
  }

  /** Every file a power loss may leave: bytes not in doubt are as the last barrier left them,
      bytes in doubt are arbitrary, each slot survives, vanishes or tears. */
  ghost predicate CrashImage(p: Platform, d: Disk, img: seq<Byte>)
    requires DiskOk(d)
  {
    && |img| >= |d.durable|
    && (forall i :: 0 <= i < |d.durable| && i !in d.dirty ==> img[i] == d.durable[i])
    && (forall s :: 0 <= s <= 1 ==>
          SlotOutcome(p, SlotBytes(d.durable, s), SlotBytes(d.volatile, s), SlotBytes(img, s)))
  }

  /** A write of `data` at `off`: entire when `ok`; otherwise any part of it may have landed. */
  ghost predicate Wrote(p: Platform, d: Disk, off: nat, data: seq<Byte>, ok: bool, d2: Disk)
    requires DiskOk(d)
  {
    && d2.durable == d.durable
    && (forall i :: i in d2.dirty <==> i in d.dirty || off <= i < off + |data|)
    && |d2.volatile| >= |d.volatile|
    && (if ok then d2.volatile == Patch(d.volatile, off, data)
        else
          && (forall i :: 0 <= i < |d.volatile| && (i < off || off + |data| <= i) ==> d2.volatile[i] == d.volatile[i])
          && (forall s :: 0 <= s <= 1 ==>
                SlotOutcome(p, SlotBytes(d.volatile, s), SlotBytes(Patch(d.volatile, off, data), s), SlotBytes(d2.volatile, s))))
  }

  /** A file barrier. A failed one promises nothing and loses nothing: the same writes stay in
      doubt until a later barrier succeeds. */
  ghost predicate Synced(d: Disk, ok: bool, d2: Disk) {
    d2 == if ok then Flushed(d) else d
  }

  function Flushed(d: Disk): Disk { Disk(d.volatile, d.volatile, iset{}) }

  // ---- reading a published state -------------------------------------------------------------

  function DirExtent(sb: Superblock): seq<Extent> {
    if sb.dirStored == 0 then [] else [Extent(sb.dirOff, sb.dirStored)]
  }

  /** `read_directory` on the stored bytes of a directory. */
  function ReadStored(p: Platform, stored: seq<Byte>, sb: Superblock): Outcome<Tables> {
    if p.crc(stored) != sb.dirXsum then Err
    else
      var payload :- CodecDecode(p, sb.dirCodec, stored, sb.dirRaw);
      var t :- Parse(p, payload, sb.nEntries, sb.dirOff, sb.seqno);
      if NoOverlap(Claims(t, DirExtent(sb))) then Ok(t) else Err
  }

  /** `read_directory`, before runtime admission. */
  function ReadTables(p: Platform, file: seq<Byte>, sb: Superblock): Outcome<Tables> {
    if sb.seqno == 0 then
      if sb == BIRTH then Ok(Tables([], [])) else Err
    else if !Semantic(sb) || sb.dirOff + sb.dirStored > |file| then Err
    else ReadStored(p, file[sb.dirOff..sb.dirOff + sb.dirStored], sb)
  }

  /** The admission checks `read_directory` makes along the way. */
  predicate Admits(l: Limits, sb: Superblock, t: Tables) {
    sb.seqno == 0 ||
    (sb.dirStored <= l.maxStored && sb.dirRaw <= l.maxDecoded
     && sb.nEntries <= l.maxDirectoryEntries && |t.free| <= l.maxDirectoryEntries)
  }

  function ReadAdmitted(c: Config, file: seq<Byte>, sb: Superblock): Outcome<Tables> {
    var t :- ReadTables(c.p, file, sb);
    if Admits(c.limits, sb, t) then Ok(t) else Err
  }

  datatype Opened = Opened(sb: Superblock, slot: nat, tables: Tables)

  /** `Container::open`: the published state a file image selects. */
  function Open(c: Config, file: seq<Byte>): Outcome<Opened> {
    var (sb, slot) :- SelectIn(c.p, file);
    if sb.tail > |file| then Err
    else
      var t :- ReadAdmitted(c, file, sb);
      Ok(Opened(sb, slot, t))
  }

  /** One extent's bytes; a range past the file reads nothing. */
  function Slice(file: seq<Byte>, e: Extent): seq<Byte> {
    if End(e) <= |file| then file[e.off..End(e)] else []
  }

  function ReadExtents(file: seq<Byte>, es: seq<Extent>): seq<Byte> {
    if |es| == 0 then [] else ReadExtents(file, es[..|es| - 1]) + Slice(file, es[|es| - 1])
  }

  /** Every member's bytes, in directory order. */
  function Contents(file: seq<Byte>, dir: seq<Entry>): (r: seq<seq<Byte>>)
    ensures |r| == |dir|
    ensures forall i :: 0 <= i < |dir| ==> r[i] == ReadExtents(file, dir[i].member.extents)
  {
    seq(|dir|, i requires 0 <= i < |dir| => ReadExtents(file, dir[i].member.extents))
  }

  // ---- what reading depends on -----------------------------------------------------------------

  lemma ReadTablesLocal(p: Platform, a: seq<Byte>, b: seq<Byte>, sb: Superblock)
    requires sb.seqno != 0 ==> sb.dirOff + sb.dirStored <= |a| && SameRange(a, b, sb.dirOff, sb.dirOff + sb.dirStored)
    ensures ReadTables(p, a, sb) == ReadTables(p, b, sb)
  {
    hide ReadStored;
    if sb.seqno != 0 {
      SameRangeSlice(a, b, sb.dirOff, sb.dirOff + sb.dirStored);
    }
  }

  lemma {:induction false} ReadExtentsLocal(a: seq<Byte>, b: seq<Byte>, es: seq<Extent>)
    requires forall e :: e in es ==> SameRange(a, b, e.off, End(e))
    ensures ReadExtents(a, es) == ReadExtents(b, es)
  {
    if |es| > 0 {
      ReadExtentsLocal(a, b, es[..|es| - 1]);
      var last := es[|es| - 1];
      assert SameRange(a, b, last.off, End(last));
    }
  }

  lemma ContentsLocal(a: seq<Byte>, b: seq<Byte>, dir: seq<Entry>)
    requires forall e :: e in MemberClaims(dir) ==> SameRange(a, b, e.off, End(e))
    ensures Contents(a, dir) == Contents(b, dir)
  {
    forall i | 0 <= i < |dir| ensures ReadExtents(a, dir[i].member.extents) == ReadExtents(b, dir[i].member.extents) {
      forall e | e in dir[i].member.extents ensures SameRange(a, b, e.off, End(e)) {
        var k :| 0 <= k < |dir[i].member.extents| && dir[i].member.extents[k] == e;
        MemberClaimsAt(dir, i, k);
        assert e in MemberClaims(dir);
      }
      ReadExtentsLocal(a, b, dir[i].member.extents);
    }
  }

  // ---- what a commit writes is what an open reads ----------------------------------------------

  /** The superblock `commit_staged` builds for `t` with its directory at `dirOff`. */
  function SealOf(p: Platform, t: Tables, dirOff: nat, seqno: nat): Superblock {
    var (codec, stored) := CodecEncode(p, Payload(t));
    Superblock(seqno, dirOff, |stored|, |Payload(t)|, |t.dir|, p.crc(stored), dirOff + |stored|, codec)
  }

  /** The refusals `commit_staged` makes before writing the directory. */
  predicate Committable(p: Platform, t: Tables, dirOff: nat) {
    var stored := CodecEncode(p, Payload(t)).1;
    && |t.dir| <= MAX_MEMBERS && |t.free| <= MAX_FREE_EXTENTS
    && |Payload(t)| <= MAX_DIR_RAW && |stored| <= MAX_DIR_STORED
    && dirOff + |stored| <= U64_MAX
  }

  lemma SealIsSemantic(p: Platform, t: Tables, dirOff: nat, seqno: nat)
    requires p.Lawful() && Committable(p, t, dirOff) && 0 < seqno <= U64_MAX
    requires dirOff >= REGION_START && dirOff % ALIGN == 0
    ensures Representable(SealOf(p, t, dirOff, seqno)) && Semantic(SealOf(p, t, dirOff, seqno))
  {
    var stored := CodecEncode(p, Payload(t)).1;
    assert |Payload(t)| >= 1;
    assert p.compress(Payload(t)) != [];
    assert p.crc(stored) <= U32_MAX;
  }

  lemma PublishedStoredRead(p: Platform, t: Tables, l: seq<Extent>, dirOff: nat, seqno: nat)
    requires p.Lawful() && Committable(p, t, dirOff) && 0 < seqno <= U64_MAX
    requires DirOk(p, t.dir, dirOff) && FreeOk(t.free, dirOff, seqno)
    requires Packed(l) && multiset(l) == ClaimBag(t, DirExtent(SealOf(p, t, dirOff, seqno)))
    ensures ReadStored(p, CodecEncode(p, Payload(t)).1, SealOf(p, t, dirOff, seqno)) == Ok(t)
  {
    CodecDecodeInvertsEncode(p, Payload(t));
    ParseInvertsPayload(p, t, dirOff, seqno);
    ClaimBagOf(t, DirExtent(SealOf(p, t, dirOff, seqno)));
    PlacedPassesOverlapCheck(l, Claims(t, DirExtent(SealOf(p, t, dirOff, seqno))));
  }

  /** Directory soundness, as a whole: a committable, well-placed directory passes every check of
      the reader and comes back exactly. */
  lemma PublishedTablesRead(p: Platform, t: Tables, l: seq<Extent>, dirOff: nat, seqno: nat, file: seq<Byte>)
    requires p.Lawful() && Committable(p, t, dirOff) && 0 < seqno <= U64_MAX
    requires dirOff >= REGION_START && dirOff % ALIGN == 0
    requires DirOk(p, t.dir, dirOff) && FreeOk(t.free, dirOff, seqno)
    requires Packed(l) && multiset(l) == ClaimBag(t, DirExtent(SealOf(p, t, dirOff, seqno)))
    requires var stored := CodecEncode(p, Payload(t)).1;
             dirOff + |stored| <= |file| && file[dirOff..dirOff + |stored|] == stored
    ensures ReadTables(p, file, SealOf(p, t, dirOff, seqno)) == Ok(t)
  {
    var sb := SealOf(p, t, dirOff, seqno);
    var stored := CodecEncode(p, Payload(t)).1;
    hide ReadStored;
    SealIsSemantic(p, t, dirOff, seqno);
    assert ReadStored(p, stored, sb) == Ok(t) by {
      PublishedStoredRead(p, t, l, dirOff, seqno);
    }
  }

  // ---- what open accepts -----------------------------------------------------------------------

  /** The state `sb` names stands in the file: its directory is where it says, with its checksum, decompresses
      to the encoding of `t`, and places every claim inside the region and apart from the others. */
  predicate Published(p: Platform, file: seq<Byte>, sb: Superblock, t: Tables) {
    if sb.seqno == 0 then sb == BIRTH && t == Tables([], [])
    else
      && Semantic(sb) && sb.tail <= |file|
      && p.crc(file[sb.dirOff..sb.tail]) == sb.dirXsum
      && CodecDecode(p, sb.dirCodec, file[sb.dirOff..sb.tail], sb.dirRaw) == Ok(Payload(t))
      && |t.dir| == sb.nEntries && |t.free| <= MAX_FREE_EXTENTS
      && DirOk(p, t.dir, sb.dirOff) && FreeOk(t.free, sb.dirOff, sb.seqno)
      && NoOverlap(Claims(t, [Extent(sb.dirOff, sb.dirStored)]))
  }

  lemma ReadsExactlyPublished(p: Platform, file: seq<Byte>, sb: Superblock, t: Tables)
    requires sb.seqno <= U64_MAX
    ensures ReadTables(p, file, sb) == Ok(t) <==> Published(p, file, sb, t)
  {
    hide Parse, CodecDecode, NoOverlap, DirOk, FreeOk, Payload, Claims;
    if sb.seqno != 0 && Semantic(sb) && sb.tail <= |file| {
      var stored := file[sb.dirOff..sb.tail];
      StoredReads(p, stored, sb, t);
      if ReadStored(p, stored, sb) == Ok(t) { assert Published(p, file, sb, t); }
    }
  }

  lemma StoredReads(p: Platform, stored: seq<Byte>, sb: Superblock, t: Tables)
    requires sb.seqno <= U64_MAX && sb.dirStored != 0 && sb.nEntries <= U64_MAX
    ensures ReadStored(p, stored, sb) == Ok(t) <==>
              && p.crc(stored) == sb.dirXsum && CodecDecode(p, sb.dirCodec, stored, sb.dirRaw) == Ok(Payload(t))
              && |t.dir| == sb.nEntries && |t.free| <= MAX_FREE_EXTENTS
              && DirOk(p, t.dir, sb.dirOff) && FreeOk(t.free, sb.dirOff, sb.seqno)
              && NoOverlap(Claims(t, [Extent(sb.dirOff, sb.dirStored)]))
  {
    hide Parse, CodecDecode, NoOverlap, DirOk, FreeOk, Payload, Claims;
    var r := CodecDecode(p, sb.dirCodec, stored, sb.dirRaw);
    if r.Ok? {
      ParseAcceptsExactlyPayloads(p, r.value, sb.nEntries, sb.dirOff, sb.seqno, t);
    }
  }

  /** A slot that does not displace `sb` in slot `slot`: no claim, an older one, or the same one in a later slot. */
  ghost predicate Yields(p: Platform, other: seq<Byte>, sb: Superblock, slot: nat) {
    !Covered(p, other)
    || exists o :: Spells(p, other, o) && (o.seqno < sb.seqno || (o == sb && slot == 0))
  }

  /** Opening, exactly: a file opens as a state when one of its slots spells that state's superblock, the other
      yields to it, the state stands in the file, and the runtime limits admit it. Everything else is refused. */
  lemma OpensExactly(c: Config, file: seq<Byte>, sb: Superblock, slot: nat, t: Tables)
    requires c.p.Lawful()
    ensures Open(c, file) == Ok(Opened(sb, slot, t)) <==>
              && |file| >= REGION_START && slot <= 1
              && Spells(c.p, SlotBytes(file, slot), sb) && Yields(c.p, SlotBytes(file, 1 - slot), sb, slot)
              && sb.tail <= |file| && Published(c.p, file, sb, t)
              && (sb.seqno == 0
                  || (sb.dirStored <= c.limits.maxStored && sb.dirRaw <= c.limits.maxDecoded
                      && |t.dir| <= c.limits.maxDirectoryEntries && |t.free| <= c.limits.maxDirectoryEntries))
  {
    hide ReadTables, Published, Spells, Yields, Platform.Lawful, DecodeSlot, SelectIn;
    SelectsExactly(c.p, file, sb, slot);
    if sb.seqno <= U64_MAX { ReadsExactlyPublished(c.p, file, sb, t); }
    if |file| >= REGION_START && slot <= 1 { SpelledIsRepresentable(c.p, SlotBytes(file, slot), sb); }
    PublishedCounts(c.p, file, sb, t);
    if Open(c, file) == Ok(Opened(sb, slot, t)) {
      var s := SelectIn(c.p, file);
      assert s == Ok((s.value.0, s.value.1));
      assert ReadTables(c.p, file, sb) == Ok(t);
    }
  }

  lemma PublishedCounts(p: Platform, file: seq<Byte>, sb: Superblock, t: Tables)
    ensures Published(p, file, sb, t) && sb.seqno != 0 ==> |t.dir| == sb.nEntries
  {
  }

  lemma SpelledIsRepresentable(p: Platform, bytes: seq<Byte>, sb: Superblock)
    ensures Spells(p, bytes, sb) ==> sb.seqno <= U64_MAX
  {
  }

  lemma SelectsExactly(p: Platform, file: seq<Byte>, sb: Superblock, slot: nat)
    requires p.Lawful()
    ensures SelectIn(p, file) == Ok((sb, slot)) <==>
              && |file| >= REGION_START && slot <= 1
              && Spells(p, SlotBytes(file, slot), sb) && Yields(p, SlotBytes(file, 1 - slot), sb, slot)
  {
    hide DecodeSlot, Spells, Yields, Platform.Lawful;
    if |file| >= REGION_START && slot <= 1 {
      YieldsMeans(p, SlotBytes(file, 1 - slot), sb, slot);
      SpellsMeans(p, SlotBytes(file, slot), sb);
    }
  }

  lemma SpellsMeans(p: Platform, bytes: seq<Byte>, sb: Superblock)
    requires p.Lawful()
    ensures Spells(p, bytes, sb) <==> DecodeSlot(p, bytes) == Ok(Some(sb))
  {
    hide DecodeSlot, Spells, Platform.Lawful;
    DecodeIsExact(p, bytes);
  }

  lemma YieldsMeans(p: Platform, other: seq<Byte>, sb: Superblock, slot: nat)
    requires p.Lawful()
    ensures Yields(p, other, sb, slot) <==>
              var r := DecodeSlot(p, other);
              r.Ok? && (r.value.None? || r.value.value.seqno < sb.seqno || (r.value.value == sb && slot == 0))
  {
    hide DecodeSlot, Spells, Covered, Platform.Lawful;
    TornClaimsNothing(p, other);
    CoveredClaims(p, other);
    if o :| Spells(p, other, o) && (o.seqno < sb.seqno || (o == sb && slot == 0)) { SpellsMeans(p, other, o); }
    var r := DecodeSlot(p, other);
    if r.Ok? && r.value.Some? { SpellsMeans(p, other, r.value.value); }
  }

  lemma CoveredClaims(p: Platform, slot: seq<Byte>)
    requires p.Lawful()
    ensures Covered(p, slot) ==> DecodeSlot(p, slot) != Ok(None)
  {
    hide Spells;
    DecodeIsExact(p, slot);
  }
}
