/** The container directory (`src/container.rs`): members in name order, the free list, their wire
    encoding, and the parser that refuses anything a writer could not have published. */
module Directory {
  import opened Bytes
  import opened Host
  import Varint

  const SLOT_LEN: nat := 4096
  const REGION_START: nat := 8192
  const ALIGN: nat := 4096
  const MAX_DIR_STORED: nat := 0x400_0000
  const MAX_DIR_RAW: nat := 0x1000_0000
  const MAX_MEMBERS: nat := 1_000_000
  const MAX_FREE_EXTENTS: nat := 1_000_000
  const MAX_MEMBER_EXTENTS: nat := 65536
  const MAX_NAME: nat := 4096

  type Name = seq<Byte>

  datatype Extent = Extent(off: nat, len: nat)
  datatype Freed = Freed(off: nat, len: nat, seqno: nat)
  datatype Member = Member(extents: seq<Extent>, len: nat, xsum: nat)
  datatype Entry = Entry(name: Name, member: Member)
  datatype Tables = Tables(dir: seq<Entry>, free: seq<Freed>)

  function AlignUp(x: nat): (r: nat)
    ensures r % ALIGN == 0
    ensures x <= r < x + ALIGN
  {
    (x + ALIGN - 1) / ALIGN * ALIGN
  }

  function ExtentBytes(es: seq<Extent>): nat {
    if |es| == 0 then 0 else ExtentBytes(es[..|es| - 1]) + es[|es| - 1].len
  }

  // ---- names ----------------------------------------------------------------------------

  const SLASH: Byte := 47
  const DOT: Byte := 46
  const BACKSLASH: Byte := 92

  /** The `/`-separated components of a name. */
  function Components(name: Name): (parts: seq<Name>)
    ensures |parts| >= 1
  {
    if |name| == 0 then [[]]
    else
      var rest := Components(name[1..]);
      if name[0] == SLASH then [[]] + rest else [[name[0]] + rest[0]] + rest[1..]
  }

  /** The parts with a `/` between each two. */
  function Slashed(parts: seq<Name>): Name
    requires |parts| > 0
  {
    if |parts| == 1 then parts[0] else parts[0] + [SLASH] + Slashed(parts[1..])
  }

  /** The components are the one way to cut a name at every `/`. */
  lemma {:induction false} ComponentsSpellName(name: Name)
    ensures Slashed(Components(name)) == name
    ensures forall k :: 0 <= k < |Components(name)| ==> SLASH !in Components(name)[k]
  {
    if |name| > 0 {
      var rest := Components(name[1..]);
      ComponentsSpellName(name[1..]);
      if name[0] == SLASH {
        assert ([[]] + rest)[1..] == rest;
      } else {
        assert ([[name[0]] + rest[0]] + rest[1..])[1..] == rest[1..];
        assert [name[0]] + name[1..] == name;
      }
    }
  }

  lemma {:induction false} ComponentsUnique(name: Name, parts: seq<Name>)
    requires |parts| > 0 && Slashed(parts) == name && forall k :: 0 <= k < |parts| ==> SLASH !in parts[k]
    ensures parts == Components(name)
    decreases |name|
  {
    if |name| == 0 {
      assert |parts| == 1;
    } else if parts[0] == [] {
      assert name == [SLASH] + Slashed(parts[1..]);
      assert name[1..] == Slashed(parts[1..]);
      ComponentsUnique(name[1..], parts[1..]);
      assert parts == [[]] + parts[1..];
    } else {
      var shorter := [parts[0][1..]] + parts[1..];
      assert name[0] == parts[0][0];
      assert shorter[1..] == parts[1..];
      assert name[1..] == Slashed(shorter);
      forall k | 0 <= k < |shorter| ensures SLASH !in shorter[k] {
        if k > 0 { assert shorter[k] == parts[k]; }
      }
      ComponentsUnique(name[1..], shorter);
      assert parts[0] == [name[0]] + shorter[0];
      assert parts == [parts[0]] + parts[1..];
    }
  }

  /** `parts` is a way to cut the name at its slashes. */
  predicate Cuts(parts: seq<Name>, name: Name) {
    |parts| > 0 && Slashed(parts) == name && forall k :: 0 <= k < |parts| ==> 47 !in parts[k]
  }

  /** Which names are taken: not empty, at most 4096 bytes, without backslash, and, however cut at its slashes, with
      no part empty, a dot or two dots. */
  lemma NamesTaken(name: Name)
    ensures ValidName(name) <==>
              && 0 < |name| <= 4096 && 92 !in name
              && forall parts, k :: Cuts(parts, name) && 0 <= k < |parts| ==>
                   parts[k] != [] && parts[k] != [46] && parts[k] != [46, 46]
  {
    hide Slashed, Components;
    var own := Components(name);
    ComponentsSpellName(name);
    assert Cuts(own, name);
    forall parts | Cuts(parts, name) ensures parts == own { ComponentsUnique(name, parts); }
    hide Cuts;
    if ValidName(name) {
      forall k | 0 <= k < |own| ensures own[k] != [] && own[k] != [46] && own[k] != [46, 46] { assert own[k] in own; }
    }
  }

  predicate ValidName(name: Name) {
    && 0 < |name| <= MAX_NAME
    && BACKSLASH !in name
    && forall part :: part in Components(name) ==> part != [] && part != [DOT] && part != [DOT, DOT]
  }

  // ---- what may be published ------------------------------------------------------------

  /** The one region check every extent passes on read. */
  predicate InRegion(off: nat, len: nat, dirOff: nat) {
    off >= REGION_START && off % ALIGN == 0 && off + len <= dirOff && dirOff <= U64_MAX
  }

  predicate MemberOk(m: Member, dirOff: nat) {
    && |m.extents| <= MAX_MEMBER_EXTENTS
    && (forall e :: e in m.extents ==> e.len > 0 && InRegion(e.off, e.len, dirOff))
    && m.len == ExtentBytes(m.extents) <= U64_MAX
    && m.xsum <= U32_MAX
  }

  predicate NamesAscend(dir: seq<Entry>) {
    forall i :: 0 <= i < |dir| - 1 ==> Less(dir[i].name, dir[i + 1].name)
  }

  predicate EntryOk(p: Platform, e: Entry, dirOff: nat) {
    ValidName(e.name) && p.utf8(e.name) && MemberOk(e.member, dirOff)
  }

  predicate DirOk(p: Platform, dir: seq<Entry>, dirOff: nat) {
    NamesAscend(dir) && forall e :: e in dir ==> EntryOk(p, e, dirOff)
  }

  predicate FreeOk(free: seq<Freed>, dirOff: nat, seqno: nat) {
    forall f :: f in free ==> f.len > 0 && InRegion(f.off, f.len, dirOff) && f.seqno <= seqno
  }

  // ---- encoding: each writer takes the bytes that follow it ------------------------------

  function PutExtents(es: seq<Extent>, rest: seq<Byte>): seq<Byte> {
    if |es| == 0 then rest else Varint.Put(es[0].off) + (Varint.Put(es[0].len) + PutExtents(es[1..], rest))
  }

  function PutMember(m: Member, rest: seq<Byte>): seq<Byte> {
    Varint.Put(|m.extents|) + PutExtents(m.extents, Le(m.xsum, 4) + rest)
  }

  function PutEntry(e: Entry, rest: seq<Byte>): seq<Byte> {
    Varint.Put(|e.name|) + (e.name + PutMember(e.member, rest))
  }

  function PutEntries(dir: seq<Entry>, rest: seq<Byte>): seq<Byte> {
    if |dir| == 0 then rest else PutEntry(dir[0], PutEntries(dir[1..], rest))
  }

  function PutFreed(f: Freed, rest: seq<Byte>): seq<Byte> {
    Varint.Put(f.off) + (Varint.Put(f.len) + (Varint.Put(f.seqno) + rest))
  }

  function PutFree(free: seq<Freed>, rest: seq<Byte>): seq<Byte> {
    if |free| == 0 then rest else PutFreed(free[0], PutFree(free[1..], rest))
  }

  /** The directory payload. */
  function Payload(t: Tables): seq<Byte> {
    Varint.Put(|t.dir|) + PutEntries(t.dir, Varint.Put(|t.free|) + PutFree(t.free, []))
  }

  // ---- parsing: each parser returns its value and the bytes that remain -------------------

  function TakeVarint(b: seq<Byte>): Outcome<(nat, seq<Byte>)> {
    var (v, used) :- Varint.Get(b);
    Ok((v, b[used..]))
  }

  function TakeExtents(b: seq<Byte>, n: nat, acc: seq<Extent>): Outcome<(seq<Extent>, seq<Byte>)>
    decreases n
  {
    if n == 0 then Ok((acc, b))
    else
      var (off, b1) :- TakeVarint(b);
      var (len, b2) :- TakeVarint(b1);
      if len == 0 || ExtentBytes(acc) + len > U64_MAX then Err
      else TakeExtents(b2, n - 1, acc + [Extent(off, len)])
  }

  function TakeName(p: Platform, b: seq<Byte>): Outcome<(Name, seq<Byte>)> {
    var (nameLen, b1) :- TakeVarint(b);
    if nameLen > MAX_NAME || nameLen > |b1| || !p.utf8(b1[..nameLen]) || !ValidName(b1[..nameLen]) then Err
    else Ok((b1[..nameLen], b1[nameLen..]))
  }

  function TakeMember(b: seq<Byte>, dirOff: nat): Outcome<(Member, seq<Byte>)> {
    var (n, b1) :- TakeVarint(b);
    if n > MAX_MEMBER_EXTENTS then Err
    else
      var (extents, b2) :- TakeExtents(b1, n, []);
      if |b2| < 4 || exists e :: e in extents && !InRegion(e.off, e.len, dirOff) then Err
      else Ok((Member(extents, ExtentBytes(extents), FromLe(b2[..4])), b2[4..]))
  }

  function TakeEntry(p: Platform, b: seq<Byte>, dirOff: nat, dir: seq<Entry>): Outcome<(Entry, seq<Byte>)> {
    var (name, b1) :- TakeName(p, b);
    if |dir| > 0 && !Less(dir[|dir| - 1].name, name) then Err
    else
      var (m, b2) :- TakeMember(b1, dirOff);
      Ok((Entry(name, m), b2))
  }

  function TakeEntries(p: Platform, b: seq<Byte>, n: nat, dirOff: nat, acc: seq<Entry>)
    : Outcome<(seq<Entry>, seq<Byte>)>
    decreases n
  {
    if n == 0 then Ok((acc, b))
    else
      var (entry, rest) :- TakeEntry(p, b, dirOff, acc);
      TakeEntries(p, rest, n - 1, dirOff, acc + [entry])
  }

  function TakeFree(b: seq<Byte>, n: nat, dirOff: nat, seqno: nat, acc: seq<Freed>)
    : Outcome<(seq<Freed>, seq<Byte>)>
    decreases n
  {
    if n == 0 then Ok((acc, b))
    else
      var (off, b1) :- TakeVarint(b);
      var (len, b2) :- TakeVarint(b1);
      var (at, b3) :- TakeVarint(b2);
      if at > seqno || len == 0 || !InRegion(off, len, dirOff) then Err
      else TakeFree(b3, n - 1, dirOff, seqno, acc + [Freed(off, len, at)])
  }

  /** Every field check of `read_directory` on a decoded payload; the overlap check is
      `Layout.NoOverlap`. */
  function Parse(p: Platform, payload: seq<Byte>, nEntries: nat, dirOff: nat, seqno: nat): Outcome<Tables> {
    var (n, b1) :- TakeVarint(payload);
    if n != nEntries then Err
    else
      var (dir, b2) :- TakeEntries(p, b1, n, dirOff, []);
      var (nFree, b3) :- TakeVarint(b2);
      if nFree > MAX_FREE_EXTENTS then Err
      else
        var (free, b4) :- TakeFree(b3, nFree, dirOff, seqno, []);
        if b4 != [] then Err else Ok(Tables(dir, free))
  }

  // ---- round trip -------------------------------------------------------------------------

  lemma TakeVarintPut(v: nat, rest: seq<Byte>)
    requires v <= U64_MAX
    ensures TakeVarint(Varint.Put(v) + rest) == Ok((v, rest))
  {
    Varint.GetInvertsPut(v, rest);
    assert (Varint.Put(v) + rest)[|Varint.Put(v)|..] == rest;
  }

  lemma {:induction false} ExtentBytesSplit(a: seq<Extent>, b: seq<Extent>)
    ensures ExtentBytes(a + b) == ExtentBytes(a) + ExtentBytes(b)
  {
    if |b| == 0 {
      assert a + b == a;
    } else {
      ExtentBytesSplit(a, b[..|b| - 1]);
      assert (a + b)[..|a + b| - 1] == a + b[..|b| - 1];
    }
  }

  lemma HeadFits(acc: seq<Extent>, es: seq<Extent>)
    requires |es| > 0
    ensures acc + [es[0]] + es[1..] == acc + es
    ensures ExtentBytes(acc) + es[0].len <= ExtentBytes(acc + es)
  {
    assert acc + [es[0]] + es[1..] == acc + es;
    ExtentBytesSplit(acc + [es[0]], es[1..]);
    ExtentBytesSplit(acc, [es[0]]);
  }

  lemma {:induction false} TakeExtentsInvertsPut(es: seq<Extent>, acc: seq<Extent>, rest: seq<Byte>)
    requires forall e :: e in es ==> 0 < e.len <= U64_MAX && e.off <= U64_MAX
    requires ExtentBytes(acc + es) <= U64_MAX
    ensures TakeExtents(PutExtents(es, rest), |es|, acc) == Ok((acc + es, rest))
    decreases |es|
  {
    hide TakeVarint, ExtentBytes;
    if |es| == 0 {
      assert acc + es == acc;
    } else {
      var tail := PutExtents(es[1..], rest);
      TakeVarintPut(es[0].off, Varint.Put(es[0].len) + tail);
      TakeVarintPut(es[0].len, tail);
      HeadFits(acc, es);
      TakeExtentsInvertsPut(es[1..], acc + [es[0]], rest);
    }
  }

  lemma TakeNameInvertsPut(p: Platform, name: Name, rest: seq<Byte>)
    requires ValidName(name) && p.utf8(name)
    ensures TakeName(p, Varint.Put(|name|) + (name + rest)) == Ok((name, rest))
  {
    TakeVarintPut(|name|, name + rest);
    assert (name + rest)[..|name|] == name && (name + rest)[|name|..] == rest;
  }

  lemma TakeMemberInvertsPut(m: Member, dirOff: nat, rest: seq<Byte>)
    requires MemberOk(m, dirOff)
    ensures TakeMember(PutMember(m, rest), dirOff) == Ok((m, rest))
  {
    var afterExtents := Le(m.xsum, 4) + rest;
    TakeVarintPut(|m.extents|, PutExtents(m.extents, afterExtents));
    assert [] + m.extents == m.extents;
    TakeExtentsInvertsPut(m.extents, [], afterExtents);
    assert afterExtents[..4] == Le(m.xsum, 4) && afterExtents[4..] == rest;
    Pow256Values();
    FromLeInvertsLe(m.xsum, 4);
  }

  lemma TakeEntryInvertsPut(p: Platform, e: Entry, dirOff: nat, dir: seq<Entry>, rest: seq<Byte>)
    requires EntryOk(p, e, dirOff)
    requires |dir| > 0 ==> Less(dir[|dir| - 1].name, e.name)
    ensures TakeEntry(p, PutEntry(e, rest), dirOff, dir) == Ok((e, rest))
  {
    TakeNameInvertsPut(p, e.name, PutMember(e.member, rest));
    TakeMemberInvertsPut(e.member, dirOff, rest);
  }

  lemma TakeEntriesStep(p: Platform, e: Entry, rest: seq<Byte>, n: nat, dirOff: nat, acc: seq<Entry>)
    requires EntryOk(p, e, dirOff)
    requires |acc| > 0 ==> Less(acc[|acc| - 1].name, e.name)
    ensures TakeEntries(p, PutEntry(e, rest), n + 1, dirOff, acc) == TakeEntries(p, rest, n, dirOff, acc + [e])
  {
    TakeEntryInvertsPut(p, e, dirOff, acc, rest);
  }

  lemma {:induction false} TakeEntriesInvertsPut(p: Platform, dir: seq<Entry>, dirOff: nat, acc: seq<Entry>, rest: seq<Byte>)
    requires NamesAscend(acc + dir)
    requires forall i :: 0 <= i < |dir| ==> EntryOk(p, dir[i], dirOff)
    ensures TakeEntries(p, PutEntries(dir, rest), |dir|, dirOff, acc) == Ok((acc + dir, rest))
    decreases |dir|
  {
    if |dir| == 0 {
      assert acc + dir == acc;
    } else {
      var first, others := dir[0], dir[1..];
      assert acc + [first] + others == acc + dir;
      assert |acc| > 0 ==> Less(acc[|acc| - 1].name, first.name) by {
        if |acc| > 0 {
          assert Less((acc + dir)[|acc| - 1].name, (acc + dir)[|acc| - 1 + 1].name);
        }
      }
      TakeEntriesStep(p, first, PutEntries(others, rest), |others|, dirOff, acc);
      TakeEntriesInvertsPut(p, others, dirOff, acc + [first], rest);
    }
  }

  lemma {:induction false} TakeFreeInvertsPut(free: seq<Freed>, dirOff: nat, seqno: nat, acc: seq<Freed>, rest: seq<Byte>)
    requires FreeOk(free, dirOff, seqno) && seqno <= U64_MAX
    ensures TakeFree(PutFree(free, rest), |free|, dirOff, seqno, acc) == Ok((acc + free, rest))
    decreases |free|
  {
    hide TakeVarint;
    if |free| == 0 {
      assert acc + free == acc;
    } else {
      var f := free[0];
      var tail := PutFree(free[1..], rest);
      var b2 := Varint.Put(f.seqno) + tail;
      TakeVarintPut(f.off, Varint.Put(f.len) + b2);
      TakeVarintPut(f.len, b2);
      TakeVarintPut(f.seqno, tail);
      assert acc + [f] + free[1..] == acc + free;
      TakeFreeInvertsPut(free[1..], dirOff, seqno, acc + [f], rest);
    }
  }

  /** Directory soundness, wire half: whatever tables satisfy the placement rules survive
      encoding and every field check of the reader unchanged. */
  lemma ParseInvertsPayload(p: Platform, t: Tables, dirOff: nat, seqno: nat)
    requires DirOk(p, t.dir, dirOff) && FreeOk(t.free, dirOff, seqno) && seqno <= U64_MAX
    requires |t.dir| <= U64_MAX && |t.free| <= MAX_FREE_EXTENTS
    ensures Parse(p, Payload(t), |t.dir|, dirOff, seqno) == Ok(t)
  {
    var b3 := PutFree(t.free, []);
    var b2 := Varint.Put(|t.free|) + b3;
    TakeVarintPut(|t.dir|, PutEntries(t.dir, b2));
    assert [] + t.dir == t.dir && [] + t.free == t.free;
    TakeEntriesInvertsPut(p, t.dir, dirOff, [], b2);
    TakeVarintPut(|t.free|, b3);
    TakeFreeInvertsPut(t.free, dirOff, seqno, [], []);
  }

  // ---- acceptance -------------------------------------------------------------------------

  lemma TakeVarintSpells(b: seq<Byte>)
    requires TakeVarint(b).Ok?
    ensures var (v, rest) := TakeVarint(b).value; v <= U64_MAX && b == Varint.Put(v) + rest
  {
    Varint.GetIsCanonical(b);
    var used := Varint.Get(b).value.1;
    assert b == b[..used] + b[used..];
  }

  lemma {:induction false} TakeExtentsSpells(b: seq<Byte>, n: nat, acc: seq<Extent>)
    requires TakeExtents(b, n, acc).Ok? && ExtentBytes(acc) <= U64_MAX
    ensures var (es, rest) := TakeExtents(b, n, acc).value;
            && acc <= es && |es| == |acc| + n && ExtentBytes(es) <= U64_MAX
            && b == PutExtents(es[|acc|..], rest)
            && forall e :: e in es[|acc|..] ==> e.len > 0
    decreases n
  {
    hide TakeVarint;
    if n > 0 {
      var (off, b1) := TakeVarint(b).value;
      var (len, b2) := TakeVarint(b1).value;
      TakeVarintSpells(b);
      TakeVarintSpells(b1);
      var more := acc + [Extent(off, len)];
      assert more[..|more| - 1] == acc;
      TakeExtentsSpells(b2, n - 1, more);
      var (es, rest) := TakeExtents(b2, n - 1, more).value;
      assert es[|acc|] == more[|acc|];
      assert es[|acc|..][1..] == es[|more|..];
      hide ExtentBytes, TakeExtents;
    }
  }

  lemma TakeNameSpells(p: Platform, b: seq<Byte>)
    requires TakeName(p, b).Ok?
    ensures var (name, rest) := TakeName(p, b).value;
            ValidName(name) && p.utf8(name) && b == Varint.Put(|name|) + (name + rest)
  {
    hide TakeVarint, ValidName;
    TakeVarintSpells(b);
    var (n, b1) := TakeVarint(b).value;
    assert b1 == b1[..n] + b1[n..];
  }

  lemma TakeMemberSpells(b: seq<Byte>, dirOff: nat)
    requires TakeMember(b, dirOff).Ok?
    ensures var (m, rest) := TakeMember(b, dirOff).value; MemberOk(m, dirOff) && b == PutMember(m, rest)
  {
    hide TakeVarint, TakeExtents, FromLe, Le, InRegion;
    TakeVarintSpells(b);
    var (n, b1) := TakeVarint(b).value;
    TakeExtentsSpells(b1, n, []);
    var (es, b2) := TakeExtents(b1, n, []).value;
    assert es[0..] == es;
    FieldBack(b2[..4]);
    Pow256Values();
    assert b2 == b2[..4] + b2[4..];
  }

  lemma TakeEntrySpells(p: Platform, b: seq<Byte>, dirOff: nat, dir: seq<Entry>)
    requires TakeEntry(p, b, dirOff, dir).Ok?
    ensures var (e, rest) := TakeEntry(p, b, dirOff, dir).value;
            && EntryOk(p, e, dirOff) && b == PutEntry(e, rest)
            && (|dir| > 0 ==> Less(dir[|dir| - 1].name, e.name))
  {
    hide TakeName, TakeMember, ValidName, MemberOk;
    TakeNameSpells(p, b);
    TakeMemberSpells(TakeName(p, b).value.1, dirOff);
  }

  lemma {:induction false} TakeEntriesSpells(p: Platform, b: seq<Byte>, n: nat, dirOff: nat, acc: seq<Entry>)
    requires TakeEntries(p, b, n, dirOff, acc).Ok? && DirOk(p, acc, dirOff)
    ensures var (dir, rest) := TakeEntries(p, b, n, dirOff, acc).value;
            && acc <= dir && |dir| == |acc| + n && DirOk(p, dir, dirOff)
            && b == PutEntries(dir[|acc|..], rest)
    decreases n
  {
    hide TakeEntry, PutEntry, EntryOk;
    if n > 0 {
      TakeEntrySpells(p, b, dirOff, acc);
      var (e, rest) := TakeEntry(p, b, dirOff, acc).value;
      var more := acc + [e];
      assert NamesAscend(more);
      TakeEntriesSpells(p, rest, n - 1, dirOff, more);
      var dir := TakeEntries(p, rest, n - 1, dirOff, more).value.0;
      assert dir[|acc|] == more[|acc|];
      assert dir[|acc|..][1..] == dir[|more|..];
    }
  }

  lemma {:induction false} TakeFreeSpells(b: seq<Byte>, n: nat, dirOff: nat, seqno: nat, acc: seq<Freed>)
    requires TakeFree(b, n, dirOff, seqno, acc).Ok? && FreeOk(acc, dirOff, seqno)
    ensures var (free, rest) := TakeFree(b, n, dirOff, seqno, acc).value;
            && acc <= free && |free| == |acc| + n && FreeOk(free, dirOff, seqno)
            && b == PutFree(free[|acc|..], rest)
    decreases n
  {
    hide TakeVarint, InRegion;
    if n > 0 {
      var (off, b1) := TakeVarint(b).value;
      var (len, b2) := TakeVarint(b1).value;
      var (at, b3) := TakeVarint(b2).value;
      TakeVarintSpells(b);
      TakeVarintSpells(b1);
      TakeVarintSpells(b2);
      var more := acc + [Freed(off, len, at)];
      TakeFreeSpells(b3, n - 1, dirOff, seqno, more);
      var free := TakeFree(b3, n - 1, dirOff, seqno, more).value.0;
      assert free[|acc|] == more[|acc|];
      assert free[|acc|..][1..] == free[|more|..];
    }
  }

  /** A payload is accepted as given tables exactly when it is byte for byte their encoding, they are as many
      as announced, and every entry and free extent is well formed, in order and inside the region. */
  lemma ParseAcceptsExactlyPayloads(p: Platform, payload: seq<Byte>, nEntries: nat, dirOff: nat, seqno: nat, t: Tables)
    requires seqno <= U64_MAX
    ensures Parse(p, payload, nEntries, dirOff, seqno) == Ok(t)
            <==> payload == Payload(t) && |t.dir| == nEntries <= U64_MAX && |t.free| <= MAX_FREE_EXTENTS
                 && DirOk(p, t.dir, dirOff) && FreeOk(t.free, dirOff, seqno)
  {
    hide DirOk, FreeOk, TakeEntries, TakeFree, TakeVarint;
    if Parse(p, payload, nEntries, dirOff, seqno) == Ok(t) { ParsedSpells(p, payload, nEntries, dirOff, seqno, t); }
    if payload == Payload(t) && |t.dir| == nEntries <= U64_MAX && |t.free| <= MAX_FREE_EXTENTS
       && DirOk(p, t.dir, dirOff) && FreeOk(t.free, dirOff, seqno) {
      ParseInvertsPayload(p, t, dirOff, seqno);
    }
  }

  /** What acceptance says of every extent: not empty, aligned, past the slots and below the directory. */
  lemma ParsedExtentsInRegion(p: Platform, payload: seq<Byte>, nEntries: nat, dirOff: nat, seqno: nat, t: Tables)
    requires Parse(p, payload, nEntries, dirOff, seqno) == Ok(t)
    ensures forall i, k :: 0 <= i < |t.dir| && 0 <= k < |t.dir[i].member.extents| ==>
              var e := t.dir[i].member.extents[k];
              0 < e.len && 8192 <= e.off && e.off % 4096 == 0 && e.off + e.len <= dirOff
    ensures forall k :: 0 <= k < |t.free| ==>
              var f := t.free[k];
              0 < f.len && 8192 <= f.off && f.off % 4096 == 0 && f.off + f.len <= dirOff && f.seqno <= seqno
    ensures forall i :: 0 <= i < |t.dir| ==> |t.dir[i].member.extents| <= 65536 && 0 < |t.dir[i].name| <= 4096
  {
    hide Parse;
    ParsedSpells(p, payload, nEntries, dirOff, seqno, t);
    forall i | 0 <= i < |t.dir| ensures EntryOk(p, t.dir[i], dirOff) { }
    forall k | 0 <= k < |t.free| ensures t.free[k] in t.free { }
  }

  /** The layout, on one member of one extent and one free extent. */
  lemma PayloadExample()
    ensures Payload(Tables([Entry([97], Member([Extent(8192, 3)], 3, 0x04030201))], [Freed(12288, 1, 2)]))
         == [1] + ([1] + ([97] + ([1, 128, 64, 3, 1, 2, 3, 4] + ([1] + [128, 96, 1, 2]))))
  {
    var e, f := Entry([97], Member([Extent(8192, 3)], 3, 0x04030201)), Freed(12288, 1, 2);
    var rest := [1] + [128, 96, 1, 2];
    MemberExample(rest);
    FreedExample();
    VarintExamples();
    hide Varint.Put, PutFreed, PutMember;
    OneOfEach(e, f, rest);
  }

  lemma OneOfEach(e: Entry, f: Freed, rest: seq<Byte>)
    ensures PutFree([f], []) == PutFreed(f, [])
    ensures PutEntries([e], rest) == Varint.Put(|e.name|) + (e.name + PutMember(e.member, rest))
  {
    hide PutFreed, PutMember;
    assert [f][1..] == [] && [e][1..] == [];
  }

  lemma VarintExamples()
    ensures Varint.Put(1) == [1] && Varint.Put(2) == [2] && Varint.Put(3) == [3]
    ensures Varint.Put(8192) == [128, 64] && Varint.Put(12288) == [128, 96]
  {
    assert Varint.Put(64) == [64] && Varint.Put(96) == [96];
  }

  lemma FreedExample()
    ensures PutFreed(Freed(12288, 1, 2), []) == [128, 96, 1, 2]
  {
    hide Varint.Put;
    VarintExamples();
  }

  lemma MemberExample(rest: seq<Byte>)
    ensures PutMember(Member([Extent(8192, 3)], 3, 0x04030201), rest) == [1, 128, 64, 3, 1, 2, 3, 4] + rest
  {
    hide Varint.Put, Le;
    VarintExamples();
    WordExample();
    var tail := [1, 2, 3, 4] + rest;
    OneExtent(Extent(8192, 3), tail);
    assert [1] + ([128, 64] + ([3] + tail)) == [1, 128, 64, 3, 1, 2, 3, 4] + rest;
  }

  lemma WordExample()
    ensures Le(0x04030201, 4) == [1, 2, 3, 4]
  {
    assert Le(0x04, 1) == [4];
    assert Le(0x0403, 2) == [3, 4];
    assert Le(0x040302, 3) == [2, 3, 4];
  }

  lemma OneExtent(e: Extent, rest: seq<Byte>)
    ensures PutExtents([e], rest) == Varint.Put(e.off) + (Varint.Put(e.len) + rest)
  {
    hide Varint.Put;
    assert [e][1..] == [];
  }

  lemma ParsedSpells(p: Platform, payload: seq<Byte>, nEntries: nat, dirOff: nat, seqno: nat, t: Tables)
    requires Parse(p, payload, nEntries, dirOff, seqno) == Ok(t)
    ensures payload == Payload(t) && |t.dir| == nEntries <= U64_MAX && |t.free| <= MAX_FREE_EXTENTS
    ensures DirOk(p, t.dir, dirOff) && FreeOk(t.free, dirOff, seqno)
  {
    hide TakeVarint, TakeEntries, TakeFree, EntryOk, InRegion;
    TakeVarintSpells(payload);
    var (n, b1) := TakeVarint(payload).value;
    TakeEntriesSpells(p, b1, n, dirOff, []);
    var (dir, b2) := TakeEntries(p, b1, n, dirOff, []).value;
    TakeVarintSpells(b2);
    var (nFree, b3) := TakeVarint(b2).value;
    TakeFreeSpells(b3, nFree, dirOff, seqno, []);
    var (free, b4) := TakeFree(b3, nFree, dirOff, seqno, []).value;
    assert dir[0..] == dir && free[0..] == free;
  }
}
