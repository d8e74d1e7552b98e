/** The loops of `encode_directory`, `encoded_directory_len` and `read_directory`
    (`src/container.rs`), proved against the wire format of module `Directory`. */
module DirectoryCodec {
  import opened Bytes
  import opened Host
  import opened Directory
  import Varint

  lemma AppendAssoc(a: seq<Byte>, b: seq<Byte>, c: seq<Byte>)
    ensures a + b + c == a + (b + c)
  {
  }

  lemma DropTwice(b: seq<Byte>, i: nat, j: nat)
    requires i + j <= |b|
    ensures b[i..][j..] == b[i + j..]
  {
  }

  // ---- length -------------------------------------------------------------------------------

  method ExtentsLen(es: seq<Extent>, ghost rest: seq<Byte>) returns (len: nat)
    ensures len + |rest| == |PutExtents(es, rest)|
  {
    len := 0;
    for i := 0 to |es|
      invariant len + |PutExtents(es[i..], rest)| == |PutExtents(es, rest)|
    {
      Varint.LenIsExact(es[i].off);
      Varint.LenIsExact(es[i].len);
      assert es[i..][1..] == es[i + 1..];
      len := len + Varint.Len(es[i].off) + Varint.Len(es[i].len);
    }
  }

  method FreeLen(free: seq<Freed>) returns (len: nat)
    ensures len == |PutFree(free, [])|
  {
    len := 0;
    for i := 0 to |free|
      invariant len + |PutFree(free[i..], [])| == |PutFree(free, [])|
    {
      Varint.LenIsExact(free[i].off);
      Varint.LenIsExact(free[i].len);
      Varint.LenIsExact(free[i].seqno);
      assert free[i..][1..] == free[i + 1..];
      len := len + Varint.Len(free[i].off) + Varint.Len(free[i].len) + Varint.Len(free[i].seqno);
    }
  }

  /** `encoded_directory_len`: computed arithmetically, exactly the length of the encoding. */
  method EncodedDirectoryLen(t: Tables) returns (len: nat)
    ensures len == |Payload(t)|
  {
    ghost var rest := Varint.Put(|t.free|) + PutFree(t.free, []);
    Varint.LenIsExact(|t.dir|);
    len := Varint.Len(|t.dir|);
    for i := 0 to |t.dir|
      invariant len + |PutEntries(t.dir[i..], rest)| == |Payload(t)|
    {
      var e := t.dir[i];
      ghost var after := PutEntries(t.dir[i + 1..], rest);
      assert t.dir[i..][1..] == t.dir[i + 1..];
      Varint.LenIsExact(|e.name|);
      Varint.LenIsExact(|e.member.extents|);
      var n := ExtentsLen(e.member.extents, Le(e.member.xsum, 4) + after);
      len := len + Varint.Len(|e.name|) + |e.name| + Varint.Len(|e.member.extents|) + n + 4;
    }
    Varint.LenIsExact(|t.free|);
    var f := FreeLen(t.free);
    len := len + Varint.Len(|t.free|) + f;
  }

  // ---- writing ------------------------------------------------------------------------------

  method AppendExtents(out: seq<Byte>, es: seq<Extent>, ghost rest: seq<Byte>) returns (r: seq<Byte>)
    ensures r + rest == out + PutExtents(es, rest)
  {
    r := out;
    for i := 0 to |es|
      invariant r + PutExtents(es[i..], rest) == out + PutExtents(es, rest)
    {
      ghost var after := PutExtents(es[i + 1..], rest);
      var off, len := Varint.Put(es[i].off), Varint.Put(es[i].len);
      assert es[i..][1..] == es[i + 1..];
      AppendAssoc(r, off, len + after);
      AppendAssoc(r + off, len, after);
      r := r + off + len;
    }
  }

  method AppendEntry(out: seq<Byte>, e: Entry, ghost rest: seq<Byte>) returns (r: seq<Byte>)
    ensures r + rest == out + PutEntry(e, rest)
  {
    var nameLen, count, xsum := Varint.Put(|e.name|), Varint.Put(|e.member.extents|), Le(e.member.xsum, 4);
    ghost var atMember := PutMember(e.member, rest);
    ghost var atExtents := PutExtents(e.member.extents, xsum + rest);
    AppendAssoc(out, nameLen, e.name + atMember);
    AppendAssoc(out + nameLen, e.name, atMember);
    AppendAssoc(out + nameLen + e.name, count, atExtents);
    r := AppendExtents(out + nameLen + e.name + count, e.member.extents, xsum + rest);
    AppendAssoc(r, xsum, rest);
    r := r + xsum;
  }

  method AppendFree(out: seq<Byte>, free: seq<Freed>) returns (r: seq<Byte>)
    ensures r == out + PutFree(free, [])
  {
    r := out;
    for i := 0 to |free|
      invariant r + PutFree(free[i..], []) == out + PutFree(free, [])
    {
      ghost var after := PutFree(free[i + 1..], []);
      var off, len, seqno := Varint.Put(free[i].off), Varint.Put(free[i].len), Varint.Put(free[i].seqno);
      assert free[i..][1..] == free[i + 1..];
      AppendAssoc(r, off, len + (seqno + after));
      AppendAssoc(r + off, len, seqno + after);
      AppendAssoc(r + off + len, seqno, after);
      r := r + off + len + seqno;
    }
    assert r + [] == r;
  }

  /** `encode_directory`: refuses an oversized directory before allocating for it. */
  method EncodeDirectory(t: Tables) returns (r: Outcome<seq<Byte>>)
    ensures r == if |Payload(t)| > MAX_DIR_RAW then Err else Ok(Payload(t))
  {
    var size := EncodedDirectoryLen(t);
    if size > MAX_DIR_RAW { return Err; }
    ghost var rest := Varint.Put(|t.free|) + PutFree(t.free, []);
    var out := Varint.Put(|t.dir|);
    for i := 0 to |t.dir|
      invariant out + PutEntries(t.dir[i..], rest) == Payload(t)
    {
      assert t.dir[i..][1..] == t.dir[i + 1..];
      out := AppendEntry(out, t.dir[i], PutEntries(t.dir[i + 1..], rest));
    }
    AppendAssoc(out, Varint.Put(|t.free|), PutFree(t.free, []));
    out := AppendFree(out + Varint.Put(|t.free|), t.free);
    return Ok(out);
  }

  // ---- reading ------------------------------------------------------------------------------

  /** `get_varint` at a moving position. */
  method GetVarint(b: seq<Byte>, at: nat) returns (r: Outcome<nat>, next: nat)
    requires at <= |b|
    ensures next <= |b|
    ensures r.Err? ==> TakeVarint(b[at..]).Err?
    ensures r.Ok? ==> TakeVarint(b[at..]) == Ok((r.value, b[next..]))
  {
    var got := Varint.Get(b[at..]);
    if got.Err? { return Err, at; }
    next := at + got.value.1;
    DropTwice(b, at, got.value.1);
    r := Ok(got.value.0);
  }

  lemma NoBytes()
    ensures ExtentBytes([]) == 0
  {
  }

  lemma OneMoreExtent(es: seq<Extent>, e: Extent)
    ensures ExtentBytes(es + [e]) == ExtentBytes(es) + e.len
  {
    assert (es + [e])[..|es|] == es;
  }

  method ReadExtentList(b: seq<Byte>, start: nat, n: nat) returns (r: Outcome<seq<Extent>>, at: nat)
    requires start <= |b|
    ensures at <= |b|
    ensures r.Err? ==> TakeExtents(b[start..], n, []).Err?
    ensures r.Ok? ==> TakeExtents(b[start..], n, []) == Ok((r.value, b[at..]))
  {
    hide TakeVarint, ExtentBytes;
    assert ExtentBytes([]) == 0 by { NoBytes(); }
    at := start;
    var extents: seq<Extent> := [];
    var total := 0;
    for i := 0 to n
      invariant at <= |b| && total == ExtentBytes(extents)
      invariant TakeExtents(b[start..], n, []) == TakeExtents(b[at..], n - i, extents)
    {
      var off, len;
      off, at := GetVarint(b, at);
      if off.Err? { return Err, at; }
      len, at := GetVarint(b, at);
      if len.Err? || len.value == 0 || total + len.value > U64_MAX { return Err, at; }
      OneMoreExtent(extents, Extent(off.value, len.value));
      extents := extents + [Extent(off.value, len.value)];
      total := total + len.value;
    }
    r := Ok(extents);
  }

  method ReadName(p: Platform, b: seq<Byte>, start: nat) returns (r: Outcome<Name>, at: nat)
    requires start <= |b|
    ensures at <= |b|
    ensures r.Err? ==> TakeName(p, b[start..]).Err?
    ensures r.Ok? ==> TakeName(p, b[start..]) == Ok((r.value, b[at..]))
  {
    hide ValidName, Varint.Get;
    var nameLen;
    nameLen, at := GetVarint(b, start);
    if nameLen.Err? || nameLen.value > MAX_NAME || at + nameLen.value > |b| { return Err, at; }
    var name := b[at..at + nameLen.value];
    assert b[at..][..nameLen.value] == name;
    DropTwice(b, at, nameLen.value);
    at := at + nameLen.value;
    if !p.utf8(name) || !ValidName(name) { return Err, at; }
    r := Ok(name);
  }

  method AllInRegion(es: seq<Extent>, dirOff: nat) returns (ok: bool)
    ensures ok <==> forall e :: e in es ==> InRegion(e.off, e.len, dirOff)
  {
    for i := 0 to |es|
      invariant forall k :: 0 <= k < i ==> InRegion(es[k].off, es[k].len, dirOff)
    {
      if !InRegion(es[i].off, es[i].len, dirOff) { return false; }
    }
    return true;
  }

  method ReadMemberFields(b: seq<Byte>, start: nat, dirOff: nat) returns (r: Outcome<Member>, at: nat)
    requires start <= |b|
    ensures at <= |b|
    ensures r.Err? ==> TakeMember(b[start..], dirOff).Err?
    ensures r.Ok? ==> TakeMember(b[start..], dirOff) == Ok((r.value, b[at..]))
  {
    hide Varint.Get;
    var n, extents;
    n, at := GetVarint(b, start);
    if n.Err? || n.value > MAX_MEMBER_EXTENTS { return Err, at; }
    extents, at := ReadExtentList(b, at, n.value);
    if extents.Err? || at + 4 > |b| { return Err, at; }
    assert b[at..][..4] == b[at..at + 4];
    DropTwice(b, at, 4);
    hide TakeExtents, InRegion, FromLe, ExtentBytes;
    var xsum := FromLe(b[at..at + 4]);
    at := at + 4;
    var inside := AllInRegion(extents.value, dirOff);
    if !inside { return Err, at; }
    r := Ok(Member(extents.value, ExtentBytes(extents.value), xsum));
  }

  method ReadEntry(p: Platform, b: seq<Byte>, start: nat, dirOff: nat, dir: seq<Entry>)
    returns (r: Outcome<Entry>, at: nat)
    requires start <= |b|
    ensures at <= |b|
    ensures r.Err? ==> TakeEntry(p, b[start..], dirOff, dir).Err?
    ensures r.Ok? ==> TakeEntry(p, b[start..], dirOff, dir) == Ok((r.value, b[at..]))
  {
    hide TakeName, TakeMember;
    var name, m;
    name, at := ReadName(p, b, start);
    if name.Err? || (|dir| > 0 && !Less(dir[|dir| - 1].name, name.value)) { return Err, at; }
    m, at := ReadMemberFields(b, at, dirOff);
    if m.Err? { return Err, at; }
    r := Ok(Entry(name.value, m.value));
  }

  method ReadFreeList(b: seq<Byte>, start: nat, n: nat, dirOff: nat, seqno: nat) returns (r: Outcome<seq<Freed>>, at: nat)
    requires start <= |b|
    ensures at <= |b|
    ensures r.Err? ==> TakeFree(b[start..], n, dirOff, seqno, []).Err?
    ensures r.Ok? ==> TakeFree(b[start..], n, dirOff, seqno, []) == Ok((r.value, b[at..]))
  {
    at := start;
    var free: seq<Freed> := [];
    for i := 0 to n
      invariant at <= |b|
      invariant TakeFree(b[start..], n, dirOff, seqno, []) == TakeFree(b[at..], n - i, dirOff, seqno, free)
    {
      var off, len, freed;
      off, at := GetVarint(b, at);
      if off.Err? { return Err, at; }
      len, at := GetVarint(b, at);
      if len.Err? { return Err, at; }
      freed, at := GetVarint(b, at);
      if freed.Err? || freed.value > seqno || len.value == 0 || !InRegion(off.value, len.value, dirOff) { return Err, at; }
      free := free + [Freed(off.value, len.value, freed.value)];
    }
    r := Ok(free);
  }

  /** The payload half of `read_directory`: one pass with a moving position. */
  method ReadPayload(p: Platform, payload: seq<Byte>, nEntries: nat, dirOff: nat, seqno: nat) returns (r: Outcome<Tables>)
    ensures r == Parse(p, payload, nEntries, dirOff, seqno)
  {
    hide TakeVarint, TakeEntry, TakeFree;
    assert payload[0..] == payload;
    var at: nat;
    var n;
    n, at := GetVarint(payload, 0);
    if n.Err? || n.value != nEntries { return Err; }
    ghost var members := payload[at..];
    var dir: seq<Entry> := [];
    for i := 0 to nEntries
      invariant at <= |payload|
      invariant TakeEntries(p, members, nEntries, dirOff, []) == TakeEntries(p, payload[at..], nEntries - i, dirOff, dir)
    {
      var e;
      e, at := ReadEntry(p, payload, at, dirOff, dir);
      if e.Err? { return Err; }
      dir := dir + [e.value];
    }
    var nFree;
    nFree, at := GetVarint(payload, at);
    if nFree.Err? || nFree.value > MAX_FREE_EXTENTS { return Err; }
    var free;
    free, at := ReadFreeList(payload, at, nFree.value, dirOff, seqno);
    if free.Err? || at != |payload| { return Err; }
    assert payload[at..] == [];
    r := Ok(Tables(dir, free.value));
  }
}
