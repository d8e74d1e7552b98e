/** The directory sidecar: a segment's block directory written beside it, so an open need not scan. */
module Sidecars {
  import opened Bytes
  import opened Host
  import opened Frames
  import opened Segments

  const DIR_MAGIC: seq<Byte> := [84, 68, 66, 83, 68, 82, 48, 49]   // TDBSDR01

  type Sidecar = (nat, seq<Entry>)

  predicate Word(v: nat) { v <= U32_MAX }

  predicate Encodable(n: nat, tail: nat, entries: seq<Entry>) {
    && Word(n) && Word(tail) && Word(|entries|)
    && forall i :: 0 <= i < |entries| ==> Word(entries[i].id) && Word(entries[i].off)
  }

  // ---- encoding -------------------------------------------------------------------------

  function PutEntries(entries: seq<Entry>): (b: seq<Byte>)
    ensures |b| == 8 * |entries|
  {
    if |entries| == 0 then []
    else Le(entries[0].id, 4) + Le(entries[0].off, 4) + PutEntries(entries[1..])
  }

  function SidecarBody(n: nat, tail: nat, entries: seq<Entry>): (b: seq<Byte>)
    ensures |b| == 20 + 8 * |entries|
  {
    DIR_MAGIC + Le(n, 4) + Le(tail, 4) + Le(|entries|, 4) + PutEntries(entries)
  }

  function SidecarBytes(p: Platform, n: nat, tail: nat, entries: seq<Entry>): (b: seq<Byte>)
    ensures |b| == 24 + 8 * |entries|
  {
    SidecarBody(n, tail, entries) + Le(p.crc(SidecarBody(n, tail, entries)), 4)
  }

  method EncodeDirSidecar(p: Platform, n: nat, tail: nat, entries: seq<Entry>) returns (b: seq<Byte>)
    ensures b == SidecarBytes(p, n, tail, entries)
  {
    b := DIR_MAGIC;
    b := b + Le(n, 4);
    b := b + Le(tail, 4);
    b := b + Le(|entries|, 4);
    ghost var head := b;
    var i := 0;
    while i < |entries|
      invariant i <= |entries|
      invariant head + PutEntries(entries) == b + PutEntries(entries[i..])
    {
      ghost var rest := PutEntries(entries[i + 1..]);
      assert entries[i..][1..] == entries[i + 1..];
      ghost var two := Le(entries[i].id, 4) + Le(entries[i].off, 4);
      assert b + (two + rest) == (b + two) + rest;
      b := b + Le(entries[i].id, 4);
      b := b + Le(entries[i].off, 4);
      i := i + 1;
    }
    assert b + [] == b;
    assert b == SidecarBody(n, tail, entries);
    b := b + Le(p.crc(b), 4);
  }

  // ---- parsing --------------------------------------------------------------------------

  function TakeEntries(b: seq<Byte>, at: nat, n: nat): (r: seq<Entry>)
    requires at + 8 * n <= |b|
    ensures |r| == n
    decreases n
  {
    if n == 0 then []
    else [Entry(FromLe(b[at..at + 4]), FromLe(b[at + 4..at + 8]))] + TakeEntries(b, at + 8, n - 1)
  }

  /** Whether the bytes are an undamaged sidecar of segment `n` ending at `fileLen`. */
  predicate Describes(p: Platform, body: seq<Byte>, crc: seq<Byte>, n: nat, fileLen: nat) {
    && |body| >= 20 && body[..8] == DIR_MAGIC
    && FromLe(crc) == p.crc(body)
    && FromLe(body[8..12]) == n && FromLe(body[12..16]) == fileLen
    && 20 + 8 * FromLe(body[16..20]) == |body|
  }

  /** Advisory bytes: `None` sends the caller back to the scan; only count admission is an error. */
  function Parsed(p: Platform, b: seq<Byte>, n: nat, fileLen: nat, limits: ReadLimits): Outcome<Option<Sidecar>> {
    if |b| < 24 then Ok(None)
    else
      var body := b[..|b| - 4];
      if !Describes(p, body, b[|b| - 4..], n, fileLen) then Ok(None)
      else if !limits.AdmitBlocks(FromLe(body[16..20])) then Err
      else Ok(Some((fileLen, TakeEntries(body, 20, FromLe(body[16..20])))))
  }

  method ParseDirSidecar(p: Platform, b: seq<Byte>, n: nat, fileLen: nat, limits: ReadLimits)
    returns (r: Outcome<Option<Sidecar>>)
    ensures r == Parsed(p, b, n, fileLen, limits)
  {
    if |b| < 24 { return Ok(None); }
    var body := b[..|b| - 4];
    if body[..8] != DIR_MAGIC { return Ok(None); }
    var crc := FromLe(b[|b| - 4..]);
    if p.crc(body) != crc { return Ok(None); }
    var seg := FromLe(body[8..12]);
    var tail := FromLe(body[12..16]);
    var count := FromLe(body[16..20]);
    if seg != n || tail != fileLen || 24 + 8 * count != |b| { return Ok(None); }
    if !limits.AdmitBlocks(count) { return Err; }
    var entries := ReadEntries(body, count);
    return Ok(Some((tail, entries)));
  }

  method ReadEntries(b: seq<Byte>, count: nat) returns (entries: seq<Entry>)
    requires 20 + 8 * count <= |b|
    ensures entries == TakeEntries(b, 20, count)
  {
    hide FromLe;
    entries := [];
    assert [] + TakeEntries(b, 20, count) == TakeEntries(b, 20, count);
    for i := 0 to count
      invariant TakeEntries(b, 20, count) == entries + TakeEntries(b, 20 + 8 * i, count - i)
    {
      var at := 20 + i * 8;
      var e := Entry(FromLe(b[at..at + 4]), FromLe(b[at + 4..at + 8]));
      ghost var rest := TakeEntries(b, at + 8, count - i - 1);
      assert entries + ([e] + rest) == (entries + [e]) + rest;
      entries := entries + [e];
    }
    assert entries + [] == entries;
  }

  // ---- round trip -----------------------------------------------------------------------

  lemma ThreeSlices(b: seq<Byte>, at: nat, n: nat, whole: seq<Byte>)
    requires 8 <= n && at + n <= |b| && |whole| == n && b[at..at + n] == whole
    ensures b[at..at + 4] == whole[0..4] && b[at + 4..at + 8] == whole[4..8] && b[at + 8..at + n] == whole[8..n]
  {
    SubSlice(b, at, n, 0, 4);
    SubSlice(b, at, n, 4, 8);
    SubSlice(b, at, n, 8, n);
  }

  /** The first record of a body: its two fields, and where the rest begins. */
  lemma FirstRecord(b: seq<Byte>, at: nat, n: nat, entries: seq<Entry>)
    requires |entries| > 0 && n == |PutEntries(entries)| >= 8
    requires at + n <= |b| && b[at..at + n] == PutEntries(entries)
    ensures b[at..at + 4] == Le(entries[0].id, 4) && b[at + 4..at + 8] == Le(entries[0].off, 4)
    ensures b[at + 8..at + n] == PutEntries(entries[1..])
  {
    hide FromLe, Le, PutEntries;
    RecordFields(entries);
    ThreeSlices(b, at, n, PutEntries(entries));
  }

  lemma RecordFields(entries: seq<Entry>)
    requires |entries| > 0
    ensures PutEntries(entries)[0..4] == Le(entries[0].id, 4) && PutEntries(entries)[4..8] == Le(entries[0].off, 4)
    ensures PutEntries(entries)[8..|PutEntries(entries)|] == PutEntries(entries[1..])
  {
    hide FromLe, Le;
    Cut(Le(entries[0].id, 4), Le(entries[0].off, 4), PutEntries(entries[1..]));
  }

  lemma Cut(first: seq<Byte>, second: seq<Byte>, rest: seq<Byte>)
    requires |first| == 4 && |second| == 4
    ensures var all := first + second + rest;
            all[0..4] == first && all[4..8] == second && all[8..8 + |rest|] == rest
  {
  }

  lemma {:induction false} TakeInvertsPutEntries(b: seq<Byte>, at: nat, entries: seq<Entry>)
    requires forall i :: 0 <= i < |entries| ==> Word(entries[i].id) && Word(entries[i].off)
    requires at + 8 * |entries| <= |b| && b[at..at + 8 * |entries|] == PutEntries(entries)
    ensures TakeEntries(b, at, |entries|) == entries
    decreases |entries|
  {
    hide FromLe, Le, PutEntries;
    if |entries| > 0 {
      FirstRecord(b, at, 8 * |entries|, entries);
      Le4(entries[0].id);
      Le4(entries[0].off);
      TakeInvertsPutEntries(b, at + 8, entries[1..]);
      assert entries == [entries[0]] + entries[1..];
    }
  }

  lemma SplitSlice(b: seq<Byte>, lo: nat, mid: nat, hi: nat)
    requires lo <= mid <= hi <= |b|
    ensures b[lo..hi] == b[lo..mid] + b[mid..hi]
  {
  }

  lemma {:induction false} PutInvertsTakeEntries(b: seq<Byte>, at: nat, n: nat)
    requires at + 8 * n <= |b|
    ensures PutEntries(TakeEntries(b, at, n)) == b[at..at + 8 * n]
    ensures forall i :: 0 <= i < n ==> Word(TakeEntries(b, at, n)[i].id) && Word(TakeEntries(b, at, n)[i].off)
    decreases n
  {
    hide FromLe, Le;
    if n > 0 {
      FromLe4(b[at..at + 4]);
      FromLe4(b[at + 4..at + 8]);
      PutInvertsTakeEntries(b, at + 8, n - 1);
      var entries := TakeEntries(b, at, n);
      assert entries[1..] == TakeEntries(b, at + 8, n - 1);
      assert at + 8 + 8 * (n - 1) == at + 8 * n;
      SplitSlice(b, at, at + 8, at + 8 * n);
      SplitSlice(b, at, at + 4, at + 8);
    }
  }

  /** A four-byte field is one word and spells it back. */
  lemma FromLe4(b: seq<Byte>)
    requires |b| == 4
    ensures Word(FromLe(b)) && Le(FromLe(b), 4) == b
  {
    Pow256Values();
    FromLeBound(b);
    LeInvertsFromLe(b);
  }

  lemma BodyFields(n: nat, tail: nat, entries: seq<Entry>)
    ensures var b := SidecarBody(n, tail, entries);
            && b[..8] == DIR_MAGIC && b[8..12] == Le(n, 4) && b[12..16] == Le(tail, 4)
            && b[16..20] == Le(|entries|, 4) && b[20..] == PutEntries(entries)
  {
    hide Le;
    var b := SidecarBody(n, tail, entries);
    assert b[..8] == DIR_MAGIC;
    assert b[8..12] == Le(n, 4);
    assert b[12..16] == Le(tail, 4);
    assert b[16..20] == Le(|entries|, 4);
    assert b[20..] == PutEntries(entries);
  }

  /** A sidecar is accepted with given entries exactly when it is byte for byte their encoding. */
  lemma ParseAcceptsExactlyEncodings(p: Platform, b: seq<Byte>, n: nat, fileLen: nat, entries: seq<Entry>,
                                     limits: ReadLimits)
    requires p.Lawful() && Word(n) && Word(fileLen)
    ensures Parsed(p, b, n, fileLen, limits) == Ok(Some((fileLen, entries)))
            <==> Encodable(n, fileLen, entries) && limits.AdmitBlocks(|entries|)
                 && b == SidecarBytes(p, n, fileLen, entries)
  {
    if Parsed(p, b, n, fileLen, limits) == Ok(Some((fileLen, entries))) {
      AcceptedIsEncoding(p, b, n, fileLen, entries, limits);
    }
    if Encodable(n, fileLen, entries) && limits.AdmitBlocks(|entries|)
       && b == SidecarBytes(p, n, fileLen, entries) {
      ParseInvertsEncode(p, n, fileLen, entries, limits);
    }
  }

  lemma ParseInvertsEncode(p: Platform, n: nat, tail: nat, entries: seq<Entry>, limits: ReadLimits)
    requires p.Lawful() && Encodable(n, tail, entries) && limits.AdmitBlocks(|entries|)
    ensures Parsed(p, SidecarBytes(p, n, tail, entries), n, tail, limits) == Ok(Some((tail, entries)))
  {
    var body := SidecarBody(n, tail, entries);
    var b := SidecarBytes(p, n, tail, entries);
    BodyFields(n, tail, entries);
    Le4(n); Le4(tail); Le4(|entries|); Le4(p.crc(body));
    hide FromLe, Le, SidecarBody, PutEntries;
    assert b[..|b| - 4] == body;
    assert b[|b| - 4..] == Le(p.crc(body), 4);
    assert body[20..20 + 8 * |entries|] == body[20..];
    TakeInvertsPutEntries(body, 20, entries);
  }

  lemma BodyFromFields(body: seq<Byte>, n: nat, tail: nat, entries: seq<Entry>)
    requires |body| == 20 + 8 * |entries|
    requires body[..8] == DIR_MAGIC && body[8..12] == Le(n, 4) && body[12..16] == Le(tail, 4)
    requires body[16..20] == Le(|entries|, 4) && body[20..] == PutEntries(entries)
    ensures body == SidecarBody(n, tail, entries)
  {
    hide Le, PutEntries;
    assert body == body[..8] + body[8..12] + body[12..16] + body[16..20] + body[20..];
  }

  lemma AcceptedIsEncoding(p: Platform, b: seq<Byte>, n: nat, tail: nat, entries: seq<Entry>, limits: ReadLimits)
    requires p.Lawful() && Word(n) && Word(tail)
    requires Parsed(p, b, n, tail, limits) == Ok(Some((tail, entries)))
    ensures Encodable(n, tail, entries) && limits.AdmitBlocks(|entries|)
    ensures b == SidecarBytes(p, n, tail, entries)
  {
    hide FromLe, Le, PutEntries, TakeEntries, SidecarBody, Platform.Lawful, Describes;
    var body, crc := b[..|b| - 4], b[|b| - 4..];
    assert b == body + crc;
    DescribedBody(p, body, crc, n, tail);
    assert entries == TakeEntries(body, 20, FromLe(body[16..20]));
    EntriesBack(body, entries);
    BodyFromFields(body, n, tail, entries);
  }

  lemma DescribedBody(p: Platform, body: seq<Byte>, crc: seq<Byte>, n: nat, tail: nat)
    requires |crc| == 4 && Describes(p, body, crc, n, tail)
    ensures crc == Le(p.crc(body), 4) && |body| == 20 + 8 * FromLe(body[16..20]) && Word(FromLe(body[16..20]))
    ensures body[..8] == DIR_MAGIC && body[8..12] == Le(n, 4) && body[12..16] == Le(tail, 4)
    ensures body[16..20] == Le(FromLe(body[16..20]), 4)
  {
    FromLe4(body[8..12]); FromLe4(body[12..16]); FromLe4(body[16..20]); FromLe4(crc);
    hide FromLe, Le;
  }

  lemma EntriesBack(body: seq<Byte>, entries: seq<Entry>)
    requires |body| == 20 + 8 * |entries| && entries == TakeEntries(body, 20, |entries|)
    ensures body[20..] == PutEntries(entries)
    ensures forall i :: 0 <= i < |entries| ==> Word(entries[i].id) && Word(entries[i].off)
  {
    hide FromLe, Le, PutEntries, TakeEntries;
    PutInvertsTakeEntries(body, 20, |entries|);
    assert body[20..] == body[20..20 + 8 * |entries|];
  }

  // ---- validation against the segment ---------------------------------------------------

  /** Do the entries describe the chain of frame headers from `at`, ending exactly at the file's end? */
  function Describing(seg: seq<Byte>, fileLen: nat, hasDict: bool, entries: seq<Entry>, limits: ReadLimits, at: nat): Outcome<bool> {
    if |entries| == 0 then Ok(at == fileLen)
    else if entries[0].off != at || ReadExact(seg, at, BLOCK_HDR_LEN).Err? then Ok(false)
    else
      match ParseHdr(ReadExact(seg, at, BLOCK_HDR_LEN).value, hasDict)
      case Err => Ok(false)
      case Ok(h) =>
        if h.blockId != entries[0].id then Ok(false)
        else if !limits.Admit(h.stored, h.raw) then Err
        else if at + h.FrameLen() > fileLen then Ok(false)
        else Describing(seg, fileLen, hasDict, entries[1..], limits, at + h.FrameLen())
  }

  method ValidateDirSidecarEntries(seg: seq<Byte>, fileLen: nat, hasDict: bool, entries: seq<Entry>,
                                   limits: ReadLimits)
    returns (r: Outcome<bool>)
    ensures r == Describing(seg, fileLen, hasDict, entries, limits, SEG_HDR_LEN)
  {
    var at: nat := SEG_HDR_LEN;
    var i := 0;
    while i < |entries|
      invariant i <= |entries|
      invariant Describing(seg, fileLen, hasDict, entries, limits, SEG_HDR_LEN)
             == Describing(seg, fileLen, hasDict, entries[i..], limits, at)
    {
      assert entries[i..][1..] == entries[i + 1..];
      var header := ReadExact(seg, at, BLOCK_HDR_LEN);
      if entries[i].off != at || header.Err? { return Ok(false); }
      var parsed := ParseHdr(header.value, hasDict);
      if parsed.Err? || parsed.value.blockId != entries[i].id { return Ok(false); }
      if !limits.Admit(parsed.value.stored, parsed.value.raw) { return Err; }
      at := at + parsed.value.FrameLen();
      if at > fileLen { return Ok(false); }
      i := i + 1;
    }
    return Ok(at == fileLen);
  }

  /** Whenever the full walk reaches the end of the segment, the only entries validation accepts are the
      ones the walk yields, and those it does accept. */
  lemma {:induction false} ValidationRefinesScan(p: Platform, seg: seq<Byte>, len: nat, hasDict: bool, punched: Punched,
                                                limits: ReadLimits, at: nat, taken: nat, entries: seq<Entry>)
    requires at <= len <= |seg|
    requires FrameWalk(p, seg, at, len, hasDict, punched, limits, taken).Ok?
    requires FrameWalk(p, seg, at, len, hasDict, punched, limits, taken).value.0 == len
    ensures Describing(seg, len, hasDict, entries, limits, at) == Ok(true)
            <==> entries == FrameWalk(p, seg, at, len, hasDict, punched, limits, taken).value.1
    decreases len - at
  {
    TakeAdvances(p, seg, at, len, hasDict, punched, limits, taken);
    TurnFollowsHeader(p, seg, at, len, hasDict, punched, limits, taken);
    var t := TurnAt(p, seg, at, len, hasDict, punched, limits, taken);
    hide TurnAt;
    if t.Take? {
      DescribingTurns(seg, len, hasDict, entries, limits, at, t.id, t.end);
      hide Describing, HeaderAt;
      var rest := FrameWalk(p, seg, t.end, len, hasDict, punched, limits, taken + 1);
      if |entries| > 0 {
        ValidationRefinesScan(p, seg, len, hasDict, punched, limits, t.end, taken + 1, entries[1..]);
        ConsEqual(entries, Entry(t.id, at), rest.value.1);
      }
    } else {
      hide HeaderAt;
    }
  }

  /** A readable header of block `id` at `at`, whose frame ends at `end` and whose sizes are admitted. */
  predicate HeaderAt(seg: seq<Byte>, hasDict: bool, limits: ReadLimits, at: nat, id: nat, end: nat) {
    && ReadExact(seg, at, BLOCK_HDR_LEN).Ok?
    && ParseHdr(ReadExact(seg, at, BLOCK_HDR_LEN).value, hasDict).Ok?
    && var h := ParseHdr(ReadExact(seg, at, BLOCK_HDR_LEN).value, hasDict).value;
       h.blockId == id && at + h.FrameLen() == end && limits.Admit(h.stored, h.raw)
  }

  lemma DescribingTurns(seg: seq<Byte>, fileLen: nat, hasDict: bool, entries: seq<Entry>, limits: ReadLimits,
                        at: nat, id: nat, end: nat)
    requires HeaderAt(seg, hasDict, limits, at, id, end) && at < end <= fileLen
    ensures Describing(seg, fileLen, hasDict, entries, limits, at) == Ok(true)
            <==> |entries| > 0 && entries[0] == Entry(id, at)
                 && Describing(seg, fileLen, hasDict, entries[1..], limits, end) == Ok(true)
  {
    hide ParseHdr, ReadExact;
  }

  lemma ConsEqual(entries: seq<Entry>, first: Entry, rest: seq<Entry>)
    requires |entries| > 0
    ensures entries == [first] + rest <==> entries[0] == first && entries[1..] == rest
  {
    assert entries == [entries[0]] + entries[1..];
    assert ([first] + rest)[1..] == rest;
  }

  lemma TurnFollowsHeader(p: Platform, seg: seq<Byte>, at: nat, len: nat, hasDict: bool, punched: Punched,
                          limits: ReadLimits, taken: nat)
    requires at <= len <= |seg|
    ensures var t := TurnAt(p, seg, at, len, hasDict, punched, limits, taken);
            t.Take? ==> HeaderAt(seg, hasDict, limits, at, t.id, t.end)
  {
    hide FromLe, VerifyFrame, Declared;
    var r := ReadExact(seg, at, BLOCK_HDR_LEN);
    if r.Ok? && ParseHdr(r.value, hasDict).Ok? {
      assert ParseHdr(r.value, hasDict).value.stored == FromLe(r.value[6..10]);
    }
  }
}
