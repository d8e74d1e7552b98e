/** The opaque continuation token of a structured scan: a versioned, checksummed payload in hex. */
module Cursors {
  import opened Bytes

  type Id = seq<Byte>

  const CURSOR_VERSION: nat := 1
  const CURSOR_FINGERPRINT: nat := 16
  const CURSOR_CHECKSUM: nat := 8

  /** The two facts a cursor takes from outside: the truncated payload hash, and UTF-8 validity. */
  datatype Sealing = Sealing(checksum: seq<Byte> -> seq<Byte>, utf8: seq<Byte> -> bool) {
    ghost predicate Lawful() {
      forall b: seq<Byte> :: |checksum(b)| == CURSOR_CHECKSUM
    }
  }

  datatype Cursor = Cursor(reverse: bool, fingerprint: seq<Byte>, lastId: Id) {
    predicate Encodable() {
      |fingerprint| == CURSOR_FINGERPRINT && |lastId| <= U32_MAX
    }
  }

  // ---- the least id above another -------------------------------------------------------

  /** Append one NUL byte. */
  function After(id: Id): Id { id + [0] }

  /** `After(id)` is the least string above `id`: at or above it means strictly above `id`. */
  lemma {:induction false} AfterIsLeastAbove(id: Id, s: Id)
    ensures !Less(s, After(id)) <==> Less(id, s)
  {
    if |id| > 0 && |s| > 0 {
      assert After(id)[1..] == After(id[1..]);
      if id[0] == s[0] { AfterIsLeastAbove(id[1..], s[1..]); }
    } else if |id| == 0 && |s| > 0 {
      assert After(id)[1..] == [];
    }
  }

  // ---- hex ------------------------------------------------------------------------------

  function HexDigit(n: nat): Byte
    requires n < 16
  {
    if n < 10 then 48 + n else 87 + n
  }

  function Hex(b: seq<Byte>): (t: seq<Byte>)
    ensures |t| == 2 * |b|
  {
    if |b| == 0 then [] else [HexDigit(b[0] / 16), HexDigit(b[0] % 16)] + Hex(b[1..])
  }

  function DigitValue(c: Byte): Option<nat> {
    if 48 <= c <= 57 then Some(c - 48)
    else if 97 <= c <= 102 then Some(c - 87)
    else if 65 <= c <= 70 then Some(c - 55)
    else None
  }

  /** Radix-16 parsing of two characters: two digits of either case, or a plus sign and a digit. */
  function PairValue(hi: Byte, lo: Byte): Option<Byte> {
    match (DigitValue(hi), DigitValue(lo))
    case (Some(h), Some(l)) => if h < 16 && l < 16 then Some(16 * h + l) else None
    case (None, Some(l)) => if hi == 43 && l < 16 then Some(l) else None
    case _ => None
  }

  function Unhex(t: seq<Byte>): (r: Outcome<seq<Byte>>)
    ensures r.Ok? ==> |t| == 2 * |r.value|
  {
    if |t| == 0 then Ok([])
    else if |t| == 1 then Err
    else
      match PairValue(t[0], t[1])
      case None => Err
      case Some(v) =>
        var rest :- Unhex(t[2..]);
        Ok([v] + rest)
  }

  lemma {:induction false} UnhexInvertsHex(b: seq<Byte>)
    ensures Unhex(Hex(b)) == Ok(b)
  {
    if |b| > 0 {
      UnhexInvertsHex(b[1..]);
      assert Hex(b)[2..] == Hex(b[1..]);
      assert [b[0]] + b[1..] == b;
    }
  }

  const LOWER: seq<Byte> := [48, 49, 50, 51, 52, 53, 54, 55, 56, 57, 97, 98, 99, 100, 101, 102]
  const UPPER: seq<Byte> := [48, 49, 50, 51, 52, 53, 54, 55, 56, 57, 65, 66, 67, 68, 69, 70]

  predicate IsDigit(c: Byte, d: nat) { d < 16 && (c == LOWER[d] || c == UPPER[d]) }

  /** Two digits of either case, or a plus sign in place of a leading zero. */
  predicate SpellsByte(hi: Byte, lo: Byte, v: Byte) {
    IsDigit(lo, v % 16) && (IsDigit(hi, v / 16) || (hi == 43 && v < 16))
  }

  ghost predicate SpellsAt(t: seq<Byte>, b: seq<Byte>, i: nat)
    requires |t| == 2 * |b| && i < |b|
  {
    SpellsByte(t[2 * i], t[2 * i + 1], b[i])
  }

  /** Which texts decode, and to what. */
  lemma {:induction false} UnhexReadsExactly(t: seq<Byte>, b: seq<Byte>)
    ensures Unhex(t) == Ok(b) <==> |t| == 2 * |b| && forall i :: 0 <= i < |b| ==> SpellsAt(t, b, i)
    decreases |t|
  {
    hide SpellsByte, PairValue;
    if |t| == 2 * |b| && |b| > 0 {
      UnhexReadsExactly(t[2..], b[1..]);
      PairReadsExactly(t[0], t[1], b[0]);
      PairsApart(t, b);
      assert b == [b[0]] + b[1..];
    }
  }

  lemma PairsApart(t: seq<Byte>, b: seq<Byte>)
    requires |t| == 2 * |b| && |b| > 0
    ensures (forall i :: 0 <= i < |b| ==> SpellsAt(t, b, i))
            <==> SpellsByte(t[0], t[1], b[0]) && forall i :: 0 <= i < |b[1..]| ==> SpellsAt(t[2..], b[1..], i)
  {
    hide SpellsByte;
    assert SpellsAt(t, b, 0) <==> SpellsByte(t[0], t[1], b[0]);
    forall i | 0 <= i < |b[1..]| ensures SpellsAt(t[2..], b[1..], i) <==> SpellsAt(t, b, i + 1) {
      assert t[2..][2 * i] == t[2 * (i + 1)] && t[2..][2 * i + 1] == t[2 * (i + 1) + 1];
    }
    forall i | 0 < i < |b| ensures SpellsAt(t, b, i) <==> SpellsAt(t[2..], b[1..], i - 1) {
      assert SpellsAt(t[2..], b[1..], i - 1) <==> SpellsAt(t, b, i - 1 + 1);
    }
  }

  lemma PairReadsExactly(hi: Byte, lo: Byte, v: Byte)
    ensures PairValue(hi, lo) == Some(v) <==> SpellsByte(hi, lo, v)
  {
    hide IsDigit;
    DigitReads(hi, v / 16);
    DigitReads(lo, v % 16);
    assert DigitValue(43) == None;
    hide DigitValue;
    TwoDigits(DigitValue(hi), DigitValue(lo), v);
  }

  lemma TwoDigits(h: Option<nat>, l: Option<nat>, v: Byte)
    ensures h.Some? && l.Some? && h.value < 16 && l.value < 16 ==>
              (16 * h.value + l.value == v <==> h == Some(v / 16 as nat) && l == Some(v % 16 as nat))
    ensures l.Some? && l.value < 16 ==> (l.value == v <==> v < 16 && l == Some(v % 16 as nat))
  {
  }

  lemma DigitReads(c: Byte, d: nat)
    ensures DigitValue(c) == Some(d) <==> IsDigit(c, d)
    ensures DigitValue(c).Some? ==> DigitValue(c).value < 16
  {
  }

  // ---- payload --------------------------------------------------------------------------

  function Payload(c: Cursor): seq<Byte>
    requires c.Encodable()
  {
    [CURSOR_VERSION, if c.reverse then 1 else 0] + c.fingerprint + Le(|c.lastId|, 4) + c.lastId
  }

  /** Each field of a payload stands at its own offset. */
  lemma PayloadFields(c: Cursor)
    requires c.Encodable()
    ensures var b := Payload(c);
            && |b| == 22 + |c.lastId| && b[0] == 1 && b[1] == (if c.reverse then 1 else 0)
            && b[2..18] == c.fingerprint && b[18..22] == Le(|c.lastId|, 4) && b[22..] == c.lastId
  {
    hide Le;
  }

  /** Refused only for an id longer than the 32-bit length field holds. */
  function EncodeCursor(seal: Sealing, c: Cursor): Outcome<seq<Byte>>
    requires |c.fingerprint| == CURSOR_FINGERPRINT
  {
    if |c.lastId| > U32_MAX then Err
    else
      var payload := Payload(c);
      Ok(Hex(payload + seal.checksum(payload)))
  }

  function DecodeCursor(seal: Sealing, token: seq<Byte>): Outcome<Cursor> {
    var bytes :- Unhex(token);
    var at := 2 + CURSOR_FINGERPRINT;
    if |bytes| < at + 4 + CURSOR_CHECKSUM then Err
    else if bytes[0] != CURSOR_VERSION then Err
    else if bytes[1] != 0 && bytes[1] != 1 then Err
    else
      var payloadLen := at + 4 + FromLe(bytes[at..at + 4]);
      if payloadLen + CURSOR_CHECKSUM != |bytes| then Err
      else if seal.checksum(bytes[..payloadLen]) != bytes[payloadLen..] then Err
      else if !seal.utf8(bytes[at + 4..payloadLen]) then Err
      else Ok(Cursor(bytes[1] == 1, bytes[2..at], bytes[at + 4..payloadLen]))
  }

  lemma DecodeInvertsEncode(seal: Sealing, c: Cursor)
    requires seal.Lawful() && c.Encodable() && seal.utf8(c.lastId)
    ensures EncodeCursor(seal, c).Ok?
    ensures DecodeCursor(seal, EncodeCursor(seal, c).value) == Ok(c)
  {
    hide FromLe, Le, Hex, Unhex, Pow256;
    var payload := Payload(c);
    var bytes := payload + seal.checksum(payload);
    UnhexInvertsHex(bytes);
    var at := 2 + CURSOR_FINGERPRINT;
    assert bytes[at..at + 4] == Le(|c.lastId|, 4);
    Pow256Values();
    FromLeInvertsLe(|c.lastId|, 4);
    assert bytes[..|payload|] == payload;
    assert bytes[|payload|..] == seal.checksum(payload);
    assert bytes[at + 4..|payload|] == c.lastId;
    assert bytes[2..at] == c.fingerprint;
  }

  /** A token is accepted exactly when it spells the sealed payload of the cursor it decodes to:
      a different direction, fingerprint or id never decodes from the same bytes. */
  lemma DecodeAcceptsOnlySealedPayloads(seal: Sealing, token: seq<Byte>, c: Cursor)
    requires seal.Lawful()
    ensures DecodeCursor(seal, token) == Ok(c)
            <==> c.Encodable() && seal.utf8(c.lastId)
                 && Unhex(token) == Ok(Payload(c) + seal.checksum(Payload(c)))
  {
    if DecodeCursor(seal, token) == Ok(c) {
      DecodedIsSealed(seal, token, c);
    } else if c.Encodable() && seal.utf8(c.lastId)
              && Unhex(token) == Ok(Payload(c) + seal.checksum(Payload(c))) {
      DecodeInvertsEncode(seal, c);
      UnhexInvertsHex(Payload(c) + seal.checksum(Payload(c)));
      assert false;
    }
  }

  lemma DecodedIsSealed(seal: Sealing, token: seq<Byte>, c: Cursor)
    requires seal.Lawful() && DecodeCursor(seal, token) == Ok(c)
    ensures c.Encodable() && seal.utf8(c.lastId)
    ensures Unhex(token) == Ok(Payload(c) + seal.checksum(Payload(c)))
  {
    hide Unhex, FromLe, Le, Pow256;
    var at := 2 + CURSOR_FINGERPRINT;
    var bytes := Unhex(token).value;
    var len := bytes[at..at + 4];
    FromLeBound(len);
    Pow256Values();
    LeInvertsFromLe(len);
    var payloadLen := at + 4 + FromLe(len);
    assert Payload(c) == bytes[..payloadLen];
    assert bytes == bytes[..payloadLen] + bytes[payloadLen..];
  }
}
