/** Unsigned LEB128 with one accepted spelling per value (`src/part/idcol.rs`), as the container
    directory uses it. */
module Varint {
  import opened Bytes

  function Put(v: nat): (b: seq<Byte>)
    ensures |b| >= 1
  {
    if v < 128 then [v] else [v % 128 + 128] + Put(v / 128)
  }

  /** Decode the varint at the head of `b`, whose first byte is byte number `index` of the whole
      encoding: the value those remaining bytes contribute and how many there are. */
  function GetAt(b: seq<Byte>, index: nat): (r: Outcome<(nat, nat)>)
    requires index <= 9
    ensures r.Ok? ==> 1 <= r.value.1 <= |b|
    decreases 9 - index
  {
    if |b| == 0 then Err
    else
      var byte := b[0];
      if index == 9 && byte >= 2 then Err
      else
        var payload := byte % 128;
        if byte < 128 then
          if index > 0 && payload == 0 then Err else Ok((payload, 1))
        else
          var (high, used) :- GetAt(b[1..], index + 1);
          Ok((payload + 128 * high, used + 1))
  }

  function Get(b: seq<Byte>): (r: Outcome<(nat, nat)>)
    ensures r.Ok? ==> 1 <= r.value.1 <= |b|
  {
    GetAt(b, 0)
  }

  /** One more than the largest value the bytes from position `index` on can contribute. */
  function Room(index: nat): nat
    requires index <= 9
  {
    if index == 0 then U64_MAX + 1 else Room(index - 1) / 128
  }

  /** Each position holds 128 times the room of the next; the tenth byte holds one bit. */
  lemma RoomFacts(index: nat)
    requires index <= 9
    ensures index == 9 ==> Room(index) == 2
    ensures index < 9 ==> Room(index) == 128 * Room(index + 1) && Room(index + 1) >= 2
  {
    assert Room(1) == 0x200_0000_0000_0000;
    assert Room(2) == 0x4_0000_0000_0000;
    assert Room(3) == 0x800_0000_0000;
    assert Room(4) == 0x10_0000_0000;
    assert Room(5) == 0x2000_0000;
    assert Room(6) == 0x40_0000;
    assert Room(7) == 0x8000;
    assert Room(8) == 0x100;
    assert Room(9) == 2;
  }

  lemma {:induction false} GetAtInvertsPut(v: nat, index: nat, rest: seq<Byte>)
    requires index <= 9
    requires v < Room(index)
    requires index > 0 ==> v > 0
    ensures GetAt(Put(v) + rest, index) == Ok((v, |Put(v)|))
    decreases 9 - index
  {
    hide Room;
    RoomFacts(index);
    if v >= 128 {
      GetAtInvertsPut(v / 128, index + 1, rest);
      assert (Put(v) + rest)[1..] == Put(v / 128) + rest;
    }
  }

  /** Round trip: any u64 decodes from its own encoding, whatever bytes follow. */
  lemma GetInvertsPut(v: nat, rest: seq<Byte>)
    requires v <= U64_MAX
    ensures Get(Put(v) + rest) == Ok((v, |Put(v)|))
  {
    GetAtInvertsPut(v, 0, rest);
  }

  lemma {:induction false} GetAtIsCanonical(b: seq<Byte>, index: nat)
    requires index <= 9
    requires GetAt(b, index).Ok?
    ensures var (v, used) := GetAt(b, index).value;
            v < Room(index) && (index > 0 ==> v > 0) && b[..used] == Put(v)
    decreases 9 - index
  {
    hide Room;
    RoomFacts(index);
    if b[0] >= 128 {
      GetAtIsCanonical(b[1..], index + 1);
      var (high, used) := GetAt(b[1..], index + 1).value;
      PutSpelled(b, high, used);
    } else {
      assert b[..1] == [b[0]];
    }
  }

  lemma PutSpelled(b: seq<Byte>, high: nat, used: nat)
    requires |b| > used && b[0] >= 128 && high > 0 && b[1..][..used] == Put(high)
    ensures b[..used + 1] == Put(b[0] % 128 + 128 * high)
  {
    var v := b[0] % 128 + 128 * high;
    assert v % 128 == b[0] % 128 && v / 128 == high;
    assert b[..used + 1] == [b[0]] + b[1..][..used];
  }

  /** Exactly one spelling: whatever `Get` accepts is the encoding of the value it returns. */
  lemma GetIsCanonical(b: seq<Byte>)
    requires Get(b).Ok?
    ensures var (v, used) := Get(b).value; v <= U64_MAX && b[..used] == Put(v)
  {
    GetAtIsCanonical(b, 0);
  }

  // ---- the arithmetic length `varint_len` ------------------------------------------------

  /** `64 - leading_zeros`, for a value of any width. */
  function BitLength(v: nat): nat {
    if v == 0 then 0 else 1 + BitLength(v / 2)
  }

  function Len(v: nat): nat {
    (Max(BitLength(v), 1) + 6) / 7
  }

  lemma BitLengthSeven(v: nat)
    requires v >= 128
    ensures BitLength(v) == 7 + BitLength(v / 128)
  {
    var a := v / 2; var b := a / 2; var c := b / 2; var d := c / 2; var e := d / 2; var f := e / 2;
    assert BitLength(v) == 1 + BitLength(a);
    assert BitLength(a) == 1 + BitLength(b);
    assert BitLength(b) == 1 + BitLength(c);
    assert BitLength(c) == 1 + BitLength(d);
    assert BitLength(d) == 1 + BitLength(e);
    assert BitLength(e) == 1 + BitLength(f);
    assert BitLength(f) == 1 + BitLength(f / 2);
    assert f / 2 == v / 128;
  }

  lemma BitLengthSmall(v: nat)
    requires v < 128
    ensures BitLength(v) <= 7
  {
    var a := v / 2; var b := a / 2; var c := b / 2; var d := c / 2; var e := d / 2; var f := e / 2;
    assert f < 2 && f / 2 == 0;
    assert BitLength(f) <= 1 && BitLength(e) <= 2 && BitLength(d) <= 3;
    assert BitLength(c) <= 4 && BitLength(b) <= 5 && BitLength(a) <= 6;
  }

  /** The arithmetic length is the exact length of the bytes written. */
  lemma {:induction false} LenIsExact(v: nat)
    ensures Len(v) == |Put(v)|
  {
    if v < 128 {
      BitLengthSmall(v);
    } else {
      BitLengthSeven(v);
      LenIsExact(v / 128);
      assert BitLength(v / 128) >= 1;
    }
  }
}
