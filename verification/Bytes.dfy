/** Bytes, machine-integer bounds, little-endian fields, byte-string order and in-place patches:
    the vocabulary every storage module shares. */
module Bytes {

  type Byte = x: int | 0 <= x < 256

  const U32_MAX: nat := 0xFFFF_FFFF
  const U64_MAX: nat := 0xFFFF_FFFF_FFFF_FFFF

  /** A `Result` whose error text is not modelled: every refusal is the same `Err`. */
  datatype Outcome<+T> = Ok(value: T) | Err {
    predicate IsFailure() { Err? }
    function PropagateFailure<U>(): Outcome<U>
      requires Err?
    { Outcome<U>.Err }
    function Extract(): T
      requires Ok?
    { value }
  }

  datatype Option<+T> = None | Some(value: T)

  function Min(a: int, b: int): int { if a <= b then a else b }
  function Max(a: int, b: int): int { if a <= b then b else a }

  // ---- little-endian fixed-width fields -------------------------------------------------

  function Pow256(n: nat): nat {
    if n == 0 then 1 else 256 * Pow256(n - 1)
  }

  /** `v` as `n` little-endian bytes (the low `8 * n` bits of `v`). */
  function Le(v: nat, n: nat): (b: seq<Byte>)
    ensures |b| == n
  {
    if n == 0 then [] else [v % 256] + Le(v / 256, n - 1)
  }

  function FromLe(b: seq<Byte>): nat {
    if |b| == 0 then 0 else b[0] + 256 * FromLe(b[1..])
  }

  lemma {:induction false} FromLeInvertsLe(v: nat, n: nat)
    requires v < Pow256(n)
    ensures FromLe(Le(v, n)) == v
  {
    if n > 0 {
      FromLeInvertsLe(v / 256, n - 1);
      assert Le(v, n)[1..] == Le(v / 256, n - 1);
    }
  }

  lemma Pow256Values()
    ensures Pow256(4) == U32_MAX + 1
    ensures Pow256(8) == U64_MAX + 1
  {
    assert Pow256(1) == 256;
    assert Pow256(2) == 0x1_0000;
    assert Pow256(3) == 0x100_0000;
    assert Pow256(4) == 0x1_0000_0000;
    assert Pow256(5) == 0x100_0000_0000;
    assert Pow256(6) == 0x1_0000_0000_0000;
    assert Pow256(7) == 0x100_0000_0000_0000;
  }

  lemma {:induction false} FromLeBound(b: seq<Byte>)
    ensures FromLe(b) < Pow256(|b|)
  {
    if |b| > 0 { FromLeBound(b[1..]); }
  }

  lemma {:induction false} LeInvertsFromLe(b: seq<Byte>)
    ensures Le(FromLe(b), |b|) == b
  {
    if |b| > 0 {
      LeInvertsFromLe(b[1..]);
      assert FromLe(b) % 256 == b[0] && FromLe(b) / 256 == FromLe(b[1..]);
    }
  }

  /** A field's bytes and its value determine each other. */
  lemma FieldBack(b: seq<Byte>)
    ensures Le(FromLe(b), |b|) == b && FromLe(b) < Pow256(|b|)
  {
    LeInvertsFromLe(b);
    FromLeBound(b);
  }

  // ---- byte-string order (Rust `str` and `[u8]` comparison) -----------------------------

  predicate Less(a: seq<Byte>, b: seq<Byte>)
    decreases |a|
  {
    if |b| == 0 then false
    else if |a| == 0 then true
    else if a[0] != b[0] then a[0] < b[0]
    else Less(a[1..], b[1..])
  }

  lemma {:induction false} LessIrreflexive(a: seq<Byte>)
    ensures !Less(a, a)
  {
    if |a| > 0 { LessIrreflexive(a[1..]); }
  }

  lemma {:induction false} LessTransitive(a: seq<Byte>, b: seq<Byte>, c: seq<Byte>)
    requires Less(a, b) && Less(b, c)
    ensures Less(a, c)
  {
    if |a| > 0 && |b| > 0 && |c| > 0 && a[0] == b[0] == c[0] {
      LessTransitive(a[1..], b[1..], c[1..]);
    }
  }

  lemma {:induction false} LessTotal(a: seq<Byte>, b: seq<Byte>)
    ensures Less(a, b) || a == b || Less(b, a)
  {
    if |a| > 0 && |b| > 0 && a[0] == b[0] {
      LessTotal(a[1..], b[1..]);
      if a[1..] == b[1..] {
        assert a == [a[0]] + a[1..] == b;
      }
    }
  }

  lemma LessAsymmetric(a: seq<Byte>, b: seq<Byte>)
    requires Less(a, b)
    ensures !Less(b, a) && a != b
  {
    LessIrreflexive(a);
    if Less(b, a) { LessTransitive(a, b, a); }
  }

  // ---- positioned writes ----------------------------------------------------------------

  function Zeros(n: nat): (z: seq<Byte>)
    ensures |z| == n
  {
    seq(n, _ => 0)
  }

  /** The file after `data` is written at `off`; a gap past the end reads as zeros. */
  function Patch(file: seq<Byte>, off: nat, data: seq<Byte>): (r: seq<Byte>)
    ensures |r| == if |data| == 0 then |file| else Max(|file|, off + |data|)
    ensures forall i :: 0 <= i < |file| && (i < off || off + |data| <= i) ==> r[i] == file[i]
    ensures forall i :: 0 <= i < |data| ==> r[off + i] == data[i]
  {
    if |data| == 0 then file
    else
      var base := if |file| < off then file + Zeros(off - |file|) else file;
      base[..off] + data + (if off + |data| < |base| then base[off + |data|..] else [])
  }

  /** Two files hold the same bytes on `[lo, hi)`, and both reach `hi`. */
  predicate SameRange(a: seq<Byte>, b: seq<Byte>, lo: nat, hi: nat) {
    hi <= |a| && hi <= |b| && forall i :: lo <= i < hi ==> a[i] == b[i]
  }

  lemma SameRangeSlice(a: seq<Byte>, b: seq<Byte>, lo: nat, hi: nat)
    requires lo <= hi && SameRange(a, b, lo, hi)
    ensures a[lo..hi] == b[lo..hi]
  {
  }

  lemma SubSlice(b: seq<Byte>, at: nat, n: nat, lo: nat, hi: nat)
    requires at + n <= |b| && lo <= hi <= n
    ensures b[at + lo..at + hi] == b[at..at + n][lo..hi]
  {
    var x, y := b[at + lo..at + hi], b[at..at + n][lo..hi];
    forall k | 0 <= k < hi - lo ensures x[k] == y[k] { }
    assert x == y;
  }
}
