/** Gear content-defined chunking: cuts follow content, within fixed size bounds. */
module Chunker {
  import opened Bytes
  import opened JsonSplit

  const U64: nat := 0x1_0000_0000_0000_0000

  function Pow2(n: nat): (p: nat)
    ensures p > 0
  {
    if n == 0 then 1 else 2 * Pow2(n - 1)
  }

  /** The gear table, and the rounded base-2 logarithm of a target size (at most 64 for a 64-bit size). */
  datatype Gear = Gear(table: Byte -> nat, bits: nat -> nat) {
    /** The stricter mask width before the target size, and the looser one after. */
    function Strict(avg: nat): nat { Min(bits(avg) + 2, 63) }
    function Loose(avg: nat): nat { Min(Max(bits(avg) - 2, 1), 63) }

    /** Shift left once and add the byte's entry, in 64 bits. */
    function Roll(h: nat, b: Byte): nat { (2 * h + table(b)) % U64 }

    /** The top `n` bits of the hash are all zero. */
    predicate Clear(h: nat, n: nat)
      requires n <= 64
    {
      h < Pow2(64 - n)
    }
  }

  // ---- one cut --------------------------------------------------------------------------

  function Prime(g: Gear, body: seq<Byte>, from: nat, upto: nat, h: nat): nat
    requires from <= upto <= |body|
    decreases upto - from
  {
    if from == upto then h else Prime(g, body, from + 1, upto, g.Roll(h, body[from]))
  }

  /** The first position past `i` where the rolling hash clears its mask, or the hard limit. */
  function Seek(g: Gear, avg: nat, body: seq<Byte>, start: nat, hard: nat, i: nat, h: nat): (cut: nat)
    requires i <= hard <= |body|
    ensures i <= cut <= hard
    ensures i < hard ==> i < cut
    decreases hard - i
  {
    if i == hard then hard
    else
      var next := g.Roll(h, body[i]);
      if g.Clear(next, if i < Min(start + avg, hard) then g.Strict(avg) else g.Loose(avg)) then i + 1
      else Seek(g, avg, body, start, hard, i + 1, next)
  }

  /** Where the chunk starting at `start` ends. */
  function Cut(g: Gear, avg: nat, body: seq<Byte>, start: nat): (cut: nat)
    requires avg >= 64 && start < |body|
    ensures start < cut <= |body|
  {
    if |body| - start <= avg / 4 then |body|
    else
      var hard := Min(start + 4 * avg, |body|);
      Seek(g, avg, body, start, hard, start + avg / 4, Prime(g, body, start, start + avg / 4, 0))
  }

  function Chunks(g: Gear, avg: nat, body: seq<Byte>, start: nat): seq<Range>
    requires avg >= 64 && start <= |body|
    decreases |body| - start
  {
    if start == |body| then []
    else
      var cut := Cut(g, avg, body, start);
      [Range(start, cut)] + Chunks(g, avg, body, cut)
  }

  method GearRanges(g: Gear, body: seq<Byte>, avg: nat) returns (out: seq<Range>)
    requires avg >= 64
    ensures out == Chunks(g, avg, body, 0)
  {
    hide Seek, Prime;
    var min, max := avg / 4, avg * 4;
    out := [];
    var start: nat := 0;
    assert out + Chunks(g, avg, body, 0) == Chunks(g, avg, body, 0);
    while start < |body|
      invariant start <= |body|
      invariant Chunks(g, avg, body, 0) == out + Chunks(g, avg, body, start)
    {
      var rem := |body| - start;
      var cut: nat := |body|;
      if rem > min {
        var hard := Min(start + max, |body|);
        cut := FindCut(g, avg, body, start, min, hard);
      }
      assert cut == Cut(g, avg, body, start);
      assert out + ([Range(start, cut)] + Chunks(g, avg, body, cut))
          == (out + [Range(start, cut)]) + Chunks(g, avg, body, cut);
      out := out + [Range(start, cut)];
      start := cut;
    }
    assert out + [] == out;
  }

  method FindCut(g: Gear, avg: nat, body: seq<Byte>, start: nat, min: nat, hard: nat) returns (cut: nat)
    requires start + min <= hard <= |body|
    ensures cut == Seek(g, avg, body, start, hard, start + min, Prime(g, body, start, start + min, 0))
  {
    var h: nat := 0;
    var k := start;
    while k < start + min
      invariant start <= k <= start + min
      invariant Prime(g, body, start, start + min, 0) == Prime(g, body, k, start + min, h)
    {
      h := g.Roll(h, body[k]);
      k := k + 1;
    }
    var normal := Min(start + avg, hard);
    var i := start + min;
    cut := hard;
    while i < hard
      invariant start + min <= i <= hard && cut == hard
      invariant Seek(g, avg, body, start, hard, start + min, Prime(g, body, start, start + min, 0))
             == Seek(g, avg, body, start, hard, i, h)
    {
      h := g.Roll(h, body[i]);
      var n := if i < normal then g.Strict(avg) else g.Loose(avg);
      if g.Clear(h, n) {
        cut := i + 1;
        break;
      }
      i := i + 1;
    }
  }

  // ---- what a cut depends on ------------------------------------------------------------

  /** The bytes from `from` to `i`, each table entry doubled once for every later byte. */
  function Weighed(g: Gear, body: seq<Byte>, from: nat, i: nat): nat
    requires from <= i <= |body|
    decreases i - from
  {
    if from == i then 0 else g.table(body[from]) * Pow2(i - 1 - from) + Weighed(g, body, from + 1, i)
  }

  /** The hash at position `i` of a chunk that began at `start`: of the last 64 bytes, or of all there are. */
  function WindowHash(g: Gear, body: seq<Byte>, start: nat, i: nat): nat
    requires start <= i <= |body|
  {
    Weighed(g, body, if i - start <= 64 then start else i - 64, i) % U64
  }

  /** Position `i` is a content cut: the hash there has its top bits zero, as many as its side of the target asks. */
  predicate Clears(g: Gear, avg: nat, body: seq<Byte>, start: nat, i: nat)
    requires start <= i <= |body|
  {
    var n := if i - start <= avg then Min(g.bits(avg) + 2, 63) else Min(Max(g.bits(avg) - 2, 1), 63);
    WindowHash(g, body, start, i) < Pow2(64 - n)
  }

  /** A chunk ends at the first content cut more than a quarter of the target in, at four times the target, or
      with the body. */
  predicate Ends(g: Gear, avg: nat, body: seq<Byte>, start: nat, end: nat)
    requires start < end <= |body|
  {
    var hard := Min(start + 4 * avg, |body|);
    if |body| - start <= avg / 4 then end == |body|
    else
      && start + avg / 4 < end <= hard
      && (forall i :: start + avg / 4 < i < end ==> !Clears(g, avg, body, start, i))
      && (end < hard ==> Clears(g, avg, body, start, end))
  }

  lemma {:induction false} Pow2Adds(a: nat, b: nat)
    ensures Pow2(a + b) == Pow2(a) * Pow2(b)
  {
    if a > 0 { Pow2Adds(a - 1, b); }
  }

  lemma Pow2Of64()
    ensures Pow2(64) == U64
  {
    hide Pow2;
    Pow2Of16();
    Pow2Adds(16, 16);
    Pow2Adds(32, 32);
  }

  lemma Pow2Of16()
    ensures Pow2(16) == 65536
  {
    assert Pow2(4) == 16;
    hide Pow2;
    Pow2Adds(4, 4);
    Pow2Adds(8, 8);
  }

  lemma {:induction false} WeighedRolls(g: Gear, body: seq<Byte>, from: nat, i: nat)
    requires from <= i < |body|
    ensures Weighed(g, body, from, i + 1) == 2 * Weighed(g, body, from, i) + g.table(body[i])
    decreases i - from
  {
    if from < i {
      WeighedRolls(g, body, from + 1, i);
      Doubles(g.table(body[from]), i - 1 - from);
    }
  }

  lemma Doubles(t: nat, n: nat)
    ensures t * Pow2(n + 1) == 2 * (t * Pow2(n))
  {
  }

  /** A byte more than 64 places back has been shifted out. */
  lemma {:induction false} OldBytesVanish(g: Gear, body: seq<Byte>, from: nat, i: nat)
    requires from + 64 <= i <= |body|
    ensures Weighed(g, body, from, i) % U64 == Weighed(g, body, i - 64, i) % U64
    decreases i - from
  {
    if from + 64 < i {
      OldBytesVanish(g, body, from + 1, i);
      var t, far := g.table(body[from]), i - 1 - from - 64;
      Pow2Of64();
      Pow2Adds(far, 64);
      MultipleVanishes(t, Pow2(far), Weighed(g, body, from + 1, i));
    }
  }

  lemma MultipleVanishes(t: nat, p: nat, w: nat)
    ensures (t * (p * U64) + w) % U64 == w % U64
  {
    assert t * (p * U64) == (t * p) * U64;
    AddMultiple(t * p, w);
  }

  lemma {:induction false} AddMultiple(q: nat, w: nat)
    ensures (q * U64 + w) % U64 == w % U64
  {
    if q > 0 {
      AddMultiple(q - 1, w);
      assert q * U64 + w == (q - 1) * U64 + w + U64;
    }
  }

  /** Rolling in one byte takes the hash at a position to the hash at the next. */
  lemma RollIsWindow(g: Gear, body: seq<Byte>, start: nat, i: nat)
    requires start <= i < |body|
    ensures g.Roll(WindowHash(g, body, start, i), body[i]) == WindowHash(g, body, start, i + 1)
  {
    hide Weighed, WindowHash;
    WindowIsEnough(g, body, start, i);
    WindowIsEnough(g, body, start, i + 1);
    WeighedRolls(g, body, start, i);
    RollReduced(Weighed(g, body, start, i), g.table(body[i]));
  }

  lemma WindowIsEnough(g: Gear, body: seq<Byte>, start: nat, i: nat)
    requires start <= i <= |body|
    ensures WindowHash(g, body, start, i) == Weighed(g, body, start, i) % U64
  {
    hide Weighed;
    if i - start > 64 { OldBytesVanish(g, body, start, i); }
  }

  lemma RollReduced(w: nat, t: nat)
    ensures (2 * (w % U64) + t) % U64 == (2 * w + t) % U64
  {
    var q := w / U64;
    assert w == q * U64 + w % U64;
    assert 2 * w + t == (2 * q) * U64 + (2 * (w % U64) + t);
    AddMultiple(2 * q, 2 * (w % U64) + t);
  }

  lemma {:induction false} PrimeIsWindow(g: Gear, body: seq<Byte>, start: nat, k: nat, upto: nat)
    requires start <= k <= upto <= |body|
    ensures Prime(g, body, k, upto, WindowHash(g, body, start, k)) == WindowHash(g, body, start, upto)
    decreases upto - k
  {
    hide WindowHash;
    if k < upto {
      RollIsWindow(g, body, start, k);
      PrimeIsWindow(g, body, start, k + 1, upto);
    }
  }

  lemma {:induction false} SeekFindsFirst(g: Gear, avg: nat, body: seq<Byte>, start: nat, hard: nat, i: nat)
    requires avg >= 64 && start <= i <= hard <= |body|
    ensures var cut := Seek(g, avg, body, start, hard, i, WindowHash(g, body, start, i));
            && (forall e :: i < e < cut ==> !Clears(g, avg, body, start, e))
            && (cut < hard ==> Clears(g, avg, body, start, cut))
    decreases hard - i
  {
    hide WindowHash;
    if i < hard {
      RollIsWindow(g, body, start, i);
      if !Clears(g, avg, body, start, i + 1) { SeekFindsFirst(g, avg, body, start, hard, i + 1); }
    }
  }

  lemma CutEnds(g: Gear, avg: nat, body: seq<Byte>, start: nat)
    requires avg >= 64 && start < |body|
    ensures Ends(g, avg, body, start, Cut(g, avg, body, start))
  {
    hide Clears, Seek, Prime;
    if |body| - start > avg / 4 {
      var min := start + avg / 4;
      assert WindowHash(g, body, start, start) == 0;
      PrimeIsWindow(g, body, start, start, min);
      SeekFindsFirst(g, avg, body, start, Min(start + 4 * avg, |body|), min);
    }
  }

  /** Every chunk ends where the content says: a statement about table entries and positions alone. */
  lemma {:induction false} ChunkEnds(g: Gear, avg: nat, body: seq<Byte>, start: nat, k: nat)
    requires avg >= 64 && start <= |body| && k < |Chunks(g, avg, body, start)|
    ensures var c := Chunks(g, avg, body, start)[k];
            start <= c.start < c.end <= |body| && Ends(g, avg, body, c.start, c.end)
    decreases |body| - start
  {
    hide Cut, Ends;
    var cut := Cut(g, avg, body, start);
    CutEnds(g, avg, body, start);
    if k > 0 { ChunkEnds(g, avg, body, cut, k - 1); }
  }

  // ---- partition and bounds -------------------------------------------------------------

  /** Non-empty ranges laid end to end from `lo` to `hi`. */
  predicate Partition(rs: seq<Range>, lo: nat, hi: nat)
    decreases |rs|
  {
    if |rs| == 0 then lo == hi
    else rs[0].start == lo && lo < rs[0].end <= hi && Partition(rs[1..], rs[0].end, hi)
  }

  lemma {:induction false} ChunksPartition(g: Gear, avg: nat, body: seq<Byte>, start: nat)
    requires avg >= 64 && start <= |body|
    ensures Partition(Chunks(g, avg, body, start), start, |body|)
    decreases |body| - start
  {
    if start < |body| {
      hide Cut;
      ChunksPartition(g, avg, body, Cut(g, avg, body, start));
    }
  }

  lemma CutBounds(g: Gear, avg: nat, body: seq<Byte>, start: nat)
    requires avg >= 64 && start < |body|
    ensures Cut(g, avg, body, start) - start <= 4 * avg
    ensures Cut(g, avg, body, start) < |body| ==> avg / 4 < Cut(g, avg, body, start) - start
  {
  }

  /** Every chunk is at most four times the target, and every chunk but the last at least a quarter of it. */
  lemma {:induction false} ChunkBounds(g: Gear, avg: nat, body: seq<Byte>, start: nat, k: nat)
    requires avg >= 64 && start <= |body| && k < |Chunks(g, avg, body, start)|
    ensures var c := Chunks(g, avg, body, start)[k];
            && 0 < c.end - c.start <= 4 * avg
            && (k + 1 < |Chunks(g, avg, body, start)| ==> avg / 4 <= c.end - c.start)
    decreases |body| - start
  {
    var cut := Cut(g, avg, body, start);
    CutBounds(g, avg, body, start);
    hide Cut;
    if k > 0 {
      ChunkBounds(g, avg, body, cut, k - 1);
    }
  }

  // ---- stability under append -----------------------------------------------------------

  lemma {:induction false} PrimeExtends(g: Gear, a: seq<Byte>, b: seq<Byte>, from: nat, upto: nat, h: nat)
    requires from <= upto <= |a| && |a| <= |b| && b[..|a|] == a
    ensures Prime(g, a, from, upto, h) == Prime(g, b, from, upto, h)
    decreases upto - from
  {
    if from < upto {
      assert b[from] == b[..|a|][from] == a[from];
      PrimeExtends(g, a, b, from + 1, upto, g.Roll(h, a[from]));
    }
  }

  /** A cut that stops short of the end of the text is found at the same place when the text goes on. */
  lemma {:induction false} SeekExtends(g: Gear, avg: nat, a: seq<Byte>, b: seq<Byte>, start: nat, x: nat, y: nat, i: nat, h: nat)
    requires i <= x <= |a| && x <= y <= |b| && |a| <= |b| && b[..|a|] == a
    requires Seek(g, avg, a, start, x, i, h) < x || x == y
    ensures Seek(g, avg, b, start, y, i, h) == Seek(g, avg, a, start, x, i, h)
    decreases x - i
  {
    if i < x {
      assert b[i] == b[..|a|][i] == a[i];
      var next := g.Roll(h, a[i]);
      assert i < Min(start + avg, x) <==> i < Min(start + avg, y);
      if Seek(g, avg, a, start, x, i, h) != i + 1 || x == y || i + 1 < x {
        if !g.Clear(next, if i < Min(start + avg, x) then g.Strict(avg) else g.Loose(avg)) {
          SeekExtends(g, avg, a, b, start, x, y, i + 1, next);
        }
      }
    }
  }

  lemma CutExtends(g: Gear, avg: nat, a: seq<Byte>, b: seq<Byte>, start: nat)
    requires avg >= 64 && start < |a| <= |b| && b[..|a|] == a
    requires Cut(g, avg, a, start) < |a|
    ensures Cut(g, avg, b, start) == Cut(g, avg, a, start)
  {
    var from := start + avg / 4;
    PrimeExtends(g, a, b, start, from, 0);
    SeekExtends(g, avg, a, b, start, Min(start + 4 * avg, |a|), Min(start + 4 * avg, |b|), from,
                Prime(g, a, start, from, 0));
  }

  /** Appending bytes leaves every chunk but the last exactly as it was. */
  lemma {:induction false} AppendKeepsChunks(g: Gear, avg: nat, body: seq<Byte>, more: seq<Byte>, start: nat)
    requires avg >= 64 && start < |body|
    ensures var c := Chunks(g, avg, body, start); var d := Chunks(g, avg, body + more, start);
            0 < |c| <= |d| && c[..|c| - 1] == d[..|c| - 1]
    decreases |body| - start
  {
    var b := body + more;
    assert b[..|body|] == body;
    var cut := Cut(g, avg, body, start);
    if cut < |body| {
      CutExtends(g, avg, body, b, start);
      hide Cut;
      AppendKeepsChunks(g, avg, body, more, cut);
      var c, d := Chunks(g, avg, body, cut), Chunks(g, avg, b, cut);
      assert ([Range(start, cut)] + c)[..|c|] == [Range(start, cut)] + c[..|c| - 1];
      assert ([Range(start, cut)] + d)[..|c|] == [Range(start, cut)] + d[..|c| - 1];
    }
  }

  // ---- resynchronisation ----------------------------------------------------------------

  function Moved(rs: seq<Range>, offset: nat): seq<Range> {
    if |rs| == 0 then [] else [Range(rs[0].start + offset, rs[0].end + offset)] + Moved(rs[1..], offset)
  }

  lemma {:induction false} PrimeShifts(g: Gear, a: seq<Byte>, x: nat, b: seq<Byte>, y: nat, n: nat, h: nat)
    requires x + n <= |a| && y + n <= |b| && a[x..] == b[y..]
    ensures Prime(g, a, x, x + n, h) == Prime(g, b, y, y + n, h)
    decreases n
  {
    if n > 0 {
      assert a[x] == a[x..][0] == b[y..][0] == b[y];
      assert a[x + 1..] == a[x..][1..] == b[y + 1..];
      PrimeShifts(g, a, x + 1, b, y + 1, n - 1, g.Roll(h, a[x]));
    }
  }

  lemma {:induction false} SeekShifts(g: Gear, avg: nat, a: seq<Byte>, x: nat, b: seq<Byte>, y: nat, hard: nat, i: nat, h: nat)
    requires i <= hard && x + hard <= |a| && y + hard <= |b| && a[x..] == b[y..]
    ensures Seek(g, avg, a, x, x + hard, x + i, h) - x == Seek(g, avg, b, y, y + hard, y + i, h) - y
    decreases hard - i
  {
    if i < hard {
      assert a[x + i] == a[x..][i] == b[y..][i] == b[y + i];
      assert x + i < Min(x + avg, x + hard) <==> y + i < Min(y + avg, y + hard);
      SeekShifts(g, avg, a, x, b, y, hard, i + 1, g.Roll(h, a[x + i]));
    }
  }

  lemma CutShifts(g: Gear, avg: nat, a: seq<Byte>, x: nat, b: seq<Byte>, y: nat)
    requires avg >= 64 && x < |a| && y < |b| && a[x..] == b[y..]
    ensures Cut(g, avg, a, x) - x == Cut(g, avg, b, y) - y
  {
    assert |a| - x == |a[x..]| == |b[y..]| == |b| - y;
    if |a| - x > avg / 4 {
      PrimeShifts(g, a, x, b, y, avg / 4, 0);
      SeekShifts(g, avg, a, x, b, y, Min(4 * avg, |a| - x), avg / 4, Prime(g, a, x, x + avg / 4, 0));
    }
  }

  /** The chunks from any position on are the chunks of the suffix alone, moved there. */
  lemma {:induction false} ChunksOfSuffix(g: Gear, avg: nat, body: seq<Byte>, x: nat, k: nat)
    requires avg >= 64 && x + k <= |body|
    ensures Chunks(g, avg, body, x + k) == Moved(Chunks(g, avg, body[x..], k), x)
    decreases |body| - (x + k)
  {
    hide Cut;
    var s := body[x..];
    if x + k < |body| {
      assert body[x + k..] == s[k..];
      CutShifts(g, avg, body, x + k, s, k);
      var n := Cut(g, avg, s, k);
      ChunksOfSuffix(g, avg, body, x, n);
      var rest := Chunks(g, avg, s, n);
      assert ([Range(k, n)] + rest)[1..] == rest;
    }
  }

  lemma {:induction false} ChunksFromCut(g: Gear, avg: nat, body: seq<Byte>, start: nat, k: nat)
    requires avg >= 64 && start <= |body| && k < |Chunks(g, avg, body, start)|
    ensures var c := Chunks(g, avg, body, start);
            c[k].end <= |body| && c[k + 1..] == Chunks(g, avg, body, c[k].end)
    decreases |body| - start
  {
    var cut := Cut(g, avg, body, start);
    hide Cut;
    var c, d := Chunks(g, avg, body, start), Chunks(g, avg, body, cut);
    assert c == [Range(start, cut)] + d;
    if k > 0 {
      ChunksFromCut(g, avg, body, cut, k - 1);
      assert c[k + 1..] == d[k..];
    } else {
      assert c[1..] == d;
    }
  }

  /** Resynchronisation: if chunk `j` of `a` and chunk `k` of `b` end where the same suffix begins, then from
      there on both are the chunks of that suffix, each moved to its own place. */
  lemma ChunksResynchronise(g: Gear, avg: nat, a: seq<Byte>, b: seq<Byte>, j: nat, k: nat, x: nat, y: nat)
    requires avg >= 64
    requires j < |Chunks(g, avg, a, 0)| && x == Chunks(g, avg, a, 0)[j].end <= |a|
    requires k < |Chunks(g, avg, b, 0)| && y == Chunks(g, avg, b, 0)[k].end <= |b|
    requires a[x..] == b[y..]
    ensures Chunks(g, avg, a, 0)[j + 1..] == Moved(Chunks(g, avg, a[x..], 0), x)
    ensures Chunks(g, avg, b, 0)[k + 1..] == Moved(Chunks(g, avg, a[x..], 0), y)
  {
    hide Chunks;
    ChunksFromCut(g, avg, a, 0, j);
    ChunksFromCut(g, avg, b, 0, k);
    ChunksOfSuffix(g, avg, a, x, 0);
    ChunksOfSuffix(g, avg, b, y, 0);
  }
}
