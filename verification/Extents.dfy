/** A member scattered over extents of one file, read and punched as one logical range. */
module Extents {
  import opened Bytes

  /** A physical run of bytes: where it starts and how long it is. */
  datatype Run = Run(off: nat, len: nat)

  function Total(runs: seq<Run>): nat {
    if |runs| == 0 then 0 else runs[0].len + Total(runs[1..])
  }

  predicate Inside(file: seq<Byte>, runs: seq<Run>) {
    forall k :: 0 <= k < |runs| ==> runs[k].off + runs[k].len <= |file|
  }

  /** The bytes of the runs, one after the other. */
  function Stitched(file: seq<Byte>, runs: seq<Run>): (b: seq<Byte>)
    requires Inside(file, runs)
    ensures |b| == Total(runs)
  {
    if |runs| == 0 then [] else file[runs[0].off..runs[0].off + runs[0].len] + Stitched(file, runs[1..])
  }

  /** The file positions of the runs' bytes, in logical order. */
  function Positions(runs: seq<Run>): (p: seq<nat>)
    ensures |p| == Total(runs)
  {
    if |runs| == 0 then [] else seq(runs[0].len, i requires 0 <= i < runs[0].len => runs[0].off + i) + Positions(runs[1..])
  }

  lemma {:induction false} TotalConcat(a: seq<Run>, b: seq<Run>)
    ensures Total(a + b) == Total(a) + Total(b)
    ensures Positions(a + b) == Positions(a) + Positions(b)
  {
    if |a| == 0 {
      assert a + b == b;
    } else {
      assert (a + b)[1..] == a[1..] + b;
      TotalConcat(a[1..], b);
    }
  }

  lemma {:induction false} StitchedAtPositions(file: seq<Byte>, runs: seq<Run>)
    requires Inside(file, runs)
    ensures forall i :: 0 <= i < Total(runs) ==>
              Positions(runs)[i] < |file| && Stitched(file, runs)[i] == file[Positions(runs)[i]]
  {
    if |runs| > 0 { StitchedAtPositions(file, runs[1..]); }
  }

  // ---- a bounded window of another source -----------------------------------------------

  /** Read `n` bytes at `off` of a source; a short read is an error. */
  function ReadAt(file: seq<Byte>, off: nat, n: nat): Outcome<seq<Byte>> {
    if off + n <= |file| then Ok(file[off..off + n]) else Err
  }

  /** A slice never reads past its own end, whatever lies beyond it. */
  method ReadSlice(file: seq<Byte>, base: nat, len: nat, off: nat, n: nat) returns (r: Outcome<seq<Byte>>)
    requires base + len <= |file|
    ensures r == if off + n <= len then Ok(file[base + off..base + off + n]) else Err
  {
    if off > len || n > len - off { return Err; }
    r := ReadAt(file, base + off, n);
  }

  // ---- which bytes a window occupies ----------------------------------------------------

  /** The part of one run that falls in the logical window `[off, end)`, when the run begins at `logical`. */
  function Clip(run: Run, logical: nat, off: nat, end: nat): seq<Run>
    requires off <= end
  {
    if run.len > 0 && logical + run.len > off && logical < end then
      var from := Max(off, logical);
      var upto := Min(end, logical + run.len);
      [Run(run.off + (from - logical), upto - from)]
    else []
  }

  function Window(runs: seq<Run>, logical: nat, off: nat, end: nat): seq<Run>
    requires off <= end
    decreases |runs|
  {
    if |runs| == 0 then []
    else Clip(runs[0], logical, off, end) + Window(runs[1..], logical + runs[0].len, off, end)
  }

  /** Each extent gives at most one run, and none is empty unless the window is. */
  lemma {:induction false} WindowRuns(runs: seq<Run>, logical: nat, off: nat, end: nat)
    requires off <= end
    ensures |Window(runs, logical, off, end)| <= |runs|
    ensures off < end ==> forall r :: r in Window(runs, logical, off, end) ==> r.len > 0
    decreases |runs|
  {
    if |runs| > 0 { WindowRuns(runs[1..], logical + runs[0].len, off, end); }
  }

  lemma WindowStep(extents: seq<Run>, i: nat, logical: nat, off: nat, end: nat, out: seq<Run>)
    requires i < |extents| && off <= end
    ensures out + Window(extents[i..], logical, off, end)
         == out + Clip(extents[i], logical, off, end) + Window(extents[i + 1..], logical + extents[i].len, off, end)
  {
    hide Clip;
    assert extents[i..][1..] == extents[i + 1..];
    var rest := Window(extents[i + 1..], logical + extents[i].len, off, end);
    assert out + (Clip(extents[i], logical, off, end) + rest) == out + Clip(extents[i], logical, off, end) + rest;
  }

  method PhysicalRanges(extents: seq<Run>, off: nat, len: nat) returns (out: seq<Run>)
    ensures out == Window(extents, 0, off, off + len)
  {
    hide Window;
    out := [];
    var logical: nat := 0;
    var end := off + len;
    var i := 0;
    assert extents[0..] == extents;
    assert [] + Window(extents, 0, off, end) == Window(extents, 0, off, end);
    while i < |extents|
      invariant i <= |extents|
      invariant Window(extents, 0, off, end) == out + Window(extents[i..], logical, off, end)
    {
      WindowStep(extents, i, logical, off, end, out);
      var Run(phys, runLen) := extents[i];
      var runEnd := logical + runLen;
      if runLen > 0 && runEnd > off && logical < end {
        var from := Max(off, logical);
        var upto := Min(end, runEnd);
        out := out + [Run(phys + (from - logical), upto - from)];
      } else {
        assert out + [] == out;
      }
      logical := runEnd;
      i := i + 1;
    }
    NoWindow(extents[i..], logical, off, end);
    assert out + [] == out;
  }

  lemma NoWindow(extents: seq<Run>, logical: nat, off: nat, end: nat)
    requires |extents| == 0 && off <= end
    ensures Window(extents, logical, off, end) == []
  {
  }

  lemma SliceConcat<T>(a: seq<T>, b: seq<T>, lo: nat, hi: nat)
    requires lo <= hi <= |a| + |b|
    ensures (a + b)[lo..hi]
         == a[Min(lo, |a|)..Min(hi, |a|)] + b[Max(lo - |a|, 0)..Max(hi - |a|, 0)]
  {
  }

  /** The ends of the window within the member, once clamped to it. */
  function Low(off: nat, logical: nat, total: nat): nat { Min(Max(off - logical, 0), total) }

  function High(off: nat, end: nat, logical: nat, total: nat): nat {
    Max(Low(off, logical, total), Min(Max(end - logical, 0), total))
  }

  /** The runs named are exactly the window's bytes, in order; a window past the end is clamped. */
  lemma {:induction false} WindowPositions(runs: seq<Run>, logical: nat, off: nat, end: nat)
    requires off <= end
    ensures Positions(Window(runs, logical, off, end))
         == Positions(runs)[Low(off, logical, Total(runs))..High(off, end, logical, Total(runs))]
    decreases |runs|
  {
    hide Clip, Positions, Total, Low, High;
    if |runs| > 0 {
      var first, rest := runs[0], runs[1..];
      WindowPositions(rest, logical + first.len, off, end);
      ClipPositions(first, logical, off, end);
      TotalConcat(Clip(first, logical, off, end), Window(rest, logical + first.len, off, end));
      assert [first] + rest == runs;
      TotalConcat([first], rest);
      EndsSplit(first.len, Total(rest), off, end, logical);
      SliceConcat(Positions([first]), Positions(rest), Low(off, logical, Total(runs)), High(off, end, logical, Total(runs)));
    } else {
      NothingToClip(runs, logical, off, end);
    }
  }

  lemma NothingToClip(runs: seq<Run>, logical: nat, off: nat, end: nat)
    requires |runs| == 0 && off <= end
    ensures Positions(Window(runs, logical, off, end))
         == Positions(runs)[Low(off, logical, Total(runs))..High(off, end, logical, Total(runs))]
  {
  }

  /** Clamping a window to two runs end to end is clamping it to each. */
  lemma EndsSplit(a: nat, b: nat, off: nat, end: nat, logical: nat)
    requires off <= end
    ensures var lo, hi := Low(off, logical, a + b), High(off, end, logical, a + b);
            && lo <= hi <= a + b
            && Min(lo, a) == Low(off, logical, a) && Min(hi, a) == High(off, end, logical, a)
            && Max(lo - a, 0) == Low(off, logical + a, b) && Max(hi - a, 0) == High(off, end, logical + a, b)
  {
  }

  lemma ClipPositions(run: Run, logical: nat, off: nat, end: nat)
    requires off <= end
    ensures Total([run]) == run.len
    ensures Positions(Clip(run, logical, off, end))
         == Positions([run])[Low(off, logical, run.len)..High(off, end, logical, run.len)]
  {
    assert [run][1..] == [];
    var p := Positions([run]);
    assert forall i :: 0 <= i < run.len ==> p[i] == run.off + i;
    var c := Clip(run, logical, off, end);
    if |c| > 0 {
      assert c[1..] == [];
      var q := Positions(c);
      assert |q| == c[0].len && forall i :: 0 <= i < |q| ==> q[i] == c[0].off + i;
    }
  }

  // ---- reading --------------------------------------------------------------------------

  /** A run with the logical position it begins at. */
  datatype Placed = Placed(start: nat, off: nat, len: nat)

  /** The runs of a member in order, dense, without empty ones, and where each logical byte lies. */
  predicate Maps(placed: seq<Placed>, positions: seq<nat>) {
    && (forall i :: 0 <= i < |placed| ==>
          placed[i].len > 0 && placed[i].start + placed[i].len <= |positions|)
    && (|placed| > 0 ==> placed[0].start == 0 && placed[|placed| - 1].start + placed[|placed| - 1].len == |positions|)
    && (|placed| == 0 ==> |positions| == 0)
    && (forall i :: 0 <= i < |placed| - 1 ==> placed[i + 1].start == placed[i].start + placed[i].len)
    && (forall i, x :: 0 <= i < |placed| && placed[i].start <= x < placed[i].start + placed[i].len ==>
          positions[x] == placed[i].off + (x - placed[i].start))
  }

  lemma MapsMore(placed: seq<Placed>, positions: seq<nat>, run: Run)
    requires Maps(placed, positions)
    ensures run.len == 0 ==> positions + Positions([run]) == positions
    ensures run.len > 0 ==> Maps(placed + [Placed(|positions|, run.off, run.len)], positions + Positions([run]))
  {
    hide Positions;
    OneRun(run);
    if run.len > 0 {
      var more := placed + [Placed(|positions|, run.off, run.len)];
      var all := positions + Positions([run]);
      forall i, x | 0 <= i < |more| && more[i].start <= x < more[i].start + more[i].len
        ensures all[x] == more[i].off + (x - more[i].start)
      {
      }
    }
  }

  lemma OneRun(run: Run)
    ensures |Positions([run])| == run.len && forall i :: 0 <= i < run.len ==> Positions([run])[i] == run.off + i
  {
    assert [run][1..] == [];
  }

  /** Build the reader's run table; empty extents address nothing and are dropped. */
  method NewExtents(extents: seq<Run>) returns (runs: seq<Placed>, len: nat)
    ensures len == Total(extents) && Maps(runs, Positions(extents))
  {
    hide Positions, Maps;
    runs := [];
    len := 0;
    var i := 0;
    NoneMapped();
    assert extents[..0] == [];
    while i < |extents|
      invariant i <= |extents|
      invariant len == |Positions(extents[..i])| && Maps(runs, Positions(extents[..i]))
    {
      assert extents[..i + 1] == extents[..i] + [extents[i]];
      TotalConcat(extents[..i], [extents[i]]);
      MapsMore(runs, Positions(extents[..i]), extents[i]);
      OneRun(extents[i]);
      if extents[i].len != 0 {
        runs := runs + [Placed(len, extents[i].off, extents[i].len)];
        len := len + extents[i].len;
      }
      i := i + 1;
    }
    assert extents[..i] == extents;
  }

  lemma NoneMapped()
    ensures Positions([]) == [] && Maps([], [])
  {
  }

  /** Copy `n` bytes at `off` of the source into the buffer from `at`. */
  method ReadInto(file: seq<Byte>, off: nat, buf: array<Byte>, at: nat, n: nat)
    requires off + n <= |file| && at + n <= buf.Length
    modifies buf
    ensures forall k :: 0 <= k < buf.Length ==>
              buf[k] == if at <= k < at + n then file[off + (k - at)] else old(buf[k])
  {
    var k := 0;
    while k < n
      invariant k <= n
      invariant forall x :: 0 <= x < buf.Length ==>
                  buf[x] == if at <= x < at + k then file[off + (x - at)] else old(buf[x])
    {
      buf[at + k] := file[off + k];
      k := k + 1;
    }
  }

  /** The last run that begins at or before `off`. */
  method RunAt(runs: seq<Placed>, off: nat) returns (i: nat)
    requires |runs| > 0 && runs[0].start == 0
    ensures i < |runs| && runs[i].start <= off && (i + 1 < |runs| ==> off < runs[i + 1].start)
  {
    i := 0;
    while i + 1 < |runs| && runs[i + 1].start <= off
      invariant i < |runs| && runs[i].start <= off
    {
      i := i + 1;
    }
  }

  predicate Fits(file: seq<Byte>, runs: seq<Placed>) {
    forall i :: 0 <= i < |runs| ==> runs[i].off + runs[i].len <= |file|
  }

  /** Every in-range window reads as that window of the member's bytes; any other is refused. */
  method ReadExactAt(file: seq<Byte>, runs: seq<Placed>, len: nat, buf: array<Byte>, off: nat, ghost positions: seq<nat>)
    returns (ok: bool)
    requires Maps(runs, positions) && len == |positions| && Fits(file, runs)
    modifies buf
    ensures ok <==> off + buf.Length <= len
    ensures ok ==> Copied(buf[..], buf.Length, file, positions, off)
    ensures !ok ==> buf[..] == old(buf[..])
  {
    hide Maps, Fits;
    if off > len || buf.Length > len - off { return false; }
    if buf.Length == 0 { return true; }
    RunsNonEmpty(runs, positions);
    if |runs| == 1 {
      RunCopies(file, runs, positions, 0, off, buf.Length);
      ReadInto(file, runs[0].off + off, buf, 0, buf.Length);
      CopiedMore([], buf[..], 0, buf.Length, file, positions, off, runs[0].off + off);
      return true;
    }
    var i: nat := RunAt(runs, off);
    var at: nat := off;
    var filled: nat := 0;
    InRun(runs, positions, i, off);
    while filled < buf.Length
      invariant filled <= buf.Length && at == off + filled
      invariant filled < buf.Length ==> i < |runs| && runs[i].start <= at < runs[i].start + runs[i].len
      invariant Copied(buf[..], filled, file, positions, off)
      decreases buf.Length - filled
    {
      var Placed(start, phys, runLen) := runs[i];
      var within := at - start;
      var take: nat := Min(runLen - within, buf.Length - filled);
      RunCopies(file, runs, positions, i, at, take);
      ghost var before := buf[..];
      ReadInto(file, phys + within, buf, filled, take);
      CopiedMore(before, buf[..], filled, take, file, positions, off, phys + within);
      filled := filled + take;
      at := at + take;
      i := i + 1;
      if filled < buf.Length { NextRun(runs, positions, i - 1, at); }
    }
    return true;
  }

  /** The first `n` bytes of the buffer are the window's. */
  predicate Copied(b: seq<Byte>, n: nat, file: seq<Byte>, positions: seq<nat>, off: nat) {
    && n <= |b| && off + n <= |positions|
    && forall x :: off <= x < off + n ==> positions[x] < |file| && b[x - off] == file[positions[x]]
  }

  lemma CopiedMore(before: seq<Byte>, after: seq<Byte>, filled: nat, take: nat, file: seq<Byte>, positions: seq<nat>,
                   off: nat, from: nat)
    requires Copied(before, filled, file, positions, off) && filled + take <= |after|
    requires off + filled + take <= |positions| && from + take <= |file|
    requires forall k :: 0 <= k < filled ==> after[k] == before[k]
    requires forall k :: filled <= k < filled + take ==> after[k] == file[from + (k - filled)]
    requires forall x :: off + filled <= x < off + filled + take ==> positions[x] == from + (x - off - filled)
    ensures Copied(after, filled + take, file, positions, off)
  {
    forall x | off <= x < off + filled + take ensures positions[x] < |file| && after[x - off] == file[positions[x]] {
      if x >= off + filled { assert after[x - off] == file[from + (x - off - filled)]; }
    }
  }

  lemma RunsNonEmpty(runs: seq<Placed>, positions: seq<nat>)
    requires Maps(runs, positions) && |positions| > 0
    ensures |runs| > 0 && runs[0].start == 0 && (|runs| == 1 ==> runs[0].len == |positions|)
  {
  }

  lemma RunCopies(file: seq<Byte>, runs: seq<Placed>, positions: seq<nat>, i: nat, at: nat, take: nat)
    requires Maps(runs, positions) && Fits(file, runs) && i < |runs|
    requires runs[i].start <= at && at + take <= runs[i].start + runs[i].len
    ensures at + take <= |positions| && runs[i].off + (at - runs[i].start) + take <= |file|
    ensures forall x :: at <= x < at + take ==> positions[x] == runs[i].off + (at - runs[i].start) + (x - at)
  {
  }

  lemma InRun(runs: seq<Placed>, positions: seq<nat>, i: nat, x: nat)
    requires Maps(runs, positions) && x < |positions| && i < |runs| && runs[i].start <= x
    requires i + 1 < |runs| ==> x < runs[i + 1].start
    ensures x < runs[i].start + runs[i].len
  {
  }

  lemma NextRun(runs: seq<Placed>, positions: seq<nat>, i: nat, x: nat)
    requires Maps(runs, positions) && x < |positions| && i < |runs| && x == runs[i].start + runs[i].len
    ensures i + 1 < |runs| && runs[i + 1].start == x < runs[i + 1].start + runs[i + 1].len
  {
  }

  /** The same in terms of the member's bytes: the buffer holds that window of the concatenated extents. */
  lemma ReadIsWindow(file: seq<Byte>, extents: seq<Run>, buf: seq<Byte>, off: nat)
    requires Inside(file, extents) && off + |buf| <= Total(extents)
    requires Copied(buf, |buf|, file, Positions(extents), off)
    ensures buf == Stitched(file, extents)[off..off + |buf|]
  {
    StitchedAtPositions(file, extents);
    hide Positions, Stitched;
    forall k | 0 <= k < |buf| ensures buf[k] == Stitched(file, extents)[off..off + |buf|][k] {
      assert Positions(extents)[off + k] < |file|;
    }
  }

  // ---- punching -------------------------------------------------------------------------

  /** Deallocate a physical range: it reads back as zeros, and nothing else moves. */
  function PunchHole(file: seq<Byte>, off: nat, n: nat): (r: seq<Byte>)
    requires off + n <= |file|
    ensures |r| == |file|
    ensures forall x :: 0 <= x < |file| ==> r[x] == if off <= x < off + n then 0 else file[x]
  {
    file[..off] + Zeros(n) + file[off + n..]
  }

  /** Zeros at exactly the listed positions. */
  predicate Erased(before: seq<Byte>, after: seq<Byte>, positions: seq<nat>) {
    && |after| == |before|
    && forall x :: 0 <= x < |before| ==> after[x] == if x in positions then 0 else before[x]
  }

  /** Destroy a logical range of a member: exactly the bytes a read of that range touches. */
  method PunchWithinMember(file: seq<Byte>, extents: seq<Run>, mLen: nat, off: nat, len: nat)
    returns (after: seq<Byte>, ok: bool)
    requires Inside(file, extents) && mLen == Total(extents)
    ensures ok <==> off + len <= mLen
    ensures ok ==> Erased(file, after, Positions(extents)[off..off + len])
    ensures !ok ==> after == file
  {
    hide Positions, Erased, Total, Inside, PunchHole;
    if off + len > mLen { return file, false; }
    ghost var p := Positions(extents);
    after := file;
    var remaining: nat := len;
    var at: nat := off;
    var logical: nat := 0;
    var i: nat := 0;
    NothingErased(file, p, off);
    assert extents[..0] == [];
    NoTotal();
    while i < |extents|
      invariant i <= |extents| && logical == Total(extents[..i])
      invariant remaining <= len && at == off + (len - remaining)
      invariant remaining > 0 ==> logical <= at
      invariant |after| == |file| && Erased(file, after, p[off..at])
    {
      if remaining == 0 { break; }
      TotalTo(extents, i);
      var run := extents[i];
      var start := logical;
      logical := logical + run.len;
      i := i + 1;
      if at >= logical { continue; }
      var within := at - start;
      var take: nat := Min(remaining, run.len - within);
      ErasedMore(file, after, extents, i - 1, off, at, take);
      after := PunchHole(after, run.off + within, take);
      at := at + take;
      remaining := remaining - take;
    }
    assert i == |extents| ==> extents[..i] == extents;
    return after, true;
  }

  lemma NothingErased(file: seq<Byte>, positions: seq<nat>, off: nat)
    requires off <= |positions|
    ensures Erased(file, file, positions[off..off])
  {
  }

  lemma NoTotal()
    ensures Total([]) == 0
  {
  }

  lemma {:induction false} TotalTo(extents: seq<Run>, i: nat)
    requires i < |extents|
    ensures Total(extents[..i + 1]) == Total(extents[..i]) + extents[i].len <= Total(extents)
  {
    assert extents[..i + 1] == extents[..i] + [extents[i]];
    TotalConcat(extents[..i], [extents[i]]);
    OneRun(extents[i]);
    assert extents == extents[..i + 1] + extents[i + 1..];
    TotalConcat(extents[..i + 1], extents[i + 1..]);
  }

  /** Where the bytes of the `i`-th extent lie. */
  lemma PositionAt(extents: seq<Run>, i: nat, j: nat)
    requires i < |extents| && j < extents[i].len
    ensures Total(extents[..i]) + j < |Positions(extents)|
    ensures Positions(extents)[Total(extents[..i]) + j] == extents[i].off + j
  {
    hide Positions, Total;
    var head, tail := extents[..i], extents[i + 1..];
    assert extents == head + ([extents[i]] + tail);
    TotalConcat(head, [extents[i]] + tail);
    TotalConcat([extents[i]], tail);
    OneRun(extents[i]);
  }

  lemma SliceSplit<T>(s: seq<T>, a: nat, b: nat, c: nat)
    requires a <= b <= c <= |s|
    ensures s[a..c] == s[a..b] + s[b..c]
  {
  }

  /** The positions of a window inside one run are consecutive. */
  lemma WindowOfRun(extents: seq<Run>, i: nat, at: nat, take: nat)
    requires i < |extents| && Total(extents[..i]) <= at
    requires at + take <= Total(extents[..i]) + extents[i].len <= Total(extents)
    ensures at + take <= |Positions(extents)|
    ensures var now := Positions(extents)[at..at + take];
            forall k :: 0 <= k < take ==> now[k] == extents[i].off + (at - Total(extents[..i])) + k
  {
    hide Positions, Total;
    var start := Total(extents[..i]);
    var now := Positions(extents)[at..at + take];
    forall k | 0 <= k < take ensures now[k] == extents[i].off + (at - start) + k {
      PositionAt(extents, i, at + k - start);
      assert now[k] == Positions(extents)[at + k];
    }
  }

  lemma ErasedMore(file: seq<Byte>, after: seq<Byte>, extents: seq<Run>, i: nat, off: nat, at: nat, take: nat)
    requires Inside(file, extents) && |after| == |file| && i < |extents| && off <= at
    requires Total(extents[..i]) <= at && at + take <= Total(extents[..i]) + extents[i].len <= Total(extents)
    requires Erased(file, after, Positions(extents)[off..at])
    ensures var from := extents[i].off + (at - Total(extents[..i]));
            from + take <= |file| && Erased(file, PunchHole(after, from, take), Positions(extents)[off..at + take])
  {
    hide Positions, Total, Erased, PunchHole;
    var p := Positions(extents);
    WindowOfRun(extents, i, at, take);
    SliceSplit(p, off, at, at + take);
    PunchedTogether(file, after, p[off..at], p[at..at + take], extents[i].off + (at - Total(extents[..i])), take);
  }

  lemma PunchedTogether(file: seq<Byte>, after: seq<Byte>, earlier: seq<nat>, now: seq<nat>, from: nat, take: nat)
    requires from + take <= |file| && Erased(file, after, earlier)
    requires |now| == take && forall k :: 0 <= k < take ==> now[k] == from + k
    ensures Erased(file, PunchHole(after, from, take), earlier + now)
  {
    forall x: nat | x < |file| ensures Listed(now, x) <==> from <= x < from + take {
      if from <= x < from + take { assert now[x - from] == x; }
    }
    var punched := PunchHole(after, from, take);
    forall x | 0 <= x < |file| ensures punched[x] == if x in earlier + now then 0 else file[x] {
      assert Listed(now, x) <==> from <= x < from + take;
    }
  }

  predicate Listed(now: seq<nat>, x: nat) { x in now }

  /** When no two bytes of the member share a place in the file, the member then reads as before outside the
      range and as zeros inside it. */
  lemma PunchedImage(file: seq<Byte>, after: seq<Byte>, extents: seq<Run>, off: nat, len: nat)
    requires Inside(file, extents) && off + len <= Total(extents)
    requires forall i, j :: 0 <= i < j < |Positions(extents)| ==> Positions(extents)[i] != Positions(extents)[j]
    requires Erased(file, after, Positions(extents)[off..off + len])
    ensures Inside(after, extents)
    ensures forall k :: 0 <= k < Total(extents) ==>
              Stitched(after, extents)[k] == if off <= k < off + len then 0 else Stitched(file, extents)[k]
  {
    StitchedAtPositions(file, extents);
    StitchedAtPositions(after, extents);
    hide Positions, Stitched, Total;
    var p := Positions(extents);
    forall k | 0 <= k < |p| ensures p[k] in p[off..off + len] <==> off <= k < off + len {
      if off <= k < off + len { assert p[off..off + len][k - off] == p[k]; }
      if p[k] in p[off..off + len] {
        var j :| 0 <= j < len && p[off..off + len][j] == p[k];
        assert p[off + j] == p[k];
      }
    }
  }
}
