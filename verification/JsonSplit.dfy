/** Splitting the text of a JSON array into its top-level elements, string- and escape-aware. */
module JsonSplit {
  import opened Bytes

  const QUOTE: nat := 34
  const COMMA: nat := 44
  const BACKSLASH: nat := 92
  const OPEN_BRACKET: nat := 91
  const CLOSE_BRACKET: nat := 93
  const OPEN_BRACE: nat := 123
  const CLOSE_BRACE: nat := 125

  datatype Range = Range(start: nat, end: nat)

  /** Space, tab, line feed, form feed and carriage return. */
  predicate AsciiWhitespace(c: Byte) { c == 32 || c == 9 || c == 10 || c == 12 || c == 13 }

  /** The scanner between two bytes. */
  datatype Scanner = Scanner(depth: int, inStr: bool, esc: bool, start: Option<nat>, out: seq<Range>) {
    /** The element under way ends at `i`. */
    function Closed(i: nat): seq<Range> {
      if start.Some? then out + [Range(start.value, i)] else out
    }

    function Begun(i: nat): Scanner { if start.Some? then this else this.(start := Some(i)) }
  }

  datatype Turn = Finish(out: seq<Range>) | Go(next: Scanner)

  function Step(sc: Scanner, c: Byte, i: nat): Turn {
    if sc.inStr then
      if sc.esc then Go(sc.(esc := false))
      else if c == BACKSLASH then Go(sc.(esc := true))
      else if c == QUOTE then Go(sc.(inStr := false))
      else Go(sc)
    else if c == QUOTE then Go(sc.Begun(i).(inStr := true))
    else if c == OPEN_BRACKET || c == OPEN_BRACE then Go(sc.Begun(i).(depth := sc.depth + 1))
    else if c == CLOSE_BRACKET || c == CLOSE_BRACE then
      if sc.depth == 0 && c == CLOSE_BRACKET then Finish(sc.Closed(i))
      else Go(sc.(depth := sc.depth - 1))
    else if c == COMMA && sc.depth == 0 then Go(sc.(out := sc.Closed(i), start := None))
    else if AsciiWhitespace(c) then Go(sc)
    else Go(sc.Begun(i))
  }

  /** The ranges found and the position of the closing bracket, scanning on from `i`. */
  function Scan(s: seq<Byte>, i: nat, sc: Scanner): Option<(seq<Range>, nat)>
    decreases |s| - i
  {
    if i >= |s| then None
    else
      match Step(sc, s[i], i)
      case Finish(out) => Some((out, i))
      case Go(next) => Scan(s, i + 1, next)
  }

  function SkipWhitespace(s: seq<Byte>, i: nat): (j: nat)
    ensures i <= j && (i <= |s| ==> j <= |s|)
    decreases |s| - i
  {
    if i < |s| && AsciiWhitespace(s[i]) then SkipWhitespace(s, i + 1) else i
  }

  const START := Scanner(0, false, false, None, [])

  function Split(s: seq<Byte>): Option<(seq<Range>, nat)> {
    var i := SkipWhitespace(s, 0);
    if i >= |s| || s[i] != OPEN_BRACKET then None else Scan(s, i + 1, START)
  }

  method SplitJsonArray(s: seq<Byte>) returns (r: Option<seq<Range>>)
    ensures r == match Split(s) case None => None case Some(t) => Some(t.0)
  {
    var i := 0;
    while i < |s| && AsciiWhitespace(s[i])
      invariant i <= |s| && SkipWhitespace(s, 0) == SkipWhitespace(s, i)
    {
      i := i + 1;
    }
    if i >= |s| || s[i] != OPEN_BRACKET { return None; }
    i := i + 1;
    var out: seq<Range> := [];
    var depth, inStr, esc := 0, false, false;
    var start: Option<nat> := None;
    while i < |s|
      invariant i <= |s|
      invariant Split(s) == Scan(s, i, Scanner(depth, inStr, esc, start, out))
      decreases |s| - i
    {
      var c := s[i];
      if inStr {
        if esc {
          esc := false;
        } else if c == BACKSLASH {
          esc := true;
        } else if c == QUOTE {
          inStr := false;
        }
      } else if c == QUOTE {
        inStr := true;
        if start.None? { start := Some(i); }
      } else if c == OPEN_BRACKET || c == OPEN_BRACE {
        if start.None? { start := Some(i); }
        depth := depth + 1;
      } else if c == CLOSE_BRACKET || c == CLOSE_BRACE {
        if depth == 0 && c == CLOSE_BRACKET {
          if start.Some? { out := out + [Range(start.value, i)]; }
          return Some(out);
        }
        depth := depth - 1;
      } else if c == COMMA && depth == 0 {
        if start.Some? {
          out := out + [Range(start.value, i)];
          start := None;
        }
      } else if AsciiWhitespace(c) {
      } else {
        if start.None? { start := Some(i); }
      }
      i := i + 1;
    }
    return None;
  }

  // ---- every successful split -----------------------------------------------------------

  /** Ranges in order, disjoint, non-empty, and inside `[lo, hi)`. */
  predicate Ordered(out: seq<Range>, lo: nat, hi: nat) {
    && (forall k :: 0 <= k < |out| ==> lo <= out[k].start < out[k].end <= hi)
    && (forall j, k :: 0 <= j < k < |out| ==> out[j].end < out[k].start)
  }

  /** What order depends on: the ranges so far, and where the element under way began. */
  predicate Sane(out: seq<Range>, start: Option<nat>, lo: nat, i: nat) {
    && Ordered(out, lo, i)
    && (forall k :: 0 <= k < |out| ==> out[k].end < i)
    && (start.Some? ==> lo <= start.value < i)
    && (start.Some? ==> forall k :: 0 <= k < |out| ==> out[k].end < start.value)
  }

  /** A step leaves the ranges and start alone, begins an element here, or ends one here. */
  lemma StepShapes(sc: Scanner, c: Byte, i: nat)
    ensures Step(sc, c, i).Finish? ==> Step(sc, c, i).out == sc.Closed(i)
    ensures Step(sc, c, i).Go? ==>
              var next := Step(sc, c, i).next;
              || (next.out == sc.out && next.start == sc.start)
              || (next.out == sc.out && sc.start.None? && next.start == Some(i))
              || (next.out == sc.Closed(i) && next.start.None?)
  {
  }

  lemma SaneSteps(sc: Scanner, lo: nat, i: nat)
    requires lo <= i && Sane(sc.out, sc.start, lo, i)
    ensures Ordered(sc.Closed(i), lo, i)
    ensures Sane(sc.out, sc.start, lo, i + 1) && Sane(sc.Closed(i), None, lo, i + 1)
    ensures sc.start.None? ==> Sane(sc.out, Some(i), lo, i + 1)
  {
  }

  lemma {:induction false} ScanKeepsOrder(s: seq<Byte>, i: nat, sc: Scanner, lo: nat)
    requires lo <= i <= |s| && Sane(sc.out, sc.start, lo, i)
    ensures Scan(s, i, sc).Some? ==>
              i <= Scan(s, i, sc).value.1 < |s| && Ordered(Scan(s, i, sc).value.0, lo, Scan(s, i, sc).value.1)
    decreases |s| - i
  {
    hide Step, Sane, Ordered;
    if i < |s| {
      StepShapes(sc, s[i], i);
      SaneSteps(sc, lo, i);
      if Step(sc, s[i], i).Go? { ScanKeepsOrder(s, i + 1, Step(sc, s[i], i).next, lo); }
    }
  }

  /** Whatever the body, a successful split yields ordered, disjoint, non-empty ranges between the brackets. */
  lemma SplitIsOrdered(s: seq<Byte>)
    ensures Split(s).Some? ==>
              Split(s).value.1 < |s| && s[Split(s).value.1] == CLOSE_BRACKET
              && Ordered(Split(s).value.0, 1, Split(s).value.1)
  {
    var i := SkipWhitespace(s, 0);
    if i < |s| && s[i] == OPEN_BRACKET {
      ScanKeepsOrder(s, i + 1, START, 1);
      ScanEndsAtBracket(s, i + 1, START);
    }
  }

  lemma {:induction false} ScanEndsAtBracket(s: seq<Byte>, i: nat, sc: Scanner)
    ensures Scan(s, i, sc).Some? ==> Scan(s, i, sc).value.1 < |s| && s[Scan(s, i, sc).value.1] == CLOSE_BRACKET
    decreases |s| - i
  {
    if i < |s| && Step(sc, s[i], i).Go? { ScanEndsAtBracket(s, i + 1, Step(sc, s[i], i).next); }
  }

  // ---- append stability -----------------------------------------------------------------

  lemma {:induction false} ScanOnlyAppends(s: seq<Byte>, i: nat, sc: Scanner)
    ensures Scan(s, i, sc).Some? ==> sc.out <= Scan(s, i, sc).value.0
    decreases |s| - i
  {
    if i < |s| && Step(sc, s[i], i).Go? { ScanOnlyAppends(s, i + 1, Step(sc, s[i], i).next); }
  }

  /** Two texts that agree below `m`: if one closes at `m`, the other reaches `m` with the same state. */
  lemma {:induction false} ScanToClose(a: seq<Byte>, b: seq<Byte>, m: nat, i: nat, sc: Scanner) returns (at: Scanner)
    requires i <= m < |a| && m < |b| && a[..m] == b[..m]
    requires Scan(a, i, sc).Some? && Scan(a, i, sc).value.1 == m
    ensures !at.inStr && at.depth == 0 && Scan(a, i, sc).value.0 == at.Closed(m)
    ensures Scan(b, i, sc) == Scan(b, m, at)
    decreases m - i
  {
    if i == m {
      at := sc;
      LaterClose(a, m, sc);
    } else {
      assert a[i] == a[..m][i] == b[i];
      at := ScanToClose(a, b, m, i + 1, Step(sc, a[i], i).next);
    }
  }

  /** A scan that closes at the byte it is on found a bracket at depth zero outside any string. */
  lemma LaterClose(s: seq<Byte>, m: nat, sc: Scanner)
    requires m < |s| && Scan(s, m, sc).Some? && Scan(s, m, sc).value.1 == m
    ensures !sc.inStr && sc.depth == 0 && Scan(s, m, sc).value.0 == sc.Closed(m)
  {
    if Step(sc, s[m], m).Go? { ScanMoves(s, m + 1, Step(sc, s[m], m).next); }
  }

  lemma {:induction false} ScanMoves(s: seq<Byte>, i: nat, sc: Scanner)
    ensures Scan(s, i, sc).Some? ==> Scan(s, i, sc).value.1 >= i
    decreases |s| - i
  {
    if i < |s| && Step(sc, s[i], i).Go? { ScanMoves(s, i + 1, Step(sc, s[i], i).next); }
  }

  lemma {:induction false} SameSkip(a: seq<Byte>, b: seq<Byte>, m: nat, i: nat)
    requires i <= m < |a| && m < |b| && a[..m] == b[..m] && SkipWhitespace(a, i) < m
    ensures SkipWhitespace(b, i) == SkipWhitespace(a, i)
    decreases m - i
  {
    if i < m {
      assert a[i] == a[..m][i] == b[i];
      if AsciiWhitespace(a[i]) { SameSkip(a, b, m, i + 1); }
    }
  }

  /** Appending an element: when `p]` closes at its last byte, every successful split of `p,` and anything
      after it begins with the very same ranges. */
  lemma AppendIsStable(p: seq<Byte>, rest: seq<Byte>)
    requires Split(p + [CLOSE_BRACKET]).Some? && Split(p + [CLOSE_BRACKET]).value.1 == |p|
    ensures Split(p + [COMMA] + rest).Some? ==>
              Split(p + [CLOSE_BRACKET]).value.0 <= Split(p + [COMMA] + rest).value.0
  {
    var a, b, m := p + [CLOSE_BRACKET], p + [COMMA] + rest, |p|;
    assert a[..m] == p == b[..m];
    var i := SkipWhitespace(a, 0);
    ScanMoves(a, i + 1, START);
    SameSkip(a, b, m, 0);
    assert a[i] == a[..m][i] == b[i];
    var at := ScanToClose(a, b, m, i + 1, START);
    assert b[m] == COMMA;
    var next := at.(out := at.Closed(m), start := None);
    assert Step(at, COMMA, m) == Go(next);
    ScanOnlyAppends(b, m + 1, next);
  }
}
