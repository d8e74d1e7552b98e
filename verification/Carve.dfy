/** Carving a body into spans: pieces to fold and literals to keep inline. */
module Carving {
  import opened Bytes
  import opened JsonSplit
  import opened Chunker
  import JsonText

  datatype Carve = Messages(intra: Option<nat>) | Cdc(target: nat) | Whole | Inline

  datatype Span = Span(foldable: bool, range: Range)

  const FALLBACK_TARGET: nat := 4096
  const MIN_TARGET: nat := 64

  function Pieces(rs: seq<Range>, offset: nat): seq<Span> {
    if |rs| == 0 then []
    else [Span(true, Range(rs[0].start + offset, rs[0].end + offset))] + Pieces(rs[1..], offset)
  }

  /** One element as a piece, or chunked inside when it is larger than `intra`. */
  function ElementSpans(g: Gear, intra: Option<nat>, body: seq<Byte>, r: Range): seq<Span>
    requires r.start <= r.end <= |body|
  {
    if intra.Some? && r.end - r.start > intra.value
    then Pieces(Chunks(g, Max(intra.value, MIN_TARGET), body[r.start..r.end], 0), r.start)
    else [Span(true, r)]
  }

  /** The elements as pieces and the punctuation between them inline, from `cur` on. */
  function MessageSpans(g: Gear, intra: Option<nat>, body: seq<Byte>, es: seq<Range>, cur: nat): seq<Span>
    requires Ordered(es, cur, |body|) && cur <= |body|
    decreases |es|
  {
    if |es| == 0 then (if cur < |body| then [Span(false, Range(cur, |body|))] else [])
    else
      (if es[0].start > cur then [Span(false, Range(cur, es[0].start))] else [])
      + ElementSpans(g, intra, body, es[0])
      + MessageSpans(g, intra, body, es[1..], es[0].end)
  }

  function Spans(c: Carve, g: Gear, body: seq<Byte>): seq<Span> {
    if |body| == 0 then []
    else
      match c
      case Inline => [Span(false, Range(0, |body|))]
      case Whole => [Span(true, Range(0, |body|))]
      case Cdc(target) => Pieces(Chunks(g, Max(target, MIN_TARGET), body, 0), 0)
      case Messages(intra) =>
        SplitIsOrdered(body);
        if Split(body).Some? && |Split(body).value.0| > 0 then
          OrderedWider(Split(body).value.0, Split(body).value.1, |body|);
          MessageSpans(g, intra, body, Split(body).value.0, 0)
        else Pieces(Chunks(g, FALLBACK_TARGET, body, 0), 0)
  }

  lemma OrderedWider(es: seq<Range>, m: nat, n: nat)
    requires Ordered(es, 1, m) && m <= n
    ensures Ordered(es, 0, n)
  {
  }

  method Ranges(c: Carve, g: Gear, body: seq<Byte>) returns (out: seq<Span>)
    ensures out == Spans(c, g, body)
  {
    hide Chunks, Split;
    if |body| == 0 { return []; }
    match c {
      case Inline => return [Span(false, Range(0, |body|))];
      case Whole => return [Span(true, Range(0, |body|))];
      case Cdc(target) =>
        var chunks := GearRanges(g, body, Max(target, MIN_TARGET));
        out := AsPieces(chunks, 0);
      case Messages(intra) =>
        var elems := SplitJsonArray(body);
        SplitIsOrdered(body);
        if elems.Some? && |elems.value| > 0 {
          OrderedWider(elems.value, Split(body).value.1, |body|);
          out := CarveElements(g, intra, body, elems.value);
        } else {
          var chunks := GearRanges(g, body, FALLBACK_TARGET);
          out := AsPieces(chunks, 0);
        }
    }
  }

  method AsPieces(chunks: seq<Range>, offset: nat) returns (out: seq<Span>)
    ensures out == Pieces(chunks, offset)
  {
    out := [];
    var i := 0;
    while i < |chunks|
      invariant i <= |chunks| && Pieces(chunks, offset) == out + Pieces(chunks[i..], offset)
    {
      assert chunks[i..][1..] == chunks[i + 1..];
      out := out + [Span(true, Range(chunks[i].start + offset, chunks[i].end + offset))];
      i := i + 1;
    }
  }

  method CarveElements(g: Gear, intra: Option<nat>, body: seq<Byte>, es: seq<Range>) returns (out: seq<Span>)
    requires Ordered(es, 0, |body|)
    ensures out == MessageSpans(g, intra, body, es, 0)
  {
    hide ElementSpans, MessageSpans, Ordered;
    out := [];
    var cur: nat := 0;
    var i := 0;
    assert es[0..] == es;
    assert [] + MessageSpans(g, intra, body, es, 0) == MessageSpans(g, intra, body, es, 0);
    while i < |es|
      invariant i <= |es| && cur <= |body| && Ordered(es[i..], cur, |body|)
      invariant MessageSpans(g, intra, body, es, 0) == out + MessageSpans(g, intra, body, es[i..], cur)
    {
      MessageStep(g, intra, body, es, i, cur, out);
      var Range(a, b) := es[i];
      var mine := CarveElement(g, intra, body, es[i]);
      if a > cur { out := out + [Span(false, Range(cur, a))]; }
      out := out + mine;
      cur := b;
      i := i + 1;
    }
    MessageTail(g, intra, body, es[i..], cur);
    if cur < |body| { out := out + [Span(false, Range(cur, |body|))]; }
  }

  lemma MessageTail(g: Gear, intra: Option<nat>, body: seq<Byte>, es: seq<Range>, cur: nat)
    requires |es| == 0 && cur <= |body|
    ensures Ordered(es, cur, |body|)
    ensures MessageSpans(g, intra, body, es, cur) == if cur < |body| then [Span(false, Range(cur, |body|))] else []
  {
  }

  /** The spans one element adds: the literal before it, if any, and its own. */
  function Through(g: Gear, intra: Option<nat>, body: seq<Byte>, r: Range, cur: nat): seq<Span>
    requires r.start <= r.end <= |body|
  {
    (if r.start > cur then [Span(false, Range(cur, r.start))] else []) + ElementSpans(g, intra, body, r)
  }

  lemma MessageStep(g: Gear, intra: Option<nat>, body: seq<Byte>, es: seq<Range>, i: nat, cur: nat, out: seq<Span>)
    requires i < |es| && cur <= |body| && Ordered(es[i..], cur, |body|)
    ensures cur <= es[i].start < es[i].end <= |body| && Ordered(es[i + 1..], es[i].end, |body|)
    ensures out + MessageSpans(g, intra, body, es[i..], cur)
         == (if es[i].start > cur then out + [Span(false, Range(cur, es[i].start))] else out)
            + ElementSpans(g, intra, body, es[i]) + MessageSpans(g, intra, body, es[i + 1..], es[i].end)
  {
    hide ElementSpans;
    assert es[i..][0] == es[i] && es[i..][1..] == es[i + 1..];
    var rest := MessageSpans(g, intra, body, es[i + 1..], es[i].end);
    var mine := ElementSpans(g, intra, body, es[i]);
    Regroup(out, Through(g, intra, body, es[i], cur), rest);
    if es[i].start > cur {
      Regroup(out, [Span(false, Range(cur, es[i].start))], mine);
    } else {
      assert [] + mine == mine;
    }
  }

  lemma Regroup(a: seq<Span>, b: seq<Span>, c: seq<Span>)
    ensures a + (b + c) == a + b + c
  {
  }

  method CarveElement(g: Gear, intra: Option<nat>, body: seq<Byte>, r: Range) returns (out: seq<Span>)
    requires r.start <= r.end <= |body|
    ensures out == ElementSpans(g, intra, body, r)
  {
    if intra.Some? && r.end - r.start > intra.value {
      var chunks := GearRanges(g, body[r.start..r.end], Max(intra.value, MIN_TARGET));
      out := AsPieces(chunks, r.start);
    } else {
      out := [Span(true, r)];
    }
  }

  // ---- every carve partitions the body --------------------------------------------------

  /** Non-empty spans laid end to end from `lo` to `hi`. */
  predicate Tiles(spans: seq<Span>, lo: nat, hi: nat)
    decreases |spans|
  {
    if |spans| == 0 then lo == hi
    else spans[0].range.start == lo && lo < spans[0].range.end <= hi && Tiles(spans[1..], spans[0].range.end, hi)
  }

  lemma {:induction false} TilesConcat(a: seq<Span>, b: seq<Span>, lo: nat, mid: nat, hi: nat)
    requires Tiles(a, lo, mid) && Tiles(b, mid, hi) && mid <= hi
    ensures Tiles(a + b, lo, hi)
    decreases |a|
  {
    if |a| == 0 {
      assert a + b == b;
    } else {
      assert (a + b)[1..] == a[1..] + b;
      TilesConcat(a[1..], b, a[0].range.end, mid, hi);
    }
  }

  lemma {:induction false} PiecesTile(rs: seq<Range>, lo: nat, hi: nat, offset: nat)
    requires Partition(rs, lo, hi)
    ensures Tiles(Pieces(rs, offset), lo + offset, hi + offset)
    decreases |rs|
  {
    if |rs| > 0 {
      PiecesTile(rs[1..], rs[0].end, hi, offset);
      assert Pieces(rs, offset)[1..] == Pieces(rs[1..], offset);
    }
  }

  lemma ElementTiles(g: Gear, intra: Option<nat>, body: seq<Byte>, r: Range)
    requires r.start < r.end <= |body|
    ensures Tiles(ElementSpans(g, intra, body, r), r.start, r.end)
  {
    if intra.Some? && r.end - r.start > intra.value {
      var part := body[r.start..r.end];
      ChunksPartition(g, Max(intra.value, MIN_TARGET), part, 0);
      PiecesTile(Chunks(g, Max(intra.value, MIN_TARGET), part, 0), 0, |part|, r.start);
    } else {
      assert [Span(true, r)][1..] == [];
    }
  }

  lemma LiteralTiles(lo: nat, hi: nat)
    requires lo <= hi
    ensures Tiles(if hi > lo then [Span(false, Range(lo, hi))] else [], lo, hi)
  {
    assert hi > lo ==> [Span(false, Range(lo, hi))][1..] == [];
  }

  lemma {:induction false} MessagesTile(g: Gear, intra: Option<nat>, body: seq<Byte>, es: seq<Range>, cur: nat)
    requires Ordered(es, cur, |body|) && cur <= |body|
    ensures Tiles(MessageSpans(g, intra, body, es, cur), cur, |body|)
    decreases |es|
  {
    hide ElementSpans, Tiles;
    if |es| == 0 {
      LiteralTiles(cur, |body|);
    } else {
      var Range(a, b) := es[0];
      var lit := if a > cur then [Span(false, Range(cur, a))] else [];
      LiteralTiles(cur, a);
      var mine := ElementSpans(g, intra, body, es[0]);
      ElementTiles(g, intra, body, es[0]);
      MessagesTile(g, intra, body, es[1..], b);
      TilesConcat(lit, mine, cur, a, b);
      TilesConcat(lit + mine, MessageSpans(g, intra, body, es[1..], b), cur, b, |body|);
    }
  }

  /** Every strategy tiles every body: spans are non-empty, in order, and leave no gap. */
  lemma EveryCarveTiles(c: Carve, g: Gear, body: seq<Byte>)
    ensures Tiles(Spans(c, g, body), 0, |body|)
  {
    hide Chunks, ElementSpans, Split;
    if |body| > 0 {
      match c {
        case Inline => assert [Span(false, Range(0, |body|))][1..] == [];
        case Whole => assert [Span(true, Range(0, |body|))][1..] == [];
        case Cdc(target) => ChunksTile(g, Max(target, MIN_TARGET), body);
        case Messages(intra) =>
          SplitIsOrdered(body);
          if Split(body).Some? && |Split(body).value.0| > 0 {
            OrderedWider(Split(body).value.0, Split(body).value.1, |body|);
            MessagesTile(g, intra, body, Split(body).value.0, 0);
          } else {
            ChunksTile(g, FALLBACK_TARGET, body);
          }
      }
    }
  }

  lemma ChunksTile(g: Gear, avg: nat, body: seq<Byte>)
    requires avg >= 64
    ensures Tiles(Pieces(Chunks(g, avg, body, 0), 0), 0, |body|)
  {
    ChunksPartition(g, avg, body, 0);
    PiecesTile(Chunks(g, avg, body, 0), 0, |body|, 0);
  }

  /** The bytes of spans that tile `[lo, hi)`, one after the other. */
  function Assembled(body: seq<Byte>, spans: seq<Span>, lo: nat, hi: nat): seq<Byte>
    requires Tiles(spans, lo, hi) && hi <= |body|
    decreases |spans|
  {
    if |spans| == 0 then []
    else body[spans[0].range.start..spans[0].range.end] + Assembled(body, spans[1..], spans[0].range.end, hi)
  }

  lemma {:induction false} TilesAreOrdered(spans: seq<Span>, lo: nat, hi: nat)
    requires Tiles(spans, lo, hi)
    ensures lo <= hi
    decreases |spans|
  {
    if |spans| > 0 { TilesAreOrdered(spans[1..], spans[0].range.end, hi); }
  }

  lemma {:induction false} TilesAssemble(body: seq<Byte>, spans: seq<Span>, lo: nat, hi: nat)
    requires Tiles(spans, lo, hi) && hi <= |body|
    ensures lo <= hi && Assembled(body, spans, lo, hi) == body[lo..hi]
    decreases |spans|
  {
    if |spans| > 0 {
      var mid := spans[0].range.end;
      TilesAssemble(body, spans[1..], mid, hi);
      assert body[lo..hi] == body[lo..mid] + body[mid..hi];
    }
  }

  // ---- a resent conversation ------------------------------------------------------------

  predicate InBody(body: seq<Byte>, spans: seq<Span>) {
    forall k :: 0 <= k < |spans| ==> spans[k].range.start <= spans[k].range.end <= |body|
  }

  /** The bytes of the foldable spans, in order. */
  function Folded(body: seq<Byte>, spans: seq<Span>): seq<seq<Byte>>
    requires InBody(body, spans)
  {
    if |spans| == 0 then []
    else if spans[0].foldable
    then [body[spans[0].range.start..spans[0].range.end]] + Folded(body, spans[1..])
    else Folded(body, spans[1..])
  }

  lemma {:induction false} TilesInBody(body: seq<Byte>, spans: seq<Span>, lo: nat, hi: nat)
    requires Tiles(spans, lo, hi) && hi <= |body|
    ensures InBody(body, spans)
    decreases |spans|
  {
    if |spans| > 0 {
      TilesInBody(body, spans[1..], spans[0].range.end, hi);
      assert spans == [spans[0]] + spans[1..];
    }
  }

  lemma {:induction false} FoldedConcat(body: seq<Byte>, a: seq<Span>, b: seq<Span>)
    requires InBody(body, a) && InBody(body, b)
    ensures InBody(body, a + b) && Folded(body, a + b) == Folded(body, a) + Folded(body, b)
    decreases |a|
  {
    if |a| == 0 {
      assert a + b == b;
    } else {
      assert (a + b)[1..] == a[1..] + b;
      FoldedConcat(body, a[1..], b);
    }
  }

  /** What the elements themselves fold, element after element. */
  function ElementPieces(g: Gear, intra: Option<nat>, body: seq<Byte>, es: seq<Range>): seq<seq<Byte>>
    requires forall k :: 0 <= k < |es| ==> es[k].start < es[k].end <= |body|
    decreases |es|
  {
    if |es| == 0 then []
    else
      ElementTiles(g, intra, body, es[0]);
      TilesInBody(body, ElementSpans(g, intra, body, es[0]), es[0].start, es[0].end);
      Folded(body, ElementSpans(g, intra, body, es[0])) + ElementPieces(g, intra, body, es[1..])
  }

  lemma {:induction false} MessagesFoldElements(g: Gear, intra: Option<nat>, body: seq<Byte>, es: seq<Range>, cur: nat)
    requires Ordered(es, cur, |body|) && cur <= |body|
    ensures InBody(body, MessageSpans(g, intra, body, es, cur))
    ensures Folded(body, MessageSpans(g, intra, body, es, cur)) == ElementPieces(g, intra, body, es)
    decreases |es|
  {
    hide ElementSpans;
    MessagesTile(g, intra, body, es, cur);
    TilesInBody(body, MessageSpans(g, intra, body, es, cur), cur, |body|);
    if |es| == 0 {
      assert cur < |body| ==> [Span(false, Range(cur, |body|))][1..] == [];
    } else {
      var Range(a, b) := es[0];
      var lit := if a > cur then [Span(false, Range(cur, a))] else [];
      assert a > cur ==> lit[1..] == [];
      var mine := ElementSpans(g, intra, body, es[0]);
      var rest := MessageSpans(g, intra, body, es[1..], b);
      ElementTiles(g, intra, body, es[0]);
      TilesInBody(body, mine, a, b);
      MessagesFoldElements(g, intra, body, es[1..], b);
      FoldedConcat(body, lit, mine);
      FoldedConcat(body, lit + mine, rest);
      assert Folded(body, lit) == [];
    }
  }

  /** An element's pieces depend only on its own bytes. */
  lemma ElementPiecesLocal(g: Gear, intra: Option<nat>, a: seq<Byte>, b: seq<Byte>, r: Range)
    requires r.start < r.end <= |a| && r.end <= |b| && a[..r.end] == b[..r.end]
    ensures ElementSpans(g, intra, a, r) == ElementSpans(g, intra, b, r)
    ensures InBody(a, ElementSpans(g, intra, a, r)) && InBody(b, ElementSpans(g, intra, b, r))
    ensures Folded(a, ElementSpans(g, intra, a, r)) == Folded(b, ElementSpans(g, intra, b, r))
  {
    assert a[r.start..r.end] == a[..r.end][r.start..] == b[r.start..r.end];
    ElementTiles(g, intra, a, r);
    TilesInBody(a, ElementSpans(g, intra, a, r), r.start, r.end);
    TilesInBody(b, ElementSpans(g, intra, a, r), r.start, r.end);
    FoldedLocal(a, b, ElementSpans(g, intra, a, r), r.start, r.end);
  }

  lemma {:induction false} FoldedLocal(a: seq<Byte>, b: seq<Byte>, spans: seq<Span>, lo: nat, hi: nat)
    requires Tiles(spans, lo, hi) && hi <= |a| && hi <= |b| && a[..hi] == b[..hi]
    requires InBody(a, spans) && InBody(b, spans)
    ensures Folded(a, spans) == Folded(b, spans)
    decreases |spans|
  {
    if |spans| > 0 {
      var Range(x, y) := spans[0].range;
      TilesAreOrdered(spans[1..], y, hi);
      assert a[x..y] == a[..hi][x..y] == b[..hi][x..y] == b[x..y];
      FoldedLocal(a, b, spans[1..], y, hi);
    }
  }

  lemma {:induction false} MoreElementsMorePieces(g: Gear, intra: Option<nat>, a: seq<Byte>, b: seq<Byte>, m: nat,
                                                 es: seq<Range>, more: seq<Range>)
    requires m <= |a| && m <= |b| && a[..m] == b[..m]
    requires forall k :: 0 <= k < |es| ==> es[k].start < es[k].end <= m
    requires forall k :: 0 <= k < |more| ==> more[k].start < more[k].end <= |b|
    requires es <= more
    ensures ElementPieces(g, intra, a, es) <= ElementPieces(g, intra, b, more)
    decreases |es|
  {
    hide ElementSpans;
    if |es| > 0 {
      var r := es[0];
      assert more[0] == r;
      assert a[..r.end] == a[..m][..r.end] == b[..m][..r.end] == b[..r.end];
      ElementPiecesLocal(g, intra, a, b, r);
      assert es[1..] <= more[1..];
      MoreElementsMorePieces(g, intra, a, b, m, es[1..], more[1..]);
      PrefixUnder(Folded(a, ElementSpans(g, intra, a, r)), ElementPieces(g, intra, a, es[1..]),
                  ElementPieces(g, intra, b, more[1..]));
    }
  }

  lemma PrefixUnder<T>(p: seq<T>, a: seq<T>, b: seq<T>)
    requires a <= b
    ensures p + a <= p + b
  {
  }

  // ---- which bytes fold -----------------------------------------------------------------

  /** The stretches of the body that ranges cut out. */
  function Texts(body: seq<Byte>, es: seq<Range>): seq<seq<Byte>>
    requires forall k :: 0 <= k < |es| ==> es[k].start <= es[k].end <= |body|
  {
    seq(|es|, k requires 0 <= k < |es| => body[es[k].start..es[k].end])
  }

  function Joined(ps: seq<seq<Byte>>): seq<Byte> {
    if |ps| == 0 then [] else ps[0] + Joined(ps[1..])
  }

  lemma {:induction false} JoinedConcat(a: seq<seq<Byte>>, b: seq<seq<Byte>>)
    ensures Joined(a + b) == Joined(a) + Joined(b)
    decreases |a|
  {
    if |a| == 0 {
      assert a + b == b;
    } else {
      assert (a + b)[1..] == a[1..] + b;
      JoinedConcat(a[1..], b);
    }
  }

  /** Byte `i` lies in a foldable span. */
  ghost predicate Foldable(spans: seq<Span>, i: nat) {
    exists s :: s in spans && s.foldable && s.range.start <= i < s.range.end
  }

  ghost predicate InSome(es: seq<Range>, i: nat) {
    exists r :: r in es && r.start <= i < r.end
  }

  predicate AllFoldable(spans: seq<Span>) {
    forall k :: 0 <= k < |spans| ==> spans[k].foldable
  }

  lemma {:induction false} PiecesAre(rs: seq<Range>, offset: nat)
    ensures |Pieces(rs, offset)| == |rs|
    ensures forall k :: 0 <= k < |rs| ==> Pieces(rs, offset)[k] == Span(true, Range(rs[k].start + offset, rs[k].end + offset))
  {
    if |rs| > 0 { PiecesAre(rs[1..], offset); }
  }

  lemma ElementAllFoldable(g: Gear, intra: Option<nat>, body: seq<Byte>, r: Range)
    requires r.start <= r.end <= |body|
    ensures AllFoldable(ElementSpans(g, intra, body, r))
  {
    hide Chunks;
    if intra.Some? && r.end - r.start > intra.value {
      PiecesAre(Chunks(g, Max(intra.value, MIN_TARGET), body[r.start..r.end], 0), r.start);
    }
  }

  lemma {:induction false} AllFoldableJoins(body: seq<Byte>, spans: seq<Span>, lo: nat, hi: nat)
    requires Tiles(spans, lo, hi) && hi <= |body| && AllFoldable(spans) && InBody(body, spans)
    ensures lo <= hi && Joined(Folded(body, spans)) == body[lo..hi]
    ensures forall i: nat :: Foldable(spans, i) <==> lo <= i < hi
    decreases |spans|
  {
    TilesAreOrdered(spans, lo, hi);
    if |spans| > 0 {
      var mid := spans[0].range.end;
      AllFoldableJoins(body, spans[1..], mid, hi);
      assert body[lo..hi] == body[lo..mid] + body[mid..hi];
      assert spans == [spans[0]] + spans[1..];
      forall i: nat ensures Foldable(spans, i) <==> lo <= i < hi {
        assert Foldable(spans[1..], i) <==> mid <= i < hi;
        assert lo <= i < mid ==> spans[0] in spans;
      }
    }
  }

  /** An element folds all of its own bytes and no others, and in one piece when it is small enough. */
  lemma ElementFolds(g: Gear, intra: Option<nat>, body: seq<Byte>, r: Range)
    requires r.start < r.end <= |body|
    ensures var mine := ElementSpans(g, intra, body, r);
            && InBody(body, mine)
            && Joined(Folded(body, mine)) == body[r.start..r.end]
            && (Small(intra, r) ==> Folded(body, mine) == [body[r.start..r.end]])
            && forall i: nat :: Foldable(mine, i) <==> r.start <= i < r.end
  {
    hide ElementSpans;
    var mine := ElementSpans(g, intra, body, r);
    ElementTiles(g, intra, body, r);
    TilesInBody(body, mine, r.start, r.end);
    ElementAllFoldable(g, intra, body, r);
    AllFoldableJoins(body, mine, r.start, r.end);
    if Small(intra, r) { SmallIsOneSpan(g, intra, body, r); }
  }

  predicate Small(intra: Option<nat>, r: Range) { intra == None || r.end <= r.start + intra.value }

  lemma SmallIsOneSpan(g: Gear, intra: Option<nat>, body: seq<Byte>, r: Range)
    requires r.start < r.end <= |body| && Small(intra, r)
    ensures ElementSpans(g, intra, body, r) == [Span(true, r)]
    ensures Folded(body, [Span(true, r)]) == [body[r.start..r.end]]
  {
    assert [Span(true, r)][1..] == [];
  }

  lemma {:induction false} ElementPiecesJoin(g: Gear, intra: Option<nat>, body: seq<Byte>, es: seq<Range>)
    requires forall k :: 0 <= k < |es| ==> es[k].start < es[k].end <= |body|
    ensures Joined(ElementPieces(g, intra, body, es)) == Joined(Texts(body, es))
    ensures (forall k :: 0 <= k < |es| ==> Small(intra, es[k])) ==> ElementPieces(g, intra, body, es) == Texts(body, es)
    decreases |es|
  {
    hide ElementSpans, Folded, Small;
    if |es| > 0 {
      var mine := ElementSpans(g, intra, body, es[0]);
      ElementFolds(g, intra, body, es[0]);
      ElementPiecesJoin(g, intra, body, es[1..]);
      JoinedConcat(Folded(body, mine), ElementPieces(g, intra, body, es[1..]));
      assert Texts(body, es) == [body[es[0].start..es[0].end]] + Texts(body, es[1..]);
      JoinedConcat([body[es[0].start..es[0].end]], Texts(body, es[1..]));
    }
  }

  /** The message carve of a body with elements folds the elements: their texts one after the other, and
      each in one piece when none is larger than `intra`. */
  lemma MessagesFoldTheElements(g: Gear, intra: Option<nat>, body: seq<Byte>)
    requires Split(body).Some? && |Split(body).value.0| > 0
    ensures var es, spans := Split(body).value.0, Spans(Messages(intra), g, body);
            && (forall k :: 0 <= k < |es| ==> es[k].start < es[k].end <= |body|)
            && InBody(body, spans)
            && Joined(Folded(body, spans)) == Joined(Texts(body, es))
            && ((forall k :: 0 <= k < |es| ==> Small(intra, es[k])) ==> Folded(body, spans) == Texts(body, es))
  {
    hide Split, MessageSpans, ElementPieces, Folded, InBody, Small;
    SplitIsOrdered(body);
    var es := Split(body).value.0;
    OrderedWider(es, Split(body).value.1, |body|);
    MessagesFoldElements(g, intra, body, es, 0);
    ElementPiecesJoin(g, intra, body, es);
  }

  /** Over a well-formed array, the default carve folds one piece per element: the element's text from its
      first byte to the separator after it. */
  lemma ArrayFoldsItsElements(g: Gear, lead: seq<Byte>, pad: seq<Byte>, es: seq<JsonText.Element>, trail: seq<Byte>)
    requires JsonText.Pad(lead) && JsonText.WellFormed(JsonText.Array(pad, es)) && |es| > 0
    ensures var body := lead + JsonText.Text(JsonText.Array(pad, es)) + trail;
            && InBody(body, Spans(Messages(None), g, body))
            && Folded(body, Spans(Messages(None), g, body))
               == seq(|es|, k requires 0 <= k < |es| => JsonText.Text(es[k].value) + es[k].after)
  {
    hide Split, Spans, Folded, InBody, Joined, JsonText.Text, JsonText.WellFormed, JsonText.Pad, JsonText.RangesOf;
    var body := lead + JsonText.Text(JsonText.Array(pad, es)) + trail;
    JsonText.SplitsEveryArrayExactly(lead, pad, es, trail);
    var rs := Split(body).value.0;
    forall k | 0 <= k < |es|
      ensures |rs| == |es| && rs[k].start <= rs[k].end <= |body|
      ensures body[rs[k].start..rs[k].end] == JsonText.Text(es[k].value) + es[k].after
    {
      ArrayRange(lead, pad, es, trail, k);
    }
    ArrayRange(lead, pad, es, trail, 0);
    MessagesFoldTheElements(g, None, body);
    assert Texts(body, rs) == seq(|es|, k requires 0 <= k < |es| => JsonText.Text(es[k].value) + es[k].after);
  }

  lemma ArrayRange(lead: seq<Byte>, pad: seq<Byte>, es: seq<JsonText.Element>, trail: seq<Byte>, k: nat)
    requires k < |es|
    ensures |JsonText.RangesOf(es, |lead| + 1)| == |es|
    ensures var body := lead + JsonText.Text(JsonText.Array(pad, es)) + trail;
            var r := JsonText.RangesOf(es, |lead| + 1)[k];
            r.start <= r.end <= |body| && body[r.start..r.end] == JsonText.Text(es[k].value) + es[k].after
  {
    hide JsonText.Text, JsonText.RangesOf, JsonText.ElementsText, JsonText.At;
    var text := JsonText.Text(JsonText.Array(pad, es));
    var body := lead + text + trail;
    JsonText.AtItself(lead, text, trail);
    JsonText.ArrayText(pad, es);
    JsonText.AtConcat(body, |lead|, [OPEN_BRACKET], JsonText.Inner(pad, es) + [CLOSE_BRACKET]);
    JsonText.AtConcat(body, |lead| + 1, JsonText.Inner(pad, es), [CLOSE_BRACKET]);
    JsonText.RangesCutElements(body, |lead| + 1, es, k);
  }

  lemma {:induction false} MessagesFoldBytes(g: Gear, intra: Option<nat>, body: seq<Byte>, es: seq<Range>, cur: nat, i: nat)
    requires Ordered(es, cur, |body|) && cur <= |body|
    ensures Foldable(MessageSpans(g, intra, body, es, cur), i) <==> InSome(es, i)
    decreases |es|
  {
    hide ElementSpans, Foldable, InSome;
    if |es| == 0 {
      NoneFoldable(MessageSpans(g, intra, body, es, cur), i);
      NoneIn(es, i);
    } else {
      var lit := if es[0].start > cur then [Span(false, Range(cur, es[0].start))] else [];
      var mine := ElementSpans(g, intra, body, es[0]);
      ElementFolds(g, intra, body, es[0]);
      MessagesFoldBytes(g, intra, body, es[1..], es[0].end, i);
      NoneFoldable(lit, i);
      FoldableConcat(lit, mine, i);
      FoldableConcat(lit + mine, MessageSpans(g, intra, body, es[1..], es[0].end), i);
      FirstOrLater(es, i);
    }
  }

  lemma FoldableConcat(a: seq<Span>, b: seq<Span>, i: nat)
    ensures Foldable(a + b, i) <==> Foldable(a, i) || Foldable(b, i)
  {
    forall s | s in a ensures s in a + b { }
    forall s | s in b ensures s in a + b { }
  }

  lemma NoneFoldable(spans: seq<Span>, i: nat)
    requires forall s :: s in spans ==> !s.foldable
    ensures !Foldable(spans, i)
  {
  }

  lemma NoneIn(es: seq<Range>, i: nat)
    requires |es| == 0
    ensures !InSome(es, i)
  {
  }

  lemma FirstOrLater(es: seq<Range>, i: nat)
    requires |es| > 0
    ensures InSome(es, i) <==> es[0].start <= i < es[0].end || InSome(es[1..], i)
  {
    assert es == [es[0]] + es[1..];
    assert es[0] in es;
    forall r | r in es[1..] ensures r in es { }
  }

  /** Which bytes each strategy folds: none under `Inline`; those of the elements, where the body is an array
      with elements, under `Messages`; and all of them otherwise. */
  lemma FoldsExactly(c: Carve, g: Gear, body: seq<Byte>, i: nat)
    requires i < |body|
    ensures Foldable(Spans(c, g, body), i) <==>
              match c
              case Inline => false
              case Whole => true
              case Cdc(_) => true
              case Messages(_) =>
                if Split(body).Some? && |Split(body).value.0| > 0 then InSome(Split(body).value.0, i) else true
  {
    hide Chunks, Split, MessageSpans, Tiles;
    match c {
      case Inline => NoneFoldable([Span(false, Range(0, |body|))], i);
      case Whole => assert Span(true, Range(0, |body|)) in Spans(c, g, body);
      case Cdc(target) => ChunksFoldAll(g, Max(target, MIN_TARGET), body, i);
      case Messages(intra) =>
        SplitIsOrdered(body);
        if Split(body).Some? && |Split(body).value.0| > 0 {
          OrderedWider(Split(body).value.0, Split(body).value.1, |body|);
          MessagesFoldBytes(g, intra, body, Split(body).value.0, 0, i);
        } else {
          ChunksFoldAll(g, FALLBACK_TARGET, body, i);
        }
    }
  }

  lemma ChunksFoldAll(g: Gear, avg: nat, body: seq<Byte>, i: nat)
    requires avg >= 64 && i < |body|
    ensures Foldable(Pieces(Chunks(g, avg, body, 0), 0), i)
  {
    hide Chunks;
    var spans := Pieces(Chunks(g, avg, body, 0), 0);
    PiecesAre(Chunks(g, avg, body, 0), 0);
    ChunksTile(g, avg, body);
    TilesInBody(body, spans, 0, |body|);
    AllFoldableJoins(body, spans, 0, |body|);
  }

  /** The cuts inside a large element, and of a body without elements, are the chunker's, at the strategy's
      target or at 4096 bytes. */
  lemma ChunkedSpans(c: Carve, g: Gear, body: seq<Byte>)
    requires |body| > 0 && (c.Cdc? || (c.Messages? && (Split(body).None? || Split(body).value.0 == [])))
    ensures var rs := Chunks(g, if c.Cdc? then Max(c.target, 64) else 4096, body, 0);
            && |Spans(c, g, body)| == |rs|
            && forall k :: 0 <= k < |rs| ==> Spans(c, g, body)[k] == Span(true, rs[k])
  {
    hide Chunks, Split;
    PiecesAre(Chunks(g, if c.Cdc? then Max(c.target, 64) else 4096, body, 0), 0);
  }

  lemma LargeElementChunked(g: Gear, big: nat, body: seq<Byte>, k: nat)
    requires Split(body).Some? && k < |Split(body).value.0|
    ensures var r := Split(body).value.0[k];
            && r.start < r.end <= |body|
            && (r.end - r.start <= big ==> Span(true, r) in Spans(Messages(Some(big)), g, body))
            && (r.end - r.start > big ==>
                  forall ch :: ch in Chunks(g, Max(big, 64), body[r.start..r.end], 0) ==>
                    Span(true, Range(r.start + ch.start, r.start + ch.end)) in Spans(Messages(Some(big)), g, body))
  {
    hide Chunks, Split, MessageSpans, ElementSpans;
    SplitIsOrdered(body);
    var es := Split(body).value.0;
    OrderedWider(es, Split(body).value.1, |body|);
    var r := es[k];
    ElementSpansIn(g, Some(big), body, es, 0, k);
    OwnSpans(g, big, body, r);
  }

  lemma OwnSpans(g: Gear, big: nat, body: seq<Byte>, r: Range)
    requires r.start < r.end <= |body|
    ensures var mine := ElementSpans(g, Some(big), body, r);
            && (r.end - r.start <= big ==> Span(true, r) in mine)
            && (r.end - r.start > big ==>
                  forall ch :: ch in Chunks(g, Max(big, 64), body[r.start..r.end], 0) ==>
                    Span(true, Range(r.start + ch.start, r.start + ch.end)) in mine)
  {
    hide Chunks;
    if r.end - r.start > big {
      var rs := Chunks(g, Max(big, 64), body[r.start..r.end], 0);
      PiecesAre(rs, r.start);
      forall ch | ch in rs ensures Span(true, Range(r.start + ch.start, r.start + ch.end)) in Pieces(rs, r.start) {
        var j :| 0 <= j < |rs| && rs[j] == ch;
        assert Pieces(rs, r.start)[j] in Pieces(rs, r.start);
      }
    } else {
      assert Span(true, r) in [Span(true, r)];
    }
  }

  lemma {:induction false} ElementSpansIn(g: Gear, intra: Option<nat>, body: seq<Byte>, es: seq<Range>, cur: nat, k: nat)
    requires Ordered(es, cur, |body|) && cur <= |body| && k < |es|
    ensures forall s :: s in ElementSpans(g, intra, body, es[k]) ==> s in MessageSpans(g, intra, body, es, cur)
    decreases |es|
  {
    hide ElementSpans;
    if k > 0 {
      assert es[1..][k - 1] == es[k];
      ElementSpansIn(g, intra, body, es[1..], es[0].end, k - 1);
    }
  }

  /** A resent conversation: with a turn appended, the message carve folds every earlier piece again,
      byte for byte and in the same order, whatever follows. */
  lemma ResendFoldsTheSamePieces(g: Gear, intra: Option<nat>, p: seq<Byte>, rest: seq<Byte>)
    requires Split(p + [CLOSE_BRACKET]).Some? && Split(p + [CLOSE_BRACKET]).value.1 == |p|
    requires |Split(p + [CLOSE_BRACKET]).value.0| > 0 && Split(p + [COMMA] + rest).Some?
    ensures var a, b := p + [CLOSE_BRACKET], p + [COMMA] + rest;
            && InBody(a, Spans(Messages(intra), g, a)) && InBody(b, Spans(Messages(intra), g, b))
            && Folded(a, Spans(Messages(intra), g, a)) <= Folded(b, Spans(Messages(intra), g, b))
            && (forall k :: 0 <= k < |Split(a).value.0| ==> 0 < Split(a).value.0[k].start < Split(a).value.0[k].end < |a|)
            && Joined(Folded(a, Spans(Messages(intra), g, a))) == Joined(Texts(a, Split(a).value.0))
            && (intra == None ==> Folded(a, Spans(Messages(intra), g, a)) == Texts(a, Split(a).value.0))
  {
    hide Split, MessageSpans, ElementPieces, Folded, InBody, Ordered;
    var a, b := p + [CLOSE_BRACKET], p + [COMMA] + rest;
    AppendIsStable(p, rest);
    SplitIsOrdered(a);
    SplitIsOrdered(b);
    var es, more := Split(a).value.0, Split(b).value.0;
    OrderedWider(es, |p|, |a|);
    OrderedWider(more, Split(b).value.1, |b|);
    MessagesFoldElements(g, intra, a, es, 0);
    MessagesFoldElements(g, intra, b, more, 0);
    assert a[..|p|] == p == b[..|p|];
    OrderedInside(es, |p|);
    OrderedInside(more, Split(b).value.1);
    MoreElementsMorePieces(g, intra, a, b, |p|, es, more);
    MessagesFoldTheElements(g, intra, a);
  }

  lemma OrderedInside(es: seq<Range>, m: nat)
    requires Ordered(es, 1, m)
    ensures forall k :: 0 <= k < |es| ==> 0 < es[k].start < es[k].end <= m
  {
  }
}
