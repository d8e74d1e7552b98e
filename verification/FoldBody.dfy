/** Folding a carved body into a program of literals and pieces, and reconstructing it byte for byte. */
module FoldBody {
  import opened Bytes
  import opened Frames
  import opened FoldState
  import opened Folds
  import opened Carving
  import Chunker
  import Lru
  import opened FoldCore
  import opened JsonSplit

  datatype Op = Lit(bytes: seq<Byte>) | Piece(hash: PieceHash, len: nat)

  /** The dictionary a part keeps for the pieces its programs name. */
  type Dictionary = map<PieceHash, Loc>

  /** No two of the texts in play share a hash. */
  ghost predicate Distinguishes(hash: seq<Byte> -> PieceHash, play: iset<seq<Byte>>) {
    forall a, b :: a in play && b in play && hash(a) == hash(b) ==> a == b
  }

  /** Every piece handed out is in play. */
  ghost predicate InPlay(play: iset<seq<Byte>>, pieces: map<Loc, seq<Byte>>) {
    forall l :: l in pieces ==> pieces[l] in play
  }

  /** Every stretch of the body is in play: whatever a carve may make a piece of. */
  ghost predicate StretchesInPlay(play: iset<seq<Byte>>, body: seq<Byte>) {
    forall i, j :: 0 <= i <= j <= |body| ==> body[i..j] in play
  }

  /** The dictionary sends every piece of the program to a handed-out location of that hash. */
  ghost predicate Resolves(ops: seq<Op>, dict: Dictionary, hash: seq<Byte> -> PieceHash, pieces: map<Loc, seq<Byte>>) {
    forall k :: 0 <= k < |ops| && ops[k].Piece? ==>
      && ops[k].hash in dict && dict[ops[k].hash] in pieces
      && hash(pieces[dict[ops[k].hash]]) == ops[k].hash
      && |pieces[dict[ops[k].hash]]| == ops[k].len
  }

  /** The bytes a resolved program stands for. */
  ghost function Rendered(ops: seq<Op>, dict: Dictionary, hash: seq<Byte> -> PieceHash, pieces: map<Loc, seq<Byte>>): seq<Byte>
    requires Resolves(ops, dict, hash, pieces)
  {
    if |ops| == 0 then []
    else
      Rendered(ops[..|ops| - 1], dict, hash, pieces) + OpBytes(ops[|ops| - 1], dict, pieces)
  }

  ghost function OpBytes(op: Op, dict: Dictionary, pieces: map<Loc, seq<Byte>>): seq<Byte>
    requires op.Piece? ==> op.hash in dict && dict[op.hash] in pieces
  {
    if op.Lit? then op.bytes else pieces[dict[op.hash]]
  }

  /** Handing out more pieces, or learning more locations, changes nothing a program already stands for. */
  lemma {:induction false} RenderedStays(ops: seq<Op>, dict: Dictionary, more: Dictionary, hash: seq<Byte> -> PieceHash,
                                        pieces: map<Loc, seq<Byte>>, grown: map<Loc, seq<Byte>>, play: iset<seq<Byte>>)
    requires Distinguishes(hash, play) && InPlay(play, grown) && Resolves(ops, dict, hash, pieces)
    requires forall l :: l in pieces ==> l in grown && grown[l] == pieces[l]
    requires forall h :: h in dict ==> h in more && more[h] in grown && hash(grown[more[h]]) == h
    ensures Resolves(ops, more, hash, grown)
    ensures Rendered(ops, more, hash, grown) == Rendered(ops, dict, hash, pieces)
  {
    forall k | 0 <= k < |ops| && ops[k].Piece?
      ensures ops[k].hash in more && more[ops[k].hash] in grown && hash(grown[more[ops[k].hash]]) == ops[k].hash
      ensures grown[more[ops[k].hash]] == pieces[dict[ops[k].hash]]
    {
      assert hash(grown[more[ops[k].hash]]) == hash(pieces[dict[ops[k].hash]]);
    }
    if |ops| > 0 {
      RenderedStays(ops[..|ops| - 1], dict, more, hash, pieces, grown, play);
    }
  }

  lemma ResolvesMore(ops: seq<Op>, op: Op, dict: Dictionary, hash: seq<Byte> -> PieceHash, pieces: map<Loc, seq<Byte>>)
    requires Resolves(ops, dict, hash, pieces) && Resolves([op], dict, hash, pieces)
    requires op.Piece? ==> op.hash in dict && dict[op.hash] in pieces
    ensures Resolves(ops + [op], dict, hash, pieces)
    ensures Rendered(ops + [op], dict, hash, pieces) == Rendered(ops, dict, hash, pieces) + OpBytes(op, dict, pieces)
  {
    assert (ops + [op])[..|ops|] == ops;
    assert [op][0] == op;
  }

  /** The fold turns away one of the foldable spans: its piece is neither known nor admissible. */
  ghost predicate TurnsAway(fold: Fold, body: seq<Byte>, spans: seq<Span>)
    reads fold
  {
    exists k :: 0 <= k < |spans| && TurnsAwaySpan(fold, body, spans[k])
  }

  ghost predicate TurnsAwaySpan(fold: Fold, body: seq<Byte>, span: Span)
    reads fold
  {
    var Range(a, b) := span.range;
    span.foldable && a < b <= |body| && fold.Refuses(body[a..b], fold.hash(body[a..b]))
  }

  /** Why folding stopped: the fold was or is broken, or it turned a piece away and is as healthy as before. */
  twostate predicate Stopped(fold: Fold, body: seq<Byte>, spans: seq<Span>)
    reads fold, fold.segs, fold.pool
  {
    if fold.poisoned then old(fold.poisoned) || fold.Broken() else TurnsAway(fold, body, spans)
  }

  /** The operation a span becomes: its bytes inline, or a reference to them by hash and length. */
  predicate Represents(op: Op, span: Span, body: seq<Byte>, hash: seq<Byte> -> PieceHash) {
    && span.range.start < span.range.end <= |body|
    && var bytes := body[span.range.start..span.range.end];
       op == if span.foldable then Piece(hash(bytes), |bytes|) else Lit(bytes)
  }

  /** The first spans, one operation each. */
  predicate AllRepresent(ops: seq<Op>, spans: seq<Span>, body: seq<Byte>, hash: seq<Byte> -> PieceHash) {
    |ops| <= |spans| && forall k :: 0 <= k < |ops| ==> Represents(ops[k], spans[k], body, hash)
  }

  lemma OneMoreRepresents(ops: seq<Op>, op: Op, spans: seq<Span>, body: seq<Byte>, hash: seq<Byte> -> PieceHash)
    requires AllRepresent(ops, spans, body, hash) && |ops| < |spans| && spans[|ops|].range.start < spans[|ops|].range.end <= |body|
    requires var bytes := body[spans[|ops|].range.start..spans[|ops|].range.end];
             op == if spans[|ops|].foldable && bytes != [] then Piece(hash(bytes), |bytes|) else Lit(bytes)
    ensures AllRepresent(ops + [op], spans, body, hash)
  {
  }

  /** Fold the spans of a body. On success the program stands for exactly the body's bytes. */
  method FoldSpans(fold: Fold, body: seq<Byte>, spans: seq<Span>, ghost play: iset<seq<Byte>>)
    returns (r: Outcome<(seq<Op>, Dictionary)>)
    requires fold.Valid() && Tiles(spans, 0, |body|)
    requires Distinguishes(fold.hash, play) && InPlay(play, fold.pieces) && StretchesInPlay(play, body)
    modifies fold, fold.segs, fold.pool
    ensures fold.Valid()
    ensures forall l :: l in old(fold.pieces) ==> l in fold.pieces && fold.pieces[l] == old(fold.pieces)[l]
    ensures r.Ok? ==> Resolves(r.value.0, r.value.1, fold.hash, fold.pieces)
    ensures r.Ok? ==> Rendered(r.value.0, r.value.1, fold.hash, fold.pieces) == body
    ensures r.Ok? ==> InPlay(play, fold.pieces)
    ensures r.Ok? ==> |r.value.0| == |spans| && AllRepresent(r.value.0, spans, body, fold.hash)
    ensures r.Err? ==> Stopped(fold, body, spans)
  {
    hide Sound, Indexes, Lru.BlockCache.Valid, Admissible, Fold.Valid, Distinguishes, InPlay, StretchesInPlay, Tiles,
         Fold.Refuses, Fold.Broken, AllRepresent, Rendered, Resolves;
    RenderedNothing(fold.hash, fold.pieces);
    NoneRepresented(spans, body, fold.hash);
    var ops: seq<Op> := [];
    var dict: Dictionary := map[];
    var i := 0;
    ghost var at: nat := 0;
    assert spans[0..] == spans && body[..0] == [];
    while i < |spans|
      invariant i <= |spans| && at <= |body| && Tiles(spans[i..], at, |body|)
      invariant fold.Valid() && InPlay(play, fold.pieces)
      invariant fold.poisoned ==> old(fold.poisoned)
      invariant forall l :: l in old(fold.pieces) ==> l in fold.pieces && fold.pieces[l] == old(fold.pieces)[l]
      invariant forall h :: h in dict ==> dict[h] in fold.pieces && fold.hash(fold.pieces[dict[h]]) == h
      invariant Resolves(ops, dict, fold.hash, fold.pieces)
      invariant Rendered(ops, dict, fold.hash, fold.pieces) == body[..at]
      invariant |ops| == i && AllRepresent(ops, spans, body, fold.hash)
    {
      TilesHead(spans, i, at, |body|);
      var Range(a, b) := spans[i].range;
      var bytes := body[a..b];
      StretchInPlay(play, body, a, b);
      var step := FoldSpan(fold, bytes, spans[i].foldable, ops, dict, play);
      if step.Err? {
        assert !fold.poisoned ==> TurnsAwaySpan(fold, body, spans[i]);
        return Err;
      }
      OneMoreRepresents(ops, step.value.0[i], spans, body, fold.hash);
      ops, dict := step.value.0, step.value.1;
      assert body[..b] == body[..a] + bytes;
      at := b;
      i := i + 1;
    }
    TilesEnd(spans[i..], at, |body|);
    assert body[..at] == body;
    return Ok((ops, dict));
  }

  lemma RenderedNothing(hash: seq<Byte> -> PieceHash, pieces: map<Loc, seq<Byte>>)
    ensures Resolves([], map[], hash, pieces) && Rendered([], map[], hash, pieces) == []
  {
  }

  lemma NoneRepresented(spans: seq<Span>, body: seq<Byte>, hash: seq<Byte> -> PieceHash)
    ensures AllRepresent([], spans, body, hash)
  {
  }

  lemma StretchInPlay(play: iset<seq<Byte>>, body: seq<Byte>, i: nat, j: nat)
    requires StretchesInPlay(play, body) && i <= j <= |body|
    ensures body[i..j] in play
  {
  }

  lemma TilesHead(spans: seq<Span>, i: nat, at: nat, hi: nat)
    requires i < |spans| && Tiles(spans[i..], at, hi)
    ensures spans[i].range.start == at < spans[i].range.end <= hi && Tiles(spans[i + 1..], spans[i].range.end, hi)
  {
    assert spans[i..][1..] == spans[i + 1..];
  }

  lemma TilesEnd(spans: seq<Span>, at: nat, hi: nat)
    requires |spans| == 0 && Tiles(spans, at, hi)
    ensures at == hi
  {
  }

  /** One span: a literal stays inline; a piece is put, and named by its hash. */
  method FoldSpan(fold: Fold, bytes: seq<Byte>, foldable: bool, ops: seq<Op>, dict: Dictionary,
                  ghost play: iset<seq<Byte>>)
    returns (r: Outcome<(seq<Op>, Dictionary)>)
    requires fold.Valid() && Distinguishes(fold.hash, play) && InPlay(play, fold.pieces) && bytes in play
    requires Resolves(ops, dict, fold.hash, fold.pieces)
    requires forall h :: h in dict ==> dict[h] in fold.pieces && fold.hash(fold.pieces[dict[h]]) == h
    modifies fold, fold.segs, fold.pool
    ensures fold.Valid()
    ensures forall l :: l in old(fold.pieces) ==> l in fold.pieces && fold.pieces[l] == old(fold.pieces)[l]
    ensures r.Ok? ==> forall h :: h in r.value.1 ==> r.value.1[h] in fold.pieces && fold.hash(fold.pieces[r.value.1[h]]) == h
    ensures r.Ok? ==> Resolves(r.value.0, r.value.1, fold.hash, fold.pieces)
    ensures r.Ok? ==> Rendered(r.value.0, r.value.1, fold.hash, fold.pieces)
                      == old(Rendered(ops, dict, fold.hash, fold.pieces)) + bytes
    ensures r.Ok? ==> InPlay(play, fold.pieces) && (fold.poisoned ==> old(fold.poisoned))
    ensures r.Ok? ==> r.value.0 == ops + [if foldable && bytes != [] then Piece(fold.hash(bytes), |bytes|) else Lit(bytes)]
    ensures r.Err? ==> if fold.poisoned then old(fold.poisoned) || fold.Broken()
                       else foldable && fold.Refuses(bytes, fold.hash(bytes))
  {
    hide Sound, Indexes, Lru.BlockCache.Valid, Admissible, Fold.Valid, Rendered, Resolves, Fold.Broken;
    if !foldable || bytes == [] {
      LitResolves(bytes, dict, fold.hash, fold.pieces);
      ResolvesMore(ops, Lit(bytes), dict, fold.hash, fold.pieces);
      return Ok((ops + [Lit(bytes)], dict));
    }
    var h := fold.hash(bytes);
    var put := fold.PutHashed(bytes, h);
    if put.Err? { return Err; }
    var loc := put.value.loc;
    var more := dict[h := loc];
    RenderedStays(ops, dict, more, fold.hash, old(fold.pieces), fold.pieces, play);
    SameHashSameBytes(fold.hash, play, fold.pieces[loc], bytes);
    PieceResolves(h, |bytes|, more, fold.hash, fold.pieces);
    ResolvesMore(ops, Piece(h, |bytes|), more, fold.hash, fold.pieces);
    return Ok((ops + [Piece(h, |bytes|)], more));
  }

  lemma LitResolves(bytes: seq<Byte>, dict: Dictionary, hash: seq<Byte> -> PieceHash, pieces: map<Loc, seq<Byte>>)
    ensures Resolves([Lit(bytes)], dict, hash, pieces)
  {
  }

  lemma PieceResolves(h: PieceHash, len: nat, dict: Dictionary, hash: seq<Byte> -> PieceHash, pieces: map<Loc, seq<Byte>>)
    requires h in dict && dict[h] in pieces && hash(pieces[dict[h]]) == h && |pieces[dict[h]]| == len
    ensures Resolves([Piece(h, len)], dict, hash, pieces)
  {
  }

  lemma SameHashSameBytes(hash: seq<Byte> -> PieceHash, play: iset<seq<Byte>>, a: seq<Byte>, b: seq<Byte>)
    requires Distinguishes(hash, play) && a in play && b in play && hash(a) == hash(b)
    ensures a == b
  {
  }

  /** Run a program: append literals, and read and verify pieces. Whatever the fold has done since, a program it
      once rendered comes back exactly. */
  method Reconstruct(fold: Fold, ops: seq<Op>, dict: Dictionary) returns (r: Outcome<seq<Byte>>)
    requires fold.Valid()
    modifies fold.cache
    ensures fold.Valid()
    ensures Resolves(ops, dict, fold.hash, fold.pieces) ==>
              r == Ok(Rendered(ops, dict, fold.hash, fold.pieces))
  {
    hide Sound, Indexes, Lru.BlockCache.Valid, Fold.Valid;
    var out: seq<Byte> := [];
    var i := 0;
    while i < |ops|
      invariant i <= |ops| && fold.Valid()
      invariant Resolves(ops, dict, fold.hash, fold.pieces) ==>
                  Resolves(ops[..i], dict, fold.hash, fold.pieces)
                  && out == Rendered(ops[..i], dict, fold.hash, fold.pieces)
    {
      assert ops[..i + 1][..i] == ops[..i];
      match ops[i] {
        case Lit(b) => out := out + b;
        case Piece(h, len) =>
          if h !in dict { return Err; }
          var loc := dict[h];
          if loc in fold.pieces { fold.PieceWidth(loc); }
          if loc.raw != len { return Err; }
          var got := fold.ReadVerified(loc, h);
          if got.Err? { return Err; }
          out := out + got.value;
      }
      i := i + 1;
    }
    assert ops[..i] == ops;
    return Ok(out);
  }

  /** Carve, fold, reconstruct: any strategy gives the body back byte for byte. */
  method StoreBody(fold: Fold, c: Carve, g: Chunker.Gear, body: seq<Byte>, ghost play: iset<seq<Byte>>)
    returns (r: Outcome<(seq<Op>, Dictionary)>, back: Outcome<seq<Byte>>)
    requires fold.Valid()
    requires Distinguishes(fold.hash, play) && InPlay(play, fold.pieces) && StretchesInPlay(play, body)
    modifies fold, fold.segs, fold.pool, fold.cache
    ensures fold.Valid()
    ensures r.Ok? ==> back == Ok(body)
    ensures r.Ok? ==> |r.value.0| == |Spans(c, g, body)| && AllRepresent(r.value.0, Spans(c, g, body), body, fold.hash)
    ensures r.Err? ==> Stopped(fold, body, Spans(c, g, body))
  {
    hide TurnsAway, Fold.Broken, Sound, Indexes, Lru.BlockCache.Valid, Fold.Valid, Tiles, Rendered, Resolves,
         Distinguishes, InPlay, StretchesInPlay, Spans, AllRepresent;
    back := Err;
    var spans := Ranges(c, g, body);
    EveryCarveTiles(c, g, body);
    r := FoldSpans(fold, body, spans, play);
    if r.Ok? { back := Reconstruct(fold, r.value.0, r.value.1); }
  }
}
