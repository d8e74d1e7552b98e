/** Segment files: the frame walk that finds a segment's last good byte and rebuilds its directory. */
module Segments {
  import opened Bytes
  import opened Host
  import opened Frames

  const MAX_SEGMENT_NUMBER: nat := 99_999_999

  /** One directory entry of a segment: a block id and the offset of its frame. */
  datatype Entry = Entry(id: nat, off: nat)

  /** Inclusive block-id ranges the manifest declares erased. */
  type Punched = seq<(nat, nat)>

  predicate Declared(punched: Punched, id: nat) {
    exists i :: 0 <= i < |punched| && punched[i].0 <= id <= punched[i].1
  }

  // ---- segment header -------------------------------------------------------------------

  const MAGIC: seq<Byte> := [84, 68, 66, 70, 76, 68, 48, 49]   // TDBFLD01

  function NoDict(): seq<Byte> { Zeros(32) }

  /** A plaintext segment header: magic, segment number, zero flags, dictionary id. */
  function SegHeader(seg: nat, dict: seq<Byte>): (b: seq<Byte>)
    requires |dict| == 32
    ensures |b| == SEG_HDR_LEN
  {
    MAGIC + Le(seg, 4) + Le(0, 4) + dict
  }

  function DecodeSegHeader(b: seq<Byte>, number: nat): Outcome<seq<Byte>> {
    if |b| < SEG_HDR_LEN then Err
    else if b[..8] != MAGIC then Err
    else if FromLe(b[8..12]) != number then Err
    else if FromLe(b[12..16]) != 0 then Err
    else Ok(b[16..48])
  }

  lemma DecodeInvertsSegHeader(seg: nat, dict: seq<Byte>)
    requires seg <= U32_MAX && |dict| == 32
    ensures DecodeSegHeader(SegHeader(seg, dict), seg) == Ok(dict)
  {
    var b := SegHeader(seg, dict);
    Le4(seg); Le4(0);
    assert b[..8] == MAGIC;
    assert b[8..12] == Le(seg, 4);
    assert b[12..16] == Le(0, 4);
    assert b[16..48] == dict;
  }

  /** A header is accepted under a number exactly when it is that segment's plaintext header. */
  lemma DecodesExactlySegHeaders(b: seq<Byte>, number: nat, dict: seq<Byte>)
    requires number <= U32_MAX
    ensures DecodeSegHeader(b, number) == Ok(dict) <==>
              |dict| == 32 && |b| >= 48 && b[..48] == [84, 68, 66, 70, 76, 68, 48, 49] + Le(number, 4) + [0, 0, 0, 0] + dict
  {
    hide Le, FromLe;
    Le4(number);
    FourZeros();
    if |b| >= 48 {
      FieldBack(b[8..12]);
      FieldBack(b[12..16]);
      assert b[..48] == b[..8] + b[8..12] + b[12..16] + b[16..48];
      if |dict| == 32 {
        var h := [84, 68, 66, 70, 76, 68, 48, 49] + Le(number, 4) + [0, 0, 0, 0] + dict;
        assert h[..8] == MAGIC && h[8..12] == Le(number, 4) && h[12..16] == [0, 0, 0, 0] && h[16..48] == dict;
        assert b[..48][..8] == b[..8] && b[..48][8..12] == b[8..12] && b[..48][12..16] == b[12..16] && b[..48][16..48] == b[16..48];
      }
    }
  }

  lemma FourZeros()
    ensures Le(0, 4) == [0, 0, 0, 0] && FromLe([0, 0, 0, 0]) == 0
  {
    assert Le(0, 1) == [0] && Le(0, 2) == [0, 0] && Le(0, 3) == [0, 0, 0];
    FromLeInvertsLe(0, 4);
  }

  // ---- the frame walk -------------------------------------------------------------------

  /** What the walk does at one offset: end the good data, refuse the segment, or take a frame. */
  datatype Turn = Stop | Refuse | Take(id: nat, end: nat)

  function TurnAt(p: Platform, seg: seq<Byte>, off: nat, stop: nat, hasDict: bool, punched: Punched,
                  limits: ReadLimits, taken: nat): Turn
  {
    if stop - off < BLOCK_OVERHEAD then Stop
    else
      match ReadExact(seg, off, BLOCK_HDR_LEN)
      case Err => Refuse
      case Ok(hb) =>
        var raw := FromLe(hb[2..6]);
        var stored := FromLe(hb[6..10]);
        var end := off + BLOCK_HDR_LEN + stored + BLOCK_XSUM_LEN;
        match ParseHdr(hb, hasDict)
        case Err =>
          if end > stop then Stop
          else if !limits.Admit(stored, raw) then Refuse
          else BadHeaderTurn(p, seg, off, stop, stored)
        case Ok(h) =>
          if !limits.Admit(h.stored, h.raw) then Refuse
          else if end > stop then Stop
          else
            match ReadExact(seg, off, h.FrameLen())
            case Err => Refuse
            case Ok(frame) =>
              if VerifyFrame(p, frame, hasDict).Ok? || Declared(punched, h.blockId) then
                if limits.AdmitBlocks(taken + 1) && limits.AdmitBlocks(h.blockId + 1)
                then Take(h.blockId, end) else Refuse
              else if end < stop then Refuse
              else Stop
  }

  /** An unreadable header over a whole frame: refused when its checksum holds or bytes follow it. */
  function BadHeaderTurn(p: Platform, seg: seq<Byte>, off: nat, stop: nat, stored: nat): Turn {
    match ReadExact(seg, off, BLOCK_OVERHEAD + stored)
    case Err => Refuse
    case Ok(frame) =>
      if Xsum(p, frame[..BLOCK_HDR_LEN + stored]) == frame[BLOCK_HDR_LEN + stored..] then Refuse
      else if off + BLOCK_OVERHEAD + stored < stop then Refuse
      else Stop
  }

  lemma TakeAdvances(p: Platform, seg: seq<Byte>, off: nat, stop: nat, hasDict: bool, punched: Punched,
                     limits: ReadLimits, taken: nat)
    ensures var t := TurnAt(p, seg, off, stop, hasDict, punched, limits, taken);
            t.Take? ==> off + BLOCK_OVERHEAD <= t.end <= stop
  {
    hide FromLe;
    assert ReadExact(seg, off, BLOCK_HDR_LEN).Ok? ==>
             var hb := ReadExact(seg, off, BLOCK_HDR_LEN).value;
             ParseHdr(hb, hasDict).Ok? ==> ParseHdr(hb, hasDict).value.stored == FromLe(hb[6..10]);
  }

  /** The walk from `off`, having taken `taken` frames: where good data ends and the frames seen. */
  function FrameWalk(p: Platform, seg: seq<Byte>, off: nat, stop: nat, hasDict: bool, punched: Punched,
                     limits: ReadLimits, taken: nat): Outcome<(nat, seq<Entry>)>
    requires off <= stop
    decreases stop - off
  {
    TakeAdvances(p, seg, off, stop, hasDict, punched, limits, taken);
    match TurnAt(p, seg, off, stop, hasDict, punched, limits, taken)
    case Stop => Ok((off, []))
    case Refuse => Err
    case Take(id, end) =>
      var (good, rest) :- FrameWalk(p, seg, end, stop, hasDict, punched, limits, taken + 1);
      Ok((good, [Entry(id, off)] + rest))
  }

  /** The bounds a window must satisfy before it is walked. */
  predicate WindowOk(start: nat, stop: nat, limits: ReadLimits) {
    limits.Usable() && stop <= SEG_MAX_LIMIT && SEG_HDR_LEN <= start <= stop
  }

  function Prefixed(dir: seq<Entry>, r: Outcome<(nat, seq<Entry>)>): Outcome<(nat, seq<Entry>)> {
    match r
    case Err => Err
    case Ok(t) => Ok((t.0, dir + t.1))
  }

  lemma PrefixedByNothing(r: Outcome<(nat, seq<Entry>)>)
    ensures Prefixed([], r) == r
  {
    if r.Ok? { assert [] + r.value.1 == r.value.1; }
  }

  method ScanFramesWindow(p: Platform, seg: seq<Byte>, start: nat, stop: nat, hasDict: bool, punched: Punched,
                          limits: ReadLimits)
    returns (r: Outcome<(nat, seq<Entry>)>)
    ensures r == if WindowOk(start, stop, limits)
                 then FrameWalk(p, seg, start, stop, hasDict, punched, limits, 0) else Err
  {
    hide TurnAt, FrameWalk, Prefixed;
    if !limits.Usable() || stop > SEG_MAX_LIMIT || start < SEG_HDR_LEN || start > stop { return Err; }
    var off := start;
    var dir: seq<Entry> := [];
    PrefixedByNothing(FrameWalk(p, seg, start, stop, hasDict, punched, limits, 0));
    while true
      invariant off <= stop
      invariant FrameWalk(p, seg, start, stop, hasDict, punched, limits, 0)
             == Prefixed(dir, FrameWalk(p, seg, off, stop, hasDict, punched, limits, |dir|))
      decreases stop - off
    {
      WalkTurns(p, seg, off, stop, hasDict, punched, limits, dir);
      var t := TurnAt(p, seg, off, stop, hasDict, punched, limits, |dir|);
      if t.Stop? { break; }
      if t.Refuse? { return Err; }
      dir := dir + [Entry(t.id, off)];
      off := t.end;
    }
    return Ok((off, dir));
  }

  /** One turn of the walk, with the frames already taken put back in front. */
  lemma WalkTurns(p: Platform, seg: seq<Byte>, off: nat, stop: nat, hasDict: bool, punched: Punched,
                  limits: ReadLimits, dir: seq<Entry>)
    requires off <= stop
    ensures var t := TurnAt(p, seg, off, stop, hasDict, punched, limits, |dir|);
            var here := Prefixed(dir, FrameWalk(p, seg, off, stop, hasDict, punched, limits, |dir|));
            && (t.Stop? ==> here == Ok((off, dir)))
            && (t.Refuse? ==> here == Err)
            && (t.Take? ==> off < t.end <= stop)
            && (t.Take? ==> here == Prefixed(dir + [Entry(t.id, off)],
                              FrameWalk(p, seg, t.end, stop, hasDict, punched, limits, |dir| + 1)))
  {
    TakeAdvances(p, seg, off, stop, hasDict, punched, limits, |dir|);
    var t := TurnAt(p, seg, off, stop, hasDict, punched, limits, |dir|);
    hide TurnAt;
    assert dir + [] == dir;
    if t.Take? {
      var rest := FrameWalk(p, seg, t.end, stop, hasDict, punched, limits, |dir| + 1);
      if rest.Ok? { assert dir + ([Entry(t.id, off)] + rest.value.1) == (dir + [Entry(t.id, off)]) + rest.value.1; }
    }
  }

  /** The walk reads nothing at or past `stop`: cutting the segment there changes nothing. */
  lemma {:induction false} WalkReadsBelowStop(p: Platform, seg: seq<Byte>, off: nat, stop: nat, hasDict: bool,
                                             punched: Punched, limits: ReadLimits, taken: nat)
    requires off <= stop <= |seg|
    ensures FrameWalk(p, seg[..stop], off, stop, hasDict, punched, limits, taken)
         == FrameWalk(p, seg, off, stop, hasDict, punched, limits, taken)
    decreases stop - off
  {
    TurnReadsBelowStop(p, seg, off, stop, hasDict, punched, limits, taken);
    TakeAdvances(p, seg, off, stop, hasDict, punched, limits, taken);
    var t := TurnAt(p, seg, off, stop, hasDict, punched, limits, taken);
    hide TurnAt;
    if t.Take? { WalkReadsBelowStop(p, seg, t.end, stop, hasDict, punched, limits, taken + 1); }
  }

  lemma ReadCut(seg: seq<Byte>, stop: nat, at: nat, n: nat)
    requires at + n <= stop <= |seg|
    ensures ReadExact(seg[..stop], at, n) == ReadExact(seg, at, n)
  {
    assert seg[..stop][at..at + n] == seg[at..at + n];
  }

  lemma TurnReadsBelowStop(p: Platform, seg: seq<Byte>, off: nat, stop: nat, hasDict: bool,
                           punched: Punched, limits: ReadLimits, taken: nat)
    requires off <= stop <= |seg|
    ensures TurnAt(p, seg[..stop], off, stop, hasDict, punched, limits, taken)
         == TurnAt(p, seg, off, stop, hasDict, punched, limits, taken)
  {
    hide FromLe, VerifyFrame, Declared;
    if stop - off >= BLOCK_OVERHEAD {
      ReadCut(seg, stop, off, BLOCK_HDR_LEN);
      var hb := seg[off..off + BLOCK_HDR_LEN];
      var stored := FromLe(hb[6..10]);
      if off + BLOCK_OVERHEAD + stored <= stop { ReadCut(seg, stop, off, BLOCK_OVERHEAD + stored); }
    }
  }

  // ---- a chain of written frames --------------------------------------------------------

  function EndOf(fs: seq<Frame>, off: nat): nat {
    if |fs| == 0 then off else EndOf(fs[1..], off + fs[0].Len())
  }

  function EntriesOf(fs: seq<Frame>, off: nat): seq<Entry> {
    if |fs| == 0 then [] else [Entry(fs[0].id, off)] + EntriesOf(fs[1..], off + fs[0].Len())
  }

  /** `f` stands at `off`. A block declared punched keeps its header; its other bytes may be anything. */
  predicate StandsAt(p: Platform, seg: seq<Byte>, off: nat, f: Frame, punched: Punched) {
    && f.Fits()
    && off + f.Len() <= |seg|
    && seg[off..off + BLOCK_HDR_LEN] == HdrBytes(p, f)
    && (Declared(punched, f.id) || seg[off..off + f.Len()] == FrameBytes(p, f))
  }

  predicate ChainAt(p: Platform, seg: seq<Byte>, off: nat, fs: seq<Frame>, punched: Punched)
    decreases |fs|
  {
    |fs| > 0 ==> StandsAt(p, seg, off, fs[0], punched) && ChainAt(p, seg, off + fs[0].Len(), fs[1..], punched)
  }

  predicate Admitted(limits: ReadLimits, fs: seq<Frame>) {
    forall i :: 0 <= i < |fs| ==>
      limits.Admit(|fs[i].payload|, |fs[i].raw|) && limits.AdmitBlocks(fs[i].id + 1)
  }

  /** How many frames of a chain from `off` end at or below `cut`. */
  function Complete(fs: seq<Frame>, off: nat, cut: nat): (k: nat)
    ensures k <= |fs|
  {
    if |fs| == 0 || off + fs[0].Len() > cut then 0
    else 1 + Complete(fs[1..], off + fs[0].Len(), cut)
  }

  lemma {:induction false} CompleteIsLargestBoundary(fs: seq<Frame>, off: nat, cut: nat)
    requires off <= cut
    ensures var k := Complete(fs, off, cut);
            EndOf(fs[..k], off) <= cut && forall j :: k < j <= |fs| ==> cut < EndOf(fs[..j], off)
  {
    var k := Complete(fs, off, cut);
    if k > 0 {
      CompleteIsLargestBoundary(fs[1..], off + fs[0].Len(), cut);
      forall j | 0 < j <= |fs| ensures fs[..j][1..] == fs[1..][..j - 1] && fs[..j][0] == fs[0] { }
      forall j | k < j <= |fs| ensures cut < EndOf(fs[..j], off) {
        assert EndOf(fs[..j], off) == EndOf(fs[1..][..j - 1], off + fs[0].Len());
      }
    } else {
      forall j | 0 < j <= |fs| ensures cut < EndOf(fs[..j], off) {
        EndGrows(fs[..j][1..], off + fs[0].Len());
      }
    }
  }

  lemma {:induction false} EndGrows(fs: seq<Frame>, off: nat)
    ensures EndOf(fs, off) >= off
  {
    if |fs| > 0 { EndGrows(fs[1..], off + fs[0].Len()); }
  }

  lemma TurnOnFrame(p: Platform, seg: seq<Byte>, off: nat, stop: nat, hasDict: bool, punched: Punched,
                    limits: ReadLimits, taken: nat, f: Frame)
    requires p.Lawful() && off <= stop <= |seg| && StandsAt(p, seg, off, f, punched)
    requires limits.Admit(|f.payload|, |f.raw|) && limits.AdmitBlocks(f.id + 1) && limits.AdmitBlocks(taken + 1)
    ensures TurnAt(p, seg, off, stop, hasDict, punched, limits, taken)
         == if off + f.Len() <= stop then Take(f.id, off + f.Len()) else Stop
  {
    if stop - off >= BLOCK_OVERHEAD {
      var hb := seg[off..off + BLOCK_HDR_LEN];
      assert hb[..BLOCK_HDR_LEN] == hb;
      ParseInvertsHdr(p, f, hb, hasDict);
      assert FromLe(hb[6..10]) == |f.payload|;
      VerifyInvertsFrame(p, f, hasDict);
      hide FromLe, VerifyFrame, Declared, ParseHdr;
      assert f.Hdr(p).FrameLen() == f.Len();
    }
  }

  lemma NothingFits(p: Platform, seg: seq<Byte>, off: nat, stop: nat, hasDict: bool, punched: Punched,
                    limits: ReadLimits, taken: nat)
    requires off == stop
    ensures TurnAt(p, seg, off, stop, hasDict, punched, limits, taken) == Stop
  {
  }

  lemma AdmittedTail(limits: ReadLimits, fs: seq<Frame>)
    requires |fs| > 0 && Admitted(limits, fs)
    ensures Admitted(limits, fs[1..])
  {
  }

  /** Tail scan: a chain of written frames cut at any byte scans to the largest frame boundary at or below
      the cut, with exactly the complete frames' ids and offsets. The payload bytes of declared-punched
      blocks play no part: `ChainAt` leaves them free. */
  lemma {:induction false} WalkOfCutChain(p: Platform, seg: seq<Byte>, off: nat, cut: nat, fs: seq<Frame>,
                                         hasDict: bool, punched: Punched, limits: ReadLimits, taken: nat)
    requires p.Lawful() && ChainAt(p, seg, off, fs, punched) && Admitted(limits, fs)
    requires limits.AdmitBlocks(taken + |fs|)
    requires off <= cut <= EndOf(fs, off) && cut <= |seg|
    ensures var k := Complete(fs, off, cut);
            FrameWalk(p, seg, off, cut, hasDict, punched, limits, taken)
            == Ok((EndOf(fs[..k], off), EntriesOf(fs[..k], off)))
    decreases |fs|
  {
    hide TurnAt, StandsAt;
    if |fs| == 0 {
      NothingFits(p, seg, off, cut, hasDict, punched, limits, taken);
    } else {
      assert ChainAt(p, seg, off + fs[0].Len(), fs[1..], punched);
      TurnOnFrame(p, seg, off, cut, hasDict, punched, limits, taken, fs[0]);
      hide ChainAt;
      if off + fs[0].Len() <= cut {
        AdmittedTail(limits, fs);
        hide Admitted;
        WalkOfCutChain(p, seg, off + fs[0].Len(), cut, fs[1..], hasDict, punched, limits, taken + 1);
        var k := Complete(fs, off, cut);
        assert fs[..k][1..] == fs[1..][..k - 1];
      }
    }
  }

  /** The same, read off the bytes that survive the cut. */
  lemma TailScanOfCutSegment(p: Platform, seg: seq<Byte>, cut: nat, fs: seq<Frame>, hasDict: bool,
                             punched: Punched, limits: ReadLimits)
    requires p.Lawful() && ChainAt(p, seg, SEG_HDR_LEN, fs, punched) && Admitted(limits, fs)
    requires limits.AdmitBlocks(|fs|)
    requires SEG_HDR_LEN <= cut <= EndOf(fs, SEG_HDR_LEN) && cut <= |seg|
    ensures var k := Complete(fs, SEG_HDR_LEN, cut);
            && FrameWalk(p, seg[..cut], SEG_HDR_LEN, cut, hasDict, punched, limits, 0)
               == Ok((EndOf(fs[..k], SEG_HDR_LEN), EntriesOf(fs[..k], SEG_HDR_LEN)))
            && EndOf(fs[..k], SEG_HDR_LEN) <= cut
            && forall j :: k < j <= |fs| ==> cut < EndOf(fs[..j], SEG_HDR_LEN)
  {
    WalkOfCutChain(p, seg, SEG_HDR_LEN, cut, fs, hasDict, punched, limits, 0);
    WalkReadsBelowStop(p, seg, SEG_HDR_LEN, cut, hasDict, punched, limits, 0);
    CompleteIsLargestBoundary(fs, SEG_HDR_LEN, cut);
  }

  lemma WalkTakes(p: Platform, seg: seq<Byte>, off: nat, stop: nat, hasDict: bool, punched: Punched,
                  limits: ReadLimits, taken: nat, f: Frame)
    requires off + f.Len() <= stop
    requires TurnAt(p, seg, off, stop, hasDict, punched, limits, taken) == Take(f.id, off + f.Len())
    ensures FrameWalk(p, seg, off, stop, hasDict, punched, limits, taken)
         == Prefixed([Entry(f.id, off)], FrameWalk(p, seg, off + f.Len(), stop, hasDict, punched, limits, taken + 1))
  {
    hide TurnAt;
  }

  lemma PrefixedTwice(a: seq<Entry>, b: seq<Entry>, r: Outcome<(nat, seq<Entry>)>)
    ensures Prefixed(a, Prefixed(b, r)) == Prefixed(a + b, r)
  {
    if r.Ok? { assert a + (b + r.value.1) == a + b + r.value.1; }
  }

  /** A chain that stands is walked through, whatever follows it. */
  lemma {:induction false} WalkThroughChain(p: Platform, seg: seq<Byte>, off: nat, stop: nat, fs: seq<Frame>,
                                           hasDict: bool, punched: Punched, limits: ReadLimits, taken: nat)
    requires p.Lawful() && ChainAt(p, seg, off, fs, punched) && Admitted(limits, fs)
    requires limits.AdmitBlocks(taken + |fs|) && off <= EndOf(fs, off) <= stop <= |seg|
    ensures FrameWalk(p, seg, off, stop, hasDict, punched, limits, taken)
         == Prefixed(EntriesOf(fs, off), FrameWalk(p, seg, EndOf(fs, off), stop, hasDict, punched, limits, taken + |fs|))
    decreases |fs|
  {
    hide TurnAt, StandsAt, FrameWalk, Prefixed, Platform.Lawful, Frame.Len;
    if |fs| == 0 {
      PrefixedByNothing(FrameWalk(p, seg, off, stop, hasDict, punched, limits, taken));
    } else {
      var mid := off + fs[0].Len();
      EndGrows(fs[1..], mid);
      TurnOnFrame(p, seg, off, stop, hasDict, punched, limits, taken, fs[0]);
      WalkTakes(p, seg, off, stop, hasDict, punched, limits, taken, fs[0]);
      AdmittedTail(limits, fs);
      hide Admitted;
      WalkThroughChain(p, seg, mid, stop, fs[1..], hasDict, punched, limits, taken + 1);
      PrefixedTwice([Entry(fs[0].id, off)], EntriesOf(fs[1..], mid),
                    FrameWalk(p, seg, EndOf(fs, off), stop, hasDict, punched, limits, taken + |fs|));
    }
  }

  /** Damage: after a chain that stands, an undeclared frame whose header reads but which is not whole is the torn
      tail if it would be the last, and refuses the segment if anything follows it. */
  lemma DamageIsTailOrRefused(p: Platform, seg: seq<Byte>, off: nat, stop: nat, fs: seq<Frame>, h: BlockHdr,
                              hasDict: bool, punched: Punched, limits: ReadLimits, taken: nat)
    requires p.Lawful() && ChainAt(p, seg, off, fs, punched) && Admitted(limits, fs)
    requires limits.AdmitBlocks(taken + |fs|) && off <= EndOf(fs, off) && EndOf(fs, off) + 20 <= stop <= |seg|
    requires Headed(h, hasDict) && seg[EndOf(fs, off)..EndOf(fs, off) + 16] == Headline(h)
    requires limits.Admit(h.stored, h.raw) && !Declared(punched, h.blockId) && !Framed(p, seg[EndOf(fs, off)..stop], h, hasDict)
    ensures FrameWalk(p, seg, off, stop, hasDict, punched, limits, taken)
         == if EndOf(fs, off) + 20 + h.stored < stop then Err else Ok((EndOf(fs, off), EntriesOf(fs, off)))
  {
    hide ChainAt, Admitted, EntriesOf, EndOf, TurnAt, Framed, Headline, Headed;
    WalkThroughChain(p, seg, off, stop, fs, hasDict, punched, limits, taken);
    var e := EndOf(fs, off);
    HeaderDecides(p, seg, e, stop, hasDict, punched, limits, taken + |fs|, h);
    assert EntriesOf(fs, off) + [] == EntriesOf(fs, off);
  }

  /** And bytes that read as no header at all are the torn tail if the lengths in them run past the end, or just
      to it without the digest of what they span; otherwise they refuse the segment. */
  lemma NoHeaderIsTailOrRefused(p: Platform, seg: seq<Byte>, off: nat, stop: nat, fs: seq<Frame>, stored: nat,
                                hasDict: bool, punched: Punched, limits: ReadLimits, taken: nat)
    requires p.Lawful() && ChainAt(p, seg, off, fs, punched) && Admitted(limits, fs)
    requires limits.AdmitBlocks(taken + |fs|) && off <= EndOf(fs, off) && EndOf(fs, off) + 20 <= stop <= |seg|
    requires stored == FromLe(seg[EndOf(fs, off) + 6..EndOf(fs, off) + 10])
    requires forall h :: Headed(h, hasDict) ==> seg[EndOf(fs, off)..EndOf(fs, off) + 16] != Headline(h)
    ensures var e := EndOf(fs, off);
            FrameWalk(p, seg, off, stop, hasDict, punched, limits, taken)
            == if e + 20 + stored > stop
                  || (e + 20 + stored == stop && limits.Admit(stored, FromLe(seg[e + 2..e + 6]))
                      && seg[stop - 4..stop] != p.digest4(seg[e..stop - 4]))
               then Ok((e, EntriesOf(fs, off))) else Err
  {
    hide ChainAt, Admitted, EntriesOf, EndOf, TurnAt, Headline, Headed, FromLe;
    WalkThroughChain(p, seg, off, stop, fs, hasDict, punched, limits, taken);
    HeaderlessTurn(p, seg, EndOf(fs, off), stop, hasDict, punched, limits, taken + |fs|, stored);
    assert EntriesOf(fs, off) + [] == EntriesOf(fs, off);
  }

  lemma HeaderlessTurn(p: Platform, seg: seq<Byte>, off: nat, stop: nat, hasDict: bool, punched: Punched,
                       limits: ReadLimits, taken: nat, stored: nat)
    requires off + 20 <= stop <= |seg| && stored == FromLe(seg[off + 6..off + 10])
    requires forall h :: Headed(h, hasDict) ==> seg[off..off + 16] != Headline(h)
    ensures TurnAt(p, seg, off, stop, hasDict, punched, limits, taken)
         == if off + 20 + stored > stop
               || (off + 20 + stored == stop && limits.Admit(stored, FromLe(seg[off + 2..off + 6]))
                   && seg[stop - 4..stop] != p.digest4(seg[off..stop - 4]))
            then Stop else Refuse
  {
    hide ParseHdr, Headline, Headed, VerifyFrame, FromLe, Declared;
    var hb := seg[off..off + 16];
    SubSlice(seg, off, 16, 2, 6);
    SubSlice(seg, off, 16, 6, 10);
    assert hb[..16] == hb;
    if ParseHdr(hb, hasDict).Ok? {
      ParsesExactlyHeaders(hb, ParseHdr(hb, hasDict).value, hasDict);
      assert false;
    }
    if off + 20 + stored == stop {
      var frame := seg[off..stop];
      assert frame[..16 + stored] == seg[off..stop - 4] && frame[16 + stored..] == seg[stop - 4..stop];
    }
  }

  /** One step of the walk where a header reads, case by case: refused when its sizes are not admitted; the end of
      the good data when the frame runs past the window; taken when it is whole or declared erased, if the counts
      are admitted too; and otherwise the torn tail or, with anything behind it, a refusal. */
  lemma HeaderDecides(p: Platform, seg: seq<Byte>, off: nat, stop: nat, hasDict: bool, punched: Punched,
                      limits: ReadLimits, taken: nat, h: BlockHdr)
    requires off + 20 <= stop <= |seg| && Headed(h, hasDict) && seg[off..off + 16] == Headline(h)
    ensures TurnAt(p, seg, off, stop, hasDict, punched, limits, taken)
         == if h.stored > limits.maxStored || h.raw > limits.maxDecoded then Refuse
            else if off + 20 + h.stored > stop then Stop
            else if Framed(p, seg[off..stop], h, hasDict)
                    || exists i :: 0 <= i < |punched| && punched[i].0 <= h.blockId <= punched[i].1 then
              (if taken + 1 <= limits.maxBlocks && h.blockId + 1 <= limits.maxBlocks
               then Take(h.blockId, off + 20 + h.stored) else Refuse)
            else if off + 20 + h.stored < stop then Refuse
            else Stop
  {
    hide ParseHdr, Headline, Headed, VerifyFrame, FromLe;
    var hb := seg[off..off + 16];
    assert hb[..16] == hb;
    ParsesExactlyHeaders(hb, h, hasDict);
    if off + 20 + h.stored <= stop {
      var frame := seg[off..off + 20 + h.stored];
      assert frame[..16] == hb;
      ParsesExactlyHeaders(frame, h, hasDict);
      var b := seg[off..stop];
      assert frame == b[..20 + h.stored];
      assert b[..16] == hb && b[..16 + h.stored] == frame[..16 + h.stored];
      assert b[16 + h.stored..20 + h.stored] == frame[16 + h.stored..20 + h.stored];
      VerifiesExactlyFrames(p, frame, h, hasDict);
      NotVerified(p, frame, hasDict, h);
    }
    HeaderLength(hb, hasDict, h);
  }

  lemma NotVerified(p: Platform, frame: seq<Byte>, hasDict: bool, h: BlockHdr)
    requires ParseHdr(frame, hasDict) == Ok(h)
    ensures VerifyFrame(p, frame, hasDict).Ok? ==> VerifyFrame(p, frame, hasDict) == Ok(h)
  {
    hide ParseHdr;
  }

  lemma HeaderLength(hb: seq<Byte>, hasDict: bool, h: BlockHdr)
    requires |hb| == 16 && ParseHdr(hb, hasDict) == Ok(h)
    ensures FromLe(hb[6..10]) == h.stored && FromLe(hb[2..6]) == h.raw
  {
    hide FromLe;
  }

  /** Two segments that differ only in what punching may destroy scan alike, at every cut. */
  lemma ScanIgnoresPunchedPayloads(p: Platform, a: seq<Byte>, b: seq<Byte>, cut: nat, fs: seq<Frame>,
                                   hasDict: bool, punched: Punched, limits: ReadLimits)
    requires p.Lawful() && Admitted(limits, fs) && limits.AdmitBlocks(|fs|)
    requires ChainAt(p, a, SEG_HDR_LEN, fs, punched) && ChainAt(p, b, SEG_HDR_LEN, fs, punched)
    requires SEG_HDR_LEN <= cut <= EndOf(fs, SEG_HDR_LEN) && cut <= |a| && cut <= |b|
    ensures FrameWalk(p, a[..cut], SEG_HDR_LEN, cut, hasDict, punched, limits, 0)
         == FrameWalk(p, b[..cut], SEG_HDR_LEN, cut, hasDict, punched, limits, 0)
  {
    TailScanOfCutSegment(p, a, cut, fs, hasDict, punched, limits);
    TailScanOfCutSegment(p, b, cut, fs, hasDict, punched, limits);
  }
}
