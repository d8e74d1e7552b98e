/** The whole state of a fold as one value, what keeps it sound, and the steps that do. */
module FoldCore {
  import opened Bytes
  import opened Host
  import opened Frames
  import opened Segments
  import opened Pipe
  import opened FoldImage
  import opened FoldState
  import Lru

  datatype Core = Core(
    files: seq<seq<Byte>>, frames: seq<seq<Frame>>, dir: Directory, placed: map<nat, Frame>,
    active: nat, curOff: nat,
    next: nat, open: seq<Byte>, inflight: map<nat, seq<Byte>>, jobs: multiset<Job>, failed: bool,
    list: seq<Lru.Item>, pieces: map<Loc, seq<Byte>>)
  {
    function InMemory(): Blocks { Blocks(next, open, inflight, placed) }

    predicate AtTail() {
      |files| == active + 1 && active <= MAX_SEGMENT_NUMBER && curOff == |files[active]|
    }
  }

  ghost predicate Sound(p: Platform, limits: ReadLimits, c: Core) {
    && p.Lawful() && limits.Usable()
    && SegmentsHold(p, limits, c.files, c.frames)
    && Listed(c.frames, c.dir, c.placed)
    && c.AtTail()
    && Staged(limits, c.InMemory(), |c.dir|)
    && Tracks(c.inflight, c.jobs, !c.failed)
    && Caches(c.list, c.placed)
    && Holds(c.InMemory(), c.pieces)
  }

  // ---- birth ----------------------------------------------------------------------------

  function Born(): Core {
    Core([SegHeader(0, NoDict())], [[]], [], map[], 0, SEG_HDR_LEN, 0, [], map[], multiset{}, false, [], map[])
  }

  lemma BornSound(p: Platform, limits: ReadLimits)
    requires p.Lawful() && limits.Usable()
    ensures Sound(p, limits, Born())
  {
    hide SegmentHolds, EntriesOf, Platform.Lawful;
    NewSegmentHolds(p, 0);
    NoEntries();
    assert Born().frames[0] == [];
  }

  // ---- reading --------------------------------------------------------------------------

  /** What the read paths of a block find: a cached copy, else the frame its directory entry names. */
  lemma BlockReadable(p: Platform, limits: ReadLimits, c: Core, id: nat)
    requires Sound(p, limits, c)
    ensures Lru.Find(c.list, id).Some? ==> id in c.placed && c.placed[id].raw == Lru.Find(c.list, id).value
    ensures Has(c.dir, id) <==> id in c.placed
    ensures id in c.placed ==> c.dir[id].value.seg < |c.files|
    ensures id in c.placed ==>
              ReadBlock(p, limits, c.files[c.dir[id].value.seg], c.dir[id].value.off, id) == Ok(c.placed[id].raw)
  {
    hide SegmentsHold, Staged, Tracks, Caches, Holds, ReadBlock, Platform.Lawful;
    TouchCaches(c.list, c.placed, id);
    HasIsPlaced(c.frames, c.dir, c.placed, id);
    if id in c.placed { PlacedReadsBack(p, limits, c.files, c.frames, c.dir, c.placed, id); }
  }

  lemma HasIsPlaced(frames: seq<seq<Frame>>, dir: Directory, placed: map<nat, Frame>, id: nat)
    requires Listed(frames, dir, placed)
    ensures Has(dir, id) <==> id in placed
  {
  }

  lemma TouchSound(p: Platform, limits: ReadLimits, c: Core, id: nat)
    requires Sound(p, limits, c)
    ensures Sound(p, limits, c.(list := Lru.Touched(c.list, id)))
  {
    hide SegmentsHold, Listed, Staged, Tracks, Caches, Holds, Platform.Lawful;
    TouchCaches(c.list, c.placed, id);
  }

  lemma StoreSound(p: Platform, limits: ReadLimits, c: Core, budget: nat, id: nat)
    requires Sound(p, limits, c) && id in c.placed
    ensures Sound(p, limits, c.(list := Lru.Stored(c.list, budget, id, c.placed[id].raw)))
  {
    hide SegmentsHold, Listed, Staged, Tracks, Caches, Holds, Platform.Lawful;
    StoreCaches(c.list, c.placed, budget, id);
  }

  /** Where a handed-out piece is served from, and that its bytes are there. */
  lemma PieceServed(p: Platform, limits: ReadLimits, c: Core, loc: Loc)
    requires Sound(p, limits, c) && loc in c.pieces
    ensures PieceAt(c.InMemory(), loc, c.pieces[loc]) && 0 < loc.raw
  {
    hide SegmentsHold, Listed, Staged, Tracks, Caches, Platform.Lawful;
  }

  // ---- sealing --------------------------------------------------------------------------

  /** The open block sealed; `sent` when the pool took it. */
  function SealedCore(c: Core, sent: bool): Core {
    var job := Job(c.next, c.open);
    c.(next := c.next + 1, open := [], inflight := c.inflight[c.next := c.open],
       jobs := if sent then c.jobs + multiset{job} else c.jobs,
       failed := if sent then c.failed else true)
  }

  lemma SealSound(p: Platform, limits: ReadLimits, c: Core, sent: bool)
    requires Sound(p, limits, c) && c.open != []
    ensures Sound(p, limits, SealedCore(c, sent)) && c.next < U32_MAX
  {
    hide SegmentsHold, Listed, Tracks, Caches, Holds, Platform.Lawful;
    SealKeeps(limits, c.InMemory(), |c.dir|, c.pieces);
    SealTracks(c.inflight, c.jobs, !c.failed, c.next, c.open);
  }

  // ---- writing --------------------------------------------------------------------------

  /** The block of a finished job is one the fold may frame and read back. */
  lemma JobReadable(p: Platform, limits: ReadLimits, c: Core, d: Done)
    requires Sound(p, limits, c) && d.TheJob() in c.jobs && d.Encodes(p)
    ensures var f := Frame(d.blockId, d.codec, d.raw, d.payload);
            && Readable(p, limits, f) && f.Len() <= SEG_MAX_LIMIT - SEG_HDR_LEN
            && f.id in c.inflight && c.inflight[f.id] == f.raw && f.id !in c.placed && !Has(c.dir, f.id)
            && f.Fits() && |FrameBytes(p, f)| == f.Len() && limits.AdmitBlocks(f.id + 1)
  {
    hide SegmentsHold, Caches, Holds, Platform.Lawful;
    var f := Frame(d.blockId, d.codec, d.raw, d.payload);
    var j := d.TheJob();
    assert c.jobs[j] == 1 && c.inflight[j.blockId] == j.raw;
    assert Buildable(limits, f.id, f.raw);
    HasIsPlaced(c.frames, c.dir, c.placed, f.id);
    EncodedDecodes(p, d);
    FrameLength(p, f);
  }

  lemma EncodedDecodes(p: Platform, d: Done)
    requires p.Lawful() && d.Encodes(p)
    ensures CodecDecode(p, d.codec, d.payload, |d.raw|) == Ok(d.raw)
  {
    CodecDecodeInvertsEncode(p, d.raw);
  }

  function WrittenCore(p: Platform, c: Core, f: Frame): Core
    requires f.Fits() && c.AtTail() && |c.frames| == |c.files|
  {
    c.(files := c.files[c.active := c.files[c.active] + FrameBytes(p, f)],
       frames := c.frames[c.active := c.frames[c.active] + [f]],
       dir := Recorded(c.dir, f.id, Place(c.active, c.curOff)),
       placed := c.placed[f.id := f],
       curOff := c.curOff + f.Len(),
       inflight := c.inflight - {f.id},
       jobs := c.jobs - multiset{Job(f.id, f.raw)})
  }

  lemma WriteSound(p: Platform, limits: ReadLimits, c: Core, f: Frame)
    requires Sound(p, limits, c) && Readable(p, limits, f)
    requires Job(f.id, f.raw) in c.jobs && c.curOff + f.Len() <= SEG_MAX_LIMIT
    ensures |c.frames| == |c.files| && Sound(p, limits, WrittenCore(p, c, f))
  {
    hide Listed, Tracks, Caches, Holds, Staged, Readable, SegmentHolds, Platform.Lawful, FrameBytes, EntriesOf;
    WriteSegments(p, limits, c, f);
    WriteMemory(limits, c, f);
    WriteTracks(c.inflight, c.jobs, !c.failed, Job(f.id, f.raw));
    var d := Recorded(c.dir, f.id, Place(c.active, c.curOff));
    assert |d| == Max(|c.dir|, f.id + 1);
  }

  lemma WriteMemory(limits: ReadLimits, c: Core, f: Frame)
    requires Staged(limits, c.InMemory(), |c.dir|) && Holds(c.InMemory(), c.pieces) && Caches(c.list, c.placed)
    requires Tracks(c.inflight, c.jobs, !c.failed) && Job(f.id, f.raw) in c.jobs
    ensures Staged(limits, Written(c.InMemory(), f), Max(|c.dir|, f.id + 1)) && Holds(Written(c.InMemory(), f), c.pieces)
    ensures Caches(c.list, c.placed[f.id := f]) && f.id !in c.placed
  {
    hide Holds;
    assert c.jobs[Job(f.id, f.raw)] == 1;
    WriteKeeps(limits, c.InMemory(), |c.dir|, c.pieces, f);
    WriteCaches(c.list, c.placed, f);
  }

  lemma WriteSegments(p: Platform, limits: ReadLimits, c: Core, f: Frame)
    requires p.Lawful() && SegmentsHold(p, limits, c.files, c.frames) && Listed(c.frames, c.dir, c.placed) && c.AtTail()
    requires Readable(p, limits, f) && c.curOff + f.Len() <= SEG_MAX_LIMIT
    requires Staged(limits, c.InMemory(), |c.dir|) && Tracks(c.inflight, c.jobs, !c.failed) && Job(f.id, f.raw) in c.jobs
    ensures f.Fits()
    ensures SegmentsHold(p, limits, c.files[c.active := c.files[c.active] + FrameBytes(p, f)],
                         c.frames[c.active := c.frames[c.active] + [f]])
    ensures |c.files[c.active] + FrameBytes(p, f)| == c.curOff + f.Len()
    ensures Listed(c.frames[c.active := c.frames[c.active] + [f]], Recorded(c.dir, f.id, Place(c.active, c.curOff)),
                   c.placed[f.id := f])
  {
    hide SegmentHolds, EntriesOf, FrameBytes, Platform.Lawful;
    var i := c.active;
    assert SegmentHolds(p, i, c.files[i], c.frames[i]);
    AppendHolds(p, i, c.files[i], c.frames[i], f);
    FrameLength(p, f);
    WriteFresh(limits, c, f);
    AppendListed(c.frames, c.dir, c.placed, i, f, c.curOff);
    SegmentsUpdated(p, limits, c.files, c.frames, i, c.files[i] + FrameBytes(p, f), f);
  }

  lemma WriteFresh(limits: ReadLimits, c: Core, f: Frame)
    requires Listed(c.frames, c.dir, c.placed)
    requires Staged(limits, c.InMemory(), |c.dir|) && Tracks(c.inflight, c.jobs, !c.failed) && Job(f.id, f.raw) in c.jobs
    ensures !Has(c.dir, f.id)
  {
    hide Listed;
    assert c.jobs[Job(f.id, f.raw)] == 1;
    HasIsPlaced(c.frames, c.dir, c.placed, f.id);
  }

  lemma SegmentsUpdated(p: Platform, limits: ReadLimits, files: seq<seq<Byte>>, frames: seq<seq<Frame>>, i: nat,
                        file: seq<Byte>, f: Frame)
    requires SegmentsHold(p, limits, files, frames) && i < |files| && Readable(p, limits, f)
    requires SegmentHolds(p, i, file, frames[i] + [f])
    ensures SegmentsHold(p, limits, files[i := file], frames[i := frames[i] + [f]])
  {
    hide SegmentHolds, Readable;
    var after := frames[i := frames[i] + [f]];
    forall j, k | 0 <= j < |after| && 0 <= k < |after[j]| ensures Readable(p, limits, after[j][k]) {
      if !(j == i && k == |frames[i]|) { assert after[j][k] == frames[j][k]; }
    }
  }

  // ---- rolling --------------------------------------------------------------------------

  function RolledCore(c: Core): Core {
    c.(files := c.files + [SegHeader(c.active + 1, NoDict())], frames := c.frames + [[]],
       active := c.active + 1, curOff := SEG_HDR_LEN)
  }

  lemma RollSound(p: Platform, limits: ReadLimits, c: Core)
    requires Sound(p, limits, c) && c.active < MAX_SEGMENT_NUMBER
    ensures Sound(p, limits, RolledCore(c))
  {
    hide Listed, Staged, Tracks, Caches, Holds, SegmentHolds, Readable, Platform.Lawful;
    NewSegmentHolds(p, c.active + 1);
    RollListed(c.frames, c.dir, c.placed);
    var after := c.frames + [[]];
    forall j, k | 0 <= j < |after| && 0 <= k < |after[j]| ensures Readable(p, limits, after[j][k]) {
      assert after[j] == c.frames[j];
    }
  }

  // ---- putting --------------------------------------------------------------------------

  function PutCore(c: Core, raw: seq<Byte>): Core {
    c.(open := c.open + raw, pieces := c.pieces[Loc(c.next, |c.open|, |raw|) := raw])
  }

  lemma PutSound(p: Platform, limits: ReadLimits, c: Core, raw: seq<Byte>)
    requires Sound(p, limits, c) && Buildable(limits, c.next, c.open + raw) && raw != []
    ensures Sound(p, limits, PutCore(c, raw)) && Loc(c.next, |c.open|, |raw|) !in c.pieces
  {
    hide SegmentsHold, Listed, Tracks, Caches, Holds, Staged, Buildable, PieceAt, Platform.Lawful;
    GatherKeeps(limits, c.InMemory(), |c.dir|, c.pieces, raw);
    HoldsMore(Gathered(c.InMemory(), raw), c.pieces, Loc(c.next, |c.open|, |raw|), raw);
  }

  lemma OpenBuildable(p: Platform, limits: ReadLimits, c: Core)
    requires Sound(p, limits, c) && c.open != []
    ensures Buildable(limits, c.next, c.open)
  {
    hide SegmentsHold, Listed, Tracks, Caches, Holds, Platform.Lawful;
  }

  // ---- failing and draining -------------------------------------------------------------

  /** A failed write stops the pool from being trusted to hold every block; the blocks stay in memory. */
  lemma FailSound(p: Platform, limits: ReadLimits, c: Core, fewer: multiset<Job>)
    requires Sound(p, limits, c) && fewer <= c.jobs
    ensures Sound(p, limits, c.(jobs := fewer, failed := true))
  {
    hide SegmentsHold, Listed, Staged, Caches, Holds, Platform.Lawful;
    FewerTracks(c.inflight, c.jobs, fewer, !c.failed);
  }

  /** With no job outstanding and no failure, every sealed block has been written. */
  lemma DrainedIsWritten(p: Platform, limits: ReadLimits, c: Core)
    requires Sound(p, limits, c) && c.jobs == multiset{} && !c.failed
    ensures c.inflight == map[] && c.next == |c.dir|
  {
    hide SegmentsHold, Listed, Caches, Holds, Platform.Lawful;
    NothingTracked(c.inflight);
    assert |c.dir| < c.next ==> |c.dir| in c.inflight;
  }
}
