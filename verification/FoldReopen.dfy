/** Reopening a fold: scan every segment, install every entry, and arrive at the writer's own directory. */
module FoldReopen {
  import opened Bytes
  import opened Host
  import opened Frames
  import opened Segments
  import opened FoldImage
  import opened FoldState
  import opened FoldCore
  import opened Folds
  import opened Pipe
  import opened Segstore
  import Lru

  /** The directory under reconstruction. */
  datatype Index = Index(dir: Directory, next: nat, seen: nat)

  /** Refused when an id or the count is not admitted, or an id appears twice. */
  function Installed(limits: ReadLimits, ix: Index, id: nat, place: Place): Outcome<Index> {
    if !limits.AdmitBlocks(id + 1) || !limits.AdmitBlocks(ix.seen + 1) then Err
    else if Has(ix.dir, id) then Err
    else if id + 1 > U32_MAX then Err
    else Ok(Index(Recorded(ix.dir, id, place), Max(ix.next, id + 1), ix.seen + 1))
  }

  function InstalledAll(limits: ReadLimits, ix: Index, seg: nat, entries: seq<Entry>): Outcome<Index>
    decreases |entries|
  {
    if |entries| == 0 then Ok(ix)
    else
      var next :- Installed(limits, ix, entries[0].id, Place(seg, entries[0].off));
      InstalledAll(limits, next, seg, entries[1..])
  }

  /** One segment of a container open: a good header, and a scan that reaches the end. */
  function Scanned(p: Platform, limits: ReadLimits, punched: Punched, seg: nat, file: seq<Byte>): Outcome<seq<Entry>> {
    if DecodeSegHeader(file, seg).Err? || !WindowOk(SEG_HDR_LEN, |file|, limits) then Err
    else
      var (good, entries) :- FrameWalk(p, file, SEG_HDR_LEN, |file|, false, punched, limits, 0);
      if good != |file| then Err else Ok(entries)
  }

  /** Every segment scanned, and every entry installed. */
  function OpenedAll(p: Platform, limits: ReadLimits, punched: Punched, ix: Index, files: seq<seq<Byte>>, i: nat): Outcome<Index>
    requires i <= |files|
    decreases |files| - i
  {
    if i == |files| then Ok(ix)
    else
      var entries :- Scanned(p, limits, punched, i, files[i]);
      var next :- InstalledAll(limits, ix, i, entries);
      OpenedAll(p, limits, punched, next, files, i + 1)
  }

  method RebuildDirectory(p: Platform, limits: ReadLimits, punched: Punched, files: seq<seq<Byte>>) returns (r: Outcome<Index>)
    ensures r == OpenedAll(p, limits, punched, Index([], 0, 0), files, 0)
  {
    hide FrameWalk, DecodeSegHeader, WindowOk;
    var ix := Index([], 0, 0);
    var i := 0;
    while i < |files|
      invariant i <= |files|
      invariant OpenedAll(p, limits, punched, Index([], 0, 0), files, 0) == OpenedAll(p, limits, punched, ix, files, i)
    {
      var scanned := ScanSegment(p, limits, punched, files[i], i);
      if scanned.Err? { return Err; }
      var entries := scanned.value;
      var k := 0;
      ghost var before := ix;
      while k < |entries|
        invariant k <= |entries|
        invariant InstalledAll(limits, before, i, entries) == InstalledAll(limits, ix, i, entries[k..])
      {
        assert entries[k..][1..] == entries[k + 1..];
        var next := Installed(limits, ix, entries[k].id, Place(i, entries[k].off));
        if next.Err? { return Err; }
        ix := next.value;
        k := k + 1;
      }
      i := i + 1;
    }
    return Ok(ix);
  }

  method ScanSegment(p: Platform, limits: ReadLimits, punched: Punched, file: seq<Byte>, seg: nat) returns (r: Outcome<seq<Entry>>)
    ensures r == Scanned(p, limits, punched, seg, file)
  {
    hide FrameWalk, DecodeSegHeader;
    var header := DecodeSegHeader(file, seg);
    var scanned := ScanFramesWindow(p, file, SEG_HDR_LEN, |file|, false, punched, limits);
    if header.Err? || scanned.Err? { return Err; }
    var (good, entries) := scanned.value;
    if good != |file| { return Err; }
    return Ok(entries);
  }

  // ---- counting -------------------------------------------------------------------------

  function Filled(dir: Directory): set<nat> { set id: nat | id < |dir| && dir[id].Some? }

  lemma {:induction false} BoundedSet(s: set<nat>, n: nat)
    requires forall x :: x in s ==> x < n
    ensures |s| <= n
  {
    if n > 0 {
      BoundedSet(s - {n - 1}, n - 1);
    } else {
      assert s == {};
    }
  }

  /** A chain whose entries all have their own directory slot has no more frames than the directory. */
  lemma ChainNoLonger(frames: seq<seq<Frame>>, dir: Directory, placed: map<nat, Frame>, i: nat)
    requires Listed(frames, dir, placed) && i < |frames|
    ensures |frames[i]| <= |dir|
  {
    var es := EntriesOf(frames[i], SEG_HDR_LEN);
    EntriesAt(frames[i], SEG_HDR_LEN);
    EntriesIncrease(frames[i], SEG_HDR_LEN);
    forall x, y | 0 <= x < y < |es| ensures es[x].id != es[y].id {
      assert es[x] in es && es[y] in es;
      assert dir[es[x].id].value == Place(i, es[x].off);
      assert dir[es[y].id].value == Place(i, es[y].off);
    }
    forall x | 0 <= x < |es| ensures es[x].id < |dir| { assert es[x] in es; }
    DistinctIds(es, |dir|);
  }

  lemma {:induction false} DistinctIds(es: seq<Entry>, n: nat)
    requires forall x, y :: 0 <= x < y < |es| ==> es[x].id != es[y].id
    requires forall x :: 0 <= x < |es| ==> es[x].id < n
    ensures |es| <= n
  {
    var ids := set x | 0 <= x < |es| :: es[x].id;
    DistinctCard(es);
    BoundedSet(ids, n);
  }

  lemma {:induction false} DistinctCard(es: seq<Entry>)
    requires forall x, y :: 0 <= x < y < |es| ==> es[x].id != es[y].id
    ensures |set x | 0 <= x < |es| :: es[x].id| == |es|
  {
    var ids := set x | 0 <= x < |es| :: es[x].id;
    if |es| == 0 {
      assert ids == {};
    } else {
      var init := es[..|es| - 1];
      var last := es[|es| - 1].id;
      DistinctCard(init);
      var rest := set x | 0 <= x < |init| :: init[x].id;
      assert forall x :: 0 <= x < |init| ==> init[x] == es[x];
      assert last !in rest;
      assert ids == rest + {last} by {
        forall id ensures id in ids <==> id in rest + {last} {
          if id in ids {
            var x :| 0 <= x < |es| && es[x].id == id;
            if x < |init| { assert init[x].id == id; }
          }
          if id in rest {
            var x :| 0 <= x < |init| && init[x].id == id;
            assert es[x].id == id;
          }
          if id == last { assert es[|es| - 1].id == id; }
        }
      }
    }
  }

  // ---- reconstruction so far ------------------------------------------------------------

  /** Whether `id`'s frame lies in the segments before `seg` or among the first `k` frames of `seg`. */
  ghost predicate Reached(frames: seq<seq<Frame>>, dir: Directory, id: nat, seg: nat, k: nat)
    requires Has(dir, id) && dir[id].value.seg < |frames|
  {
    var Place(s, o) := dir[id].value;
    s < seg || (s == seg && k <= |EntriesOf(frames[s], SEG_HDR_LEN)| && Entry(id, o) in EntriesOf(frames[s], SEG_HDR_LEN)[..k])
  }

  /** The index holds exactly the writer's entries reached so far. */
  ghost predicate Rebuilt(ix: Index, frames: seq<seq<Frame>>, dir: Directory, seg: nat, k: nat)
    requires forall id: nat :: Has(dir, id) ==> dir[id].value.seg < |frames|
  {
    && (forall id: nat :: Has(ix.dir, id) <==> Has(dir, id) && Reached(frames, dir, id, seg, k))
    && (forall id: nat :: Has(ix.dir, id) ==> ix.dir[id] == dir[id])
    && (|ix.dir| > 0 ==> ix.dir[|ix.dir| - 1].Some?)
    && ix.next == |ix.dir|
    && ix.seen == |Filled(ix.dir)|
  }

  lemma RecordedCounts(dir: Directory, id: nat, place: Place)
    requires !Has(dir, id)
    ensures |Filled(Recorded(dir, id, place))| == |Filled(dir)| + 1 <= |Recorded(dir, id, place)|
  {
    hide Recorded;
    var d := Recorded(dir, id, place);
    assert id !in Filled(dir);
    FilledOneMore(dir, d, id);
    BoundedSet(Filled(d), |d|);
  }

  lemma FilledOneMore(dir: Directory, d: Directory, id: nat)
    requires |dir| <= |d| && id < |d| && d[id].Some?
    requires forall o :: 0 <= o < |d| && o != id ==> d[o] == if o < |dir| then dir[o] else None
    requires id < |dir| ==> dir[id].None?
    ensures Filled(d) == Filled(dir) + {id}
  {
    forall o: nat ensures o in Filled(d) <==> o in Filled(dir) + {id} { }
  }

  lemma InstallOne(limits: ReadLimits, ix: Index, frames: seq<seq<Frame>>, dir: Directory, placed: map<nat, Frame>,
                   seg: nat, k: nat)
    requires Listed(frames, dir, placed) && seg < |frames| && Rebuilt(ix, frames, dir, seg, k)
    requires limits.AdmitBlocks(|dir|) && |dir| <= U32_MAX
    requires k < |EntriesOf(frames[seg], SEG_HDR_LEN)|
    ensures var e := EntriesOf(frames[seg], SEG_HDR_LEN)[k]; var r := Installed(limits, ix, e.id, Place(seg, e.off));
            r.Ok? && Rebuilt(r.value, frames, dir, seg, k + 1)
  {
    hide EntriesOf, Listed, Filled;
    var es := EntriesOf(frames[seg], SEG_HDR_LEN);
    var e := es[k];
    ListedInRange(frames, dir, placed);
    EntryIsNew(frames, dir, placed, seg, k);
    RecordedCounts(ix.dir, e.id, Place(seg, e.off));
    IndexNoLonger(ix, frames, dir, seg, k);
    var d := Recorded(ix.dir, e.id, Place(seg, e.off));
    forall id: nat
      ensures Has(d, id) <==> Has(dir, id) && Reached(frames, dir, id, seg, k + 1)
      ensures Has(d, id) ==> d[id] == dir[id]
    {
      if id == e.id {
        assert Reached(frames, dir, id, seg, k + 1);
      } else {
        assert Has(d, id) <==> Has(ix.dir, id);
        if Has(dir, id) { ReachOneMore(frames, dir, placed, seg, k, id); }
      }
    }
  }

  lemma ListedInRange(frames: seq<seq<Frame>>, dir: Directory, placed: map<nat, Frame>)
    requires Listed(frames, dir, placed)
    ensures forall id: nat :: Has(dir, id) ==> dir[id].value.seg < |frames|
  {
  }

  lemma EntryIsNew(frames: seq<seq<Frame>>, dir: Directory, placed: map<nat, Frame>, seg: nat, k: nat)
    requires Listed(frames, dir, placed) && seg < |frames| && k < |EntriesOf(frames[seg], SEG_HDR_LEN)|
    ensures var e := EntriesOf(frames[seg], SEG_HDR_LEN)[k];
            && Has(dir, e.id) && dir[e.id].value == Place(seg, e.off)
            && !Reached(frames, dir, e.id, seg, k) && Reached(frames, dir, e.id, seg, k + 1)
  {
    EntriesIncrease(frames[seg], SEG_HDR_LEN);
    hide EntriesOf;
    var es := EntriesOf(frames[seg], SEG_HDR_LEN);
    assert es[k] in es;
    assert es[..k + 1] == es[..k] + [es[k]];
  }

  lemma ReachOneMore(frames: seq<seq<Frame>>, dir: Directory, placed: map<nat, Frame>, seg: nat, k: nat, id: nat)
    requires Listed(frames, dir, placed) && seg < |frames| && k < |EntriesOf(frames[seg], SEG_HDR_LEN)|
    requires Has(dir, id) && id != EntriesOf(frames[seg], SEG_HDR_LEN)[k].id
    ensures Reached(frames, dir, id, seg, k + 1) <==> Reached(frames, dir, id, seg, k)
  {
    hide EntriesOf;
    var es := EntriesOf(frames[seg], SEG_HDR_LEN);
    assert es[..k + 1] == es[..k] + [es[k]];
  }

  lemma IndexNoLonger(ix: Index, frames: seq<seq<Frame>>, dir: Directory, seg: nat, k: nat)
    requires forall id: nat :: Has(dir, id) ==> dir[id].value.seg < |frames|
    requires Rebuilt(ix, frames, dir, seg, k)
    ensures |ix.dir| <= |dir|
  {
    if |ix.dir| > 0 { assert Has(ix.dir, |ix.dir| - 1); }
  }

  lemma {:induction false} InstallRest(limits: ReadLimits, ix: Index, frames: seq<seq<Frame>>, dir: Directory,
                                      placed: map<nat, Frame>, seg: nat, k: nat)
    requires Listed(frames, dir, placed) && seg < |frames| && Rebuilt(ix, frames, dir, seg, k)
    requires limits.AdmitBlocks(|dir|) && |dir| <= U32_MAX
    requires k <= |EntriesOf(frames[seg], SEG_HDR_LEN)|
    ensures var es := EntriesOf(frames[seg], SEG_HDR_LEN); var r := InstalledAll(limits, ix, seg, es[k..]);
            r.Ok? && Rebuilt(r.value, frames, dir, seg, |es|)
    decreases |EntriesOf(frames[seg], SEG_HDR_LEN)| - k
  {
    hide Listed, EntriesOf, Rebuilt, Installed;
    var es := EntriesOf(frames[seg], SEG_HDR_LEN);
    if k < |es| {
      InstallOne(limits, ix, frames, dir, placed, seg, k);
      var e := es[k];
      var next := Installed(limits, ix, e.id, Place(seg, e.off)).value;
      InstallRest(limits, next, frames, dir, placed, seg, k + 1);
      assert es[k..][1..] == es[k + 1..];
    }
  }

  /** All frames of a segment reached is none of the next one's reached. */
  lemma NextSegment(ix: Index, frames: seq<seq<Frame>>, dir: Directory, placed: map<nat, Frame>, seg: nat)
    requires Listed(frames, dir, placed) && seg < |frames|
    requires Rebuilt(ix, frames, dir, seg, |EntriesOf(frames[seg], SEG_HDR_LEN)|)
    ensures Rebuilt(ix, frames, dir, seg + 1, 0)
  {
    hide EntriesOf;
    var es := EntriesOf(frames[seg], SEG_HDR_LEN);
    assert es[..|es|] == es;
    forall id: nat | Has(dir, id)
      ensures Reached(frames, dir, id, seg, |es|) <==> Reached(frames, dir, id, seg + 1, 0)
    {
      assert Entry(id, dir[id].value.off) in EntriesOf(frames[dir[id].value.seg], SEG_HDR_LEN);
    }
  }

  lemma NothingReached(frames: seq<seq<Frame>>, dir: Directory, placed: map<nat, Frame>)
    requires Listed(frames, dir, placed)
    ensures Rebuilt(Index([], 0, 0), frames, dir, 0, 0)
  {
    hide EntriesOf;
    assert Filled([]) == {};
  }

  lemma EverythingReached(ix: Index, frames: seq<seq<Frame>>, dir: Directory, placed: map<nat, Frame>)
    requires Listed(frames, dir, placed) && Rebuilt(ix, frames, dir, |frames|, 0)
    ensures ix.dir == dir && ix.next == |dir|
  {
    hide EntriesOf;
    assert forall id: nat :: Has(ix.dir, id) <==> Has(dir, id);
    assert |ix.dir| > 0 ==> Has(ix.dir, |ix.dir| - 1);
    assert |dir| > 0 ==> Has(dir, |dir| - 1);
    assert |ix.dir| == |dir|;
    forall id | 0 <= id < |dir| ensures ix.dir[id] == dir[id] {
      assert Has(dir, id) <==> Has(ix.dir, id);
    }
  }

  // ---- scanning a whole segment ---------------------------------------------------------

  lemma {:induction false} CompleteAll(fs: seq<Frame>, off: nat)
    ensures Complete(fs, off, EndOf(fs, off)) == |fs|
  {
    if |fs| > 0 {
      EndGrows(fs[1..], off + fs[0].Len());
      CompleteAll(fs[1..], off + fs[0].Len());
    }
  }

  /** Segment `i` is its header followed by exactly the frames `fs`, but for what declared erasures may have
      destroyed. */
  predicate SegmentUnder(p: Platform, punched: Punched, i: nat, file: seq<Byte>, fs: seq<Frame>) {
    && SEG_HDR_LEN <= |file| <= SEG_MAX_LIMIT
    && file[..SEG_HDR_LEN] == SegHeader(i, NoDict())
    && ChainAt(p, file, SEG_HDR_LEN, fs, punched)
    && EndOf(fs, SEG_HDR_LEN) == |file|
  }

  /** The segments a fold wrote, as declared erasures may have left them. */
  predicate FilesUnder(p: Platform, punched: Punched, files: seq<seq<Byte>>, frames: seq<seq<Frame>>) {
    && |files| == |frames|
    && forall i :: 0 <= i < |files| ==> SegmentUnder(p, punched, i, files[i], frames[i])
  }

  lemma {:induction false} ChainUnder(p: Platform, punched: Punched, seg: seq<Byte>, off: nat, fs: seq<Frame>)
    requires ChainAt(p, seg, off, fs, [])
    ensures ChainAt(p, seg, off, fs, punched)
    decreases |fs|
  {
    hide HdrBytes, FrameBytes;
    if |fs| > 0 { ChainUnder(p, punched, seg, off + fs[0].Len(), fs[1..]); }
  }

  /** Intact segments are one way declared erasures may have left them. */
  lemma IntactUnder(p: Platform, limits: ReadLimits, punched: Punched, files: seq<seq<Byte>>, frames: seq<seq<Frame>>)
    requires SegmentsHold(p, limits, files, frames)
    ensures FilesUnder(p, punched, files, frames)
  {
    hide ChainAt, Readable, SegHeader, EndOf;
    forall i | 0 <= i < |files| ensures SegmentUnder(p, punched, i, files[i], frames[i]) {
      assert SegmentHolds(p, i, files[i], frames[i]);
      ChainUnder(p, punched, files[i], SEG_HDR_LEN, frames[i]);
    }
  }

  lemma SegmentScans(p: Platform, limits: ReadLimits, punched: Punched, i: nat, file: seq<Byte>, fs: seq<Frame>)
    requires p.Lawful() && limits.Usable() && SegmentUnder(p, punched, i, file, fs) && Admitted(limits, fs) && i <= U32_MAX
    requires limits.AdmitBlocks(|fs|)
    ensures Scanned(p, limits, punched, i, file) == Ok(EntriesOf(fs, SEG_HDR_LEN))
  {
    hide ChainAt, FrameWalk, EndOf, EntriesOf, Platform.Lawful, SegHeader;
    CompleteAll(fs, SEG_HDR_LEN);
    WalkOfCutChain(p, file, SEG_HDR_LEN, |file|, fs, false, punched, limits, 0);
    assert fs[..|fs|] == fs;
    HeaderDecodes(file, i);
  }

  lemma HeaderDecodes(file: seq<Byte>, i: nat)
    requires SEG_HDR_LEN <= |file| && file[..SEG_HDR_LEN] == SegHeader(i, NoDict()) && i <= U32_MAX
    ensures DecodeSegHeader(file, i).Ok?
  {
    DecodeInvertsSegHeader(i, NoDict());
    var h := SegHeader(i, NoDict());
    hide SegHeader, FromLe;
    assert h == file[..SEG_HDR_LEN];
    assert file[..8] == h[..8] && file[8..12] == h[8..12] && file[12..16] == h[12..16];
  }

  lemma SegmentAdmitted(p: Platform, limits: ReadLimits, files: seq<seq<Byte>>, frames: seq<seq<Frame>>, i: nat)
    requires SegmentsHold(p, limits, files, frames) && i < |frames|
    ensures Admitted(limits, frames[i]) && SegmentHolds(p, i, files[i], frames[i])
  {
    hide SegmentHolds;
    forall k | 0 <= k < |frames[i]|
      ensures limits.Admit(|frames[i][k].payload|, |frames[i][k].raw|) && limits.AdmitBlocks(frames[i][k].id + 1)
    {
      assert Readable(p, limits, frames[i][k]);
    }
  }

  lemma DirectoryAdmitted(p: Platform, limits: ReadLimits, files: seq<seq<Byte>>, frames: seq<seq<Frame>>,
                          dir: Directory, placed: map<nat, Frame>)
    requires SegmentsHold(p, limits, files, frames) && Listed(frames, dir, placed) && limits.Usable()
    ensures limits.AdmitBlocks(|dir|) && |dir| <= U32_MAX
  {
    if |dir| > 0 {
      var id := |dir| - 1;
      assert Has(dir, id);
      var Place(s, o) := dir[id].value;
      EntriesAt(frames[s], SEG_HDR_LEN);
      hide EntriesOf, SegmentHolds;
      var k :| 0 <= k < |frames[s]| && EntriesOf(frames[s], SEG_HDR_LEN)[k] == Entry(id, o);
      assert Readable(p, limits, frames[s][k]);
    }
  }

  // ---- the theorem ----------------------------------------------------------------------

  lemma {:induction false} RebuildFrom(p: Platform, limits: ReadLimits, punched: Punched, ix: Index, now: seq<seq<Byte>>,
                                      files: seq<seq<Byte>>, frames: seq<seq<Frame>>, dir: Directory,
                                      placed: map<nat, Frame>, i: nat)
    requires p.Lawful() && limits.Usable() && SegmentsHold(p, limits, files, frames) && Listed(frames, dir, placed)
    requires FilesUnder(p, punched, now, frames)
    requires i <= |now| <= U32_MAX && Rebuilt(ix, frames, dir, i, 0)
    requires limits.AdmitBlocks(|dir|) && |dir| <= U32_MAX
    ensures OpenedAll(p, limits, punched, ix, now, i).Ok?
    ensures OpenedAll(p, limits, punched, ix, now, i).value.dir == dir
    ensures OpenedAll(p, limits, punched, ix, now, i).value.next == |dir|
    decreases |now| - i
  {
    hide Listed, Rebuilt, SegmentHolds, SegmentUnder, Readable, InstalledAll, Scanned, EntriesOf, Platform.Lawful, Admitted;
    if i == |now| {
      EverythingReached(ix, frames, dir, placed);
    } else {
      SegmentAdmitted(p, limits, files, frames, i);
      ChainNoLonger(frames, dir, placed, i);
      SegmentScans(p, limits, punched, i, now[i], frames[i]);
      var es := EntriesOf(frames[i], SEG_HDR_LEN);
      InstallRest(limits, ix, frames, dir, placed, i, 0);
      assert es[0..] == es;
      var next := InstalledAll(limits, ix, i, es).value;
      NextSegment(next, frames, dir, placed, i);
      RebuildFrom(p, limits, punched, next, now, files, frames, dir, placed, i + 1);
    }
  }

  /** Reopen refines the writer: scanning the segments of any sound fold with nothing left in memory rebuilds
      exactly its block directory and next block id, although frames sit in completion order. */
  lemma ReopenRebuildsWriter(p: Platform, limits: ReadLimits, c: Core)
    requires Sound(p, limits, c) && c.inflight == map[]
    ensures OpenedAll(p, limits, [], Index([], 0, 0), c.files, 0).Ok?
    ensures OpenedAll(p, limits, [], Index([], 0, 0), c.files, 0).value.dir == c.dir
    ensures OpenedAll(p, limits, [], Index([], 0, 0), c.files, 0).value.next == c.next
  {
    hide Listed, Staged, Tracks, Caches, Holds, SegmentsHold, OpenedAll, Platform.Lawful, FilesUnder;
    IntactUnder(p, limits, [], c.files, c.frames);
    ReopenUnderErasures(p, limits, [], c, c.files);
  }

  /** The same of segments in which declared erasures have destroyed anything but the headers of the declared
      blocks. */
  lemma ReopenUnderErasures(p: Platform, limits: ReadLimits, punched: Punched, c: Core, now: seq<seq<Byte>>)
    requires Sound(p, limits, c) && c.inflight == map[] && FilesUnder(p, punched, now, c.frames)
    ensures OpenedAll(p, limits, punched, Index([], 0, 0), now, 0).Ok?
    ensures OpenedAll(p, limits, punched, Index([], 0, 0), now, 0).value.dir == c.dir
    ensures OpenedAll(p, limits, punched, Index([], 0, 0), now, 0).value.next == c.next
  {
    hide Listed, Tracks, Caches, Holds, SegmentHolds, SegmentUnder, Readable, OpenedAll, Platform.Lawful, Rebuilt;
    DirectoryAdmitted(p, limits, c.files, c.frames, c.dir, c.placed);
    assert c.next == |c.dir| by {
      assert |c.dir| < c.next ==> |c.dir| in c.inflight;
    }
    NothingReached(c.frames, c.dir, c.placed);
    RebuildFrom(p, limits, punched, Index([], 0, 0), now, c.files, c.frames, c.dir, c.placed, 0);
  }

  /** Open the writer over container members. With no segment yet, segment 0 is staged, and a committed tail
      means lost data. Otherwise the members hold what a synced fold left: a committed tail must agree with
      them, and the result serves every location handed out before. */
  method OpenContainerWriter(p: Platform, cfg: FoldCfg, limits: ReadLimits, hash: seq<Byte> -> PieceHash,
                             segs: ContainerSegments, committed: Option<FoldTail>, ghost c: Core)
    returns (r: Outcome<Fold>)
    requires p.Lawful() && limits.Usable() && segs.p == p && cfg.Valid()
    requires segs.members != [] ==>
      Sound(p, limits, c) && c.files == segs.members && c.open == [] && c.inflight == map[]
    modifies segs
    ensures old(segs.members) != [] ==>
      (r.Ok? <==> committed == None || committed == Some(FoldTail(c.active, c.curOff)))
    ensures old(segs.members) == [] ==>
      (r.Ok? ==> committed == None) && (r.Err? ==> committed.Some? || segs.failed)
    ensures r.Err? ==> segs.members == old(segs.members)
    ensures r.Ok? ==> fresh(r.value) && r.value.Valid() && !r.value.poisoned && r.value.segs == segs
    ensures r.Ok? ==> var was := if old(segs.members) == [] then Born() else c;
      && segs.members == was.files && r.value.blockdir == was.dir && r.value.nextBlock == was.next
      && r.value.active == was.active && r.value.curOff == was.curOff && r.value.pieces == was.pieces
  {
    hide Sound, Lru.BlockCache.Valid, Platform.Lawful, FoldCfg.Valid, OpenedAll, SegHeader, ReadLimits.Usable;
    if segs.members == [] {
      if committed.Some? { return Err; }
      var staged := segs.CreateSegment(0);
      if !staged { return Err; }
      BornSound(p, limits);
      ReopenedSound(p, limits, Born());
      var born := new Fold.Reopened(p, cfg, limits, hash, segs, [], 0, 0, SEG_HDR_LEN, Born());
      return Ok(born);
    }
    CoreTail(p, limits, c);
    var active := |segs.members| - 1;
    var len := |segs.members[active]|;
    if committed.Some? && (committed.value.seg != active || committed.value.off != len) { return Err; }
    ReopenRebuildsWriter(p, limits, c);
    var rebuilt := RebuildDirectory(p, limits, [], segs.members);
    ReopenedSound(p, limits, c);
    var fold := new Fold.Reopened(p, cfg, limits, hash, segs, rebuilt.value.dir, rebuilt.value.next, active, len, c);
    return Ok(fold);
  }

  lemma CoreTail(p: Platform, limits: ReadLimits, c: Core)
    requires Sound(p, limits, c)
    ensures c.AtTail()
  {
    hide SegmentsHold, Listed, Staged, Tracks, Caches, Holds, Platform.Lawful;
  }

  lemma ReopenedSound(p: Platform, limits: ReadLimits, c: Core)
    requires Sound(p, limits, c) && c.open == [] && c.inflight == map[]
    ensures Sound(p, limits, c.(jobs := multiset{}, failed := false, list := []))
  {
    hide SegmentsHold, Listed, Staged, Holds, Platform.Lawful;
  }
}
