/** What a fold has on storage: segments that are chains of frames, and the block directory over them. */
module FoldImage {
  import opened Bytes
  import opened Host
  import opened Frames
  import opened Segments

  /** A frame's physical place: its segment and its offset there. */
  datatype Place = Place(seg: nat, off: nat)

  type Directory = seq<Option<Place>>

  /** A frame this fold may read back: well formed, decodable, and within its own read limits. */
  ghost predicate Readable(p: Platform, limits: ReadLimits, f: Frame) {
    f.Fits() && f.Decodes(p) && limits.Admit(|f.payload|, |f.raw|) && limits.AdmitBlocks(f.id + 1)
  }

  /** Segment `i` is its header followed by exactly the frames `fs`. */
  predicate SegmentHolds(p: Platform, i: nat, file: seq<Byte>, fs: seq<Frame>) {
    && SEG_HDR_LEN <= |file| <= SEG_MAX_LIMIT
    && file[..SEG_HDR_LEN] == SegHeader(i, NoDict())
    && ChainAt(p, file, SEG_HDR_LEN, fs, [])
    && EndOf(fs, SEG_HDR_LEN) == |file|
  }

  ghost predicate SegmentsHold(p: Platform, limits: ReadLimits, files: seq<seq<Byte>>, frames: seq<seq<Frame>>) {
    && |files| == |frames|
    && (forall i :: 0 <= i < |files| ==> SegmentHolds(p, i, files[i], frames[i]))
    && (forall i, k :: 0 <= i < |frames| && 0 <= k < |frames[i]| ==> Readable(p, limits, frames[i][k]))
  }

  predicate Has(dir: Directory, id: nat) { id < |dir| && dir[id].Some? }

  /** Every frame in a segment is kept under its id. */
  ghost predicate Kept(frames: seq<seq<Frame>>, placed: map<nat, Frame>) {
    forall i, k :: 0 <= i < |frames| && 0 <= k < |frames[i]| ==>
      frames[i][k].id in placed && placed[frames[i][k].id] == frames[i][k]
  }

  /** The directory lists exactly the frames of the segments, each under its own id; `placed` is the same
      map with the frames themselves. */
  ghost predicate Listed(frames: seq<seq<Frame>>, dir: Directory, placed: map<nat, Frame>) {
    && Kept(frames, placed)
    && (forall i, e :: 0 <= i < |frames| && e in EntriesOf(frames[i], SEG_HDR_LEN) ==>
          Has(dir, e.id) && dir[e.id].value == Place(i, e.off))
    && (forall id: nat :: Has(dir, id) ==>
          dir[id].value.seg < |frames|
          && Entry(id, dir[id].value.off) in EntriesOf(frames[dir[id].value.seg], SEG_HDR_LEN))
    && (|dir| > 0 ==> dir[|dir| - 1].Some?)
    && (forall id: nat :: id in placed <==> Has(dir, id))
  }

  // ---- entries of a chain ---------------------------------------------------------------

  /** Where the `k`-th frame of a chain stands. */
  function OffsetOf(fs: seq<Frame>, off: nat, k: nat): nat
    requires k <= |fs|
  {
    EndOf(fs[..k], off)
  }

  lemma {:induction false} EntriesAt(fs: seq<Frame>, off: nat)
    ensures |EntriesOf(fs, off)| == |fs|
    ensures forall k :: 0 <= k < |fs| ==> EntriesOf(fs, off)[k] == Entry(fs[k].id, OffsetOf(fs, off, k))
  {
    if |fs| > 0 {
      EntriesAt(fs[1..], off + fs[0].Len());
      forall k | 0 <= k < |fs| ensures EntriesOf(fs, off)[k] == Entry(fs[k].id, OffsetOf(fs, off, k)) {
        if k > 0 { assert fs[..k][1..] == fs[1..][..k - 1]; }
      }
    }
  }

  lemma {:induction false} ChainHolds(p: Platform, seg: seq<Byte>, off: nat, fs: seq<Frame>, k: nat, punched: Punched)
    requires ChainAt(p, seg, off, fs, punched) && k < |fs|
    ensures off <= OffsetOf(fs, off, k) && StandsAt(p, seg, OffsetOf(fs, off, k), fs[k], punched)
    ensures OffsetOf(fs, off, k) + fs[k].Len() <= EndOf(fs, off)
    decreases |fs|
  {
    hide StandsAt;
    if k > 0 {
      ChainHolds(p, seg, off + fs[0].Len(), fs[1..], k - 1, punched);
      assert fs[..k][1..] == fs[1..][..k - 1];
    } else {
      EndGrows(fs[1..], off + fs[0].Len());
    }
  }

  lemma {:induction false} EndConcat(a: seq<Frame>, b: seq<Frame>, off: nat)
    ensures EndOf(a + b, off) == EndOf(b, EndOf(a, off))
  {
    if |a| == 0 {
      assert a + b == b;
    } else {
      EndConcat(a[1..], b, off + a[0].Len());
      assert (a + b)[1..] == a[1..] + b;
    }
  }

  lemma EntriesAppend(fs: seq<Frame>, f: Frame, off: nat)
    ensures EntriesOf(fs + [f], off) == EntriesOf(fs, off) + [Entry(f.id, EndOf(fs, off))]
  {
    hide EndOf, EntriesOf;
    var all := fs + [f];
    EntriesAt(fs, off);
    EntriesAt(all, off);
    forall k | 0 <= k <= |fs| ensures all[..k] == fs[..k] { }
    assert fs[..|fs|] == fs;
  }

  lemma {:induction false} ChainExtends(p: Platform, seg: seq<Byte>, more: seq<Byte>, off: nat, fs: seq<Frame>)
    requires ChainAt(p, seg, off, fs, [])
    ensures ChainAt(p, seg + more, off, fs, [])
    decreases |fs|
  {
    if |fs| > 0 {
      StandsStill(p, seg, more, off, fs[0]);
      hide StandsAt;
      ChainExtends(p, seg, more, off + fs[0].Len(), fs[1..]);
    }
  }

  lemma StandsStill(p: Platform, seg: seq<Byte>, more: seq<Byte>, off: nat, f: Frame)
    requires StandsAt(p, seg, off, f, [])
    ensures StandsAt(p, seg + more, off, f, [])
  {
    hide HdrBytes, FrameBytes;
    assert (seg + more)[off..off + BLOCK_HDR_LEN] == seg[off..off + BLOCK_HDR_LEN];
    assert (seg + more)[off..off + f.Len()] == seg[off..off + f.Len()];
  }

  lemma {:induction false} ChainConcat(p: Platform, seg: seq<Byte>, off: nat, a: seq<Frame>, b: seq<Frame>)
    requires ChainAt(p, seg, off, a, []) && ChainAt(p, seg, EndOf(a, off), b, [])
    ensures ChainAt(p, seg, off, a + b, [])
    decreases |a|
  {
    hide StandsAt;
    if |a| == 0 {
      assert a + b == b;
    } else {
      ChainConcat(p, seg, off + a[0].Len(), a[1..], b);
      assert (a + b)[1..] == a[1..] + b;
    }
  }

  // ---- the image's steps ----------------------------------------------------------------

  lemma FrameStands(p: Platform, seg: seq<Byte>, f: Frame)
    requires p.Lawful() && f.Fits()
    ensures StandsAt(p, seg + FrameBytes(p, f), |seg|, f, [])
  {
    FrameLength(p, f);
    var b := seg + FrameBytes(p, f);
    assert b[|seg|..|seg| + f.Len()] == FrameBytes(p, f);
    assert b[|seg|..|seg| + BLOCK_HDR_LEN] == FrameBytes(p, f)[..BLOCK_HDR_LEN];
  }

  /** Appending a frame's bytes to a segment appends the frame to its chain. */
  lemma AppendHolds(p: Platform, i: nat, file: seq<Byte>, fs: seq<Frame>, f: Frame)
    requires p.Lawful() && SegmentHolds(p, i, file, fs) && f.Fits() && |file| + f.Len() <= SEG_MAX_LIMIT
    ensures SegmentHolds(p, i, file + FrameBytes(p, f), fs + [f])
    ensures EntriesOf(fs + [f], SEG_HDR_LEN) == EntriesOf(fs, SEG_HDR_LEN) + [Entry(f.id, |file|)]
  {
    hide StandsAt, HdrBytes, SegHeader, FrameBytes;
    FrameLength(p, f);
    FrameStands(p, file, f);
    ChainExtends(p, file, FrameBytes(p, f), SEG_HDR_LEN, fs);
    EndConcat(fs, [f], SEG_HDR_LEN);
    EntriesAppend(fs, f, SEG_HDR_LEN);
    var grown := file + FrameBytes(p, f);
    assert ChainAt(p, grown, |file|, [f], []) by { assert [f][1..] == []; }
    ChainConcat(p, grown, SEG_HDR_LEN, fs, [f]);
    assert grown[..SEG_HDR_LEN] == file[..SEG_HDR_LEN];
  }

  lemma NewSegmentHolds(p: Platform, i: nat)
    ensures SegmentHolds(p, i, SegHeader(i, NoDict()), [])
  {
    assert SegHeader(i, NoDict())[..SEG_HDR_LEN] == SegHeader(i, NoDict());
  }

  /** Resize to cover `id`, then record its place. */
  function Recorded(dir: Directory, id: nat, place: Place): (r: Directory)
    ensures |r| == Max(|dir|, id + 1)
    ensures forall o :: 0 <= o < |r| ==>
              r[o] == if o == id then Some(place) else if o < |dir| then dir[o] else None
  {
    var wide := if |dir| <= id then dir + seq(id + 1 - |dir|, _ => None) else dir;
    wide[id := Some(place)]
  }

  lemma PlacedWith(frames: seq<seq<Frame>>, placed: map<nat, Frame>, i: nat, f: Frame)
    requires Kept(frames, placed) && i < |frames| && f.id !in placed
    ensures Kept(frames[i := frames[i] + [f]], placed[f.id := f])
  {
    var after: seq<seq<Frame>> := frames[i := frames[i] + [f]];
    var m := placed[f.id := f];
    forall j, k | 0 <= j < |after| && 0 <= k < |after[j]|
      ensures after[j][k].id in m && m[after[j][k].id] == after[j][k]
    {
      if !(j == i && k == |frames[i]|) {
        assert after[j][k] == frames[j][k];
        assert frames[j][k].id in placed;
      }
    }
  }

  lemma AppendListed(frames: seq<seq<Frame>>, dir: Directory, placed: map<nat, Frame>, i: nat, f: Frame, off: nat)
    requires Listed(frames, dir, placed) && i < |frames| && !Has(dir, f.id)
    requires EntriesOf(frames[i] + [f], SEG_HDR_LEN) == EntriesOf(frames[i], SEG_HDR_LEN) + [Entry(f.id, off)]
    ensures Listed(frames[i := frames[i] + [f]], Recorded(dir, f.id, Place(i, off)), placed[f.id := f])
  {
    hide EntriesOf, Kept, Recorded;
    var after := frames[i := frames[i] + [f]];
    var d := Recorded(dir, f.id, Place(i, off));
    RecordedHas(dir, f.id, Place(i, off));
    forall j, e | 0 <= j < |after| && e in EntriesOf(after[j], SEG_HDR_LEN)
      ensures Has(d, e.id) && d[e.id].value == Place(j, e.off)
    {
      NewlyListed(frames, dir, placed, i, f, off, j, e);
    }
    forall id: nat | Has(d, id)
      ensures d[id].value.seg < |after|
      ensures Entry(id, d[id].value.off) in EntriesOf(after[d[id].value.seg], SEG_HDR_LEN)
    {
      StillListed(frames, dir, placed, i, f, off, id);
    }
    PlacedWith(frames, placed, i, f);
  }

  lemma RecordedHas(dir: Directory, id: nat, place: Place)
    requires |dir| > 0 ==> dir[|dir| - 1].Some?
    ensures var d := Recorded(dir, id, place);
      && |d| > 0 && d[|d| - 1].Some? && Has(d, id) && d[id].value == place
      && (forall o: nat :: Has(d, o) <==> o == id || Has(dir, o))
      && (forall o: nat :: Has(dir, o) && o != id ==> o < |d| && d[o] == dir[o])
  {
    hide Recorded;
  }

  lemma NewlyListed(frames: seq<seq<Frame>>, dir: Directory, placed: map<nat, Frame>, i: nat, f: Frame, off: nat,
                    j: nat, e: Entry)
    requires Listed(frames, dir, placed) && i < |frames| && !Has(dir, f.id)
    requires EntriesOf(frames[i] + [f], SEG_HDR_LEN) == EntriesOf(frames[i], SEG_HDR_LEN) + [Entry(f.id, off)]
    requires j < |frames| && e in EntriesOf(frames[i := frames[i] + [f]][j], SEG_HDR_LEN)
    ensures var d := Recorded(dir, f.id, Place(i, off)); Has(d, e.id) && d[e.id].value == Place(j, e.off)
  {
    hide EntriesOf, Kept, Recorded;
    if !(j == i && e == Entry(f.id, off)) {
      assert e in EntriesOf(frames[j], SEG_HDR_LEN);
      assert Has(dir, e.id);
    }
  }

  lemma StillListed(frames: seq<seq<Frame>>, dir: Directory, placed: map<nat, Frame>, i: nat, f: Frame, off: nat, id: nat)
    requires Listed(frames, dir, placed) && i < |frames| && !Has(dir, f.id)
    requires EntriesOf(frames[i] + [f], SEG_HDR_LEN) == EntriesOf(frames[i], SEG_HDR_LEN) + [Entry(f.id, off)]
    requires Has(Recorded(dir, f.id, Place(i, off)), id)
    ensures var d := Recorded(dir, f.id, Place(i, off)); var after := frames[i := frames[i] + [f]];
      d[id].value.seg < |after| && Entry(id, d[id].value.off) in EntriesOf(after[d[id].value.seg], SEG_HDR_LEN)
  {
    hide EntriesOf, Kept, Recorded;
    if id == f.id {
      assert Entry(f.id, off) in EntriesOf(frames[i] + [f], SEG_HDR_LEN);
    } else {
      assert Has(dir, id);
    }
  }

  lemma RollListed(frames: seq<seq<Frame>>, dir: Directory, placed: map<nat, Frame>)
    requires Listed(frames, dir, placed)
    ensures Listed(frames + [[]], dir, placed)
  {
    hide EntriesOf;
    var after := frames + [[]];
    assert after[|frames|] == [];
    NoEntries();
    forall i, e | 0 <= i < |after| && e in EntriesOf(after[i], SEG_HDR_LEN)
      ensures Has(dir, e.id) && dir[e.id].value == Place(i, e.off)
    {
      assert i < |frames|;
    }
    forall id: nat | Has(dir, id)
      ensures dir[id].value.seg < |after|
      ensures Entry(id, dir[id].value.off) in EntriesOf(after[dir[id].value.seg], SEG_HDR_LEN)
    {
      assert after[dir[id].value.seg] == frames[dir[id].value.seg];
    }
  }

  lemma NoEntries()
    ensures EntriesOf([], SEG_HDR_LEN) == []
  {
  }

  /** A directory entry leads to a frame that reads back as the block it was built from. */
  lemma PlacedReadsBack(p: Platform, limits: ReadLimits, files: seq<seq<Byte>>, frames: seq<seq<Frame>>,
                        dir: Directory, placed: map<nat, Frame>, id: nat)
    requires p.Lawful() && SegmentsHold(p, limits, files, frames) && Listed(frames, dir, placed)
    requires id in placed
    ensures Has(dir, id) && dir[id].value.seg < |files| && placed[id].id == id
    ensures ReadBlock(p, limits, files[dir[id].value.seg], dir[id].value.off, id) == Ok(placed[id].raw)
  {
    hide EntriesOf, ReadBlock, StandsAt, ChainAt, HdrBytes, FrameBytes, CodecDecode;
    assert Has(dir, id);
    var Place(s, o) := dir[id].value;
    var fs := frames[s];
    assert Entry(id, o) in EntriesOf(fs, SEG_HDR_LEN);
    EntriesAt(fs, SEG_HDR_LEN);
    var k :| 0 <= k < |fs| && EntriesOf(fs, SEG_HDR_LEN)[k] == Entry(id, o);
    assert SegmentHolds(p, s, files[s], fs);
    ChainHolds(p, files[s], SEG_HDR_LEN, fs, k, []);
    assert Readable(p, limits, fs[k]);
    assert placed[fs[k].id] == fs[k];
    StandingReadsBack(p, limits, files[s], o, fs[k]);
  }

  lemma StandingReadsBack(p: Platform, limits: ReadLimits, file: seq<Byte>, off: nat, f: Frame)
    requires p.Lawful() && Readable(p, limits, f) && SEG_HDR_LEN <= off && |file| <= SEG_MAX_LIMIT
    requires StandsAt(p, file, off, f, [])
    ensures ReadBlock(p, limits, file, off, f.id) == Ok(f.raw)
  {
    assert !Declared([], f.id);
    hide ReadBlock, HdrBytes, FrameBytes, CodecDecode;
    FrameReadsBack(p, limits, file, off, f);
  }

  // ---- the active segment's entries, in order -------------------------------------------

  predicate Increasing(entries: seq<Entry>) {
    forall i, j :: 0 <= i < j < |entries| ==> entries[i].off < entries[j].off
  }

  lemma {:induction false} EntriesIncrease(fs: seq<Frame>, off: nat)
    ensures Increasing(EntriesOf(fs, off))
    ensures forall e :: e in EntriesOf(fs, off) ==> off <= e.off
  {
    if |fs| > 0 {
      EntriesIncrease(fs[1..], off + fs[0].Len());
      var rest := EntriesOf(fs[1..], off + fs[0].Len());
      forall j | 0 <= j < |rest| ensures off < rest[j].off { assert rest[j] in rest; }
    }
  }

  /** Two lists in strictly increasing offset order with the same members are the same list. */
  lemma {:induction false} SameMembersSameList(a: seq<Entry>, b: seq<Entry>)
    requires Increasing(a) && Increasing(b) && forall e :: e in a <==> e in b
    ensures a == b
  {
    if |b| > 0 { assert b[0] in b; }
    if |a| > 0 {
      assert a[0] in b;
      assert b[0] in a;
      var i :| 0 <= i < |b| && b[i] == a[0];
      var j :| 0 <= j < |a| && a[j] == b[0];
      assert a[0] == b[0];
      forall e ensures e in a[1..] <==> e in b[1..] {
        if e in a[1..] { assert e in b && e != b[0]; }
        if e in b[1..] { assert e in a && e != a[0]; }
      }
      SameMembersSameList(a[1..], b[1..]);
      assert a == [a[0]] + a[1..] && b == [b[0]] + b[1..];
    }
  }

  /** The directory's entries for segment `seg` among the first `n` ids. */
  ghost predicate Collected(entries: seq<Entry>, dir: Directory, seg: nat, n: nat) {
    && (forall e :: e in entries <==> e.id < n && Has(dir, e.id) && dir[e.id].value == Place(seg, e.off))
    && (forall i, j :: 0 <= i < j < |entries| ==> entries[i].off <= entries[j].off)
    && (forall i, j :: 0 <= i < j < |entries| ==> entries[i].id != entries[j].id)
  }

  method InsertByOffset(entries: seq<Entry>, e: Entry) returns (r: seq<Entry>)
    requires forall i, j :: 0 <= i < j < |entries| ==> entries[i].off <= entries[j].off
    requires forall i :: 0 <= i < |entries| ==> entries[i].id < e.id
    requires forall i, j :: 0 <= i < j < |entries| ==> entries[i].id != entries[j].id
    ensures forall x :: x in r <==> x in entries || x == e
    ensures forall i, j :: 0 <= i < j < |r| ==> r[i].off <= r[j].off
    ensures forall i, j :: 0 <= i < j < |r| ==> r[i].id != r[j].id
  {
    var k := 0;
    while k < |entries| && entries[k].off <= e.off
      invariant k <= |entries|
      invariant forall i :: 0 <= i < k ==> entries[i].off <= e.off
    {
      k := k + 1;
    }
    r := entries[..k] + [e] + entries[k..];
    InsertedAt(entries, e, k, r);
  }

  lemma InsertedAt(entries: seq<Entry>, e: Entry, k: nat, r: seq<Entry>)
    requires k <= |entries| && r == entries[..k] + [e] + entries[k..]
    ensures |r| == |entries| + 1 && r[k] == e
    ensures forall i :: 0 <= i < |r| && i != k ==> r[i] == entries[if i < k then i else i - 1]
    ensures forall x :: x in r <==> x in entries || x == e
  {
    assert entries == entries[..k] + entries[k..];
  }

  /** What the writer lists for a segment is what a scan of it would find, in the same order. */
  method SegmentEntries(dir: Directory, seg: nat, ghost frames: seq<seq<Frame>>, ghost placed: map<nat, Frame>)
    returns (entries: seq<Entry>)
    requires Listed(frames, dir, placed) && seg < |frames|
    ensures entries == EntriesOf(frames[seg], SEG_HDR_LEN)
  {
    hide Listed, EntriesOf;
    entries := [];
    var id := 0;
    while id < |dir|
      invariant id <= |dir|
      invariant Collected(entries, dir, seg, id)
    {
      if dir[id].Some? && dir[id].value.seg == seg {
        assert forall i :: 0 <= i < |entries| ==> entries[i] in entries;
        entries := InsertByOffset(entries, Entry(id, dir[id].value.off));
      }
      id := id + 1;
    }
    CollectedIsScan(entries, dir, seg, frames, placed);
  }

  lemma CollectedIsScan(entries: seq<Entry>, dir: Directory, seg: nat, frames: seq<seq<Frame>>, placed: map<nat, Frame>)
    requires Listed(frames, dir, placed) && seg < |frames| && Collected(entries, dir, seg, |dir|)
    ensures entries == EntriesOf(frames[seg], SEG_HDR_LEN)
  {
    var scan := EntriesOf(frames[seg], SEG_HDR_LEN);
    EntriesIncrease(frames[seg], SEG_HDR_LEN);
    hide EntriesOf;
    forall e ensures e in entries <==> e in scan {
      if e in entries { assert Has(dir, e.id) && Entry(e.id, e.off) in scan; }
      if e in scan { assert Has(dir, e.id); }
    }
    forall i, j | 0 <= i < j < |entries| ensures entries[i].off < entries[j].off {
      assert entries[i] in scan && entries[j] in scan;
      var x :| 0 <= x < |scan| && scan[x] == entries[i];
      var y :| 0 <= y < |scan| && scan[y] == entries[j];
      assert x != y;
    }
    SameMembersSameList(entries, scan);
  }
}
