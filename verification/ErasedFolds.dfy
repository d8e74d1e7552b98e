/** Opening the segments of a fold as they are found: under declared erasures, damaged, or of another fold. */
module ErasedFolds {
  import opened Bytes
  import opened Host
  import opened Frames
  import opened Segments
  import opened FoldImage
  import opened FoldState
  import opened FoldCore
  import opened FoldReopen
  import Folds
  import SegmentMembers

  // ---- what an erasure leaves ---------------------------------------------------------------

  lemma HeaderApart(seg: seq<Byte>, at: nat, data: seq<Byte>, off: nat, n: nat)
    requires off + n <= |seg| && at + |data| <= |seg| && (off + n <= at || at + |data| <= off)
    ensures Patch(seg, at, data)[off..off + n] == seg[off..off + n]
  {
    hide Patch;
  }

  /** Whatever is written over the payload of a declared block, the chain still stands under the declaration. */
  lemma {:induction false} ErasingKeepsChain(p: Platform, punched: Punched, seg: seq<Byte>, off: nat, fs: seq<Frame>, k: nat,
                                             data: seq<Byte>)
    requires ChainAt(p, seg, off, fs, punched) && k < |fs| && Declared(punched, fs[k].id)
    requires |data| <= fs[k].Len() - BLOCK_HDR_LEN && EndOf(fs, off) <= |seg|
    ensures ChainAt(p, Patch(seg, OffsetOf(fs, off, k) + BLOCK_HDR_LEN, data), off, fs, punched)
    ensures |Patch(seg, OffsetOf(fs, off, k) + BLOCK_HDR_LEN, data)| == |seg|
    decreases |fs|
  {
    hide Patch, HdrBytes, FrameBytes, Declared, Platform.Lawful, Frame.Fits;
    ChainHolds(p, seg, off, fs, k, punched);
    var at := OffsetOf(fs, off, k) + BLOCK_HDR_LEN;
    var now := Patch(seg, at, data);
    if k == 0 {
      HeaderApart(seg, at, data, off, BLOCK_HDR_LEN);
      EndGrows(fs[1..], off + fs[0].Len());
      ChainApart(p, punched, seg, at, data, off + fs[0].Len(), fs[1..]);
    } else {
      assert fs[..k][1..] == fs[1..][..k - 1];
      HeaderApart(seg, at, data, off, BLOCK_HDR_LEN);
      LaterIsPast(fs[1..], off + fs[0].Len(), k - 1);
      HeaderApart(seg, at, data, off, fs[0].Len());
      ErasingKeepsChain(p, punched, seg, off + fs[0].Len(), fs[1..], k - 1, data);
    }
  }

  lemma LaterIsPast(fs: seq<Frame>, off: nat, k: nat)
    requires k <= |fs|
    ensures off <= OffsetOf(fs, off, k)
  {
    EndGrows(fs[..k], off);
  }

  /** A chain past the written window stands as it stood. */
  lemma {:induction false} ChainApart(p: Platform, punched: Punched, seg: seq<Byte>, at: nat, data: seq<Byte>, off: nat, fs: seq<Frame>)
    requires ChainAt(p, seg, off, fs, punched) && at + |data| <= off && at + |data| <= |seg|
    ensures ChainAt(p, Patch(seg, at, data), off, fs, punched)
    decreases |fs|
  {
    hide Patch, HdrBytes, FrameBytes, Declared;
    if |fs| > 0 {
      HeaderApart(seg, at, data, off, BLOCK_HDR_LEN);
      HeaderApart(seg, at, data, off, fs[0].Len());
      ChainApart(p, punched, seg, at, data, off + fs[0].Len(), fs[1..]);
    }
  }

  // ---- reading under declared erasures --------------------------------------------------------

  /** A piece read from the segments: the declaration is asked first, and names an erasure. */
  function PieceUnder(p: Platform, limits: ReadLimits, punched: Punched, files: seq<seq<Byte>>, blocks: Directory, loc: Loc)
    : Outcome<seq<Byte>>
  {
    if Declared(punched, loc.blockId) then Err else SegmentMembers.PieceFrom(p, limits, files, blocks, loc)
  }

  lemma BlockUnder(p: Platform, limits: ReadLimits, punched: Punched, c: Core, now: seq<seq<Byte>>, id: nat)
    requires Sound(p, limits, c) && FilesUnder(p, punched, now, c.frames)
    requires id in c.placed && !Declared(punched, id)
    ensures Has(c.dir, id) && c.dir[id].value.seg < |now|
    ensures ReadBlock(p, limits, now[c.dir[id].value.seg], c.dir[id].value.off, id) == Ok(c.placed[id].raw)
  {
    hide EntriesOf, ReadBlock, ChainAt, HdrBytes, FrameBytes, CodecDecode, Staged, Tracks, Caches, Holds, Platform.Lawful,
         SegmentHolds, SegHeader, ParseHdr, VerifyFrame, EndOf, OffsetOf, Recorded;
    HasIsPlaced(c.frames, c.dir, c.placed, id);
    var Place(s, o) := c.dir[id].value;
    var fs := c.frames[s];
    assert Entry(id, o) in EntriesOf(fs, SEG_HDR_LEN);
    EntriesAt(fs, SEG_HDR_LEN);
    var k :| 0 <= k < |fs| && EntriesOf(fs, SEG_HDR_LEN)[k] == Entry(id, o);
    assert SegmentUnder(p, punched, s, now[s], fs);
    ChainHolds(p, now[s], SEG_HDR_LEN, fs, k, punched);
    assert Readable(p, limits, fs[k]) && c.placed[fs[k].id] == fs[k];
    FrameReadsBack(p, limits, now[s], o, fs[k]);
  }

  /** After a reopen under declared erasures every piece outside the declared blocks is read back, and a piece in
      one is refused. */
  lemma PiecesUnderErasures(p: Platform, limits: ReadLimits, punched: Punched, c: Core, now: seq<seq<Byte>>, loc: Loc)
    requires Sound(p, limits, c) && SegmentMembers.Synced(c) && FilesUnder(p, punched, now, c.frames) && loc in c.pieces
    ensures var r := OpenedAll(p, limits, punched, Index([], 0, 0), now, 0);
      && r.Ok? && r.value.dir == c.dir && r.value.next == c.next
      && PieceUnder(p, limits, punched, now, r.value.dir, loc)
         == if Declared(punched, loc.blockId) then Err else Ok(c.pieces[loc])
  {
    hide Sound, FilesUnder, OpenedAll, ReadBlock, Declared, Has;
    ReopenUnderErasures(p, limits, punched, c, now);
    if !Declared(punched, loc.blockId) {
      PieceServed(p, limits, c, loc);
      BlockUnder(p, limits, punched, c, now, loc.blockId);
    }
  }

  // ---- exactly what is accepted -----------------------------------------------------------------

  datatype Item = Item(id: nat, place: Place)

  function ItemsOf(seg: nat, entries: seq<Entry>): (r: seq<Item>)
    ensures |r| == |entries|
  {
    if |entries| == 0 then [] else [Item(entries[0].id, Place(seg, entries[0].off))] + ItemsOf(seg, entries[1..])
  }

  /** Every frame of every segment, in the order of the files. */
  function Listing(p: Platform, limits: ReadLimits, punched: Punched, files: seq<seq<Byte>>, i: nat): seq<Item>
    requires i <= |files|
    decreases |files| - i
  {
    if i == |files| then []
    else
      var scan := Scanned(p, limits, punched, i, files[i]);
      ItemsOf(i, if scan.Ok? then scan.value else []) + Listing(p, limits, punched, files, i + 1)
  }

  predicate AllScan(p: Platform, limits: ReadLimits, punched: Punched, files: seq<seq<Byte>>, i: nat) {
    forall k :: i <= k < |files| ==> Scanned(p, limits, punched, k, files[k]).Ok?
  }

  function InstallItems(limits: ReadLimits, ix: Index, items: seq<Item>): Outcome<Index>
    decreases |items|
  {
    if |items| == 0 then Ok(ix)
    else
      var next :- Installed(limits, ix, items[0].id, items[0].place);
      InstallItems(limits, next, items[1..])
  }

  lemma {:induction false} InstallsItems(limits: ReadLimits, ix: Index, seg: nat, entries: seq<Entry>)
    ensures InstalledAll(limits, ix, seg, entries) == InstallItems(limits, ix, ItemsOf(seg, entries))
    decreases |entries|
  {
    hide Installed;
    if |entries| > 0 {
      var next := Installed(limits, ix, entries[0].id, Place(seg, entries[0].off));
      assert ItemsOf(seg, entries)[1..] == ItemsOf(seg, entries[1..]);
      if next.Ok? { InstallsItems(limits, next.value, seg, entries[1..]); }
    }
  }

  lemma {:induction false} InstallConcat(limits: ReadLimits, ix: Index, a: seq<Item>, b: seq<Item>)
    ensures var first := InstallItems(limits, ix, a);
            InstallItems(limits, ix, a + b) == if first.Ok? then InstallItems(limits, first.value, b) else Err
    decreases |a|
  {
    hide Installed;
    if |a| == 0 {
      assert a + b == b;
    } else {
      assert (a + b)[1..] == a[1..] + b;
      var next := Installed(limits, ix, a[0].id, a[0].place);
      if next.Ok? { InstallConcat(limits, next.value, a[1..], b); }
    }
  }

  lemma {:induction false} OpensAsListing(p: Platform, limits: ReadLimits, punched: Punched, ix: Index, files: seq<seq<Byte>>, i: nat)
    requires i <= |files|
    ensures OpenedAll(p, limits, punched, ix, files, i)
         == if AllScan(p, limits, punched, files, i) then InstallItems(limits, ix, Listing(p, limits, punched, files, i)) else Err
    decreases |files| - i
  {
    hide Scanned, InstalledAll, InstallItems, ItemsOf;
    if i < |files| {
      var scan := Scanned(p, limits, punched, i, files[i]);
      if scan.Ok? {
        InstallsItems(limits, ix, i, scan.value);
        InstallConcat(limits, ix, ItemsOf(i, scan.value), Listing(p, limits, punched, files, i + 1));
        var next := InstalledAll(limits, ix, i, scan.value);
        if next.Ok? { OpensAsListing(p, limits, punched, next.value, files, i + 1); }
        assert AllScan(p, limits, punched, files, i) <==> AllScan(p, limits, punched, files, i + 1);
      }
    } else {
      InstallNothing(limits, ix);
    }
  }

  lemma InstallNothing(limits: ReadLimits, ix: Index)
    ensures InstallItems(limits, ix, []) == Ok(ix)
  {
  }

  /** No id twice nor known already, every id representable and admitted, and so is their number. */
  predicate Installable(limits: ReadLimits, ix: Index, items: seq<Item>) {
    && (forall k :: 0 <= k < |items| ==>
          limits.AdmitBlocks(items[k].id + 1) && items[k].id + 1 <= U32_MAX && !Has(ix.dir, items[k].id))
    && (forall j, k :: 0 <= j < k < |items| ==> items[j].id != items[k].id)
    && (|items| > 0 ==> limits.AdmitBlocks(ix.seen + |items|))
  }

  /** The directory holds what it held, and each item at its place. */
  ghost predicate Gains(before: Directory, after: Directory, items: seq<Item>) {
    && (forall k :: 0 <= k < |items| ==> Has(after, items[k].id) && after[items[k].id].value == items[k].place)
    && (forall id: nat :: Has(after, id) ==>
          (Has(before, id) && after[id] == before[id]) || exists k :: 0 <= k < |items| && items[k].id == id)
    && (forall id: nat :: Has(before, id) ==> Has(after, id))
  }

  lemma {:induction false} InstallsExactly(limits: ReadLimits, ix: Index, items: seq<Item>)
    ensures InstallItems(limits, ix, items).Ok? <==> Installable(limits, ix, items)
    ensures InstallItems(limits, ix, items).Ok? ==> Gains(ix.dir, InstallItems(limits, ix, items).value.dir, items)
    decreases |items|
  {
    hide Recorded, Gains;
    if |items| == 0 {
      GainsNothing(ix.dir);
      assert items == [];
    } else {
      var head, rest := items[0], items[1..];
      assert items == [head] + rest;
      var next := Installed(limits, ix, head.id, head.place);
      if next.Ok? {
        InstallsExactly(limits, next.value, rest);
        RestInstallable(limits, ix, head, rest, next.value);
        if InstallItems(limits, next.value, rest).Ok? {
          GainsOneMore(ix.dir, next.value.dir, InstallItems(limits, next.value, rest).value.dir, head, rest);
        }
      }
    }
  }

  lemma GainsNothing(dir: Directory)
    ensures Gains(dir, dir, [])
  {
  }

  lemma RestInstallable(limits: ReadLimits, ix: Index, head: Item, rest: seq<Item>, next: Index)
    requires Installed(limits, ix, head.id, head.place) == Ok(next)
    ensures Installable(limits, next, rest) <==> Installable(limits, ix, [head] + rest)
  {
    hide Recorded;
    var items := [head] + rest;
    assert forall o: nat :: Has(next.dir, o) <==> o == head.id || Has(ix.dir, o);
    if Installable(limits, next, rest) {
      forall k | 0 <= k < |items|
        ensures limits.AdmitBlocks(items[k].id + 1) && items[k].id + 1 <= U32_MAX && !Has(ix.dir, items[k].id)
      {
        if k > 0 { assert items[k] == rest[k - 1]; }
      }
      forall j, k | 0 <= j < k < |items| ensures items[j].id != items[k].id {
        assert items[k] == rest[k - 1];
        if j > 0 { assert items[j] == rest[j - 1]; }
      }
    }
    if Installable(limits, ix, items) {
      forall k | 0 <= k < |rest|
        ensures limits.AdmitBlocks(rest[k].id + 1) && rest[k].id + 1 <= U32_MAX && !Has(next.dir, rest[k].id)
      {
        assert rest[k] == items[k + 1] && items[0] == head;
      }
      forall j, k | 0 <= j < k < |rest| ensures rest[j].id != rest[k].id {
        assert rest[j] == items[j + 1] && rest[k] == items[k + 1];
      }
    }
  }

  lemma GainsOneMore(before: Directory, next: Directory, after: Directory, head: Item, rest: seq<Item>)
    requires next == Recorded(before, head.id, head.place) && Gains(next, after, rest)
    requires forall k :: 0 <= k < |rest| ==> rest[k].id != head.id
    ensures Gains(before, after, [head] + rest)
  {
    hide Recorded;
    var items := [head] + rest;
    assert Has(next, head.id);
    forall k | 0 <= k < |items| ensures Has(after, items[k].id) && after[items[k].id].value == items[k].place {
      if k > 0 { assert items[k] == rest[k - 1]; }
    }
    forall id: nat | Has(after, id)
      ensures (Has(before, id) && after[id] == before[id]) || exists k :: 0 <= k < |items| && items[k].id == id
    {
      if id == head.id {
        assert items[0].id == id;
      } else if exists k :: 0 <= k < |rest| && rest[k].id == id {
        var k :| 0 <= k < |rest| && rest[k].id == id;
        assert items[k + 1].id == id;
      }
    }
    forall id: nat | Has(before, id) ensures Has(after, id) { assert Has(next, id); }
  }

  /** Segments of any origin open exactly when each has its own header and scans to its end, no block id occurs
      twice among them, and every id and their number are admitted; the directory then lists every frame. */
  lemma OpensExactly(p: Platform, limits: ReadLimits, punched: Punched, files: seq<seq<Byte>>)
    ensures var r := OpenedAll(p, limits, punched, Index([], 0, 0), files, 0);
      && (r.Ok? <==> AllScan(p, limits, punched, files, 0)
                     && Installable(limits, Index([], 0, 0), Listing(p, limits, punched, files, 0)))
      && (r.Ok? ==> Gains([], r.value.dir, Listing(p, limits, punched, files, 0)))
  {
    hide OpenedAll, AllScan, Listing, Installable, Gains;
    OpensAsListing(p, limits, punched, Index([], 0, 0), files, 0);
    InstallsExactly(limits, Index([], 0, 0), Listing(p, limits, punched, files, 0));
  }

  // ---- the open -----------------------------------------------------------------------------------

  /** Every declared range names blocks that exist. */
  predicate RangesExist(punched: Punched, dir: Directory) {
    forall k :: 0 <= k < |punched| ==>
      punched[k].0 <= punched[k].1 + 1 <= |dir| && forall id :: punched[k].0 <= id <= punched[k].1 ==> Has(dir, id)
  }

  predicate TailAgrees(members: seq<seq<Byte>>, committed: Option<Folds.FoldTail>)
    requires |members| > 0
  {
    committed.Some? ==> committed.value == Folds.FoldTail(|members| - 1, |members[|members| - 1]|)
  }

  /** The checks of `open_container_writer` over members of any origin: damage, another fold's segments, a tail
      the manifest does not know and ranges that name no block are each refused, and nothing else is. */
  method OpenMembers(p: Platform, limits: ReadLimits, punched: Punched, members: seq<seq<Byte>>, committed: Option<Folds.FoldTail>)
    returns (r: Outcome<Index>)
    requires |members| > 0
    ensures r.Ok? ==> TailAgrees(members, committed) && AllScan(p, limits, punched, members, 0)
                      && Installable(limits, Index([], 0, 0), Listing(p, limits, punched, members, 0))
                      && Gains([], r.value.dir, Listing(p, limits, punched, members, 0)) && RangesExist(punched, r.value.dir)
    ensures TailAgrees(members, committed) && AllScan(p, limits, punched, members, 0)
            && Installable(limits, Index([], 0, 0), Listing(p, limits, punched, members, 0))
            ==> var rebuilt := OpenedAll(p, limits, punched, Index([], 0, 0), members, 0);
                rebuilt.Ok? && (RangesExist(punched, rebuilt.value.dir) ==> r == rebuilt)
  {
    hide OpenedAll, AllScan, Listing, Installable, Gains;
    OpensExactly(p, limits, punched, members);
    var active := |members| - 1;
    if committed.Some? && (committed.value.seg != active || committed.value.off != |members[active]|) { return Err; }
    r := RebuildDirectory(p, limits, punched, members);
    if r.Err? { return Err; }
    for i := 0 to |punched|
      invariant forall k :: 0 <= k < i ==>
        punched[k].0 <= punched[k].1 + 1 <= |r.value.dir|
        && forall id :: punched[k].0 <= id <= punched[k].1 ==> Has(r.value.dir, id)
    {
      var (lo, hi) := punched[i];
      if hi + 1 > |r.value.dir| || lo > hi + 1 { return Err; }
      var whole := EveryBlock(r.value.dir, lo, hi);
      if !whole { return Err; }
    }
  }

  method EveryBlock(dir: Directory, lo: nat, hi: nat) returns (whole: bool)
    requires lo <= hi + 1 <= |dir|
    ensures whole <==> forall id :: lo <= id <= hi ==> Has(dir, id)
  {
    for id := lo to hi + 1
      invariant forall k :: lo <= k < id ==> Has(dir, k)
    {
      if dir[id].None? {
        assert !Has(dir, id);
        return false;
      }
    }
    return true;
  }
}
