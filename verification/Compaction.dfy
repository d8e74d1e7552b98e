/** The fresh container a reclaim builds: every member copied whole into a new file, then published. */
module Compaction {
  import opened Bytes
  import opened Host
  import opened Directory
  import opened Layout
  import opened Superblocks
  import opened Device
  import opened Staging
  import opened Publication
  import opened Checksums
  import opened CrashSafety
  import opened Containers

  /** Adding a name above all others appends it, and frees nothing. */
  lemma PutAppends(t: Tables, name: Name, m: Member, nextSeq: nat)
    requires forall i :: 0 <= i < |t.dir| ==> Less(t.dir[i].name, name)
    ensures StagePut(t, name, m, nextSeq) == Tables(t.dir + [Entry(name, m)], t.free)
  {
    PositionPastAll(t.dir, name);
    assert FreedAt([], nextSeq) == [];
    assert t.dir[..|t.dir|] == t.dir && t.dir[|t.dir|..] == [];
    assert t.free + [] == t.free;
  }

  lemma {:induction false} PositionPastAll(dir: seq<Entry>, name: Name)
    requires forall i :: 0 <= i < |dir| ==> Less(dir[i].name, name)
    ensures Position(dir, name) == |dir| && !Contains(dir, name)
  {
    if |dir| > 0 { PositionPastAll(dir[1..], name); }
  }

  /** The first `k` members stand in the new file, each whole in at most one extent, byte for byte. */
  ghost predicate Copied(src: seq<Byte>, from: seq<Entry>, file: seq<Byte>, dir: seq<Entry>, tail: nat, k: nat) {
    && |dir| == k <= |from|
    && forall i :: 0 <= i < k ==> CopiedOne(src, from[i], file, dir[i], tail)
  }

  ghost predicate CopiedOne(src: seq<Byte>, was: Entry, file: seq<Byte>, now: Entry, tail: nat) {
    && now.name == was.name
    && now.member.len == |ReadExtents(src, was.member.extents)|
    && (now.member.len == 0 ==> now.member.extents == [])
    && (now.member.len > 0 ==>
          && |now.member.extents| == 1
          && var e := now.member.extents[0];
             && e.len == now.member.len && REGION_START <= e.off && End(e) <= tail && End(e) <= |file|
             && file[e.off..End(e)] == ReadExtents(src, was.member.extents))
  }

  lemma CopiedReads(src: seq<Byte>, was: Entry, file: seq<Byte>, now: Entry, tail: nat)
    requires CopiedOne(src, was, file, now, tail)
    ensures ReadExtents(file, now.member.extents) == ReadExtents(src, was.member.extents)
    ensures |now.member.extents| <= 1
  {
    var es := now.member.extents;
    if now.member.len > 0 {
      assert es[..0] == [];
      assert ReadExtents(file, []) == [];
      var e := es[0];
      assert Slice(file, e) == file[e.off..End(e)];
      assert ReadExtents(file, es) == [] + Slice(file, e);
    } else {
      assert ReadExtents(src, was.member.extents) == [];
    }
  }

  /** Bytes below the cursor stay, so what was copied stays copied. */
  lemma CopiedStays(src: seq<Byte>, from: seq<Entry>, file: seq<Byte>, grown: seq<Byte>, dir: seq<Entry>,
                    tail: nat, later: nat, k: nat)
    requires Copied(src, from, file, dir, tail, k) && tail <= later && |file| <= |grown|
    requires forall i :: REGION_START <= i < tail && i < |file| ==> grown[i] == file[i]
    ensures Copied(src, from, grown, dir, later, k)
  {
    hide ReadExtents;
    forall i | 0 <= i < k ensures CopiedOne(src, from[i], grown, dir[i], later) {
      assert CopiedOne(src, from[i], file, dir[i], tail);
      if dir[i].member.len > 0 {
        var e := dir[i].member.extents[0];
        assert grown[e.off..End(e)] == file[e.off..End(e)];
      }
    }
  }

  /** One more member copied: the entry is appended, and its bytes stand where it says. */
  lemma CopiedNext(src: seq<Byte>, from: seq<Entry>, file: seq<Byte>, grown: seq<Byte>, dir: seq<Entry>,
                   tail: nat, k: nat, data: seq<Byte>, xsum: nat)
    requires Copied(src, from, file, dir, tail, k) && k < |from| && data == ReadExtents(src, from[k].member.extents)
    requires REGION_START <= tail && |file| <= |grown|
    requires forall i :: REGION_START <= i < tail && i < |file| ==> grown[i] == file[i]
    requires |data| > 0 ==> AlignUp(tail) + |data| <= |grown|
    requires |data| > 0 ==> grown[AlignUp(tail)..AlignUp(tail) + |data|] == data
    ensures Copied(src, from, grown, dir + [Entry(from[k].name, FreshMember(AlignUp(tail), |data|, xsum))],
                   AlignUp(tail) + |data|, k + 1)
  {
    hide ReadExtents, AlignUp;
    assert tail <= AlignUp(tail) by { AlignUpGrows(tail); }
    CopiedStays(src, from, file, grown, dir, tail, AlignUp(tail) + |data|, k);
    var more := dir + [Entry(from[k].name, FreshMember(AlignUp(tail), |data|, xsum))];
    hide CopiedOne;
    forall i | 0 <= i < k + 1 ensures CopiedOne(src, from[i], grown, more[i], AlignUp(tail) + |data|) {
      if i == k { CopiedLast(src, from[k], grown, AlignUp(tail), data, xsum); }
    }
  }

  lemma AlignUpGrows(x: nat)
    ensures AlignUp(x) >= x
  {
  }

  lemma CopiedLast(src: seq<Byte>, was: Entry, file: seq<Byte>, off: nat, data: seq<Byte>, xsum: nat)
    requires data == ReadExtents(src, was.member.extents) && REGION_START <= off
    requires |data| > 0 ==> off + |data| <= |file| && file[off..off + |data|] == data
    ensures CopiedOne(src, was, file, Entry(was.name, FreshMember(off, |data|, xsum)), off + |data|)
  {
  }

  /** Where the cursor stands once the first `k` members are copied. */
  function FreshTail(src: seq<Byte>, from: seq<Entry>, k: nat): nat
    requires k <= |from|
  {
    if k == 0 then REGION_START else AlignUp(FreshTail(src, from, k - 1)) + |MemberBytes(src, from, k - 1)|
  }

  function MemberBytes(src: seq<Byte>, from: seq<Entry>, i: nat): seq<Byte>
    requires i < |from|
  {
    ReadExtents(src, from[i].member.extents)
  }

  /** The directory once the first `k` members are copied. */
  function FreshDir(p: Platform, src: seq<Byte>, from: seq<Entry>, k: nat): (dir: seq<Entry>)
    requires k <= |from|
    ensures |dir| == k
  {
    if k == 0 then []
    else
      var data := MemberBytes(src, from, k - 1);
      FreshDir(p, src, from, k - 1)
      + [Entry(from[k - 1].name, FreshMember(AlignUp(FreshTail(src, from, k - 1)), |data|, p.crc(data)))]
  }

  /** The members fit a file, and their directory every ceiling of a commit. */
  predicate Compactable(p: Platform, src: seq<Byte>, from: seq<Entry>) {
    && |from| <= MAX_MEMBERS
    && (forall i :: 0 <= i < |from| ==> AlignUp(FreshTail(src, from, i)) + |MemberBytes(src, from, i)| <= U64_MAX)
    && (|from| > 0 ==> Committable(p, Tables(FreshDir(p, src, from, |from|), []), AlignUp(FreshTail(src, from, |from|))))
  }

  /** The new container holds just the first `k` members, staged. */
  ghost predicate Building(source: Container, into: Container, k: nat)
    requires k <= |source.dir|
    reads source, source.f, into
  {
    && !into.poisoned && into.openMember == None && into.sb == BIRTH && into.free == []
    && into.staged == (k > 0)
    && into.dir == FreshDir(source.cfg.p, source.f.bytes, source.dir, k)
    && into.tail == FreshTail(source.f.bytes, source.dir, k)
  }

  /** Stage one member of the source in the new container. */
  method CopyMember(source: Container, into: Container, i: nat) returns (ok: bool)
    requires source.Valid() && !source.poisoned && i < |source.dir| && source != into && source.f != into.f
    requires into.Valid() && !into.poisoned && into.cfg == source.cfg && into.free == [] && REGION_START <= into.tail
    requires Copied(source.f.bytes, source.dir, into.f.bytes, into.dir, into.tail, i)
    requires Building(source, into, i)
    modifies into, into.f
    ensures into.Valid() && into.free == [] && into.sb == old(into.sb) && REGION_START <= into.tail && !into.poisoned
    ensures ok ==> Building(source, into, i + 1)
    ensures !ok ==> into.f.faulted || !Compactable(source.cfg.p, source.f.bytes, source.dir)
    ensures ok ==> into.staged && Copied(source.f.bytes, source.dir, into.f.bytes, into.dir, into.tail, i + 1)
  {
    hide Run, Next, Inv, ReadExtents, Less, StagePut, FreshMember, AlignUp, Container.Midway, Copied, CopiedOne;
    source.AscendingView();
    source.NamesAreText();
    var e := source.dir[i];
    var data := ReadExtents(source.f.bytes, e.member.extents);
    ghost var t := Tables(into.dir, into.free);
    ghost var file, dir, tail := into.f.bytes, into.dir, into.tail;
    NamesBelow(source.f.bytes, source.dir, file, dir, tail, i);
    PutAppends(t, e.name, FreshMember(AlignUp(tail), |data|, into.cfg.p.crc(data)), into.sb.seqno + 1);
    MayCopy(source, into, i);
    ok := into.PutStream(e.name, Source(data, None));
    if ok {
      AlignUpGrows(tail);
      CopiedNext(source.f.bytes, source.dir, file, into.f.bytes, dir, tail, i, data, into.cfg.p.crc(data));
    }
  }

  /** A fresh name meets no refusal but the end of the file's range and the member ceiling. */
  lemma MayCopy(source: Container, into: Container, i: nat)
    requires i < |source.dir| && Building(source, into, i)
    requires ValidName(source.dir[i].name)
    requires forall k :: 0 <= k < |into.dir| ==> Less(into.dir[k].name, source.dir[i].name)
    ensures var n := |MemberBytes(source.f.bytes, source.dir, i)|;
      Compactable(source.cfg.p, source.f.bytes, source.dir) ==>
        into.MayPut(source.dir[i].name, n, if n == 0 then 0 else 1)
  {
    hide Less, ReadExtents, AlignUp, ValidName, FreshDir;
    PositionPastAll(into.dir, source.dir[i].name);
  }

  lemma NamesBelow(src: seq<Byte>, from: seq<Entry>, file: seq<Byte>, dir: seq<Entry>, tail: nat, k: nat)
    requires Copied(src, from, file, dir, tail, k) && NamesAscend(from) && k < |from|
    ensures forall i :: 0 <= i < |dir| ==> Less(dir[i].name, from[k].name)
  {
    hide Less, ReadExtents;
    forall i | 0 <= i < |dir| ensures Less(dir[i].name, from[k].name) {
      assert CopiedOne(src, from[i], file, dir[i], tail);
      AscendingFar(from, i, k);
    }
  }

  /** Copy every member of `source` into a new container and publish it. On success the new container has the
      same names and bytes, at most one extent a member, and an empty free list: there is nothing left that a
      second reclaim would do. */
  method Compact(source: Container) returns (compacted: Container, ok: bool)
    requires source.Valid() && !source.poisoned
    ensures fresh(compacted) && fresh(compacted.f)
    ensures !ok ==> compacted.f.faulted || !Compactable(source.cfg.p, source.f.bytes, source.dir)
    ensures ok ==> compacted.Valid() && compacted.free == [] && !compacted.staged && !compacted.poisoned
    ensures ok ==> |compacted.dir| == |source.dir|
    ensures ok ==> forall i :: 0 <= i < |source.dir| ==>
              && compacted.dir[i].name == source.dir[i].name
              && |compacted.dir[i].member.extents| <= 1
              && ReadExtents(compacted.f.bytes, compacted.dir[i].member.extents)
                 == ReadExtents(source.f.bytes, source.dir[i].member.extents)
  {
    hide Run, Next, Inv, ReadExtents, Less, StagePut, FreshMember, AlignUp, Container.Midway, Copied, CopiedOne;
    LawfulSource(source);
    compacted := new Container.Create(source.cfg);
    ghost var src := source.f.bytes;
    NothingCopied(src, source.dir, compacted.f.bytes, compacted.tail);
    var i := 0;
    while i < |source.dir|
      invariant i <= |source.dir| && fresh(compacted) && fresh(compacted.f)
      invariant compacted.Valid() && compacted.free == [] && !compacted.poisoned && compacted.cfg == source.cfg
      invariant compacted.sb.dirStored == 0 && REGION_START <= compacted.tail
      invariant Copied(src, source.dir, compacted.f.bytes, compacted.dir, compacted.tail, i)
      invariant Building(source, compacted, i)
    {
      ok := CopyMember(source, compacted, i);
      if !ok { return compacted, false; }
      i := i + 1;
    }
    ghost var file, dir, tail := compacted.f.bytes, compacted.dir, compacted.tail;
    ReadyToCommit(source, compacted);
    var published := compacted.Commit();
    if published.Err? { return compacted, false; }
    CopiedStays(src, source.dir, file, compacted.f.bytes, dir, tail, tail, i);
    CopiedMeans(src, source.dir, compacted.f.bytes, dir, tail);
    return compacted, true;
  }

  /** Copied whole, the new container meets no refusal but the ceilings of its directory. */
  lemma ReadyToCommit(source: Container, into: Container)
    requires Building(source, into, |source.dir|) && into.cfg == source.cfg
    ensures Writable(into.View())
    ensures Compactable(source.cfg.p, source.f.bytes, source.dir) && into.staged ==> into.Sealable()
  {
    hide Committable, AlignUp, ReadExtents;
    FreshExtents(source.cfg.p, source.f.bytes, source.dir, |source.dir|);
    assert NextTables(into.View().(failedSelected := None)) == Tables(into.dir, []);
  }

  lemma {:induction false} FreshExtents(p: Platform, src: seq<Byte>, from: seq<Entry>, k: nat)
    requires k <= |from|
    ensures forall e :: e in FreshDir(p, src, from, k) ==> |e.member.extents| <= 1
  {
    hide AlignUp, ReadExtents;
    if k > 0 { FreshExtents(p, src, from, k - 1); }
  }

  lemma LawfulSource(source: Container)
    requires source.Valid()
    ensures source.cfg.p.Lawful()
  {
    hide Run;
  }

  lemma NothingCopied(src: seq<Byte>, from: seq<Entry>, file: seq<Byte>, tail: nat)
    ensures Copied(src, from, file, [], tail, 0)
  {
  }

  lemma CopiedMeans(src: seq<Byte>, from: seq<Entry>, file: seq<Byte>, dir: seq<Entry>, tail: nat)
    requires Copied(src, from, file, dir, tail, |from|)
    ensures |dir| == |from|
    ensures forall i :: 0 <= i < |from| ==>
              && dir[i].name == from[i].name && |dir[i].member.extents| <= 1
              && ReadExtents(file, dir[i].member.extents) == ReadExtents(src, from[i].member.extents)
  {
    hide ReadExtents;
    forall i | 0 <= i < |from|
      ensures dir[i].name == from[i].name && |dir[i].member.extents| <= 1
              && ReadExtents(file, dir[i].member.extents) == ReadExtents(src, from[i].member.extents)
    {
      CopiedReads(src, from[i], file, dir[i], tail);
    }
  }
}
