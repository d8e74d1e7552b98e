/** Where the fold's write side lives when its segments are growing members of a container. */
module Segstore {
  import opened Bytes
  import opened Host
  import opened Frames
  import opened Segments
  import opened Sidecars

  /** Segment members by number, as staged. Durability belongs to the container commit, so `Sync` does
      nothing; any operation may fail for reasons of its own, which `failed` remembers. */
  class ContainerSegments {
    const p: Platform
    var members: seq<seq<Byte>>
    var sidecars: map<nat, seq<Byte>>
    ghost var failed: bool

    constructor (p: Platform, members: seq<seq<Byte>>)
      ensures this.p == p && this.members == members && sidecars == map[] && !failed
    {
      this.p, this.members, sidecars, failed := p, members, map[], false;
    }

    /** Append a frame at the fold's append point. A missing member, or one whose length is not that
        point, is refused before any byte moves. */
    method Append(seg: nat, off: nat, frame: seq<Byte>) returns (ok: bool)
      modifies this
      ensures sidecars == old(sidecars)
      ensures ok ==> seg < |old(members)| && |old(members)[seg]| == off && failed == old(failed)
      ensures ok ==> members == old(members)[seg := old(members)[seg] + frame]
      ensures !ok ==> members == old(members)
      ensures !ok && seg < |members| && |members[seg]| == off ==> failed
    {
      if seg >= |members| { return false; }
      if |members[seg]| != off { return false; }
      if * { failed := true; return false; }
      members := members[seg := members[seg] + frame];
      return true;
    }

    method Sync(seg: nat) returns (ok: bool)
      ensures ok
    {
      return true;
    }

    method WriteSidecar(seg: nat, tail: nat, entries: seq<Entry>) returns (ok: bool)
      modifies this
      ensures members == old(members)
      ensures ok ==> sidecars == old(sidecars)[seg := SidecarBytes(p, seg, tail, entries)] && failed == old(failed)
      ensures !ok ==> sidecars == old(sidecars) && failed
    {
      var bytes := EncodeDirSidecar(p, seg, tail, entries);
      if * { failed := true; return false; }
      sidecars := sidecars[seg := bytes];
      return true;
    }

    method CreateSegment(next: nat) returns (ok: bool)
      requires next == |members|
      modifies this
      ensures sidecars == old(sidecars)
      ensures ok ==> members == old(members) + [SegHeader(next, NoDict())] && failed == old(failed)
      ensures !ok ==> members == old(members) && failed
    {
      if * { failed := true; return false; }
      members := members + [SegHeader(next, NoDict())];
      return true;
    }
  }
}
