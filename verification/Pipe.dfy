/** The compression pool: sealed blocks go in, and each comes back exactly once, in any order. */
module Pipe {
  import opened Bytes
  import opened Host

  datatype Job = Job(blockId: nat, raw: seq<Byte>)

  datatype Done = Done(blockId: nat, codec: nat, raw: seq<Byte>, payload: seq<Byte>) {
    function TheJob(): Job { Job(blockId, raw) }

    /** The payload is the block compressed, or the block itself. */
    ghost predicate Encodes(p: Platform) {
      (codec, payload) == CodecEncode(p, raw) || (codec, payload) == (CODEC_STORED, raw)
    }
  }

  function JobsOf(done: seq<Done>): (jobs: multiset<Job>)
  {
    if |done| == 0 then multiset{} else multiset{done[0].TheJob()} + JobsOf(done[1..])
  }

  lemma {:induction false} JobsOfAppend(done: seq<Done>, d: Done)
    ensures JobsOf(done + [d]) == JobsOf(done) + multiset{d.TheJob()}
  {
    if |done| > 0 {
      assert (done + [d])[1..] == done[1..] + [d];
      JobsOfAppend(done[1..], d);
    }
  }

  lemma JobsOfFirst(done: seq<Done>, i: nat)
    requires i < |done|
    ensures JobsOf(done[i..]) == multiset{done[i].TheJob()} + JobsOf(done[i + 1..])
  {
    assert done[i..][1..] == done[i + 1..];
  }

  ghost predicate AllEncode(p: Platform, done: seq<Done>) {
    forall i :: 0 <= i < |done| ==> done[i].Encodes(p)
  }

  class Pool {
    const p: Platform
    var jobs: multiset<Job>
    var outstanding: nat
    /** Set once the workers are gone and an operation of the pool has failed for it. */
    ghost var died: bool

    ghost predicate Valid()
      reads this
    {
      outstanding == |jobs|
    }

    constructor (p: Platform)
      ensures Valid() && jobs == multiset{} && this.p == p && !died
    {
      this.p, jobs, outstanding, died := p, multiset{}, 0, false;
    }

    /** Hand over a sealed block. */
    method Submit(id: nat, raw: seq<Byte>) returns (ok: bool)
      requires Valid()
      modifies this
      ensures Valid()
      ensures ok ==> jobs == old(jobs) + multiset{Job(id, raw)} && died == old(died)
      ensures !ok ==> jobs == old(jobs) && died
    {
      if * { died := true; return false; }
      jobs := jobs + multiset{Job(id, raw)};
      outstanding := outstanding + 1;
      return true;
    }

    /** One worker: compress, or fall back to the stored form when compression fails. */
    method Work(j: Job) returns (d: Done)
      ensures d.TheJob() == j && d.Encodes(p)
    {
      if * { return Done(j.blockId, CODEC_STORED, j.raw, j.raw); }
      var (codec, payload) := CodecEncode(p, j.raw);
      return Done(j.blockId, codec, j.raw, payload);
    }

    /** Whatever block happens to be finished next. */
    method Receive() returns (d: Done)
      requires Valid() && outstanding > 0
      modifies this
      ensures Valid() && AllEncode(p, [d]) && died == old(died)
      ensures jobs + multiset{d.TheJob()} == old(jobs)
      ensures outstanding == old(outstanding) - 1
    {
      var j :| j in jobs;
      d := Work(j);
      jobs := jobs - multiset{j};
      outstanding := outstanding - 1;
    }

    /** The finished blocks, without waiting for more: any of those outstanding, in any order. */
    method TryTake() returns (done: seq<Done>)
      requires Valid()
      modifies this
      ensures Valid() && AllEncode(p, done) && died == old(died)
      ensures JobsOf(done) + jobs == old(jobs)
    {
      done := [];
      while outstanding > 0
        invariant Valid() && AllEncode(p, done) && died == old(died)
        invariant JobsOf(done) + jobs == old(jobs)
        decreases outstanding
      {
        if * { break; }
        var d := Receive();
        JobsOfAppend(done, d);
        done := done + [d];
      }
    }

    /** Every outstanding block; the wait fails only if the workers are gone. */
    method TakeAll() returns (r: Outcome<seq<Done>>)
      requires Valid()
      modifies this
      ensures Valid()
      ensures r.Ok? ==> AllEncode(p, r.value) && JobsOf(r.value) == old(jobs) && jobs == multiset{} && died == old(died)
      ensures r.Err? ==> jobs <= old(jobs) && died
    {
      var done := [];
      while outstanding > 0
        invariant Valid() && AllEncode(p, done) && died == old(died)
        invariant JobsOf(done) + jobs == old(jobs)
        decreases outstanding
      {
        if * { died := true; return Err; }
        var d := Receive();
        JobsOfAppend(done, d);
        done := done + [d];
      }
      return Ok(done);
    }
  }
}
