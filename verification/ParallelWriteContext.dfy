// A parallel-write context and its search for a free stream. The search holds the
// mutex of the context, but streams are given back without it, so flags may be
// cleared between any two loads.

module ParallelWriteContext {
  import opened Basics

  class ParallelWriteStream {
    var inUse: bool

    constructor ()
      ensures !inUse
    {
      inUse := false;
    }
  }

  // Stream i is given back by some release before the i-th load.
  predicate ReleasedBefore(releases: seq<set<nat>>, i: nat) {
    exists k :: 0 <= k <= i && k < |releases| && i in releases[k]
  }

  class Context {
    const streams: seq<ParallelWriteStream>

    constructor (streams: seq<ParallelWriteStream>)
      ensures this.streams == streams
    {
      this.streams := streams;
    }

    ghost predicate Valid() {
      forall i, j :: 0 <= i < j < |streams| ==> streams[i] != streams[j]
    }

    // Other writers give back the given streams.
    method Release(given: set<nat>)
      requires Valid()
      modifies streams
      ensures forall i :: 0 <= i < |streams| ==> streams[i].inUse == (old(streams[i].inUse) && i !in given)
    {
      for i := 0 to |streams|
        invariant forall j :: 0 <= j < |streams| ==>
          streams[j].inUse == (old(streams[j].inUse) && (j < i ==> j !in given))
      {
        if i in given {
          streams[i].inUse := false;
        }
      }
    }

    // releases[i] are the streams that other writers give back just before the load of
    // flag i. The writer gets the first stream whose flag it sees clear, and none only
    // if every stream was in use when the search began.
    method FindAvailable(releases: seq<set<nat>>) returns (found: Option<nat>)
      requires Valid()
      modifies streams
      ensures found.None? ==> forall i :: 0 <= i < |streams| ==> old(streams[i].inUse) && !ReleasedBefore(releases, i)
      ensures found.Some? ==>
                var j := found.value;
                && j < |streams| && streams[j].inUse
                && !(old(streams[j].inUse) && !ReleasedBefore(releases, j))
                && (forall i :: 0 <= i < j ==> old(streams[i].inUse) && !ReleasedBefore(releases, i))
      ensures forall i :: 0 <= i < |streams| && found != Some(i) && streams[i].inUse ==> old(streams[i].inUse)
      ensures forall i :: 0 <= i < |streams| && old(streams[i].inUse) && !streams[i].inUse ==>
                exists k :: 0 <= k < |releases| && i in releases[k]
    {
      var i := 0;
      while i < |streams|
        invariant 0 <= i <= |streams|
        invariant forall j :: 0 <= j < i ==> old(streams[j].inUse) && !ReleasedBefore(releases, j)
        invariant forall j :: 0 <= j < |streams| ==>
          (streams[j].inUse <==> old(streams[j].inUse) && !(exists k :: 0 <= k < i && k < |releases| && j in releases[k]))
      {
        if i < |releases| {
          Release(releases[i]);
        }
        if !streams[i].inUse {
          streams[i].inUse := true;
          return Some(i);
        }
        i := i + 1;
      }
      found := None;
    }
  }
}
