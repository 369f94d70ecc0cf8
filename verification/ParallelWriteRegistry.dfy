// The registry of parallel-write contexts, as one request at a time sees it:
// op_parallel_write_init and op_parallel_write_shutdown with their loops.

module ParallelWriteRegistry {
  import opened Basics
  import opened StreamReservation

  datatype InitReply =
    | BadRequest
    | ServiceUnavailable
    | OpenFailed
    | Ready(handle: Handle)

  // A stream closed on the server, with or without updating the catalog.
  datatype Close = Close(stream: StreamId, updatesCatalog: bool)

  // Closing a context: last stream first, only the first stream updates the catalog.
  function Closes(ss: seq<StreamId>): (cs: seq<Close>)
    ensures |cs| == |ss|
    ensures forall i :: 0 <= i < |ss| ==> cs[i] == Close(ss[|ss| - 1 - i], i == |ss| - 1)
  {
    seq(|ss|, i requires 0 <= i < |ss| => Close(ss[|ss| - 1 - i], i == |ss| - 1))
  }

  // For distinct streams: each is closed once, and the one that updates the catalog
  // is the first stream, closed after all the others.
  lemma {:induction false} ClosesEachOnce(ss: seq<StreamId>, k: nat)
    requires forall i, j :: 0 <= i < j < |ss| ==> ss[i] != ss[j]
    requires k < |ss|
    ensures forall i :: 0 <= i < |ss| ==> (Closes(ss)[i].stream == ss[k] <==> i == |ss| - 1 - k)
    ensures forall i :: 0 <= i < |ss| ==> (Closes(ss)[i].updatesCatalog <==> Closes(ss)[i].stream == ss[0])
  {
    forall i | 0 <= i < |ss|
      ensures Closes(ss)[i].stream == ss[k] <==> i == |ss| - 1 - k
      ensures Closes(ss)[i].updatesCatalog <==> Closes(ss)[i].stream == ss[0]
    {
      assert Closes(ss)[i].stream == ss[|ss| - 1 - i];
    }
  }

  // How many opens succeed before the first failure, at most want.
  function OpensBeforeFailure(opens: nat -> bool, want: nat): (k: nat)
    ensures k <= want
    ensures forall i :: 0 <= i < k ==> opens(i)
    ensures k < want ==> !opens(k)
  {
    if want == 0 then 0
    else
      var k := OpensBeforeFailure(opens, want - 1);
      if k == want - 1 && opens(k) then want else k
  }

  // ---------------------------------------------------------------- streams are never shared

  type Contexts = map<Handle, seq<StreamId>>

  ghost predicate Holds(m: Contexts, x: StreamId, h: Handle, i: int) {
    h in m && 0 <= i < |m[h]| && m[h][i] == x
  }

  // Held by a context or closed.
  ghost predicate Known(m: Contexts, closed: seq<Close>, x: StreamId) {
    (exists h: Handle, i :: Holds(m, x, h, i)) || (exists k :: 0 <= k < |closed| && closed[k].stream == x)
  }

  ghost predicate HeldOnce(m: Contexts) {
    forall x: StreamId, h: Handle, i, g: Handle, j :: Holds(m, x, h, i) && Holds(m, x, g, j) ==> h == g && i == j
  }

  ghost predicate ClosedOnce(closed: seq<Close>) {
    forall k, l :: 0 <= k < l < |closed| ==> closed[k].stream != closed[l].stream
  }

  ghost predicate ClosedNotHeld(m: Contexts, closed: seq<Close>) {
    forall k, h: Handle, i :: 0 <= k < |closed| ==> !Holds(m, closed[k].stream, h, i)
  }

  ghost predicate BelowNext(m: Contexts, closed: seq<Close>, next: StreamId) {
    && (forall x: StreamId, h: Handle, i :: Holds(m, x, h, i) ==> x < next)
    && (forall k :: 0 <= k < |closed| ==> closed[k].stream < next)
  }

  // No stream is in two contexts or twice in one, none is closed twice, and none is held
  // after it was closed; next is a stream that was never handed out.
  ghost predicate Consistent(m: Contexts, closed: seq<Close>, next: StreamId) {
    HeldOnce(m) && ClosedOnce(closed) && ClosedNotHeld(m, closed) && BelowNext(m, closed, next)
  }

  lemma {:induction false} NextIsUnknown(m: Contexts, closed: seq<Close>, next: StreamId, x: StreamId)
    requires Consistent(m, closed, next) && x >= next
    ensures !Known(m, closed, x)
  {
  }

  lemma {:induction false} Registered(m: Contexts, closed: seq<Close>, next: StreamId, h: Handle, ss: seq<StreamId>)
    requires Consistent(m, closed, next) && h !in m
    requires forall i :: 0 <= i < |ss| ==> ss[i] == next + i
    ensures Consistent(m[h := ss], closed, next + |ss|)
  {
    var m' := m[h := ss];
    forall x: StreamId, g: Handle, i | Holds(m', x, g, i)
      ensures if g == h then x == next + i else Holds(m, x, g, i)
    {
      if g == h {
        assert m'[g] == ss && ss[i] == x;
      } else {
        assert m'[g] == m[g];
      }
    }
  }

  lemma {:induction false} Drained(m: Contexts, closed: seq<Close>, next: StreamId, h: Handle)
    requires Consistent(m, closed, next) && h in m
    ensures Consistent(m - {h}, closed + Closes(m[h]), next)
  {
    var closed' := closed + Closes(m[h]);
    var n := |closed|;
    assert forall x: StreamId, g: Handle, i :: Holds(m - {h}, x, g, i) ==> g != h && Holds(m, x, g, i);
    forall k | n <= k < |closed'| ensures Holds(m, closed'[k].stream, h, |m[h]| - 1 - (k - n)) {
      assert closed'[k] == Closes(m[h])[k - n];
    }
  }

  lemma {:induction false} MoreHandedOut(m: Contexts, closed: seq<Close>, next: StreamId, later: StreamId)
    requires Consistent(m, closed, next) && next <= later
    ensures Consistent(m, closed, later)
  {
  }

  class Registry {
    const config: Config
    var contexts: map<Handle, seq<StreamId>>
    var active: int
    var nextStream: StreamId
    // Every close sent to the server so far.
    var closed: seq<Close>

    ghost predicate Valid()
      reads this
    {
      Consistent(contexts, closed, nextStream)
    }

    constructor (config: Config)
      ensures Valid()
      ensures this.config == config && contexts == map[] && active == 0 && closed == []
    {
      this.config := config;
      contexts := map[];
      active := 0;
      nextStream := 0;
      closed := [];
    }

    // opens tells which attempts to open a stream succeed; handle is the generated
    // UUID, which is not the name of any context.
    method Init(want: int, opens: nat -> bool, handle: Handle) returns (reply: InitReply)
      requires Valid() && handle !in contexts
      modifies this`contexts, this`active, this`nextStream
      ensures Valid()
      ensures want < 1 || want > config.perHandle ==> reply == BadRequest
      ensures 1 <= want <= config.perHandle && old(active) + want > config.total ==> reply == ServiceUnavailable
      ensures reply == BadRequest || reply == ServiceUnavailable ==>
                active == old(active) && contexts == old(contexts)
      ensures 1 <= want <= config.perHandle && old(active) + want <= config.total ==>
                && active == old(active) + OpensBeforeFailure(opens, want)
                && (OpensBeforeFailure(opens, want) < want ==> reply == OpenFailed && contexts == old(contexts))
                && (OpensBeforeFailure(opens, want) == want ==>
                     && reply == Ready(handle)
                     && contexts.Keys == old(contexts).Keys + {handle}
                     && (forall h :: h in old(contexts) ==> contexts[h] == old(contexts)[h])
                     && |contexts[handle]| == want
                     && (forall i, j :: 0 <= i < j < want ==> contexts[handle][i] != contexts[handle][j])
                     && (forall i :: 0 <= i < want ==> !Known(old(contexts), old(closed), contexts[handle][i])))
    {
      hide Consistent, Known;
      if want < 1 {
        return BadRequest;
      }
      if want > config.perHandle {
        return BadRequest;
      }
      if active + want > config.total {
        return ServiceUnavailable;
      }
      var streams: seq<StreamId> := [];
      for i := 0 to want
        invariant |streams| == i && active == old(active) + i && contexts == old(contexts)
        invariant nextStream == old(nextStream) + i
        invariant forall j :: 0 <= j < i ==> streams[j] == old(nextStream) + j
        invariant forall j :: 0 <= j < i ==> opens(j)
      {
        if !opens(i) {
          MoreHandedOut(contexts, closed, old(nextStream), nextStream);
          return OpenFailed;
        }
        streams := streams + [nextStream];
        nextStream := nextStream + 1;
        active := active + 1;
      }
      Registered(contexts, closed, old(nextStream), handle, streams);
      forall i | 0 <= i < want ensures !Known(contexts, closed, streams[i]) {
        NextIsUnknown(contexts, closed, old(nextStream), streams[i]);
      }
      contexts := contexts[handle := streams];
      reply := Ready(handle);
    }

    // The reply is the same whether the handle is known or not.
    method Shutdown(handle: Handle)
      requires Valid() && (handle in contexts ==> |contexts[handle]| >= 1)
      modifies this`contexts, this`active, this`closed
      ensures Valid()
      ensures handle in old(contexts) ==>
                && closed == old(closed) + Closes(old(contexts)[handle])
                && active == old(active) - |old(contexts)[handle]|
      ensures contexts == old(contexts) - {handle}
      ensures handle !in old(contexts) ==> closed == old(closed) && active == old(active)
    {
      hide Consistent, Closes;
      if handle in contexts {
        var streams := contexts[handle];
        Drained(contexts, closed, nextStream, handle);
        var i := |streams| - 1;
        while i >= 1
          invariant 0 <= i < |streams| && contexts == old(contexts)
          invariant closed == old(closed) + Closes(streams)[..|streams| - 1 - i]
          invariant active == old(active) - (|streams| - 1 - i)
        {
          closed := closed + [Close(streams[i], false)];
          active := active - 1;
          i := i - 1;
        }
        closed := closed + [Close(streams[0], true)];
        active := active - 1;
        contexts := contexts - {handle};
        assert closed == old(closed) + Closes(streams);
      } else {
        assert contexts - {handle} == contexts;
      }
    }

    // A second shutdown of the same handle changes nothing.
    method ShutdownTwice(handle: Handle)
      requires Valid() && (handle in contexts ==> |contexts[handle]| >= 1)
      modifies this`contexts, this`active, this`closed
      ensures Valid()
      ensures contexts == old(contexts) - {handle}
      ensures active == old(active) - (if handle in old(contexts) then |old(contexts)[handle]| else 0)
      ensures closed == old(closed) + (if handle in old(contexts) then Closes(old(contexts)[handle]) else [])
    {
      Shutdown(handle);
      Shutdown(handle);
    }
  }
}
