// Whole runs of init and shutdown: what the stream counter means, how far it
// can pass the configured maximum, and what a failed init costs.

module StreamReservationRuns {
  import opened Basics
  import opened StreamReservation
  import opened StreamReservationLaws

  ghost predicate Quiet(s: State) {
    forall t :: 0 <= t < |s.tasks| ==> s.tasks[t].Idle?
  }

  // ---------------------------------------------------------------- conservation

  // The counter in every reachable state, once by what contexts and inits hold and
  // once by what is really open; and every open stream is held in exactly one place.
  lemma {:induction false} Conservation(c: Config, s: State)
    requires c.MeetsSchema() && Reachable(c, s)
    ensures s.counter == StreamTotal(s.contexts) + Sum(InFlight, s.tasks) + s.dropped
    ensures s.counter + Sum(Lag, s.tasks) == |s.open| + s.dropped
    ensures exists place :: HeldIn(s, place)
  {
    ReachableInv(c, s);
  }

  // With no request running, the counter is the number of open streams exactly when
  // no init ever failed after counting a stream.
  lemma {:induction false} QuietCounter(c: Config, s: State)
    requires c.MeetsSchema() && Reachable(c, s) && Quiet(s)
    ensures |s.open| == StreamTotal(s.contexts)
    ensures s.counter == |s.open| <==> s.dropped == 0
  {
    ReachableInv(c, s);
    SumZero(InFlight, s.tasks);
    SumZero(Lag, s.tasks);
  }

  lemma {:induction false} NothingDropped(c: Config, run: seq<Event>)
    requires Exec(c, Initial(c), run).Some?
    requires forall i :: 0 <= i < |run| ==> !run[i].step.FailOpen?
    ensures Exec(c, Initial(c), run).value.dropped == 0
  {
    if run != [] {
      NothingDropped(c, run[..|run| - 1]);
    }
  }

  // ---------------------------------------------------------------- the overshoot bound

  lemma {:induction false} SumNonnegative<T>(f: T -> int, xs: seq<T>)
    requires forall i :: 0 <= i < |xs| ==> f(xs[i]) >= 0
    ensures Sum(f, xs) >= 0
  {
    if xs != [] {
      SumNonnegative(f, xs[..|xs| - 1]);
    }
  }

  // The counter and the streams still to come from admitted inits never pass
  // total + (threads - 1) * perHandle.
  lemma {:induction false} OvershootBound(c: Config, s: State)
    requires c.MeetsSchema() && Reachable(c, s)
    ensures s.counter + Sum(PendingOf(c), s.tasks) <= c.total + (c.threads - 1) * c.perHandle
    ensures s.counter <= c.total + (c.threads - 1) * c.perHandle
  {
    ReachableInv(c, s);
    forall t | 0 <= t < |s.tasks|
      ensures PendingOf(c)(s.tasks[t]) >= 0
    {
      assert TaskFits(c, s, t);
    }
    SumNonnegative(PendingOf(c), s.tasks);
  }

  lemma {:induction false} ReachStep(c: Config, s: State, e: Event)
    requires Reachable(c, s) && Apply(c, s, e).Some?
    ensures Reachable(c, Apply(c, s, e).value)
  {
    LeadsStep(c, s, e, Apply(c, s, e).value);
    LeadsCompose(c, Initial(c), s, Apply(c, s, e).value);
  }

  lemma {:induction false} Take(c: Config, s: State, t: nat, step: Step) returns (s': State)
    requires Reachable(c, s) && Apply(c, s, Event(t, step)).Some?
    ensures s' == Apply(c, s, Event(t, step)).value && Reachable(c, s')
  {
    s' := Apply(c, s, Event(t, step)).value;
    ReachStep(c, s, Event(t, step));
  }

  // Inits of one stream each, one after the other, can bring the counter to any k up to total.
  lemma {:induction false} Raise(c: Config, k: nat) returns (s: State)
    requires c.MeetsSchema() && k <= c.total
    ensures Reachable(c, s) && s.counter == k && s.lock == None && |s.tasks| == c.threads && Quiet(s)
    ensures forall h :: h in s.contexts ==> h < k
  {
    if k == 0 {
      s := Initial(c);
      LeadsSelf(c, s);
    } else {
      s := Raise(c, k - 1);
      s := Take(c, s, 0, LoadCounter(1));
      s := Take(c, s, 0, CheckLimit);
      s := Take(c, s, 0, OpenStream);
      s := Take(c, s, 0, CountStream);
      s := Take(c, s, 0, Emplace(k - 1));
      s := Take(c, s, 0, Fill);
    }
  }

  // The first m threads are all admitted on the same reading of the counter.
  lemma {:induction false} Admit(c: Config, m: nat) returns (s: State)
    requires c.MeetsSchema() && c.perHandle <= c.total && m <= c.threads
    ensures Reachable(c, s) && s.counter == c.total - c.perHandle && |s.tasks| == c.threads
    ensures forall t :: 0 <= t < m ==> s.tasks[t] == Opening(c.perHandle, [], 0)
    ensures forall t :: m <= t < c.threads ==> s.tasks[t] == Idle
  {
    if m == 0 {
      s := Raise(c, c.total - c.perHandle);
    } else {
      s := Admit(c, m - 1);
      s := Take(c, s, m - 1, LoadCounter(c.perHandle));
      s := Take(c, s, m - 1, CheckLimit);
    }
  }

  // The first m threads have opened and counted all their streams, thread m has k.
  lemma {:induction false} Count(c: Config, m: nat, k: nat) returns (s: State)
    requires c.MeetsSchema() && c.perHandle <= c.total && m < c.threads && k <= c.perHandle
    ensures Reachable(c, s) && s.counter == c.total - c.perHandle + m * c.perHandle + k && |s.tasks| == c.threads
    ensures s.tasks[m].Opening? && s.tasks[m].want == c.perHandle && |s.tasks[m].streams| == s.tasks[m].counted == k
    ensures forall t :: m < t < c.threads ==> s.tasks[t] == Opening(c.perHandle, [], 0)
    decreases m, k
  {
    if k > 0 {
      s := Count(c, m, k - 1);
      s := Take(c, s, m, OpenStream);
      s := Take(c, s, m, CountStream);
    } else if m > 0 {
      s := Count(c, m - 1, c.perHandle);
      assert (m - 1) * c.perHandle + c.perHandle == m * c.perHandle;
    } else {
      s := Admit(c, c.threads);
    }
  }

  // The bound is attained for every configuration the server accepts.
  lemma {:induction false} OvershootAttained(c: Config)
    requires c.MeetsSchema() && c.perHandle <= c.total
    ensures exists s :: Reachable(c, s) && s.counter == c.total + (c.threads - 1) * c.perHandle
  {
    var s := Count(c, c.threads - 1, c.perHandle);
  }

  // The configured maximum is a limit on the counter exactly when there is a single
  // background thread.
  lemma {:induction false} LimitHeldIffOneThread(c: Config)
    requires c.MeetsSchema() && c.perHandle <= c.total
    ensures (forall s :: Reachable(c, s) ==> s.counter <= c.total) <==> c.threads == 1
  {
    if c.threads == 1 {
      forall s | Reachable(c, s) ensures s.counter <= c.total {
        OvershootBound(c, s);
      }
    } else {
      OvershootAttained(c);
      assert (c.threads - 1) * c.perHandle > 0;
    }
  }

  // ---------------------------------------------------------------- the cost of a failed open

  lemma {:induction false} CounterAtLeastDropped(c: Config, s: State)
    requires Inv(c, s)
    ensures s.counter >= s.dropped
  {
    if s.lock.Some? && s.lock.value < |s.tasks| {
      var t := s.lock.value;
      assert TaskFits(c, s, t);
      SumUpdate(InFlight, s.tasks, t, Idle);
      SumNonnegative(InFlight, s.tasks[t := Idle]);
      StreamTotalRemove(s.contexts, s.tasks[t].handle);
    } else {
      SumNonnegative(InFlight, s.tasks);
    }
  }

  lemma {:induction false} DroppedOnlyGrows(c: Config, s: State, run: seq<Event>)
    requires Exec(c, s, run).Some?
    ensures Exec(c, s, run).value.dropped >= s.dropped
  {
    if run != [] {
      DroppedOnlyGrows(c, s, run[..|run| - 1]);
    }
  }

  // What failed inits counted is never given back: it stays in the counter for the
  // rest of every run.
  lemma {:induction false} DroppedIsNeverReturned(c: Config, s: State, s': State)
    requires c.MeetsSchema() && Reachable(c, s) && Leads(c, s, s')
    ensures s'.counter >= s'.dropped >= s.dropped
  {
    var run :| Exec(c, s, run) == Some(s');
    DroppedOnlyGrows(c, s, run);
    LeadsCompose(c, Initial(c), s, s');
    ReachableInv(c, s');
    CounterAtLeastDropped(c, s');
  }

  // An init that no longer fits beside the dropped streams is turned away from then
  // on, whatever is shut down in between.
  lemma {:induction false} DroppedStreamsBlockInit(c: Config, s: State, s': State, t: nat, want: int)
    requires c.MeetsSchema() && Reachable(c, s) && s.dropped + want > c.total && Leads(c, s, s')
    requires Apply(c, s', Event(t, LoadCounter(want))).Some?
    ensures var loaded := Apply(c, s', Event(t, LoadCounter(want))).value;
            Apply(c, loaded, Event(t, CheckLimit)) == Some(s')
  {
    DroppedIsNeverReturned(c, s, s');
    var loaded := Apply(c, s', Event(t, LoadCounter(want))).value;
    assert loaded.tasks[t := Idle] == s'.tasks;
  }

  lemma {:induction false} SingleStreamsDropNothingStep(c: Config, s: State, e: Event)
    requires c.perHandle == 1 && TasksFit(c, s) && Apply(c, s, e).Some?
    ensures Apply(c, s, e).value.dropped == s.dropped
  {
    assert TaskFits(c, s, e.thread);
  }

  lemma {:induction false} SingleStreamsDropNothing(c: Config, run: seq<Event>)
    requires c.MeetsSchema() && c.perHandle == 1 && Exec(c, Initial(c), run).Some?
    ensures Exec(c, Initial(c), run).value.dropped == 0
  {
    if run != [] {
      var before := run[..|run| - 1];
      SingleStreamsDropNothing(c, before);
      var m := Exec(c, Initial(c), before).value;
      ReachableInv(c, m);
      SingleStreamsDropNothingStep(c, m, run[|run| - 1]);
    }
  }

  // The counter agrees with the open streams whenever no request runs exactly when
  // handles are limited to a single stream each.
  lemma {:induction false} CounterExactIffSingleStreams(c: Config)
    requires c.MeetsSchema() && c.perHandle <= c.total
    ensures (forall s :: Reachable(c, s) && Quiet(s) ==> s.counter == |s.open|) <==> c.perHandle == 1
  {
    if c.perHandle == 1 {
      forall s | Reachable(c, s) && Quiet(s) ensures s.counter == |s.open| {
        var run :| Exec(c, Initial(c), run) == Some(s);
        SingleStreamsDropNothing(c, run);
        QuietCounter(c, s);
      }
    } else {
      var s := Raise(c, 0);
      s := Take(c, s, 0, LoadCounter(2));
      s := Take(c, s, 0, CheckLimit);
      s := Take(c, s, 0, OpenStream);
      s := Take(c, s, 0, CountStream);
      s := Take(c, s, 0, FailOpen);
      QuietCounter(c, s);
    }
  }

  // ---------------------------------------------------------------- shutdown, undisturbed

  // A thread that has closed and discounted k streams of a handle, with nothing else running in between.
  function PartlyClosed(s: State, t: nat, h: Handle, k: nat): State
    requires t < |s.tasks| && h in s.contexts && k <= |s.contexts[h]|
  {
    var ss := s.contexts[h];
    s.(tasks := s.tasks[t := Closing(h, k, false)], lock := Some(t), counter := s.counter - k,
       open := s.open - Elements(ss[|ss| - k..]))
  }

  lemma {:induction false} CloseSome(c: Config, s: State, t: nat, h: Handle, k: nat)
    requires Reachable(c, s) && c.MeetsSchema() && t < |s.tasks| && s.tasks[t].Idle? && s.lock == None
    requires h in s.contexts && !BeingPublished(s, h) && k <= |s.contexts[h]|
    ensures Leads(c, s, PartlyClosed(s, t, h, k))
  {
    var ss := s.contexts[h];
    if k == 0 {
      assert s.open - Elements(ss[|ss|..]) == s.open;
      LeadsStep(c, s, Event(t, BeginShutdown(h)), PartlyClosed(s, t, h, 0));
    } else {
      CloseSome(c, s, t, h, k - 1);
      var a := PartlyClosed(s, t, h, k - 1);
      var b := Apply(c, a, Event(t, CloseStream)).value;
      var d := PartlyClosed(s, t, h, k);
      assert ss[|ss| - k..] == [ss[|ss| - k]] + ss[|ss| - (k - 1)..];
      assert b.open == d.open;
      assert b.tasks[t := Closing(h, k, false)] == d.tasks;
      assert Apply(c, b, Event(t, DiscountStream)) == Some(d);
      LeadsStep(c, a, Event(t, CloseStream), b);
      LeadsStep(c, b, Event(t, DiscountStream), d);
      LeadsCompose(c, s, a, b);
      LeadsCompose(c, s, b, d);
    }
  }

  // Shutdown can always run to its end: it closes every stream of the handle, lowers
  // the counter by their number and forgets the handle.
  lemma {:induction false} ShutdownDrains(c: Config, s: State, t: nat, h: Handle)
    requires Reachable(c, s) && c.MeetsSchema() && t < |s.tasks| && s.tasks[t].Idle? && s.lock == None
    requires h in s.contexts && !BeingPublished(s, h)
    ensures Leads(c, s, s.(counter := s.counter - |s.contexts[h]|, contexts := s.contexts - {h},
                           open := s.open - Elements(s.contexts[h])))
  {
    var n := |s.contexts[h]|;
    CloseSome(c, s, t, h, n);
    var a := PartlyClosed(s, t, h, n);
    var d := s.(counter := s.counter - n, contexts := s.contexts - {h}, open := s.open - Elements(s.contexts[h]));
    assert s.contexts[h][0..] == s.contexts[h];
    assert a.tasks[t := Idle] == s.tasks;
    LeadsStep(c, a, Event(t, Erase), d);
    LeadsCompose(c, s, a, d);
  }

  // ---------------------------------------------------------------- init, undisturbed

  function NewStreams(first: StreamId, k: nat): (ss: seq<StreamId>)
    ensures |ss| == k && forall i :: 0 <= i < k ==> ss[i] == first + i
  {
    seq(k, i => first + i)
  }

  // A thread that was admitted and has opened and counted k streams, with nothing else
  // running in between.
  function PartlyOpened(s: State, t: nat, want: int, k: nat): State
    requires t < |s.tasks|
  {
    var ss := NewStreams(s.nextStream, k);
    s.(tasks := s.tasks[t := Opening(want, ss, k)], counter := s.counter + k,
       open := s.open + Elements(ss), nextStream := s.nextStream + k)
  }

  ghost predicate Admissible(c: Config, s: State, t: nat, want: int) {
    t < |s.tasks| && s.tasks[t].Idle? && 1 <= want <= c.perHandle && s.counter + want <= c.total
  }

  lemma {:induction false} OpenNext(c: Config, s: State, t: nat, want: int, k: nat)
    requires t < |s.tasks| && k < want
    ensures Leads(c, PartlyOpened(s, t, want, k), PartlyOpened(s, t, want, k + 1))
  {
    var a, d := PartlyOpened(s, t, want, k), PartlyOpened(s, t, want, k + 1);
    var b := Apply(c, a, Event(t, OpenStream)).value;
    assert NewStreams(s.nextStream, k) + [s.nextStream + k] == NewStreams(s.nextStream, k + 1);
    assert b.open == d.open;
    assert b.tasks[t := d.tasks[t]] == d.tasks;
    LeadsStep(c, a, Event(t, OpenStream), b);
    LeadsStep(c, b, Event(t, CountStream), d);
    LeadsCompose(c, a, b, d);
  }

  lemma {:induction false} OpenSome(c: Config, s: State, t: nat, want: int, k: nat)
    requires Admissible(c, s, t, want) && k <= want
    ensures Leads(c, s, PartlyOpened(s, t, want, k))
  {
    hide Elements;
    if k == 0 {
      var a, d := s.(tasks := s.tasks[t := Loaded(want, s.counter)]), PartlyOpened(s, t, want, 0);
      assert d.open == s.open by { NoElements(); }
      assert a.tasks[t := d.tasks[t]] == d.tasks;
      LeadsStep(c, s, Event(t, LoadCounter(want)), a);
      LeadsStep(c, a, Event(t, CheckLimit), d);
      LeadsCompose(c, s, a, d);
    } else {
      OpenSome(c, s, t, want, k - 1);
      OpenNext(c, s, t, want, k - 1);
      LeadsCompose(c, s, PartlyOpened(s, t, want, k - 1), PartlyOpened(s, t, want, k));
    }
  }

  lemma {:induction false} NoElements()
    ensures Elements([]) == {}
  {
  }

  // An admissible init can always run to its end: it registers that many new streams
  // under the handle and raises the counter by their number.
  lemma {:induction false} InitRegisters(c: Config, s: State, t: nat, want: int, h: Handle)
    requires Admissible(c, s, t, want) && s.lock == None && h !in s.contexts
    ensures var ss := NewStreams(s.nextStream, want);
            Leads(c, s, s.(counter := s.counter + want, contexts := s.contexts[h := ss],
                           open := s.open + Elements(ss), nextStream := s.nextStream + want))
  {
    hide Elements;
    var ss := NewStreams(s.nextStream, want);
    var a := PartlyOpened(s, t, want, want);
    var b := a.(tasks := a.tasks[t := Publishing(h, ss)], contexts := s.contexts[h := []]);
    var d := s.(counter := s.counter + want, contexts := s.contexts[h := ss],
                open := s.open + Elements(ss), nextStream := s.nextStream + want);
    assert b.tasks[t := Idle] == s.tasks;
    assert b.contexts[h := ss] == d.contexts;
    OpenSome(c, s, t, want, want);
    LeadsStep(c, a, Event(t, Emplace(h)), b);
    LeadsStep(c, b, Event(t, Fill), d);
    LeadsCompose(c, s, a, b);
    LeadsCompose(c, s, b, d);
  }

  // If its open number k fails, the streams opened before are gone and the counter
  // keeps them.
  lemma {:induction false} InitDrops(c: Config, s: State, t: nat, want: int, k: nat)
    requires c.MeetsSchema() && Reachable(c, s) && Admissible(c, s, t, want) && k < want
    ensures Leads(c, s, s.(counter := s.counter + k, dropped := s.dropped + k, nextStream := s.nextStream + k))
  {
    hide Elements, Held, Inv, Reachable;
    var a := PartlyOpened(s, t, want, k);
    var d := s.(counter := s.counter + k, dropped := s.dropped + k, nextStream := s.nextStream + k);
    NewStreamsAreNew(c, s, k);
    assert a.tasks[t := Idle] == s.tasks;
    OpenSome(c, s, t, want, k);
    LeadsStep(c, a, Event(t, FailOpen), d);
    LeadsCompose(c, s, a, d);
  }

  lemma {:induction false} NewStreamsAreNew(c: Config, s: State, k: nat)
    requires c.MeetsSchema() && Reachable(c, s)
    ensures s.open + Elements(NewStreams(s.nextStream, k)) - Elements(NewStreams(s.nextStream, k)) == s.open
  {
    hide Shape, CounterLaw, LagLaw, Reserved;
    ReachableInv(c, s);
    var place :| HeldIn(s, place);
    assert forall x :: x in s.open ==> x < s.nextStream;
  }
}
