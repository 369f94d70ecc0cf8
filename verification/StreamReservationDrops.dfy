// What a failed init costs for good: which inits can still be admitted after streams
// were dropped, and which configurations can lose all room.

module StreamReservationDrops {
  import opened Basics
  import opened StreamReservation
  import opened StreamReservationLaws
  import opened StreamReservationRuns

  // ---------------------------------------------------------------- running requests can finish

  lemma {:induction false} FreshHandle(hs: set<Handle>) returns (h: Handle)
    ensures h !in hs && forall g :: g in hs ==> g < h
    decreases |hs|
  {
    if hs == {} {
      h := 0;
    } else {
      var g :| g in hs;
      h := FreshHandle(hs - {g});
      h := Max(h, g + 1);
      assert forall x :: x in hs ==> x == g || x in hs - {g};
    }
  }

  // While a handle is being drained, nobody else registers, forgets or fills a handle that
  // is being drained, and the lock stays where it is.
  lemma {:induction false} RegistryIsStillWhileDraining(c: Config, s: State, e: Event, s': State, t: nat)
    requires Shape(c, s) && Apply(c, s, e) == Some(s') && s.lock == Some(t) && e.thread != t
    ensures s'.lock == s.lock && s'.contexts.Keys == s.contexts.Keys
    ensures t < |s.tasks| && s.tasks[t].Closing? && s'.tasks[t] == s.tasks[t]
    ensures s.tasks[t].handle in s.contexts && s'.contexts[s.tasks[t].handle] == s.contexts[s.tasks[t].handle]
  {
    assert TaskFits(c, s, t) && TaskFits(c, s, e.thread);
  }

  predicate WaitsForLock(s: State, t: nat)
    requires t < |s.tasks|
  {
    var k := s.tasks[t];
    k.Opening? && k.counted == |k.streams| == k.want && s.lock.Some?
  }

  // A running request can go on unless it has opened all its streams and waits for the
  // lock of the registry. Nothing else is waited for, not even to publish the streams.
  lemma {:induction false} OnlyTheLockIsWaitedFor(c: Config, s: State, t: nat)
    requires Shape(c, s) && t < |s.tasks| && !s.tasks[t].Idle?
    ensures (exists step :: Apply(c, s, Event(t, step)).Some?) <==> !WaitsForLock(s, t)
  {
    hide HandlesDiffer, EmptyIsPublishing;
    assert TaskFits(c, s, t);
    if !WaitsForLock(s, t) {
      var h := FreshHandle(s.contexts.Keys);
      var step := match s.tasks[t]
                  case Loaded(_, _) => CheckLimit
                  case Opening(want, ss, counted) =>
                    if counted < |ss| then CountStream else if |ss| < want then OpenStream else Emplace(h)
                  case Publishing(_, _) => Fill
                  case Closing(g, closed, owed) =>
                    if owed then DiscountStream else if closed < |s.contexts[g]| then CloseStream else Erase;
      assert Apply(c, s, Event(t, step)).Some?;
    }
  }

  lemma {:induction false} PublishedIsRegistered(c: Config, s: State, h: Handle)
    requires Shape(c, s) && BeingPublished(s, h)
    ensures h in s.contexts
  {
    var u :| 0 <= u < |s.tasks| && s.tasks[u].Publishing? && s.tasks[u].handle == h;
    assert TaskFits(c, s, u);
  }

  // A shutdown of a handle that is not registered changes nothing.
  lemma {:induction false} UnknownHandleIsIgnored(c: Config, s: State, t: nat, h: Handle)
    requires Shape(c, s) && t < |s.tasks| && s.tasks[t].Idle? && s.lock == None && h !in s.contexts
    ensures Apply(c, s, Event(t, BeginShutdown(h))) == Some(s)
  {
    if BeingPublished(s, h) {
      PublishedIsRegistered(c, s, h);
    }
  }

  // How many steps thread t still needs if nothing fails.
  ghost function StepsLeft(s: State, k: Task): int {
    match k
    case Idle => 0
    case Loaded(want, _) => 2 * want + 4
    case Opening(want, ss, counted) => 2 * want - |ss| - counted + 3
    case Publishing(_, _) => 1
    case Closing(h, closed, owed) =>
      if h in s.contexts then 2 * (|s.contexts[h]| - closed) + (if owed then 1 else 0) + 1 else 0
  }

  // One step of a thread that is not idle, with no open failing.
  lemma {:induction false} OneStepOn(c: Config, s: State, t: nat) returns (s': State)
    requires Shape(c, s) && t < |s.tasks| && !s.tasks[t].Idle? && (s.lock == None || s.lock == Some(t))
    ensures Leads(c, s, s') && t < |s'.tasks| && s'.tasks == s.tasks[t := s'.tasks[t]]
    ensures s'.lock == None || s'.lock == Some(t)
    ensures s'.dropped == s.dropped
    ensures 0 <= StepsLeft(s', s'.tasks[t]) < StepsLeft(s, s.tasks[t])
  {
    hide HandlesDiffer, EmptyIsPublishing;
    assert TaskFits(c, s, t);
    var step: Step;
    match s.tasks[t] {
      case Loaded(_, _) => step := CheckLimit;
      case Opening(want, ss, counted) =>
        if counted < |ss| {
          step := CountStream;
        } else if |ss| < want {
          step := OpenStream;
        } else {
          var h := FreshHandle(s.contexts.Keys);
          step := Emplace(h);
        }
      case Publishing(_, _) => step := Fill;
      case Closing(h, closed, owed) =>
        step := if owed then DiscountStream else if closed < |s.contexts[h]| then CloseStream else Erase;
    }
    s' := Apply(c, s, Event(t, step)).value;
    LeadsStep(c, s, Event(t, step), s');
  }

  lemma {:induction false} FinishTask(c: Config, s: State, t: nat) returns (s': State)
    requires c.MeetsSchema() && Reachable(c, s) && t < |s.tasks| && (s.lock == None || s.lock == Some(t))
    ensures Leads(c, s, s') && Reachable(c, s') && s'.tasks == s.tasks[t := Idle]
    ensures s'.lock == None && s'.dropped == s.dropped
    decreases StepsLeft(s, s.tasks[t])
  {
    hide Reachable, Shape, CounterLaw, Held, LagLaw, Reserved, StepsLeft, Leads;
    ReachableShape(c, s);
    if s.tasks[t].Idle? {
      LeadsSelf(c, s);
      s' := s;
      assert s.tasks[t := Idle] == s.tasks;
    } else {
      var m := OneStepOn(c, s, t);
      ReachOn(c, s, m);
      s' := FinishTask(c, m, t);
      LeadsCompose(c, s, m, s');
    }
  }

  lemma {:induction false} ReachableShape(c: Config, s: State)
    requires c.MeetsSchema() && Reachable(c, s)
    ensures Shape(c, s) && |s.tasks| >= 1 && (s.lock.Some? ==> s.lock.value < |s.tasks|)
    ensures forall t :: 0 <= t < |s.tasks| && s.tasks[t].Idle? ==> s.lock != Some(t)
  {
    ReachableInv(c, s);
  }

  lemma {:induction false} ReachOn(c: Config, s: State, s': State)
    requires Reachable(c, s) && Leads(c, s, s')
    ensures Reachable(c, s')
  {
    LeadsCompose(c, Initial(c), s, s');
  }

  // All but the first m threads keep their tasks.
  lemma {:induction false} FinishFirst(c: Config, s: State, m: nat) returns (s': State)
    requires c.MeetsSchema() && Reachable(c, s) && m <= |s.tasks| && s.lock == None
    ensures Leads(c, s, s') && Reachable(c, s') && s'.lock == None && s'.dropped == s.dropped
    ensures |s'.tasks| == |s.tasks| && forall t :: 0 <= t < m ==> s'.tasks[t].Idle?
  {
    hide Reachable, Leads;
    if m == 0 {
      LeadsSelf(c, s);
      s' := s;
    } else {
      var a := FinishFirst(c, s, m - 1);
      s' := FinishTask(c, a, m - 1);
      LeadsCompose(c, s, a, s');
    }
  }

  // Whatever is running can finish, with no further stream dropped.
  lemma {:induction false} Quiesce(c: Config, s: State) returns (s': State)
    requires c.MeetsSchema() && Reachable(c, s)
    ensures Leads(c, s, s') && Reachable(c, s') && Quiet(s') && s'.lock == None && s'.dropped == s.dropped
  {
    hide Reachable, Leads;
    var a := s;
    if s.lock.Some? {
      ReachableShape(c, s);
      a := FinishTask(c, s, s.lock.value);
    } else {
      LeadsSelf(c, s);
    }
    s' := FinishFirst(c, a, |a.tasks|);
    LeadsCompose(c, s, a, s');
  }

  // And all handles can be shut down.
  lemma {:induction false} DrainAll(c: Config, s: State) returns (s': State)
    requires c.MeetsSchema() && Reachable(c, s) && Quiet(s) && s.lock == None && |s.tasks| >= 1
    ensures Leads(c, s, s') && Reachable(c, s') && s'.contexts == map[]
    ensures s'.tasks == s.tasks && s'.dropped == s.dropped
    decreases |s.contexts|
  {
    hide Reachable, Leads;
    if s.contexts == map[] {
      LeadsSelf(c, s);
      s' := s;
    } else {
      var h :| h in s.contexts;
      var a := s.(counter := s.counter - |s.contexts[h]|, contexts := s.contexts - {h},
                  open := s.open - Elements(s.contexts[h]));
      ShutdownDrains(c, s, 0, h);
      ReachOn(c, s, a);
      assert |s.contexts - {h}| < |s.contexts| by {
        assert (s.contexts - {h}).Keys == s.contexts.Keys - {h};
      }
      s' := DrainAll(c, a);
      LeadsCompose(c, s, a, s');
    }
  }

  // ---------------------------------------------------------------- admission after drops

  lemma {:induction false} EmptyCounter(c: Config, s: State)
    requires c.MeetsSchema() && Reachable(c, s) && Quiet(s) && s.contexts == map[]
    ensures s.counter == s.dropped && |s.tasks| >= 1
  {
    ReachableInv(c, s);
    SumZero(InFlight, s.tasks);
  }

  // From every reachable state, an init of a given size can be admitted some time later
  // exactly when it fits beside the streams dropped so far. Nothing else stands in its
  // way for good, and those do.
  lemma {:induction false} AdmittedLaterIff(c: Config, s: State, want: int)
    requires c.MeetsSchema() && Reachable(c, s) && 1 <= want <= c.perHandle
    ensures (exists s', t :: Leads(c, s, s') && Admissible(c, s', t, want)) <==> s.dropped + want <= c.total
  {
    hide Reachable, Leads;
    if s.dropped + want <= c.total {
      ReachableShape(c, s);
      var a := Quiesce(c, s);
      ReachableShape(c, a);
      var b := DrainAll(c, a);
      EmptyCounter(c, b);
      LeadsCompose(c, s, a, b);
      assert Admissible(c, b, 0, want);
    }
    forall s', t | Leads(c, s, s') && Admissible(c, s', t, want)
      ensures s.dropped + want <= c.total
    {
      DroppedIsNeverReturned(c, s, s');
    }
  }

  // ---------------------------------------------------------------- configurations that can lose their room

  lemma {:induction false} InitiallyReachable(c: Config)
    ensures Reachable(c, Initial(c))
  {
    LeadsSelf(c, Initial(c));
  }

  // One thread drops one stream k times over.
  lemma {:induction false} DropOneByOne(c: Config, k: nat) returns (s: State)
    requires c.MeetsSchema() && 2 <= c.perHandle && k + 1 <= c.total
    ensures Reachable(c, s) && s.dropped == s.counter == k && |s.tasks| == c.threads && Quiet(s)
  {
    hide Reachable;
    if k == 0 {
      s := Initial(c);
      InitiallyReachable(c);
    } else {
      s := DropOneByOne(c, k - 1);
      var a := s;
      s := Take(c, s, 0, LoadCounter(2));
      s := Take(c, s, 0, CheckLimit);
      s := Take(c, s, 0, OpenStream);
      s := Take(c, s, 0, CountStream);
      s := Take(c, s, 0, FailOpen);
      assert s.tasks == a.tasks;
    }
  }

  // Two threads admitted on the same reading of the counter drop one stream each.
  lemma {:induction false} DropTogether(c: Config) returns (s: State)
    requires c.MeetsSchema() && 2 <= c.threads && 2 <= c.perHandle <= c.total
    ensures Reachable(c, s) && s.dropped == c.total
  {
    hide Reachable;
    s := DropOneByOne(c, c.total - 2);
    s := Take(c, s, 0, LoadCounter(2));
    s := Take(c, s, 0, CheckLimit);
    s := Take(c, s, 1, LoadCounter(2));
    s := Take(c, s, 1, CheckLimit);
    s := DropFirst(c, s, 0);
    s := DropFirst(c, s, 1);
  }

  lemma {:induction false} DropFirst(c: Config, s: State, t: nat) returns (s': State)
    requires Reachable(c, s) && t < |s.tasks| && s.tasks[t] == Opening(2, [], 0)
    ensures Reachable(c, s') && s'.tasks == s.tasks[t := Idle] && s'.dropped == s.dropped + 1
  {
    hide Reachable;
    s' := Take(c, s, t, OpenStream);
    s' := Take(c, s', t, CountStream);
    s' := Take(c, s', t, FailOpen);
  }

  // The streams an init has counted are in the counter besides the dropped ones, and it
  // was admitted with at least one more.
  lemma {:induction false} OneThreadStep(c: Config, s: State, e: Event)
    requires c.MeetsSchema() && c.threads == 1 && Inv(c, s) && s.dropped + 1 <= c.total && Apply(c, s, e).Some?
    ensures Apply(c, s, e).value.dropped + 1 <= c.total
  {
    hide LockFits, HandlesDiffer, EmptyIsPublishing, Held, LagLaw;
    if e.step.FailOpen? {
      assert TaskFits(c, s, 0);
      OnlyTerm(InFlight, s.tasks);
      OnlyTerm(PendingOf(c), s.tasks);
    }
  }

  lemma {:induction false} OnlyTerm<T>(f: T -> int, xs: seq<T>)
    requires |xs| == 1
    ensures Sum(f, xs) == f(xs[0])
  {
    assert xs[..0] == [];
  }

  lemma {:induction false} OneThreadLeavesRoom(c: Config, run: seq<Event>)
    requires c.MeetsSchema() && c.threads == 1 && Exec(c, Initial(c), run).Some?
    ensures Exec(c, Initial(c), run).value.dropped + 1 <= c.total
  {
    hide Apply, Inv;
    if run != [] {
      var before := run[..|run| - 1];
      OneThreadLeavesRoom(c, before);
      var m := Exec(c, Initial(c), before).value;
      assert Exec(c, Initial(c), before) == Some(m);
      ReachableInv(c, m);
      OneThreadStep(c, m, run[|run| - 1]);
    }
  }

  // The configurations and sizes for which the room can be lost for good: all sizes but
  // 1, and 1 too with several threads and handles of several streams.
  lemma {:induction false} RoomCanBeLostIff(c: Config, want: int)
    requires c.MeetsSchema() && c.perHandle <= c.total && 1 <= want <= c.perHandle
    ensures (exists s :: Reachable(c, s) && s.dropped + want > c.total) <==>
            want >= 2 || (c.threads >= 2 && c.perHandle >= 2)
  {
    if want >= 2 {
      var s := DropOneByOne(c, c.total - 1);
    } else if c.threads >= 2 && c.perHandle >= 2 {
      var s := DropTogether(c);
    } else {
      forall s | Reachable(c, s) ensures s.dropped + want <= c.total {
        var run :| Exec(c, Initial(c), run) == Some(s);
        if c.threads == 1 {
          OneThreadLeavesRoom(c, run);
        } else {
          SingleStreamsDropNothing(c, run);
        }
      }
    }
  }
}
