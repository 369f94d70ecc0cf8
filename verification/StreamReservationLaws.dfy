// What every step of init and shutdown keeps, and what follows for whole runs.

module StreamReservationLaws {
  import opened Basics
  import opened StreamReservation

  // ---------------------------------------------------------------- shape of the state

  ghost predicate TaskFits(c: Config, s: State, t: nat)
    requires t < |s.tasks|
  {
    match s.tasks[t]
    case Idle => true
    case Loaded(n, _) => 1 <= n <= c.perHandle
    case Opening(n, ss, k) => 1 <= n <= c.perHandle && k <= |ss| <= k + 1 && |ss| <= n
    case Publishing(h, ss) => 1 <= |ss| && h in s.contexts && s.contexts[h] == []
    case Closing(h, k, owed) => h in s.contexts && k <= |s.contexts[h]| && |s.contexts[h]| >= 1 && (owed ==> k >= 1)
  }

  ghost predicate TasksFit(c: Config, s: State) {
    |s.tasks| == c.threads && forall t :: 0 <= t < |s.tasks| ==> TaskFits(c, s, t)
  }

  // The registry lock is held exactly by the thread that is shutting a handle down.
  ghost predicate LockFits(s: State) {
    && (forall t :: 0 <= t < |s.tasks| ==> (s.tasks[t].Closing? <==> s.lock == Some(t)))
    && (s.lock.Some? ==> s.lock.value < |s.tasks|)
  }

  ghost predicate HandlesDiffer(s: State) {
    forall t, u :: 0 <= t < |s.tasks| && 0 <= u < |s.tasks| && t != u && s.tasks[t].Publishing? && s.tasks[u].Publishing?
                   ==> s.tasks[t].handle != s.tasks[u].handle
  }

  // Only a context that is still being published is empty, so a shutdown,
  // which steps back from the end of the vector, always finds a first stream.
  ghost predicate EmptyIsPublishing(s: State) {
    forall h :: h in s.contexts && s.contexts[h] == [] ==> BeingPublished(s, h)
  }

  ghost predicate Shape(c: Config, s: State) {
    TasksFit(c, s) && LockFits(s) && HandlesDiffer(s) && EmptyIsPublishing(s)
  }

  lemma {:induction false} TasksAfter(c: Config, s: State, e: Event)
    requires Apply(c, s, e).Some?
    ensures var s' := Apply(c, s, e).value;
            |s'.tasks| == |s.tasks| && e.thread < |s.tasks| && s'.tasks == s.tasks[e.thread := s'.tasks[e.thread]]
  {
  }

  lemma {:induction false} OwnTaskFits(c: Config, s: State, e: Event)
    requires Shape(c, s) && Apply(c, s, e).Some?
    ensures TaskFits(c, Apply(c, s, e).value, e.thread)
  {
    assert TaskFits(c, s, e.thread);
  }

  // A step of one thread touches at most the context that the thread works on.
  lemma {:induction false} OtherTaskFits(c: Config, s: State, e: Event, u: nat)
    requires Shape(c, s) && Apply(c, s, e).Some? && u < |s.tasks| && u != e.thread
    ensures TaskFits(c, Apply(c, s, e).value, u)
  {
    hide BeingPublished, EmptyIsPublishing;
    assert TaskFits(c, s, u);
    assert TaskFits(c, s, e.thread);
    var s' := Apply(c, s, e).value;
    assert s'.tasks[u] == s.tasks[u];
    if s.tasks[u].Publishing? || s.tasks[u].Closing? {
      var h := s.tasks[u].handle;
      assert h in s'.contexts && s'.contexts[h] == s.contexts[h];
    }
  }

  lemma {:induction false} TasksFitPreserved(c: Config, s: State, e: Event)
    requires Shape(c, s) && Apply(c, s, e).Some?
    ensures TasksFit(c, Apply(c, s, e).value)
  {
    forall u | 0 <= u < |s.tasks|
      ensures TaskFits(c, Apply(c, s, e).value, u)
    {
      if u == e.thread {
        OwnTaskFits(c, s, e);
      } else {
        OtherTaskFits(c, s, e, u);
      }
    }
  }

  lemma {:induction false} HandlesDifferPreserved(c: Config, s: State, e: Event)
    requires Shape(c, s) && Apply(c, s, e).Some?
    ensures HandlesDiffer(Apply(c, s, e).value)
  {
    var s' := Apply(c, s, e).value;
    forall u | 0 <= u < |s'.tasks| && u != e.thread && s'.tasks[u].Publishing?
      ensures e.step.Emplace? ==> s'.tasks[u].handle != e.step.handle
    {
      assert TaskFits(c, s, u);
    }
  }

  lemma {:induction false} EmptyIsPublishingPreserved(c: Config, s: State, e: Event)
    requires Shape(c, s) && Apply(c, s, e).Some?
    ensures EmptyIsPublishing(Apply(c, s, e).value)
  {
    var s' := Apply(c, s, e).value;
    assert TaskFits(c, s, e.thread);
    forall h | h in s'.contexts && s'.contexts[h] == []
      ensures BeingPublished(s', h)
    {
      if e.step.Emplace? && h == e.step.handle {
        assert s'.tasks[e.thread].Publishing?;
      } else {
        var t :| 0 <= t < |s.tasks| && s.tasks[t].Publishing? && s.tasks[t].handle == h;
        assert s'.tasks[t] == s.tasks[t];
      }
    }
  }

  lemma {:induction false} ShapePreserved(c: Config, s: State, e: Event)
    requires Shape(c, s) && Apply(c, s, e).Some?
    ensures Shape(c, Apply(c, s, e).value)
  {
    TasksFitPreserved(c, s, e);
    HandlesDifferPreserved(c, s, e);
    EmptyIsPublishingPreserved(c, s, e);
  }

  // ---------------------------------------------------------------- the counter law

  // Streams held by all contexts of the registry.
  ghost function StreamTotal(m: map<Handle, seq<StreamId>>): nat {
    if m == map[] then 0
    else var h :| h in m; |m[h]| + StreamTotal(m - {h})
  }

  lemma {:induction false} StreamTotalRemove(m: map<Handle, seq<StreamId>>, h: Handle)
    requires h in m
    ensures StreamTotal(m) == |m[h]| + StreamTotal(m - {h})
    decreases |m|
  {
    var g :| g in m && StreamTotal(m) == |m[g]| + StreamTotal(m - {g});
    if g != h {
      StreamTotalRemove(m - {g}, h);
      StreamTotalRemove(m - {h}, g);
      assert m - {g} - {h} == m - {h} - {g};
    }
  }

  lemma {:induction false} StreamTotalUpdate(m: map<Handle, seq<StreamId>>, h: Handle, ss: seq<StreamId>)
    ensures StreamTotal(m[h := ss]) == StreamTotal(m) - (if h in m then |m[h]| else 0) + |ss|
  {
    StreamTotalRemove(m[h := ss], h);
    assert m[h := ss] - {h} == m - {h};
    if h in m {
      StreamTotalRemove(m, h);
    } else {
      assert m - {h} == m;
    }
  }

  // What one thread adds to the counter beyond the contexts of the registry.
  function InFlight(k: Task): int {
    match k
    case Opening(_, _, counted) => counted
    case Publishing(_, ss) => |ss|
    case Closing(_, closed, owed) => (if owed then 1 else 0) - closed
    case _ => 0
  }

  // The counter is the sum of the streams of registered contexts less those a
  // shutdown has already discounted, the streams counted by inits in flight, and
  // the streams dropped by failed inits.
  ghost predicate CounterLaw(s: State) {
    s.counter == StreamTotal(s.contexts) + Sum(InFlight, s.tasks) + s.dropped
  }

  lemma {:induction false} CounterLawPreserved(c: Config, s: State, e: Event)
    requires Shape(c, s) && CounterLaw(s) && Apply(c, s, e).Some?
    ensures CounterLaw(Apply(c, s, e).value)
  {
    hide Sum, StreamTotal, LockFits, HandlesDiffer, EmptyIsPublishing, BeingPublished;
    var s' := Apply(c, s, e).value;
    var t := e.thread;
    SumUpdate(InFlight, s.tasks, t, s'.tasks[t]);
    assert s'.tasks == s.tasks[t := s'.tasks[t]];
    assert TaskFits(c, s, t);
    match e.step
    case Emplace(h) => StreamTotalUpdate(s.contexts, h, []);
    case Fill => StreamTotalUpdate(s.contexts, s.tasks[t].handle, s.tasks[t].streams);
    case Erase => StreamTotalRemove(s.contexts, s.tasks[t].handle);
    case _ =>
  }

  // ---------------------------------------------------------------- the overshoot bound

  // Streams that one admitted init has still to count.
  function Pending(c: Config, k: Task): int {
    match k
    case Loaded(n, seen) => if seen + n <= c.total then n else 0
    case Opening(n, _, counted) => n - counted
    case _ => 0
  }

  function PendingOf(c: Config): Task -> int {
    k => Pending(c, k)
  }

  ghost function Reserved(c: Config, s: State): int {
    s.counter + Sum(PendingOf(c), s.tasks)
  }

  function Ceiling(c: Config): int {
    c.total + (c.threads - 1) * c.perHandle
  }

  // All threads but an idle one are pending at most perHandle streams each.
  lemma {:induction false} OthersPending(c: Config, s: State, t: nat)
    requires Shape(c, s) && c.perHandle >= 1 && t < |s.tasks| && s.tasks[t].Idle?
    ensures Sum(PendingOf(c), s.tasks) <= (c.threads - 1) * c.perHandle
  {
    forall u | 0 <= u < |s.tasks|
      ensures PendingOf(c)(s.tasks[u]) <= c.perHandle
    {
      assert TaskFits(c, s, u);
    }
    var full := Loaded(c.perHandle, c.total - c.perHandle);
    SumAtMost(PendingOf(c), s.tasks[t := full], c.perHandle);
    SumUpdate(PendingOf(c), s.tasks, t, full);
    assert c.threads * c.perHandle == (c.threads - 1) * c.perHandle + c.perHandle;
  }

  lemma {:induction false} OvershootPreserved(c: Config, s: State, e: Event)
    requires c.MeetsSchema() && Shape(c, s) && Reserved(c, s) <= Ceiling(c) && Apply(c, s, e).Some?
    ensures Reserved(c, Apply(c, s, e).value) <= Ceiling(c)
  {
    hide Sum, LockFits, HandlesDiffer, EmptyIsPublishing, BeingPublished;
    var s' := Apply(c, s, e).value;
    var t := e.thread;
    SumUpdate(PendingOf(c), s.tasks, t, s'.tasks[t]);
    assert s'.tasks == s.tasks[t := s'.tasks[t]];
    assert TaskFits(c, s, t);
    if e.step.LoadCounter? {
      OthersPending(c, s, t);
    }
  }

  // ---------------------------------------------------------------- who holds the open streams

  // A place that holds a stream: the local vector of an init, or a context.
  datatype Slot =
    | InTask(thread: nat, index: nat)
    | InContext(handle: Handle, index: nat)

  // The streams of a context that a shutdown in progress has not closed yet.
  function Unclosed(s: State, h: Handle): int
    requires h in s.contexts
  {
    if s.lock.Some? && s.lock.value < |s.tasks| && s.tasks[s.lock.value].Closing? && s.tasks[s.lock.value].handle == h
    then |s.contexts[h]| - s.tasks[s.lock.value].closed
    else |s.contexts[h]|
  }

  function TaskStreams(k: Task): seq<StreamId> {
    match k
    case Opening(_, ss, _) => ss
    case Publishing(_, ss) => ss
    case _ => []
  }

  function At(s: State, slot: Slot): Option<StreamId> {
    match slot
    case InTask(t, i) =>
      if t < |s.tasks| && i < |TaskStreams(s.tasks[t])| then Some(TaskStreams(s.tasks[t])[i]) else None
    case InContext(h, i) =>
      if h in s.contexts && i < Unclosed(s, h) && i < |s.contexts[h]| then Some(s.contexts[h][i]) else None
  }

  // The open streams are exactly the ones held, each in a single place.
  ghost predicate HeldIn(s: State, place: map<StreamId, Slot>) {
    && place.Keys == s.open
    && (forall x :: x in s.open ==> x < s.nextStream && At(s, place[x]) == Some(x))
    && (forall p :: At(s, p).Some? ==> At(s, p).value in s.open && place[At(s, p).value] == p)
  }

  ghost predicate Held(s: State) {
    exists place :: HeldIn(s, place)
  }

  // What a step that is possible does to one slot.
  function AtAfter(s: State, e: Event, p: Slot): Option<StreamId>
    requires e.thread < |s.tasks|
  {
    var t := e.thread;
    var k := s.tasks[t];
    match e.step
    case OpenStream => if p == InTask(t, |TaskStreams(k)|) then Some(s.nextStream) else At(s, p)
    case FailOpen => if p.InTask? && p.thread == t then None else At(s, p)
    case CloseStream =>
      if k.Closing? && k.handle in s.contexts && p == InContext(k.handle, Max(0, |s.contexts[k.handle]| - 1 - k.closed))
      then None else At(s, p)
    case Fill =>
      if p.InTask? && p.thread == t then None
      else if k.Publishing? && p.InContext? && p.handle == k.handle then At(s, InTask(t, p.index))
      else At(s, p)
    case _ => At(s, p)
  }

  lemma {:induction false} StepMovesTaskSlot(c: Config, s: State, e: Event, t: nat, i: nat)
    requires Shape(c, s) && Apply(c, s, e).Some?
    ensures At(Apply(c, s, e).value, InTask(t, i)) == AtAfter(s, e, InTask(t, i))
  {
    hide LockFits, HandlesDiffer, EmptyIsPublishing, BeingPublished, Unclosed;
    assert TaskFits(c, s, e.thread);
  }

  lemma {:induction false} StepMovesContextSlot(c: Config, s: State, e: Event, h: Handle, i: nat)
    requires Shape(c, s) && Apply(c, s, e).Some?
    ensures At(Apply(c, s, e).value, InContext(h, i)) == AtAfter(s, e, InContext(h, i))
  {
    hide HandlesDiffer, EmptyIsPublishing, BeingPublished;
    var t := e.thread;
    assert TaskFits(c, s, t);
    if s.lock.Some? && s.lock.value < |s.tasks| {
      assert TaskFits(c, s, s.lock.value);
    }
    match e.step
    case BeginShutdown(_) =>
    case CloseStream =>
    case DiscountStream =>
    case Erase =>
    case Fill =>
    case Emplace(_) =>
    case _ => assert Apply(c, s, e).value.contexts == s.contexts;
  }

  lemma {:induction false} StepMovesSlot(c: Config, s: State, e: Event, p: Slot)
    requires Shape(c, s) && Apply(c, s, e).Some?
    ensures At(Apply(c, s, e).value, p) == AtAfter(s, e, p)
  {
    match p
    case InTask(t, i) => StepMovesTaskSlot(c, s, e, t, i);
    case InContext(h, i) => StepMovesContextSlot(c, s, e, h, i);
  }

  // The same for the record of places.
  function PlaceAfter(s: State, e: Event, place: map<StreamId, Slot>): map<StreamId, Slot>
    requires e.thread < |s.tasks|
  {
    var t := e.thread;
    var k := s.tasks[t];
    match e.step
    case OpenStream => place[s.nextStream := InTask(t, |TaskStreams(k)|)]
    case FailOpen => place - Elements(TaskStreams(k))
    case CloseStream =>
      if k.Closing? && k.handle in s.contexts && k.closed < |s.contexts[k.handle]|
      then place - {NextToClose(s, k)} else place
    case Fill =>
      if !k.Publishing? then place else
      map x | x in place ::
        if place[x].InTask? && place[x].thread == t then InContext(k.handle, place[x].index) else place[x]
    case _ => place
  }

  lemma {:induction false} PlacesAreOpen(c: Config, s: State, e: Event, place: map<StreamId, Slot>)
    requires Shape(c, s) && HeldIn(s, place) && Apply(c, s, e).Some?
    ensures PlaceAfter(s, e, place).Keys == Apply(c, s, e).value.open
  {
    assert TaskFits(c, s, e.thread);
  }

  // Every stream left open is where the record says.
  lemma {:induction false} OpenStreamIsPlaced(c: Config, s: State, e: Event, place: map<StreamId, Slot>, x: StreamId)
    requires Shape(c, s) && HeldIn(s, place) && Apply(c, s, e).Some?
    requires x in Apply(c, s, e).value.open && x in PlaceAfter(s, e, place)
    ensures x < Apply(c, s, e).value.nextStream && AtAfter(s, e, PlaceAfter(s, e, place)[x]) == Some(x)
  {
    hide LockFits, HandlesDiffer, EmptyIsPublishing, BeingPublished;
    assert TaskFits(c, s, e.thread);
    match e.step
    case OpenStream =>
    case FailOpen => assert At(s, place[x]) == Some(x);
    case CloseStream => assert At(s, place[x]) == Some(x);
    case Fill => assert At(s, place[x]) == Some(x);
    case _ => assert At(s, place[x]) == Some(x);
  }

  // Every slot still filled holds an open stream, recorded at that slot.
  lemma {:induction false} FilledSlotIsOpen(c: Config, s: State, e: Event, place: map<StreamId, Slot>, p: Slot)
    requires Shape(c, s) && HeldIn(s, place) && Apply(c, s, e).Some?
    requires AtAfter(s, e, p).Some?
    ensures var x := AtAfter(s, e, p).value;
            x in Apply(c, s, e).value.open && x in PlaceAfter(s, e, place) && PlaceAfter(s, e, place)[x] == p
  {
    hide HandlesDiffer, EmptyIsPublishing, BeingPublished;
    var t := e.thread;
    assert TaskFits(c, s, t);
    PlacesAreOpen(c, s, e, place);
    var x := AtAfter(s, e, p).value;
    match e.step
    case OpenStream =>
    case FailOpen =>
      forall i | 0 <= i < |s.tasks[t].streams| ensures At(s, InTask(t, i)) == Some(s.tasks[t].streams[i]) {
      }
    case CloseStream =>
      var h, k := s.tasks[t].handle, s.tasks[t].closed;
      assert At(s, InContext(h, |s.contexts[h]| - 1 - k)).Some?;
    case Fill =>
      assert p.InContext?  && p.handle == s.tasks[t].handle ==> At(s, InTask(t, p.index)) == Some(x);
    case _ =>
  }

  lemma {:induction false} HeldPreserved(c: Config, s: State, e: Event)
    requires Shape(c, s) && Held(s) && Apply(c, s, e).Some?
    ensures Held(Apply(c, s, e).value)
  {
    var s' := Apply(c, s, e).value;
    var place :| HeldIn(s, place);
    var place' := PlaceAfter(s, e, place);
    PlacesAreOpen(c, s, e, place);
    forall x | x in s'.open ensures x < s'.nextStream && At(s', place'[x]) == Some(x) {
      OpenStreamIsPlaced(c, s, e, place, x);
      StepMovesSlot(c, s, e, place'[x]);
    }
    forall p | At(s', p).Some? ensures At(s', p).value in s'.open && place'[At(s', p).value] == p {
      StepMovesSlot(c, s, e, p);
      FilledSlotIsOpen(c, s, e, place, p);
    }
    assert HeldIn(s', place');
  }

  // ---------------------------------------------------------------- the counter against the open streams

  // Streams opened but not counted yet, less streams closed but not discounted yet.
  function Lag(k: Task): int {
    match k
    case Opening(_, ss, counted) => |ss| - counted
    case Closing(_, _, owed) => if owed then -1 else 0
    case _ => 0
  }

  ghost predicate LagLaw(s: State) {
    s.counter + Sum(Lag, s.tasks) == |s.open| + s.dropped
  }

  lemma {:induction false} DistinctElements(ss: seq<StreamId>)
    requires forall i, j :: 0 <= i < j < |ss| ==> ss[i] != ss[j]
    ensures |Elements(ss)| == |ss|
  {
    if ss != [] {
      var n := |ss| - 1;
      DistinctElements(ss[..n]);
      assert Elements(ss) == Elements(ss[..n]) + {ss[n]};
      assert ss[n] !in Elements(ss[..n]);
    }
  }

  lemma {:induction false} TaskStreamsDiffer(s: State, place: map<StreamId, Slot>, t: nat)
    requires HeldIn(s, place) && t < |s.tasks|
    ensures var ss := TaskStreams(s.tasks[t]);
            Elements(ss) <= s.open && (forall i, j :: 0 <= i < j < |ss| ==> ss[i] != ss[j])
  {
    var ss := TaskStreams(s.tasks[t]);
    forall i | 0 <= i < |ss| ensures ss[i] in s.open && place[ss[i]] == InTask(t, i) {
      assert At(s, InTask(t, i)) == Some(ss[i]);
    }
  }

  // The streams a step opens, closes or destroys are new, open, and open and distinct.
  ghost predicate StepCounts(s: State, e: Event)
    requires e.thread < |s.tasks|
  {
    var k := s.tasks[e.thread];
    match e.step
    case OpenStream => s.nextStream !in s.open
    case FailOpen => |s.open - Elements(TaskStreams(k))| == |s.open| - |TaskStreams(k)|
    case CloseStream =>
      k.Closing? && k.handle in s.contexts && k.closed < |s.contexts[k.handle]| ==> NextToClose(s, k) in s.open
    case _ => true
  }

  lemma {:induction false} ClosingStreamIsOpen(c: Config, s: State, place: map<StreamId, Slot>, t: nat)
    requires Shape(c, s) && HeldIn(s, place) && t < |s.tasks| && s.tasks[t].Closing?
    requires s.tasks[t].handle in s.contexts && s.tasks[t].closed < |s.contexts[s.tasks[t].handle]|
    ensures NextToClose(s, s.tasks[t]) in s.open
  {
    var h := s.tasks[t].handle;
    assert At(s, InContext(h, |s.contexts[h]| - 1 - s.tasks[t].closed)).Some?;
  }

  lemma {:induction false} SubsetSize(a: set<StreamId>, b: set<StreamId>)
    requires b <= a
    ensures |a - b| == |a| - |b|
  {
  }

  lemma {:induction false} HeldCounts(c: Config, s: State, e: Event)
    requires Shape(c, s) && Held(s) && Apply(c, s, e).Some?
    ensures StepCounts(s, e)
  {
    var place :| HeldIn(s, place);
    if e.step.FailOpen? {
      var ss := TaskStreams(s.tasks[e.thread]);
      TaskStreamsDiffer(s, place, e.thread);
      DistinctElements(ss);
      SubsetSize(s.open, Elements(ss));
    } else if e.step.CloseStream? {
      ClosingStreamIsOpen(c, s, place, e.thread);
    }
  }

  // How many streams more are open after a step.
  function OpenChange(s: State, e: Event): int
    requires e.thread < |s.tasks|
  {
    match e.step
    case OpenStream => 1
    case CloseStream => -1
    case FailOpen => -|TaskStreams(s.tasks[e.thread])|
    case _ => 0
  }

  lemma {:induction false} StepOpens(c: Config, s: State, e: Event)
    requires Apply(c, s, e).Some? && StepCounts(s, e)
    ensures |Apply(c, s, e).value.open| == |s.open| + OpenChange(s, e)
  {
  }

  lemma {:induction false} StepLags(c: Config, s: State, e: Event)
    requires e.thread < |s.tasks| && TaskFits(c, s, e.thread) && Apply(c, s, e).Some?
    ensures var s' := Apply(c, s, e).value;
            s'.counter + Lag(s'.tasks[e.thread]) - s'.dropped ==
            s.counter + Lag(s.tasks[e.thread]) - s.dropped + OpenChange(s, e)
  {
  }

  lemma {:induction false} LagLawPreserved(c: Config, s: State, e: Event)
    requires TasksFit(c, s) && LagLaw(s) && Apply(c, s, e).Some? && StepCounts(s, e)
    ensures LagLaw(Apply(c, s, e).value)
  {
    hide Sum, StepCounts, Lag, OpenChange, TaskFits;
    var s' := Apply(c, s, e).value;
    StepOpens(c, s, e);
    assert TaskFits(c, s, e.thread);
    StepLags(c, s, e);
    SumUpdate(Lag, s.tasks, e.thread, s'.tasks[e.thread]);
    TasksAfter(c, s, e);
  }

  // ---------------------------------------------------------------- every reachable state

  ghost predicate Inv(c: Config, s: State) {
    Shape(c, s) && CounterLaw(s) && Reserved(c, s) <= Ceiling(c) && Held(s) && LagLaw(s)
  }

  lemma {:induction false} InvInitial(c: Config)
    requires c.MeetsSchema()
    ensures Inv(c, Initial(c))
  {
    var s := Initial(c);
    SumZero(InFlight, s.tasks);
    SumZero(PendingOf(c), s.tasks);
    SumZero(Lag, s.tasks);
    assert HeldIn(s, map[]);
    assert (c.threads - 1) * c.perHandle >= 0;
  }

  lemma {:induction false} InvAfter(c: Config, s: State, run: seq<Event>)
    requires c.MeetsSchema() && Inv(c, s) && Exec(c, s, run).Some?
    ensures Inv(c, Exec(c, s, run).value)
  {
    if run != [] {
      var before := run[..|run| - 1];
      InvAfter(c, s, before);
      var m, e := Exec(c, s, before).value, run[|run| - 1];
      ShapePreserved(c, m, e);
      CounterLawPreserved(c, m, e);
      OvershootPreserved(c, m, e);
      HeldPreserved(c, m, e);
      HeldCounts(c, m, e);
      LagLawPreserved(c, m, e);
    }
  }

  lemma {:induction false} ReachableInv(c: Config, s: State)
    requires c.MeetsSchema() && Reachable(c, s)
    ensures Inv(c, s)
  {
    var run :| Exec(c, Initial(c), run) == Some(s);
    InvInitial(c);
    InvAfter(c, Initial(c), run);
  }
}
