// Reserving and returning parallel-write streams.
//
// Any number of init and shutdown requests run on a fixed pool of background
// threads. Every atomic action of op_parallel_write_init and
// op_parallel_write_shutdown is one step; steps of different threads interleave.

module StreamReservation {
  import opened Basics

  type StreamId = nat
  type Handle = nat

  // perHandle and total are the two configured maximums.
  datatype Config = Config(threads: nat, perHandle: int, total: int) {
    // The schema minimums, and the pool size, which is clamped to at least 1.
    predicate MeetsSchema() {
      threads >= 1 && perHandle >= 1 && total >= 1
    }
  }

  // What one background thread is doing.
  datatype Task =
    | Idle
      // Init has loaded the global counter but not yet compared it with the limit.
    | Loaded(want: int, seen: int)
      // Init was admitted. The last stream may be open but not yet counted.
    | Opening(want: int, streams: seq<StreamId>, counted: nat)
      // The handle is in the registry, its context still empty.
    | Publishing(handle: Handle, streams: seq<StreamId>)
      // Shutdown holds the registry lock; owed means a stream was closed but not yet discounted.
    | Closing(handle: Handle, closed: nat, owed: bool)

  // counter is g_active_parallel_write_streams, contexts is g_parallel_write_contexts,
  // lock is the writer side of g_pwc_mtx. open holds the streams that are really open.
  // dropped counts the streams that were counted by inits whose later open failed.
  datatype State = State(
    counter: int,
    contexts: map<Handle, seq<StreamId>>,
    lock: Option<nat>,
    tasks: seq<Task>,
    open: set<StreamId>,
    nextStream: StreamId,
    dropped: nat)

  datatype Step =
    | LoadCounter(want: int)
    | CheckLimit
    | OpenStream
    | CountStream
    | FailOpen
    | Emplace(handle: Handle)
    | Fill
    | BeginShutdown(handle: Handle)
    | CloseStream
    | DiscountStream
    | Erase

  datatype Event = Event(thread: nat, step: Step)

  function Initial(c: Config): State {
    State(0, map[], None, seq(c.threads, _ => Idle), {}, 0, 0)
  }

  function Elements(ss: seq<StreamId>): set<StreamId> {
    set x | x in ss
  }

  predicate BeingPublished(s: State, h: Handle) {
    exists t :: 0 <= t < |s.tasks| && s.tasks[t].Publishing? && s.tasks[t].handle == h
  }

  // The effect of one step, or None where the step is not possible.
  function Apply(c: Config, s: State, e: Event): Option<State> {
    var t := e.thread;
    if t >= |s.tasks| then None else
    var k := s.tasks[t];
    match e.step
    case LoadCounter(n) =>
      // Requests outside 1..perHandle are turned away before the counter is read.
      if k.Idle? && 1 <= n <= c.perHandle
      then Some(s.(tasks := s.tasks[t := Loaded(n, s.counter)]))
      else None
    case CheckLimit =>
      if k.Loaded?
      then Some(s.(tasks := s.tasks[t := if k.seen + k.want > c.total then Idle else Opening(k.want, [], 0)]))
      else None
    case OpenStream =>
      if k.Opening? && k.counted == |k.streams| < k.want
      then Some(s.(tasks := s.tasks[t := Opening(k.want, k.streams + [s.nextStream], k.counted)],
                   open := s.open + {s.nextStream},
                   nextStream := s.nextStream + 1))
      else None
    case CountStream =>
      if k.Opening? && k.counted < |k.streams|
      then Some(s.(tasks := s.tasks[t := Opening(k.want, k.streams, k.counted + 1)], counter := s.counter + 1))
      else None
    case FailOpen =>
      // The constructor threw: the vector of streams is destroyed, the counter is left alone.
      if k.Opening? && k.counted == |k.streams| < k.want
      then Some(s.(tasks := s.tasks[t := Idle],
                   open := s.open - Elements(k.streams),
                   dropped := s.dropped + k.counted))
      else None
    case Emplace(h) =>
      if k.Opening? && k.counted == |k.streams| == k.want && s.lock == None && h !in s.contexts
      then Some(s.(tasks := s.tasks[t := Publishing(h, k.streams)], contexts := s.contexts[h := []]))
      else None
    case Fill =>
      if k.Publishing?
      then Some(s.(tasks := s.tasks[t := Idle], contexts := s.contexts[k.handle := k.streams]))
      else None
    case BeginShutdown(h) =>
      // A client learns its handle only from the reply of a finished init.
      if !k.Idle? || s.lock != None || BeingPublished(s, h) then None
      else if h !in s.contexts then Some(s)
      else Some(s.(tasks := s.tasks[t := Closing(h, 0, false)], lock := Some(t)))
    case CloseStream =>
      // Streams are closed from the last one down to the first one.
      if k.Closing? && !k.owed && k.handle in s.contexts && k.closed < |s.contexts[k.handle]|
      then Some(s.(tasks := s.tasks[t := Closing(k.handle, k.closed + 1, true)],
                   open := s.open - {NextToClose(s, k)}))
      else None
    case DiscountStream =>
      if k.Closing? && k.owed
      then Some(s.(tasks := s.tasks[t := Closing(k.handle, k.closed, false)], counter := s.counter - 1))
      else None
    case Erase =>
      if k.Closing? && !k.owed && k.handle in s.contexts && k.closed == |s.contexts[k.handle]|
      then Some(s.(tasks := s.tasks[t := Idle], lock := None, contexts := s.contexts - {k.handle}))
      else None
  }

  function NextToClose(s: State, k: Task): StreamId
    requires k.Closing? && k.handle in s.contexts && k.closed < |s.contexts[k.handle]|
  {
    s.contexts[k.handle][|s.contexts[k.handle]| - 1 - k.closed]
  }

  // The state after a run, or None if some event of it was not possible.
  function Exec(c: Config, s: State, run: seq<Event>): Option<State> {
    if run == [] then Some(s)
    else match Exec(c, s, run[..|run| - 1])
         case None => None
         case Some(m) => Apply(c, m, run[|run| - 1])
  }

  ghost predicate Leads(c: Config, s: State, s': State) {
    exists run :: Exec(c, s, run) == Some(s')
  }

  ghost predicate Reachable(c: Config, s: State) {
    Leads(c, Initial(c), s)
  }

  // ---------------------------------------------------------------- runs compose

  lemma {:induction false} ExecCompose(c: Config, s: State, a: seq<Event>, b: seq<Event>)
    requires Exec(c, s, a).Some?
    ensures Exec(c, s, a + b) == Exec(c, Exec(c, s, a).value, b)
  {
    if b == [] {
      assert a + b == a;
    } else {
      var b' := b[..|b| - 1];
      ExecCompose(c, s, a, b');
      assert (a + b)[..|a + b| - 1] == a + b';
    }
  }

  lemma {:induction false} LeadsCompose(c: Config, s: State, m: State, s': State)
    requires Leads(c, s, m) && Leads(c, m, s')
    ensures Leads(c, s, s')
  {
    var a :| Exec(c, s, a) == Some(m);
    var b :| Exec(c, m, b) == Some(s');
    ExecCompose(c, s, a, b);
    assert Exec(c, s, a + b) == Some(s');
  }

  lemma {:induction false} LeadsStep(c: Config, s: State, e: Event, s': State)
    requires Apply(c, s, e) == Some(s')
    ensures Leads(c, s, s')
  {
    assert [e][..0] == [];
    assert Exec(c, s, []) == Some(s);
    assert Exec(c, s, [e]) == Some(s');
  }

  lemma {:induction false} LeadsSelf(c: Config, s: State)
    ensures Leads(c, s, s)
  {
    assert Exec(c, s, []) == Some(s);
  }
}
