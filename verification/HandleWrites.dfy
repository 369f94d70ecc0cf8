// Concurrent writes through one parallel-write handle.
//
// Every writer is a request that selects a stream, seeks it, hands it the pieces of
// its body in one background task each, replies, and only then gives the stream back.
// The tasks of all writers interleave; so do the single loads and stores of the
// streams' in-use flags.

module HandleWrites {
  import opened Basics
  import opened DataObject
  import CW = ChunkedWrite

  datatype Offset =
    | NoOffset
    | Malformed
    | Seek(pos: int)

  // index is the stream-index parameter: one that is not a number is out of range
  // too, hence Some(-1). body is the pieces in which the bytes are passed on, None if
  // the bytes parameter is missing.
  datatype Request = Request(index: Option<int>, offset: Offset, body: Option<seq<seq<byte>>>)

  datatype WriterReply =
    | BadRequest
    | TooManyRequests
    | StreamInBadState
    | TransferFailed
    | Success

  datatype Stream = Stream(pos: nat, good: bool, inUse: bool)

  // atLock is the in-use flags at the moment the writer locked the mutex of the handle.
  // sent counts the pieces handed to the stream, intact tells that all were accepted.
  datatype Writer =
    | Arrived
    | Scanning(next: nat, atLock: seq<bool>)
    | Found(free: nat, atLock: seq<bool>)
    | Selected(stream: nat, claimed: bool)
    | Writing(stream: nat, claimed: bool, sent: nat, intact: bool)
    | Answered(stream: nat, claimed: bool, reply: WriterReply, sent: nat, intact: bool)
    | Done(reply: WriterReply, sent: nat, intact: bool)

  datatype State = State(content: seq<byte>, streams: seq<Stream>, mutex: Option<nat>, writers: seq<Writer>)

  // One step of one writer; outcome tells how its seek or write ends, if it makes one.
  datatype Event = Event(writer: nat, outcome: CW.Outcome)

  function Flags(streams: seq<Stream>): (f: seq<bool>)
    ensures |f| == |streams| && forall j :: 0 <= j < |f| ==> f[j] == streams[j].inUse
  {
    seq(|streams|, j requires 0 <= j < |streams| => streams[j].inUse)
  }

  function Become(s: State, w: nat, k: Writer): State
    requires w < |s.writers|
  {
    s.(writers := s.writers[w := k])
  }

  function Arrive(r: Request, s: State, w: nat): Option<State>
    requires w < |s.writers|
  {
    match r.index
    case Some(j) =>
      // A stream chosen by the client is taken whether it is in use or not.
      Some(Become(s, w, if 0 <= j < |s.streams| then Selected(j, false) else Done(BadRequest, 0, true)))
    case None =>
      if s.mutex != None then None
      else Some(Become(s, w, Scanning(0, Flags(s.streams))).(mutex := Some(w)))
  }

  function Scan(s: State, w: nat): State
    requires w < |s.writers| && s.writers[w].Scanning?
  {
    var Scanning(i, atLock) := s.writers[w];
    if i >= |s.streams| then Become(s, w, Done(TooManyRequests, 0, true)).(mutex := None)
    else if s.streams[i].inUse then Become(s, w, Scanning(i + 1, atLock))
    else Become(s, w, Found(i, atLock))
  }

  function Claim(s: State, w: nat): Option<State>
    requires w < |s.writers| && s.writers[w].Found?
  {
    var j := s.writers[w].free;
    if j < |s.streams|
    then Some(Become(s, w, Selected(j, true)).(mutex := None, streams := s.streams[j := s.streams[j].(inUse := true)]))
    else None
  }

  // The checks and the seek before the transfer starts.
  function Prepare(r: Request, s: State, w: nat, o: CW.Outcome): Option<State>
    requires w < |s.writers| && s.writers[w].Selected?
  {
    var Selected(j, claimed) := s.writers[w];
    if j >= |s.streams| then None
    else if !s.streams[j].good then Some(Become(s, w, Answered(j, claimed, StreamInBadState, 0, true)))
    else if r.offset.Malformed? then Some(Become(s, w, Answered(j, claimed, BadRequest, 0, true)))
    else if r.offset.Seek? && (r.offset.pos < 0 || !o.Accepted?) then
      Some(Become(s, w, Answered(j, claimed, StreamInBadState, 0, true)).(
        streams := s.streams[j := s.streams[j].(good := false)]))
    else
      var k := if r.body.None? then Answered(j, claimed, BadRequest, 0, true) else Writing(j, claimed, 0, true);
      var stream := if r.offset.Seek? then s.streams[j].(pos := r.offset.pos) else s.streams[j];
      Some(Become(s, w, k).(streams := s.streams[j := stream]))
  }

  // One background task of the transfer.
  function TransferStep(r: Request, s: State, w: nat, o: CW.Outcome): Option<State>
    requires w < |s.writers| && s.writers[w].Writing?
  {
    var Writing(j, claimed, k, intact) := s.writers[w];
    if j >= |s.streams| || r.body.None? then None
    else if k >= |r.body.value| then Some(Become(s, w, Answered(j, claimed, Success, k, intact)))
    else if !s.streams[j].good then Some(Become(s, w, Answered(j, claimed, TransferFailed, k, intact)))
    else
      var stream := s.streams[j];
      var t := CW.Put(CW.Transfer(s.content, stream.pos, true, []), r.body.value[k], o);
      var k' := if o.Threw? then Answered(j, claimed, TransferFailed, k + 1, false)
                else Writing(j, claimed, k + 1, intact && o.Accepted?);
      Some(Become(s, w, k').(content := t.content,
                             streams := s.streams[j := Stream(t.pos, t.good, stream.inUse)]))
  }

  // The writer is destroyed after its reply; only then is a claimed stream given back.
  function Release(s: State, w: nat): Option<State>
    requires w < |s.writers| && s.writers[w].Answered?
  {
    var Answered(j, claimed, reply, k, intact) := s.writers[w];
    if j >= |s.streams| then None
    else if claimed then
      Some(Become(s, w, Done(reply, k, intact)).(streams := s.streams[j := s.streams[j].(inUse := false)]))
    else Some(Become(s, w, Done(reply, k, intact)))
  }

  function Apply(rs: seq<Request>, s: State, e: Event): Option<State> {
    var w := e.writer;
    if w >= |s.writers| || w >= |rs| then None else
    match s.writers[w]
    case Arrived => Arrive(rs[w], s, w)
    case Scanning(_, _) => Some(Scan(s, w))
    case Found(_, _) => Claim(s, w)
    case Selected(_, _) => Prepare(rs[w], s, w, e.outcome)
    case Writing(_, _, _, _) => TransferStep(rs[w], s, w, e.outcome)
    case Answered(_, _, _, _, _) => Release(s, w)
    case Done(_, _, _) => None
  }

  // The handle before any of the given requests has arrived: no stream is in use.
  ghost predicate Initial(rs: seq<Request>, s: State) {
    && |s.writers| == |rs| && s.mutex == None
    && (forall w :: 0 <= w < |s.writers| ==> s.writers[w] == Arrived)
    && (forall j :: 0 <= j < |s.streams| ==> !s.streams[j].inUse)
  }

  function Exec(rs: seq<Request>, s: State, run: seq<Event>): Option<State> {
    if run == [] then Some(s)
    else match Exec(rs, s, run[..|run| - 1])
         case None => None
         case Some(m) => Apply(rs, m, run[|run| - 1])
  }

  ghost predicate Leads(rs: seq<Request>, s: State, s': State) {
    exists run :: Exec(rs, s, run) == Some(s')
  }

  lemma {:induction false} LeadsSelf(rs: seq<Request>, s: State)
    ensures Leads(rs, s, s)
  {
    assert Exec(rs, s, []) == Some(s);
  }

  lemma {:induction false} LeadsStep(rs: seq<Request>, s: State, m: State, e: Event)
    requires Leads(rs, s, m) && Apply(rs, m, e).Some?
    ensures Leads(rs, s, Apply(rs, m, e).value)
  {
    hide Apply;
    var run :| Exec(rs, s, run) == Some(m);
    assert (run + [e])[..|run|] == run;
    assert Exec(rs, s, run + [e]) == Apply(rs, m, e);
  }
}
