// Where requests without an offset write: right where the previous user of their stream
// stopped. With that, the results about the object hold for all requests.

module HandleWritesPositions {
  import opened Basics
  import opened DataObject
  import opened HandleWrites
  import opened HandleWritesClaims
  import opened HandleWritesExclusion
  import opened HandleWritesSharing
  import opened HandleWritesConfluence
  import opened HandleWritesOutcome
  import CW = ChunkedWrite

  // ---------------------------------------------------------------- the uses of streams

  // A writer got past its checks and its seek, and starts at the given position.
  datatype Use = Use(writer: nat, stream: nat, start: nat)

  // The event takes a stream into use: it is good, and the seek, if there is one, succeeds.
  predicate TakesUp(rs: seq<Request>, s: State, e: Event) {
    && e.writer < |rs| && e.writer < |s.writers| && s.writers[e.writer].Selected?
    && s.writers[e.writer].stream < |s.streams| && s.streams[s.writers[e.writer].stream].good
    && (rs[e.writer].offset.NoOffset?
        || (rs[e.writer].offset.Seek? && rs[e.writer].offset.pos >= 0 && e.outcome.Accepted?))
  }

  // It starts where its offset says, or else where the stream stands.
  function UseOf(rs: seq<Request>, s: State, e: Event): Use
    requires TakesUp(rs, s, e)
  {
    var j := s.writers[e.writer].stream;
    Use(e.writer, j, if rs[e.writer].offset.Seek? then rs[e.writer].offset.pos else s.streams[j].pos)
  }

  function Uses(rs: seq<Request>, s0: State, run: seq<Event>): seq<Use> {
    if run == [] then []
    else
      var n := |run| - 1;
      match Exec(rs, s0, run[..n])
      case None => []
      case Some(m) => Uses(rs, s0, run[..n]) + if TakesUp(rs, m, run[n]) then [UseOf(rs, m, run[n])] else []
  }

  lemma {:induction false} UsesStep(rs: seq<Request>, s0: State, run: seq<Event>, m: State)
    requires run != [] && Exec(rs, s0, run[..|run| - 1]) == Some(m)
    ensures var us, e := Uses(rs, s0, run[..|run| - 1]), run[|run| - 1];
            Uses(rs, s0, run) == if TakesUp(rs, m, e) then us + [UseOf(rs, m, e)] else us
  {
    var us := Uses(rs, s0, run[..|run| - 1]);
    assert us + [] == us;
  }

  // Where a writer starts.
  function StartOf(us: seq<Use>, w: nat): Option<nat> {
    if us == [] then None
    else match StartOf(us[..|us| - 1], w)
         case Some(p) => Some(p)
         case None => if us[|us| - 1].writer == w then Some(us[|us| - 1].start) else None
  }

  lemma {:induction false} StartOfMore(us: seq<Use>, u: Use, w: nat)
    ensures StartOf(us + [u], w) ==
            match StartOf(us, w) case Some(p) => Some(p) case None => if u.writer == w then Some(u.start) else None
  {
    assert (us + [u])[..|us + [u]| - 1] == us;
  }

  // ---------------------------------------------------------------- requests as they are placed

  // The request with the offset at which it starts.
  function PlacedAt(r: Request, start: Option<nat>): Request {
    if r.offset.NoOffset? then r.(offset := Seek(match start case None => 0 case Some(p) => p)) else r
  }

  function Placed(rs: seq<Request>, us: seq<Use>): (qs: seq<Request>)
    ensures |qs| == |rs| && forall w :: 0 <= w < |rs| ==> qs[w] == PlacedAt(rs[w], StartOf(us, w))
  {
    seq(|rs|, w requires 0 <= w < |rs| => PlacedAt(rs[w], StartOf(us, w)))
  }

  // The same events, but with a seek that succeeds where there was none.
  function Smooth(rs: seq<Request>, s0: State, run: seq<Event>): (smooth: seq<Event>)
    ensures |smooth| == |run|
  {
    if run == [] then []
    else
      var n := |run| - 1;
      Smooth(rs, s0, run[..n]) + [SmoothEvent(rs, Exec(rs, s0, run[..n]), run[n])]
  }

  function SmoothEvent(rs: seq<Request>, m: Option<State>, e: Event): Event {
    if m.Some? && e.writer < |rs| && e.writer < |m.value.writers| && m.value.writers[e.writer].Selected?
       && rs[e.writer].offset.NoOffset?
    then Event(e.writer, CW.Accepted) else e
  }

  // Writers that have not been prepared have not used anything.
  ghost predicate UsesFit(s: State, us: seq<Use>) {
    forall w :: 0 <= w < |s.writers| && StartOf(us, w).Some? ==>
      s.writers[w].Writing? || s.writers[w].Answered? || s.writers[w].Done?
  }

  lemma {:induction false} PreparedMovesOn(rs: seq<Request>, s: State, e: Event)
    requires Apply(rs, s, e).Some?
    ensures e.writer < |rs| && e.writer < |s.writers| && |Apply(rs, s, e).value.writers| == |s.writers|
    ensures forall w :: 0 <= w < |s.writers| && w != e.writer ==> Apply(rs, s, e).value.writers[w] == s.writers[w]
    ensures var k, k' := s.writers[e.writer], Apply(rs, s, e).value.writers[e.writer];
            (k.Selected? || k.Writing? || k.Answered?) ==> k'.Writing? || k'.Answered? || k'.Done?
    ensures !s.writers[e.writer].Done?
  {
    hide WriteAt, CW.Put;
  }

  lemma {:induction false} UsesFitAfter(rs: seq<Request>, s0: State, run: seq<Event>, s: State)
    requires Exec(rs, s0, run) == Some(s)
    ensures UsesFit(s, Uses(rs, s0, run))
  {
    hide Apply;
    if run != [] {
      var n := |run| - 1;
      var m, e := Exec(rs, s0, run[..n]).value, run[n];
      UsesFitAfter(rs, s0, run[..n], m);
      PreparedMovesOn(rs, m, e);
      UsesStep(rs, s0, run, m);
      var us := Uses(rs, s0, run[..n]);
      if TakesUp(rs, m, e) {
        forall w | 0 <= w < |s.writers| && StartOf(us + [UseOf(rs, m, e)], w).Some?
          ensures s.writers[w].Writing? || s.writers[w].Answered? || s.writers[w].Done?
        {
          StartOfMore(us, UseOf(rs, m, e), w);
        }
      }
    }
  }

  // ---------------------------------------------------------------- the same run with offsets

  // qs is rs, with the offsets known from us and any for the other requests that have none.
  ghost predicate Agrees(rs: seq<Request>, qs: seq<Request>, us: seq<Use>) {
    |qs| == |rs| && forall w :: 0 <= w < |rs| ==>
      if rs[w].offset.NoOffset?
      then exists p: nat :: qs[w] == rs[w].(offset := Seek(p)) && (StartOf(us, w).Some? ==> StartOf(us, w) == Some(p))
      else qs[w] == rs[w]
  }

  lemma {:induction false} AgreesBefore(rs: seq<Request>, qs: seq<Request>, us: seq<Use>, u: Use)
    requires Agrees(rs, qs, us + [u])
    ensures Agrees(rs, qs, us)
  {
    forall w | 0 <= w < |rs|
      ensures StartOf(us, w).Some? ==> StartOf(us + [u], w) == StartOf(us, w)
    {
      StartOfMore(us, u, w);
    }
  }

  lemma {:induction false} SameStep(rs: seq<Request>, qs: seq<Request>, m: State, e: Event, p: nat)
    requires |qs| == |rs| && e.writer < |rs| && e.writer < |m.writers|
    requires rs[e.writer].offset.NoOffset? && qs[e.writer] == rs[e.writer].(offset := Seek(p))
    requires TakesUp(rs, m, e) ==> p == UseOf(rs, m, e).start
    ensures Apply(qs, m, SmoothEvent(rs, Some(m), e)) == Apply(rs, m, e)
  {
    hide WriteAt, CW.Put;
    var w := e.writer;
    if TakesUp(rs, m, e) {
      var j := m.writers[w].stream;
      assert m.streams[j].(pos := p) == m.streams[j];
    }
  }

  lemma {:induction false} UnchangedStep(rs: seq<Request>, qs: seq<Request>, m: State, e: Event)
    requires |qs| == |rs| && (e.writer < |rs| ==> qs[e.writer] == rs[e.writer] && !rs[e.writer].offset.NoOffset?)
    ensures Apply(qs, m, SmoothEvent(rs, Some(m), e)) == Apply(rs, m, e)
  {
  }

  lemma {:induction false} SameRun(rs: seq<Request>, qs: seq<Request>, s0: State, run: seq<Event>, s: State)
    requires Exec(rs, s0, run) == Some(s) && Agrees(rs, qs, Uses(rs, s0, run))
    ensures Exec(qs, s0, Smooth(rs, s0, run)) == Some(s)
    decreases |run|
  {
    hide Apply, Agrees, SmoothEvent, TakesUp, UseOf;
    if run != [] {
      var n := |run| - 1;
      var m, e := Exec(rs, s0, run[..n]).value, run[n];
      var us := Uses(rs, s0, run[..n]);
      UsesStep(rs, s0, run, m);
      if TakesUp(rs, m, e) {
        AgreesBefore(rs, qs, us, UseOf(rs, m, e));
      }
      SameRun(rs, qs, s0, run[..n], m);
      SameLastStep(rs, qs, s0, run, m);
      assert Smooth(rs, s0, run)[..n] == Smooth(rs, s0, run[..n]);
    }
  }

  lemma {:induction false} SameLastStep(rs: seq<Request>, qs: seq<Request>, s0: State, run: seq<Event>, m: State)
    requires run != [] && Exec(rs, s0, run[..|run| - 1]) == Some(m) && Apply(rs, m, run[|run| - 1]).Some?
    requires Agrees(rs, qs, Uses(rs, s0, run))
    ensures Apply(qs, m, SmoothEvent(rs, Some(m), run[|run| - 1])) == Apply(rs, m, run[|run| - 1])
  {
    hide Apply, SmoothEvent;
    var n := |run| - 1;
    var e, us := run[n], Uses(rs, s0, run[..n]);
    var w := e.writer;
    PreparedMovesOn(rs, m, e);
    if rs[w].offset.NoOffset? {
      var p: nat :| qs[w] == rs[w].(offset := Seek(p)) &&
                    (StartOf(Uses(rs, s0, run), w).Some? ==> StartOf(Uses(rs, s0, run), w) == Some(p));
      UsesStep(rs, s0, run, m);
      if TakesUp(rs, m, e) {
        UsesFitAfter(rs, s0, run[..n], m);
        StartOfMore(us, UseOf(rs, m, e), w);
      }
      SameStep(rs, qs, m, e, p);
    } else {
      UnchangedStep(rs, qs, m, e);
    }
  }

  lemma {:induction false} PlacedAgrees(rs: seq<Request>, us: seq<Use>)
    ensures Agrees(rs, Placed(rs, us), us) && GiveOffsets(Placed(rs, us))
  {
    hide StartOf;
    forall w | 0 <= w < |rs| && rs[w].offset.NoOffset?
      ensures exists p: nat :: Placed(rs, us)[w] == rs[w].(offset := Seek(p)) &&
                               (StartOf(us, w).Some? ==> StartOf(us, w) == Some(p))
    {
      var p := match StartOf(us, w) case None => 0 case Some(p) => p;
      assert Placed(rs, us)[w] == rs[w].(offset := Seek(p));
    }
  }

  lemma {:induction false} ExecPrefix(rs: seq<Request>, s0: State, run: seq<Event>, m: nat)
    requires Exec(rs, s0, run).Some? && m <= |run|
    ensures Exec(rs, s0, run[..m]).Some?
    decreases |run|
  {
    hide Apply;
    if m == |run| {
      assert run[..m] == run;
    } else {
      ExecPrefix(rs, s0, run[..|run| - 1], m);
      assert run[..|run| - 1][..m] == run[..m];
    }
  }

  lemma {:induction false} SmoothPrefix(rs: seq<Request>, s0: State, run: seq<Event>, m: nat)
    requires m <= |run|
    ensures Smooth(rs, s0, run)[..m] == Smooth(rs, s0, run[..m])
    decreases |run|
  {
    hide Exec, SmoothEvent;
    if m == |run| {
      assert run[..m] == run;
    } else {
      var n := |run| - 1;
      SmoothPrefix(rs, s0, run[..n], m);
      assert run[..n][..m] == run[..m];
      assert Smooth(rs, s0, run)[..n] == Smooth(rs, s0, run[..n]);
      assert Smooth(rs, s0, run)[..m] == Smooth(rs, s0, run)[..n][..m];
    }
  }

  lemma {:induction false} AgreesOnPrefix(rs: seq<Request>, qs: seq<Request>, s0: State, run: seq<Event>, m: nat)
    requires Agrees(rs, qs, Uses(rs, s0, run)) && Exec(rs, s0, run).Some? && m <= |run|
    ensures Agrees(rs, qs, Uses(rs, s0, run[..m]))
    decreases |run|
  {
    hide Agrees, Apply, TakesUp, UseOf, Uses;
    if m == |run| {
      assert run[..m] == run;
    } else {
      var n := |run| - 1;
      var x := Exec(rs, s0, run[..n]).value;
      UsesStep(rs, s0, run, x);
      if TakesUp(rs, x, run[n]) {
        AgreesBefore(rs, qs, Uses(rs, s0, run[..n]), UseOf(rs, x, run[n]));
      }
      AgreesOnPrefix(rs, qs, s0, run[..n], m);
      assert run[..n][..m] == run[..m];
    }
  }

  // A run in which no two writers share a stream is, state for state, one of requests
  // that all give an offset: the one at which they start.
  lemma {:induction false} RunAsPlaced(rs: seq<Request>, s0: State, run: seq<Event>, s: State)
    requires Initial(rs, s0) && ExclusiveRun(rs, s0, run) && Exec(rs, s0, run) == Some(s)
    ensures var qs := Placed(rs, Uses(rs, s0, run));
            Orderly(qs, s0, Smooth(rs, s0, run)) && Exec(qs, s0, Smooth(rs, s0, run)) == Some(s)
  {
    hide Apply, Agrees, Uses, Placed, Smooth, Exclusive, Exec;
    var us, smooth := Uses(rs, s0, run), Smooth(rs, s0, run);
    var qs := Placed(rs, us);
    PlacedAgrees(rs, us);
    SameRun(rs, qs, s0, run, s);
    forall m | 0 <= m <= |smooth| && Exec(qs, s0, smooth[..m]).Some?
      ensures Exclusive(Exec(qs, s0, smooth[..m]).value)
    {
      ExecPrefix(rs, s0, run, m);
      AgreesOnPrefix(rs, qs, s0, run, m);
      SameRun(rs, qs, s0, run[..m], Exec(rs, s0, run[..m]).value);
      SmoothPrefix(rs, s0, run, m);
    }
  }

  // ---------------------------------------------------------------- the results for all requests

  // At every moment of every run in which no two writers share a stream: the object is
  // what it was, plus a prefix of each request at the place where it started.
  lemma {:induction false} ObjectDuringAnyRun(rs: seq<Request>, s0: State, run: seq<Event>, s: State, qs: seq<Request>)
    requires Initial(rs, s0) && ExclusiveRun(rs, s0, run) && Exec(rs, s0, run) == Some(s)
    requires qs == Placed(rs, Uses(rs, s0, run)) && |s.writers| == |rs| && Separate(qs, Tried(qs, s.writers))
    ensures Laid(s0.content, s.content, qs, Kept(qs, s.writers), Tried(qs, s.writers))
  {
    hide Apply, Uses, Placed, Smooth, Exec, Orderly, Separate, Laid;
    RunAsPlaced(rs, s0, run, s);
    ObjectDuringRun(qs, s0, Smooth(rs, s0, run), s);
  }

  // Confluence: the successful requests leave what they leave one after the other, each
  // at the place where it started.
  lemma {:induction false} ConfluenceAsPlaced(rs: seq<Request>, s0: State, run: seq<Event>, s: State, qs: seq<Request>)
    requires Initial(rs, s0) && ExclusiveRun(rs, s0, run) && Exec(rs, s0, run) == Some(s)
    requires qs == Placed(rs, Uses(rs, s0, run)) && |s.writers| == |rs| && Separate(qs, Tried(qs, s.writers))
    requires forall w :: 0 <= w < |rs| ==> s.writers[w].Done? && s.writers[w].intact
    ensures s.content == OneByOne(s0.content, qs, Succeeded(s.writers), |rs|)
  {
    hide Apply, Uses, Placed, Smooth, Exec, Orderly, Separate, OneByOne;
    RunAsPlaced(rs, s0, run, s);
    Confluence(qs, s0, Smooth(rs, s0, run), s);
  }

  // Requests that give an offset are placed there.
  lemma {:induction false} PlacedAsGiven(rs: seq<Request>, us: seq<Use>, w: nat)
    requires w < |rs| && rs[w].offset != NoOffset
    ensures Placed(rs, us)[w] == rs[w]
  {
    hide StartOf;
  }

  // ---------------------------------------------------------------- where streams stand

  // The last use of a stream.
  function LastUse(us: seq<Use>, j: nat): Option<Use> {
    if us == [] then None
    else if us[|us| - 1].stream == j then Some(us[|us| - 1])
    else LastUse(us[..|us| - 1], j)
  }

  lemma {:induction false} LastUseOfMore(us: seq<Use>, u: Use, j: nat)
    ensures LastUse(us + [u], j) == if u.stream == j then Some(u) else LastUse(us, j)
  {
    assert (us + [u])[..|us + [u]| - 1] == us;
  }

  // How many bytes a writer has handed over.
  function HandedOver(r: Request, k: Writer): nat {
    if r.body.Some? && Sent(k) <= |r.body.value| then |CW.Flatten(r.body.value[..Sent(k)])| else 0
  }

  // A stream stands where its last user started, plus what that has handed over, unless
  // a write of it failed; or where it stood at the beginning. A writer that transfers is
  // the last user of its stream.
  ghost predicate StreamFits(rs: seq<Request>, s0: State, s: State, us: seq<Use>, j: nat)
    requires j < |s.streams| && j < |s0.streams|
  {
    match LastUse(us, j)
    case None => s.streams[j].pos == s0.streams[j].pos
    case Some(u) =>
      && u.writer < |rs| && u.writer < |s.writers| && StartOf(us, u.writer) == Some(u.start)
      && (Intact(s.writers[u.writer]) ==> s.streams[j].pos == u.start + HandedOver(rs[u.writer], s.writers[u.writer]))
  }

  ghost predicate UserFits(us: seq<Use>, w: nat, k: Writer) {
    k.Writing? ==> LastUse(us, k.stream).Some? && LastUse(us, k.stream).value.writer == w
  }

  ghost predicate PositionsFit(rs: seq<Request>, s0: State, s: State, us: seq<Use>) {
    && |s.streams| == |s0.streams| && |s.writers| == |rs|
    && (forall j :: 0 <= j < |s.streams| ==> StreamFits(rs, s0, s, us, j))
    && (forall w :: 0 <= w < |s.writers| ==> UserFits(us, w, s.writers[w]))
  }

  // ---------------------------------------------------------------- what a step does to positions

  // Everybody but writer w and every stream's position but that of j are as before.
  ghost predicate OnlyMoves(s: State, s': State, w: nat, j: nat) {
    && |s'.writers| == |s.writers| && |s'.streams| == |s.streams|
    && (forall v :: 0 <= v < |s.writers| && v != w ==> s'.writers[v] == s.writers[v])
    && (forall i :: 0 <= i < |s.streams| && i != j ==> s'.streams[i].pos == s.streams[i].pos)
  }

  lemma {:induction false} TakeStep(rs: seq<Request>, s: State, e: Event, s': State)
    requires TakesUp(rs, s, e) && Apply(rs, s, e) == Some(s')
    ensures var u := UseOf(rs, s, e);
            && OnlyMoves(s, s', e.writer, u.stream) && s'.streams[u.stream].pos == u.start
            && Sent(s'.writers[e.writer]) == 0 && Intact(s'.writers[e.writer])
            && (s'.writers[e.writer].Writing? ==> s'.writers[e.writer].stream == u.stream)
  {
  }

  lemma {:induction false} HandStep(rs: seq<Request>, s: State, e: Event, s': State)
    requires e.writer < |rs| && e.writer < |s.writers| && HandsOver(rs[e.writer], s, e.writer)
    requires Apply(rs, s, e) == Some(s')
    ensures var k, k' := s.writers[e.writer], s'.writers[e.writer];
            && OnlyMoves(s, s', e.writer, k.stream) && Sent(k') == Sent(k) + 1 && Intact(k') == (Intact(k) && e.outcome.Accepted?)
            && (e.outcome.Accepted? ==>
                 s'.streams[k.stream].pos == s.streams[k.stream].pos + |rs[e.writer].body.value[k.sent]|)
            && (k'.Writing? ==> k'.stream == k.stream)
  {
    hide WriteAt;
  }

  lemma {:induction false} StillStep(rs: seq<Request>, s: State, e: Event, s': State)
    requires e.writer < |rs| && e.writer < |s.writers| && !HandsOver(rs[e.writer], s, e.writer) && !TakesUp(rs, s, e)
    requires Apply(rs, s, e) == Some(s')
    ensures OnlyMoves(s, s', e.writer, |s.streams|) && !s'.writers[e.writer].Writing?
    ensures Sent(s'.writers[e.writer]) == Sent(s.writers[e.writer])
    ensures Intact(s'.writers[e.writer]) == Intact(s.writers[e.writer])
  {
    hide WriteAt, CW.Put;
  }

  // ---------------------------------------------------------------- and what it keeps

  lemma {:induction false} TakeKeepsStream(rs: seq<Request>, s0: State, s: State, e: Event, s': State, us: seq<Use>, j: nat)
    requires PositionsFit(rs, s0, s, us) && UsesFit(s, us) && j < |s.streams|
    requires TakesUp(rs, s, e) && Apply(rs, s, e) == Some(s') && |s'.streams| == |s0.streams|
    ensures StreamFits(rs, s0, s', us + [UseOf(rs, s, e)], j)
  {
    hide StartOf, LastUse, Apply, Intact, Sent;
    var u := UseOf(rs, s, e);
    TakeStep(rs, s, e, s');
    LastUseOfMore(us, u, j);
    assert StartOf(us, e.writer) == None;
    if u.stream == j {
      StartOfMore(us, u, e.writer);
      NothingHandedOver(rs[e.writer], s'.writers[e.writer]);
    } else {
      assert StreamFits(rs, s0, s, us, j);
      if LastUse(us, j).Some? {
        StartOfMore(us, u, LastUse(us, j).value.writer);
      }
    }
  }

  lemma {:induction false} NothingHandedOver(r: Request, k: Writer)
    requires Sent(k) == 0
    ensures HandedOver(r, k) == 0
  {
    assert r.body.Some? ==> r.body.value[..0] == [];
  }

  lemma {:induction false} TakeKeepsUsers(rs: seq<Request>, s0: State, s: State, e: Event, s': State, us: seq<Use>, v: nat)
    requires PositionsFit(rs, s0, s, us) && Exclusive(s) && v < |s.writers|
    requires TakesUp(rs, s, e) && Apply(rs, s, e) == Some(s') && |s'.writers| == |s.writers|
    ensures UserFits(us + [UseOf(rs, s, e)], v, s'.writers[v])
  {
    hide LastUse, Apply;
    var u := UseOf(rs, s, e);
    TakeStep(rs, s, e, s');
    if s'.writers[v].Writing? {
      LastUseOfMore(us, u, s'.writers[v].stream);
      assert UserFits(us, v, s.writers[v]);
      assert Live(s.writers[e.writer]);
    }
  }

  lemma {:induction false} MoreHandedOver(r: Request, k: Writer, k': Writer)
    requires r.body.Some? && Sent(k) < |r.body.value| && Sent(k') == Sent(k) + 1
    ensures HandedOver(r, k') == HandedOver(r, k) + |r.body.value[Sent(k)]|
  {
    var ps, n := r.body.value, Sent(k);
    CW.FlattenAppend(ps[..n], [ps[n]]);
    assert ps[..n + 1] == ps[..n] + [ps[n]];
    assert CW.Flatten([ps[n]]) == ps[n] + [];
  }

  // A writer uses one stream only.
  ghost predicate UsesOnce(us: seq<Use>) {
    forall a, b :: 0 <= a < b < |us| ==> us[a].writer != us[b].writer
  }

  lemma {:induction false} NoStartNoUse(us: seq<Use>, w: nat, a: nat)
    requires StartOf(us, w) == None && a < |us|
    ensures us[a].writer != w
  {
    if a < |us| - 1 {
      NoStartNoUse(us[..|us| - 1], w, a);
    }
  }

  lemma {:induction false} LastUseIsUse(us: seq<Use>, j: nat) returns (a: nat)
    requires LastUse(us, j).Some?
    ensures a < |us| && LastUse(us, j) == Some(us[a]) && us[a].stream == j
    ensures forall b :: a < b < |us| ==> us[b].stream != j
  {
    if us[|us| - 1].stream == j {
      a := |us| - 1;
    } else {
      a := LastUseIsUse(us[..|us| - 1], j);
    }
  }

  lemma {:induction false} UsesOnceAfter(rs: seq<Request>, s0: State, run: seq<Event>, s: State)
    requires Exec(rs, s0, run) == Some(s)
    ensures UsesOnce(Uses(rs, s0, run))
    decreases |run|
  {
    hide Apply, StartOf;
    if run != [] {
      var n := |run| - 1;
      var m, e, us := Exec(rs, s0, run[..n]).value, run[n], Uses(rs, s0, run[..n]);
      UsesOnceAfter(rs, s0, run[..n], m);
      UsesFitAfter(rs, s0, run[..n], m);
      UsesStep(rs, s0, run, m);
      if TakesUp(rs, m, e) {
        forall a | 0 <= a < |us| ensures us[a].writer != e.writer {
          NoStartNoUse(us, e.writer, a);
        }
      }
    }
  }

  lemma {:induction false} OneStreamEach(us: seq<Use>, i: nat, j: nat)
    requires UsesOnce(us) && LastUse(us, i).Some? && LastUse(us, j).Some?
    requires LastUse(us, i).value.writer == LastUse(us, j).value.writer
    ensures i == j
  {
    var a := LastUseIsUse(us, i);
    var b := LastUseIsUse(us, j);
  }

  lemma {:induction false} HandKeepsStream(rs: seq<Request>, s0: State, s: State, e: Event, s': State, us: seq<Use>, j: nat)
    requires PositionsFit(rs, s0, s, us) && UsesOnce(us) && j < |s.streams| && |s'.streams| == |s0.streams|
    requires e.writer < |rs| && HandsOver(rs[e.writer], s, e.writer) && Apply(rs, s, e) == Some(s')
    ensures StreamFits(rs, s0, s', us, j)
  {
    hide StartOf, LastUse, UsesOnce, Apply, HandedOver;
    var w := e.writer;
    HandStep(rs, s, e, s');
    assert StreamFits(rs, s0, s, us, j) && UserFits(us, w, s.writers[w]);
    if s.writers[w].stream == j {
      MoreHandedOver(rs[w], s.writers[w], s'.writers[w]);
    } else if LastUse(us, j).Some? && LastUse(us, j).value.writer == w {
      OneStreamEach(us, j, s.writers[w].stream);
    }
  }

  lemma {:induction false} HandKeepsUsers(rs: seq<Request>, s0: State, s: State, e: Event, s': State, us: seq<Use>, v: nat)
    requires PositionsFit(rs, s0, s, us) && v < |s.writers| && |s'.writers| == |s.writers|
    requires e.writer < |rs| && HandsOver(rs[e.writer], s, e.writer) && Apply(rs, s, e) == Some(s')
    ensures UserFits(us, v, s'.writers[v])
  {
    hide StartOf, LastUse, Apply, Sent, Intact;
    HandStep(rs, s, e, s');
    assert UserFits(us, v, s.writers[v]);
  }

  lemma {:induction false} StillKeeps(rs: seq<Request>, s0: State, s: State, e: Event, s': State, us: seq<Use>)
    requires PositionsFit(rs, s0, s, us) && Apply(rs, s, e) == Some(s')
    requires e.writer < |rs| && e.writer < |s.writers| && !HandsOver(rs[e.writer], s, e.writer) && !TakesUp(rs, s, e)
    ensures PositionsFit(rs, s0, s', us)
  {
    hide StartOf, LastUse, Apply, Sent, Intact;
    StillStep(rs, s, e, s');
    forall j | 0 <= j < |s'.streams| ensures StreamFits(rs, s0, s', us, j) {
      assert StreamFits(rs, s0, s, us, j);
    }
    forall v | 0 <= v < |s'.writers| ensures UserFits(us, v, s'.writers[v]) {
      assert UserFits(us, v, s.writers[v]);
    }
  }

  lemma {:induction false} TakeKeeps(rs: seq<Request>, s0: State, s: State, e: Event, s': State, us: seq<Use>)
    requires PositionsFit(rs, s0, s, us) && UsesFit(s, us) && Exclusive(s)
    requires TakesUp(rs, s, e) && Apply(rs, s, e) == Some(s')
    ensures PositionsFit(rs, s0, s', us + [UseOf(rs, s, e)])
  {
    hide Apply, StreamFits, UserFits, Exclusive, UsesFit;
    TakeStep(rs, s, e, s');
    forall j | 0 <= j < |s'.streams| ensures StreamFits(rs, s0, s', us + [UseOf(rs, s, e)], j) {
      TakeKeepsStream(rs, s0, s, e, s', us, j);
    }
    forall v | 0 <= v < |s'.writers| ensures UserFits(us + [UseOf(rs, s, e)], v, s'.writers[v]) {
      TakeKeepsUsers(rs, s0, s, e, s', us, v);
    }
  }

  lemma {:induction false} HandKeeps(rs: seq<Request>, s0: State, s: State, e: Event, s': State, us: seq<Use>)
    requires PositionsFit(rs, s0, s, us) && UsesOnce(us) && e.writer < |rs|
    requires HandsOver(rs[e.writer], s, e.writer) && Apply(rs, s, e) == Some(s')
    ensures PositionsFit(rs, s0, s', us)
  {
    hide Apply, StreamFits, UserFits, UsesOnce;
    HandStep(rs, s, e, s');
    forall j | 0 <= j < |s'.streams| ensures StreamFits(rs, s0, s', us, j) {
      HandKeepsStream(rs, s0, s, e, s', us, j);
    }
    forall v | 0 <= v < |s'.writers| ensures UserFits(us, v, s'.writers[v]) {
      HandKeepsUsers(rs, s0, s, e, s', us, v);
    }
  }

  lemma {:induction false} PositionsAfter(rs: seq<Request>, s0: State, run: seq<Event>, s: State)
    requires Initial(rs, s0) && ExclusiveRun(rs, s0, run) && Exec(rs, s0, run) == Some(s)
    ensures PositionsFit(rs, s0, s, Uses(rs, s0, run))
    decreases |run|
  {
    hide Apply, StreamFits, UserFits, UsesOnce, UsesFit, Exclusive, TakesUp, UseOf, HandsOver;
    if run == [] {
      PositionsInitially(rs, s0);
    } else {
      var n := |run| - 1;
      var m, e, us := Exec(rs, s0, run[..n]).value, run[n], Uses(rs, s0, run[..n]);
      ExclusiveRunPrefix(rs, s0, run, n);
      PositionsAfter(rs, s0, run[..n], m);
      UsesStep(rs, s0, run, m);
      UsesFitAfter(rs, s0, run[..n], m);
      UsesOnceAfter(rs, s0, run[..n], m);
      PreparedMovesOn(rs, m, e);
      if TakesUp(rs, m, e) {
        TakeKeeps(rs, s0, m, e, s, us);
      } else if HandsOver(rs[e.writer], m, e.writer) {
        HandKeeps(rs, s0, m, e, s, us);
      } else {
        StillKeeps(rs, s0, m, e, s, us);
      }
    }
  }

  lemma {:induction false} PositionsInitially(rs: seq<Request>, s0: State)
    requires Initial(rs, s0)
    ensures PositionsFit(rs, s0, s0, [])
  {
  }

  // ---------------------------------------------------------------- requests without an offset

  // The user of a stream that still has one has that one.
  ghost predicate UserHolds(s: State, u: Use) {
    && u.writer < |s.writers| && (var k := s.writers[u.writer];
       (k.Writing? || k.Answered? || k.Done?) && (!k.Done? ==> k.stream == u.stream))
  }

  lemma {:induction false} UserKeepsStream(rs: seq<Request>, s: State, e: Event, s': State, u: Use)
    requires UserHolds(s, u) && Apply(rs, s, e) == Some(s')
    ensures UserHolds(s', u) && (s.writers[u.writer].Done? ==> s'.writers[u.writer] == s.writers[u.writer])
  {
    hide WriteAt, CW.Put;
  }

  lemma {:induction false} TakerHolds(rs: seq<Request>, s: State, e: Event, s': State)
    requires TakesUp(rs, s, e) && Apply(rs, s, e) == Some(s')
    ensures UserHolds(s', UseOf(rs, s, e))
  {
  }

  // Where a use starts: at the offset of its request, or, without one, where the previous
  // user of the stream stopped, who is done by then; or where the stream stood at the
  // beginning. If a write of the previous user failed, that is not known.
  ghost predicate Continues(rs: seq<Request>, s0: State, s: State, us: seq<Use>, a: nat)
    requires a < |us|
  {
    us[a].writer < |rs| &&
    var r := rs[us[a].writer];
    && UserHolds(s, us[a])
    && (r.offset.Seek? ==> us[a].start == r.offset.pos)
    && match LastUse(us[..a], us[a].stream)
       case None => us[a].stream < |s0.streams| && (r.offset.NoOffset? ==> us[a].start == s0.streams[us[a].stream].pos)
       case Some(u) =>
         && u.writer < |rs| && u.writer < |s.writers| && s.writers[u.writer].Done?
         && (r.offset.NoOffset? && s.writers[u.writer].intact ==>
              us[a].start == u.start + HandedOver(rs[u.writer], s.writers[u.writer]))
  }

  lemma {:induction false} StillContinues(rs: seq<Request>, s0: State, s: State, e: Event, s': State, us: seq<Use>, more: seq<Use>, a: nat)
    requires a < |us| && Continues(rs, s0, s, us, a) && Apply(rs, s, e) == Some(s')
    ensures Continues(rs, s0, s', us + more, a)
  {
    hide Apply, LastUse, HandedOver;
    assert (us + more)[..a] == us[..a] && (us + more)[a] == us[a];
    UserKeepsStream(rs, s, e, s', us[a]);
    PreparedMovesOn(rs, s, e);
  }

  // The previous user of a stream that is taken into use is done.
  lemma {:induction false} PreviousUserIsDone(s: State, u: Use, w: nat)
    requires UserHolds(s, u) && Exclusive(s) && w < |s.writers| && s.writers[w].Selected? && s.writers[w].stream == u.stream
    ensures s.writers[u.writer].Done?
  {
  }

  lemma {:induction false} TakerContinues(rs: seq<Request>, s0: State, s: State, e: Event, s': State, us: seq<Use>)
    requires PositionsFit(rs, s0, s, us) && Exclusive(s) && TakesUp(rs, s, e) && Apply(rs, s, e) == Some(s')
    requires forall a :: 0 <= a < |us| ==> Continues(rs, s0, s, us, a)
    ensures Continues(rs, s0, s', us + [UseOf(rs, s, e)], |us|)
  {
    hide Apply, LastUse, HandedOver, Exclusive, UserHolds, StartOf;
    var u := UseOf(rs, s, e);
    var us' := us + [u];
    assert us'[..|us|] == us && us'[|us|] == u;
    TakerHolds(rs, s, e, s');
    PreparedMovesOn(rs, s, e);
    assert StreamFits(rs, s0, s, us, u.stream);
    if LastUse(us, u.stream).Some? {
      var a := LastUseIsUse(us, u.stream);
      assert Continues(rs, s0, s, us, a);
      PreviousUserIsDone(s, us[a], e.writer);
      UserKeepsStream(rs, s, e, s', us[a]);
      assert Intact(s.writers[us[a].writer]) == s.writers[us[a].writer].intact;
    }
  }

  lemma {:induction false} AllContinue(rs: seq<Request>, s0: State, run: seq<Event>, s: State)
    requires Initial(rs, s0) && ExclusiveRun(rs, s0, run) && Exec(rs, s0, run) == Some(s)
    ensures var us := Uses(rs, s0, run); forall a :: 0 <= a < |us| ==> Continues(rs, s0, s, us, a)
    decreases |run|
  {
    hide Apply, Continues, Exclusive, TakesUp, UseOf, PositionsFit, Initial;
    if run != [] {
      var n := |run| - 1;
      var m, e, us := Exec(rs, s0, run[..n]).value, run[n], Uses(rs, s0, run[..n]);
      ExclusiveRunPrefix(rs, s0, run, n);
      AllContinue(rs, s0, run[..n], m);
      PositionsAfter(rs, s0, run[..n], m);
      UsesStep(rs, s0, run, m);
      var more := if TakesUp(rs, m, e) then [UseOf(rs, m, e)] else [];
      forall a | 0 <= a < |us| ensures Continues(rs, s0, s, us + more, a) {
        StillContinues(rs, s0, m, e, s, us, more, a);
      }
      if TakesUp(rs, m, e) {
        TakerContinues(rs, s0, m, e, s, us);
      }
      assert Uses(rs, s0, run) == us + more;
    }
  }

  // ---------------------------------------------------------------- appending

  lemma {:induction false} FirstStart(us: seq<Use>, a: nat)
    requires a < |us| && UsesOnce(us)
    ensures StartOf(us, us[a].writer) == Some(us[a].start)
  {
    var n := |us| - 1;
    if a < n {
      FirstStart(us[..n], a);
    } else {
      NeverUsed(us[..n], us[n].writer);
    }
  }

  lemma {:induction false} NeverUsed(us: seq<Use>, w: nat)
    requires forall a :: 0 <= a < |us| ==> us[a].writer != w
    ensures StartOf(us, w) == None
  {
    if us != [] {
      NeverUsed(us[..|us| - 1], w);
    }
  }

  // Two requests through one stream, the first with an offset and the second, which uses
  // the stream next, without: if no write fails, they append.
  lemma {:induction false} SecondRequestAppends(rs: seq<Request>, s0: State, run: seq<Event>, s: State)
    requires Initial(rs, s0) && ExclusiveRun(rs, s0, run) && Exec(rs, s0, run) == Some(s)
    requires |rs| == |s.writers| == 2 && Transfers(rs[0]) && rs[1].offset.NoOffset? && rs[1].body.Some?
    requires forall w :: 0 <= w < 2 ==> s.writers[w].Done? && s.writers[w].intact && s.writers[w].reply == Success
    requires var us := Uses(rs, s0, run); |us| == 2 && us[0].writer == 0 && us[1].writer == 1 && us[0].stream == us[1].stream
    ensures s.content == WriteAt(s0.content, rs[0].offset.pos, CW.Flatten(rs[0].body.value) + CW.Flatten(rs[1].body.value))
  {
    hide Apply, Initial, ExclusiveRun, Exec, Uses, UserHolds;
    var us := Uses(rs, s0, run);
    var qs := Placed(rs, us);
    AllContinue(rs, s0, run, s);
    assert Continues(rs, s0, s, us, 0) && Continues(rs, s0, s, us, 1);
    UsesOnceAfter(rs, s0, run, s);
    FirstStart(us, 1);
    assert us[..1] == [us[0]] && LastUse([us[0]], us[1].stream) == Some(us[0]);
    RunAsPlaced(rs, s0, run, s);
    StagesAfter(qs, s0, Smooth(rs, s0, run), s);
    assert StageFits(qs[0], s.streams, s.writers[0]) && StageFits(qs[1], s.streams, s.writers[1]);
    AllPieces(qs[0]);
    AllPieces(qs[1]);
    TwoInARow(rs, s0, run, s, qs);
  }

  lemma {:induction false} TwoInARow(rs: seq<Request>, s0: State, run: seq<Event>, s: State, qs: seq<Request>)
    requires Initial(rs, s0) && ExclusiveRun(rs, s0, run) && Exec(rs, s0, run) == Some(s)
    requires |rs| == |s.writers| == 2 && qs == Placed(rs, Uses(rs, s0, run)) && Transfers(qs[0]) && Transfers(qs[1])
    requires forall w :: 0 <= w < 2 ==> s.writers[w].Done? && s.writers[w].intact && s.writers[w].reply == Success
    requires forall w :: 0 <= w < 2 ==> Sent(s.writers[w]) == |qs[w].body.value|
    requires Start(qs[1]) == Start(qs[0]) + |Data(qs[0])|
    ensures s.content == WriteAt(s0.content, Start(qs[0]), Data(qs[0]) + Data(qs[1]))
  {
    hide Apply, Initial, ExclusiveRun, Exec, Uses, Placed, Start, Data, WriteAt;
    AllPieces(qs[0]);
    AllPieces(qs[1]);
    assert forall w :: 0 <= w < 2 ==> Tried(qs, s.writers)[w] == |Data(qs[w])|;
    assert Apart(qs[0], |Data(qs[0])|, qs[1], |Data(qs[1])|) && Apart(qs[1], |Data(qs[1])|, qs[0], |Data(qs[0])|);
    ConfluenceAsPlaced(rs, s0, run, s, qs);
    OneByOneOfTwo(s0.content, qs, Succeeded(s.writers));
    WriteAtAppend(s0.content, Start(qs[0]), Data(qs[0]), Data(qs[1]));
  }

  lemma {:induction false} OneByOneOfTwo(before: seq<byte>, qs: seq<Request>, ok: seq<bool>)
    requires |qs| == |ok| == 2 && ok[0] && ok[1]
    ensures OneByOne(before, qs, ok, 2) ==
            WriteAt(WriteAt(before, Start(qs[0]), Data(qs[0])), Start(qs[1]), Data(qs[1]))
  {
    hide WriteAt, Start, Data;
    assert OneByOne(before, qs, ok, 0) == before;
    assert OneByOne(before, qs, ok, 1) == WriteAt(before, Start(qs[0]), Data(qs[0]));
  }
}
