// Runs on one handle cannot get stuck and cannot go on for ever.

module HandleWritesProgress {
  import opened Basics
  import opened DataObject
  import opened HandleWrites
  import opened HandleWritesClaims
  import opened HandleWritesExclusion
  import CW = ChunkedWrite

  function Pieces(r: Request): int {
    if r.body.Some? then |r.body.value| else 0
  }

  // How many steps one writer can still make, on a handle with n streams.
  function StepsLeft(r: Request, n: nat, k: Writer): int {
    match k
    case Arrived => n + Pieces(r) + 6
    case Scanning(i, _) => n - i + Pieces(r) + 5
    case Found(_, _) => Pieces(r) + 4
    case Selected(_, _) => Pieces(r) + 3
    case Writing(_, _, sent, _) => Pieces(r) - sent + 2
    case Answered(_, _, _, _, _) => 1
    case Done(_, _, _) => 0
  }

  function AllSteps(rs: seq<Request>, n: nat, ks: seq<Writer>): int
    requires |ks| == |rs|
  {
    if ks == [] then 0
    else AllSteps(rs[..|rs| - 1], n, ks[..|ks| - 1]) + StepsLeft(rs[|rs| - 1], n, ks[|ks| - 1])
  }

  lemma {:induction false} AllStepsUpdate(rs: seq<Request>, n: nat, ks: seq<Writer>, w: nat, k: Writer)
    requires |ks| == |rs| && w < |rs|
    ensures AllSteps(rs, n, ks[w := k]) == AllSteps(rs, n, ks) - StepsLeft(rs[w], n, ks[w]) + StepsLeft(rs[w], n, k)
  {
    var m := |rs| - 1;
    if w == m {
      assert ks[w := k][..m] == ks[..m];
    } else {
      AllStepsUpdate(rs[..m], n, ks[..m], w, k);
      assert ks[w := k][..m] == ks[..m][w := k];
    }
  }

  ghost predicate Counted(rs: seq<Request>, s: State) {
    |s.writers| == |rs| && forall w :: 0 <= w < |rs| ==> StepsLeft(rs[w], |s.streams|, s.writers[w]) >= 0
  }

  lemma {:induction false} StepCounts(rs: seq<Request>, s: State, e: Event)
    requires Inv(rs, s) && Counted(rs, s) && Apply(rs, s, e).Some?
    ensures var s' := Apply(rs, s, e).value;
            && |s'.streams| == |s.streams| && Counted(rs, s')
            && AllSteps(rs, |s'.streams|, s'.writers) <= AllSteps(rs, |s.streams|, s.writers) - 1
  {
    var s', w := Apply(rs, s, e).value, e.writer;
    FlagsAfter(rs, s, e);
    assert WriterFits(rs[w], s, s.writers[w]);
    assert s'.writers == s.writers[w := s'.writers[w]];
    OneStepCounts(rs, s, e);
    AllStepsUpdate(rs, |s.streams|, s.writers, w, s'.writers[w]);
  }

  lemma {:induction false} OneStepCounts(rs: seq<Request>, s: State, e: Event)
    requires Inv(rs, s) && Counted(rs, s) && Apply(rs, s, e).Some?
    ensures var n, r, k' := |s.streams|, rs[e.writer], Apply(rs, s, e).value.writers[e.writer];
            0 <= StepsLeft(r, n, k') <= StepsLeft(r, n, s.writers[e.writer]) - 1
  {
    hide MutexFits, OwnersDiffer, InUseIsOwned, ScansFit, WriteAt, CW.Put;
    assert WriterFits(rs[e.writer], s, s.writers[e.writer]);
    assert StepsLeft(rs[e.writer], |s.streams|, s.writers[e.writer]) >= 0;
  }

  lemma {:induction false} AllStepsNonnegative(rs: seq<Request>, n: nat, ks: seq<Writer>)
    requires |ks| == |rs| && forall w :: 0 <= w < |rs| ==> StepsLeft(rs[w], n, ks[w]) >= 0
    ensures AllSteps(rs, n, ks) >= 0
  {
    if ks != [] {
      AllStepsNonnegative(rs[..|rs| - 1], n, ks[..|ks| - 1]);
    }
  }

  lemma {:induction false} RunCounts(rs: seq<Request>, s0: State, run: seq<Event>)
    requires Initial(rs, s0) && Exec(rs, s0, run).Some?
    ensures var s, n := Exec(rs, s0, run).value, |s0.streams|;
            && Inv(rs, s) && |s.streams| == n && Counted(rs, s)
            && |run| + AllSteps(rs, n, s.writers) <= AllSteps(rs, n, s0.writers)
  {
    InvInitial(rs, s0);
    InvAfter(rs, s0, run);
    if run != [] {
      RunCounts(rs, s0, run[..|run| - 1]);
      StepCounts(rs, Exec(rs, s0, run[..|run| - 1]).value, run[|run| - 1]);
    }
  }

  lemma {:induction false} InitialSteps(rs: seq<Request>, n: nat, ks: seq<Writer>)
    requires |ks| == |rs| && forall w :: 0 <= w < |rs| ==> ks[w] == Arrived
    ensures AllSteps(rs, n, ks) == |rs| * (n + 6) + Sum(Pieces, rs)
  {
    if ks != [] {
      InitialSteps(rs[..|rs| - 1], n, ks[..|ks| - 1]);
      assert |rs| * (n + 6) == (|rs| - 1) * (n + 6) + (n + 6);
    }
  }

  // Every run is at most this long, whatever fails and however it is scheduled.
  lemma {:induction false} RunsAreBounded(rs: seq<Request>, s0: State, run: seq<Event>)
    requires Initial(rs, s0) && Exec(rs, s0, run).Some?
    ensures |run| <= |rs| * (|s0.streams| + 6) + Sum(Pieces, rs)
  {
    RunCounts(rs, s0, run);
    InitialSteps(rs, |s0.streams|, s0.writers);
    AllStepsNonnegative(rs, |s0.streams|, Exec(rs, s0, run).value.writers);
  }

  // And while some writer is not done, some writer can go on.
  lemma {:induction false} NoDeadlock(rs: seq<Request>, s0: State, s: State)
    requires Initial(rs, s0) && Leads(rs, s0, s)
    requires exists w :: 0 <= w < |s.writers| && !s.writers[w].Done?
    ensures exists w: nat :: Apply(rs, s, Event(w, CW.Accepted)).Some?
  {
    ReachableInv(rs, s0, s);
    var w: nat := if s.mutex.Some? then s.mutex.value else
      var v :| 0 <= v < |s.writers| && !s.writers[v].Done?; v;
    assert WriterFits(rs[w], s, s.writers[w]);
    assert Apply(rs, s, Event(w, CW.Accepted)).Some?;
  }
}
