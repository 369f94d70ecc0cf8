// The reply to a transfer is the one that the write calls made for it deserve, and a
// stream that has gone bad stays bad and is reported.

module HandleWritesVerdicts {
  import opened Basics
  import opened DataObject
  import opened HandleWrites
  import opened HandleWritesClaims
  import opened HandleWritesExclusion
  import opened HandleWritesSharing
  import opened HandleWritesConfluence
  import opened HandleWritesOutcome
  import opened HandleWritesPositions
  import CW = ChunkedWrite

  // ---------------------------------------------------------------- the calls made for a writer

  // How the write calls of one writer ended, in order.
  function Calls(rs: seq<Request>, s0: State, run: seq<Event>, w: nat): seq<CW.Outcome>
    requires w < |rs|
  {
    if run == [] then []
    else
      var n := |run| - 1;
      match Exec(rs, s0, run[..n])
      case None => []
      case Some(m) =>
        Calls(rs, s0, run[..n], w) +
        if run[n].writer == w && w < |m.writers| && HandsOver(rs[w], m, w) then [run[n].outcome] else []
  }

  // All calls but perhaps the last one succeeded.
  ghost predicate FineSoFar(os: seq<CW.Outcome>) {
    forall i :: 0 <= i < |os| - 1 ==> os[i].Accepted?
  }

  predicate LastFailed(os: seq<CW.Outcome>) {
    os != [] && !os[|os| - 1].Accepted?
  }

  predicate LastThrew(os: seq<CW.Outcome>) {
    os != [] && os[|os| - 1].Threw?
  }

  // What the calls made so far say about a writer. After a call that threw there is
  // nothing but the reply; after one that failed otherwise, the next piece is refused.
  ghost predicate CallsFit(r: Request, k: Writer, os: seq<CW.Outcome>) {
    && Sent(k) == |os| && FineSoFar(os) && (Intact(k) <==> !LastFailed(os))
    && (k.Writing? ==> !LastThrew(os))
    && (k.Answered? || k.Done? ==>
         && (k.reply == Success ==> r.body.Some? && |os| == |r.body.value| && !LastThrew(os))
         && (k.reply == TransferFailed ==>
              r.body.Some? && LastFailed(os) && |os| <= |r.body.value| && (LastThrew(os) || |os| < |r.body.value|)))
  }

  lemma {:induction false} CallStep(rs: seq<Request>, s: State, e: Event, s': State, os: seq<CW.Outcome>)
    requires Apply(rs, s, e) == Some(s') && e.writer < |rs| && e.writer < |s.writers| && HandsOver(rs[e.writer], s, e.writer)
    requires StageFits(rs[e.writer], s.streams, s.writers[e.writer]) && CallsFit(rs[e.writer], s.writers[e.writer], os)
    ensures CallsFit(rs[e.writer], s'.writers[e.writer], os + [e.outcome])
  {
    hide WriteAt, CW.Landed, Start, Bytes;
  }

  lemma {:induction false} NoCallStep(rs: seq<Request>, s: State, e: Event, s': State, os: seq<CW.Outcome>)
    requires Apply(rs, s, e) == Some(s') && e.writer < |rs| && e.writer < |s.writers| && !HandsOver(rs[e.writer], s, e.writer)
    requires StageFits(rs[e.writer], s.streams, s.writers[e.writer]) && CallsFit(rs[e.writer], s.writers[e.writer], os)
    ensures CallsFit(rs[e.writer], s'.writers[e.writer], os)
  {
    hide WriteAt, CW.Put, Start, Bytes;
  }

  lemma {:induction false} CallsOfRun(rs: seq<Request>, s0: State, run: seq<Event>, w: nat, m: State)
    requires w < |rs| && run != [] && Exec(rs, s0, run[..|run| - 1]) == Some(m) && w < |m.writers|
    ensures var os, e := Calls(rs, s0, run[..|run| - 1], w), run[|run| - 1];
            Calls(rs, s0, run, w) == if e.writer == w && HandsOver(rs[w], m, w) then os + [e.outcome] else os
  {
    var os := Calls(rs, s0, run[..|run| - 1], w);
    assert os + [] == os;
  }

  lemma {:induction false} CallsAfter(rs: seq<Request>, s0: State, run: seq<Event>, s: State, w: nat)
    requires Orderly(rs, s0, run) && Exec(rs, s0, run) == Some(s) && w < |rs|
    ensures w < |s.writers| && CallsFit(rs[w], s.writers[w], Calls(rs, s0, run, w))
    decreases |run|
  {
    hide Apply, CallsFit, StageFits, HandsOver, Initial, Exclusive;
    if run == [] {
      NoCallsYet(rs, s0, w);
    } else {
      var n := |run| - 1;
      var m, e := Exec(rs, s0, run[..n]).value, run[n];
      ExclusiveRunPrefix(rs, s0, run, n);
      CallsAfter(rs, s0, run[..n], m, w);
      StagesAfter(rs, s0, run[..n], m);
      CallsOfRun(rs, s0, run, w, m);
      var os := Calls(rs, s0, run[..n], w);
      PreparedMovesOn(rs, m, e);
      if e.writer == w {
        if HandsOver(rs[w], m, w) {
          CallStep(rs, m, e, s, os);
        } else {
          NoCallStep(rs, m, e, s, os);
        }
      }
    }
  }

  lemma {:induction false} NoCallsYet(rs: seq<Request>, s0: State, w: nat)
    requires Initial(rs, s0) && w < |rs|
    ensures w < |s0.writers| && CallsFit(rs[w], s0.writers[w], [])
  {
  }

  // A run over the pieces of the request with the same calls. If too few calls were made,
  // the others do not matter.
  lemma {:induction false} RunWithCalls(t: CW.Transfer, pieces: seq<seq<byte>>, os: seq<CW.Outcome>, success: bool)
    requires t.good && FineSoFar(os) && |os| <= |pieces|
    requires success ==> |os| == |pieces| && !LastThrew(os)
    requires !success ==> LastFailed(os) && (LastThrew(os) || |os| < |pieces|)
    ensures CW.Run(t, pieces, os).1 == CW.Success <==> success
  {
    hide CW.Run;
    if LastFailed(os) {
      CW.RunWithFailure(t, pieces, os, |os| - 1);
    } else {
      assert CW.Fine(os, |pieces|);
      CW.RunWithoutFailure(t, pieces, os);
    }
  }

  // The reply to a transfer is the reply of the run over its pieces: success or not,
  // exactly as the writer of a single request would give it for the same calls, however
  // the tasks of other writers come in between.
  lemma {:induction false} ReplyIsThatOfRun(rs: seq<Request>, s0: State, run: seq<Event>, s: State, w: nat, t: CW.Transfer)
    requires Orderly(rs, s0, run) && Exec(rs, s0, run) == Some(s) && t.good
    requires w < |rs| && w < |s.writers| && s.writers[w].Done?
    requires s.writers[w].reply == Success || s.writers[w].reply == TransferFailed
    ensures rs[w].body.Some?
    ensures s.writers[w].reply == Success <==>
            CW.Run(t, rs[w].body.value, Calls(rs, s0, run, w)).1 == CW.Success
  {
    hide Orderly, Exec, Calls, CW.Run;
    CallsAfter(rs, s0, run, s, w);
    RunWithCalls(t, rs[w].body.value, Calls(rs, s0, run, w), s.writers[w].reply == Success);
  }

  // ---------------------------------------------------------------- bad streams

  lemma {:induction false} BadStaysBadStep(rs: seq<Request>, s: State, e: Event, s': State, j: nat)
    requires Apply(rs, s, e) == Some(s') && j < |s.streams| && !s.streams[j].good
    ensures j < |s'.streams| && !s'.streams[j].good
  {
    hide WriteAt;
  }

  // Nothing makes a bad stream good again.
  lemma {:induction false} BadStaysBad(rs: seq<Request>, s: State, run: seq<Event>, s': State, j: nat)
    requires Exec(rs, s, run) == Some(s') && j < |s.streams| && !s.streams[j].good
    ensures j < |s'.streams| && !s'.streams[j].good
    decreases |run|
  {
    hide Apply;
    if run != [] {
      var n := |run| - 1;
      var m := Exec(rs, s, run[..n]).value;
      BadStaysBad(rs, s, run[..n], m, j);
      BadStaysBadStep(rs, m, run[n], s', j);
    }
  }

  // A writer is past its checks with the bad-stream reply, on a stream that is bad.
  ghost predicate Reported(s: State, w: nat, j: nat) {
    && w < |s.writers| && j < |s.streams| && !s.streams[j].good
    && (s.writers[w].Answered? || s.writers[w].Done?) && s.writers[w].reply == StreamInBadState && s.writers[w].sent == 0
  }

  lemma {:induction false} BadStreamStep(rs: seq<Request>, s: State, e: Event, s': State, w: nat, j: nat)
    requires Apply(rs, s, e) == Some(s') && w < |s.writers| && j < |s.streams| && !s.streams[j].good
    requires (s.writers[w].Selected? && s.writers[w].stream == j) || Reported(s, w, j)
    ensures w < |s'.writers|
    ensures (s'.writers[w].Selected? && s'.writers[w].stream == j) || Reported(s', w, j)
  {
    BadStaysBadStep(rs, s, e, s', j);
    hide WriteAt, CW.Put;
  }

  // A writer that has a bad stream is told so in the end, and has handed nothing over,
  // whatever else is wrong with its request.
  lemma {:induction false} BadStreamIsReported(rs: seq<Request>, s: State, run: seq<Event>, s': State, w: nat, j: nat)
    requires Exec(rs, s, run) == Some(s') && w < |s.writers| && j < |s.streams| && !s.streams[j].good
    requires s.writers[w].Selected? && s.writers[w].stream == j
    ensures w < |s'.writers| && ((s'.writers[w].Selected? && s'.writers[w].stream == j) || Reported(s', w, j))
    ensures j < |s'.streams| && !s'.streams[j].good
    ensures s'.writers[w].Done? ==> s'.writers[w].reply == StreamInBadState && s'.writers[w].sent == 0
    decreases |run|
  {
    hide Apply;
    BadStaysBad(rs, s, run, s', j);
    if run != [] {
      var n := |run| - 1;
      var m := Exec(rs, s, run[..n]).value;
      BadStreamIsReported(rs, s, run[..n], m, w, j);
      BadStaysBad(rs, s, run[..n], m, j);
      BadStreamStep(rs, m, run[n], s', w, j);
    }
  }

  // A seek that fails, or to a negative position, makes the stream bad and is reported.
  lemma {:induction false} FailedSeekIsReported(rs: seq<Request>, s: State, e: Event, s': State, w: nat)
    requires Apply(rs, s, e) == Some(s') && e.writer == w && w < |s.writers| && s.writers[w].Selected?
    requires w < |rs| && rs[w].offset.Seek? && (rs[w].offset.pos < 0 || !e.outcome.Accepted?)
    ensures s.writers[w].stream < |s.streams| && Reported(s', w, s.writers[w].stream)
  {
    hide WriteAt, CW.Put;
  }

  // The other checks leave the stream good: a malformed offset, and missing bytes.
  lemma {:induction false} MalformedRequestLeavesStream(rs: seq<Request>, s: State, e: Event, s': State, w: nat)
    requires Apply(rs, s, e) == Some(s') && e.writer == w && w < |s.writers| && s.writers[w].Selected?
    requires w < |rs| && s.writers[w].stream < |s.streams| && s.streams[s.writers[w].stream].good
    requires rs[w].offset.Malformed? || (rs[w].body.None? && !rs[w].offset.Seek?)
    ensures s'.writers[w].Answered? && s'.writers[w].reply == BadRequest && s'.streams == s.streams
  {
    var j := s.writers[w].stream;
    assert s.streams[j := s.streams[j]] == s.streams;
  }
}
