// What the object holds at each moment of a run, what a success reply guarantees when
// streams fail, and the result when none does.

module HandleWritesOutcome {
  import opened Basics
  import opened DataObject
  import opened HandleWrites
  import opened HandleWritesClaims
  import opened HandleWritesExclusion
  import opened HandleWritesSharing
  import opened HandleWritesReplies
  import opened HandleWritesConfluence
  import CW = ChunkedWrite

  // ---------------------------------------------------------------- progress of a writer

  function Sent(k: Writer): nat {
    if k.Writing? || k.Answered? || k.Done? then k.sent else 0
  }

  function Intact(k: Writer): bool {
    k.Writing? || k.Answered? || k.Done? ==> k.intact
  }

  // Pieces the server is known to have taken: all that were sent, or all but the last.
  function Taken(k: Writer): nat {
    if Intact(k) || Sent(k) == 0 then Sent(k) else Sent(k) - 1
  }

  function BytesOf(r: Request, n: nat): nat {
    if Transfers(r) && n <= |r.body.value| then Bytes(r, n) else 0
  }

  function Tried(rs: seq<Request>, ks: seq<Writer>): (t: seq<nat>)
    requires |ks| == |rs|
    ensures |t| == |rs| && forall w :: 0 <= w < |rs| ==> t[w] == BytesOf(rs[w], Sent(ks[w]))
  {
    seq(|rs|, w requires 0 <= w < |rs| => BytesOf(rs[w], Sent(ks[w])))
  }

  function Kept(rs: seq<Request>, ks: seq<Writer>): (t: seq<nat>)
    requires |ks| == |rs|
    ensures |t| == |rs| && forall w :: 0 <= w < |rs| ==> t[w] == BytesOf(rs[w], Taken(ks[w]))
  {
    seq(|rs|, w requires 0 <= w < |rs| => BytesOf(rs[w], Taken(ks[w])))
  }

  // A transferring writer's stream stands where its next piece belongs, unless a write
  // of this writer has failed.
  ghost predicate StageFits(r: Request, streams: seq<Stream>, k: Writer) {
    && (Sent(k) > 0 ==> Transfers(r) && Sent(k) <= |r.body.value|)
    && (!Intact(k) ==> Sent(k) > 0)
    && (k.Writing? ==>
         && Transfers(r) && k.stream < |streams|
         && (streams[k.stream].good <==> k.intact)
         && (k.intact ==> streams[k.stream].pos == Start(r) + Bytes(r, k.sent)))
    && (k.Answered? || k.Done? ==>
         && (k.reply == Success ==> Transfers(r) && k.sent == |r.body.value|)
         && (k.reply == TransferFailed ==> !k.intact)
         && (k.reply != Success && k.reply != TransferFailed ==> k.sent == 0))
  }

  ghost predicate StagesFit(rs: seq<Request>, s: State) {
    |s.writers| == |rs| && forall w :: 0 <= w < |rs| ==> StageFits(rs[w], s.streams, s.writers[w])
  }

  ghost predicate DataInv(rs: seq<Request>, before: seq<byte>, s: State) {
    StagesFit(rs, s) && Laid(before, s.content, rs, Kept(rs, s.writers), Tried(rs, s.writers))
  }

  // ---------------------------------------------------------------- one step

  predicate HandsOver(r: Request, s: State, w: nat)
    requires w < |s.writers|
  {
    var k := s.writers[w];
    k.Writing? && r.body.Some? && k.sent < |r.body.value| && k.stream < |s.streams| && s.streams[k.stream].good
  }

  lemma {:induction false} PreparedStageFits(r: Request, s: State, w: nat, o: CW.Outcome)
    requires w < |s.writers| && s.writers[w].Selected? && r.offset != NoOffset && Prepare(r, s, w, o).Some?
    ensures StageFits(r, Prepare(r, s, w, o).value.streams, Prepare(r, s, w, o).value.writers[w])
  {
  }

  lemma {:induction false} TransferStageFits(r: Request, s: State, w: nat, o: CW.Outcome)
    requires w < |s.writers| && s.writers[w].Writing? && StageFits(r, s.streams, s.writers[w])
    requires TransferStep(r, s, w, o).Some?
    ensures StageFits(r, TransferStep(r, s, w, o).value.streams, TransferStep(r, s, w, o).value.writers[w])
  {
    if HandsOver(r, s, w) {
      NextPiece(r, s.writers[w].sent);
    }
  }

  lemma {:induction false} OwnStageFits(rs: seq<Request>, s: State, e: Event)
    requires StagesFit(rs, s) && Apply(rs, s, e).Some? && rs[e.writer].offset != NoOffset
    ensures StageFits(rs[e.writer], Apply(rs, s, e).value.streams, Apply(rs, s, e).value.writers[e.writer])
  {
    assert StageFits(rs[e.writer], s.streams, s.writers[e.writer]);
    if s.writers[e.writer].Selected? {
      PreparedStageFits(rs[e.writer], s, e.writer, e.outcome);
    } else if s.writers[e.writer].Writing? {
      TransferStageFits(rs[e.writer], s, e.writer, e.outcome);
    }
  }

  // Another writer's stream is not touched.
  lemma {:induction false} OtherStageFits(rs: seq<Request>, s: State, e: Event, v: nat)
    requires Inv(rs, s) && Exclusive(s) && StagesFit(rs, s) && Apply(rs, s, e).Some? && v < |rs| && v != e.writer
    ensures Apply(rs, s, e).value.writers[v] == s.writers[v]
    ensures StageFits(rs[v], Apply(rs, s, e).value.streams, s.writers[v])
  {
    var s', k, l := Apply(rs, s, e).value, s.writers[e.writer], s.writers[v];
    OtherWriterFits(rs, s, e, v);
    FlagsAfter(rs, s, e);
    assert StageFits(rs[v], s.streams, l) && WriterFits(rs[v], s, l) && WriterFits(rs[e.writer], s, k);
    if l.Writing? {
      assert Live(k) ==> k.stream != l.stream;
      assert s'.streams[l.stream].pos == s.streams[l.stream].pos && s'.streams[l.stream].good == s.streams[l.stream].good;
    }
  }

  lemma {:induction false} StagesPreserved(rs: seq<Request>, s: State, e: Event)
    requires Inv(rs, s) && Exclusive(s) && GiveOffsets(rs) && StagesFit(rs, s) && Apply(rs, s, e).Some?
    ensures StagesFit(rs, Apply(rs, s, e).value)
  {
    OwnStageFits(rs, s, e);
    forall v | 0 <= v < |rs| && v != e.writer
      ensures StageFits(rs[v], Apply(rs, s, e).value.streams, Apply(rs, s, e).value.writers[v])
    {
      OtherStageFits(rs, s, e, v);
    }
  }

  // A step that hands nothing over.
  ghost predicate Unmoved(rs: seq<Request>, s: State, s': State, w: nat) {
    && |s.writers| == |s'.writers| == |rs| && w < |rs|
    && s'.content == s.content
    && s'.writers == s.writers[w := s'.writers[w]]
    && Sent(s'.writers[w]) == Sent(s.writers[w]) && Intact(s'.writers[w]) == Intact(s.writers[w])
  }

  // A step that hands piece n of request w over, with outcome o.
  ghost predicate Moved(rs: seq<Request>, s: State, s': State, w: nat, n: nat, o: CW.Outcome) {
    && |s.writers| == |s'.writers| == |rs| && w < |rs|
    && Transfers(rs[w]) && n < |rs[w].body.value|
    && s'.content == WriteAt(s.content, Start(rs[w]) + Bytes(rs[w], n), CW.Landed(rs[w].body.value[n], o))
    && s'.writers == s.writers[w := s'.writers[w]]
    && Sent(s.writers[w]) == Taken(s.writers[w]) == n
    && Sent(s'.writers[w]) == n + 1 && Taken(s'.writers[w]) == (if o.Accepted? then n + 1 else n)
  }

  lemma {:induction false} TransferMoves(rs: seq<Request>, s: State, w: nat, o: CW.Outcome)
    requires |s.writers| == |rs| && w < |rs| && s.writers[w].Writing? && StageFits(rs[w], s.streams, s.writers[w])
    requires TransferStep(rs[w], s, w, o).Some?
    ensures if HandsOver(rs[w], s, w)
            then Moved(rs, s, TransferStep(rs[w], s, w, o).value, w, s.writers[w].sent, o)
            else Unmoved(rs, s, TransferStep(rs[w], s, w, o).value, w)
  {
  }

  lemma {:induction false} StepMoves(rs: seq<Request>, s: State, e: Event)
    requires StagesFit(rs, s) && Apply(rs, s, e).Some?
    ensures if HandsOver(rs[e.writer], s, e.writer)
            then Moved(rs, s, Apply(rs, s, e).value, e.writer, s.writers[e.writer].sent, e.outcome)
            else Unmoved(rs, s, Apply(rs, s, e).value, e.writer)
  {
    assert StageFits(rs[e.writer], s.streams, s.writers[e.writer]);
    if s.writers[e.writer].Writing? {
      TransferMoves(rs, s, e.writer, e.outcome);
    }
  }

  // The bytes of a piece that land are the next ones of the request's data.
  lemma {:induction false} LandedIsNext(r: Request, k: nat, o: CW.Outcome)
    requires Transfers(r) && k < |r.body.value|
    ensures Next(r, Bytes(r, k), CW.Landed(r.body.value[k], o))
    ensures |CW.Landed(r.body.value[k], o)| <= |r.body.value[k]| && Bytes(r, k) + |r.body.value[k]| <= |Data(r)|
  {
    NextPiece(r, k);
    var h, bytes := Bytes(r, k), CW.Landed(r.body.value[k], o);
    assert bytes == r.body.value[k][..|bytes|];
    assert Data(r)[h..h + |r.body.value[k]|][..|bytes|] == Data(r)[h..h + |bytes|];
  }

  // One writer hands over piece n, with whatever outcome: the object stays laid out.
  lemma {:induction false} LaidNextPiece(rs: seq<Request>, before: seq<byte>, c: seq<byte>, kept: seq<nat>, tried: seq<nat>,
                                         w: nat, n: nat, o: CW.Outcome)
    requires Laid(before, c, rs, kept, tried)
    requires w < |rs| && Transfers(rs[w]) && n < |rs[w].body.value| && kept[w] == tried[w] == Bytes(rs[w], n)
    requires Separate(rs, tried[w := Bytes(rs[w], n) + |rs[w].body.value[n]|])
    ensures var all := |rs[w].body.value[n]|;
            Laid(before, WriteAt(c, Start(rs[w]) + Bytes(rs[w], n), CW.Landed(rs[w].body.value[n], o)), rs,
                 kept[w := Bytes(rs[w], n) + if o.Accepted? then all else 0], tried[w := Bytes(rs[w], n) + all])
  {
    hide Laid, Separate, WriteAt, Start, Data, Bytes, Next;
    LandedIsNext(rs[w], n, o);
    var all := |rs[w].body.value[n]|;
    LaidWrite(before, c, rs, kept, tried, w, Bytes(rs[w], n), CW.Landed(rs[w].body.value[n], o),
              if o.Accepted? then all else 0, all);
  }

  lemma {:induction false} CountsAfterPiece(rs: seq<Request>, s: State, s': State, w: nat, n: nat, o: CW.Outcome)
    requires Moved(rs, s, s', w, n, o)
    ensures var all := |rs[w].body.value[n]|;
            && Kept(rs, s.writers)[w] == Tried(rs, s.writers)[w] == Bytes(rs[w], n)
            && Kept(rs, s'.writers) == Kept(rs, s.writers)[w := Bytes(rs[w], n) + if o.Accepted? then all else 0]
            && Tried(rs, s'.writers) == Tried(rs, s.writers)[w := Bytes(rs[w], n) + all]
  {
    NextPiece(rs[w], n);
  }

  lemma {:induction false} LaidAfterPiece(rs: seq<Request>, before: seq<byte>, s: State, s': State, w: nat, n: nat, o: CW.Outcome)
    requires Moved(rs, s, s', w, n, o) && Separate(rs, Tried(rs, s'.writers))
    requires Laid(before, s.content, rs, Kept(rs, s.writers), Tried(rs, s.writers))
    ensures Laid(before, s'.content, rs, Kept(rs, s'.writers), Tried(rs, s'.writers))
  {
    CountsAfterPiece(rs, s, s', w, n, o);
    LaidNextPiece(rs, before, s.content, Kept(rs, s.writers), Tried(rs, s.writers), w, n, o);
  }

  lemma {:induction false} LaidUnmoved(rs: seq<Request>, before: seq<byte>, s: State, s': State, w: nat)
    requires Unmoved(rs, s, s', w)
    requires Laid(before, s.content, rs, Kept(rs, s.writers), Tried(rs, s.writers))
    ensures Laid(before, s'.content, rs, Kept(rs, s'.writers), Tried(rs, s'.writers))
  {
    assert Kept(rs, s'.writers) == Kept(rs, s.writers) && Tried(rs, s'.writers) == Tried(rs, s.writers);
  }

  lemma {:induction false} LaidPreserved(rs: seq<Request>, before: seq<byte>, s: State, e: Event, s': State)
    requires StagesFit(rs, s) && Apply(rs, s, e) == Some(s')
    requires |s'.writers| == |rs| && Separate(rs, Tried(rs, s'.writers))
    requires Laid(before, s.content, rs, Kept(rs, s.writers), Tried(rs, s.writers))
    ensures Laid(before, s'.content, rs, Kept(rs, s'.writers), Tried(rs, s'.writers))
  {
    hide Laid, Separate, Moved, Unmoved, StagesFit, HandsOver;
    var w := e.writer;
    StepMoves(rs, s, e);
    if HandsOver(rs[w], s, w) {
      LaidAfterPiece(rs, before, s, s', w, s.writers[w].sent, e.outcome);
    } else {
      LaidUnmoved(rs, before, s, s', w);
    }
  }

  // ---------------------------------------------------------------- whole runs

  lemma {:induction false} DataInitially(rs: seq<Request>, s0: State)
    requires Initial(rs, s0)
    ensures DataInv(rs, s0.content, s0)
  {
    assert AllKept(s0.content, rs, Kept(rs, s0.writers));
  }

  // The number of bytes a writer has handed over never falls.
  lemma {:induction false} TriedGrows(rs: seq<Request>, s: State, e: Event, s': State)
    requires StagesFit(rs, s) && Apply(rs, s, e) == Some(s')
    ensures |s'.writers| == |rs|
    ensures forall w :: 0 <= w < |rs| ==> Tried(rs, s.writers)[w] <= Tried(rs, s'.writers)[w]
  {
    hide StagesFit, Bytes, WriteAt, Transfers, HandsOver;
    StepMoves(rs, s, e);
    if HandsOver(rs[e.writer], s, e.writer) {
      CountsAfterPiece(rs, s, s', e.writer, s.writers[e.writer].sent, e.outcome);
    }
  }

  // The runs the results are about: every request gives an offset, and at no moment do
  // two writers have the same stream.
  ghost predicate Orderly(rs: seq<Request>, s0: State, run: seq<Event>) {
    Initial(rs, s0) && GiveOffsets(rs) && ExclusiveRun(rs, s0, run)
  }

  lemma {:induction false} StagesAfter(rs: seq<Request>, s0: State, run: seq<Event>, s: State)
    requires Orderly(rs, s0, run) && Exec(rs, s0, run) == Some(s)
    ensures StagesFit(rs, s) && |s.writers| == |rs|
    decreases |run|
  {
    hide Initial, GiveOffsets, ExclusiveRun, Apply, Inv, Exclusive;
    if run == [] {
      DataInitially(rs, s0);
    } else {
      var n := |run| - 1;
      var m := Exec(rs, s0, run[..n]).value;
      assert Exec(rs, s0, run[..n]) == Some(m);
      ExclusiveRunPrefix(rs, s0, run, n);
      StagesAfter(rs, s0, run[..n], m);
      ReachableInv(rs, s0, m);
      StagesPreserved(rs, m, run[n]);
    }
  }

  lemma {:induction false} DataAfter(rs: seq<Request>, s0: State, run: seq<Event>, s: State)
    requires Orderly(rs, s0, run) && Exec(rs, s0, run) == Some(s)
    requires |s.writers| == |rs| && Separate(rs, Tried(rs, s.writers))
    ensures DataInv(rs, s0.content, s)
    decreases |run|
  {
    hide Initial, GiveOffsets, ExclusiveRun, Apply, Laid, Separate, Exclusive, StagesFit;
    StagesAfter(rs, s0, run, s);
    if run == [] {
      DataInitially(rs, s0);
    } else {
      var n := |run| - 1;
      var m := Exec(rs, s0, run[..n]).value;
      assert Exec(rs, s0, run[..n]) == Some(m);
      ExclusiveRunPrefix(rs, s0, run, n);
      StagesAfter(rs, s0, run[..n], m);
      TriedGrows(rs, m, run[n], s);
      SeparateBefore(rs, Tried(rs, m.writers), Tried(rs, s.writers));
      DataAfter(rs, s0, run[..n], m);
      LaidPreserved(rs, s0.content, m, run[n], s);
    }
  }

  // At every moment of every orderly run, failures included, the object is what it was,
  // plus a growing prefix of each request at its place. Only what two requests have both
  // handed over so far must not overlap.
  lemma {:induction false} ObjectDuringRun(rs: seq<Request>, s0: State, run: seq<Event>, s: State)
    requires Orderly(rs, s0, run) && Exec(rs, s0, run) == Some(s)
    requires |s.writers| == |rs| && Separate(rs, Tried(rs, s.writers))
    ensures Laid(s0.content, s.content, rs, Kept(rs, s.writers), Tried(rs, s.writers))
  {
    DataAfter(rs, s0, run, s);
  }

  // A writer that was told success has in the object, from then on, all bytes but those
  // of its last piece, and those too if none of its writes failed.
  lemma {:induction false} SuccessGuarantee(rs: seq<Request>, s0: State, run: seq<Event>, s: State, w: nat)
    requires Orderly(rs, s0, run) && Exec(rs, s0, run) == Some(s)
    requires |s.writers| == |rs| && Separate(rs, Tried(rs, s.writers))
    requires w < |rs| && s.writers[w].Done? && s.writers[w].reply == Success
    ensures Transfers(rs[w])
    ensures var ps := rs[w].body.value;
            Keeps(s.content, rs[w], if s.writers[w].intact || ps == [] then |Data(rs[w])| else Bytes(rs[w], |ps| - 1))
  {
    hide Apply, Orderly, Separate, RestAsBefore, Untouched, Keeps, Bytes, Data;
    DataAfter(rs, s0, run, s);
    assert StageFits(rs[w], s.streams, s.writers[w]);
    AllPieces(rs[w]);
    assert Keeps(s.content, rs[w], Kept(rs, s.writers)[w]);
  }

  function Succeeded(ks: seq<Writer>): (ok: seq<bool>)
    ensures |ok| == |ks| && forall w :: 0 <= w < |ks| ==> (ok[w] <==> ks[w].Done? && ks[w].reply == Success)
  {
    seq(|ks|, w requires 0 <= w < |ks| => ks[w].Done? && ks[w].reply == Success)
  }

  // Confluence: when all writers are done and no write failed, the object is the one
  // that the successful requests leave when they are written one after the other,
  // however their tasks were interleaved and their bodies cut.
  lemma {:induction false} Confluence(rs: seq<Request>, s0: State, run: seq<Event>, s: State)
    requires Orderly(rs, s0, run) && Exec(rs, s0, run) == Some(s)
    requires |s.writers| == |rs| && Separate(rs, Tried(rs, s.writers))
    requires forall w :: 0 <= w < |rs| ==> s.writers[w].Done? && s.writers[w].intact
    ensures s.content == OneByOne(s0.content, rs, Succeeded(s.writers), |rs|)
  {
    hide Apply, Orderly, Separate, Laid, Data, Start;
    DataAfter(rs, s0, run, s);
    var ok := Succeeded(s.writers);
    var len := Lengths(rs, ok, |rs|);
    forall w | 0 <= w < |rs|
      ensures BytesOf(rs[w], Sent(s.writers[w])) == len[w]
    {
      assert StageFits(rs[w], s.streams, s.writers[w]);
      if ok[w] {
        AllPieces(rs[w]);
      }
    }
    assert Kept(rs, s.writers) == len && Tried(rs, s.writers) == len;
    OneByOneIsLaid(s0.content, rs, ok, |rs|);
    LaidIsUnique(s0.content, s.content, OneByOne(s0.content, rs, ok, |rs|), rs, len);
  }

  // ---------------------------------------------------------------- runs without failures

  predicate SeeksForward(rs: seq<Request>) {
    forall w :: 0 <= w < |rs| && rs[w].offset.Seek? ==> rs[w].offset.pos >= 0
  }

  ghost predicate Healthy(s: State) {
    && (forall j :: 0 <= j < |s.streams| ==> s.streams[j].good)
    && (forall w :: 0 <= w < |s.writers| ==> Intact(s.writers[w]))
    && (forall w :: 0 <= w < |s.writers| && (s.writers[w].Answered? || s.writers[w].Done?) ==>
         s.writers[w].reply != StreamInBadState && s.writers[w].reply != TransferFailed)
  }

  lemma {:induction false} HealthyPreserved(rs: seq<Request>, s: State, e: Event)
    requires Healthy(s) && SeeksForward(rs) && e.outcome.Accepted? && Apply(rs, s, e).Some?
    ensures Healthy(Apply(rs, s, e).value)
  {
    hide WriteAt;
    assert Intact(s.writers[e.writer]);
  }

  lemma {:induction false} HealthyAfter(rs: seq<Request>, s0: State, run: seq<Event>)
    requires Healthy(s0) && SeeksForward(rs) && Exec(rs, s0, run).Some?
    requires forall i :: 0 <= i < |run| ==> run[i].outcome.Accepted?
    ensures Healthy(Exec(rs, s0, run).value)
  {
    hide Healthy, Apply;
    if run != [] {
      HealthyAfter(rs, s0, run[..|run| - 1]);
      HealthyPreserved(rs, Exec(rs, s0, run[..|run| - 1]).value, run[|run| - 1]);
    }
  }

  // An orderly run on good streams that ends with all writers done and in which no call
  // on a stream fails. Requests that both handed over bytes wrote to different places.
  ghost predicate FailureFree(rs: seq<Request>, s0: State, run: seq<Event>, s: State) {
    && Orderly(rs, s0, run) && SeeksForward(rs)
    && (forall j :: 0 <= j < |s0.streams| ==> s0.streams[j].good)
    && (forall i :: 0 <= i < |run| ==> run[i].outcome.Accepted?)
    && Exec(rs, s0, run) == Some(s)
    && |s.writers| == |rs| && (forall w :: 0 <= w < |rs| ==> s.writers[w].Done?)
    && Separate(rs, Tried(rs, s.writers))
  }

  // It leaves what the successful requests leave one after the other. A request succeeds
  // exactly when it is well formed and not turned away, and is turned away only if more
  // requests than there are streams leave the choice to the server.
  lemma {:induction false} FailureFreeResult(rs: seq<Request>, s0: State, run: seq<Event>, s: State)
    requires FailureFree(rs, s0, run, s)
    ensures s.content == OneByOne(s0.content, rs, Succeeded(s.writers), |rs|)
    ensures forall w :: 0 <= w < |rs| ==>
              (s.writers[w].reply == Success <==>
               WellFormed(rs[w], |s0.streams|) && s.writers[w].reply != TooManyRequests)
    ensures Autos(rs) <= |s0.streams| ==> forall w :: 0 <= w < |rs| ==> s.writers[w].reply != TooManyRequests
  {
    hide Apply, Separate, WellFormed, OneByOne, ExclusiveRun, GiveOffsets;
    HealthyAfter(rs, s0, run);
    forall w | 0 <= w < |rs|
      ensures s.writers[w].intact
      ensures s.writers[w].reply == Success <==>
              WellFormed(rs[w], |s0.streams|) && s.writers[w].reply != TooManyRequests
      ensures Autos(rs) <= |s0.streams| ==> s.writers[w].reply != TooManyRequests
    {
      assert Intact(s.writers[w]);
      RepliesAreJust(rs, s0, run, s, w);
      if s.writers[w].reply == TooManyRequests {
        TurnedAwayOnlyIfMany(rs, s0, run, s, w);
      }
    }
    Confluence(rs, s0, run, s);
  }

  function All(n: nat): (ok: seq<bool>)
    ensures |ok| == n && forall w :: 0 <= w < n ==> ok[w]
  {
    seq(n, _ => true)
  }

  // Well-formed requests, at most as many autos as streams, no failing call: every
  // request succeeds, and every byte of every request is written.
  lemma {:induction false} EverythingIsWritten(rs: seq<Request>, s0: State, run: seq<Event>, s: State)
    requires FailureFree(rs, s0, run, s)
    requires Autos(rs) <= |s0.streams| && forall w :: 0 <= w < |rs| ==> WellFormed(rs[w], |s0.streams|)
    ensures s.content == OneByOne(s0.content, rs, All(|rs|), |rs|)
    ensures forall w :: 0 <= w < |rs| ==> s.writers[w].reply == Success
  {
    hide Orderly, Separate, WellFormed, OneByOne, Autos, Exec;
    FailureFreeResult(rs, s0, run, s);
    assert Succeeded(s.writers) == All(|rs|);
  }

  // How the bodies are cut into pieces does not show in the result.
  lemma {:induction false} CuttingIsInvisible(before: seq<byte>, rs: seq<Request>, qs: seq<Request>, ok: seq<bool>, m: nat)
    requires |rs| == |qs| == |ok| && m <= |rs|
    requires forall w :: 0 <= w < |rs| ==> Start(rs[w]) == Start(qs[w]) && Data(rs[w]) == Data(qs[w])
    ensures OneByOne(before, rs, ok, m) == OneByOne(before, qs, ok, m)
  {
    if m > 0 {
      CuttingIsInvisible(before, rs, qs, ok, m - 1);
    }
  }

  lemma {:induction false} SameAutos(rs: seq<Request>, qs: seq<Request>)
    requires |qs| == |rs| && forall w :: 0 <= w < |rs| ==> qs[w].index == rs[w].index
    ensures Autos(qs) == Autos(rs)
  {
    if rs != [] {
      SameAutos(rs[..|rs| - 1], qs[..|qs| - 1]);
    }
  }

  // The requests qs are those of rs, with the bodies read into memory and cut into chunks.
  predicate Buffers(rs: seq<Request>, qs: seq<Request>, limit: nat)
    requires limit >= 1
  {
    && |qs| == |rs|
    && (forall w :: 0 <= w < |rs| ==>
         && qs[w].index == rs[w].index && qs[w].offset == rs[w].offset && rs[w].body.Some?
         && qs[w].body == Some(CW.Chunks(CW.Flatten(rs[w].body.value), limit)))
  }

  lemma {:induction false} BufferedRequest(rs: seq<Request>, qs: seq<Request>, limit: nat, w: nat, n: nat)
    requires limit >= 1 && Buffers(rs, qs, limit) && w < |rs|
    ensures Start(rs[w]) == Start(qs[w]) && Data(rs[w]) == Data(qs[w])
    ensures WellFormed(rs[w], n) <==> WellFormed(qs[w], n)
  {
  }

  // The same requests sent streamed, their bodies cut in any way, and buffered:
  // failure-free runs on handles of the same size end with the same object. If there are
  // streams enough for all requests that ask for one, nothing else is needed; if not,
  // the same requests have to be turned away.
  lemma {:induction false} StreamedAndBufferedAgree(rs: seq<Request>, s0: State, run: seq<Event>, s: State,
                                                    qs: seq<Request>, t0: State, run': seq<Event>, t: State, limit: nat)
    requires FailureFree(rs, s0, run, s) && FailureFree(qs, t0, run', t)
    requires t0.content == s0.content && |t0.streams| == |s0.streams|
    requires limit >= 1 && Buffers(rs, qs, limit)
    requires Autos(rs) > |s0.streams| ==>
               forall w :: 0 <= w < |rs| ==>
                 (s.writers[w].reply == TooManyRequests <==> t.writers[w].reply == TooManyRequests)
    ensures s.content == t.content
  {
    hide Orderly, Separate, WellFormed, OneByOne, Autos, Exec, Start, Data;
    FailureFreeResult(rs, s0, run, s);
    FailureFreeResult(qs, t0, run', t);
    SameAutos(rs, qs);
    forall w | 0 <= w < |rs|
      ensures Start(rs[w]) == Start(qs[w]) && Data(rs[w]) == Data(qs[w])
      ensures WellFormed(rs[w], |s0.streams|) <==> WellFormed(qs[w], |s0.streams|)
    {
      BufferedRequest(rs, qs, limit, w, |s0.streams|);
    }
    assert Succeeded(s.writers) == Succeeded(t.writers);
    CuttingIsInvisible(s0.content, rs, qs, Succeeded(s.writers), |rs|);
  }
}
