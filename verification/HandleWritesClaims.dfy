// Selecting a stream: what the claim protocol keeps, whatever the interleaving.

module HandleWritesClaims {
  import opened Basics
  import opened HandleWrites
  import CW = ChunkedWrite

  // The writer has a stream, and whether it claimed it by setting its flag.
  predicate Live(k: Writer) {
    k.Selected? || k.Writing? || k.Answered?
  }

  predicate Owns(k: Writer) {
    Live(k) && k.claimed
  }

  predicate InScan(k: Writer) {
    k.Scanning? || k.Found?
  }

  // ---------------------------------------------------------------- invariants

  // The mutex is held exactly by the writer that scans.
  ghost predicate MutexFits(s: State) {
    && (forall w :: 0 <= w < |s.writers| ==> (InScan(s.writers[w]) <==> s.mutex == Some(w)))
    && (s.mutex.Some? ==> s.mutex.value < |s.writers|)
  }

  ghost predicate WriterFits(r: Request, s: State, k: Writer) {
    && (Live(k) ==> k.stream < |s.streams|)
    && (Live(k) ==> if k.claimed then r.index == None && s.streams[k.stream].inUse else r.index == Some(k.stream))
    && (InScan(k) ==> r.index == None && |k.atLock| == |s.streams|)
    && (k.Scanning? ==> k.next <= |s.streams|)
    && (k.Found? ==> k.free < |s.streams| && !s.streams[k.free].inUse)
    && (k.Writing? ==> r.body.Some? && k.sent <= |r.body.value|)
    && (k.Answered? ==> k.reply != TooManyRequests)
  }

  ghost predicate WritersFit(rs: seq<Request>, s: State) {
    |s.writers| == |rs| && forall w :: 0 <= w < |rs| ==> WriterFits(rs[w], s, s.writers[w])
  }

  ghost predicate OwnersDiffer(s: State) {
    forall v, w :: 0 <= v < |s.writers| && 0 <= w < |s.writers| && v != w && Owns(s.writers[v]) && Owns(s.writers[w])
                   ==> s.writers[v].stream != s.writers[w].stream
  }

  ghost predicate HasOwner(s: State, j: nat) {
    exists w :: 0 <= w < |s.writers| && Owns(s.writers[w]) && s.writers[w].stream == j
  }

  ghost predicate InUseIsOwned(s: State) {
    forall j :: 0 <= j < |s.streams| && s.streams[j].inUse ==> HasOwner(s, j)
  }

  // While a writer scans, flags can only be cleared, and all flags it has passed were
  // set when it locked the mutex.
  ghost predicate ScanFits(s: State, k: Writer) {
    InScan(k) ==>
      && (forall j :: 0 <= j < |s.streams| && j < |k.atLock| && s.streams[j].inUse ==> k.atLock[j])
      && (forall j :: 0 <= j < |k.atLock| && j < (if k.Scanning? then k.next else k.free) ==> k.atLock[j])
  }

  ghost predicate ScansFit(s: State) {
    forall w :: 0 <= w < |s.writers| ==> ScanFits(s, s.writers[w])
  }

  ghost predicate Inv(rs: seq<Request>, s: State) {
    MutexFits(s) && WritersFit(rs, s) && OwnersDiffer(s) && InUseIsOwned(s) && ScansFit(s)
  }

  lemma {:induction false} InvInitial(rs: seq<Request>, s: State)
    requires Initial(rs, s)
    ensures Inv(rs, s)
  {
  }

  lemma {:induction false} MutexPreserved(rs: seq<Request>, s: State, e: Event)
    requires Inv(rs, s) && Apply(rs, s, e).Some?
    ensures MutexFits(Apply(rs, s, e).value)
  {
    hide OwnersDiffer, InUseIsOwned, ScansFit, CW.Put;
    assert WriterFits(rs[e.writer], s, s.writers[e.writer]);
  }

  lemma {:induction false} PreparedWriterFits(r: Request, s: State, w: nat, o: CW.Outcome)
    requires w < |s.writers| && s.writers[w].Selected? && WriterFits(r, s, s.writers[w])
    requires Prepare(r, s, w, o).Some?
    ensures WriterFits(r, Prepare(r, s, w, o).value, Prepare(r, s, w, o).value.writers[w])
  {
  }

  lemma {:induction false} TransferringWriterFits(r: Request, s: State, w: nat, o: CW.Outcome)
    requires w < |s.writers| && s.writers[w].Writing? && WriterFits(r, s, s.writers[w])
    requires TransferStep(r, s, w, o).Some?
    ensures WriterFits(r, TransferStep(r, s, w, o).value, TransferStep(r, s, w, o).value.writers[w])
  {
  }

  lemma {:induction false} OwnWriterFits(rs: seq<Request>, s: State, e: Event)
    requires WritersFit(rs, s) && Apply(rs, s, e).Some?
    ensures WriterFits(rs[e.writer], Apply(rs, s, e).value, Apply(rs, s, e).value.writers[e.writer])
  {
    assert WriterFits(rs[e.writer], s, s.writers[e.writer]);
    if s.writers[e.writer].Selected? {
      PreparedWriterFits(rs[e.writer], s, e.writer, e.outcome);
    } else if s.writers[e.writer].Writing? {
      TransferringWriterFits(rs[e.writer], s, e.writer, e.outcome);
    }
  }

  // A step changes at most one flag: a claim sets that of a free stream, under the
  // mutex, a release clears that of a stream the writer owns.
  lemma {:induction false} FlagsAfter(rs: seq<Request>, s: State, e: Event)
    requires Inv(rs, s) && Apply(rs, s, e).Some?
    ensures var s', k := Apply(rs, s, e).value, s.writers[e.writer];
            && |s'.streams| == |s.streams|
            && (forall j :: 0 <= j < |s.streams| ==>
                 (s'.streams[j].inUse <==>
                  if k.Found? && j == k.free then true
                  else if k.Answered? && k.claimed && j == k.stream then false
                  else s.streams[j].inUse))
  {
    assert WriterFits(rs[e.writer], s, s.writers[e.writer]);
  }

  lemma {:induction false} OtherWriterFits(rs: seq<Request>, s: State, e: Event, v: nat)
    requires Inv(rs, s) && Apply(rs, s, e).Some? && v < |rs| && v != e.writer
    ensures Apply(rs, s, e).value.writers[v] == s.writers[v]
    ensures WriterFits(rs[v], Apply(rs, s, e).value, s.writers[v])
    ensures ScanFits(Apply(rs, s, e).value, s.writers[v])
  {
    FlagsAfter(rs, s, e);
    assert WriterFits(rs[v], s, s.writers[v]) && ScanFits(s, s.writers[v]);
    assert InScan(s.writers[v]) ==> !InScan(s.writers[e.writer]);
  }

  lemma {:induction false} OwnScanFits(rs: seq<Request>, s: State, e: Event)
    requires Inv(rs, s) && Apply(rs, s, e).Some?
    ensures ScanFits(Apply(rs, s, e).value, Apply(rs, s, e).value.writers[e.writer])
  {
    hide OwnersDiffer, InUseIsOwned, MutexFits, CW.Put;
    assert WriterFits(rs[e.writer], s, s.writers[e.writer]) && ScanFits(s, s.writers[e.writer]);
  }

  lemma {:induction false} WritersPreserved(rs: seq<Request>, s: State, e: Event)
    requires Inv(rs, s) && Apply(rs, s, e).Some?
    ensures WritersFit(rs, Apply(rs, s, e).value) && ScansFit(Apply(rs, s, e).value)
  {
    var s' := Apply(rs, s, e).value;
    OwnWriterFits(rs, s, e);
    OwnScanFits(rs, s, e);
    forall v | 0 <= v < |rs| && v != e.writer
      ensures WriterFits(rs[v], s', s'.writers[v]) && ScanFits(s', s'.writers[v])
    {
      OtherWriterFits(rs, s, e, v);
    }
  }

  // A step gives a writer a stream only by claiming a free one.
  lemma {:induction false} OwnershipAfter(rs: seq<Request>, s: State, e: Event)
    requires Inv(rs, s) && Apply(rs, s, e).Some?
    ensures var k, k' := s.writers[e.writer], Apply(rs, s, e).value.writers[e.writer];
            && (Owns(k') <==> k.Found? || (Owns(k) && !k.Answered?))
            && (Owns(k') ==> k'.stream == if k.Found? then k.free else k.stream)
  {
    assert WriterFits(rs[e.writer], s, s.writers[e.writer]);
  }

  lemma {:induction false} OwnersPreserved(rs: seq<Request>, s: State, e: Event)
    requires Inv(rs, s) && Apply(rs, s, e).Some?
    ensures OwnersDiffer(Apply(rs, s, e).value)
  {
    var s' := Apply(rs, s, e).value;
    OwnershipAfter(rs, s, e);
    assert WriterFits(rs[e.writer], s, s.writers[e.writer]);
    forall v | 0 <= v < |rs| && v != e.writer && Owns(s'.writers[v]) && Owns(s'.writers[e.writer])
      ensures s'.writers[v].stream != s'.writers[e.writer].stream
    {
      OtherWriterFits(rs, s, e, v);
      assert WriterFits(rs[v], s, s.writers[v]);
    }
    forall v, w | 0 <= v < |rs| && 0 <= w < |rs| && v != w && v != e.writer && w != e.writer
      ensures s'.writers[v] == s.writers[v] && s'.writers[w] == s.writers[w]
    {
      OtherWriterFits(rs, s, e, v);
      OtherWriterFits(rs, s, e, w);
    }
  }

  lemma {:induction false} InUsePreserved(rs: seq<Request>, s: State, e: Event)
    requires Inv(rs, s) && Apply(rs, s, e).Some?
    ensures InUseIsOwned(Apply(rs, s, e).value)
  {
    var s' := Apply(rs, s, e).value;
    OwnershipAfter(rs, s, e);
    FlagsAfter(rs, s, e);
    forall j | 0 <= j < |s'.streams| && s'.streams[j].inUse
      ensures HasOwner(s', j)
    {
      if Owns(s'.writers[e.writer]) && s'.writers[e.writer].stream == j {
      } else {
        assert HasOwner(s, j);
        var v :| 0 <= v < |s.writers| && Owns(s.writers[v]) && s.writers[v].stream == j;
        assert v != e.writer;
        OtherWriterFits(rs, s, e, v);
      }
    }
  }

  lemma {:induction false} InvPreserved(rs: seq<Request>, s: State, e: Event)
    requires Inv(rs, s) && Apply(rs, s, e).Some?
    ensures Inv(rs, Apply(rs, s, e).value)
  {
    MutexPreserved(rs, s, e);
    WritersPreserved(rs, s, e);
    OwnersPreserved(rs, s, e);
    InUsePreserved(rs, s, e);
  }

  lemma {:induction false} InvAfter(rs: seq<Request>, s: State, run: seq<Event>)
    requires Inv(rs, s) && Exec(rs, s, run).Some?
    ensures Inv(rs, Exec(rs, s, run).value)
    ensures |Exec(rs, s, run).value.streams| == |s.streams|
  {
    if run != [] {
      InvAfter(rs, s, run[..|run| - 1]);
      InvPreserved(rs, Exec(rs, s, run[..|run| - 1]).value, run[|run| - 1]);
      FlagsAfter(rs, Exec(rs, s, run[..|run| - 1]).value, run[|run| - 1]);
    }
  }
}
