// The claim of a stream is exclusive, given back on every path, and linearizable.

module HandleWritesExclusion {
  import opened Basics
  import opened HandleWrites
  import opened HandleWritesClaims
  import CW = ChunkedWrite

  // ---------------------------------------------------------------- the claim

  // In every reachable state, whatever the requests: a flag is set exactly for the
  // streams that some writer has claimed, and no stream is claimed by two writers.
  lemma {:induction false} ClaimsAreExclusive(rs: seq<Request>, s0: State, s: State)
    requires Initial(rs, s0) && Leads(rs, s0, s)
    ensures forall j :: 0 <= j < |s.streams| ==> (s.streams[j].inUse <==> HasOwner(s, j))
    ensures OwnersDiffer(s)
  {
    ReachableInv(rs, s0, s);
    forall j | 0 <= j < |s.streams| && HasOwner(s, j)
      ensures s.streams[j].inUse
    {
      var w :| 0 <= w < |s.writers| && Owns(s.writers[w]) && s.writers[w].stream == j;
      assert WriterFits(rs[w], s, s.writers[w]);
    }
  }

  lemma {:induction false} ReachableInv(rs: seq<Request>, s0: State, s: State)
    requires Initial(rs, s0) && Leads(rs, s0, s)
    ensures Inv(rs, s) && |s.streams| == |s0.streams|
  {
    var run :| Exec(rs, s0, run) == Some(s);
    InvInitial(rs, s0);
    InvAfter(rs, s0, run);
  }

  // When every writer is done, on whatever path, every claim has been given back.
  lemma {:induction false} NothingLeftClaimed(rs: seq<Request>, s0: State, s: State)
    requires Initial(rs, s0) && Leads(rs, s0, s)
    requires forall w :: 0 <= w < |s.writers| ==> s.writers[w].Done?
    ensures s.mutex == None && forall j :: 0 <= j < |s.streams| ==> !s.streams[j].inUse
  {
    ReachableInv(rs, s0, s);
    ClaimsAreExclusive(rs, s0, s);
  }

  // The stream a writer claims was free up to that very step, and is its own from then on.
  lemma {:induction false} ClaimTakesFreeStream(rs: seq<Request>, s0: State, s: State, e: Event)
    requires Initial(rs, s0) && Leads(rs, s0, s) && Apply(rs, s, e).Some?
    requires s.writers[e.writer].Found?
    ensures var j, s' := s.writers[e.writer].free, Apply(rs, s, e).value;
            && j < |s.streams| && !s.streams[j].inUse && !HasOwner(s, j)
            && s'.streams[j].inUse && s'.writers[e.writer] == Selected(j, true)
  {
    ReachableInv(rs, s0, s);
    assert WriterFits(rs[e.writer], s, s.writers[e.writer]);
    ClaimsAreExclusive(rs, s0, s);
  }

  // The search loads every flag anew: a stream that was in use when the mutex was locked
  // and has been given back since is found.
  lemma {:induction false} ScanLoadsFlag(rs: seq<Request>, s: State, e: Event, s': State)
    requires Apply(rs, s, e) == Some(s') && s.writers[e.writer].Scanning? && s.writers[e.writer].next < |s.streams|
    ensures var i := s.writers[e.writer].next;
            && (s'.writers[e.writer].Found? <==> !s.streams[i].inUse)
            && (s'.writers[e.writer].Found? ==> s'.writers[e.writer].free == i)
            && (s.streams[i].inUse ==> s'.writers[e.writer].Scanning? && s'.writers[e.writer].next == i + 1)
  {
  }

  // The state after some prefix of the run, in which writer w held the mutex and the
  // flags were as given.
  ghost predicate LockedAt(rs: seq<Request>, s0: State, run: seq<Event>, w: nat, flags: seq<bool>) {
    exists m :: 0 <= m <= |run| && Exec(rs, s0, run[..m]).Some? &&
                var x := Exec(rs, s0, run[..m]).value; x.mutex == Some(w) && Flags(x.streams) == flags
  }

  lemma {:induction false} LockedEarlier(rs: seq<Request>, s0: State, run: seq<Event>, k: nat, w: nat, flags: seq<bool>)
    requires k <= |run| && LockedAt(rs, s0, run[..k], w, flags)
    ensures LockedAt(rs, s0, run, w, flags)
  {
    var m :| 0 <= m <= k && Exec(rs, s0, run[..k][..m]).Some? &&
             var x := Exec(rs, s0, run[..k][..m]).value; x.mutex == Some(w) && Flags(x.streams) == flags;
    assert run[..k][..m] == run[..m];
  }

  // A writer enters its scan by locking the mutex and reading the flags.
  lemma {:induction false} ScanStep(rs: seq<Request>, m: State, e: Event, w: nat)
    requires Inv(rs, m) && Apply(rs, m, e).Some? && w < |rs| && InScan(Apply(rs, m, e).value.writers[w])
    ensures var s := Apply(rs, m, e).value;
            if InScan(m.writers[w]) then m.writers[w].atLock == s.writers[w].atLock
            else s.mutex == Some(w) && Flags(s.streams) == s.writers[w].atLock
  {
    if e.writer != w {
      OtherWriterFits(rs, m, e, w);
    }
  }

  lemma {:induction false} ScanStartedLocked(rs: seq<Request>, s0: State, run: seq<Event>, s: State, w: nat)
    requires Initial(rs, s0) && Exec(rs, s0, run) == Some(s)
    requires w < |rs| && |s.writers| == |rs| && InScan(s.writers[w])
    ensures LockedAt(rs, s0, run, w, s.writers[w].atLock)
  {
    assert run != [];
    var before := run[..|run| - 1];
    var m := Exec(rs, s0, before).value;
    assert Exec(rs, s0, before) == Some(m);
    ReachableInv(rs, s0, m);
    ScanStep(rs, m, run[|run| - 1], w);
    if InScan(m.writers[w]) {
      ScanStartedLocked(rs, s0, before, m, w);
      LockedEarlier(rs, s0, run, |run| - 1, w, s.writers[w].atLock);
    } else {
      assert run[..|run|] == run;
    }
  }

  // A writer that was told that all streams are busy held the mutex at a moment when
  // every stream of the handle was in use, although releases do not take the mutex.
  lemma {:induction false} BusyReplyIsLinearizable(rs: seq<Request>, s0: State, run: seq<Event>, s: State, w: nat)
    requires Initial(rs, s0) && Exec(rs, s0, run) == Some(s)
    requires w < |s.writers| && s.writers[w].Done? && s.writers[w].reply == TooManyRequests
    ensures LockedAt(rs, s0, run, w, seq(|s0.streams|, _ => true))
  {
    assert Leads(rs, s0, s);
    ReachableInv(rs, s0, s);
    assert run != [];
    var before := run[..|run| - 1];
    var m := Exec(rs, s0, before).value;
    assert Exec(rs, s0, before) == Some(m);
    ReachableInv(rs, s0, m);
    var all := seq(|s0.streams|, _ => true);
    if m.writers[w].Done? {
      DoneStays(rs, m, run[|run| - 1], w);
      BusyReplyIsLinearizable(rs, s0, before, m, w);
    } else {
      OnlyFailedScansAreTurnedAway(rs, m, run[|run| - 1], w);
      ScanStartedLocked(rs, s0, before, m, w);
      assert m.writers[w].atLock == all;
    }
    LockedEarlier(rs, s0, run, |run| - 1, w, all);
  }

  lemma {:induction false} DoneStays(rs: seq<Request>, s: State, e: Event, w: nat)
    requires Apply(rs, s, e).Some? && w < |s.writers| && s.writers[w].Done?
    ensures Apply(rs, s, e).value.writers[w] == s.writers[w]
  {
  }

  // Only a writer that has seen every flag set is told that all streams are busy.
  lemma {:induction false} OnlyFailedScansAreTurnedAway(rs: seq<Request>, s: State, e: Event, w: nat)
    requires Inv(rs, s) && Apply(rs, s, e).Some? && w < |rs| && !s.writers[w].Done?
    requires Apply(rs, s, e).value.writers[w].Done? && Apply(rs, s, e).value.writers[w].reply == TooManyRequests
    ensures s.writers[w].Scanning? && |s.writers[w].atLock| == |s.streams|
    ensures forall j :: 0 <= j < |s.streams| ==> s.writers[w].atLock[j]
  {
    assert WriterFits(rs[w], s, s.writers[w]) && ScanFits(s, s.writers[w]);
    if e.writer != w {
      OtherWriterFits(rs, s, e, w);
    }
  }
}
