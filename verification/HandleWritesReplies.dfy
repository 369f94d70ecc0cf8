// Which replies writers get: a request is refused as malformed exactly when it is, and
// for want of a stream only if there are fewer streams than requests that ask for any.

module HandleWritesReplies {
  import opened Basics
  import opened DataObject
  import opened HandleWrites
  import opened HandleWritesClaims
  import opened HandleWritesExclusion
  import opened HandleWritesSharing
  import CW = ChunkedWrite

  // On a handle with n streams.
  predicate WellFormed(r: Request, n: nat) {
    (r.index.None? || Chooses(r, n)) && !r.offset.Malformed? && r.body.Some?
  }

  // How far a writer has got tells whether its request is well formed.
  ghost predicate Judged(r: Request, n: nat, k: Writer) {
    && (Live(k) ==> r.index.None? || Chooses(r, n))
    && (k.Writing? ==> WellFormed(r, n))
    && (k.Answered? || k.Done? ==>
         (k.reply == Success ==> WellFormed(r, n)) && (k.reply == BadRequest ==> !WellFormed(r, n)))
  }

  ghost predicate AllJudged(rs: seq<Request>, s: State) {
    |s.writers| == |rs| && forall w :: 0 <= w < |rs| ==> Judged(rs[w], |s.streams|, s.writers[w])
  }

  lemma {:induction false} OwnJudged(rs: seq<Request>, s: State, e: Event)
    requires Inv(rs, s) && AllJudged(rs, s) && Apply(rs, s, e).Some?
    ensures Judged(rs[e.writer], |s.streams|, Apply(rs, s, e).value.writers[e.writer])
  {
    hide MutexFits, OwnersDiffer, InUseIsOwned, ScansFit, WriteAt, CW.Put;
    assert Judged(rs[e.writer], |s.streams|, s.writers[e.writer]);
    assert WriterFits(rs[e.writer], s, s.writers[e.writer]);
  }

  lemma {:induction false} JudgedPreserved(rs: seq<Request>, s: State, e: Event)
    requires Inv(rs, s) && AllJudged(rs, s) && Apply(rs, s, e).Some?
    ensures AllJudged(rs, Apply(rs, s, e).value)
  {
    hide Judged, MutexFits, OwnersDiffer, InUseIsOwned, ScansFit, WriteAt, CW.Put;
    OwnJudged(rs, s, e);
    FlagsAfter(rs, s, e);
    forall v | 0 <= v < |rs| && v != e.writer
      ensures Judged(rs[v], |s.streams|, Apply(rs, s, e).value.writers[v])
    {
      OtherWriterFits(rs, s, e, v);
      assert Judged(rs[v], |s.streams|, s.writers[v]);
    }
  }

  lemma {:induction false} JudgedAfter(rs: seq<Request>, s0: State, run: seq<Event>)
    requires Initial(rs, s0) && Exec(rs, s0, run).Some?
    ensures AllJudged(rs, Exec(rs, s0, run).value) && |Exec(rs, s0, run).value.streams| == |s0.streams|
  {
    hide Judged, Apply, Inv;
    InvInitial(rs, s0);
    InvAfter(rs, s0, run);
    if run == [] {
      InitiallyJudged(rs, s0);
    } else {
      var before := run[..|run| - 1];
      JudgedAfter(rs, s0, before);
      InvAfter(rs, s0, before);
      JudgedPreserved(rs, Exec(rs, s0, before).value, run[|run| - 1]);
    }
  }

  lemma {:induction false} InitiallyJudged(rs: seq<Request>, s0: State)
    requires Initial(rs, s0)
    ensures AllJudged(rs, s0)
  {
  }

  // In every run, failures included: no malformed request succeeds, and no well-formed
  // one is refused as malformed.
  lemma {:induction false} RepliesAreJust(rs: seq<Request>, s0: State, run: seq<Event>, s: State, w: nat)
    requires Initial(rs, s0) && Exec(rs, s0, run) == Some(s)
    requires w < |rs| == |s.writers| && s.writers[w].Done?
    ensures s.writers[w].reply == Success ==> WellFormed(rs[w], |s0.streams|)
    ensures s.writers[w].reply == BadRequest ==> !WellFormed(rs[w], |s0.streams|)
  {
    hide Initial, Exec, WellFormed;
    JudgedAfter(rs, s0, run);
    assert Judged(rs[w], |s.streams|, s.writers[w]);
  }

  // ---------------------------------------------------------------- turned away

  lemma {:induction false} AllBitsSet(n: nat)
    ensures Sum(Bit, seq(n, _ => true)) >= n
  {
    FirstBitsSet(seq(n, _ => true), n);
  }

  // A writer is turned away only if more requests than there are streams leave the
  // choice to the server: all streams were in use, none by the writer itself, and each
  // by a request of that kind.
  lemma {:induction false} TurnedAwayOnlyIfMany(rs: seq<Request>, s0: State, run: seq<Event>, s: State, w: nat)
    requires Initial(rs, s0) && Exec(rs, s0, run) == Some(s)
    requires w < |rs| == |s.writers| && s.writers[w].Done? && s.writers[w].reply == TooManyRequests
    ensures Autos(rs) > |s0.streams|
  {
    hide Initial, Apply;
    BusyReplyIsLinearizable(rs, s0, run, s, w);
    var all := seq(|s0.streams|, _ => true);
    var m :| 0 <= m <= |run| && Exec(rs, s0, run[..m]).Some? &&
             var x := Exec(rs, s0, run[..m]).value; x.mutex == Some(w) && Flags(x.streams) == all;
    BelowAfter(rs, s0, run[..m]);
    LockedWriterOwnsNothing(rs, Exec(rs, s0, run[..m]).value, w);
    OwnersBelowAutos(rs, Exec(rs, s0, run[..m]).value, w);
    AllBitsSet(|s0.streams|);
  }

  lemma {:induction false} LockedWriterOwnsNothing(rs: seq<Request>, s: State, w: nat)
    requires Inv(rs, s) && s.mutex == Some(w)
    ensures w < |rs| && rs[w].index.None? && !Owns(s.writers[w])
  {
    assert WriterFits(rs[w], s, s.writers[w]);
  }

  // And then some interleaving does turn a writer away.
  lemma {:induction false} ManyAreTurnedAway(rs: seq<Request>, s0: State) returns (s: State, w: nat)
    requires Initial(rs, s0) && Autos(rs) > |s0.streams|
    ensures Leads(rs, s0, s) && w < |s.writers| && s.writers[w].Done? && s.writers[w].reply == TooManyRequests
  {
    hide Leads;
    var n := |s0.streams|;
    LeadsSelf(rs, s0);
    var a, m := ClaimFirst(rs, s0, s0, |rs|, n);
    w := NextAuto(rs, m);
    s := ScanTo(rs, s0, a, w, n, n);
    s := Take(rs, s0, s, w);
  }

  ghost predicate TurnsAway(s: State) {
    exists w :: 0 <= w < |s.writers| && s.writers[w].Done? && s.writers[w].reply == TooManyRequests
  }

  // Whatever the interleaving, no writer is told that all streams are busy, exactly when
  // there are streams enough for all requests that leave the choice to the server.
  lemma {:induction false} NobodyTurnedAwayIff(rs: seq<Request>, s0: State)
    requires Initial(rs, s0)
    ensures (forall s :: Leads(rs, s0, s) ==> !TurnsAway(s)) <==> Autos(rs) <= |s0.streams|
  {
    hide Autos, Exec;
    if Autos(rs) <= |s0.streams| {
      forall s | Leads(rs, s0, s) ensures !TurnsAway(s) {
        var run :| Exec(rs, s0, run) == Some(s);
        ReachableInv(rs, s0, s);
        forall w | 0 <= w < |s.writers| && s.writers[w].Done?
          ensures s.writers[w].reply != TooManyRequests
        {
          if s.writers[w].reply == TooManyRequests {
            TurnedAwayOnlyIfMany(rs, s0, run, s, w);
          }
        }
      }
    } else {
      var s, w := ManyAreTurnedAway(rs, s0);
      assert TurnsAway(s);
    }
  }
}
