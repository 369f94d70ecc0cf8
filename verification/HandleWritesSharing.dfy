// Client-chosen streams: in_use does not protect them, so whether two writers can
// ever have the same stream is decided by the requests. This file finds the exact
// condition.

module HandleWritesSharing {
  import opened Basics
  import opened HandleWrites
  import opened HandleWritesClaims
  import opened HandleWritesExclusion
  import CW = ChunkedWrite

  // No two writers have the same stream.
  ghost predicate Exclusive(s: State) {
    forall v, w :: 0 <= v < |s.writers| && 0 <= w < |s.writers| && v != w && Live(s.writers[v]) && Live(s.writers[w])
                   ==> s.writers[v].stream != s.writers[w].stream
  }

  predicate Chooses(r: Request, n: nat) {
    r.index.Some? && 0 <= r.index.value < n
  }

  function Auto(r: Request): int {
    if r.index.None? then 1 else 0
  }

  // Requests that leave the choice of the stream to the server.
  function Autos(rs: seq<Request>): int {
    Sum(Auto, rs)
  }

  // Chosen streams differ from each other, and none is among the first ones, as many
  // as there are requests that leave the choice to the server.
  ghost predicate Compatible(rs: seq<Request>, n: nat) {
    && (forall v, w :: 0 <= v < w < |rs| && Chooses(rs[v], n) && Chooses(rs[w], n) ==> rs[v].index != rs[w].index)
    && (forall w :: 0 <= w < |rs| && Chooses(rs[w], n) ==> rs[w].index.value >= Autos(rs))
  }

  // ---------------------------------------------------------------- claimed streams are the first ones

  function Bit(b: bool): int {
    if b then 1 else 0
  }

  function OwnsOne(k: Writer): int {
    if Owns(k) then 1 else 0
  }

  // Every flag that is set is owed to one owner.
  ghost predicate CountLaw(s: State) {
    Sum(Bit, Flags(s.streams)) == Sum(OwnsOne, s.writers)
  }

  // What writers claim, or have seen set while scanning, stays below the number of autos.
  ghost predicate Below(rs: seq<Request>, k: Writer) {
    && (InScan(k) ==> Sum(Bit, k.atLock) <= Autos(rs) - 1)
    && (k.Found? ==> k.free < Autos(rs))
    && (Owns(k) ==> k.stream < Autos(rs))
  }

  ghost predicate AllBelow(rs: seq<Request>, s: State) {
    forall w :: 0 <= w < |s.writers| ==> Below(rs, s.writers[w])
  }

  lemma {:induction false} CountPreserved(rs: seq<Request>, s: State, e: Event)
    requires Inv(rs, s) && CountLaw(s) && Apply(rs, s, e).Some?
    ensures CountLaw(Apply(rs, s, e).value)
  {
    hide Sum, MutexFits, OwnersDiffer, InUseIsOwned, ScansFit;
    var s', w, k := Apply(rs, s, e).value, e.writer, s.writers[e.writer];
    assert WriterFits(rs[w], s, k);
    OwnershipAfter(rs, s, e);
    FlagsAfter(rs, s, e);
    SumUpdate(OwnsOne, s.writers, w, s'.writers[w]);
    assert s'.writers == s.writers[w := s'.writers[w]];
    var f, f' := Flags(s.streams), Flags(s'.streams);
    if k.Found? {
      assert f' == f[k.free := true];
      SumUpdate(Bit, f, k.free, true);
    } else if k.Answered? && k.claimed {
      assert f' == f[k.stream := false];
      SumUpdate(Bit, f, k.stream, false);
    } else {
      assert f' == f;
    }
  }

  lemma {:induction false} FirstBitsSet(flags: seq<bool>, i: nat)
    requires i <= |flags| && forall j :: 0 <= j < i ==> flags[j]
    ensures Sum(Bit, flags) >= i
  {
    if flags != [] {
      var n := |flags| - 1;
      FirstBitsSet(flags[..n], Min(i, n));
    }
  }

  // A writer that is about to scan owns nothing, so the others own at most Autos - 1 streams.
  lemma {:induction false} OwnersBelowAutos(rs: seq<Request>, s: State, w: nat)
    requires WritersFit(rs, s) && w < |rs| && rs[w].index.None? && !Owns(s.writers[w])
    ensures Sum(OwnsOne, s.writers) <= Autos(rs) - 1
  {
    forall v | 0 <= v < |rs|
      ensures OwnsOne(s.writers[v]) <= Auto(rs[v])
    {
      assert WriterFits(rs[v], s, s.writers[v]);
    }
    SumDominates(OwnsOne, s.writers, Auto, rs, w);
  }

  lemma {:induction false} OwnBelow(rs: seq<Request>, s: State, e: Event)
    requires Inv(rs, s) && CountLaw(s) && AllBelow(rs, s) && Apply(rs, s, e).Some?
    ensures Below(rs, Apply(rs, s, e).value.writers[e.writer])
  {
    hide Sum, MutexFits, OwnersDiffer, InUseIsOwned;
    var w, k := e.writer, s.writers[e.writer];
    assert WriterFits(rs[w], s, k) && Below(rs, k);
    match k
    case Arrived =>
      if rs[w].index.None? {
        OwnersBelowAutos(rs, s, w);
      }
    case Scanning(i, atLock) =>
      assert ScanFits(s, k);
      if i < |s.streams| {
        FirstBitsSet(atLock, i);
      }
    case _ =>
      OwnershipAfter(rs, s, e);
  }

  lemma {:induction false} BelowPreserved(rs: seq<Request>, s: State, e: Event)
    requires Inv(rs, s) && CountLaw(s) && AllBelow(rs, s) && Apply(rs, s, e).Some?
    ensures AllBelow(rs, Apply(rs, s, e).value)
  {
    OwnBelow(rs, s, e);
    forall v | 0 <= v < |s.writers| && v != e.writer
      ensures Below(rs, Apply(rs, s, e).value.writers[v])
    {
      OtherWriterFits(rs, s, e, v);
      assert Below(rs, s.writers[v]);
    }
  }

  lemma {:induction false} BelowAfter(rs: seq<Request>, s0: State, run: seq<Event>)
    requires Initial(rs, s0) && Exec(rs, s0, run).Some?
    ensures var s := Exec(rs, s0, run).value; Inv(rs, s) && CountLaw(s) && AllBelow(rs, s)
  {
    InvInitial(rs, s0);
    InvAfter(rs, s0, run);
    if run == [] {
      SumZero(Bit, Flags(s0.streams));
      SumZero(OwnsOne, s0.writers);
    } else {
      var before := run[..|run| - 1];
      BelowAfter(rs, s0, before);
      CountPreserved(rs, Exec(rs, s0, before).value, run[|run| - 1]);
      BelowPreserved(rs, Exec(rs, s0, before).value, run[|run| - 1]);
    }
  }

  // Compatible requests never share a stream.
  lemma {:induction false} CompatibleIsExclusive(rs: seq<Request>, s0: State, s: State)
    requires Initial(rs, s0) && Compatible(rs, |s0.streams|) && Leads(rs, s0, s)
    ensures Exclusive(s)
  {
    var run :| Exec(rs, s0, run) == Some(s);
    BelowAfter(rs, s0, run);
    ReachableInv(rs, s0, s);
    forall v, w | 0 <= v < |rs| && 0 <= w < |rs| && v != w && Live(s.writers[v]) && Live(s.writers[w])
      ensures s.writers[v].stream != s.writers[w].stream
    {
      assert WriterFits(rs[v], s, s.writers[v]) && WriterFits(rs[w], s, s.writers[w]);
      assert Below(rs, s.writers[v]) && Below(rs, s.writers[w]);
    }
  }

  // At no moment of the run do two writers have the same stream.
  ghost predicate ExclusiveRun(rs: seq<Request>, s0: State, run: seq<Event>) {
    forall m :: 0 <= m <= |run| && Exec(rs, s0, run[..m]).Some? ==> Exclusive(Exec(rs, s0, run[..m]).value)
  }

  lemma {:induction false} ExclusiveRunPrefix(rs: seq<Request>, s0: State, run: seq<Event>, n: nat)
    requires ExclusiveRun(rs, s0, run) && n <= |run|
    ensures ExclusiveRun(rs, s0, run[..n])
    ensures Exec(rs, s0, run[..n]).Some? ==> Exclusive(Exec(rs, s0, run[..n]).value)
  {
    hide Exec, Exclusive;
    forall m | 0 <= m <= n && Exec(rs, s0, run[..n][..m]).Some?
      ensures Exclusive(Exec(rs, s0, run[..n][..m]).value)
    {
      assert run[..n][..m] == run[..m];
    }
  }

  // Compatible requests have no other runs.
  lemma {:induction false} CompatibleRunIsExclusive(rs: seq<Request>, s0: State, run: seq<Event>)
    requires Initial(rs, s0) && Compatible(rs, |s0.streams|)
    ensures ExclusiveRun(rs, s0, run)
  {
    hide Exec, Exclusive, Initial, Compatible;
    forall m | 0 <= m <= |run| && Exec(rs, s0, run[..m]).Some?
      ensures Exclusive(Exec(rs, s0, run[..m]).value)
    {
      var s := Exec(rs, s0, run[..m]).value;
      assert Exec(rs, s0, run[..m]) == Some(s);
      CompatibleIsExclusive(rs, s0, s);
    }
  }

  // ---------------------------------------------------------------- runs that share a stream

  lemma {:induction false} Take(rs: seq<Request>, s0: State, s: State, w: nat) returns (s': State)
    requires Leads(rs, s0, s) && Apply(rs, s, Event(w, CW.Accepted)).Some?
    ensures s' == Apply(rs, s, Event(w, CW.Accepted)).value && Leads(rs, s0, s')
  {
    s' := Apply(rs, s, Event(w, CW.Accepted)).value;
    LeadsStep(rs, s0, s, Event(w, CW.Accepted));
  }

  // The first k streams are in use, the others are not.
  ghost predicate FirstInUse(s: State, k: nat) {
    forall j :: 0 <= j < |s.streams| ==> (s.streams[j].inUse <==> j < k)
  }

  lemma {:induction false} ScanTo(rs: seq<Request>, s0: State, s: State, w: nat, k: nat, i: nat) returns (s': State)
    requires Leads(rs, s0, s) && w < |rs| == |s.writers| && s.writers[w].Arrived? && rs[w].index.None?
    requires s.mutex == None && FirstInUse(s, k) && i <= k <= |s.streams|
    ensures Leads(rs, s0, s')
    ensures s' == s.(mutex := Some(w), writers := s.writers[w := Scanning(i, Flags(s.streams))])
  {
    if i == 0 {
      s' := Take(rs, s0, s, w);
    } else {
      s' := ScanTo(rs, s0, s, w, k, i - 1);
      var before := s';
      s' := Take(rs, s0, before, w);
      assert before.writers[w := Scanning(i, Flags(s.streams))] == s.writers[w := Scanning(i, Flags(s.streams))];
    }
  }

  // An undisturbed writer claims the first free stream.
  lemma {:induction false} ClaimNext(rs: seq<Request>, s0: State, s: State, w: nat, k: nat) returns (s': State)
    requires Leads(rs, s0, s) && w < |rs| == |s.writers| && s.writers[w].Arrived? && rs[w].index.None?
    requires s.mutex == None && FirstInUse(s, k) && k < |s.streams|
    ensures Leads(rs, s0, s') && s'.mutex == None && FirstInUse(s', k + 1) && |s'.streams| == |s.streams|
    ensures |s'.writers| == |s.writers| && forall v :: 0 <= v < |rs| && v != w ==> s'.writers[v] == s.writers[v]
  {
    s' := ScanTo(rs, s0, s, w, k, k);
    s' := Take(rs, s0, s', w);
    s' := Take(rs, s0, s', w);
  }

  // The next request, from m on, that leaves the choice to the server.
  lemma {:induction false} NextAuto(rs: seq<Request>, m: nat) returns (w: nat)
    requires m <= |rs| && Autos(rs[..m]) < Autos(rs)
    ensures m <= w < |rs| && rs[w].index.None? && Autos(rs[..w + 1]) == Autos(rs[..m]) + 1
    decreases |rs| - m
  {
    assert m < |rs| by { assert rs[..|rs|] == rs; }
    assert rs[..m + 1][..m] == rs[..m];
    if rs[m].index.None? {
      w := m;
    } else {
      w := NextAuto(rs, m + 1);
    }
  }

  // From a state in which nobody but perhaps writer x, which is not an auto, has
  // arrived, the first c autos claim the first c streams. m is where the next auto is
  // to be sought.
  lemma {:induction false} ClaimFirst(rs: seq<Request>, s0: State, a: State, x: nat, c: nat) returns (s: State, m: nat)
    requires Leads(rs, s0, a) && |a.writers| == |rs| && a.mutex == None && FirstInUse(a, 0)
    requires forall w :: 0 <= w < |rs| ==> if w == x then rs[w].index.Some? else a.writers[w].Arrived?
    requires c <= Autos(rs) && c <= |a.streams|
    ensures Leads(rs, s0, s) && s.mutex == None && FirstInUse(s, c) && |s.streams| == |a.streams|
    ensures |s.writers| == |rs| && (x < |rs| ==> s.writers[x] == a.writers[x])
    ensures m <= |rs| && Autos(rs[..m]) == c
    ensures forall w :: m <= w < |rs| && w != x ==> s.writers[w].Arrived?
  {
    if c == 0 {
      s, m := a, 0;
    } else {
      s, m := ClaimFirst(rs, s0, a, x, c - 1);
      var w := NextAuto(rs, m);
      s := ClaimNext(rs, s0, s, w, c - 1);
      m := w + 1;
    }
  }

  lemma {:induction false} SharedByAuto(rs: seq<Request>, s0: State, x: nat)
    requires Initial(rs, s0) && x < |rs| && Chooses(rs[x], |s0.streams|) && rs[x].index.value < Autos(rs)
    ensures exists s :: Leads(rs, s0, s) && !Exclusive(s)
  {
    var j := rs[x].index.value;
    LeadsSelf(rs, s0);
    var a := Take(rs, s0, s0, x);
    var s, m := ClaimFirst(rs, s0, a, x, j + 1);
    ReachableInv(rs, s0, s);
    assert HasOwner(s, j);
    var v :| 0 <= v < |s.writers| && Owns(s.writers[v]) && s.writers[v].stream == j;
    assert v != x;
  }

  lemma {:induction false} SharedByChoice(rs: seq<Request>, s0: State, v: nat, w: nat)
    requires Initial(rs, s0) && v < w < |rs| && Chooses(rs[v], |s0.streams|) && rs[v].index == rs[w].index
    ensures exists s :: Leads(rs, s0, s) && !Exclusive(s)
  {
    LeadsSelf(rs, s0);
    var s := Take(rs, s0, s0, v);
    s := Take(rs, s0, s, w);
    assert Live(s.writers[v]) && Live(s.writers[w]);
  }

  // The exact condition: whatever the interleaving, no two writers share a stream,
  // if and only if the requests are compatible.
  lemma {:induction false} ExclusiveIffCompatible(rs: seq<Request>, s0: State)
    requires Initial(rs, s0)
    ensures (forall s :: Leads(rs, s0, s) ==> Exclusive(s)) <==> Compatible(rs, |s0.streams|)
  {
    var n := |s0.streams|;
    if Compatible(rs, n) {
      forall s | Leads(rs, s0, s) ensures Exclusive(s) {
        CompatibleIsExclusive(rs, s0, s);
      }
    } else if exists v, w :: 0 <= v < w < |rs| && Chooses(rs[v], n) && Chooses(rs[w], n) && rs[v].index == rs[w].index {
      var v, w :| 0 <= v < w < |rs| && Chooses(rs[v], n) && Chooses(rs[w], n) && rs[v].index == rs[w].index;
      SharedByChoice(rs, s0, v, w);
    } else {
      var x :| 0 <= x < |rs| && Chooses(rs[x], n) && rs[x].index.value < Autos(rs);
      SharedByAuto(rs, s0, x);
    }
  }

  // In particular requests that all leave the choice to the server never share a stream.
  lemma {:induction false} AutoPickIsExclusive(rs: seq<Request>, s0: State, s: State)
    requires Initial(rs, s0) && Leads(rs, s0, s)
    requires forall w :: 0 <= w < |rs| ==> rs[w].index.None?
    ensures Exclusive(s)
  {
    CompatibleIsExclusive(rs, s0, s);
  }
}
