// What concurrent writers leave in the data object.
//
// Requests that never share a stream and write to separate ranges leave, in every
// interleaving of their tasks, what they would leave one after the other.

module HandleWritesConfluence {
  import opened Basics
  import opened DataObject
  import opened HandleWrites
  import opened HandleWritesClaims
  import opened HandleWritesExclusion
  import opened HandleWritesSharing
  import CW = ChunkedWrite

  // ---------------------------------------------------------------- ranges

  // A request that starts a transfer if its stream is good.
  predicate Transfers(r: Request) {
    r.body.Some? && r.offset.Seek? && r.offset.pos >= 0
  }

  function Start(r: Request): nat {
    if Transfers(r) then r.offset.pos else 0
  }

  function Data(r: Request): seq<byte> {
    if Transfers(r) then CW.Flatten(r.body.value) else []
  }

  // How many bytes the first k pieces of a request have.
  function Bytes(r: Request, k: nat): nat
    requires k > 0 ==> Transfers(r) && k <= |r.body.value|
  {
    if k == 0 then 0 else |CW.Flatten(r.body.value[..k])|
  }

  lemma {:induction false} NextPiece(r: Request, k: nat)
    requires Transfers(r) && k < |r.body.value|
    ensures Bytes(r, k + 1) == Bytes(r, k) + |r.body.value[k]| <= |Data(r)|
    ensures Data(r)[Bytes(r, k)..Bytes(r, k + 1)] == r.body.value[k]
  {
    var ps := r.body.value;
    CW.FlattenAppend(ps[..k], [ps[k]]);
    CW.FlattenAppend(ps[..k + 1], ps[k + 1..]);
    assert ps[..k + 1] == ps[..k] + [ps[k]] && ps == ps[..k + 1] + ps[k + 1..];
    assert CW.Flatten([ps[k]]) == ps[k] + [];
    assert k == 0 ==> ps[..k] == [];
  }

  lemma {:induction false} AllPieces(r: Request)
    requires Transfers(r)
    ensures Bytes(r, |r.body.value|) == |Data(r)|
  {
    assert r.body.value[..|r.body.value|] == r.body.value;
  }

  predicate GiveOffsets(rs: seq<Request>) {
    forall w :: 0 <= w < |rs| ==> rs[w].offset != NoOffset
  }

  // The first k bytes of one request and the first l of another have different places.
  predicate Apart(r: Request, k: nat, q: Request, l: nat) {
    k > 0 && l > 0 ==> Start(r) + k <= Start(q) || Start(q) + l <= Start(r)
  }

  // The first len[w] bytes of the requests have different places.
  ghost predicate Separate(rs: seq<Request>, len: seq<nat>)
    requires |len| == |rs|
  {
    forall v, w {:trigger Apart(rs[v], len[v], rs[w], len[w])} :: 0 <= v < |rs| && 0 <= w < |rs| && v != w ==>
      Apart(rs[v], len[v], rs[w], len[w])
  }

  lemma {:induction false} SeparateBefore(rs: seq<Request>, less: seq<nat>, len: seq<nat>)
    requires |less| == |len| == |rs| && Separate(rs, len) && forall w :: 0 <= w < |rs| ==> less[w] <= len[w]
    ensures Separate(rs, less)
  {
    hide Start;
    forall v, w | 0 <= v < |rs| && 0 <= w < |rs| && v != w
      ensures Apart(rs[v], less[v], rs[w], less[w])
    {
      assert Apart(rs[v], len[v], rs[w], len[w]);
    }
  }

  // ---------------------------------------------------------------- partly written objects

  predicate Covers(r: Request, len: nat, i: nat) {
    Start(r) <= i < Start(r) + len
  }

  // No request reaches byte i with its first tried[w] bytes.
  ghost predicate Untouched(rs: seq<Request>, tried: seq<nat>, i: nat)
    requires |tried| == |rs|
  {
    forall w {:trigger Covers(rs[w], tried[w], i)} :: 0 <= w < |rs| ==> !Covers(rs[w], tried[w], i)
  }

  // The object has the first k bytes of the request at their place.
  ghost predicate Keeps(c: seq<byte>, r: Request, k: nat) {
    k <= |Data(r)| && (k > 0 ==> Start(r) + k <= |c| && c[Start(r)..Start(r) + k] == Data(r)[..k])
  }

  ghost predicate AllKept(c: seq<byte>, rs: seq<Request>, kept: seq<nat>)
    requires |kept| == |rs|
  {
    forall w {:trigger Keeps(c, rs[w], kept[w])} :: 0 <= w < |rs| ==> Keeps(c, rs[w], kept[w])
  }

  ghost predicate RestAsBefore(before: seq<byte>, c: seq<byte>, rs: seq<Request>, tried: seq<nat>)
    requires |tried| == |rs|
  {
    forall i {:trigger Untouched(rs, tried, i)} :: 0 <= i < |c| && Untouched(rs, tried, i) ==> c[i] == ByteAt(before, i)
  }

  // The object after the writers have put down at least the first kept[w] and at most
  // the first tried[w] bytes of each request. Where none of them has been, it is as
  // before, and it ends where it ended or where one of them has been.
  ghost predicate Laid(before: seq<byte>, after: seq<byte>, rs: seq<Request>, kept: seq<nat>, tried: seq<nat>) {
    && |kept| == |tried| == |rs|
    && |before| <= |after|
    && (forall w :: 0 <= w < |rs| ==> kept[w] <= tried[w] <= |Data(rs[w])|)
    && AllKept(after, rs, kept)
    && RestAsBefore(before, after, rs, tried)
    && (|after| > |before| ==> !Untouched(rs, tried, |after| - 1))
  }

  lemma {:induction false} Touched(rs: seq<Request>, tried: seq<nat>, i: nat) returns (w: nat)
    requires |tried| == |rs| && !Untouched(rs, tried, i)
    ensures w < |rs| && Covers(rs[w], tried[w], i)
  {
    w :| 0 <= w < |rs| && Covers(rs[w], tried[w], i);
  }

  lemma {:induction false} NoLonger(before: seq<byte>, a: seq<byte>, b: seq<byte>, rs: seq<Request>, len: seq<nat>)
    requires Laid(before, a, rs, len, len) && Laid(before, b, rs, len, len)
    ensures |a| <= |b|
  {
    if |a| > |before| {
      var w := Touched(rs, len, |a| - 1);
      assert Keeps(b, rs[w], len[w]);
    }
  }

  // When exactly the tried bytes are kept, the object is determined.
  lemma {:induction false} LaidIsUnique(before: seq<byte>, a: seq<byte>, b: seq<byte>, rs: seq<Request>, len: seq<nat>)
    requires Laid(before, a, rs, len, len) && Laid(before, b, rs, len, len)
    ensures a == b
  {
    NoLonger(before, a, b, rs, len);
    NoLonger(before, b, a, rs, len);
    forall i | 0 <= i < |a|
      ensures a[i] == b[i]
    {
      if !Untouched(rs, len, i) {
        var w := Touched(rs, len, i);
        assert Keeps(a, rs[w], len[w]) && Keeps(b, rs[w], len[w]);
        var p := Start(rs[w]);
        assert a[i] == a[p..p + len[w]][i - p] && b[i] == b[p..p + len[w]][i - p];
      }
    }
  }

  // A write next to the kept bytes of a request extends them.
  lemma {:induction false} KeepsOwn(c: seq<byte>, r: Request, h: nat, l: nat, m: nat)
    requires Keeps(c, r, h) && m <= l && h + l <= |Data(r)|
    ensures Keeps(WriteAt(c, Start(r) + h, Data(r)[h..h + l]), r, h + m)
  {
    hide WriteAt, Start, Data;
    WriteAtBytes(c, Start(r) + h, Data(r)[h..h + l]);
    var c' := WriteAt(c, Start(r) + h, Data(r)[h..h + l]);
    if h + m > 0 {
      assert h > 0 ==> c[Start(r)..Start(r) + h] == Data(r)[..h];
      forall x | 0 <= x < h + m ensures c'[Start(r) + x] == Data(r)[x] {
        assert x < h ==> c[Start(r)..Start(r) + h][x] == Data(r)[..h][x];
      }
    }
  }

  // A write elsewhere leaves them alone.
  lemma {:induction false} KeepsOther(c: seq<byte>, r: Request, k: nat, pos: nat, bytes: seq<byte>)
    requires Keeps(c, r, k) && (k > 0 && bytes != [] ==> pos + |bytes| <= Start(r) || Start(r) + k <= pos)
    ensures Keeps(WriteAt(c, pos, bytes), r, k)
  {
    hide WriteAt, Start, Data;
    WriteAtBytes(c, pos, bytes);
    var c' := WriteAt(c, pos, bytes);
    if k > 0 && bytes != [] {
      assert c'[Start(r)..Start(r) + k] == c[Start(r)..Start(r) + k];
    }
  }

  lemma {:induction false} UntouchedBefore(rs: seq<Request>, tried: seq<nat>, w: nat, n: nat, i: nat)
    requires |tried| == |rs| && w < |rs| && Untouched(rs, tried[w := tried[w] + n], i)
    ensures Untouched(rs, tried, i) && !Covers(rs[w], tried[w] + n, i)
  {
    var tried' := tried[w := tried[w] + n];
    assert !Covers(rs[w], tried'[w], i);
    forall v | 0 <= v < |rs| ensures !Covers(rs[v], tried[v], i) {
      assert !Covers(rs[v], tried'[v], i);
    }
  }

  // The next bytes of a request's data, to be written right after its first h bytes.
  ghost predicate Next(r: Request, h: nat, bytes: seq<byte>) {
    h + |bytes| <= |Data(r)| && bytes == Data(r)[h..h + |bytes|]
  }

  lemma {:induction false} KeepsAfterWrite(c: seq<byte>, r: Request, k: nat, len: nat, q: Request, h: nat, bytes: seq<byte>, n: nat)
    requires Keeps(c, r, k) && k <= len && |bytes| <= n && Apart(r, len, q, h + n)
    ensures Keeps(WriteAt(c, Start(q) + h, bytes), r, k)
  {
    hide Keeps, Start, WriteAt;
    KeepsOther(c, r, k, Start(q) + h, bytes);
  }

  lemma {:induction false} KeptAfterWrite(c: seq<byte>, rs: seq<Request>, kept: seq<nat>, len: seq<nat>,
                                          w: nat, h: nat, bytes: seq<byte>, m: nat, n: nat)
    requires |kept| == |len| == |rs| && Separate(rs, len) && AllKept(c, rs, kept)
    requires forall v :: 0 <= v < |rs| ==> kept[v] <= len[v]
    requires w < |rs| && kept[w] == h && len[w] == h + n && Next(rs[w], h, bytes) && m <= |bytes| <= n
    ensures AllKept(WriteAt(c, Start(rs[w]) + h, bytes), rs, kept[w := h + m])
  {
    hide WriteAt, Keeps, Apart, Start, Data;
    var c', kept' := WriteAt(c, Start(rs[w]) + h, bytes), kept[w := h + m];
    assert Keeps(c, rs[w], kept[w]);
    KeepsOwn(c, rs[w], h, |bytes|, m);
    forall v | 0 <= v < |rs| && v != w
      ensures Keeps(c', rs[v], kept'[v])
    {
      assert Keeps(c, rs[v], kept[v]) && Apart(rs[v], len[v], rs[w], len[w]);
      KeepsAfterWrite(c, rs[v], kept[v], len[v], rs[w], h, bytes, n);
    }
  }

  lemma {:induction false} RestAfterWrite(before: seq<byte>, c: seq<byte>, rs: seq<Request>, tried: seq<nat>,
                                          w: nat, h: nat, bytes: seq<byte>, n: nat)
    requires |tried| == |rs| && |before| <= |c| && RestAsBefore(before, c, rs, tried)
    requires |c| > |before| ==> !Untouched(rs, tried, |c| - 1)
    requires w < |rs| && tried[w] == h && |bytes| <= n
    ensures var c', tried' := WriteAt(c, Start(rs[w]) + h, bytes), tried[w := h + n];
            && |before| <= |c'| && RestAsBefore(before, c', rs, tried')
            && (|c'| > |before| ==> !Untouched(rs, tried', |c'| - 1))
  {
    hide WriteAt, Start, Data, Untouched;
    var r, tried' := rs[w], tried[w := h + n];
    var c' := WriteAt(c, Start(r) + h, bytes);
    WriteAtBytes(c, Start(r) + h, bytes);
    forall i | 0 <= i < |c'| && Untouched(rs, tried', i)
      ensures c'[i] == ByteAt(before, i) && Untouched(rs, tried, i) && !Covers(r, h + n, i)
    {
      UntouchedBefore(rs, tried, w, n, i);
    }
  }

  // Writing further bytes of request w: n are tried, the given ones arrive and the
  // first m are vouched for.
  lemma {:induction false} LaidWrite(before: seq<byte>, c: seq<byte>, rs: seq<Request>, kept: seq<nat>, tried: seq<nat>,
                                     w: nat, h: nat, bytes: seq<byte>, m: nat, n: nat)
    requires Laid(before, c, rs, kept, tried) && w < |rs| && kept[w] == tried[w] == h
    requires Separate(rs, tried[w := h + n])
    requires Next(rs[w], h, bytes) && m <= |bytes| <= n && h + n <= |Data(rs[w])|
    ensures Laid(before, WriteAt(c, Start(rs[w]) + h, bytes), rs, kept[w := h + m], tried[w := h + n])
  {
    hide WriteAt, Keeps, AllKept, RestAsBefore, Untouched, Separate, Next, Start, Data;
    KeptAfterWrite(c, rs, kept, tried[w := h + n], w, h, bytes, m, n);
    RestAfterWrite(before, c, rs, tried, w, h, bytes, n);
  }

  // ---------------------------------------------------------------- one after the other

  // The object after the requests marked in ok are written in order, each at one stroke.
  function OneByOne(before: seq<byte>, rs: seq<Request>, ok: seq<bool>, m: nat): seq<byte>
    requires m <= |rs| == |ok|
  {
    if m == 0 then before
    else
      var c := OneByOne(before, rs, ok, m - 1);
      if ok[m - 1] then WriteAt(c, Start(rs[m - 1]), Data(rs[m - 1])) else c
  }

  function Lengths(rs: seq<Request>, ok: seq<bool>, m: nat): (len: seq<nat>)
    requires m <= |rs| == |ok|
    ensures |len| == |rs|
    ensures forall w :: 0 <= w < |rs| ==> len[w] == if w < m && ok[w] then |Data(rs[w])| else 0
  {
    seq(|rs|, w requires 0 <= w < |rs| => if w < m && ok[w] then |Data(rs[w])| else 0)
  }

  lemma {:induction false} NothingLaid(before: seq<byte>, rs: seq<Request>, len: seq<nat>)
    requires |len| == |rs| && forall w :: 0 <= w < |rs| ==> len[w] == 0
    ensures Laid(before, before, rs, len, len)
  {
    hide Start, Data, Transfers;
    assert AllKept(before, rs, len);
  }

  lemma {:induction false} OneByOneIsLaid(before: seq<byte>, rs: seq<Request>, ok: seq<bool>, m: nat)
    requires m <= |rs| == |ok| && Separate(rs, Lengths(rs, ok, m))
    ensures Laid(before, OneByOne(before, rs, ok, m), rs, Lengths(rs, ok, m), Lengths(rs, ok, m))
  {
    hide Laid, Separate, WriteAt, Start, Data;
    if m == 0 {
      NothingLaid(before, rs, Lengths(rs, ok, 0));
    } else {
      SeparateBefore(rs, Lengths(rs, ok, m - 1), Lengths(rs, ok, m));
      OneByOneIsLaid(before, rs, ok, m - 1);
      var w, c, len := m - 1, OneByOne(before, rs, ok, m - 1), Lengths(rs, ok, m - 1);
      var d := Data(rs[w]);
      if ok[w] {
        assert Next(rs[w], 0, d);
        assert len[w := 0 + |d|] == Lengths(rs, ok, m);
        LaidWrite(before, c, rs, len, len, w, 0, d, |d|, |d|);
      } else {
        assert len == Lengths(rs, ok, m);
      }
    }
  }
}
