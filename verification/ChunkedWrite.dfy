// Writing a request body to a data object in pieces.
//
// incremental_write cuts a body it holds in memory into pieces of a configured
// size; streaming_write passes on the pieces that the socket delivers. Both test
// the stream before each piece and never after the last one.

module ChunkedWrite {
  import opened Basics
  import opened DataObject

  // What the server makes of one write call: it takes the whole piece, or a prefix of
  // it lands and the stream goes bad, or the call throws.
  datatype Outcome =
    | Accepted
    | Refused(landed: nat)
    | Threw(landed: nat)

  datatype Reply =
    | Success
    | StreamInBadState
    | ExceptionCaught
    | SocketFailed

  // The object, the stream's put position and state, and all bytes handed to the stream so far.
  datatype Transfer = Transfer(content: seq<byte>, pos: nat, good: bool, handed: seq<byte>)

  // The bytes of a piece that reach the object.
  function Landed(piece: seq<byte>, o: Outcome): seq<byte> {
    if o.Accepted? then piece else piece[..Min(|piece|, o.landed)]
  }

  // A call that fails, in either way, may leave any prefix of the piece in the object.
  lemma {:induction false} AnyPrefixCanLand(piece: seq<byte>, n: nat)
    requires n <= |piece|
    ensures Landed(piece, Refused(n)) == Landed(piece, Threw(n)) == piece[..n] && Landed(piece, Accepted) == piece
  {
  }

  function Put(t: Transfer, piece: seq<byte>, o: Outcome): Transfer {
    var bytes := Landed(piece, o);
    Transfer(WriteAt(t.content, t.pos, bytes), t.pos + |bytes|, t.good && o.Accepted?, t.handed + piece)
  }

  function First(os: seq<Outcome>): Outcome {
    if os == [] then Accepted else os[0]
  }

  function Rest(os: seq<Outcome>): seq<Outcome> {
    if os == [] then [] else os[1..]
  }

  function Nth(os: seq<Outcome>, i: nat): Outcome {
    if i < |os| then os[i] else Accepted
  }

  // A whole run over the given pieces. Outcomes beyond the end of os are Accepted.
  function Run(t: Transfer, pieces: seq<seq<byte>>, os: seq<Outcome>): (Transfer, Reply)
    decreases |pieces|
  {
    if pieces == [] then (t, Success)
    else if !t.good then (t, StreamInBadState)
    else
      var t' := Put(t, pieces[0], First(os));
      if First(os).Threw? then (t', ExceptionCaught) else Run(t', pieces[1..], Rest(os))
  }

  function Flatten(pieces: seq<seq<byte>>): seq<byte> {
    if pieces == [] then [] else pieces[0] + Flatten(pieces[1..])
  }

  // The pieces that incremental_write makes of a body.
  function Chunks(body: seq<byte>, limit: nat): (pieces: seq<seq<byte>>)
    requires limit >= 1
    ensures Flatten(pieces) == body
    ensures forall i :: 0 <= i < |pieces| ==> 1 <= |pieces[i]| <= limit
  {
    if body == [] then []
    else
      var n := Min(|body|, limit);
      [body[..n]] + Chunks(body[n..], limit)
  }

  // What one background task of incremental_write leads to: another task that goes on
  // at a later byte of the buffer, or a reply.
  datatype TaskEnd =
    | Posted(t: Transfer, at: nat)
    | Replied(t: Transfer, reply: Reply)

  function Task(t: Transfer, buffer: seq<byte>, at: nat, limit: nat, o: Outcome): (e: TaskEnd)
    requires limit >= 1 && at <= |buffer|
    ensures e.Posted? ==> at < e.at <= |buffer|
  {
    if at == |buffer| then Replied(t, Success)
    else if !t.good then Replied(t, StreamInBadState)
    else
      var n := Min(|buffer| - at, limit);
      var t' := Put(t, buffer[at..at + n], o);
      if o.Threw? then Replied(t', ExceptionCaught) else Posted(t', at + n)
  }

  // A run over the chunks of the rest of the buffer.
  function RunFrom(t: Transfer, buffer: seq<byte>, at: nat, limit: nat, os: seq<Outcome>): (Transfer, Reply)
    requires limit >= 1 && at <= |buffer|
  {
    Run(t, Chunks(buffer[at..], limit), os)
  }

  lemma {:induction false} RunOneTask(t: Transfer, buffer: seq<byte>, at: nat, limit: nat, os: seq<Outcome>)
    requires limit >= 1 && at <= |buffer|
    ensures RunFrom(t, buffer, at, limit, os) ==
            match Task(t, buffer, at, limit, First(os))
            case Posted(t', at') => RunFrom(t', buffer, at', limit, Rest(os))
            case Replied(t', reply) => (t', reply)
  {
    if at < |buffer| {
      var left, n := buffer[at..], Min(|buffer| - at, limit);
      assert left[..n] == buffer[at..at + n] && left[n..] == buffer[at + n..];
      assert Chunks(left, limit)[1..] == Chunks(left[n..], limit);
    }
  }

  lemma {:induction false} FlattenNothing()
    ensures Flatten([]) == []
  {
  }

  lemma {:induction false} FlattenAppend(a: seq<seq<byte>>, b: seq<seq<byte>>)
    ensures Flatten(a + b) == Flatten(a) + Flatten(b)
  {
    if a == [] {
      assert a + b == b;
    } else {
      assert (a + b)[1..] == a[1..] + b;
      FlattenAppend(a[1..], b);
    }
  }

  lemma {:induction false} ProductStep(k: nat, limit: nat)
    requires k >= 1
    ensures k * limit == (k - 1) * limit + limit && (k - 1) * limit >= 0
  {
  }

  // The first k chunks are the first k * limit bytes, or the whole body.
  lemma {:induction false} FirstChunks(body: seq<byte>, limit: nat, k: nat)
    requires limit >= 1 && k <= |Chunks(body, limit)|
    ensures k * limit < |body| ==> Flatten(Chunks(body, limit)[..k]) == body[..k * limit]
    ensures k * limit >= |body| ==> k == |Chunks(body, limit)| && Flatten(Chunks(body, limit)[..k]) == body
  {
    var cs := Chunks(body, limit);
    if k == 0 {
    } else {
      var n := Min(|body|, limit);
      var rest, m := body[n..], (k - 1) * limit;
      FirstChunks(rest, limit, k - 1);
      assert cs[..k][1..] == Chunks(rest, limit)[..k - 1];
      ProductStep(k, limit);
      assert body == body[..n] + rest;
      assert m + n < |body| ==> body[..n] + rest[..m] == body[..m + n];
    }
  }

  // ---------------------------------------------------------------- all the ways a run can end

  // The first k calls succeed.
  ghost predicate Fine(os: seq<Outcome>, k: nat) {
    forall i :: 0 <= i < k ==> Nth(os, i).Accepted?
  }

  lemma {:induction false} RestIsFine(os: seq<Outcome>, k: nat)
    requires Fine(os, k + 1)
    ensures Fine(Rest(os), k)
  {
    forall i | 0 <= i < k ensures Nth(Rest(os), i).Accepted? {
      assert Nth(Rest(os), i) == Nth(os, i + 1);
    }
  }

  // No call fails: the whole body is written in one stroke.
  lemma {:induction false} RunWithoutFailure(t: Transfer, pieces: seq<seq<byte>>, os: seq<Outcome>)
    requires t.good && Fine(os, |pieces|)
    ensures Run(t, pieces, os) ==
            (Transfer(WriteAt(t.content, t.pos, Flatten(pieces)), t.pos + |Flatten(pieces)|, true,
                      t.handed + Flatten(pieces)),
             Success)
    decreases |pieces|
  {
    hide WriteAt;
    if pieces == [] {
      WriteAtNothing(t.content, t.pos);
      assert t.handed + [] == t.handed;
    } else {
      assert Nth(os, 0).Accepted?;
      RestIsFine(os, |pieces| - 1);
      var t' := Put(t, pieces[0], First(os));
      RunWithoutFailure(t', pieces[1..], Rest(os));
      WriteAtAppend(t.content, t.pos, pieces[0], Flatten(pieces[1..]));
      assert t.handed + pieces[0] + Flatten(pieces[1..]) == t.handed + Flatten(pieces);
    }
  }

  // Where a run ends whose call number f is the first to fail.
  function FailedAt(t: Transfer, pieces: seq<seq<byte>>, os: seq<Outcome>, f: nat): (Transfer, Reply)
    requires f < |pieces|
  {
    var written := Flatten(pieces[..f]) + Landed(pieces[f], Nth(os, f));
    (Transfer(WriteAt(t.content, t.pos, written), t.pos + |written|, false, t.handed + Flatten(pieces[..f + 1])),
     if Nth(os, f).Threw? then ExceptionCaught else if f == |pieces| - 1 then Success else StreamInBadState)
  }

  lemma {:induction false} FailedAtFirst(t: Transfer, pieces: seq<seq<byte>>, os: seq<Outcome>)
    requires t.good && pieces != [] && !Nth(os, 0).Accepted?
    ensures Run(t, pieces, os) == FailedAt(t, pieces, os, 0)
  {
    var t' := Put(t, pieces[0], First(os));
    assert First(os) == Nth(os, 0);
    assert Run(t', pieces[1..], Rest(os)) == (t', if |pieces| == 1 then Success else StreamInBadState);
    assert pieces[..0 + 1] == [pieces[0]];
    assert Flatten([pieces[0]]) == pieces[0] + [] == pieces[0];
    assert Flatten(pieces[..0]) + Landed(pieces[0], Nth(os, 0)) == Landed(pieces[0], Nth(os, 0));
  }

  lemma {:induction false} FailedAtLater(t: Transfer, pieces: seq<seq<byte>>, os: seq<Outcome>, f: nat)
    requires pieces != [] && 1 <= f < |pieces| && Nth(os, 0).Accepted?
    ensures FailedAt(t, pieces, os, f) == FailedAt(Put(t, pieces[0], Accepted), pieces[1..], Rest(os), f - 1)
  {
    var later := Flatten(pieces[1..][..f - 1]) + Landed(pieces[f], Nth(os, f));
    assert pieces[..f][1..] == pieces[1..][..f - 1];
    assert pieces[..f + 1][1..] == pieces[1..][..f];
    assert Nth(Rest(os), f - 1) == Nth(os, f);
    assert pieces[0] + later == Flatten(pieces[..f]) + Landed(pieces[f], Nth(os, f));
    WriteAtAppend(t.content, t.pos, pieces[0], later);
    assert t.handed + pieces[0] + Flatten(pieces[1..][..f]) == t.handed + Flatten(pieces[..f + 1]);
  }

  // Call number f is the first to fail: everything before it is written, a prefix of
  // its own piece lands, nothing after it is tried, and the reply depends on whether
  // a later piece is there to notice.
  lemma {:induction false} RunWithFailure(t: Transfer, pieces: seq<seq<byte>>, os: seq<Outcome>, f: nat)
    requires t.good && f < |pieces| && Fine(os, f) && !Nth(os, f).Accepted?
    ensures Run(t, pieces, os) == FailedAt(t, pieces, os, f)
    decreases |pieces|
  {
    if f == 0 {
      FailedAtFirst(t, pieces, os);
    } else {
      assert First(os) == Nth(os, 0) && Nth(os, 0).Accepted?;
      RestIsFine(os, f - 1);
      assert Nth(Rest(os), f - 1) == Nth(os, f);
      RunWithFailure(Put(t, pieces[0], Accepted), pieces[1..], Rest(os), f - 1);
      FailedAtLater(t, pieces, os, f);
    }
  }

  // Every run either has no failing call or has a first one.
  lemma {:induction false} FirstFailure(os: seq<Outcome>, n: nat) returns (f: nat)
    ensures f <= n && Fine(os, f) && (f < n ==> !Nth(os, f).Accepted?)
  {
    if n == 0 {
      f := 0;
    } else {
      f := FirstFailure(os, n - 1);
      if f == n - 1 && Nth(os, f).Accepted? {
        f := n;
      }
    }
  }

  // ---------------------------------------------------------------- what the replies mean

  // The state of the stream just before piece i, as the code tests it.
  ghost predicate GoodBefore(t: Transfer, os: seq<Outcome>, i: nat) {
    t.good && Fine(os, i)
  }

  // Without exceptions, the bad-stream reply is given exactly when the stream was bad
  // before some piece.
  lemma {:induction false} BadStateReplyIff(t: Transfer, pieces: seq<seq<byte>>, os: seq<Outcome>)
    requires forall i :: 0 <= i < |pieces| ==> !Nth(os, i).Threw?
    ensures Run(t, pieces, os).1 == StreamInBadState <==>
            exists i :: 0 <= i < |pieces| && !GoodBefore(t, os, i)
  {
    if t.good {
      var f := FirstFailure(os, |pieces|);
      if f == |pieces| {
        RunWithoutFailure(t, pieces, os);
      } else {
        RunWithFailure(t, pieces, os, f);
        if f < |pieces| - 1 {
          assert !GoodBefore(t, os, f + 1);
        }
      }
    } else if pieces != [] {
      assert !GoodBefore(t, os, 0);
    }
  }

  // A success reply vouches for every piece but the last one, of which a prefix has
  // landed. All of it has if the stream is still good afterwards, which the code does
  // not test.
  lemma {:induction false} SuccessReplyMeans(t: Transfer, pieces: seq<seq<byte>>, os: seq<Outcome>)
    requires pieces != [] && Run(t, pieces, os).1 == Success
    ensures var r, n := Run(t, pieces, os).0, |pieces| - 1;
            && r.handed == t.handed + Flatten(pieces)
            && r.content == WriteAt(t.content, t.pos, Flatten(pieces[..n]) + Landed(pieces[n], Nth(os, n)))
            && (r.good <==> Nth(os, n).Accepted?)
            && (r.good ==> r.content == WriteAt(t.content, t.pos, Flatten(pieces)))
  {
    var n := |pieces| - 1;
    var f := FirstFailure(os, |pieces|);
    LastPiece(pieces);
    if f == |pieces| {
      RunWithoutFailure(t, pieces, os);
      assert Nth(os, n).Accepted? && Landed(pieces[n], Nth(os, n)) == pieces[n];
    } else {
      RunWithFailure(t, pieces, os, f);
      assert f == n && pieces[..f + 1] == pieces;
    }
  }

  lemma {:induction false} LastPiece(pieces: seq<seq<byte>>)
    requires pieces != []
    ensures Flatten(pieces) == Flatten(pieces[..|pieces| - 1]) + pieces[|pieces| - 1]
  {
    var n := |pieces| - 1;
    FlattenAppend(pieces[..n], [pieces[n]]);
    assert pieces == pieces[..n] + [pieces[n]];
    assert Flatten([pieces[n]]) == pieces[n] + [];
  }

  // The gap is real for every non-empty body: refusing its last piece goes unnoticed,
  // and an object that does not reach the end of the range yet stays too short.
  lemma {:induction false} LastPieceLostUnnoticed(t: Transfer, body: seq<byte>, limit: nat, os: seq<Outcome>)
    requires t.good && body != [] && limit >= 1
    requires Fine(os, |Chunks(body, limit)| - 1) && Nth(os, |Chunks(body, limit)| - 1) == Refused(0)
    ensures Run(t, Chunks(body, limit), os).1 == Success
    ensures exists k :: 0 <= k < |body| && Run(t, Chunks(body, limit), os).0.content == WriteAt(t.content, t.pos, body[..k])
    ensures |t.content| < t.pos + |body| ==>
              |Run(t, Chunks(body, limit), os).0.content| < |WriteAt(t.content, t.pos, body)|
  {
    hide WriteAt;
    var cs := Chunks(body, limit);
    var n := |cs| - 1;
    RunWithFailure(t, cs, os, n);
    LastPiece(cs);
    var k := |Flatten(cs[..n])|;
    assert Flatten(cs[..n]) + Landed(cs[n], Nth(os, n)) == body[..k];
    WriteAtBytes(t.content, t.pos, body[..k]);
    WriteAtBytes(t.content, t.pos, body);
  }

  // On a stream that is good at first, a success reply means that the body is written.
  ghost predicate SuccessMeansWritten(t: Transfer, body: seq<byte>, limit: nat, os: seq<Outcome>)
    requires limit >= 1
  {
    t.good && Run(t, Chunks(body, limit), os).1 == Success ==>
      Run(t, Chunks(body, limit), os).0.content == WriteAt(t.content, t.pos, body)
  }

  // It does for every object, position and pattern of failures exactly when there is
  // nothing to write.
  lemma {:induction false} SuccessMeansWrittenIffEmpty(body: seq<byte>, limit: nat)
    requires limit >= 1
    ensures (forall t, os :: SuccessMeansWritten(t, body, limit, os)) <==> body == []
  {
    hide WriteAt;
    if body == [] {
      forall t: Transfer, os ensures SuccessMeansWritten(t, body, limit, os) {
        WriteAtNothing(t.content, t.pos);
      }
    } else {
      var t, n := Transfer([], 0, true, []), |Chunks(body, limit)| - 1;
      var os := LastRefused(n);
      LastPieceLostUnnoticed(t, body, limit, os);
      assert !SuccessMeansWritten(t, body, limit, os);
    }
  }

  function LastRefused(n: nat): (os: seq<Outcome>)
    ensures |os| == n + 1 && os[n] == Refused(0) && forall i :: 0 <= i < n ==> os[i] == Accepted
  {
    seq(n + 1, i => if i < n then Accepted else Refused(0))
  }

  // The first k chunks of a body are all of it or its first k * limit bytes.
  ghost predicate WholeChunks(handed: seq<byte>, body: seq<byte>, limit: nat) {
    handed == body || exists k: nat :: k * limit < |body| && handed == body[..k * limit]
  }

  // What incremental_write hands to the stream is the whole body or a whole number of
  // chunks of it, however its calls fail.
  lemma {:induction false} HandedIsWholeChunks(t: Transfer, body: seq<byte>, limit: nat, os: seq<Outcome>)
    requires limit >= 1 && t.handed == []
    ensures WholeChunks(Run(t, Chunks(body, limit), os).0.handed, body, limit)
  {
    var cs := Chunks(body, limit);
    if t.good {
      var f := FirstFailure(os, |cs|);
      if f == |cs| {
        RunWithoutFailure(t, cs, os);
        assert [] + body == body;
      } else {
        RunWithFailure(t, cs, os, f);
        FirstChunks(body, limit, f + 1);
        assert [] + Flatten(cs[..f + 1]) == Flatten(cs[..f + 1]);
      }
    } else if body != [] {
      assert 0 * limit == 0 && body[..0 * limit] == [];
    }
  }

  // However the socket cuts the body, a run without failures leaves the same object,
  // position and reply as writing the body from memory.
  lemma {:induction false} StreamingRefinesBuffered(t: Transfer, body: seq<byte>, limit: nat, fragments: seq<seq<byte>>,
                                 os: seq<Outcome>, os': seq<Outcome>)
    requires t.good && limit >= 1 && Flatten(fragments) == body
    requires Fine(os, |fragments|) && Fine(os', |Chunks(body, limit)|)
    ensures Run(t, fragments, os) == Run(t, Chunks(body, limit), os')
  {
    RunWithoutFailure(t, fragments, os);
    RunWithoutFailure(t, Chunks(body, limit), os');
  }
}
