// Reading a range of a data object: op_read and incremental_read.

module DataObjectRead {
  import opened Basics
  import CW = ChunkedWrite

  // A numeric request parameter.
  datatype Param =
    | Absent
    | Malformed
    | Given(value: int)

  datatype Response =
    | BadRequest
    | ServerError
    | Whole(bytes: seq<byte>)
      // A chunked response; terminated tells whether the last chunk was sent.
    | Chunked(pieces: seq<seq<byte>>, terminated: bool)

  // The bytes of the range that was asked for, cut off at the end of the object.
  function Slice(content: seq<byte>, offset: nat, count: Option<nat>): (r: seq<byte>)
    requires offset <= |content|
    ensures |r| == if count.Some? then Min(count.value, |content| - offset) else |content| - offset
    ensures r <= content[offset..]
  {
    match count
    case None => content[offset..]
    case Some(n) => content[offset..offset + Min(n, |content| - offset)]
  }

  // What a complete response delivers to the client.
  function Delivered(r: Response): Option<seq<byte>> {
    match r
    case Whole(bytes) => Some(bytes)
    case Chunked(pieces, true) => Some(CW.Flatten(pieces))
    case _ => None
  }

  predicate GoodPieces(pieces: seq<seq<byte>>, bufferSize: nat) {
    forall i :: 0 <= i < |pieces| ==> 1 <= |pieces[i]| <= bufferSize
  }

  // A read of n bytes at pos. Reading past the end sets the fail bit, as does a fault.
  function ReadFails(content: seq<byte>, pos: nat, n: nat, fault: bool): bool {
    fault || pos + n > |content|
  }

  // The pieces sent so far are the bytes from start up to at.
  ghost predicate SentUpTo(content: seq<byte>, start: nat, at: nat, sent: seq<seq<byte>>) {
    if sent == [] then at == start
    else start <= at <= |content| && CW.Flatten(sent) == content[start..at]
  }

  lemma {:induction false} NextPieceSent(content: seq<byte>, start: nat, at: nat, sent: seq<seq<byte>>, to: nat)
    requires SentUpTo(content, start, at, sent) && at <= to <= |content|
    ensures SentUpTo(content, start, to, sent + [content[at..to]])
  {
    CW.FlattenAppend(sent, [content[at..to]]);
    assert CW.Flatten([content[at..to]]) == content[at..to] + [];
    assert start <= at && content[start..at] + content[at..to] == content[start..to];
  }

  class IncrementalRead {
    const content: seq<byte>
    const bufferSize: nat
    var pos: nat
    var remaining: nat
    var sent: seq<seq<byte>>
    var stopped: bool
    var terminated: bool

    constructor (content: seq<byte>, bufferSize: nat, pos: nat, remaining: nat)
      ensures this.content == content && this.bufferSize == bufferSize
      ensures this.pos == pos && this.remaining == remaining && sent == [] && !stopped && !terminated
    {
      this.content := content;
      this.bufferSize := bufferSize;
      this.pos := pos;
      this.remaining := remaining;
      sent := [];
      stopped := false;
      terminated := false;
    }

    // One background task: read a piece and hand it to the socket, or end the response.
    method RunTask(fault: bool)
      requires bufferSize >= 1 && !stopped
      modifies this
      ensures var n := Min(bufferSize, old(remaining));
        if ReadFails(content, old(pos), n, fault) then
          stopped && terminated == old(terminated) && sent == old(sent) && pos == old(pos) && remaining == old(remaining)
        else if old(remaining) == 0 then
          stopped && terminated && sent == old(sent) && pos == old(pos) && remaining == 0
        else
          && !stopped && terminated == old(terminated)
          && sent == old(sent) + [content[old(pos)..old(pos) + n]]
          && pos == old(pos) + n && remaining == old(remaining) - n
    {
      var n := Min(bufferSize, remaining);
      if ReadFails(content, pos, n, fault) {
        stopped := true;
        return;
      }
      if remaining == 0 {
        terminated := true;
        stopped := true;
        return;
      }
      sent := sent + [content[pos..pos + n]];
      pos := pos + n;
      remaining := remaining - n;
    }

    // All tasks of one response. A response that is terminated is complete; one that
    // is not has delivered a part of the range from its start, and stopped at a failed
    // read.
    method Run(faults: nat -> bool)
      requires bufferSize >= 1 && !stopped && !terminated && sent == []
      modifies this
      ensures GoodPieces(sent, bufferSize)
      ensures terminated ==>
                && old(pos) + old(remaining) <= |content|
                && CW.Flatten(sent) == content[old(pos)..old(pos) + old(remaining)]
      ensures |CW.Flatten(sent)| <= old(remaining)
      ensures sent != [] ==> old(pos) + |CW.Flatten(sent)| <= |content|
                             && CW.Flatten(sent) == content[old(pos)..old(pos) + |CW.Flatten(sent)|]
      ensures !terminated ==>
                || (exists i :: 0 <= i <= |sent| && faults(i))
                || old(pos) + old(remaining) > |content|
      ensures (forall i :: 0 <= i <= |sent| ==> !faults(i)) && old(pos) + old(remaining) <= |content| ==> terminated
      ensures terminated ==> forall i :: 0 <= i <= |sent| ==> !faults(i)
    {
      hide CW.Flatten;
      CW.FlattenNothing();
      var task := 0;
      while !stopped
        invariant GoodPieces(sent, bufferSize)
        invariant pos + remaining == old(pos) + old(remaining) && pos >= old(pos)
        invariant SentUpTo(content, old(pos), pos, sent)
        invariant !stopped ==> |sent| == task && !terminated
        invariant forall i :: 0 <= i < task && i < |sent| ==> !faults(i)
        invariant stopped && terminated ==> forall i :: 0 <= i <= |sent| ==> !faults(i)
        invariant stopped && terminated ==> remaining == 0 && pos <= |content|
        invariant stopped && !terminated ==> faults(|sent|) || old(pos) + old(remaining) > |content|
        decreases !stopped, remaining
      {
        ghost var before, at := sent, pos;
        RunTask(faults(task));
        if sent != before {
          NextPieceSent(content, old(pos), at, before, pos);
        }
        task := task + 1;
      }
    }
  }

  // offset and count are numbers, and neither is negative.
  predicate GoodRange(offset: Param, count: Param) {
    && !offset.Malformed? && !count.Malformed?
    && (offset.Given? ==> offset.value >= 0) && (count.Given? ==> count.value >= 0)
  }

  function OffsetOf(offset: Param): int {
    if offset.Given? then offset.value else 0
  }

  // The number of bytes to read; negative if the range starts beyond the end of the object.
  function CountOf(content: seq<byte>, offset: Param, count: Param): int {
    var available := |content| - OffsetOf(offset);
    if count.Given? then Min(count.value, available) else available
  }

  // How the calls before the first read end: the dedicated connection for a range that
  // does not fit the buffer, the open and the seek.
  datatype Setup = Setup(connects: bool, opens: bool, seeks: bool)

  // op_read after the path is known to name a data object. replica is the replica-number
  // parameter, Absent if there is none or a resource is named. faults tells which reads
  // fail.
  method Read(content: seq<byte>, offset: Param, count: Param, replica: Param, bufferSize: nat, setup: Setup,
              faults: nat -> bool)
      returns (r: Response)
    requires bufferSize >= 1
    // Refused: a bad range, or, unless the dedicated connection failed before that, a
    // bad replica number or a failed open.
    ensures r.BadRequest? <==>
      || !GoodRange(offset, count)
      || ((CountOf(content, offset, count) > bufferSize ==> setup.connects) && (replica.Malformed? || !setup.opens))
    // The range lies beyond the end of the object: no bytes, not even an empty answer.
    ensures !r.BadRequest? && OffsetOf(offset) > |content| ==> r.ServerError?
    // Whatever is delivered as complete is exactly the range, whatever the buffer size.
    ensures Delivered(r).Some? ==>
      && GoodRange(offset, count) && OffsetOf(offset) <= |content|
      && Delivered(r).value == Slice(content, OffsetOf(offset), if count.Given? then Some(count.value) else None)
    // No failed call is passed over: neither a failed open or seek, nor a failed read.
    ensures Delivered(r).Some? ==> setup.opens && (OffsetOf(offset) > 0 ==> setup.seeks)
    ensures r.Whole? ==> !faults(0)
    ensures r.Chunked? ==> setup.connects && (r.terminated ==> forall i :: 0 <= i <= |r.pieces| ==> !faults(i))
    // An error of the server has one of these causes.
    ensures r.ServerError? ==>
      || OffsetOf(offset) > |content|
      || (CountOf(content, offset, count) > bufferSize && !setup.connects)
      || (OffsetOf(offset) > 0 && !setup.seeks)
      || (CountOf(content, offset, count) <= bufferSize && faults(0))
    // Without failures, every good range that starts within the object is delivered.
    ensures !r.BadRequest? && OffsetOf(offset) <= |content| && setup.connects && setup.seeks && (forall i :: !faults(i)) ==>
      Delivered(r).Some?
    // Chunks are used exactly for ranges that do not fit the buffer.
    ensures r.Whole? ==> CountOf(content, offset, count) <= bufferSize
    ensures r.Chunked? ==> GoodPieces(r.pieces, bufferSize) && CountOf(content, offset, count) > bufferSize
  {
    hide CW.Flatten;
    var o := 0;
    if offset.Malformed? {
      return BadRequest;
    }
    if offset.Given? {
      o := offset.value;
      if o < 0 {
        return BadRequest;
      }
    }
    var n := |content| - o;
    if count.Malformed? {
      return BadRequest;
    }
    if count.Given? {
      n := count.value;
      if n < 0 {
        return BadRequest;
      }
      var available := |content| - o;
      if n > available {
        n := available;
      }
    }
    if n > bufferSize && !setup.connects {
      return ServerError;
    }
    if replica.Malformed? {
      return BadRequest;
    }
    if !setup.opens {
      return BadRequest;
    }
    if o > 0 && !setup.seeks {
      return ServerError;
    }
    if n > bufferSize {
      var reader := new IncrementalRead(content, bufferSize, o, n);
      reader.Run(faults);
      return Chunked(reader.sent, reader.terminated);
    }
    // A buffer of negative size cannot be allocated.
    if n < 0 {
      return ServerError;
    }
    if ReadFails(content, o, n, faults(0)) {
      return ServerError;
    }
    r := Whole(content[o..o + n]);
  }
}
