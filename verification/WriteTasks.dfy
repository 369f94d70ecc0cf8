// The two writers as the objects they are: each background task moves the read
// position, hands one piece to the stream and posts the next task, until a reply is
// sent. Both are proved against ChunkedWrite.Run.

module WriteTasks {
  import opened Basics
  import opened DataObject
  import CW = ChunkedWrite

  class Target {
    var content: seq<byte>

    constructor (content: seq<byte>)
      ensures this.content == content
    {
      this.content := content;
    }
  }

  // An odstream: handed records every byte passed to write.
  class OutputStream {
    const target: Target
    var pos: nat
    var good: bool
    var handed: seq<byte>

    constructor (target: Target, pos: nat)
      ensures this.target == target && this.pos == pos && good && handed == []
    {
      this.target := target;
      this.pos := pos;
      good := true;
      handed := [];
    }

    function View(): CW.Transfer
      reads this, target
    {
      CW.Transfer(target.content, pos, good, handed)
    }

    method Write(piece: seq<byte>, o: CW.Outcome) returns (threw: bool)
      modifies this, target
      ensures View() == CW.Put(old(View()), piece, o)
      ensures threw <==> o.Threw?
    {
      var bytes := CW.Landed(piece, o);
      target.content := WriteAt(target.content, pos, bytes);
      pos := pos + |bytes|;
      good := good && o.Accepted?;
      handed := handed + piece;
      threw := o.Threw?;
    }
  }

  class IncrementalWrite {
    const out: OutputStream
    const buffer: seq<byte>
    const limit: nat
    var readPos: nat
    var remaining: nat
    var reply: Option<CW.Reply>

    constructor (out: OutputStream, buffer: seq<byte>, limit: nat)
      requires limit >= 1
      ensures Valid() && this.out == out && this.buffer == buffer && this.limit == limit
      ensures readPos == 0 && reply == None
    {
      this.out := out;
      this.buffer := buffer;
      this.limit := limit;
      readPos := 0;
      remaining := |buffer|;
      reply := None;
    }

    predicate Valid()
      reads this
    {
      limit >= 1 && readPos + remaining == |buffer|
    }

    // One background task. It either replies or leaves the next task to be posted.
    method RunTask(o: CW.Outcome)
      requires Valid() && reply == None
      modifies this, out, out.target
      ensures Valid()
      ensures match CW.Task(old(out.View()), buffer, old(readPos), limit, o)
              case Posted(t, at) => out.View() == t && readPos == at && reply == None
              case Replied(t, answer) => out.View() == t && reply == Some(answer)
    {
      hide CW.Put, CW.Landed, WriteAt;
      if remaining > 0 {
        if !out.good {
          reply := Some(CW.StreamInBadState);
          return;
        }
        var toSend := Min(remaining, limit);
        var threw := out.Write(buffer[readPos..readPos + toSend], o);
        if threw {
          reply := Some(CW.ExceptionCaught);
          return;
        }
        readPos := readPos + toSend;
        remaining := remaining - toSend;
        return;
      }
      reply := Some(CW.Success);
    }

    // All tasks of one request, the i-th write call ending as os says.
    method Run(os: seq<CW.Outcome>) returns (r: CW.Reply)
      requires Valid() && readPos == 0 && reply == None
      modifies this, out, out.target
      ensures (out.View(), r) == CW.Run(old(out.View()), CW.Chunks(buffer, limit), os)
      ensures reply == Some(r)
    {
      var rest := os;
      ghost var whole := CW.RunFrom(out.View(), buffer, 0, limit, os);
      assert buffer[0..] == buffer;
      while reply == None
        invariant Valid()
        invariant reply == None ==> CW.RunFrom(out.View(), buffer, readPos, limit, rest) == whole
        invariant reply.Some? ==> (out.View(), reply.value) == whole
        decreases reply == None, remaining
      {
        CW.RunOneTask(out.View(), buffer, readPos, limit, rest);
        RunTask(CW.First(rest));
        rest := CW.Rest(rest);
      }
      r := reply.value;
    }
  }

  class StreamingWrite {
    const out: OutputStream
    const buffer: array<byte>
    var bodySize: nat
    var reply: Option<CW.Reply>

    constructor (out: OutputStream, limit: nat)
      ensures this.out == out && fresh(buffer) && buffer.Length == limit && reply == None
    {
      this.out := out;
      buffer := new byte[limit](_ => 0);
      bodySize := 0;
      reply := None;
    }

    // The parser copies a piece of the body into the buffer and leaves in bodySize
    // the room that is left.
    method ReadFromClient(fragment: seq<byte>)
      requires |fragment| <= buffer.Length
      modifies this`bodySize, buffer
      ensures bodySize == buffer.Length - |fragment| && buffer[..|fragment|] == fragment
    {
      for i := 0 to |fragment|
        invariant forall j :: 0 <= j < i ==> buffer[j] == fragment[j]
      {
        buffer[i] := fragment[i];
      }
      bodySize := buffer.Length - |fragment|;
    }

    // The background task that passes the buffer on.
    method WriteToServer(o: CW.Outcome)
      requires reply == None && bodySize <= buffer.Length
      modifies this`reply, out, out.target
      ensures !old(out.good) ==> reply == Some(CW.StreamInBadState) && out.View() == old(out.View())
      ensures old(out.good) ==>
                && out.View() == CW.Put(old(out.View()), buffer[..buffer.Length - bodySize], o)
                && reply == if o.Threw? then Some(CW.ExceptionCaught) else None
    {
      if !out.good {
        reply := Some(CW.StreamInBadState);
        return;
      }
      var toSend := buffer.Length - bodySize;
      var threw := out.Write(buffer[..toSend], o);
      if threw {
        reply := Some(CW.ExceptionCaught);
      }
    }

    // A request whose body arrives as the given fragments; complete is false when the
    // socket fails after the last of them.
    method Run(fragments: seq<seq<byte>>, complete: bool, os: seq<CW.Outcome>) returns (r: CW.Reply)
      requires reply == None
      requires forall i :: 0 <= i < |fragments| ==> |fragments[i]| <= buffer.Length
      modifies this, buffer, out, out.target
      ensures var (t, full) := CW.Run(old(out.View()), fragments, os);
              out.View() == t && r == if full == CW.Success && !complete then CW.SocketFailed else full
      ensures reply == Some(r)
    {
      var next := 0;
      var rest := os;
      assert fragments[0..] == fragments;
      while next < |fragments| && reply == None
        invariant 0 <= next <= |fragments|
        invariant reply == None ==>
          CW.Run(out.View(), fragments[next..], rest) == CW.Run(old(out.View()), fragments, os)
        invariant reply.Some? ==> reply.value != CW.Success
        invariant reply.Some? ==> (out.View(), reply.value) == CW.Run(old(out.View()), fragments, os)
      {
        ReadFromClient(fragments[next]);
        WriteToServer(CW.First(rest));
        assert fragments[next..][1..] == fragments[next + 1..];
        next := next + 1;
        rest := CW.Rest(rest);
      }
      if reply == None {
        reply := Some(if complete then CW.Success else CW.SocketFailed);
      }
      r := reply.value;
    }
  }
}
