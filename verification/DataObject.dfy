// A data object as a sequence of bytes, written at positions.

module DataObject {
  import opened Basics

  function Zeros(n: nat): (z: seq<byte>)
    ensures |z| == n && forall i :: 0 <= i < n ==> z[i] == 0
  {
    seq(n, _ => 0)
  }

  // The byte at position i; beyond the end the object reads as zero.
  function ByteAt(content: seq<byte>, i: nat): byte {
    if i < |content| then content[i] else 0
  }

  // Writing nothing changes nothing; writing past the end leaves a hole of zeros.
  function WriteAt(content: seq<byte>, pos: nat, data: seq<byte>): seq<byte> {
    if data == [] then content
    else
      var padded := if |content| < pos then content + Zeros(pos - |content|) else content;
      padded[..pos] + data + (if pos + |data| < |padded| then padded[pos + |data|..] else [])
  }

  // The new bytes are at their place, every other byte is as before.
  lemma {:induction false} WriteAtBytes(content: seq<byte>, pos: nat, data: seq<byte>)
    ensures var r := WriteAt(content, pos, data);
            && |r| == (if data == [] then |content| else Max(|content|, pos + |data|))
            && forall i :: 0 <= i < |r| ==>
                 r[i] == if pos <= i < pos + |data| then data[i - pos] else ByteAt(content, i)
  {
  }

  lemma {:induction false} WriteAtNothing(content: seq<byte>, pos: nat)
    ensures WriteAt(content, pos, []) == content
  {
  }

  // Two writes that follow each other are one write.
  lemma {:induction false} WriteAtAppend(content: seq<byte>, pos: nat, a: seq<byte>, b: seq<byte>)
    ensures WriteAt(WriteAt(content, pos, a), pos + |a|, b) == WriteAt(content, pos, a + b)
  {
    hide WriteAt;
    WriteAtBytes(content, pos, a);
    WriteAtBytes(WriteAt(content, pos, a), pos + |a|, b);
    WriteAtBytes(content, pos, a + b);
  }

  // Writes to ranges that do not overlap can be swapped.
  lemma {:induction false} WriteAtSwap(content: seq<byte>, p: nat, a: seq<byte>, q: nat, b: seq<byte>)
    requires p + |a| <= q || q + |b| <= p
    ensures WriteAt(WriteAt(content, p, a), q, b) == WriteAt(WriteAt(content, q, b), p, a)
  {
    hide WriteAt;
    WriteAtBytes(content, p, a);
    WriteAtBytes(WriteAt(content, p, a), q, b);
    WriteAtBytes(content, q, b);
    WriteAtBytes(WriteAt(content, q, b), p, a);
  }
}
