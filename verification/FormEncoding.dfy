// Percent-encoding (sections 2.1 and 2.3 of RFC 3986), the writer of
// application/x-www-form-urlencoded bodies and their parser. Text is bytes.

module FormEncoding {
  import opened Basics

  type Bytes = seq<byte>

  const PERCENT: byte := 0x25
  const AMPERSAND: byte := 0x26
  const PLUS: byte := 0x2B
  const EQUALS: byte := 0x3D
  const SPACE: byte := 0x20

  predicate IsAlphanumeric(b: byte) {
    0x30 <= b <= 0x39 || 0x41 <= b <= 0x5A || 0x61 <= b <= 0x7A
  }

  // Letters, digits and "-._~".
  predicate IsUnreserved(b: byte) {
    IsAlphanumeric(b) || b == 0x2D || b == 0x2E || b == 0x5F || b == 0x7E
  }

  predicate Unreserved(s: Bytes) {
    forall i :: 0 <= i < |s| ==> IsUnreserved(s[i])
  }

  function HexDigit(n: nat): byte
    requires n < 16
  {
    if n < 10 then 0x30 + n else 0x41 + n - 10
  }

  function HexValue(b: byte): Option<nat> {
    if 0x30 <= b <= 0x39 then Some(b - 0x30)
    else if 0x41 <= b <= 0x46 then Some(b - 0x41 + 10)
    else if 0x61 <= b <= 0x66 then Some(b - 0x61 + 10)
    else None
  }

  function EncodeByte(b: byte): Bytes {
    if IsUnreserved(b) then [b] else [PERCENT, HexDigit(b / 16), HexDigit(b % 16)]
  }

  function Encode(s: Bytes): Bytes {
    if s == [] then [] else EncodeByte(s[0]) + Encode(s[1..])
  }

  // A triplet "%XX" at the start of s: a percent sign and two hexadecimal digits.
  predicate StartsWithTriplet(s: Bytes) {
    |s| > 2 && s[0] == PERCENT && HexValue(s[1]).Some? && HexValue(s[2]).Some?
  }

  function Octet(high: nat, low: nat): byte {
    (high * 16 + low) % 256
  }

  // Anything that is not a triplet stays as it is, a lone percent sign included.
  function Decode(s: Bytes): Bytes {
    if s == [] then []
    else if StartsWithTriplet(s) then [Octet(HexValue(s[1]).value, HexValue(s[2]).value)] + Decode(s[3..])
    else [s[0]] + Decode(s[1..])
  }

  function PlusToSpace(s: Bytes): Bytes {
    seq(|s|, i requires 0 <= i < |s| => if s[i] == PLUS then SPACE else s[i])
  }

  // The pieces between separators; always at least one.
  function Split(s: Bytes, separator: byte): (r: seq<Bytes>)
    ensures |r| >= 1
  {
    if s == [] then [[]]
    else
      var rest := Split(s[1..], separator);
      if s[0] == separator then [[]] + rest else [[s[0]] + rest[0]] + rest[1..]
  }

  // ---------------------------------------------------------------- the parser

  type Arguments = map<Bytes, Bytes>

  // What one token between ampersands adds: "key=value", "key", or nothing if it has
  // more than one equals sign. Keys are taken as they are.
  function AddToken(args: Arguments, token: Bytes): Arguments {
    var kvp := Split(token, EQUALS);
    if |kvp| == 2 then args[kvp[0] := PlusToSpace(Decode(kvp[1]))]
    else if |kvp| == 1 then args[kvp[0] := []]
    else args
  }

  function AddTokens(args: Arguments, tokens: seq<Bytes>): Arguments
    decreases |tokens|
  {
    if tokens == [] then args else AddTokens(AddToken(args, tokens[0]), tokens[1..])
  }

  function Parsed(body: Bytes): Arguments {
    if body == [] then map[] else AddTokens(map[], Split(body, AMPERSAND))
  }

  // boost::replace_all for a single character.
  method ReplacePlus(s: Bytes) returns (value: Bytes)
    ensures value == PlusToSpace(s)
  {
    value := s;
    for i := 0 to |s|
      invariant |value| == |s|
      invariant forall k :: 0 <= k < i ==> value[k] == if s[k] == PLUS then SPACE else s[k]
      invariant forall k :: i <= k < |s| ==> value[k] == s[k]
    {
      if value[i] == PLUS {
        value := value[i := SPACE];
      }
    }
  }

  method ToArgumentList(body: Bytes) returns (kvps: Arguments)
    ensures kvps == Parsed(body)
  {
    kvps := map[];
    if body == [] {
      return;
    }
    var tokens := Split(body, AMPERSAND);
    for i := 0 to |tokens|
      invariant AddTokens(kvps, tokens[i..]) == Parsed(body)
    {
      var kvp := Split(tokens[i], EQUALS);
      assert tokens[i..][0] == tokens[i] && tokens[i..][1..] == tokens[i + 1..];
      if |kvp| == 2 {
        var value := ReplacePlus(Decode(kvp[1]));
        kvps := kvps[kvp[0] := value];
      } else if |kvp| == 1 {
        kvps := kvps[kvp[0] := []];
      }
    }
  }

  // ---------------------------------------------------------------- the writer

  type Pair = (Bytes, Bytes)

  function EncodePair(p: Pair): Bytes {
    Encode(p.0) + [EQUALS] + Encode(p.1)
  }

  function EncodeBody(pairs: seq<Pair>): Bytes
    requires pairs != []
  {
    if |pairs| == 1 then EncodePair(pairs[0]) else EncodePair(pairs[0]) + [AMPERSAND] + EncodeBody(pairs[1..])
  }

  // The pairs of m in some order. The writer goes through a hash map.
  ghost predicate Enumerates(pairs: seq<Pair>, m: Arguments) {
    && (forall i :: 0 <= i < |pairs| ==> pairs[i].0 in m && pairs[i].1 == m[pairs[i].0])
    && (forall k :: k in m ==> exists i :: 0 <= i < |pairs| && pairs[i].0 == k)
  }

  // ---------------------------------------------------------------- percent-encoding

  lemma {:induction false} EncodedByteIsClean(b: byte)
    ensures forall i :: 0 <= i < |EncodeByte(b)| ==> IsUnreserved(EncodeByte(b)[i]) || EncodeByte(b)[i] == PERCENT
  {
  }

  lemma {:induction false} EncodedIsClean(s: Bytes)
    ensures forall i :: 0 <= i < |Encode(s)| ==> IsUnreserved(Encode(s)[i]) || Encode(s)[i] == PERCENT
  {
    hide EncodeByte, IsUnreserved;
    if s != [] {
      EncodedByteIsClean(s[0]);
      EncodedIsClean(s[1..]);
    }
  }

  // Encoded text has none of the characters that give a body its structure.
  lemma {:induction false} EncodedHasNoSeparators(s: Bytes)
    ensures Lacks(Encode(s), AMPERSAND) && Lacks(Encode(s), EQUALS) && Lacks(Encode(s), PLUS)
  {
    EncodedIsClean(s);
  }

  lemma {:induction false} HexDigitsInvert(b: byte)
    ensures HexValue(HexDigit(b / 16)) == Some(b / 16) && HexValue(HexDigit(b % 16)) == Some(b % 16)
    ensures Octet(b / 16, b % 16) == b
  {
  }

  lemma {:induction false} DecodeFirstByte(b: byte, rest: Bytes)
    ensures Decode(EncodeByte(b) + rest) == [b] + Decode(rest)
  {
    var s := EncodeByte(b) + rest;
    if IsUnreserved(b) {
      assert s[0] == b != PERCENT && s[1..] == rest;
    } else {
      HexDigitsInvert(b);
      assert s[0] == PERCENT && s[1] == HexDigit(b / 16) && s[2] == HexDigit(b % 16) && s[3..] == rest;
    }
  }

  lemma {:induction false} DecodeInvertsEncode(s: Bytes)
    ensures Decode(Encode(s)) == s
  {
    hide EncodeByte, Decode;
    if s == [] {
      DecodeEmpty();
    } else {
      DecodeInvertsEncode(s[1..]);
      DecodeFirstByte(s[0], Encode(s[1..]));
    }
  }

  lemma {:induction false} DecodeEmpty()
    ensures Decode([]) == []
  {
  }

  lemma {:induction false} EncodeIsInjective(a: Bytes, b: Bytes)
    requires Encode(a) == Encode(b)
    ensures a == b
  {
    DecodeInvertsEncode(a);
    DecodeInvertsEncode(b);
  }

  // Encoding never shortens, and leaves exactly unreserved text as it is.
  lemma {:induction false} EncodeKeepsIff(s: Bytes)
    ensures |Encode(s)| >= |s|
    ensures Unreserved(s) ==> Encode(s) == s
    ensures !Unreserved(s) ==> |Encode(s)| > |s| && !Unreserved(Encode(s))
  {
    hide IsUnreserved;
    if s != [] {
      EncodeKeepsIff(s[1..]);
      EncodedByteKeepsIff(s[0]);
      var first, rest := EncodeByte(s[0]), Encode(s[1..]);
      if !IsUnreserved(s[0]) {
        assert Encode(s)[0] == first[0];
      } else if !Unreserved(s) {
        var i :| 0 <= i < |s| && !IsUnreserved(s[i]);
        assert !Unreserved(s[1..]) by { assert s[1..][i - 1] == s[i]; }
        var j :| 0 <= j < |rest| && !IsUnreserved(rest[j]);
        assert Encode(s)[|first| + j] == rest[j];
      }
    }
  }

  lemma {:induction false} EncodedByteKeepsIff(b: byte)
    ensures IsUnreserved(b) ==> EncodeByte(b) == [b]
    ensures !IsUnreserved(b) ==> |EncodeByte(b)| == 3 && !IsUnreserved(EncodeByte(b)[0])
  {
  }

  // ---------------------------------------------------------------- splitting

  lemma {:induction false} SplitSolid(s: Bytes, separator: byte)
    requires Lacks(s, separator)
    ensures Split(s, separator) == [s]
  {
    if s != [] {
      SplitSolid(s[1..], separator);
      assert [s[0]] + s[1..] == s;
    }
  }

  lemma {:induction false} SplitAtFirst(a: Bytes, separator: byte, b: Bytes)
    requires Lacks(a, separator)
    ensures Split(a + [separator] + b, separator) == [a] + Split(b, separator)
  {
    var s := a + [separator] + b;
    if a == [] {
      assert s[1..] == b;
    } else {
      SplitAtFirst(a[1..], separator, b);
      assert s[1..] == a[1..] + [separator] + b;
      assert [s[0]] + a[1..] == a;
    }
  }

  lemma {:induction false} PairSplits(p: Pair)
    ensures Split(EncodePair(p), EQUALS) == [Encode(p.0), Encode(p.1)]
    ensures Lacks(EncodePair(p), AMPERSAND)
  {
    hide Split, Encode;
    EncodedHasNoSeparators(p.0);
    EncodedHasNoSeparators(p.1);
    SplitAtFirst(Encode(p.0), EQUALS, Encode(p.1));
    SplitSolid(Encode(p.1), EQUALS);
  }

  function EncodePairs(pairs: seq<Pair>): seq<Bytes> {
    if pairs == [] then [] else [EncodePair(pairs[0])] + EncodePairs(pairs[1..])
  }

  lemma {:induction false} BodySplits(pairs: seq<Pair>)
    requires pairs != []
    ensures EncodeBody(pairs) != [] && Split(EncodeBody(pairs), AMPERSAND) == EncodePairs(pairs)
  {
    hide Split, Encode;
    PairSplits(pairs[0]);
    if |pairs| == 1 {
      assert EncodePairs(pairs[1..]) == [];
      SplitSolid(EncodePair(pairs[0]), AMPERSAND);
    } else {
      BodySplits(pairs[1..]);
      SplitAtFirst(EncodePair(pairs[0]), AMPERSAND, EncodeBody(pairs[1..]));
    }
  }

  // ---------------------------------------------------------------- the law

  lemma {:induction false} TokenOfPair(args: Arguments, p: Pair)
    ensures AddToken(args, EncodePair(p)) == args[Encode(p.0) := PlusToSpace(p.1)]
  {
    hide Split, Encode, EncodePair, PlusToSpace, Decode;
    PairSplits(p);
    DecodeInvertsEncode(p.1);
  }

  predicate Within(args: Arguments, whole: Arguments) {
    forall key :: key in args ==> key in whole && args[key] == whole[key]
  }

  lemma {:induction false} PairsFill(args: Arguments, pairs: seq<Pair>, whole: Arguments)
    requires Within(args, whole)
    requires forall i :: 0 <= i < |pairs| ==>
               Encode(pairs[i].0) in whole && whole[Encode(pairs[i].0)] == PlusToSpace(pairs[i].1)
    ensures var r := AddTokens(args, EncodePairs(pairs));
            && Within(r, whole) && (forall key :: key in args ==> key in r)
            && forall i :: 0 <= i < |pairs| ==> Encode(pairs[i].0) in r
    decreases |pairs|
  {
    hide Encode, EncodePair, PlusToSpace, AddToken;
    if pairs != [] {
      var p, rest := pairs[0], pairs[1..];
      TokenOfPair(args, p);
      assert EncodePairs(pairs)[1..] == EncodePairs(rest);
      PairsFill(AddToken(args, EncodePair(p)), rest, whole);
      assert forall i :: 0 < i < |pairs| ==> pairs[i] == rest[i - 1];
    }
  }

  lemma {:induction false} EncodeNeverCollides()
    ensures forall a, b :: Encode(a) == Encode(b) ==> a == b
  {
    forall a, b | Encode(a) == Encode(b) ensures a == b {
      EncodeIsInjective(a, b);
    }
  }

  // What becomes of m on its way: its keys stay encoded, and its values lose their plus signs.
  ghost function Received(m: Arguments): Arguments {
    EncodeNeverCollides();
    map k | k in m :: Encode(k) := PlusToSpace(m[k])
  }

  lemma {:induction false} ReceivedPair(m: Arguments, k: Bytes)
    requires k in m
    ensures Encode(k) in Received(m) && Received(m)[Encode(k)] == PlusToSpace(m[k])
  {
    EncodeNeverCollides();
  }

  lemma {:induction false} ReceivedKey(m: Arguments, key: Bytes) returns (k: Bytes)
    requires key in Received(m)
    ensures k in m && key == Encode(k)
  {
    hide Encode, PlusToSpace;
    EncodeNeverCollides();
    k :| k in m && key == Encode(k);
  }

  // Parsing what the writer wrote, for all maps and whatever order the pairs come in.
  lemma {:induction false} ParsedIsReceived(m: Arguments, pairs: seq<Pair>)
    requires pairs != [] && Enumerates(pairs, m)
    ensures Parsed(EncodeBody(pairs)) == Received(m)
  {
    hide Encode, PlusToSpace, EncodeBody, AddTokens, EncodePairs, Received;
    BodySplits(pairs);
    forall i | 0 <= i < |pairs|
      ensures Encode(pairs[i].0) in Received(m) && Received(m)[Encode(pairs[i].0)] == PlusToSpace(pairs[i].1)
    {
      ReceivedPair(m, pairs[i].0);
    }
    PairsFill(map[], pairs, Received(m));
    var r := Parsed(EncodeBody(pairs));
    forall key | key in Received(m) ensures key in r {
      var k := ReceivedKey(m, key);
      var i :| 0 <= i < |pairs| && pairs[i].0 == k;
    }
  }

  // ---------------------------------------------------------------- when it is the identity

  predicate KeysUnreserved(m: Arguments) {
    forall k :: k in m ==> Unreserved(k)
  }

  predicate ValuesHaveNoPlus(m: Arguments) {
    forall k :: k in m ==> Lacks(m[k], PLUS)
  }

  lemma {:induction false} PlusToSpaceKeepsIff(s: Bytes)
    ensures PlusToSpace(s) == s <==> Lacks(s, PLUS)
  {
    if PlusToSpace(s) == s {
      forall i | 0 <= i < |s| ensures s[i] != PLUS {
        assert PlusToSpace(s)[i] == s[i];
      }
    }
  }

  lemma {:induction false} ReceivedWholeIf(m: Arguments)
    requires KeysUnreserved(m) && ValuesHaveNoPlus(m)
    ensures Received(m) == m
  {
    hide Encode, PlusToSpace, Unreserved, Lacks, Received;
    forall k | k in m ensures k in Received(m) && Received(m)[k] == m[k] {
      EncodeKeepsIff(k);
      PlusToSpaceKeepsIff(m[k]);
      ReceivedPair(m, k);
    }
    forall key | key in Received(m) ensures key in m {
      var k := ReceivedKey(m, key);
      EncodeKeepsIff(k);
    }
  }

  // A longest key among some keys.
  lemma {:induction false} LongestKey(keys: set<Bytes>) returns (k: Bytes)
    requires keys != {}
    ensures k in keys && forall k' :: k' in keys ==> |k'| <= |k|
    decreases |keys|
  {
    k :| k in keys;
    var rest := keys - {k};
    if rest != {} {
      var other := LongestKey(rest);
      if |other| > |k| {
        k := other;
      }
    }
  }

  // m has what it would be received as.
  predicate Survives(m: Arguments) {
    forall k :: k in m ==> Encode(k) in m && m[Encode(k)] == PlusToSpace(m[k])
  }

  lemma {:induction false} ReceivedWholeSurvives(m: Arguments)
    requires Received(m) == m
    ensures Survives(m)
  {
    hide Encode, PlusToSpace, Received;
    forall k | k in m ensures Encode(k) in m && m[Encode(k)] == PlusToSpace(m[k]) {
      ReceivedPair(m, k);
    }
  }

  // A key that is not unreserved would be received longer than it was sent, that one
  // longer still, and so on beyond every bound.
  lemma {:induction false} SurvivingKeyIsUnreserved(m: Arguments, k: Bytes, bound: nat)
    requires Survives(m) && k in m && forall k' :: k' in m ==> |k'| <= bound
    ensures Unreserved(k)
    decreases bound - |k|
  {
    hide Encode, PlusToSpace, Unreserved;
    if !Unreserved(k) {
      EncodeKeepsIff(k);
      SurvivingKeyIsUnreserved(m, Encode(k), bound);
    }
  }

  lemma {:induction false} SurvivingKeysAreUnreserved(m: Arguments)
    requires Survives(m)
    ensures KeysUnreserved(m)
  {
    hide Unreserved, Survives;
    if m.Keys != {} {
      var longest := LongestKey(m.Keys);
      forall k | k in m ensures Unreserved(k) {
        SurvivingKeyIsUnreserved(m, k, |longest|);
      }
    }
  }

  lemma {:induction false} SurvivingValuesHaveNoPlus(m: Arguments)
    requires Survives(m)
    ensures ValuesHaveNoPlus(m)
  {
    hide Encode, PlusToSpace, Unreserved, Lacks;
    SurvivingKeysAreUnreserved(m);
    forall k | k in m ensures Lacks(m[k], PLUS) {
      EncodeKeepsIff(k);
      PlusToSpaceKeepsIff(m[k]);
    }
  }

  // The parser gives back what the writer was given exactly when every key is made of
  // unreserved characters and no value has a plus sign.
  lemma {:induction false} ParsedWholeIff(m: Arguments, pairs: seq<Pair>)
    requires pairs != [] && Enumerates(pairs, m)
    ensures Parsed(EncodeBody(pairs)) == m <==> KeysUnreserved(m) && ValuesHaveNoPlus(m)
  {
    hide Received, EncodeBody, Parsed;
    ParsedIsReceived(m, pairs);
    if KeysUnreserved(m) && ValuesHaveNoPlus(m) {
      ReceivedWholeIf(m);
    }
    if Received(m) == m {
      ReceivedWholeSurvives(m);
      SurvivingKeysAreUnreserved(m);
      SurvivingValuesHaveNoPlus(m);
    }
  }
}
