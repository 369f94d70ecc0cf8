// What the form parser makes of bodies that other writers make: every body whatsoever,
// described by the pieces it is made of.

module FormBodies {
  import opened Basics
  import opened FormEncoding

  // ---------------------------------------------------------------- the characters

  const UPPER_LETTERS: string := "ABCDEFGHIJKLMNOPQRSTUVWXYZ"
  const LOWER_LETTERS: string := "abcdefghijklmnopqrstuvwxyz"
  const DIGITS: string := "0123456789"
  const MARKS: string := "-._~"
  const UPPER_DIGITS: string := "0123456789ABCDEF"
  const LOWER_DIGITS: string := "0123456789abcdef"

  lemma {:induction false} SeparatorsAre()
    ensures PERCENT as char == '%' && AMPERSAND as char == '&' && PLUS as char == '+'
    ensures EQUALS as char == '=' && SPACE as char == ' '
  {
  }

  // The characters of section 2.3 of RFC 3986.
  predicate UnreservedCharacter(b: byte) {
    var c := b as char;
    c in UPPER_LETTERS || c in LOWER_LETTERS || c in DIGITS || c in MARKS
  }

  lemma {:induction false} UpperLetters(b: byte)
    ensures b as char in UPPER_LETTERS <==> 0x41 <= b <= 0x5A
  {
    assert forall i :: 0 <= i < 26 ==> UPPER_LETTERS[i] as int == 0x41 + i;
    if 0x41 <= b <= 0x5A {
      assert UPPER_LETTERS[b - 0x41] == b as char;
    }
  }

  lemma {:induction false} LowerLetters(b: byte)
    ensures b as char in LOWER_LETTERS <==> 0x61 <= b <= 0x7A
  {
    assert forall i :: 0 <= i < 26 ==> LOWER_LETTERS[i] as int == 0x61 + i;
    if 0x61 <= b <= 0x7A {
      assert LOWER_LETTERS[b - 0x61] == b as char;
    }
  }

  lemma {:induction false} DecimalDigits(b: byte)
    ensures b as char in DIGITS <==> 0x30 <= b <= 0x39
  {
    assert forall i :: 0 <= i < 10 ==> DIGITS[i] as int == 0x30 + i;
    if 0x30 <= b <= 0x39 {
      assert DIGITS[b - 0x30] == b as char;
    }
  }

  lemma {:induction false} UnreservedAre(b: byte)
    ensures IsUnreserved(b) <==> UnreservedCharacter(b)
  {
    UpperLetters(b);
    LowerLetters(b);
    DecimalDigits(b);
    assert MARKS[0] as int == 0x2D && MARKS[1] as int == 0x2E && MARKS[2] as int == 0x5F && MARKS[3] as int == 0x7E;
    assert b as char in MARKS <==> b == 0x2D || b == 0x2E || b == 0x5F || b == 0x7E;
  }

  // A hexadecimal digit, in either case.
  function Digit(n: nat, upper: bool): (d: byte)
    requires n < 16
  {
    if upper then UPPER_DIGITS[n] as int else LOWER_DIGITS[n] as int
  }

  // Both cases are read; upper case is written (section 2.1 of RFC 3986).
  lemma {:induction false} DigitsAre(n: nat, upper: bool)
    requires n < 16
    ensures HexValue(Digit(n, upper)) == Some(n) && HexDigit(n) == Digit(n, true)
  {
  }

  lemma {:induction false} DigitsOnly(b: byte)
    ensures HexValue(b).Some? ==>
              HexValue(b).value < 16 && (b == Digit(HexValue(b).value, true) || b == Digit(HexValue(b).value, false))
  {
  }

  // Every byte that is not unreserved is written as its triplet.
  lemma {:induction false} EncodedByteIs(b: byte)
    ensures EncodeByte(b) ==
            if UnreservedCharacter(b) then [b] else [PERCENT, Digit(b / 16, true), Digit(b % 16, true)]
  {
    hide IsUnreserved, UnreservedCharacter, HexDigit, Digit;
    UnreservedAre(b);
    DigitsAre(b / 16, true);
    DigitsAre(b % 16, true);
  }

  // ---------------------------------------------------------------- values

  // A byte standing for itself, or an octet written as a triplet with digits of either case.
  datatype Piece =
    | Plain(b: byte)
    | Triplet(octet: byte, upperHigh: bool, upperLow: bool)

  function PieceText(p: Piece): Bytes {
    match p
    case Plain(b) => [b]
    case Triplet(o, u, v) => [PERCENT, Digit(o / 16, u), Digit(o % 16, v)]
  }

  function Text(ps: seq<Piece>): Bytes {
    if ps == [] then [] else PieceText(ps[0]) + Text(ps[1..])
  }

  // A percent sign that stands for itself is not followed by two digits.
  predicate Readable(ps: seq<Piece>) {
    ps != [] ==>
      && (ps[0].Plain? && ps[0].b == PERCENT ==> !StartsWithTriplet(Text(ps)))
      && Readable(ps[1..])
  }

  function Octets(ps: seq<Piece>): Bytes {
    seq(|ps|, i requires 0 <= i < |ps| => if ps[i].Plain? then ps[i].b else ps[i].octet)
  }

  // The value: octets, but spaces for plus signs, written as themselves or not.
  function Value(ps: seq<Piece>): Bytes {
    seq(|ps|, i requires 0 <= i < |ps| =>
      var o := if ps[i].Plain? then ps[i].b else ps[i].octet;
      if o == PLUS then SPACE else o)
  }

  lemma {:induction false} DecodePlain(b: byte, rest: Bytes)
    requires b == PERCENT ==> !StartsWithTriplet([b] + rest)
    ensures Decode([b] + rest) == [b] + Decode(rest)
  {
    assert ([b] + rest)[1..] == rest;
  }

  lemma {:induction false} DecodeTriplet(o: byte, u: bool, v: bool, rest: Bytes)
    ensures Decode([PERCENT, Digit(o / 16, u), Digit(o % 16, v)] + rest) == [o] + Decode(rest)
  {
    hide Digit, HexValue;
    DigitsAre(o / 16, u);
    DigitsAre(o % 16, v);
    var s := [PERCENT, Digit(o / 16, u), Digit(o % 16, v)] + rest;
    assert s[0] == PERCENT && s[1] == Digit(o / 16, u) && s[2] == Digit(o % 16, v) && s[3..] == rest;
  }

  lemma {:induction false} DecodeReads(ps: seq<Piece>)
    requires Readable(ps)
    ensures Decode(Text(ps)) == Octets(ps)
  {
    hide Decode, Digit, StartsWithTriplet;
    if ps == [] {
      DecodeEmpty();
    } else {
      var p, rest := ps[0], ps[1..];
      DecodeReads(rest);
      match p {
        case Plain(b) => DecodePlain(b, Text(rest));
        case Triplet(o, u, v) => DecodeTriplet(o, u, v, Text(rest));
      }
      assert Octets(ps) == [if p.Plain? then p.b else p.octet] + Octets(rest);
    }
  }

  // The reading a text has: there is one for every text.
  lemma {:induction false} EveryTextIsReadable(text: Bytes) returns (ps: seq<Piece>)
    ensures Text(ps) == text && Readable(ps)
  {
    hide Digit, HexValue;
    if text == [] {
      ps := [];
    } else if StartsWithTriplet(text) {
      var rest := EveryTextIsReadable(text[3..]);
      var p := TripletOf(text[1], text[2]);
      ps := [p] + rest;
      assert ps[1..] == rest && text == PieceText(p) + text[3..];
    } else {
      var rest := EveryTextIsReadable(text[1..]);
      ps := [Plain(text[0])] + rest;
      assert ps[1..] == rest && text == [text[0]] + text[1..];
    }
  }

  lemma {:induction false} TripletOf(high: byte, low: byte) returns (p: Piece)
    requires HexValue(high).Some? && HexValue(low).Some?
    ensures p.Triplet? && PieceText(p) == [PERCENT, high, low]
  {
    hide Digit, HexValue;
    DigitsOnly(high);
    DigitsOnly(low);
    var h, l := HexValue(high).value, HexValue(low).value;
    p := Triplet(16 * h + l, high == Digit(h, true), low == Digit(l, true));
    assert p.octet / 16 == h && p.octet % 16 == l;
  }

  // ---------------------------------------------------------------- bodies

  // What can stand between two ampersands: "key=value", "key", or something with more
  // than one equals sign.
  datatype Token =
    | KeyValue(key: Bytes, value: seq<Piece>)
    | KeyOnly(key: Bytes)
    | Junk(a: Bytes, b: Bytes, c: Bytes)

  function TokenText(t: Token): Bytes {
    match t
    case KeyValue(key, value) => key + [EQUALS] + Text(value)
    case KeyOnly(key) => key
    case Junk(a, b, c) => a + [EQUALS] + (b + [EQUALS] + c)
  }

  predicate Unstructured(s: Bytes) {
    Lacks(s, AMPERSAND) && Lacks(s, EQUALS)
  }

  predicate WellFormed(t: Token) {
    match t
    case KeyValue(key, value) => Unstructured(key) && Unstructured(Text(value)) && Readable(value)
    case KeyOnly(key) => Unstructured(key)
    case Junk(a, b, c) => Unstructured(a) && Unstructured(b) && Lacks(c, AMPERSAND)
  }

  function BodyText(ts: seq<Token>): Bytes
    requires ts != []
  {
    if |ts| == 1 then TokenText(ts[0]) else TokenText(ts[0]) + [AMPERSAND] + BodyText(ts[1..])
  }

  // Keys as they are written, a key alone with an empty value, the last of each key.
  function Meaning(ts: seq<Token>): Arguments {
    if ts == [] then map[]
    else
      var earlier, t := Meaning(ts[..|ts| - 1]), ts[|ts| - 1];
      match t
      case KeyValue(key, value) => earlier[key := Value(value)]
      case KeyOnly(key) => earlier[key := []]
      case Junk(_, _, _) => earlier
  }

  function TokenTexts(ts: seq<Token>): seq<Bytes> {
    seq(|ts|, i requires 0 <= i < |ts| => TokenText(ts[i]))
  }

  predicate AllWellFormed(ts: seq<Token>) {
    forall i :: 0 <= i < |ts| ==> WellFormed(ts[i])
  }

  lemma {:induction false} TokenIsUnseparated(t: Token)
    requires WellFormed(t)
    ensures Lacks(TokenText(t), AMPERSAND)
  {
    hide Text, Readable;
  }

  lemma {:induction false} BodyOfTokensSplits(ts: seq<Token>)
    requires ts != [] && AllWellFormed(ts)
    ensures Split(BodyText(ts), AMPERSAND) == TokenTexts(ts)
  {
    hide Split, TokenText, WellFormed;
    TokenIsUnseparated(ts[0]);
    if |ts| == 1 {
      SplitSolid(TokenText(ts[0]), AMPERSAND);
    } else {
      BodyOfTokensSplits(ts[1..]);
      SplitAtFirst(TokenText(ts[0]), AMPERSAND, BodyText(ts[1..]));
      assert TokenTexts(ts) == [TokenText(ts[0])] + TokenTexts(ts[1..]);
    }
  }

  lemma {:induction false} ValueOfPieces(ps: seq<Piece>)
    requires Readable(ps)
    ensures PlusToSpace(Decode(Text(ps))) == Value(ps)
  {
    hide Decode, Text, Readable;
    DecodeReads(ps);
  }

  lemma {:induction false} TokenIsAdded(args: Arguments, t: Token)
    requires WellFormed(t)
    ensures AddToken(args, TokenText(t)) ==
            match t
            case KeyValue(key, value) => args[key := Value(value)]
            case KeyOnly(key) => args[key := []]
            case Junk(_, _, _) => args
  {
    hide Split, Decode, Text, Readable, PlusToSpace, Value, Lacks;
    match t {
      case KeyValue(key, value) =>
        SplitAtFirst(key, EQUALS, Text(value));
        SplitSolid(Text(value), EQUALS);
        ValueOfPieces(value);
      case KeyOnly(key) =>
        SplitSolid(key, EQUALS);
      case Junk(a, b, c) =>
        SplitAtFirst(a, EQUALS, b + [EQUALS] + c);
        SplitAtFirst(b, EQUALS, c);
    }
  }

  lemma {:induction false} AddTokensLast(args: Arguments, tokens: seq<Bytes>)
    requires tokens != []
    ensures AddTokens(args, tokens) == AddToken(AddTokens(args, tokens[..|tokens| - 1]), tokens[|tokens| - 1])
    decreases |tokens|
  {
    hide AddToken;
    var front := tokens[..|tokens| - 1];
    if |tokens| > 1 {
      AddTokensLast(AddToken(args, tokens[0]), tokens[1..]);
      assert tokens[1..][..|tokens| - 2] == front[1..];
    }
  }

  lemma {:induction false} TokensMean(ts: seq<Token>)
    requires AllWellFormed(ts)
    ensures AddTokens(map[], TokenTexts(ts)) == Meaning(ts)
  {
    hide AddToken, WellFormed, TokenText;
    if ts != [] {
      var n := |ts| - 1;
      TokensMean(ts[..n]);
      AddTokensLast(map[], TokenTexts(ts));
      assert TokenTexts(ts)[..n] == TokenTexts(ts[..n]);
      TokenIsAdded(Meaning(ts[..n]), ts[n]);
    }
  }

  // Every body of well-formed tokens means what they mean. The empty body, which would
  // be a single empty key, means nothing.
  lemma {:induction false} BodyMeans(ts: seq<Token>)
    requires ts != [] && AllWellFormed(ts)
    ensures Parsed(BodyText(ts)) == if BodyText(ts) == [] then map[] else Meaning(ts)
  {
    hide AddTokens, Meaning, BodyText, TokenTexts, AllWellFormed, Split;
    BodyOfTokensSplits(ts);
    TokensMean(ts);
  }

  // And every body is one of well-formed tokens.
  lemma {:induction false} EveryTokenIsWellFormed(text: Bytes) returns (t: Token)
    requires Lacks(text, AMPERSAND)
    ensures WellFormed(t) && TokenText(t) == text
  {
    hide Readable, Text;
    if Lacks(text, EQUALS) {
      t := KeyOnly(text);
    } else {
      var i := FirstOf(text, EQUALS);
      var key, rest := text[..i], text[i + 1..];
      if Lacks(rest, EQUALS) {
        var ps := EveryTextIsReadable(rest);
        t := KeyValue(key, ps);
      } else {
        var j := FirstOf(rest, EQUALS);
        t := Junk(key, rest[..j], rest[j + 1..]);
        assert rest == rest[..j] + [EQUALS] + rest[j + 1..];
      }
      assert text == key + [EQUALS] + rest;
    }
  }

  lemma {:induction false} FirstOf(text: Bytes, b: byte) returns (i: nat)
    requires !Lacks(text, b)
    ensures i < |text| && text[i] == b && Lacks(text[..i], b)
  {
    if text[0] == b {
      i := 0;
    } else {
      assert !Lacks(text[1..], b) by {
        var k :| 0 <= k < |text| && text[k] == b;
        assert text[1..][k - 1] == b;
      }
      i := FirstOf(text[1..], b);
      assert text[..i + 1][1..] == text[1..][..i];
      forall k | 0 <= k < i + 1 ensures text[k] != b {
        assert k > 0 ==> text[k] == text[1..][..i][k - 1];
      }
      i := i + 1;
    }
  }

  lemma {:induction false} EveryBodyIsOfTokens(body: Bytes) returns (ts: seq<Token>)
    ensures ts != [] && AllWellFormed(ts) && BodyText(ts) == body
  {
    hide WellFormed, TokenText;
    if Lacks(body, AMPERSAND) {
      var t := EveryTokenIsWellFormed(body);
      ts := [t];
    } else {
      var i := FirstOf(body, AMPERSAND);
      var t := EveryTokenIsWellFormed(body[..i]);
      var rest := EveryBodyIsOfTokens(body[i + 1..]);
      ts := [t] + rest;
      assert ts[1..] == rest;
      assert body == body[..i] + [AMPERSAND] + body[i + 1..];
    }
  }
}
