// The parser for multipart/form-data bodies (RFC 7578, on the syntax of section 5.1.1
// of RFC 2046).

module MultipartFormData {
  import opened Basics
  import opened Text

  // size_t arithmetic wraps.
  const SIZE_MODULUS: nat := 0x1_0000_0000_0000_0000

  function SizeMinus(a: nat, b: nat): nat
    requires a < SIZE_MODULUS && b < SIZE_MODULUS
  {
    if a >= b then a - b else SIZE_MODULUS + a - b
  }

  function BoundaryStart(boundary: string): string {
    "--" + boundary
  }

  function BoundaryEnd(boundary: string): string {
    BoundaryStart(boundary) + "--"
  }

  // ---------------------------------------------------------------- the name parameter

  predicate IsTokenChar(c: char) {
    'a' <= c <= 'z' || 'A' <= c <= 'Z' || '0' <= c <= '9' || c in "!#$%&'*+-.^_`|~"
  }

  predicate IsToken(s: string) {
    s != [] && forall i :: 0 <= i < |s| ==> IsTokenChar(s[i])
  }

  function SkipBlanks(s: string, i: nat): (r: nat)
    requires i <= |s|
    ensures i <= r <= |s|
    decreases |s| - i
  {
    if i < |s| && (s[i] == ' ' || s[i] == '\t') then SkipBlanks(s, i + 1) else i
  }

  // The end of the run of token characters at i.
  function TokenEnd(s: string, i: nat): (r: nat)
    requires i <= |s|
    ensures i <= r <= |s|
    ensures forall j :: i <= j < r ==> IsTokenChar(s[j])
    ensures r < |s| ==> !IsTokenChar(s[r])
    decreases |s| - i
  {
    if i < |s| && IsTokenChar(s[i]) then TokenEnd(s, i + 1) else i
  }

  // The first parameter called name in a list of "; key" and "; key=value".
  function NameInParameters(s: string, i: nat): Option<string>
    requires i <= |s|
    decreases |s| - i
  {
    var semicolon := SkipBlanks(s, i);
    if semicolon == |s| || s[semicolon] != ';' then None else
    var key := SkipBlanks(s, semicolon + 1);
    var keyEnd := TokenEnd(s, key);
    if keyEnd == key then None
    else if keyEnd == |s| || s[keyEnd] != '=' then
      if s[key..keyEnd] == "name" then Some("") else NameInParameters(s, keyEnd)
    else
      var valueEnd := TokenEnd(s, keyEnd + 1);
      if valueEnd == keyEnd + 1 then None
      else if s[key..keyEnd] == "name" then Some(s[keyEnd + 1..valueEnd])
      else NameInParameters(s, valueEnd)
  }

  // The name parameter of a form-data disposition.
  function DispositionName(value: string): Option<string> {
    var start := SkipBlanks(value, 0);
    var end := TokenEnd(value, start);
    if EqualsIgnoringCase(value[start..end], "form-data") then NameInParameters(value, end) else None
  }

  // The name of the part after a header line: unchanged, or the one the line gives.
  function HeaderLineName(name: string, header: string, value: string): string {
    if !EqualsIgnoringCase(Trim(header), "content-disposition") then name
    else match DispositionName(value)
         case None => name
         case Some(n) => n
  }

  // ---------------------------------------------------------------- what a message means

  // How header lines are read: from the name so far, the header's name and its value
  // to the name after the line. Structure and slices of a message do not depend on it.
  type Reader = (string, string, string) -> string

  // One part: where its delimiter and its body start, where the delimiter that ends
  // it starts, and what is stored for it.
  datatype Part = Part(delimiter: nat, body: nat, end: nat, name: string, value: string)

  // The header line at pos: where its colon is and where it ends.
  function HeaderLine(data: string, pos: nat): (r: Option<(nat, nat)>)
    requires pos <= |data|
    ensures r.Some? ==> pos <= r.value.0 < r.value.1 && r.value.1 + 2 <= |data|
  {
    match Find(data, ":", pos)
    case None => None
    case Some(colon) =>
      match Find(data, CRLF, colon + 1)
      case None => None
      case Some(eol) => Some((colon, eol))
  }

  // Header lines from pos on, up to an empty line: where the body starts, and the
  // name given by the last of them that gives one.
  function ReadHeaders(read: Reader, data: string, pos: nat, name: string): (r: Option<(nat, string)>)
    requires pos <= |data|
    ensures r.Some? ==> pos + 5 <= r.value.0 <= |data|
    decreases |data| - pos
  {
    match HeaderLine(data, pos)
    case None => None
    case Some((colon, eol)) =>
      var name' := read(name, data[pos..colon], data[colon + 1..eol]);
      if HasAt(data, CRLF, eol + 2) then Some((eol + 4, name')) else ReadHeaders(read, data, eol + 2, name')
  }

  // One line of ReadHeaders.
  lemma {:induction false} ReadHeadersLine(read: Reader, data: string, pos: nat, name: string, colon: nat, eol: nat, next: string)
    requires pos <= |data| && HeaderLine(data, pos) == Some((colon, eol))
    requires next == read(name, data[pos..colon], data[colon + 1..eol])
    ensures HasAt(data, CRLF, eol + 2) ==> ReadHeaders(read, data, pos, name) == Some((eol + 4, next))
    ensures !HasAt(data, CRLF, eol + 2) ==>
              ReadHeaders(read, data, pos, name) == ReadHeaders(read, data, eol + 2, next)
  {
    hide HeaderLine, Occurs;
  }

  lemma {:induction false} NoHeaderLine(read: Reader, data: string, pos: nat, name: string)
    requires pos <= |data|
    ensures HeaderLine(data, pos) == None ==> ReadHeaders(read, data, pos, name) == None
  {
    hide HeaderLine;
  }

  // The parts from pos on. Parsing ends at the end delimiter or at the first
  // violation of the structure; what was found before it is kept.
  function Parts(read: Reader, boundary: string, data: string, pos: nat): seq<Part>
    requires pos <= |data| < SIZE_MODULUS
    decreases |data| - pos, 3
  {
    match Find(data, BoundaryStart(boundary), pos)
    case None => []
    case Some(d) => if HasAt(data, BoundaryEnd(boundary), d) then [] else PartsAt(read, boundary, data, d)
  }

  function PartsAt(read: Reader, boundary: string, data: string, d: nat): seq<Part>
    requires d + |BoundaryStart(boundary)| <= |data| < SIZE_MODULUS
    decreases |data| - d, 2
  {
    var line := d + |BoundaryStart(boundary)|;
    if !HasAt(data, CRLF, line) then [] else PartsFromHeaders(read, boundary, data, d, line + 2, "")
  }

  function PartsFromHeaders(read: Reader, boundary: string, data: string, d: nat, pos: nat, name: string): seq<Part>
    requires d + 2 <= pos <= |data| < SIZE_MODULUS
    decreases |data| - d, 1
  {
    match ReadHeaders(read, data, pos, name)
    case None => []
    case Some((body, name')) => PartsFromBody(read, boundary, data, d, body, name')
  }

  function PartsFromBody(read: Reader, boundary: string, data: string, d: nat, body: nat, name: string): seq<Part>
    requires d + 2 <= body <= |data| < SIZE_MODULUS
    decreases |data| - d, 0
  {
    match Find(data, BoundaryStart(boundary), body)
    case None => []
    case Some(end) =>
      if !HasAt(data, CRLF, end - 2) then []
      else [Part(d, body, end, name, Sub(data, body, SizeMinus(end - 2, body)))] + Parts(read, boundary, data, end)
  }

  // Later parts replace earlier ones of the same name.
  function Collect(args: map<string, string>, parts: seq<Part>): map<string, string>
    decreases |parts|
  {
    if parts == [] then args else Collect(args[parts[0].name := parts[0].value], parts[1..])
  }

  lemma {:induction false} CollectFirst(args: map<string, string>, p: Part, rest: seq<Part>)
    ensures Collect(args, [p] + rest) == Collect(args[p.name := p.value], rest)
  {
    assert ([p] + rest)[1..] == rest;
  }

  // ---------------------------------------------------------------- the parser

  datatype ParserState =
    | FindBoundaryStart
    | ReadBoundaryStart
    | ReadHeader
    | ReadBody

  function Rank(s: ParserState): nat {
    match s
    case ReadBody => 3
    case FindBoundaryStart => 2
    case ReadBoundaryStart => 1
    case ReadHeader => 0
  }

  // The work of the state FindBoundaryStart: the next delimiter, unless it is the last.
  method FindDelimiter(read: Reader, boundary: string, data: string, pos: nat) returns (found: bool, next: nat)
    requires pos <= |data| < SIZE_MODULUS
    ensures !found ==> Parts(read, boundary, data, pos) == []
    ensures found ==> pos <= next && next + |BoundaryStart(boundary)| <= |data|
    ensures found ==> Parts(read, boundary, data, pos) == PartsAt(read, boundary, data, next)
  {
    hide Find, Occurs, BoundaryStart, BoundaryEnd;
    found, next := false, pos;
    var bsPos := Find(data, BoundaryStart(boundary), pos);
    if bsPos == None {
      return;
    }
    if HasAt(data, BoundaryEnd(boundary), bsPos.value) {
      return;
    }
    found, next := true, bsPos.value;
  }

  // The work of the state ReadBoundaryStart: the delimiter has to end its line.
  method EndDelimiterLine(read: Reader, boundary: string, data: string, pos: nat) returns (found: bool, next: nat)
    requires pos + |BoundaryStart(boundary)| <= |data| < SIZE_MODULUS
    ensures !found ==> PartsAt(read, boundary, data, pos) == []
    ensures found ==> pos + 2 <= next <= |data|
    ensures found ==> PartsAt(read, boundary, data, pos) == PartsFromHeaders(read, boundary, data, pos, next, "")
  {
    hide BoundaryStart, Find, ReadHeaders;
    var crlfPos := pos + |BoundaryStart(boundary)|;
    found := HasAt(data, CRLF, crlfPos);
    next := if found then crlfPos + 2 else pos;
  }

  // The work of the state ReadHeader: the position and the name after one header line,
  // and whether the body starts there.
  method ReadHeaderLine(read: Reader, data: string, pos: nat, name: string)
      returns (found: bool, next: nat, name': string, atBody: bool)
    requires pos <= |data|
    ensures !found ==> ReadHeaders(read, data, pos, name) == None
    ensures found ==> pos < next <= |data|
    ensures found ==> ReadHeaders(read, data, pos, name) ==
                      if atBody then Some((next, name')) else ReadHeaders(read, data, next, name')
  {
    hide Occurs, ReadHeaders;
    found, next, name', atBody := false, pos, name, false;
    NoHeaderLine(read, data, pos, name);
    var colonPos := Find(data, ":", pos);
    if colonPos == None {
      return;
    }
    var crlfPos := Find(data, CRLF, colonPos.value + 1);
    if crlfPos == None {
      return;
    }
    found := true;
    name' := read(name, data[pos..colonPos.value], data[colonPos.value + 1..crlfPos.value]);
    ReadHeadersLine(read, data, pos, name, colonPos.value, crlfPos.value, name');
    next := crlfPos.value + 2;
    if HasAt(data, CRLF, next) {
      next := next + 2;
      atBody := true;
    }
  }

  // The work of the state ReadBody: the stored value and the position of the next
  // delimiter.
  method ReadPartBody(read: Reader, boundary: string, data: string, ghost delimiter: nat, pos: nat, name: string)
      returns (found: bool, value: string, next: nat)
    requires delimiter + 2 <= pos <= |data| < SIZE_MODULUS
    ensures !found ==> PartsFromBody(read, boundary, data, delimiter, pos, name) == []
    ensures found ==> pos <= next <= |data|
    ensures found ==> PartsFromBody(read, boundary, data, delimiter, pos, name) ==
                      [Part(delimiter, pos, next, name, value)] + Parts(read, boundary, data, next)
  {
    hide Occurs, Find, BoundaryStart, Parts;
    found, value, next := false, "", pos;
    var bsPos := Find(data, BoundaryStart(boundary), pos);
    if bsPos == None {
      return;
    }
    var crlfPos := bsPos.value - 2;
    if !HasAt(data, CRLF, crlfPos) {
      return;
    }
    found, value, next := true, Sub(data, pos, SizeMinus(crlfPos, pos)), bsPos.value;
  }

  // The state machine. It terminates although reading a body need not advance, every
  // substring it takes starts within the data, and it collects exactly the parts.
  method Parse(read: Reader, boundary: string, data: string) returns (args: map<string, string>)
    requires |data| < SIZE_MODULUS
    ensures args == Collect(map[], Parts(read, boundary, data, 0))
  {
    args := map[];
    if data == [] {
      return;
    }
    var state := FindBoundaryStart;
    var pos: nat := 0;
    var paramName := "";
    ghost var result := Collect(map[], Parts(read, boundary, data, 0));
    ghost var delimiter: nat := 0;
    while true
      invariant pos <= |data|
      invariant state.FindBoundaryStart? ==> paramName == "" && result == Collect(args, Parts(read, boundary, data, pos))
      invariant state.ReadBoundaryStart? ==>
        paramName == "" && pos + |BoundaryStart(boundary)| <= |data| && result == Collect(args, PartsAt(read, boundary, data, pos))
      invariant state.ReadHeader? ==>
        delimiter + 2 <= pos && result == Collect(args, PartsFromHeaders(read, boundary, data, delimiter, pos, paramName))
      invariant state.ReadBody? ==>
        delimiter + 2 <= pos && result == Collect(args, PartsFromBody(read, boundary, data, delimiter, pos, paramName))
      decreases |data| - pos, Rank(state)
    {
      match state {
        case FindBoundaryStart =>
          var found, next := FindDelimiter(read, boundary, data, pos);
          if !found {
            return;
          }
          pos := next;
          state := ReadBoundaryStart;

        case ReadBoundaryStart =>
          var found, next := EndDelimiterLine(read, boundary, data, pos);
          if !found {
            return;
          }
          delimiter, pos := pos, next;
          state := ReadHeader;

        case ReadHeader =>
          var found, next, name, atBody := ReadHeaderLine(read, data, pos, paramName);
          if !found {
            return;
          }
          pos, paramName := next, name;
          if atBody {
            state := ReadBody;
          }

        case ReadBody =>
          var found, value, next := ReadPartBody(read, boundary, data, delimiter, pos, paramName);
          if !found {
            return;
          }
          CollectFirst(args, Part(delimiter, pos, next, paramName, value), Parts(read, boundary, data, next));
          args := args[paramName := value];
          paramName := "";
          pos := next;
          state := FindBoundaryStart;
      }
    }
  }
}
