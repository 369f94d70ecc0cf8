// Printing form fields the way the client of the test suite does, and the theorem
// that the parser takes every printed message apart again.

module MultipartPrinting {
  import opened Basics
  import opened Text
  import opened MultipartFormData
  import opened MultipartNames

  // A header line as it is read: what stands before the colon and what stands after it.
  datatype Line = Line(name: string, value: string)

  function PrintLine(l: Line): string {
    l.name + ":" + l.value + CRLF
  }

  function PrintLines(ls: seq<Line>): string {
    if ls == [] then [] else PrintLine(ls[0]) + PrintLines(ls[1..])
  }

  // A header: any but a disposition, or a disposition with its kind and parameters. The
  // name may be in any case and have spaces around it.
  datatype Header =
    | Other(name: string, value: string)
    | Disposition(name: string, blanks: string, kind: string, params: seq<Param>)

  function LineOf(h: Header): Line {
    match h
    case Other(name, value) => Line(name, value)
    case Disposition(name, blanks, kind, params) => Line(name, DispositionValue(blanks, kind, params))
  }

  function LinesOf(hs: seq<Header>): (ls: seq<Line>)
    ensures |ls| == |hs| && forall i :: 0 <= i < |hs| ==> ls[i] == LineOf(hs[i])
  {
    seq(|hs|, i requires 0 <= i < |hs| => LineOf(hs[i]))
  }

  datatype Field = Field(headers: seq<Header>, value: string)

  function Lines(f: Field): seq<Line> {
    LinesOf(f.headers)
  }

  function PrintField(boundary: string, f: Field): string {
    BoundaryStart(boundary) + (CRLF + (PrintLines(Lines(f)) + (CRLF + (f.value + CRLF))))
  }

  function Print(boundary: string, fs: seq<Field>): string {
    if fs == [] then BoundaryEnd(boundary) + CRLF else PrintField(boundary, fs[0]) + Print(boundary, fs[1..])
  }

  // ---------------------------------------------------------------- header lines

  // The first colon ends the name, and the first CRLF after it ends the line.
  predicate Printable(l: Line) {
    Lacks(l.name, ':') && !Contains(l.value, CRLF)
  }

  lemma {:induction false} ColonFound(data: string, pos: nat, name: string)
    requires Occurs(data, name, pos) && Occurs(data, ":", pos + |name|) && Lacks(name, ':')
    ensures Find(data, ":", pos) == Some(pos + |name|)
  {
    forall j | pos <= j < pos + |name| ensures !Occurs(data, ":", j) {
      assert data[j] == name[j - pos];
      assert ":"[0] == ':';
    }
    FindIs(data, ":", pos, pos + |name|);
  }

  lemma {:induction false} EndOfLineFound(data: string, pos: nat, value: string)
    requires Occurs(data, value, pos) && Occurs(data, CRLF, pos + |value|) && !Contains(value, CRLF)
    ensures Find(data, CRLF, pos) == Some(pos + |value|)
  {
    forall j | pos <= j < pos + |value| ensures !Occurs(data, CRLF, j) {
      var k := j - pos;
      assert !Occurs(value, CRLF, k);
      assert CRLF[0] == '\r' && CRLF[1] == '\n';
      if k + 2 <= |value| {
        var x :| 0 <= x < 2 && value[k + x] != CRLF[x];
        assert data[j + x] == data[pos + (k + x)] == value[k + x];
      } else {
        assert data[j + 1] == data[pos + |value| + 0] == CRLF[0];
      }
    }
    FindIs(data, CRLF, pos, pos + |value|);
  }

  lemma {:induction false} LinePieces(data: string, pos: nat, l: Line)
    requires Occurs(data, PrintLine(l), pos)
    ensures var colon := pos + |l.name|; var eol := colon + 1 + |l.value|;
            && Occurs(data, l.name, pos) && Occurs(data, ":", colon)
            && Occurs(data, l.value, colon + 1) && Occurs(data, CRLF, eol)
  {
    var colon := pos + |l.name|;
    assert PrintLine(l) == l.name + (":" + (l.value + CRLF));
    OccursSplit(data, l.name, ":" + (l.value + CRLF), pos);
    OccursSplit(data, ":", l.value + CRLF, colon);
    OccursSplit(data, l.value, CRLF, colon + 1);
  }

  lemma {:induction false} PrintedLine(data: string, pos: nat, l: Line)
    requires Occurs(data, PrintLine(l), pos) && Printable(l)
    ensures var colon := pos + |l.name|; var eol := colon + 1 + |l.value|;
            && HeaderLine(data, pos) == Some((colon, eol))
            && data[pos..colon] == l.name && data[colon + 1..eol] == l.value
  {
    hide Find, Occurs, Contains, PrintLine;
    var colon := pos + |l.name|;
    LinePieces(data, pos, l);
    ColonFound(data, pos, l.name);
    EndOfLineFound(data, colon + 1, l.value);
    OccursIsSlice(data, l.name, pos);
    OccursIsSlice(data, l.value, colon + 1);
  }

  // The name after all header lines.
  function NameAfter(read: Reader, name: string, ls: seq<Line>): string
    decreases |ls|
  {
    if ls == [] then name else NameAfter(read, read(name, ls[0].name, ls[0].value), ls[1..])
  }

  // A line whose name starts with a CRLF looks like the empty line that ends the headers.
  lemma {:induction false} LineIsNotEmpty(data: string, pos: nat, l: Line)
    requires Occurs(data, PrintLine(l), pos) && !Occurs(l.name, CRLF, 0)
    ensures pos <= |data| && !HasAt(data, CRLF, pos)
  {
    hide PrintLine;
    LinePieces(data, pos, l);
    assert CRLF[0] == '\r' && CRLF[1] == '\n' && ":"[0] == ':';
    var n := |l.name|;
    assert data[pos + n + 0] == ':';
    assert n > 0 ==> data[pos + 0] == l.name[0];
    assert n > 1 ==> data[pos + 1] == l.name[1];
    assert n > 1 ==> !(l.name[0 + 0] == CRLF[0] && l.name[0 + 1] == CRLF[1]);
  }

  lemma {:induction false} PrintedLineIsRead(read: Reader, data: string, pos: nat, name: string, l: Line)
    requires Occurs(data, PrintLine(l), pos) && Printable(l)
    ensures var next, name' := pos + |PrintLine(l)|, read(name, l.name, l.value);
            && next <= |data|
            && (HasAt(data, CRLF, next) ==> ReadHeaders(read, data, pos, name) == Some((next + 2, name')))
            && (!HasAt(data, CRLF, next) ==> ReadHeaders(read, data, pos, name) == ReadHeaders(read, data, next, name'))
  {
    hide HeaderLine, Occurs, ReadHeaders, Printable;
    PrintedLine(data, pos, l);
    ReadHeadersLine(read, data, pos, name, pos + |l.name|, pos + |l.name| + 1 + |l.value|, read(name, l.name, l.value));
  }

  ghost predicate ReadsTo(read: Reader, data: string, pos: nat, name: string, body: nat, name': string) {
    pos <= |data| && ReadHeaders(read, data, pos, name) == Some((body, name'))
  }

  lemma {:induction false} LastPrintedLine(read: Reader, data: string, pos: nat, name: string, l: Line)
    requires Occurs(data, PrintLine(l), pos) && Printable(l) && Occurs(data, CRLF, pos + |PrintLine(l)|)
    ensures ReadsTo(read, data, pos, name, pos + |PrintLine(l)| + 2, read(name, l.name, l.value))
  {
    PrintedLineIsRead(read, data, pos, name, l);
  }

  lemma {:induction false} EarlierPrintedLine(read: Reader, data: string, pos: nat, name: string, l: Line, l': Line,
                                              body: nat, name': string)
    requires Occurs(data, PrintLine(l), pos) && Printable(l)
    requires Occurs(data, PrintLine(l'), pos + |PrintLine(l)|) && !Occurs(l'.name, CRLF, 0)
    requires ReadsTo(read, data, pos + |PrintLine(l)|, read(name, l.name, l.value), body, name')
    ensures ReadsTo(read, data, pos, name, body, name')
  {
    hide Occurs, ReadHeaders, PrintLine, Printable;
    PrintedLineIsRead(read, data, pos, name, l);
    LineIsNotEmpty(data, pos + |PrintLine(l)|, l');
  }

  // The lines are printed one after the other from pos to end.
  ghost predicate LinesOccur(data: string, pos: nat, ls: seq<Line>, end: nat)
    decreases |ls|
  {
    if ls == [] then pos == end
    else
      && Occurs(data, PrintLine(ls[0]), pos) && Printable(ls[0])
      && (|ls| > 1 ==> !Occurs(ls[1].name, CRLF, 0))
      && LinesOccur(data, pos + |PrintLine(ls[0])|, ls[1..], end)
  }

  predicate AllPrintable(ls: seq<Line>) {
    && (forall i :: 0 <= i < |ls| ==> Printable(ls[i]))
    && (forall i :: 0 < i < |ls| ==> !Occurs(ls[i].name, CRLF, 0))
  }

  lemma {:induction false} PrintedLinesOccur(data: string, pos: nat, ls: seq<Line>)
    requires AllPrintable(ls) && Occurs(data, PrintLines(ls), pos)
    ensures LinesOccur(data, pos, ls, pos + |PrintLines(ls)|)
    decreases |ls|
  {
    if ls != [] {
      OccursSplit(data, PrintLine(ls[0]), PrintLines(ls[1..]), pos);
      PrintedLinesOccur(data, pos + |PrintLine(ls[0])|, ls[1..]);
    }
  }

  lemma {:induction false} PrintedHeaders(read: Reader, data: string, pos: nat, name: string, ls: seq<Line>, end: nat)
    requires ls != [] && LinesOccur(data, pos, ls, end) && Occurs(data, CRLF, end)
    ensures ReadsTo(read, data, pos, name, end + 2, NameAfter(read, name, ls))
    decreases |ls|
  {
    hide ReadHeaders, PrintLine, Occurs, Printable;
    var l, rest := ls[0], ls[1..];
    var next := pos + |PrintLine(l)|;
    if rest == [] {
      LastPrintedLine(read, data, pos, name, l);
    } else {
      PrintedHeaders(read, data, next, read(name, l.name, l.value), rest, end);
      EarlierPrintedLine(read, data, pos, name, l, rest[0], end + 2, NameAfter(read, name, ls));
    }
  }

  // The converse: headers that are read are lines, one after the other, up to an empty
  // line. So reading them means nothing else.
  lemma {:induction false} ReadLine(data: string, pos: nat, colon: nat, eol: nat) returns (l: Line)
    requires pos <= |data| && HeaderLine(data, pos) == Some((colon, eol))
    ensures l == Line(data[pos..colon], data[colon + 1..eol])
    ensures Occurs(data, PrintLine(l), pos) && pos + |PrintLine(l)| == eol + 2 && Printable(l)
  {
    hide Find, Occurs, Contains;
    l := Line(data[pos..colon], data[colon + 1..eol]);
    FindOccurs(data, ":", pos);
    FindOccurs(data, CRLF, colon + 1);
    OccursIsSlice(data, l.name, pos);
    OccursIsSlice(data, l.value, colon + 1);
    assert PrintLine(l) == l.name + (":" + (l.value + CRLF));
    OccursJoin(data, l.value, CRLF, colon + 1);
    OccursJoin(data, ":", l.value + CRLF, colon);
    OccursJoin(data, l.name, ":" + (l.value + CRLF), pos);
    NoColonBefore(data, pos, colon);
    NoCrlfBefore(data, colon + 1, eol);
  }

  lemma {:induction false} NoColonBefore(data: string, pos: nat, colon: nat)
    requires Find(data, ":", pos) == Some(colon)
    ensures Lacks(data[pos..colon], ':')
  {
    hide Find;
    FindIsFirst(data, ":", pos);
    forall i | 0 <= i < colon - pos ensures data[pos..colon][i] != ':' {
      assert !Occurs(data, ":", pos + i);
    }
  }

  lemma {:induction false} NoCrlfBefore(data: string, from: nat, eol: nat)
    requires Find(data, CRLF, from) == Some(eol)
    ensures !Contains(data[from..eol], CRLF)
  {
    hide Find;
    FindIsFirst(data, CRLF, from);
    forall i | 0 <= i <= eol - from ensures !Occurs(data[from..eol], CRLF, i) {
      OccursWithin(data, CRLF, from, eol, i);
      assert i < eol - from ==> !Occurs(data, CRLF, from + i);
    }
  }

  // A line that follows another one does not look empty.
  lemma {:induction false} NoEmptyName(data: string, pos: nat, l: Line)
    requires pos <= |data| && Occurs(data, PrintLine(l), pos) && !HasAt(data, CRLF, pos)
    ensures !Occurs(l.name, CRLF, 0)
  {
    hide PrintLine;
    LinePieces(data, pos, l);
    assert |l.name| >= 2 ==> data[pos + 0] == l.name[0 + 0] && data[pos + 1] == l.name[0 + 1];
  }

  lemma {:induction false} HeadersAreLines(read: Reader, data: string, pos: nat, name: string, body: nat, name': string)
      returns (ls: seq<Line>)
    requires ReadsTo(read, data, pos, name, body, name')
    ensures ls != [] && body >= 2 && LinesOccur(data, pos, ls, body - 2) && Occurs(data, CRLF, body - 2)
    ensures name' == NameAfter(read, name, ls) && Occurs(data, PrintLine(ls[0]), pos)
    decreases |data| - pos
  {
    hide HeaderLine, Occurs, PrintLine, Printable;
    var (colon, eol) := HeaderLine(data, pos).value;
    var l := ReadLine(data, pos, colon, eol);
    if HasAt(data, CRLF, eol + 2) {
      ls := [l];
      assert ls[1..] == [];
    } else {
      var rest := HeadersAreLines(read, data, eol + 2, read(name, l.name, l.value), body, name');
      NoEmptyName(data, eol + 2, rest[0]);
      ls := [l] + rest;
      assert ls[1..] == rest;
    }
  }

  // ---------------------------------------------------------------- bodies

  // The boundary contains neither CR nor LF.
  predicate BoundaryFits(boundary: string) {
    Lacks(boundary, '\r') && Lacks(boundary, '\n')
  }

  lemma {:induction false} NextDelimiterFound(data: string, boundary: string, pos: nat, value: string)
    requires BoundaryFits(boundary) && !Contains(value, BoundaryStart(boundary))
    requires Occurs(data, value, pos) && Occurs(data, CRLF, pos + |value|)
    requires Occurs(data, BoundaryStart(boundary), pos + |value| + 2)
    ensures Find(data, BoundaryStart(boundary), pos) == Some(pos + |value| + 2)
  {
    var bs, cr := BoundaryStart(boundary), pos + |value|;
    assert Lacks(bs, '\r') && Lacks(bs, '\n');
    assert data[cr + 0] == CRLF[0] == '\r' && data[cr + 1] == CRLF[1] == '\n';
    forall j | pos <= j < cr + 2 ensures !Occurs(data, bs, j) {
      if j + |bs| <= cr {
        var k := j - pos;
        assert !Occurs(value, bs, k);
        var x :| 0 <= x < |bs| && value[k + x] != bs[x];
        assert data[j + x] == data[pos + (k + x)] == value[k + x];
      } else if j <= cr {
        assert data[j + (cr - j)] == '\r' && bs[cr - j] != '\r';
      } else {
        assert data[j + 0] == '\n' && bs[0] != '\n';
      }
    }
    FindIs(data, bs, pos, cr + 2);
  }

  // ---------------------------------------------------------------- one field

  // Where the pieces of a printed field lie: its delimiter at d, its header lines from h
  // to e, its body at body.
  ghost predicate FieldAt(data: string, boundary: string, f: Field, d: nat, h: nat, e: nat, body: nat) {
    && h == d + |BoundaryStart(boundary)| + 2 && body == e + 2 && f.headers != []
    && Occurs(data, BoundaryStart(boundary), d) && Occurs(data, CRLF, h - 2)
    && LinesOccur(data, h, Lines(f), e) && Occurs(data, CRLF, e)
    && Occurs(data, f.value, body) && Occurs(data, CRLF, body + |f.value|)
  }

  lemma {:induction false} FieldPieces(data: string, boundary: string, f: Field, d: nat) returns (h: nat, e: nat, body: nat)
    requires Occurs(data, PrintField(boundary, f), d) && f.headers != [] && AllPrintable(Lines(f))
    ensures FieldAt(data, boundary, f, d, h, e, body)
    ensures body + |f.value| + 2 == d + |PrintField(boundary, f)|
  {
    hide Occurs, PrintLines, Lines, LinesOccur, AllPrintable, BoundaryStart;
    var lines := PrintLines(Lines(f));
    h := d + |BoundaryStart(boundary)| + 2;
    e := h + |lines|;
    body := e + 2;
    OccursSplit(data, BoundaryStart(boundary), CRLF + (lines + (CRLF + (f.value + CRLF))), d);
    OccursSplit(data, CRLF, lines + (CRLF + (f.value + CRLF)), h - 2);
    OccursSplit(data, lines, CRLF + (f.value + CRLF), h);
    OccursSplit(data, CRLF, f.value + CRLF, e);
    OccursSplit(data, f.value, CRLF, body);
    PrintedLinesOccur(data, h, Lines(f));
  }

  lemma {:induction false} DelimiterIsNotLast(data: string, boundary: string, d: nat)
    requires Occurs(data, BoundaryStart(boundary), d) && Occurs(data, CRLF, d + |BoundaryStart(boundary)|)
    ensures !Occurs(data, BoundaryEnd(boundary), d)
  {
    var n := |BoundaryStart(boundary)|;
    assert data[d + n + 0] == CRLF[0] && BoundaryEnd(boundary)[n] == '-';
    assert data[d + n] == '\r';
  }

  lemma {:induction false} HeadersOfField(read: Reader, data: string, boundary: string, f: Field, d: nat, h: nat, e: nat, body: nat)
    requires |data| < SIZE_MODULUS && FieldAt(data, boundary, f, d, h, e, body)
    ensures d + 2 <= body <= |data|
    ensures Parts(read, boundary, data, d) ==
            PartsFromBody(read, boundary, data, d, body, NameAfter(read, "", Lines(f)))
  {
    hide LinesOccur, ReadHeaders, PartsFromBody, BoundaryStart, BoundaryEnd, NameAfter;
    DelimiterIsNotLast(data, boundary, d);
    FindIs(data, BoundaryStart(boundary), d, d);
    PrintedHeaders(read, data, h, "", Lines(f), e);
    assert Parts(read, boundary, data, d) == PartsAt(read, boundary, data, d);
    assert PartsAt(read, boundary, data, d) == PartsFromHeaders(read, boundary, data, d, h, "");
  }

  lemma {:induction false} BodyOfField(read: Reader, data: string, boundary: string, f: Field, d: nat, body: nat, name: string)
    requires d + 2 <= body <= |data| < SIZE_MODULUS
    requires BoundaryFits(boundary) && !Contains(f.value, BoundaryStart(boundary))
    requires Occurs(data, f.value, body) && Occurs(data, CRLF, body + |f.value|)
    requires Occurs(data, BoundaryStart(boundary), body + |f.value| + 2)
    ensures var next := body + |f.value| + 2;
            && next <= |data|
            && PartsFromBody(read, boundary, data, d, body, name) ==
               [Part(d, body, next, name, f.value)] + Parts(read, boundary, data, next)
  {
    hide Parts, BoundaryStart, BoundaryFits, Contains;
    NextDelimiterFound(data, boundary, body, f.value);
    OccursIsSlice(data, f.value, body);
  }

  // ---------------------------------------------------------------- whole messages

  // The name is that of a disposition, whatever its case and the spaces around it.
  predicate IsDisposition(name: string) {
    EqualsIgnoringCase(Trim(name), "content-disposition")
  }

  predicate HeaderFits(h: Header) {
    && Lacks(h.name, ':')
    && match h
       case Other(name, value) => !IsDisposition(name) && !Contains(value, CRLF)
       case Disposition(name, blanks, kind, params) =>
         IsDisposition(name) && Blanks(blanks) && IsToken(kind) && ParamsFit(params)
  }

  predicate HeadersFit(hs: seq<Header>) {
    && (forall i :: 0 <= i < |hs| ==> HeaderFits(hs[i]))
    && (forall i :: 0 < i < |hs| ==> !Occurs(hs[i].name, CRLF, 0))
  }

  // A field the theorem covers: it has headers, and the value does not contain a
  // delimiter. The value may contain CRLFs, and it may be empty.
  predicate Fits(boundary: string, f: Field) {
    f.headers != [] && HeadersFit(f.headers) && !Contains(f.value, BoundaryStart(boundary))
  }

  // The name a header gives: that of a form-data disposition with a name parameter.
  function GivenName(h: Header): Option<string> {
    if h.Disposition? && EqualsIgnoringCase(h.kind, "form-data") then FirstName(h.params) else None
  }

  // The last of the names the headers give.
  function LastName(hs: seq<Header>): Option<string> {
    if hs == [] then None
    else match LastName(hs[1..])
         case Some(name) => Some(name)
         case None => GivenName(hs[0])
  }

  // Fields whose headers give no name go under the empty one.
  function FieldName(f: Field): string {
    match LastName(f.headers)
    case None => ""
    case Some(name) => name
  }

  // The last value given for each name.
  function LastWins(fs: seq<Field>): map<string, string> {
    if fs == [] then map[] else LastWins(fs[..|fs| - 1])[FieldName(fs[|fs| - 1]) := fs[|fs| - 1].value]
  }

  lemma {:induction false} LastWinsFirst(fs: seq<Field>)
    requires fs != []
    ensures LastWins(fs) == map[FieldName(fs[0]) := fs[0].value] + LastWins(fs[1..])
  {
    hide FieldName;
    var front, rest, last := fs[..|fs| - 1], fs[1..], fs[|fs| - 1];
    if |fs| > 1 {
      LastWinsFirst(front);
      assert rest[..|rest| - 1] == front[1..];
      assert rest[|rest| - 1] == last;
    }
  }

  // Whatever follows a printed field, it starts with a delimiter.
  lemma {:induction false} DelimiterFollows(data: string, boundary: string, fs: seq<Field>, pos: nat)
    requires Occurs(data, Print(boundary, fs), pos)
    ensures Occurs(data, BoundaryStart(boundary), pos)
  {
    hide Occurs, BoundaryStart, PrintLines, Lines;
    if fs == [] {
      OccursSplit(data, BoundaryEnd(boundary), CRLF, pos);
      OccursSplit(data, BoundaryStart(boundary), "--", pos);
    } else {
      OccursSplit(data, PrintField(boundary, fs[0]), Print(boundary, fs[1..]), pos);
      OccursSplit(data, BoundaryStart(boundary),
                  CRLF + (PrintLines(Lines(fs[0])) + (CRLF + (fs[0].value + CRLF))), pos);
    }
  }

  lemma {:induction false} NothingAfterEnd(read: Reader, data: string, boundary: string, pos: nat)
    requires |data| < SIZE_MODULUS && Occurs(data, Print(boundary, []), pos)
    ensures pos <= |data| && Parts(read, boundary, data, pos) == []
  {
    hide BoundaryStart, PartsAt;
    OccursSplit(data, BoundaryEnd(boundary), CRLF, pos);
    DelimiterFollows(data, boundary, [], pos);
    FindIs(data, BoundaryStart(boundary), pos, pos);
  }

  // The headers of the field give the part its name.
  ghost predicate Named(read: Reader, f: Field) {
    NameAfter(read, "", Lines(f)) == FieldName(f)
  }

  lemma {:induction false} NoCarriageReturnNoCrlf(s: string)
    requires Lacks(s, '\r')
    ensures !Contains(s, CRLF)
  {
    forall i | 0 <= i <= |s| ensures !Occurs(s, CRLF, i) {
      assert CRLF[0] == '\r';
      assert i < |s| ==> s[i + 0] != '\r';
    }
  }

  lemma {:induction false} LacksJoined(a: string, b: string, c: char)
    requires Lacks(a, c) && Lacks(b, c)
    ensures Lacks(a + b, c)
  {
  }

  lemma {:induction false} ParamLacksReturn(p: Param)
    requires ParamFits(p)
    ensures Lacks(PrintParam(p), '\r')
  {
  }

  lemma {:induction false} ParamsLackReturn(ps: seq<Param>)
    requires ParamsFit(ps)
    ensures Lacks(PrintParams(ps), '\r')
  {
    hide ParamFits, PrintParam;
    if ps != [] {
      ParamLacksReturn(ps[0]);
      ParamsLackReturn(ps[1..]);
      LacksJoined(PrintParam(ps[0]), PrintParams(ps[1..]), '\r');
    }
  }

  lemma {:induction false} DispositionIsPrintable(blanks: string, kind: string, ps: seq<Param>)
    requires Blanks(blanks) && IsToken(kind) && ParamsFit(ps)
    ensures !Contains(DispositionValue(blanks, kind, ps), CRLF)
  {
    hide Contains, PrintParams, ParamsFit;
    ParamsLackReturn(ps);
    assert Lacks(blanks, '\r') && Lacks(kind, '\r');
    LacksJoined(kind, PrintParams(ps), '\r');
    LacksJoined(blanks, kind + PrintParams(ps), '\r');
    NoCarriageReturnNoCrlf(DispositionValue(blanks, kind, ps));
  }

  lemma {:induction false} HeaderIsPrintable(h: Header)
    requires HeaderFits(h)
    ensures Printable(LineOf(h)) && LineOf(h).name == h.name
  {
    hide Contains, Blanks, IsToken, ParamsFit, IsDisposition, Lacks, DispositionValue;
    if h.Disposition? {
      DispositionIsPrintable(h.blanks, h.kind, h.params);
    }
  }

  lemma {:induction false} HeadersArePrintable(hs: seq<Header>)
    requires HeadersFit(hs)
    ensures AllPrintable(LinesOf(hs))
  {
    hide HeaderFits, Printable, LineOf, Occurs;
    forall i | 0 <= i < |hs| ensures Printable(LinesOf(hs)[i]) && LinesOf(hs)[i].name == hs[i].name {
      assert HeaderFits(hs[i]);
      HeaderIsPrintable(hs[i]);
    }
  }

  lemma {:induction false} FirstFieldIsParsed(read: Reader, data: string, boundary: string, f: Field, rest: seq<Field>, pos: nat)
    returns (p: Part)
    requires |data| < SIZE_MODULUS && BoundaryFits(boundary) && Fits(boundary, f) && Named(read, f)
    requires Occurs(data, PrintField(boundary, f) + Print(boundary, rest), pos)
    ensures var next := pos + |PrintField(boundary, f)|;
            && next <= |data| && p.name == FieldName(f) && p.value == f.value
            && Parts(read, boundary, data, pos) == [p] + Parts(read, boundary, data, next)
  {
    hide Occurs, BoundaryStart, PrintLines, NameAfter, FieldName, PrintField, Print, LinesOccur, Parts, PartsFromBody,
      BoundaryFits, Contains, HeadersFit, AllPrintable;
    OccursSplit(data, PrintField(boundary, f), Print(boundary, rest), pos);
    DelimiterFollows(data, boundary, rest, pos + |PrintField(boundary, f)|);
    HeadersArePrintable(f.headers);
    var h, e, body := FieldPieces(data, boundary, f, pos);
    HeadersOfField(read, data, boundary, f, pos, h, e, body);
    BodyOfField(read, data, boundary, f, pos, body, FieldName(f));
    p := Part(pos, body, body + |f.value| + 2, FieldName(f), f.value);
  }

  predicate AllFit(boundary: string, fs: seq<Field>) {
    forall i :: 0 <= i < |fs| ==> Fits(boundary, fs[i])
  }

  ghost predicate AllNamed(read: Reader, fs: seq<Field>) {
    forall i :: 0 <= i < |fs| ==> Named(read, fs[i])
  }

  lemma {:induction false} PrintedFieldsAreCollected(read: Reader, data: string, boundary: string, fs: seq<Field>, pos: nat,
                                                     args: map<string, string>)
    requires |data| < SIZE_MODULUS && BoundaryFits(boundary) && AllFit(boundary, fs) && AllNamed(read, fs)
    requires Occurs(data, Print(boundary, fs), pos)
    ensures pos <= |data| && Collect(args, Parts(read, boundary, data, pos)) == args + LastWins(fs)
    decreases |fs|
  {
    hide Occurs, BoundaryStart, BoundaryEnd, PrintField, Parts, BoundaryFits, Fits, Named, FieldName;
    if fs == [] {
      NothingAfterEnd(read, data, boundary, pos);
    } else {
      var f, next := fs[0], pos + |PrintField(boundary, fs[0])|;
      OccursSplit(data, PrintField(boundary, f), Print(boundary, fs[1..]), pos);
      var p := FirstFieldIsParsed(read, data, boundary, f, fs[1..], pos);
      CollectFirst(args, p, Parts(read, boundary, data, next));
      var args' := args[FieldName(f) := f.value];
      PrintedFieldsAreCollected(read, data, boundary, fs[1..], next, args');
      LastWinsFirst(fs);
      assert args' + LastWins(fs[1..]) == args + LastWins(fs);
    }
  }

  // ---------------------------------------------------------------- the name of a field

  lemma {:induction false} HeaderGivesName(name: string, h: Header)
    requires HeaderFits(h)
    ensures HeaderLineName(name, LineOf(h).name, LineOf(h).value) ==
            match GivenName(h) case None => name case Some(n) => n
  {
    hide Trim, EqualsIgnoringCase, DispositionName, DispositionValue, Contains, Blanks, IsToken, ParamsFit, FirstName;
    if h.Disposition? {
      DispositionGivesFirstName(h.blanks, h.kind, h.params);
    }
  }

  lemma {:induction false} HeadersGiveName(name: string, hs: seq<Header>)
    requires forall i :: 0 <= i < |hs| ==> HeaderFits(hs[i])
    ensures NameAfter(HeaderLineName, name, LinesOf(hs)) == match LastName(hs) case None => name case Some(n) => n
    decreases |hs|
  {
    hide HeaderLineName, HeaderFits, GivenName, LineOf;
    if hs != [] {
      HeaderGivesName(name, hs[0]);
      assert LinesOf(hs)[1..] == LinesOf(hs[1..]);
      HeadersGiveName(match GivenName(hs[0]) case None => name case Some(n) => n, hs[1..]);
    }
  }

  lemma {:induction false} FieldIsNamed(f: Field)
    requires HeadersFit(f.headers)
    ensures Named(HeaderLineName, f)
  {
    hide HeaderLineName, LastName, HeaderFits, NameAfter;
    HeadersGiveName("", f.headers);
  }

  // Print, then parse: the arguments are exactly the fields, the last of each name. The
  // postcondition of Parse makes this a statement about the parser itself.
  lemma {:induction false} ParseInvertsPrint(boundary: string, fs: seq<Field>)
    requires BoundaryFits(boundary) && AllFit(boundary, fs)
    requires |Print(boundary, fs)| < SIZE_MODULUS
    ensures Collect(map[], Parts(HeaderLineName, boundary, Print(boundary, fs), 0)) == LastWins(fs)
  {
    hide Print, Parts, Collect, LastWins, HeaderLineName, Named, BoundaryFits, HeadersFit, Contains;
    forall i | 0 <= i < |fs| ensures Named(HeaderLineName, fs[i]) {
      assert Fits(boundary, fs[i]);
      FieldIsNamed(fs[i]);
    }
    var args: map<string, string> := map[];
    PrintedFieldsAreCollected(HeaderLineName, Print(boundary, fs), boundary, fs, 0, args);
    assert args + LastWins(fs) == LastWins(fs);
  }

  // ---------------------------------------------------------------- the client of the test suite

  // Its disposition has the name as its only parameter; other headers may follow.
  function ClientField(name: string, others: seq<Line>, value: string): Field {
    Field([Disposition("Content-Disposition", " ", "form-data", [Param("", " ", "name", Some(name))])] + Others(others), value)
  }

  function Others(ls: seq<Line>): (hs: seq<Header>)
    ensures |hs| == |ls| && forall i :: 0 <= i < |hs| ==> hs[i] == Other(ls[i].name, ls[i].value)
  {
    seq(|ls|, i requires 0 <= i < |ls| => Other(ls[i].name, ls[i].value))
  }

  predicate OtherFits(l: Line) {
    IsToken(l.name) && !EqualsIgnoringCase(l.name, "content-disposition") && !Contains(l.value, CRLF)
  }

  lemma {:induction false} OthersGiveNoName(hs: seq<Header>)
    requires forall i :: 0 <= i < |hs| ==> hs[i].Other?
    ensures LastName(hs) == None
  {
    if hs != [] {
      OthersGiveNoName(hs[1..]);
    }
  }

  lemma {:induction false} ClientNameFits()
    ensures IsDisposition("Content-Disposition") && Lacks("Content-Disposition", ':')
  {
    hide Trim;
    TrimKeepsSolid("Content-Disposition");
  }

  lemma {:induction false} TokensAreTrimmed(s: string)
    requires IsToken(s)
    ensures Trim(s) == s
  {
    hide Trim;
    TrimKeepsSolid(s);
  }

  lemma {:induction false} OtherHeaderFits(l: Line)
    requires OtherFits(l)
    ensures HeaderFits(Other(l.name, l.value)) && !Occurs(l.name, CRLF, 0)
  {
    hide Trim, Contains, EqualsIgnoringCase;
    TokensAreTrimmed(l.name);
    assert l.name[0 + 0] != CRLF[0] == '\r';
  }

  // What the client prints is covered: any token for a name, any other headers, any
  // value without the delimiter.
  lemma {:induction false} ClientFieldFits(boundary: string, name: string, others: seq<Line>, value: string)
    requires IsToken(name) && (forall i :: 0 <= i < |others| ==> OtherFits(others[i]))
    requires !Contains(value, BoundaryStart(boundary))
    ensures Fits(boundary, ClientField(name, others, value)) && FieldName(ClientField(name, others, value)) == name
  {
    hide IsDisposition, Lacks, OtherFits, IsToken, EqualsIgnoringCase, Contains, Occurs, BoundaryStart;
    var f := ClientField(name, others, value);
    ClientNameFits();
    FormDataIsToken();
    forall i | 0 < i < |f.headers| ensures HeaderFits(f.headers[i]) && !Occurs(f.headers[i].name, CRLF, 0) {
      OtherHeaderFits(others[i - 1]);
    }
    assert HeaderFits(f.headers[0]);
    OthersGiveNoName(f.headers[1..]);
  }

  // The text of a message, written out.
  lemma {:induction false} ClientFieldText(boundary: string, name: string, value: string)
    ensures Print(boundary, []) == "--" + boundary + "--" + "\r\n"
    ensures PrintField(boundary, ClientField(name, [], value)) ==
            "--" + boundary + "\r\n" + "Content-Disposition" + ":" + " form-data; name=" + name + "\r\n" + "\r\n" + value + "\r\n"
  {
    var f := ClientField(name, [], value);
    ClientDisposition(name);
    assert Lines(f) == [Line("Content-Disposition", " form-data; name=" + name)];
    assert PrintLines(Lines(f)[1..]) == [];
  }

}
