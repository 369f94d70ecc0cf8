// What the multipart parser stores, for every input, well formed or not.

module MultipartSlices {
  import opened Basics
  import opened Text
  import opened MultipartFormData

  function HeadersStart(boundary: string, p: Part): nat {
    p.delimiter + |BoundaryStart(boundary)| + 2
  }

  // A part starts with a delimiter that ends its line.
  ghost predicate Delimited(boundary: string, data: string, p: Part) {
    && Occurs(data, BoundaryStart(boundary), p.delimiter)
    && !Occurs(data, BoundaryEnd(boundary), p.delimiter)
    && Occurs(data, CRLF, HeadersStart(boundary, p) - 2)
  }

  // Then come header lines and an empty line, which give its name.
  ghost predicate Headed(read: Reader, boundary: string, data: string, p: Part) {
    var h := HeadersStart(boundary, p);
    h <= |data| && ReadHeaders(read, data, h, "") == Some((p.body, p.name))
  }

  // Then comes the body, up to a CRLF and the next delimiter.
  ghost predicate Ended(boundary: string, data: string, p: Part) {
    && p.body <= p.end && Find(data, BoundaryStart(boundary), p.body) == Some(p.end)
    && Occurs(data, CRLF, p.end - 2)
  }

  ghost predicate Valued(data: string, p: Part) {
    && 2 <= p.body <= p.end < SIZE_MODULUS && p.body <= |data|
    && p.value == Sub(data, p.body, SizeMinus(p.end - 2, p.body))
  }

  ghost predicate Placed(read: Reader, boundary: string, data: string, p: Part) {
    Delimited(boundary, data, p) && Headed(read, boundary, data, p) && Ended(boundary, data, p) && Valued(data, p)
  }

  lemma {:induction false} BodyEnds(read: Reader, boundary: string, data: string, d: nat, body: nat, name: string)
    requires d + 2 <= body <= |data| < SIZE_MODULUS && PartsFromBody(read, boundary, data, d, body, name) != []
    ensures var ps := PartsFromBody(read, boundary, data, d, body, name);
            && ps[0].delimiter == d && ps[0].body == body && ps[0].name == name
            && Ended(boundary, data, ps[0]) && Valued(data, ps[0])
            && ps[1..] == Parts(read, boundary, data, ps[0].end)
  {
    var end := Find(data, BoundaryStart(boundary), body).value;
  }

  lemma {:induction false} DelimiterFound(read: Reader, boundary: string, data: string, pos: nat)
    requires pos <= |data| < SIZE_MODULUS && Parts(read, boundary, data, pos) != []
    ensures Find(data, BoundaryStart(boundary), pos).Some?
    ensures var d := Find(data, BoundaryStart(boundary), pos).value;
            !Occurs(data, BoundaryEnd(boundary), d) && Parts(read, boundary, data, pos) == PartsAt(read, boundary, data, d)
  {
  }

  lemma {:induction false} DelimiterLineEnds(read: Reader, boundary: string, data: string, d: nat)
    requires d + |BoundaryStart(boundary)| <= |data| < SIZE_MODULUS && PartsAt(read, boundary, data, d) != []
    ensures var h := d + |BoundaryStart(boundary)| + 2;
            && h <= |data| && Occurs(data, CRLF, h - 2)
            && PartsAt(read, boundary, data, d) == PartsFromHeaders(read, boundary, data, d, h, "")
  {
  }

  lemma {:induction false} HeadersEnd(read: Reader, boundary: string, data: string, d: nat, h: nat, name: string)
    requires d + 2 <= h <= |data| < SIZE_MODULUS && PartsFromHeaders(read, boundary, data, d, h, name) != []
    ensures ReadHeaders(read, data, h, name).Some?
    ensures var (body, name') := ReadHeaders(read, data, h, name).value;
            PartsFromHeaders(read, boundary, data, d, h, name) == PartsFromBody(read, boundary, data, d, body, name')
  {
  }

  // The first part is placed after its delimiter, and the other parts follow it.
  ghost predicate StartsWith(read: Reader, boundary: string, data: string, ps: seq<Part>, d: nat)
    requires |data| < SIZE_MODULUS
  {
    && ps != [] && ps[0].delimiter == d && ps[0].end <= |data|
    && Headed(read, boundary, data, ps[0]) && Ended(boundary, data, ps[0]) && Valued(data, ps[0])
    && ps[1..] == Parts(read, boundary, data, ps[0].end)
  }

  lemma {:induction false} FirstPartAfterHeaders(read: Reader, boundary: string, data: string, d: nat)
    requires |data| < SIZE_MODULUS && d + |BoundaryStart(boundary)| + 2 <= |data|
    requires PartsFromHeaders(read, boundary, data, d, d + |BoundaryStart(boundary)| + 2, "") != []
    ensures StartsWith(read, boundary, data,
                       PartsFromHeaders(read, boundary, data, d, d + |BoundaryStart(boundary)| + 2, ""), d)
  {
    hide Find, Occurs, BoundaryStart, PartsFromHeaders, PartsFromBody;
    var h := d + |BoundaryStart(boundary)| + 2;
    HeadersEnd(read, boundary, data, d, h, "");
    var (body, name) := ReadHeaders(read, data, h, "").value;
    BodyEnds(read, boundary, data, d, body, name);
  }

  lemma {:induction false} FirstPartIsPlaced(read: Reader, boundary: string, data: string, pos: nat)
    requires pos <= |data| < SIZE_MODULUS && Parts(read, boundary, data, pos) != []
    ensures var p := Parts(read, boundary, data, pos)[0];
            && Find(data, BoundaryStart(boundary), pos) == Some(p.delimiter)
            && Placed(read, boundary, data, p)
            && Parts(read, boundary, data, pos)[1..] == Parts(read, boundary, data, p.end)
  {
    hide Occurs, Find, BoundaryStart, BoundaryEnd, PartsAt, Headed, Ended, Valued;
    DelimiterFound(read, boundary, data, pos);
    var d := Find(data, BoundaryStart(boundary), pos).value;
    FindOccurs(data, BoundaryStart(boundary), pos);
    DelimiterLineEnds(read, boundary, data, d);
    FirstPartAfterHeaders(read, boundary, data, d);
  }

  // All parts are placed, and each starts with the delimiter that ends the one before it.
  ghost predicate InOrder(read: Reader, boundary: string, data: string, ps: seq<Part>) {
    && (forall k :: 0 <= k < |ps| ==> Placed(read, boundary, data, ps[k]))
    && (forall k :: 0 < k < |ps| ==> ps[k].delimiter == ps[k - 1].end)
  }

  lemma {:induction false} InOrderFirst(read: Reader, boundary: string, data: string, ps: seq<Part>)
    requires ps != [] && Placed(read, boundary, data, ps[0]) && InOrder(read, boundary, data, ps[1..])
    requires |ps| > 1 ==> ps[1].delimiter == ps[0].end
    ensures InOrder(read, boundary, data, ps)
  {
    forall k | 0 < k < |ps|
      ensures Placed(read, boundary, data, ps[k]) && ps[k].delimiter == ps[k - 1].end
    {
      assert ps[k] == ps[1..][k - 1];
      assert k > 1 ==> ps[k - 1] == ps[1..][k - 2];
    }
  }

  lemma {:induction false} FirstDelimiter(read: Reader, boundary: string, data: string, pos: nat)
    requires pos <= |data| < SIZE_MODULUS && Parts(read, boundary, data, pos) != []
    requires Find(data, BoundaryStart(boundary), pos) == Some(pos)
    ensures Parts(read, boundary, data, pos)[0].delimiter == pos
  {
    FirstPartIsPlaced(read, boundary, data, pos);
  }

  lemma {:induction false} PartsArePlaced(read: Reader, boundary: string, data: string, pos: nat)
    requires pos <= |data| < SIZE_MODULUS
    ensures InOrder(read, boundary, data, Parts(read, boundary, data, pos))
    decreases |data| - pos
  {
    var ps := Parts(read, boundary, data, pos);
    if ps != [] {
      FirstPartIsPlaced(read, boundary, data, pos);
      var end := ps[0].end;
      PartsArePlaced(read, boundary, data, end);
      FindOccurs(data, BoundaryStart(boundary), ps[0].body);
      FindIs(data, BoundaryStart(boundary), end, end);
      if |ps| > 1 {
        assert ps[1] == ps[1..][0];
        FirstDelimiter(read, boundary, data, end);
      }
      InOrderFirst(read, boundary, data, ps);
    }
  }

  // Nothing that is well placed is passed over: if a part has its delimiter at the next
  // one of the message, it is the next part.
  lemma {:induction false} PlacedPartIsNext(read: Reader, boundary: string, data: string, pos: nat, p: Part)
    requires pos <= |data| < SIZE_MODULUS && Find(data, BoundaryStart(boundary), pos) == Some(p.delimiter)
    requires Placed(read, boundary, data, p)
    ensures p.end <= |data| && Parts(read, boundary, data, pos) == [p] + Parts(read, boundary, data, p.end)
  {
    hide Occurs, Find, ReadHeaders, BoundaryStart, BoundaryEnd, Parts;
    var d, h := p.delimiter, HeadersStart(boundary, p);
    DelimiterStep(read, boundary, data, pos, d);
    assert PartsFromHeaders(read, boundary, data, d, h, "") == PartsFromBody(read, boundary, data, d, p.body, p.name);
    assert PartsFromBody(read, boundary, data, d, p.body, p.name) == [p] + Parts(read, boundary, data, p.end);
  }

  lemma {:induction false} DelimiterStep(read: Reader, boundary: string, data: string, pos: nat, d: nat)
    requires pos <= |data| < SIZE_MODULUS && Find(data, BoundaryStart(boundary), pos) == Some(d)
    requires !Occurs(data, BoundaryEnd(boundary), d) && Occurs(data, CRLF, d + |BoundaryStart(boundary)|)
    ensures var h := d + |BoundaryStart(boundary)| + 2;
            h <= |data| && Parts(read, boundary, data, pos) == PartsFromHeaders(read, boundary, data, d, h, "")
  {
    hide Find, BoundaryStart, BoundaryEnd, PartsFromHeaders;
    assert Parts(read, boundary, data, pos) == PartsAt(read, boundary, data, d);
  }

  // So parsing stops exactly where no part is placed at the next delimiter.
  lemma {:induction false} PartsStopIff(read: Reader, boundary: string, data: string, pos: nat)
    requires pos <= |data| < SIZE_MODULUS
    ensures Parts(read, boundary, data, pos) == [] <==>
            !exists p: Part :: Find(data, BoundaryStart(boundary), pos) == Some(p.delimiter) && Placed(read, boundary, data, p)
  {
    hide Placed, Find, Parts;
    if Parts(read, boundary, data, pos) != [] {
      FirstPartIsPlaced(read, boundary, data, pos);
      var p := Parts(read, boundary, data, pos)[0];
      assert Placed(read, boundary, data, p);
    }
    forall p: Part | Find(data, BoundaryStart(boundary), pos) == Some(p.delimiter) && Placed(read, boundary, data, p)
      ensures Parts(read, boundary, data, pos) != []
    {
      PlacedPartIsNext(read, boundary, data, pos, p);
    }
  }

  // ---------------------------------------------------------------- values

  lemma {:induction false} CrlfsDoNotOverlap(data: string, i: nat)
    requires Occurs(data, CRLF, i)
    ensures !Occurs(data, CRLF, i + 1)
  {
    assert data[i + 1] == CRLF[1] != CRLF[0];
  }

  lemma {:induction false} BodyAfterEmptyLine(read: Reader, boundary: string, data: string, p: Part)
    requires Placed(read, boundary, data, p)
    ensures p.body >= 4 && Occurs(data, CRLF, p.body - 4) && Occurs(data, CRLF, p.body - 2)
  {
    hide Occurs, ReadHeaders, Find;
    HeadersEndWithEmptyLine(read, data, HeadersStart(boundary, p), "");
  }

  lemma {:induction false} HeadersEndWithEmptyLine(read: Reader, data: string, pos: nat, name: string)
    requires pos <= |data| && ReadHeaders(read, data, pos, name).Some?
    ensures var body := ReadHeaders(read, data, pos, name).value.0;
            Occurs(data, CRLF, body - 4) && Occurs(data, CRLF, body - 2)
    decreases |data| - pos
  {
    hide Occurs, Find;
    var (colon, eol) := HeaderLine(data, pos).value;
    if HasAt(data, CRLF, eol + 2) {
      FindOccurs(data, CRLF, colon + 1);
    } else {
      HeadersEndWithEmptyLine(read, data, eol + 2, read(name, data[pos..colon], data[colon + 1..eol]));
    }
  }

  // A stored value is the slice of the message between the empty line and the CRLF
  // before the next delimiter, and has no delimiter in it, unless a delimiter starts
  // exactly where the body does.
  lemma {:induction false} ValueIsSlice(read: Reader, boundary: string, data: string, p: Part)
    requires Placed(read, boundary, data, p)
    requires !Occurs(data, BoundaryStart(boundary), p.body)
    ensures p.body + 2 <= p.end && p.value == data[p.body..p.end - 2]
    ensures Occurs(data, CRLF, p.body - 4) && Occurs(data, CRLF, p.body - 2)
    ensures Occurs(data, CRLF, p.end - 2) && Occurs(data, BoundaryStart(boundary), p.end)
    ensures !Contains(p.value, BoundaryStart(boundary))
  {
    hide Occurs, ReadHeaders, BoundaryStart, Headed, Delimited;
    assert p.end != p.body;
    BodyAfterEmptyLine(read, boundary, data, p);
    if p.end == p.body + 1 {
      CrlfsDoNotOverlap(data, p.body - 2);
    }
    FindIsFirst(data, BoundaryStart(boundary), p.body);
    FindOccurs(data, BoundaryStart(boundary), p.body);
    forall i | 0 <= i <= |p.value| ensures !Occurs(p.value, BoundaryStart(boundary), i) {
      OccursWithin(data, BoundaryStart(boundary), p.body, p.end - 2, i);
    }
  }

  // In that case the length wraps, and the value is the whole rest of the message.
  lemma {:induction false} ValueOverruns(read: Reader, boundary: string, data: string, p: Part)
    requires |data| < SIZE_MODULUS - 2 && Placed(read, boundary, data, p)
    requires Occurs(data, BoundaryStart(boundary), p.body)
    ensures p.end == p.body && p.value == data[p.body..] && Contains(p.value, BoundaryStart(boundary))
  {
    FindIsFirst(data, BoundaryStart(boundary), p.body);
    assert p.end == p.body;
    OccursWithin(data, BoundaryStart(boundary), p.body, |data|, 0);
  }

  // That happens: a part without CRLF between its headers and the next delimiter.
  lemma {:induction false} ValueCanOverrun(read: Reader)
    ensures var data := "--b\r\nX:y\r\n\r\n--b";
            && Parts(read, "b", data, 0) != [] && Parts(read, "b", data, 0)[0].body == 12
            && Occurs(data, BoundaryStart("b"), 12) && Parts(read, "b", data, 0)[0].value == "--b"
  {
    hide ReadHeaders;
    var data, bs := "--b\r\nX:y\r\n\r\n--b", BoundaryStart("b");
    assert bs == "--b" && |data| == 15;
    FindIs(data, bs, 0, 0);
    assert !Occurs(data, BoundaryEnd("b"), 0) by { assert BoundaryEnd("b")[3] == '-' && data[0 + 3] == '\r'; }
    OverrunHeaders(read, data);
    FindIs(data, bs, 12, 12);
    assert data[12..] == "--b";
  }

  lemma {:induction false} OverrunHeaders(read: Reader, data: string)
    requires data == "--b\r\nX:y\r\n\r\n--b"
    ensures ReadHeaders(read, data, 5, "") == Some((12, read("", "X", "y")))
  {
    assert !Occurs(data, ":", 5) by { assert data[5 + 0] == 'X' && ":"[0] == ':'; }
    FindIs(data, ":", 5, 6);
    assert !Occurs(data, CRLF, 7) by { assert data[7 + 0] == 'y' && CRLF[0] == '\r'; }
    FindIs(data, CRLF, 7, 8);
    assert data[5..6] == "X" && data[7..8] == "y";
    ReadHeadersLine(read, data, 5, "", 6, 8, read("", "X", "y"));
  }

  // So a stored value is free of delimiters exactly when no delimiter starts at its body.
  lemma {:induction false} ValueCleanIff(read: Reader, boundary: string, data: string, k: nat)
    requires |data| < SIZE_MODULUS - 2 && k < |Parts(read, boundary, data, 0)|
    ensures var p := Parts(read, boundary, data, 0)[k];
            !Contains(p.value, BoundaryStart(boundary)) <==> !Occurs(data, BoundaryStart(boundary), p.body)
  {
    var p := Parts(read, boundary, data, 0)[k];
    PartsArePlaced(read, boundary, data, 0);
    if Occurs(data, BoundaryStart(boundary), p.body) {
      ValueOverruns(read, boundary, data, p);
    } else {
      ValueIsSlice(read, boundary, data, p);
    }
  }

  // ---------------------------------------------------------------- names

  lemma {:induction false} FindWithin(data: string, pattern: string, from: nat, to: nat, start: nat, i: nat)
    requires from <= start && i + |pattern| <= to <= |data| && Find(data, pattern, start) == Some(i)
    ensures Find(data[from..to], pattern, start - from) == Some(i - from)
    decreases i - start
  {
    OccursWithin(data, pattern, from, to, start - from);
    if start < i {
      FindWithin(data, pattern, from, to, start + 1, i);
    }
  }

  lemma {:induction false} HeaderLineFoundWithin(data: string, from: nat, to: nat, pos: nat, colon: nat, eol: nat)
    requires from <= pos <= |data| && HeaderLine(data, pos) == Some((colon, eol)) && eol + 4 <= to <= |data|
    ensures HeaderLine(data[from..to], pos - from) == Some((colon - from, eol - from))
  {
    FindWithin(data, ":", from, to, pos, colon);
    FindWithin(data, CRLF, from, to, colon + 1, eol);
  }

  // The header line at pos reads the same, and ends the headers or not, in a slice
  // that reaches past it. There its colon is at c and its end at e.
  lemma {:induction false} HeaderLineIsLocal(read: Reader, data: string, from: nat, to: nat, pos: nat, name: string,
                                             c: nat, e: nat, next: string)
    requires from <= pos <= |data| && HeaderLine(data, pos) == Some((from + c, from + e)) && from + e + 4 <= to <= |data|
    requires next == read(name, data[pos..from + c], data[from + c + 1..from + e])
    ensures var block := data[from..to];
            && HeaderLine(block, pos - from) == Some((c, e))
            && next == read(name, block[pos - from..c], block[c + 1..e])
            && (HasAt(block, CRLF, e + 2) <==> HasAt(data, CRLF, from + e + 2))
  {
    HeaderLineFoundWithin(data, from, to, pos, from + c, from + e);
    SliceOfSlice(data, from, to, pos - from, c);
    SliceOfSlice(data, from, to, c + 1, e);
    OccursWithin(data, CRLF, from, to, e + 2);
  }

  // The header line at pos of message data, of which the rest of the headers leads to
  // body and name'.
  ghost predicate LineLeadsTo(read: Reader, data: string, pos: nat, name: string, colon: nat, eol: nat, next: string,
                              body: nat, name': string) {
    && pos <= |data| && HeaderLine(data, pos) == Some((colon, eol)) && eol + 4 <= body <= |data|
    && next == read(name, data[pos..colon], data[colon + 1..eol])
    && if HasAt(data, CRLF, eol + 2) then body == eol + 4 && name' == next
       else ReadHeaders(read, data, eol + 2, next) == Some((body, name'))
  }

  lemma {:induction false} HeadersStartWithLine(read: Reader, data: string, pos: nat, name: string, body: nat, name': string)
      returns (colon: nat, eol: nat, next: string)
    requires pos <= |data| && ReadHeaders(read, data, pos, name) == Some((body, name'))
    ensures LineLeadsTo(read, data, pos, name, colon, eol, next, body, name')
  {
    colon, eol := HeaderLine(data, pos).value.0, HeaderLine(data, pos).value.1;
    next := read(name, data[pos..colon], data[colon + 1..eol]);
  }

  // What reading the headers from pos on comes to in the slice of the message that
  // starts at from.
  ghost predicate Local(read: Reader, data: string, from: nat, pos: nat, name: string, r: (nat, string)) {
    from <= pos <= |data| && from <= r.0 <= |data| && pos - from <= r.0 - from &&
    ReadHeaders(read, data[from..r.0], pos - from, name) == Some((r.0 - from, r.1))
  }

  // A line whose colon and end lie c and e after from, when it is the last one ...
  lemma {:induction false} LastLineIsLocal(read: Reader, data: string, from: nat, pos: nat, name: string,
                                           c: nat, e: nat, next: string, r: (nat, string))
    requires from <= pos && LineLeadsTo(read, data, pos, name, from + c, from + e, next, r.0, r.1)
    requires HasAt(data, CRLF, from + e + 2)
    ensures Local(read, data, from, pos, name, r)
  {
    hide Occurs, ReadHeaders, HeaderLine;
    HeaderLineIsLocal(read, data, from, r.0, pos, name, c, e, next);
    ReadHeadersLine(read, data[from..r.0], pos - from, name, c, e, next);
  }

  // ... and when others follow.
  lemma {:induction false} EarlierLineIsLocal(read: Reader, data: string, from: nat, pos: nat, name: string,
                                              c: nat, e: nat, next: string, r: (nat, string))
    requires from <= pos && LineLeadsTo(read, data, pos, name, from + c, from + e, next, r.0, r.1)
    requires !HasAt(data, CRLF, from + e + 2) && Local(read, data, from, from + e + 2, next, r)
    ensures Local(read, data, from, pos, name, r)
  {
    hide Occurs, ReadHeaders, HeaderLine;
    HeaderLineIsLocal(read, data, from, r.0, pos, name, c, e, next);
    ReadHeadersLine(read, data[from..r.0], pos - from, name, c, e, next);
  }

  // The name of a part is determined by the text between its delimiter line and its body.
  lemma {:induction false} HeadersAreLocal(read: Reader, data: string, from: nat, pos: nat, name: string, r: (nat, string))
    requires from <= pos <= |data| && ReadHeaders(read, data, pos, name) == Some(r)
    ensures Local(read, data, from, pos, name, r)
    decreases |data| - pos
  {
    hide Occurs, ReadHeaders, HeaderLine, Local;
    var colon, eol, next := HeadersStartWithLine(read, data, pos, name, r.0, r.1);
    var c, e := colon - from, eol - from;
    if HasAt(data, CRLF, from + e + 2) {
      LastLineIsLocal(read, data, from, pos, name, c, e, next, r);
    } else {
      HeadersAreLocal(read, data, from, from + e + 2, next, r);
      EarlierLineIsLocal(read, data, from, pos, name, c, e, next, r);
    }
  }

  lemma {:induction false} PlacedNameIsLocal(read: Reader, boundary: string, data: string, p: Part)
    requires Placed(read, boundary, data, p)
    ensures var h := HeadersStart(boundary, p);
            h <= p.body <= |data| && ReadHeaders(read, data[h..p.body], 0, "") == Some((p.body - h, p.name))
  {
    hide Delimited, Ended, Valued, ReadHeaders, HeadersStart;
    HeadersAreLocal(read, data, HeadersStart(boundary, p), HeadersStart(boundary, p), "", (p.body, p.name));
  }

  lemma {:induction false} NameFromOwnHeaders(read: Reader, boundary: string, data: string, k: nat)
    requires |data| < SIZE_MODULUS && k < |Parts(read, boundary, data, 0)|
    ensures var p := Parts(read, boundary, data, 0)[k];
            var h := HeadersStart(boundary, p);
            h <= p.body <= |data| && ReadHeaders(read, data[h..p.body], 0, "") == Some((p.body - h, p.name))
  {
    var ps := Parts(read, boundary, data, 0);
    PartsArePlaced(read, boundary, data, 0);
    assert Placed(read, boundary, data, ps[k]);
    PlacedNameIsLocal(read, boundary, data, ps[k]);
  }

  // ---------------------------------------------------------------- the collected arguments

  // An argument is present exactly when some part has its name, and then it is the
  // value of the last such part.
  lemma {:induction false} CollectKeepsLast(args: map<string, string>, ps: seq<Part>, name: string)
    ensures var r := Collect(args, ps);
            && (name in r <==> name in args || exists i :: 0 <= i < |ps| && ps[i].name == name)
            && (forall i :: 0 <= i < |ps| && ps[i].name == name && (forall j :: i < j < |ps| ==> ps[j].name != name)
                  ==> r[name] == ps[i].value)
            && ((forall i :: 0 <= i < |ps| ==> ps[i].name != name) && name in args ==> r[name] == args[name])
    decreases |ps|
  {
    if ps != [] {
      CollectKeepsLast(args[ps[0].name := ps[0].value], ps[1..], name);
      assert forall i :: 0 < i < |ps| ==> ps[i] == ps[1..][i - 1];
    }
  }
}
