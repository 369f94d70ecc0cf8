// The name a Content-Disposition header gives, for every list of token parameters.

module MultipartNames {
  import opened Basics
  import opened Text
  import opened MultipartFormData

  // The token characters of section 3.2.6 of RFC 7230: visible, and no delimiter.
  lemma {:induction false} TokenCharsAre(c: char)
    ensures IsTokenChar(c) <==> '!' <= c <= '~' && c !in DELIMITERS
  {
    if c in DELIMITERS {
      assert !IsTokenChar(c);
    } else if '!' <= c <= '~' {
      DelimitersAre(c);
    }
  }

  const DELIMITERS: string := "\"(),/:;<=>?@[\\]{}"

  lemma {:induction false} DelimitersAre(c: char)
    ensures c in DELIMITERS <==>
            c == '"' || c == '(' || c == ')' || c == ',' || c == '/' || ':' <= c <= '@' || '[' <= c <= ']' || c == '{' || c == '}'
  {
    assert DELIMITERS[0] == '"' && DELIMITERS[1] == '(' && DELIMITERS[2] == ')' && DELIMITERS[3] == ',';
    assert DELIMITERS[4] == '/' && DELIMITERS[5] == ':' && DELIMITERS[6] == ';' && DELIMITERS[7] == '<';
    assert DELIMITERS[8] == '=' && DELIMITERS[9] == '>' && DELIMITERS[10] == '?' && DELIMITERS[11] == '@';
    assert DELIMITERS[12] == '[' && DELIMITERS[13] == '\\' && DELIMITERS[14] == ']';
    assert DELIMITERS[15] == '{' && DELIMITERS[16] == '}';
  }

  predicate IsBlank(c: char) {
    c == ' ' || c == '\t'
  }

  predicate Blanks(s: string) {
    forall i :: 0 <= i < |s| ==> IsBlank(s[i])
  }

  // One parameter: blanks, a semicolon, blanks, a key, and perhaps an equals sign and a value.
  datatype Param = Param(before: string, after: string, key: string, value: Option<string>)

  function ParamEnd(p: Param): string {
    match p.value
    case None => ""
    case Some(v) => "=" + v
  }

  function PrintParam(p: Param): string {
    p.before + (";" + (p.after + (p.key + ParamEnd(p))))
  }

  function PrintParams(ps: seq<Param>): string {
    if ps == [] then [] else PrintParam(ps[0]) + PrintParams(ps[1..])
  }

  predicate ParamFits(p: Param) {
    && Blanks(p.before) && Blanks(p.after) && IsToken(p.key)
    && (p.value.Some? ==> IsToken(p.value.value))
  }

  predicate ParamsFit(ps: seq<Param>) {
    forall i :: 0 <= i < |ps| ==> ParamFits(ps[i])
  }

  // What the first parameter called name gives.
  function FirstName(ps: seq<Param>): Option<string> {
    if ps == [] then None
    else if ps[0].key == "name" then Some(if ps[0].value.Some? then ps[0].value.value else "")
    else FirstName(ps[1..])
  }

  // ---------------------------------------------------------------- scanning

  lemma {:induction false} TokenEndIs(s: string, i: nat, j: nat)
    requires i <= j <= |s| && (forall k :: i <= k < j ==> IsTokenChar(s[k])) && (j < |s| ==> !IsTokenChar(s[j]))
    ensures TokenEnd(s, i) == j
  {
  }

  lemma {:induction false} SkipBlanksIs(s: string, i: nat, j: nat)
    requires i <= j <= |s| && (forall k :: i <= k < j ==> IsBlank(s[k])) && (j < |s| ==> !IsBlank(s[j]))
    ensures SkipBlanks(s, i) == j
    decreases j - i
  {
    if i < j {
      SkipBlanksIs(s, i + 1, j);
    }
  }

  // At i, a text ends or goes on with a blank or a semicolon.
  predicate Stops(s: string, i: nat) {
    i <= |s| && (i < |s| ==> IsBlank(s[i]) || s[i] == ';')
  }

  lemma {:induction false} SkipBlanksBefore(s: string, i: nat, blanks: string)
    requires Blanks(blanks) && Occurs(s, blanks, i) && (i + |blanks| < |s| ==> !IsBlank(s[i + |blanks|]))
    ensures SkipBlanks(s, i) == i + |blanks|
  {
    forall k | i <= k < i + |blanks| ensures IsBlank(s[k]) {
      assert s[i + (k - i)] == blanks[k - i];
    }
    SkipBlanksIs(s, i, i + |blanks|);
  }

  lemma {:induction false} TokenEndAfter(s: string, i: nat, token: string)
    requires IsToken(token) && Occurs(s, token, i) && (i + |token| < |s| ==> !IsTokenChar(s[i + |token|]))
    ensures TokenEnd(s, i) == i + |token| && s[i..i + |token|] == token
    ensures !IsBlank(s[i])
  {
    hide TokenEnd;
    forall k | i <= k < i + |token| ensures IsTokenChar(s[k]) {
      assert s[i + (k - i)] == token[k - i];
    }
    assert s[i + 0] == token[0];
    TokenEndIs(s, i, i + |token|);
    OccursIsSlice(s, token, i);
  }

  // Where the pieces of a parameter lie that is printed at i.
  ghost predicate ParamAt(s: string, p: Param, i: nat, end: nat) {
    var semicolon := i + |p.before|;
    var key := semicolon + 1 + |p.after|;
    && end == key + |p.key| + |ParamEnd(p)|
    && Occurs(s, p.before, i) && Occurs(s, ";", semicolon) && Occurs(s, p.after, semicolon + 1)
    && Occurs(s, p.key, key) && Occurs(s, ParamEnd(p), key + |p.key|)
  }

  lemma {:induction false} ParamPieces(s: string, p: Param, i: nat)
    requires Occurs(s, PrintParam(p), i)
    ensures ParamAt(s, p, i, i + |PrintParam(p)|)
  {
    hide Occurs, ParamEnd;
    OccursSplit(s, p.before, ";" + (p.after + (p.key + ParamEnd(p))), i);
    OccursSplit(s, ";", p.after + (p.key + ParamEnd(p)), i + |p.before|);
    OccursSplit(s, p.after, p.key + ParamEnd(p), i + |p.before| + 1);
    OccursSplit(s, p.key, ParamEnd(p), i + |p.before| + 1 + |p.after|);
  }

  lemma {:induction false} StopIsNoToken(s: string, i: nat)
    requires Stops(s, i)
    ensures i <= |s| && (i < |s| ==> !IsTokenChar(s[i]) && s[i] != '=')
  {
  }

  lemma {:induction false} SemicolonFound(s: string, p: Param, i: nat, end: nat)
    requires ParamFits(p) && ParamAt(s, p, i, end)
    ensures var semicolon := i + |p.before|;
            semicolon < |s| && SkipBlanks(s, i) == semicolon && s[semicolon] == ';'
  {
    hide SkipBlanks, Blanks, IsToken, ParamEnd;
    assert s[i + |p.before| + 0] == ";"[0] == ';';
    SkipBlanksBefore(s, i, p.before);
  }

  lemma {:induction false} KeyEnds(s: string, p: Param, i: nat, end: nat)
    requires ParamAt(s, p, i, end) && Stops(s, end)
    ensures var keyEnd := i + |p.before| + 1 + |p.after| + |p.key|;
            && (p.value.None? ==> keyEnd == end && (keyEnd < |s| ==> !IsTokenChar(s[keyEnd]) && s[keyEnd] != '='))
            && (p.value.Some? ==> keyEnd < |s| && s[keyEnd] == '=' && !IsTokenChar('='))
  {
    var keyEnd := i + |p.before| + 1 + |p.after| + |p.key|;
    if p.value.Some? {
      assert s[keyEnd + 0] == ParamEnd(p)[0] == '=';
    } else {
      StopIsNoToken(s, end);
    }
  }

  lemma {:induction false} KeyFound(s: string, p: Param, i: nat, end: nat)
    requires ParamFits(p) && ParamAt(s, p, i, end) && Stops(s, end)
    ensures var key := i + |p.before| + 1 + |p.after|; var keyEnd := key + |p.key|;
            && keyEnd <= |s| && SkipBlanks(s, key - |p.after|) == key
            && TokenEnd(s, key) == keyEnd && s[key..keyEnd] == p.key && keyEnd > key
  {
    hide SkipBlanks, TokenEnd, Blanks, IsTokenChar, Stops, ParamEnd;
    var key := i + |p.before| + 1 + |p.after|;
    KeyEnds(s, p, i, end);
    TokenEndAfter(s, key, p.key);
    SkipBlanksBefore(s, key - |p.after|, p.after);
  }

  lemma {:induction false} ValueFound(s: string, p: Param, i: nat, end: nat)
    requires ParamFits(p) && ParamAt(s, p, i, end) && Stops(s, end) && p.value.Some?
    ensures var value := i + |p.before| + 1 + |p.after| + |p.key| + 1;
            value < end <= |s| && TokenEnd(s, value) == end && s[value..end] == p.value.value
  {
    hide TokenEnd, Blanks, IsTokenChar;
    StopIsNoToken(s, end);
    OccursSplit(s, "=", p.value.value, i + |p.before| + 1 + |p.after| + |p.key|);
    TokenEndAfter(s, i + |p.before| + 1 + |p.after| + |p.key| + 1, p.value.value);
  }

  // One step of reading parameters: without a value, and with one.
  lemma {:induction false} KeyStep(s: string, i: nat, semicolon: nat, key: nat, keyEnd: nat)
    requires i <= semicolon < key < keyEnd <= |s| && SkipBlanks(s, i) == semicolon && s[semicolon] == ';'
    requires SkipBlanks(s, semicolon + 1) == key && TokenEnd(s, key) == keyEnd
    requires keyEnd < |s| ==> s[keyEnd] != '='
    ensures NameInParameters(s, i) == if s[key..keyEnd] == "name" then Some("") else NameInParameters(s, keyEnd)
  {
    hide SkipBlanks, TokenEnd, IsTokenChar;
  }

  lemma {:induction false} KeyValueStep(s: string, i: nat, semicolon: nat, key: nat, keyEnd: nat, end: nat)
    requires i <= semicolon < key < keyEnd && keyEnd + 1 < end <= |s| && SkipBlanks(s, i) == semicolon && s[semicolon] == ';'
    requires SkipBlanks(s, semicolon + 1) == key && TokenEnd(s, key) == keyEnd
    requires s[keyEnd] == '=' && TokenEnd(s, keyEnd + 1) == end
    ensures NameInParameters(s, i) ==
            if s[key..keyEnd] == "name" then Some(s[keyEnd + 1..end]) else NameInParameters(s, end)
  {
    hide SkipBlanks, TokenEnd, IsTokenChar;
  }

  lemma {:induction false} ParamIsRead(s: string, p: Param, i: nat, end: nat)
    requires ParamFits(p) && ParamAt(s, p, i, end) && Stops(s, end)
    ensures i < end <= |s|
    ensures NameInParameters(s, i) ==
            if p.key == "name" then Some(if p.value.Some? then p.value.value else "") else NameInParameters(s, end)
  {
    hide SkipBlanks, TokenEnd, Blanks, Stops, IsToken, IsTokenChar, Occurs, ParamEnd, NameInParameters;
    var semicolon := i + |p.before|;
    var key := semicolon + 1 + |p.after|;
    var keyEnd := key + |p.key|;
    SemicolonFound(s, p, i, end);
    KeyEnds(s, p, i, end);
    KeyFound(s, p, i, end);
    if p.value.Some? {
      ValueFound(s, p, i, end);
      KeyValueStep(s, i, semicolon, key, keyEnd, end);
    } else {
      KeyStep(s, i, semicolon, key, keyEnd);
    }
  }

  lemma {:induction false} ParamsStop(s: string, ps: seq<Param>, i: nat)
    requires ParamsFit(ps) && Occurs(s, PrintParams(ps), i) && i + |PrintParams(ps)| == |s|
    ensures Stops(s, i)
  {
    if ps != [] {
      OccursSplit(s, PrintParam(ps[0]), PrintParams(ps[1..]), i);
      ParamPieces(s, ps[0], i);
      var p := ps[0];
      if p.before != "" {
        assert s[i + 0] == p.before[0];
      } else {
        assert s[i + 0] == ";"[0];
      }
    }
  }

  lemma {:induction false} ParamsAreRead(s: string, ps: seq<Param>, i: nat)
    requires ParamsFit(ps) && Occurs(s, PrintParams(ps), i) && i + |PrintParams(ps)| == |s|
    ensures NameInParameters(s, i) == FirstName(ps)
    decreases |ps|
  {
    hide Occurs, Stops, ParamFits, PrintParam, ParamAt;
    if ps != [] {
      var p, end := ps[0], i + |PrintParam(ps[0])|;
      OccursSplit(s, PrintParam(p), PrintParams(ps[1..]), i);
      ParamPieces(s, p, i);
      ParamsStop(s, ps[1..], end);
      ParamIsRead(s, p, i, end);
      ParamsAreRead(s, ps[1..], end);
    }
  }

  // ---------------------------------------------------------------- dispositions

  function DispositionValue(blanks: string, kind: string, ps: seq<Param>): string {
    blanks + (kind + PrintParams(ps))
  }

  lemma {:induction false} DispositionPieces(value: string, blanks: string, kind: string, ps: seq<Param>)
    requires value == DispositionValue(blanks, kind, ps)
    ensures Occurs(value, blanks, 0) && Occurs(value, kind, |blanks|) && Occurs(value, PrintParams(ps), |blanks| + |kind|)
    ensures |value| == |blanks| + |kind| + |PrintParams(ps)|
  {
    hide Occurs, PrintParams;
    WholeOccurs(value);
    OccursSplit(value, blanks, kind + PrintParams(ps), 0);
    OccursSplit(value, kind, PrintParams(ps), |blanks|);
  }

  lemma {:induction false} KindFound(value: string, blanks: string, kind: string)
    requires Blanks(blanks) && IsToken(kind)
    requires Occurs(value, blanks, 0) && Occurs(value, kind, |blanks|) && Stops(value, |blanks| + |kind|)
    ensures var start, end := |blanks|, |blanks| + |kind|;
            && end <= |value| && SkipBlanks(value, 0) == start && TokenEnd(value, start) == end && value[start..end] == kind
  {
    hide Blanks, IsToken, IsTokenChar, Occurs, Stops, SkipBlanks, TokenEnd;
    StopIsNoToken(value, |blanks| + |kind|);
    TokenEndAfter(value, |blanks|, kind);
    SkipBlanksBefore(value, 0, blanks);
  }

  // The first name parameter, wherever it stands in the list, if the disposition is
  // form-data in any case.
  lemma {:induction false} DispositionGivesFirstName(blanks: string, kind: string, ps: seq<Param>)
    requires Blanks(blanks) && IsToken(kind) && ParamsFit(ps)
    ensures DispositionName(DispositionValue(blanks, kind, ps)) ==
            if EqualsIgnoringCase(kind, "form-data") then FirstName(ps) else None
  {
    hide Blanks, IsToken, Occurs, Stops, ParamsFit, EqualsIgnoringCase, SkipBlanks, TokenEnd, NameInParameters,
      FirstName, PrintParams, DispositionValue;
    var value := DispositionValue(blanks, kind, ps);
    DispositionPieces(value, blanks, kind, ps);
    ParamsStop(value, ps, |blanks| + |kind|);
    KindFound(value, blanks, kind);
    ParamsAreRead(value, ps, |blanks| + |kind|);
  }

  lemma {:induction false} WholeOccurs(s: string)
    ensures Occurs(s, s, 0)
  {
  }

  // The disposition the client prints.
  lemma {:induction false} DispositionGivesName(name: string)
    requires IsToken(name)
    ensures DispositionName(" form-data; name=" + name) == Some(name)
  {
    hide DispositionName, IsToken, Blanks, EqualsIgnoringCase;
    FormDataIsToken();
    ClientDisposition(name);
    DispositionGivesFirstName(" ", "form-data", [Param("", " ", "name", Some(name))]);
  }

  lemma {:induction false} ClientDisposition(name: string)
    ensures DispositionValue(" ", "form-data", [Param("", " ", "name", Some(name))]) == " form-data; name=" + name
  {
    var ps := [Param("", " ", "name", Some(name))];
    assert PrintParams(ps[1..]) == [];
    assert PrintParams(ps) == ";" + (" " + ("name" + ("=" + name)));
    assert " " + ("form-data" + (";" + (" " + ("name" + "=")))) == " form-data; name=";
    assert PrintParams(ps) == ";" + (" " + ("name" + "=")) + name;
  }

  lemma {:induction false} FormDataIsToken()
    ensures IsToken("form-data") && IsToken("name") && Blanks("") && Blanks(" ")
    ensures EqualsIgnoringCase("form-data", "form-data")
  {
  }
}
