// Searching and trimming strings the way std::string_view and Boost do.

module Text {
  import opened Basics

  const CRLF: string := "\r\n"

  predicate Occurs(s: string, pattern: string, i: int) {
    0 <= i && i + |pattern| <= |s| && forall k :: 0 <= k < |pattern| ==> s[i + k] == pattern[k]
  }

  predicate Contains(s: string, pattern: string) {
    exists i :: 0 <= i <= |s| && Occurs(s, pattern, i)
  }

  // substr(i, |pattern|) == pattern. substr throws when i is past the end.
  predicate HasAt(s: string, pattern: string, i: nat)
    requires i <= |s|
  {
    Occurs(s, pattern, i)
  }

  // substr: at most n characters from position i on.
  function Sub(s: string, i: nat, n: nat): string
    requires i <= |s|
  {
    s[i..i + Min(n, |s| - i)]
  }

  lemma {:induction false} OccursIsSlice(s: string, pattern: string, i: nat)
    requires i + |pattern| <= |s|
    ensures Occurs(s, pattern, i) <==> s[i..i + |pattern|] == pattern
  {
    if s[i..i + |pattern|] == pattern {
      forall k | 0 <= k < |pattern| ensures s[i + k] == pattern[k] {
        assert s[i + k] == s[i..i + |pattern|][k];
      }
    }
  }

  // find: the first occurrence at or after from.
  function Find(s: string, pattern: string, from: nat): (r: Option<nat>)
    ensures r.Some? ==> from <= r.value && r.value + |pattern| <= |s|
    decreases |s| - from
  {
    if from + |pattern| > |s| then None
    else if Occurs(s, pattern, from) then Some(from)
    else Find(s, pattern, from + 1)
  }

  lemma {:induction false} FindOccurs(s: string, pattern: string, from: nat)
    requires Find(s, pattern, from).Some?
    ensures Occurs(s, pattern, Find(s, pattern, from).value)
    decreases |s| - from
  {
    if !Occurs(s, pattern, from) {
      FindOccurs(s, pattern, from + 1);
    }
  }

  lemma {:induction false} FindIsFirst(s: string, pattern: string, from: nat)
    ensures var r := Find(s, pattern, from);
            forall i :: from <= i && (r.Some? ==> i < r.value) ==> !Occurs(s, pattern, i)
    decreases |s| - from
  {
    if from + |pattern| <= |s| && !Occurs(s, pattern, from) {
      FindIsFirst(s, pattern, from + 1);
    }
  }

  // The first occurrence is the only position that satisfies its description.
  lemma {:induction false} FindIs(s: string, pattern: string, from: nat, i: nat)
    requires from <= i && Occurs(s, pattern, i) && forall j :: from <= j < i ==> !Occurs(s, pattern, j)
    ensures Find(s, pattern, from) == Some(i)
    decreases i - from
  {
    if from < i {
      FindIs(s, pattern, from + 1, i);
    }
  }

  lemma {:induction false} SliceOfSlice(s: string, from: nat, to: nat, i: nat, j: nat)
    requires from <= to <= |s| && i <= j <= to - from
    ensures s[from..to][i..j] == s[from + i..from + j]
  {
    var a, b := s[from..to][i..j], s[from + i..from + j];
    assert |a| == |b| && forall k :: 0 <= k < |a| ==> a[k] == b[k];
  }

  lemma {:induction false} OccursWithin(s: string, pattern: string, from: nat, to: nat, i: nat)
    requires from <= to <= |s|
    ensures Occurs(s[from..to], pattern, i) <==> Occurs(s, pattern, from + i) && from + i + |pattern| <= to
  {
    if i + |pattern| <= to - from {
      assert forall k :: 0 <= k < |pattern| ==> s[from..to][i + k] == s[from + i + k] && pattern[k] == pattern[k];
    }
  }

  lemma {:induction false} OccursSplit(s: string, a: string, b: string, i: nat)
    requires Occurs(s, a + b, i)
    ensures Occurs(s, a, i) && Occurs(s, b, i + |a|)
  {
    forall k | 0 <= k < |a| ensures s[i + k] == a[k] {
      assert (a + b)[k] == a[k];
    }
    forall k | 0 <= k < |b| ensures s[i + |a| + k] == b[k] {
      assert (a + b)[|a| + k] == b[k];
    }
  }

  lemma {:induction false} OccursJoin(s: string, a: string, b: string, i: nat)
    requires Occurs(s, a, i) && Occurs(s, b, i + |a|)
    ensures Occurs(s, a + b, i)
  {
    forall k | 0 <= k < |a + b| ensures s[i + k] == (a + b)[k] {
      if k >= |a| {
        assert s[i + |a| + (k - |a|)] == b[k - |a|];
      }
    }
  }

  predicate IsSpace(c: char) {
    c == ' ' || '\t' <= c <= '\r'
  }

  function TrimLeft(s: string): string {
    if s != [] && IsSpace(s[0]) then TrimLeft(s[1..]) else s
  }

  function TrimRight(s: string): string {
    if s != [] && IsSpace(s[|s| - 1]) then TrimRight(s[..|s| - 1]) else s
  }

  function Trim(s: string): string {
    TrimRight(TrimLeft(s))
  }

  // Space, tab, line feed, vertical tab, form feed, carriage return.
  lemma {:induction false} SpacesAre(c: char)
    ensures IsSpace(c) <==> c in [' ', '\t', '\n', '\U{000B}', '\U{000C}', '\r']
  {
  }

  predicate Solid(s: string) {
    s != [] ==> !IsSpace(s[0]) && !IsSpace(s[|s| - 1])
  }

  predicate Spaces(s: string) {
    forall i :: 0 <= i < |s| ==> IsSpace(s[i])
  }

  lemma {:induction false} TrimKeepsSolid(s: string)
    requires Solid(s)
    ensures Trim(s) == s
  {
  }

  lemma {:induction false} TrimLeftDropsSpaces(a: string, s: string)
    requires Spaces(a)
    ensures TrimLeft(a + s) == TrimLeft(s)
  {
    if a == [] {
      assert a + s == s;
    } else {
      assert (a + s)[1..] == a[1..] + s;
      TrimLeftDropsSpaces(a[1..], s);
    }
  }

  lemma {:induction false} TrimRightDropsSpaces(s: string, b: string)
    requires Spaces(b)
    ensures TrimRight(s + b) == TrimRight(s)
  {
    if b == [] {
      assert s + b == s;
    } else {
      assert (s + b)[..|s + b| - 1] == s + b[..|b| - 1];
      TrimRightDropsSpaces(s, b[..|b| - 1]);
    }
  }

  // All spaces around a solid text go, and nothing else does.
  lemma {:induction false} TrimDropsSpaces(a: string, s: string, b: string)
    requires Spaces(a) && Spaces(b) && Solid(s)
    ensures Trim(a + s + b) == s
  {
    hide Spaces;
    assert a + s + b == a + (s + b);
    TrimLeftDropsSpaces(a, s + b);
    if s == [] {
      assert s + b == b + [];
      TrimLeftDropsSpaces(b, []);
    } else {
      assert (s + b)[0] == s[0];
      TrimRightDropsSpaces(s, b);
    }
  }

  function Lower(c: char): char {
    if 'A' <= c <= 'Z' then 'a' + (c - 'A') else c
  }

  predicate EqualsIgnoringCase(a: string, b: string) {
    |a| == |b| && forall i :: 0 <= i < |a| ==> Lower(a[i]) == Lower(b[i])
  }

  // The same letter, or an upper-case and a lower-case form of it.
  predicate SameLetter(x: char, y: char) {
    || x == y
    || ('A' <= x <= 'Z' && y as int == x as int + 32)
    || ('A' <= y <= 'Z' && x as int == y as int + 32)
  }

  lemma {:induction false} CaseDoesNotMatter(a: string, b: string)
    ensures EqualsIgnoringCase(a, b) <==> |a| == |b| && forall i :: 0 <= i < |a| ==> SameLetter(a[i], b[i])
  {
    forall x, y ensures Lower(x) == Lower(y) <==> SameLetter(x, y) {
    }
  }
}
