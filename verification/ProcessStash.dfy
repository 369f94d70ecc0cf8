// The stash of issued bearer tokens, the timed eviction of expired ones, and the
// decision whether a request carries a valid token.

module ProcessStash {
  import opened Basics
  import opened Text

  // Points of a monotone clock.
  type Time = int

  datatype ClientInfo = ClientInfo(username: string, expiresAt: Time)

  // The stash holds values of any type. Eviction knows two of them.
  datatype Entry =
    | Client(info: ClientInfo)
    | State(until: Time)
    | Other

  type Entries = map<string, Entry>

  predicate Expired(e: Entry, now: Time) {
    match e
    case Client(info) => now >= info.expiresAt
    case State(until) => now >= until
    case Other => false
  }

  ghost predicate Monotone(clock: nat -> Time) {
    forall i: nat, j: nat :: i <= j ==> clock(i) <= clock(j)
  }

  class Stash {
    var entries: Entries

    constructor ()
      ensures entries == map[]
    {
      entries := map[];
    }

    // Draws random identifiers until one is not in use. The loop relies on the
    // generator: unused is a draw that is not in use.
    method GenerateUniqueKey(draw: nat -> string, ghost unused: nat) returns (key: string)
      requires draw(unused) !in entries
      ensures key !in entries
      ensures exists i: nat :: i <= unused && key == draw(i) && forall j :: 0 <= j < i ==> draw(j) in entries
    {
      var i := 0;
      key := draw(i);
      while key in entries
        invariant i <= unused && key == draw(i)
        invariant forall j :: 0 <= j < i ==> draw(j) in entries
        decreases unused - i
      {
        i := i + 1;
        key := draw(i);
      }
    }

    // Never overwrites.
    method Insert(value: Entry, draw: nat -> string, ghost unused: nat, ghost now: Time) returns (key: string)
      requires draw(unused) !in entries
      modifies this
      ensures Next(old(entries), Issue(now, key, value), entries)
      ensures key !in old(entries) && entries == old(entries)[key := value]
    {
      key := GenerateUniqueKey(draw, unused);
      entries := entries[key := value];
    }

    method Find(key: string) returns (value: Option<Entry>)
      ensures value == Lookup(entries, key)
    {
      value := if key in entries then Some(entries[key]) else None;
    }

    // The work of the eviction timer: erases what has expired. Every entry is tested
    // against a clock reading of its own, in any order. Reading number start comes
    // before the first test.
    method Evict(clock: nat -> Time, start: nat) returns (end: nat)
      requires Monotone(clock)
      modifies this
      ensures start <= end
      ensures Next(old(entries), Eviction(clock(start), clock(end), old(entries).Keys - entries.Keys), entries)
    {
      end := start;
      ghost var before := entries;
      var untested := entries.Keys;
      while untested != {}
        invariant start <= end && clock(start) <= clock(end)
        invariant untested <= entries.Keys <= before.Keys
        invariant entries == before - (before.Keys - entries.Keys)
        invariant Erased(before, entries.Keys, untested, clock(start), clock(end))
        decreases |untested|
      {
        var key :| key in untested;
        end := end + 1;
        assert clock(end - 1) <= clock(end);
        if Expired(entries[key], clock(end)) {
          entries := entries - {key};
        }
        untested := untested - {key};
      }
    }
  }

  // Eviction under way: what is gone has expired, and what had expired at the beginning
  // is gone or still to be tested.
  ghost predicate Erased(before: Entries, kept: set<string>, untested: set<string>, from: Time, to: Time) {
    && (forall key :: key in before && key !in kept ==> Expired(before[key], to))
    && (forall key :: key in before && key in kept && key !in untested ==> !Expired(before[key], from))
  }

  function Lookup(entries: Entries, key: string): Option<Entry> {
    if key in entries then Some(entries[key]) else None
  }

  // ---------------------------------------------------------------- the decision on a request

  datatype Decision = BadRequest | Unauthorized | Authenticated(info: ClientInfo)

  // What follows "Bearer " in the Authorization header, without surrounding whitespace.
  function BearerToken(header: string): Option<string> {
    match Find(header, "Bearer ", 0)
    case None => None
    case Some(pos) => Some(Trim(header[pos + 7..]))
  }

  // No OpenID Connect stanza is configured.
  function Admit(found: Option<Entry>, now: Time): Decision {
    match found
    case Some(Client(info)) => if now >= info.expiresAt then Unauthorized else Authenticated(info)
    case _ => Unauthorized
  }

  // The stash is searched first, and the clock is read after that.
  function Resolve(authorization: Option<string>, entries: Entries, now: Time): Decision {
    match authorization
    case None => BadRequest
    case Some(header) =>
      match BearerToken(header)
      case None => BadRequest
      case Some(token) => Admit(Lookup(entries, token), now)
  }

  // ---------------------------------------------------------------- histories

  datatype Event =
    | Issue(at: Time, key: string, entry: Entry)
    | Eviction(from: Time, to: Time, erased: set<string>)

  function Begin(e: Event): Time {
    if e.Issue? then e.at else e.from
  }

  function End(e: Event): Time {
    if e.Issue? then e.at else e.to
  }

  ghost predicate Next(s: Entries, e: Event, s': Entries) {
    match e
    case Issue(_, key, entry) => key !in s && s' == s[key := entry]
    case Eviction(from, to, erased) =>
      && from <= to && erased <= s.Keys && s' == s - erased
      && (forall key :: key in erased ==> Expired(s[key], to))
      && (forall key :: key in s && key !in erased ==> !Expired(s[key], from))
  }

  // A run of the server from an empty stash to s, along a monotone clock.
  ghost predicate History(events: seq<Event>, states: seq<Entries>) {
    && |states| == |events| + 1 && states[0] == map[]
    && (forall i :: 0 <= i < |events| ==> Next(states[i], events[i], states[i + 1]))
    && (forall i, j :: 0 <= i < j < |events| ==> End(events[i]) <= Begin(events[j]))
  }

  // The entry most recently issued under key.
  function LastIssue(events: seq<Event>, key: string): Option<Entry> {
    if events == [] then None
    else
      var e := events[|events| - 1];
      if e.Issue? && e.key == key then Some(e.entry) else LastIssue(events[..|events| - 1], key)
  }

  // What the stash tells about a key once no event ends after now: the most recent
  // issue, unless that has expired.
  ghost predicate Remembers(s: Entries, last: Option<Entry>, key: string, now: Time) {
    match last
    case None => key !in s
    case Some(e) => if key in s then s[key] == e else Expired(e, now)
  }

  lemma {:induction false} EventKeepsMemory(s: Entries, e: Event, s': Entries, last: Option<Entry>, key: string, was: Time)
    requires Next(s, e, s') && was <= Begin(e) && Remembers(s, last, key, was)
    ensures Remembers(s', if e.Issue? && e.key == key then Some(e.entry) else last, key, End(e))
  {
  }

  ghost predicate Ended(events: seq<Event>, now: Time) {
    forall i :: 0 <= i < |events| ==> End(events[i]) <= now
  }

  lemma {:induction false} HistoryIsRemembered(events: seq<Event>, states: seq<Entries>, key: string, now: Time)
    requires History(events, states) && Ended(events, now)
    ensures Remembers(states[|events|], LastIssue(events, key), key, now)
    decreases |events|
  {
    if events != [] {
      var n := |events| - 1;
      var e, earlier := events[n], events[..n];
      HistoryIsRemembered(earlier, states[..n + 1], key, Begin(e));
      EventKeepsMemory(states[n], e, states[n + 1], LastIssue(earlier, key), key, Begin(e));
    }
  }

  // ---------------------------------------------------------------- eviction is unobservable

  // A token is accepted at a time exactly when it was most recently issued to a client
  // whose session expires later. Nothing in that speaks of evictions.
  lemma {:induction false} AcceptedIffUnexpired(events: seq<Event>, states: seq<Entries>, key: string, now: Time, info: ClientInfo)
    requires History(events, states) && Ended(events, now)
    ensures Admit(Lookup(states[|events|], key), now) == Authenticated(info) <==>
            LastIssue(events, key) == Some(Client(info)) && now < info.expiresAt
  {
    HistoryIsRemembered(events, states, key, now);
  }

  function Issues(events: seq<Event>): seq<Event> {
    if events == [] then []
    else
      var e := events[|events| - 1];
      Issues(events[..|events| - 1]) + if e.Issue? then [e] else []
  }

  lemma {:induction false} LastIssueAmongIssues(events: seq<Event>, key: string)
    ensures LastIssue(events, key) == LastIssue(Issues(events), key)
  {
    if events != [] {
      var n := |events| - 1;
      var e := events[n];
      LastIssueAmongIssues(events[..n], key);
      var issues, earlier := Issues(events), Issues(events[..n]);
      if e.Issue? {
        assert issues == earlier + [e];
        assert issues[..|issues| - 1] == earlier;
      } else {
        assert issues == earlier;
      }
    }
  }

  // Two servers that issued the same tokens decide every request alike, however often
  // and whenever each of them evicted.
  lemma {:induction false} EvictionIsUnobservable(
      events: seq<Event>, states: seq<Entries>, events': seq<Event>, states': seq<Entries>,
      authorization: Option<string>, now: Time)
    requires History(events, states) && Ended(events, now)
    requires History(events', states') && Ended(events', now)
    requires Issues(events) == Issues(events')
    ensures Resolve(authorization, states[|events|], now) == Resolve(authorization, states'[|events'|], now)
  {
    hide Find, Trim;
    if authorization.Some? && BearerToken(authorization.value).Some? {
      var token := BearerToken(authorization.value).value;
      HistoryIsRemembered(events, states, token, now);
      HistoryIsRemembered(events', states', token, now);
      LastIssueAmongIssues(events, token);
      LastIssueAmongIssues(events', token);
    }
  }

  // A session that has not expired by the end of the run is in the stash.
  lemma {:induction false} UnexpiredIsNotEvicted(events: seq<Event>, states: seq<Entries>, key: string, now: Time, e: Entry)
    requires History(events, states) && Ended(events, now)
    requires LastIssue(events, key) == Some(e) && !Expired(e, now)
    ensures Lookup(states[|events|], key) == Some(e)
  {
    HistoryIsRemembered(events, states, key, now);
  }

  // ---------------------------------------------------------------- what a request is told

  // The position of "Bearer " in a header, and what follows it: spaces, token, spaces.
  ghost predicate Bears(header: string, pos: nat, a: string, token: string, b: string) {
    && pos + 7 <= |header| && Occurs(header, "Bearer ", pos)
    && (forall i :: 0 <= i < pos ==> !Occurs(header, "Bearer ", i))
    && header[pos + 7..] == a + token + b && Spaces(a) && Spaces(b) && Solid(token)
  }

  lemma {:induction false} BearerIsRead(header: string, pos: nat, a: string, token: string, b: string)
    requires Bears(header, pos, a, token, b)
    ensures BearerToken(header) == Some(token)
  {
    hide Trim, Spaces, Solid;
    FindIs(header, "Bearer ", 0, pos);
    TrimDropsSpaces(a, token, b);
  }

  // The header a client sends is read as the token it was given.
  lemma {:induction false} ClientHeaderIsRead(token: string)
    requires Solid(token)
    ensures BearerToken("Bearer " + token) == Some(token)
  {
    var header := "Bearer " + token;
    assert header[7..] == "" + token + "";
    BearerIsRead(header, 0, "", token, "");
  }

  // A request is malformed exactly when it has no Authorization header or no "Bearer "
  // in it, whatever the stash holds.
  lemma {:induction false} BadRequestIff(authorization: Option<string>, entries: Entries, now: Time)
    ensures Resolve(authorization, entries, now) == BadRequest <==>
            authorization == None || !Contains(authorization.value, "Bearer ")
  {
    hide Trim, Occurs;
    if authorization.Some? {
      var header := authorization.value;
      FindIsFirst(header, "Bearer ", 0);
      if Find(header, "Bearer ", 0).Some? {
        FindOccurs(header, "Bearer ", 0);
      }
    }
  }

  // A request that bears a token is let in, as the user the token was issued to, exactly
  // when the token was most recently issued to a client whose session expires later; it
  // is turned away otherwise.
  lemma {:induction false} RequestIsAdmittedIff(
      events: seq<Event>, states: seq<Entries>, now: Time,
      header: string, pos: nat, a: string, token: string, b: string, info: ClientInfo)
    requires History(events, states) && Ended(events, now) && Bears(header, pos, a, token, b)
    ensures var decision := Resolve(Some(header), states[|events|], now);
            && (decision == Authenticated(info) <==>
                LastIssue(events, token) == Some(Client(info)) && now < info.expiresAt)
            && (decision.Authenticated? || decision == Unauthorized)
  {
    hide History, Bears, BearerToken, LastIssue;
    BearerIsRead(header, pos, a, token, b);
    AcceptedIffUnexpired(events, states, token, now, info);
  }

  // ---------------------------------------------------------------- what an eviction keeps

  // An eviction that begins at from and ends at to erases every session and every state
  // that had run out when it began, keeps those that have not when it ends, and never
  // touches anything else.
  lemma {:induction false} EvictionByKind(s: Entries, from: Time, to: Time, erased: set<string>, s': Entries, key: string)
    requires Next(s, Eviction(from, to, erased), s') && key in s
    ensures key in s' ==> s'[key] == s[key]
    ensures s[key].Client? ==>
              (s[key].info.expiresAt <= from ==> key !in s') && (to < s[key].info.expiresAt ==> key in s')
    ensures s[key].State? ==> (s[key].until <= from ==> key !in s') && (to < s[key].until ==> key in s')
    ensures s[key].Other? ==> key in s'
  {
  }
}
