/**
 Sticky sessions: a request without a usable session cookie draws an id from a shared
 atomic counter and receives it in a Set-Cookie header; the id is the hash key.
 */
module StickySessions {
  import opened Wrappers
  import opened Text
  import opened Arithmetic
  import opened Cookies

  const FIRST_ID: nat := 100
  const COOKIE_KEY: string := "session-id="

  /** `trim_start_matches`: strips the prefix as often as it occurs. */
  function StripAll(s: string, prefix: string): string
    requires prefix != ""
  {
    if prefix <= s then StripAll(s[|prefix|..], prefix) else s
  }

  /** The session id a Cookie header carries; an unreadable header counts as empty. */
  function SessionOf(cookie: Option<string>): string {
    match cookie
    case None => ""
    case Some(raw) =>
      var text := match ToStr(raw) case Some(t) => t case None => "";
      match FirstPart(Split(text, ';'), COOKIE_KEY)
      case None => ""
      case Some(part) => StripAll(part, COOKIE_KEY)
  }

  function NewId(counter: nat): string {
    "user-" + Decimal(counter)
  }

  /** What one request yields: its hash key, and the new session id if it drew one. */
  datatype Served = Served(key: string, newSession: Option<string>)

  function Serve(counter: nat, cookie: Option<string>): Served {
    var session := SessionOf(cookie);
    if session == "" then Served(NewId(counter), Some(NewId(counter))) else Served(session, None)
  }

  function NextCounter(counter: nat, cookie: Option<string>): nat {
    if SessionOf(cookie) == "" then (counter + 1) % USIZE else counter
  }

  class Balancer {
    var counter: nat

    constructor ()
      ensures counter == FIRST_ID
    {
      counter := FIRST_ID;
    }

    method UpstreamPeer(cookie: Option<string>) returns (key: string, newSession: Option<string>)
      modifies this
      ensures Served(key, newSession) == Serve(old(counter), cookie)
      ensures counter == NextCounter(old(counter), cookie)
    {
      var session := "";
      if cookie.Some? {
        var readable := ToStr(cookie.value);
        var text := if readable.Some? then readable.value else "";
        var parts := Split(text, ';');
        for i := 0 to |parts|
          invariant session == ""
          invariant FirstPart(parts, COOKIE_KEY) == FirstPart(parts[i..], COOKIE_KEY)
        {
          var part := Trim(parts[i]);
          assert parts[i..][1..] == parts[i + 1..];
          if COOKIE_KEY <= part {
            session := StripAll(part, COOKIE_KEY);
            break;
          }
        }
      }
      newSession := None;
      if session == "" {
        var id := counter;
        counter := (counter + 1) % USIZE;
        session := "user-" + Decimal(id);
        newSession := Some(session);
      }
      key := session;
    }
  }

  function SetCookie(id: string): string {
    "session-id=" + id + "; Path=/"
  }

  // ---------- whole runs ----------

  /** The ids drawn by a sequence of requests, in the order of their atomic increments. */
  function Issued(counter: nat, cookies: seq<Option<string>>): seq<string>
    decreases |cookies|
  {
    if cookies == [] then []
    else
      var rest := Issued(NextCounter(counter, cookies[0]), cookies[1..]);
      match Serve(counter, cookies[0]).newSession
      case None => rest
      case Some(id) => [id] + rest
  }

  /** `n` ids drawn from `counter` on. */
  function Consecutive(counter: nat, n: nat): seq<string> {
    seq(n, i requires 0 <= i < n => NewId((counter + i) % USIZE))
  }

  lemma {:induction false} IssuedConsecutively(counter: nat, cookies: seq<Option<string>>)
    requires counter < USIZE
    ensures Issued(counter, cookies) == Consecutive(counter, |Issued(counter, cookies)|)
    decreases |cookies|
  {
    if cookies != [] {
      var next := NextCounter(counter, cookies[0]);
      var rest := Issued(next, cookies[1..]);
      IssuedConsecutively(next, cookies[1..]);
      if SessionOf(cookies[0]) == "" {
        ConsecutiveFrom(counter, |rest|);
        assert Issued(counter, cookies) == [NewId(counter)] + rest;
      } else {
        assert Issued(counter, cookies) == rest;
      }
    }
  }

  lemma ConsecutiveFrom(counter: nat, n: nat)
    requires counter < USIZE
    ensures Consecutive(counter, n + 1) == [NewId(counter)] + Consecutive((counter + 1) % USIZE, n)
  {
    var whole := Consecutive(counter, n + 1);
    var rest := Consecutive((counter + 1) % USIZE, n);
    assert whole[0] == NewId(counter) by {
      assert (counter + 0) % USIZE == counter;
    }
    forall i | 0 <= i < n ensures whole[i + 1] == rest[i] {
      WrapAgain(counter, i + 1);
    }
    assert whole == [NewId(counter)] + rest;
  }

  lemma WrapAgain(counter: nat, i: nat)
    requires counter < USIZE && i > 0
    ensures ((counter + 1) % USIZE + (i - 1)) % USIZE == (counter + i) % USIZE
  {
  }

  lemma WrapDistinct(counter: nat, i: nat, j: nat)
    requires counter < USIZE && i < j < USIZE
    ensures (counter + i) % USIZE != (counter + j) % USIZE
  {
  }

  lemma NewIdInjective(m: nat, n: nat)
    ensures NewId(m) == NewId(n) ==> m == n
  {
    assert NewId(m)[5..] == Decimal(m) && NewId(n)[5..] == Decimal(n);
    DecimalInjective(m, n);
  }

  ghost predicate AllDistinct(ids: seq<string>) {
    forall i, j :: 0 <= i < j < |ids| ==> ids[i] != ids[j]
  }

  lemma ConsecutiveDistinct(counter: nat, n: nat)
    requires counter < USIZE
    ensures AllDistinct(Consecutive(counter, n)) <==> n <= USIZE
  {
    var ids := Consecutive(counter, n);
    if n <= USIZE {
      forall i, j | 0 <= i < j < |ids| ensures ids[i] != ids[j] {
        WrapDistinct(counter, i, j);
        NewIdInjective((counter + i) % USIZE, (counter + j) % USIZE);
      }
    } else {
      assert ids[0] == NewId((counter + 0) % USIZE) && ids[USIZE] == NewId((counter + USIZE) % USIZE);
      assert (counter + USIZE) % USIZE == counter % USIZE;
    }
  }

  /** Over every run, new sessions get pairwise distinct ids exactly as long as no more than
      2^64 of them are issued. */
  lemma IdsAreDistinct(counter: nat, cookies: seq<Option<string>>)
    requires counter < USIZE
    ensures AllDistinct(Issued(counter, cookies)) <==> |Issued(counter, cookies)| <= USIZE
  {
    IssuedConsecutively(counter, cookies);
    ConsecutiveDistinct(counter, |Issued(counter, cookies)|);
  }

  // ---------- the returning client ----------

  predicate Named(pairs: seq<Pair>, name: string) {
    exists i :: 0 <= i < |pairs| && pairs[i].name == name
  }

  lemma {:induction false} FirstPrintedIs(before: seq<Pair>, session: Pair, after: seq<Pair>)
    requires WellFormed(before) && Token(session.name) && !Named(before, session.name)
    ensures FirstPrinted(before + [session] + after, session.name + "=") == Some(Print(session))
  {
    var all := before + [session] + after;
    KeyMatchesName(all[0], session.name) by {
      TokenHasNoEquals(session.name);
    }
    if before != [] {
      assert all[1..] == before[1..] + [session] + after;
      FirstPrintedIs(before[1..], session, after);
    }
  }

  /** Among any other well-formed cookies the first one of its name is the part found. */
  lemma ReturnedPart(before: seq<Pair>, session: Pair, after: seq<Pair>)
    requires WellFormed(before) && WellFormed(after) && Token(session.name) && CookieValue(session.value)
    requires !Named(before, session.name)
    ensures var text := CookieString(before + [session] + after);
            ToStr(text) == Some(text) && FirstPart(Split(text, ';'), session.name + "=") == Some(Print(session))
  {
    var all := before + [session] + after;
    assert WellFormed(all);
    CookieStringReadable(all);
    FirstPartOfCookieString(all, session.name + "=");
    FirstPrintedIs(before, session, after);
  }

  /** What one request with a returned session cookie, among any others, yields: the cookie's
      stripped value is the key and no id is drawn, unless nothing is left of it, and then a new
      id is.  The value itself is the key exactly when it is not empty and does not start with
      the key text. */
  lemma ReturnedCookie(counter: nat, before: seq<Pair>, value: string, after: seq<Pair>)
    requires WellFormed(before) && WellFormed(after) && CookieValue(value)
    requires !Named(before, "session-id")
    ensures var cookie := Some(CookieString(before + [Pair("session-id", value)] + after));
            var stripped := StripAll(value, COOKIE_KEY);
            && (stripped != "" ==>
                  Serve(counter, cookie) == Served(stripped, None) && NextCounter(counter, cookie) == counter)
            && (stripped == "" ==>
                  && Serve(counter, cookie) == Served(NewId(counter), Some(NewId(counter)))
                  && NextCounter(counter, cookie) == (counter + 1) % USIZE)
            && (Serve(counter, cookie) == Served(value, None) <==> value != "" && !(COOKIE_KEY <= value))
  {
    ReturnedSession(before, value, after);
    StripShortens(value, COOKIE_KEY);
  }

  lemma ReturnedSession(before: seq<Pair>, value: string, after: seq<Pair>)
    requires WellFormed(before) && WellFormed(after) && CookieValue(value)
    requires !Named(before, "session-id")
    ensures SessionOf(Some(CookieString(before + [Pair("session-id", value)] + after))) == StripAll(value, COOKIE_KEY)
  {
    var session := SessionPair(value);
    SessionPairPrints(value);
    ReturnedPart(before, session, after);
    SessionOfText(CookieString(before + [session] + after), Print(session));
    StripOnce(Print(session), COOKIE_KEY, value);
  }

  function SessionPair(value: string): Pair {
    Pair("session-id", value)
  }

  lemma SessionPairPrints(value: string)
    ensures Token(SessionPair(value).name)
    ensures SessionPair(value).name + "=" == COOKIE_KEY && Print(SessionPair(value)) == COOKIE_KEY + value
  {
    TokenSessionId();
    assert "session-id" + "=" == COOKIE_KEY;
  }

  lemma TokenSessionId()
    ensures Token("session-id")
  {
    assert forall c :: c in "session-id" ==> c == '-' || 'a' <= c <= 'z';
  }

  lemma SessionOfText(text: string, part: string)
    requires ToStr(text) == Some(text) && FirstPart(Split(text, ';'), COOKIE_KEY) == Some(part)
    ensures SessionOf(Some(text)) == StripAll(part, COOKIE_KEY)
  {
  }

  lemma StripOnce(s: string, prefix: string, rest: string)
    requires prefix != "" && s == prefix + rest
    ensures StripAll(s, prefix) == StripAll(rest, prefix)
  {
  }

  lemma {:induction false} StripShortens(s: string, prefix: string)
    requires prefix != ""
    ensures |StripAll(s, prefix)| <= |s|
    ensures prefix <= s ==> |StripAll(s, prefix)| < |s|
    decreases |s|
  {
    if prefix <= s {
      StripShortens(s[|prefix|..], prefix);
    }
  }

  function Repeated(prefix: string, n: nat): string {
    if n == 0 then "" else prefix + Repeated(prefix, n - 1)
  }

  /** Stripping takes the key text off the front for as long as it stands there. */
  lemma {:induction false} StripMeaning(s: string, prefix: string) returns (n: nat)
    requires prefix != ""
    ensures s == Repeated(prefix, n) + StripAll(s, prefix) && !(prefix <= StripAll(s, prefix))
    decreases |s|
  {
    n := 0;
    if prefix <= s {
      var rest := s[|prefix|..];
      var m := StripMeaning(rest, prefix);
      var kept := StripAll(rest, prefix);
      n := m + 1;
      assert s == prefix + rest == prefix + (Repeated(prefix, m) + kept) == prefix + Repeated(prefix, m) + kept;
    }
  }

  /** A header of visible ASCII and tabs with a part that starts with "session-id=". */
  ghost predicate BringsSession(raw: string) {
    && (forall i :: 0 <= i < |raw| ==> ' ' <= raw[i] <= '~' || raw[i] == '\t')
    && exists part :: part in Split(raw, ';') && "session-id=" <= Trim(part)
  }

  lemma NoSession(cookie: Option<string>)
    requires cookie.Some? ==> !BringsSession(cookie.value)
    ensures SessionOf(cookie) == ""
  {
    if cookie.Some? && ToStr(cookie.value).Some? {
      FirstPartMeaning(Split(cookie.value, ';'), COOKIE_KEY);
      var parts := Split(cookie.value, ';');
      assert forall k :: 0 <= k < |parts| ==> parts[k] in parts;
    } else if cookie.Some? {
      assert Split("", ';') == [""] && [""][1..] == [];
    }
  }

  lemma SessionIsFound(raw: string)
    requires BringsSession(raw)
    ensures FirstPart(Split(raw, ';'), COOKIE_KEY).Some?
    ensures SessionOf(Some(raw)) == StripAll(FirstPart(Split(raw, ';'), COOKIE_KEY).value, COOKIE_KEY)
  {
    FirstPartMeaning(Split(raw, ';'), COOKIE_KEY);
  }

  /** Of any header that brings a session, the first such part counts. */
  lemma FirstSessionCounts(raw: string) returns (k: nat)
    requires BringsSession(raw)
    ensures var parts := Split(raw, ';');
            && k < |parts| && COOKIE_KEY <= Trim(parts[k])
            && (forall l :: 0 <= l < k ==> !(COOKIE_KEY <= Trim(parts[l])))
            && SessionOf(Some(raw)) == StripAll(Trim(parts[k]), COOKIE_KEY)
  {
    var parts := Split(raw, ';');
    FirstPartMeaning(parts, COOKIE_KEY);
    SessionIsFound(raw);
    k :| 0 <= k < |parts| && FirstPart(parts, COOKIE_KEY).value == Trim(parts[k]) && COOKIE_KEY <= Trim(parts[k])
         && forall l :: 0 <= l < k ==> !(COOKIE_KEY <= Trim(parts[l]));
  }

  /** Whoever brings no session draws the next id. */
  lemma NewClientDrawsAnId(counter: nat, cookie: Option<string>)
    requires cookie.Some? ==> !BringsSession(cookie.value)
    ensures var id := "user-" + Decimal(counter); Serve(counter, cookie) == Served(id, Some(id))
    ensures NextCounter(counter, cookie) == (counter + 1) % 0x1_0000_0000_0000_0000
  {
    NoSession(cookie);
  }

  lemma {:induction false} CookieStringReadable(pairs: seq<Pair>)
    requires WellFormed(pairs)
    ensures ToStr(CookieString(pairs)) == Some(CookieString(pairs))
  {
    if pairs != [] {
      PrintIsGraphic(pairs[0]);
      CookieStringReadable(pairs[1..]);
    }
  }

  /** The cookie a client keeps from a Set-Cookie header: the text before the first ';'. */
  function Kept(header: string): string {
    Split(header, ';')[0]
  }

  lemma NewIdIsValue(n: nat)
    ensures CookieValue(NewId(n)) && ';' !in NewId(n)
    ensures NewId(n) != "" && !(COOKIE_KEY <= NewId(n))
  {
    DecimalRoundTrip(n);
    forall i | 0 <= i < |NewId(n)| ensures CookieOctet(NewId(n)[i]) && NewId(n)[i] != ';' {
      if i >= 5 {
        assert NewId(n)[i] == Decimal(n)[i - 5];
      }
    }
    assert NewId(n)[0] == 'u';
  }

  lemma SetCookieIsKept(id: string)
    requires ';' !in id
    ensures Kept(SetCookie(id)) == Print(Pair("session-id", id))
  {
    var kept := "session-id=" + id;
    assert ';' !in kept;
    assert SetCookie(id) == kept + [';'] + " Path=/";
    SplitHead(kept, " Path=/", ';');
    assert kept == Print(Pair("session-id", id));
  }

  /** The loop closes: the id sent in Set-Cookie, kept by the client and returned among any
      other cookies, is the key again at any later counter, and no new id is drawn. */
  lemma ReturningClientSticks(issuedAt: nat, later: nat, before: seq<Pair>, session: Pair, after: seq<Pair>)
    requires WellFormed(before) && WellFormed(after) && !Named(before, "session-id")
    requires Print(session) == Kept(SetCookie(NewId(issuedAt))) && session.name == "session-id"
    ensures var cookie := Some(CookieString(before + [session] + after));
            Serve(later, cookie) == Served(NewId(issuedAt), None) && NextCounter(later, cookie) == later
  {
    var id := NewId(issuedAt);
    NewIdIsValue(issuedAt);
    SetCookieIsKept(id);
    PrintInjective(session, Pair("session-id", id));
    ReturnedCookie(later, before, id, after);
  }

  lemma PrintInjective(p: Pair, q: Pair)
    requires p.name == q.name && Print(p) == Print(q)
    ensures p == q
  {
    assert p.value == Print(p)[|p.name| + 1..];
    assert q.value == Print(q)[|q.name| + 1..];
  }
}
