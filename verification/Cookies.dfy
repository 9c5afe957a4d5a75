/**
 Cookie extraction: split on ';', trim each part, take the first part that starts with the
 wanted name followed by '='.  Its partner is the printing of cookie pairs.
 */
module Cookies {
  import opened Wrappers
  import opened Text

  // ---------- extraction ----------

  /** The first part, trimmed, that starts with `key`. */
  function FirstPart(parts: seq<string>, key: string): Option<string> {
    if parts == [] then None
    else if key <= Trim(parts[0]) then Some(Trim(parts[0]))
    else FirstPart(parts[1..], key)
  }

  lemma {:induction false} FirstPartStarts(parts: seq<string>, key: string)
    ensures forall part :: FirstPart(parts, key) == Some(part) ==> key <= part
  {
    if parts != [] {
      FirstPartStarts(parts[1..], key);
    }
  }

  /** The value found for `key` in a cookie text, or the empty string. */
  function ValueFor(text: string, key: string): string {
    match FirstPart(Split(text, ';'), key)
    case None => ""
    case Some(part) => FirstPartStarts(Split(text, ';'), key); part[|key|..]
  }

  /** What is found in any text, well-formed or not: the value after `key` in the first part that
      starts with it once trimmed, and nothing if there is none. */
  lemma {:induction false} FirstPartMeaning(parts: seq<string>, key: string)
    ensures match FirstPart(parts, key)
      case None => forall k :: 0 <= k < |parts| ==> !(key <= Trim(parts[k]))
      case Some(part) => exists k ::
        && 0 <= k < |parts| && part == Trim(parts[k]) && key <= part
        && forall l :: 0 <= l < k ==> !(key <= Trim(parts[l]))
  {
    if parts != [] && !(key <= Trim(parts[0])) {
      FirstPartMeaning(parts[1..], key);
      if FirstPart(parts[1..], key).Some? {
        var k :| 0 <= k < |parts[1..]| && FirstPart(parts[1..], key).value == Trim(parts[1..][k])
                 && forall l :: 0 <= l < k ==> !(key <= Trim(parts[1..][l]));
        assert FirstPart(parts, key).value == Trim(parts[k + 1]);
        forall l | 0 <= l < k + 1 ensures !(key <= Trim(parts[l])) {
          if l > 0 {
            assert !(key <= Trim(parts[1..][l - 1]));
          }
        }
      } else {
        forall k | 1 <= k < |parts| ensures !(key <= Trim(parts[k])) {
          assert !(key <= Trim(parts[1..][k - 1]));
        }
      }
    }
  }

  lemma ExtractionMeaning(text: string, key: string)
    ensures var parts := Split(text, ';');
            || (ValueFor(text, key) == "" && forall k :: 0 <= k < |parts| ==> !(key <= Trim(parts[k])))
            || exists k ::
                 && 0 <= k < |parts| && Trim(parts[k]) == key + ValueFor(text, key)
                 && forall l :: 0 <= l < k ==> !(key <= Trim(parts[l]))
  {
    var parts := Split(text, ';');
    FirstPartMeaning(parts, key);
    if FirstPart(parts, key).Some? {
      var part := FirstPart(parts, key).value;
      var k :| 0 <= k < |parts| && part == Trim(parts[k]) && forall l :: 0 <= l < k ==> !(key <= Trim(parts[l]));
      assert Trim(parts[k]) == key + part[|key|..];
    }
  }

  // ---------- cookie strings, section 4.2.1 of RFC 6265 ----------

  predicate TokenChar(c: char) {
    33 <= c as int < 127 && c !in "()<>@,;:\\\"/[]?={}"
  }

  predicate Token(s: string) {
    s != "" && forall i :: 0 <= i < |s| ==> TokenChar(s[i])
  }

  predicate CookieOctet(c: char) {
    33 <= c as int < 127 && c !in "\",;\\"
  }

  predicate Octets(s: string) {
    forall i :: 0 <= i < |s| ==> CookieOctet(s[i])
  }

  predicate CookieValue(s: string) {
    Octets(s) || (|s| >= 2 && s[0] == '\"' && s[|s| - 1] == '\"' && Octets(s[1..|s| - 1]))
  }

  datatype Pair = Pair(name: string, value: string)

  predicate WellFormed(pairs: seq<Pair>) {
    forall i :: 0 <= i < |pairs| ==> Token(pairs[i].name) && CookieValue(pairs[i].value)
  }

  function Print(p: Pair): string {
    p.name + "=" + p.value
  }

  function CookieString(pairs: seq<Pair>): string {
    if pairs == [] then ""
    else if |pairs| == 1 then Print(pairs[0])
    else Print(pairs[0]) + "; " + CookieString(pairs[1..])
  }

  /** The value of the first pair called `name`, or the empty string. */
  function Lookup(pairs: seq<Pair>, name: string): string {
    if pairs == [] then ""
    else if pairs[0].name == name then pairs[0].value
    else Lookup(pairs[1..], name)
  }

  // ---------- proofs ----------

  predicate Graphic(s: string) {
    forall i :: 0 <= i < |s| ==> 33 <= s[i] as int < 127 && s[i] != ';'
  }

  lemma PrintIsGraphic(p: Pair)
    requires Token(p.name) && CookieValue(p.value)
    ensures Graphic(Print(p)) && ';' !in Print(p)
  {
  }

  lemma TrimGraphic(s: string)
    requires Graphic(s)
    ensures Trim(s) == s && Trim(" " + s) == s
  {
  }

  lemma SplitAfterSpace(s: string)
    ensures Split(" " + s, ';') == [" " + Split(s, ';')[0]] + Split(s, ';')[1..]
  {
  }

  lemma TrimAfterSpace(s: string)
    ensures Trim(" " + s) == Trim(s)
  {
  }

  lemma FirstPartCons(part: string, parts: seq<string>, key: string)
    ensures FirstPart([part] + parts, key) == if key <= Trim(part) then Some(Trim(part)) else FirstPart(parts, key)
  {
    assert ([part] + parts)[1..] == parts;
  }

  /** The first part of `head; rest` is that of `head`, or else that of `rest`. */
  lemma FirstPartOfTwo(head: string, rest: string, key: string)
    requires Graphic(head) && ';' !in head
    ensures FirstPart(Split(head + "; " + rest, ';'), key) ==
            if key <= head then Some(head) else FirstPart(Split(rest, ';'), key)
  {
    assert head + "; " + rest == head + [';'] + (" " + rest);
    SplitHead(head, " " + rest, ';');
    SplitAfterSpace(rest);
    var parts := Split(rest, ';');
    TrimGraphic(head);
    TrimAfterSpace(parts[0]);
    FirstPartCons(head, [" " + parts[0]] + parts[1..], key);
    FirstPartCons(" " + parts[0], parts[1..], key);
    FirstPartCons(parts[0], parts[1..], key);
    assert [parts[0]] + parts[1..] == parts;
  }

  /** The parts found in a cookie string are the printed pairs, in order. */
  lemma {:induction false} FirstPartOfCookieString(pairs: seq<Pair>, key: string)
    requires WellFormed(pairs) && key != ""
    ensures FirstPart(Split(CookieString(pairs), ';'), key) == FirstPrinted(pairs, key)
  {
    if pairs == [] {
      assert Split("", ';') == [""];
    } else {
      var head := Print(pairs[0]);
      PrintIsGraphic(pairs[0]);
      if |pairs| == 1 {
        SplitUnbroken(head, ';');
        TrimGraphic(head);
        FirstPartCons(head, [], key);
        assert pairs[1..] == [];
      } else {
        FirstPartOfTwo(head, CookieString(pairs[1..]), key);
        FirstPartOfCookieString(pairs[1..], key);
      }
    }
  }

  function FirstPrinted(pairs: seq<Pair>, key: string): Option<string> {
    if pairs == [] then None
    else if key <= Print(pairs[0]) then Some(Print(pairs[0]))
    else FirstPrinted(pairs[1..], key)
  }

  /** A name free of '=' matches exactly the pair that carries it: names that extend it or
      that it extends never match. */
  lemma KeyMatchesName(p: Pair, name: string)
    requires Token(p.name) && '=' !in name
    ensures name + "=" <= Print(p) <==> p.name == name
  {
    var key := name + "=";
    var printed := Print(p);
    TokenHasNoEquals(p.name);
    assert printed[|p.name|] == '=' && key[|name|] == '=';
    assert forall i :: 0 <= i < |p.name| ==> printed[i] == p.name[i] && printed[i] != '=';
    assert forall i :: 0 <= i < |name| ==> key[i] == name[i] && key[i] != '=';
    if key <= printed {
      assert |name| == |p.name|;
      assert name == key[..|name|] == printed[..|name|] == p.name;
    }
  }

  lemma TokenHasNoEquals(s: string)
    requires Token(s)
    ensures '=' !in s
  {
  }

  lemma {:induction false} PrintedLookup(pairs: seq<Pair>, name: string)
    requires WellFormed(pairs) && '=' !in name
    ensures match FirstPrinted(pairs, name + "=")
      case None => Lookup(pairs, name) == ""
      case Some(part) => name + "=" <= part && part[|name| + 1..] == Lookup(pairs, name)
  {
    if pairs != [] {
      KeyMatchesName(pairs[0], name);
      if pairs[0].name != name {
        PrintedLookup(pairs[1..], name);
      }
    }
  }

  /** The round trip: for every list of well-formed pairs. */
  ghost predicate RoundTrips(name: string) {
    forall pairs: seq<Pair> :: WellFormed(pairs) ==> ValueFor(CookieString(pairs), name + "=") == Lookup(pairs, name)
  }

  lemma RoundTrip(pairs: seq<Pair>, name: string)
    requires WellFormed(pairs) && '=' !in name
    ensures ValueFor(CookieString(pairs), name + "=") == Lookup(pairs, name)
  {
    FirstPartOfCookieString(pairs, name + "=");
    PrintedLookup(pairs, name);
  }

  // ---------- which configured names break the round trip ----------

  predicate ValueStart(s: string) {
    Octets(s) || (s != "" && s[0] == '\"' && Octets(s[1..]))
  }

  /** A configured name that reads as a cookie name, '=' and the start of a cookie value. */
  predicate Straddles(name: string) {
    exists k :: 0 <= k < |name| && name[k] == '=' && Token(name[..k]) && ValueStart(name[k + 1..])
  }

  lemma ValueOfOneCookie(p: Pair, key: string)
    requires Token(p.name) && CookieValue(p.value) && key != "" && key <= Print(p)
    ensures ValueFor(CookieString([p]), key) == Print(p)[|key|..]
  {
    FirstPartOfCookieString([p], key);
  }

  /** A value that continues `start` with '=' and one more character. */
  function Continued(start: string): string {
    start + if Octets(start) then "=x" else "=\""
  }

  lemma ContinuedIsValue(start: string)
    requires ValueStart(start)
    ensures CookieValue(Continued(start))
  {
  }

  lemma StraddlingNameFails(name: string, k: nat) returns (pairs: seq<Pair>)
    requires k < |name| && name[k] == '=' && Token(name[..k]) && ValueStart(name[k + 1..])
    ensures WellFormed(pairs)
    ensures ValueFor(CookieString(pairs), name + "=") != Lookup(pairs, name)
  {
    var start := name[k + 1..];
    var p := Pair(name[..k], Continued(start));
    ContinuedIsValue(start);
    assert name == name[..k] + "=" + start;
    assert name + "=" <= Print(p);
    ValueOfOneCookie(p, name + "=");
    pairs := [p];
    assert Lookup(pairs[1..], name) == "";
  }

  /** A cookie value cut at one of its '=' starts a cookie value. */
  lemma CutAtEquals(value: string, n: nat)
    requires CookieValue(value) && n < |value| && value[n] == '='
    ensures ValueStart(value[..n])
  {
    if !Octets(value) {
      var inner := value[1..|value| - 1];
      assert 0 < n < |value| - 1;
      assert value[..n][1..] == inner[..n - 1];
    }
  }

  lemma MatchMeansStraddles(p: Pair, name: string)
    requires Token(p.name) && CookieValue(p.value) && '=' in name
    requires name + "=" <= Print(p)
    ensures Straddles(name)
  {
    var printed := Print(p);
    var k := |p.name|;
    TokenHasNoEquals(p.name);
    assert forall i :: 0 <= i < |name| ==> name[i] == (name + "=")[i] == printed[i];
    assert k < |name|;
    assert name == printed[..|name|] && printed[|name|] == (name + "=")[|name|] == '=';
    var n := |name| - (k + 1);
    assert name[..k] == p.name && name[k] == '=' && name[k + 1..] == p.value[..n];
    CutAtEquals(p.value, n);
  }

  lemma {:induction false} UnmatchedPrinted(pairs: seq<Pair>, name: string)
    requires WellFormed(pairs) && '=' in name && !Straddles(name)
    ensures FirstPrinted(pairs, name + "=") == None && Lookup(pairs, name) == ""
  {
    if pairs != [] {
      if name + "=" <= Print(pairs[0]) {
        MatchMeansStraddles(pairs[0], name);
      }
      TokenHasNoEquals(pairs[0].name);
      UnmatchedPrinted(pairs[1..], name);
    }
  }

  /** Extraction inverts printing for exactly the configured names that do not straddle a
      name and a value; every name without '=' is among them. */
  lemma RoundTripsExactly(name: string)
    ensures RoundTrips(name) <==> !Straddles(name)
    ensures '=' !in name ==> RoundTrips(name)
  {
    if Straddles(name) {
      var k :| 0 <= k < |name| && name[k] == '=' && Token(name[..k]) && ValueStart(name[k + 1..]);
      var pairs := StraddlingNameFails(name, k);
    } else {
      forall pairs: seq<Pair> | WellFormed(pairs)
        ensures ValueFor(CookieString(pairs), name + "=") == Lookup(pairs, name)
      {
        if '=' in name {
          UnmatchedPrinted(pairs, name);
          FirstPartOfCookieString(pairs, name + "=");
        } else {
          RoundTrip(pairs, name);
        }
      }
    }
  }
}
