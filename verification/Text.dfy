/**
 Text helpers that the Rust code takes from the standard library: `split`, `join`,
 `trim`, `contains` and decimal printing.  Each comes with the laws that pin it down.
 */
module Text {
  import opened Wrappers

  // ---------- split and join ----------

  function Split(s: string, sep: char): (parts: seq<string>)
    ensures |parts| >= 1
  {
    if s == "" then [""]
    else if s[0] == sep then [""] + Split(s[1..], sep)
    else var rest := Split(s[1..], sep); [[s[0]] + rest[0]] + rest[1..]
  }

  function Join(parts: seq<string>, glue: string): string {
    if parts == [] then ""
    else if |parts| == 1 then parts[0]
    else parts[0] + glue + Join(parts[1..], glue)
  }

  predicate Free(parts: seq<string>, sep: char) {
    forall i :: 0 <= i < |parts| ==> sep !in parts[i]
  }

  lemma {:induction false} SplitIsFree(s: string, sep: char)
    ensures Free(Split(s, sep), sep)
  {
    if s != "" {
      SplitIsFree(s[1..], sep);
    }
  }

  lemma {:induction false} JoinOfSplit(s: string, sep: char)
    ensures Join(Split(s, sep), [sep]) == s
  {
    if s != "" {
      JoinOfSplit(s[1..], sep);
      var rest := Split(s[1..], sep);
      var parts := Split(s, sep);
      if s[0] == sep {
        assert parts[1..] == rest;
      } else {
        assert parts[1..] == rest[1..];
        assert |rest| > 1 ==> Join(parts, [sep]) == [s[0]] + (rest[0] + [sep] + Join(rest[1..], [sep]));
      }
    }
  }

  /** Splitting at the first separator. */
  lemma {:induction false} SplitHead(head: string, rest: string, sep: char)
    requires sep !in head
    ensures Split(head + [sep] + rest, sep) == [head] + Split(rest, sep)
  {
    var s := head + [sep] + rest;
    if head == "" {
      assert s[1..] == rest;
    } else {
      SplitHead(head[1..], rest, sep);
      assert s[1..] == head[1..] + [sep] + rest;
      assert [head[0]] + head[1..] == head;
    }
  }

  lemma {:induction false} SplitUnbroken(s: string, sep: char)
    requires sep !in s
    ensures Split(s, sep) == [s]
  {
    if s != "" {
      SplitUnbroken(s[1..], sep);
      assert [s[0]] + s[1..] == s;
    }
  }

  lemma {:induction false} SplitOfJoin(parts: seq<string>, sep: char)
    requires parts != [] && Free(parts, sep)
    ensures Split(Join(parts, [sep]), sep) == parts
  {
    if |parts| == 1 {
      SplitUnbroken(parts[0], sep);
    } else {
      var rest := Join(parts[1..], [sep]);
      SplitOfJoin(parts[1..], sep);
      SplitHead(parts[0], rest, sep);
      assert Join(parts, [sep]) == parts[0] + [sep] + rest;
      assert [parts[0]] + parts[1..] == parts;
    }
  }

  // ---------- trim ----------

  /** The Unicode White_Space property, which `str::trim` uses. */
  predicate IsWhite(c: char) {
    var u := c as int;
    || 0x9 <= u <= 0xD || u == 0x20 || u == 0x85 || u == 0xA0 || u == 0x1680 || 0x2000 <= u <= 0x200A
    || u == 0x2028 || u == 0x2029 || u == 0x202F || u == 0x205F || u == 0x3000
  }

  function TrimStart(s: string): string {
    if s != "" && IsWhite(s[0]) then TrimStart(s[1..]) else s
  }

  function TrimEnd(s: string): string {
    if s != "" && IsWhite(s[|s| - 1]) then TrimEnd(s[..|s| - 1]) else s
  }

  function Trim(s: string): string {
    TrimEnd(TrimStart(s))
  }

  predicate AllWhite(s: string) {
    forall i :: 0 <= i < |s| ==> IsWhite(s[i])
  }

  lemma {:induction false} TrimStartMeaning(s: string) returns (before: string)
    ensures s == before + TrimStart(s) && AllWhite(before)
    ensures TrimStart(s) != "" ==> !IsWhite(TrimStart(s)[0])
  {
    before := "";
    if s != "" && IsWhite(s[0]) {
      var rest := TrimStartMeaning(s[1..]);
      before := [s[0]] + rest;
    }
  }

  lemma {:induction false} TrimEndMeaning(s: string) returns (after: string)
    ensures s == TrimEnd(s) + after && AllWhite(after)
    ensures TrimEnd(s) != "" ==> !IsWhite(TrimEnd(s)[|TrimEnd(s)| - 1])
  {
    after := "";
    if s != "" && IsWhite(s[|s| - 1]) {
      var rest := TrimEndMeaning(s[..|s| - 1]);
      after := rest + [s[|s| - 1]];
    }
  }

  /** Trimming takes off white space on both sides and all of it. */
  lemma TrimMeaning(s: string) returns (before: string, after: string)
    ensures s == before + Trim(s) + after && AllWhite(before) && AllWhite(after)
    ensures Trim(s) != "" ==> !IsWhite(Trim(s)[0]) && !IsWhite(Trim(s)[|Trim(s)| - 1])
  {
    before := TrimStartMeaning(s);
    after := TrimEndMeaning(TrimStart(s));
    if Trim(s) != "" {
      assert TrimStart(s)[0] == Trim(s)[0];
    }
  }

  // ---------- ASCII case ----------

  function LowerChar(c: char): char {
    if 'A' <= c <= 'Z' then (c as int + 32) as char else c
  }

  /** ASCII lower case, under which header names are compared (section 5.1 of RFC 9110). */
  function Lower(s: string): string {
    seq(|s|, i requires 0 <= i < |s| => LowerChar(s[i]))
  }

  const CAPITALS: string := "ABCDEFGHIJKLMNOPQRSTUVWXYZ"
  const SMALL_LETTERS: string := "abcdefghijklmnopqrstuvwxyz"

  lemma Alphabet(k: nat)
    requires k < 26
    ensures CAPITALS[k] as int == 65 + k && SMALL_LETTERS[k] as int == 97 + k
  {
  }

  /** A capital becomes its small letter, anything else stays. */
  lemma LowerMeaning(s: string, i: nat)
    requires i < |s|
    ensures |Lower(s)| == |s|
    ensures if s[i] in CAPITALS then exists k :: 0 <= k < 26 && s[i] == CAPITALS[k] && Lower(s)[i] == SMALL_LETTERS[k]
            else Lower(s)[i] == s[i]
  {
    var u := s[i] as int;
    if 65 <= u <= 90 {
      Alphabet(u - 65);
    } else if s[i] in CAPITALS {
      var k :| 0 <= k < |CAPITALS| && CAPITALS[k] == s[i];
      Alphabet(k);
    }
  }

  // ---------- header values ----------

  /** `HeaderValue::to_str`: visible ASCII and tab only. */
  function ToStr(raw: string): Option<string> {
    if forall i :: 0 <= i < |raw| ==> 32 <= raw[i] as int < 127 || raw[i] == '\t' then Some(raw) else None
  }

  // ---------- substring search ----------

  predicate PrefixAt(s: seq<int>, p: seq<int>, i: int)
    requires 0 <= i <= |s|
  {
    p <= s[i..]
  }

  predicate Contains(s: seq<int>, p: seq<int>) {
    exists i :: 0 <= i <= |s| && PrefixAt(s, p, i)
  }

  /** A substring is what stands between something before and something after. */
  lemma ContainsMeaning(s: seq<int>, p: seq<int>)
    ensures Contains(s, p) <==> exists before: seq<int>, after: seq<int> :: before + p + after == s
  {
    if Contains(s, p) {
      var i :| 0 <= i <= |s| && PrefixAt(s, p, i);
      assert s[..i] + p + s[i..][|p|..] == s;
    }
    if before: seq<int>, after: seq<int> :| before + p + after == s {
      assert s[|before|..] == p + after;
      assert PrefixAt(s, p, |before|);
    }
  }

  lemma ContainsExtends(s: seq<int>, whole: seq<int>, p: seq<int>)
    requires s <= whole && Contains(s, p)
    ensures Contains(whole, p)
  {
    var i :| 0 <= i <= |s| && PrefixAt(s, p, i);
    assert |p| <= |s| - i;
    assert forall k :: 0 <= k < |p| ==> p[k] == s[i..][k] == whole[i..][k];
    assert PrefixAt(whole, p, i);
  }

  // ---------- decimal numbers ----------

  function DigitChar(d: int): char
    requires 0 <= d < 10
  {
    ('0' as int + d) as char
  }

  predicate IsDigit(c: char) {
    '0' <= c <= '9'
  }

  function Decimal(n: nat): string {
    if n < 10 then [DigitChar(n)] else Decimal(n / 10) + [DigitChar(n % 10)]
  }

  function DigitsValue(s: string): nat
    requires forall i :: 0 <= i < |s| ==> IsDigit(s[i])
  {
    if s == "" then 0
    else
      assert IsDigit(s[|s| - 1]);
      DigitsValue(s[..|s| - 1]) * 10 + (s[|s| - 1] as int - '0' as int)
  }

  /** Printing and reading back is the identity, so printing is injective. */
  lemma {:induction false} DecimalRoundTrip(n: nat)
    ensures |Decimal(n)| > 0
    ensures forall i :: 0 <= i < |Decimal(n)| ==> IsDigit(Decimal(n)[i])
    ensures DigitsValue(Decimal(n)) == n
  {
    if n >= 10 {
      DecimalRoundTrip(n / 10);
      var s := Decimal(n);
      assert s[..|s| - 1] == Decimal(n / 10);
    } else {
      assert Decimal(n)[..0] == "";
    }
  }

  lemma DecimalInjective(m: nat, n: nat)
    ensures Decimal(m) == Decimal(n) ==> m == n
  {
    DecimalRoundTrip(m);
    DecimalRoundTrip(n);
  }
}
