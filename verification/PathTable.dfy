/**
 The path matcher for the two pattern forms the gateway uses: a literal path, and a literal
 stem followed by a named catch-all.  A literal beats a catch-all, a longer stem beats a
 shorter one, and a catch-all must capture at least one character.
 */
module PathTable {
  import opened Wrappers

  datatype Pattern = Literal(text: string) | CatchAll(stem: string)

  predicate Plain(s: string) {
    '{' !in s && '}' !in s
  }

  function IndexOf(s: string, c: char): (k: nat)
    requires c in s
    ensures k < |s| && s[k] == c && c !in s[..k]
  {
    if s[0] == c then 0
    else
      var k := 1 + IndexOf(s[1..], c);
      assert s[..k] == [s[0]] + s[1..][..k - 1];
      k
  }

  /** `{*name}`, and nothing after it. */
  predicate IsWildcard(s: string) {
    && |s| > 3 && s[1] == '*' && s[|s| - 1] == '}'
    && Plain(s[2..|s| - 1]) && '/' !in s && '*' !in s[2..]
  }

  /** `/stem/{*name}` is a catch-all; text without braces is literal; nothing else is read. */
  function ParsePattern(path: string): Option<Pattern> {
    if Plain(path) then Some(Literal(path))
    else if '{' !in path then None
    else
      var k := IndexOf(path, '{');
      if k > 0 && path[k - 1] == '/' && Plain(path[..k]) && IsWildcard(path[k..])
      then Some(CatchAll(path[..k])) else None
  }

  lemma IndexAfter(head: string, tail: string, c: char)
    requires c !in head && tail != "" && tail[0] == c
    ensures IndexOf(head + tail, c) == |head|
  {
    var s := head + tail;
    assert s[|head|] == c;
    var k := IndexOf(s, c);
    assert forall i :: 0 <= i < |head| ==> s[i] == head[i];
    assert forall i :: 0 <= i < k ==> s[..k][i] == s[i];
  }

  lemma WildcardIsRead(name: string)
    requires name != "" && Plain(name) && '/' !in name && '*' !in name
    ensures IsWildcard("{*" + name + "}")
  {
    var s := "{*" + name + "}";
    assert s[2..|s| - 1] == name;
    assert s[2..] == name + "}";
  }

  /** Writing a catch-all and reading it back. */
  lemma CatchAllIsRead(stem: string, name: string)
    requires Plain(stem) && stem != "" && stem[|stem| - 1] == '/'
    requires name != "" && Plain(name) && '/' !in name && '*' !in name
    ensures ParsePattern(stem + ("{*" + name + "}")) == Some(CatchAll(stem))
  {
    var wildcard := "{*" + name + "}";
    IndexAfter(stem, wildcard, '{');
    WildcardIsRead(name);
    var path := stem + wildcard;
    assert path[|stem|] == '{' && path[..|stem|] == stem && path[|stem|..] == wildcard;
  }

  /** `text` is `stem{*name}`, with a stem that ends in '/'. */
  ghost predicate WrittenAs(text: string, stem: string, name: string) {
    && text == stem + ("{*" + name + "}")
    && Plain(stem) && stem != "" && stem[|stem| - 1] == '/'
    && name != "" && Plain(name) && '/' !in name && '*' !in name
  }

  lemma CatchAllWasWritten(text: string, stem: string) returns (name: string)
    requires ParsePattern(text) == Some(CatchAll(stem))
    ensures WrittenAs(text, stem, name)
  {
    var wildcard := text[|stem|..];
    name := wildcard[2..|wildcard| - 1];
    assert wildcard[0] == text[|stem|] == '{';
    assert wildcard == "{*" + name + "}";
    assert text == stem + wildcard;
    assert forall c :: c in name ==> c in wildcard && c in wildcard[2..];
  }

  lemma WrittenOnce(text: string, stem: string, name: string)
    requires WrittenAs(text, stem, name)
    ensures ParsePattern(text) == Some(CatchAll(stem)) && !Plain(text)
  {
    CatchAllIsRead(stem, name);
  }

  /** Which texts are patterns, and what they stand for. */
  lemma PatternMeaning(text: string)
    ensures ParsePattern(text) == Some(Literal(text)) <==> Plain(text)
    ensures forall stem :: ParsePattern(text) == Some(CatchAll(stem)) <==> exists name :: WrittenAs(text, stem, name)
  {
    forall stem ensures ParsePattern(text) == Some(CatchAll(stem)) <==> exists name :: WrittenAs(text, stem, name) {
      if ParsePattern(text) == Some(CatchAll(stem)) {
        var name := CatchAllWasWritten(text, stem);
      }
      if name :| WrittenAs(text, stem, name) {
        WrittenOnce(text, stem, name);
      }
    }
  }

  predicate Matches(p: Pattern, path: string) {
    match p
    case Literal(text) => text == path
    case CatchAll(stem) => stem <= path && stem != path
  }

  /** At least as specific. */
  predicate Beats(p: Pattern, q: Pattern) {
    p.Literal? || (q.CatchAll? && |p.stem| >= |q.stem|)
  }

  lemma BothWaysMeansSame(p: Pattern, q: Pattern, path: string)
    requires Matches(p, path) && Matches(q, path) && Beats(p, q) && Beats(q, p)
    ensures p == q
  {
  }

  /** Literal paths and stems, each with the index of its route. */
  datatype Table = Table(literals: map<string, nat>, stems: map<string, nat>) {
    predicate Has(p: Pattern) {
      match p case Literal(text) => text in literals case CatchAll(stem) => stem in stems
    }

    function Insert(p: Pattern, id: nat): Table {
      match p
      case Literal(text) => this.(literals := literals[text := id])
      case CatchAll(stem) => this.(stems := stems[stem := id])
    }

    /** The longest stem of at most `n` characters that `path` starts with. */
    function LongestStem(path: string, n: int): (m: int)
      requires -1 <= n <= |path|
      ensures -1 <= m <= n
      ensures m >= 0 ==> path[..m] in stems
      decreases n + 1
    {
      if n == -1 then -1
      else if path[..n] in stems then n
      else LongestStem(path, n - 1)
    }

    /** The winning pattern for a path, with its route. */
    function Find(path: string): Option<(Pattern, nat)> {
      if path in literals then Some((Literal(path), literals[path]))
      else
        var m := LongestStem(path, |path| - 1);
        if m == -1 then None else Some((CatchAll(path[..m]), stems[path[..m]]))
    }

    function At(path: string): Option<nat> {
      match Find(path) case None => None case Some(hit) => Some(hit.1)
    }
  }

  const EMPTY := Table(map[], map[])

  lemma {:induction false} LongestStemAfterInsert(t: Table, stem: string, id: nat, path: string, n: int)
    requires -1 <= n <= |path| && stem !in t.stems
    ensures t.Insert(CatchAll(stem), id).LongestStem(path, n) ==
            if |stem| <= n && stem <= path && t.LongestStem(path, n) < |stem| then |stem|
            else t.LongestStem(path, n)
    decreases n + 1
  {
    if n >= 0 {
      LongestStemAfterInsert(t, stem, id, path, n - 1);
      if |stem| == n && stem <= path {
        assert path[..n] == stem;
      }
    }
  }

  lemma {:induction false} LiteralKeepsStems(t: Table, text: string, id: nat, path: string, n: int)
    requires -1 <= n <= |path|
    ensures t.Insert(Literal(text), id).LongestStem(path, n) == t.LongestStem(path, n)
    decreases n + 1
  {
    if n >= 0 {
      LiteralKeepsStems(t, text, id, path, n - 1);
    }
  }

  /** Inserting a new pattern changes a lookup exactly when the pattern matches and beats the
      previous winner. */
  lemma FindAfterInsert(t: Table, p: Pattern, id: nat, path: string)
    requires !t.Has(p)
    ensures t.Insert(p, id).Find(path) ==
            if Matches(p, path) && (t.Find(path).None? || Beats(p, t.Find(path).value.0)) then Some((p, id))
            else t.Find(path)
  {
    match p {
      case Literal(text) => LiteralKeepsStems(t, text, id, path, |path| - 1);
      case CatchAll(stem) =>
        LongestStemAfterInsert(t, stem, id, path, |path| - 1);
        if stem <= path {
          assert path[..|stem|] == stem;
        }
    }
  }
}
