/**
 Query rewriting: drop empty parameters and those starting with "debug=", then append
 "ref=pingora" and rebuild the URI.
 */
module QueryParams {
  import opened Wrappers
  import opened Text

  const TAG: string := "ref=pingora"

  predicate Kept(part: string) {
    part != "" && !("debug=" <= part)
  }

  function Filter(parts: seq<string>): seq<string> {
    if parts == [] then []
    else if Kept(parts[0]) then [parts[0]] + Filter(parts[1..])
    else Filter(parts[1..])
  }

  function Rewrite(query: string): string {
    Join(Filter(Split(query, '&')) + [TAG], "&")
  }

  /** The two components of a URI that the filter touches. */
  datatype Uri = Uri(path: string, query: Option<string>)

  function QueryOf(uri: Uri): string {
    match uri.query case None => "" case Some(q) => q
  }

  /** Reading back the text `path?query`: the query starts after the first '?'. */
  function ParseUri(text: string): Uri {
    var parts := Split(text, '?');
    if |parts| == 1 then Uri(text, None) else Uri(parts[0], Some(Join(parts[1..], "?")))
  }

  class RequestHeader {
    var uri: Uri
    var host: string

    method UpstreamRequestFilter()
      requires '?' !in uri.path
      modifies this
      ensures uri == Uri(old(uri).path, Some(Rewrite(QueryOf(old(uri)))))
      ensures host == "blue.pingora.local"
    {
      var query := QueryOf(uri);
      var params := [];
      var parts := Split(query, '&');
      for i := 0 to |parts|
        invariant params + Filter(parts[i..]) == Filter(parts)
        invariant uri == old(uri)
      {
        assert parts[i..][1..] == parts[i + 1..];
        if parts[i] != "" && !("debug=" <= parts[i]) {
          params := params + [parts[i]];
        }
      }
      assert parts[|parts|..] == [] && params + [] == params;
      params := params + [TAG];
      var newQuery := Join(params, "&");
      ParseIsInverse(uri.path, newQuery);
      uri := ParseUri(uri.path + "?" + newQuery);
      host := "blue.pingora.local";
    }
  }

  lemma ParseIsInverse(path: string, query: string)
    requires '?' !in path
    ensures ParseUri(path + "?" + query) == Uri(path, Some(query))
  {
    SplitHead(path, query, '?');
    JoinOfSplit(query, '?');
    assert path + "?" + query == path + ['?'] + query;
    assert ([path] + Split(query, '?'))[1..] == Split(query, '?');
  }

  lemma {:induction false} FilterIsFree(parts: seq<string>, sep: char)
    requires Free(parts, sep)
    ensures Free(Filter(parts), sep)
  {
    if parts != [] {
      FilterIsFree(parts[1..], sep);
    }
  }

  /** For every query: the rewritten one splits into exactly the kept original parts, in
      order, followed by the tag. */
  lemma RewriteMeaning(query: string)
    ensures Split(Rewrite(query), '&') == Filter(Split(query, '&')) + [TAG]
  {
    SplitIsFree(query, '&');
    FilterIsFree(Split(query, '&'), '&');
    SplitOfJoin(Filter(Split(query, '&')) + [TAG], '&');
  }

  /** Position by position, `from` says where in `parts` each selected part stood. */
  ghost predicate Selects(selected: seq<string>, parts: seq<string>, from: seq<nat>) {
    && |from| == |selected|
    && (forall k :: 0 <= k < |from| ==> from[k] < |parts| && selected[k] == parts[from[k]])
    && (forall k, l :: 0 <= k < l < |from| ==> from[k] < from[l])
  }

  lemma SelectsLater(selected: seq<string>, parts: seq<string>, from: seq<nat>, head: string)
    returns (shifted: seq<nat>)
    requires Selects(selected, parts, from)
    ensures Selects(selected, [head] + parts, shifted)
    ensures Selects([head] + selected, [head] + parts, [0] + shifted)
  {
    shifted := seq(|from|, k requires 0 <= k < |from| => from[k] + 1);
    var all := [head] + parts;
    forall k | 0 <= k < |shifted| ensures 0 < shifted[k] < |all| && selected[k] == all[shifted[k]] {
      assert selected[k] == parts[from[k]];
    }
    assert forall k :: 1 <= k < |[0] + shifted| ==> ([0] + shifted)[k] == shifted[k - 1];
  }

  lemma {:induction false} FilterSelects(parts: seq<string>) returns (from: seq<nat>)
    ensures Selects(Filter(parts), parts, from)
  {
    from := [];
    if parts != [] {
      var rest := FilterSelects(parts[1..]);
      from := SelectsLater(Filter(parts[1..]), parts[1..], rest, parts[0]);
      assert [parts[0]] + parts[1..] == parts;
      if Kept(parts[0]) {
        from := [0] + from;
      }
    }
  }

  lemma {:induction false} FilterKeeps(parts: seq<string>, part: string)
    ensures part in Filter(parts) ==> part != "" && !("debug=" <= part)
    ensures part != "" && !("debug=" <= part) ==> multiset(Filter(parts))[part] == multiset(parts)[part]
  {
    if parts != [] {
      assert parts == [parts[0]] + parts[1..];
      FilterKeeps(parts[1..], part);
    }
  }

  /** What a request is sent on with, for every query: the last part is the tag; the others are
      original parts in their order, none of them empty or a debug parameter, and every other
      part is there as often as before. */
  lemma RewrittenParts(query: string) returns (from: seq<nat>)
    ensures var before := Split(query, '&');
            var after := Split(Rewrite(query), '&');
            var kept := after[..|after| - 1];
            && after[|after| - 1] == "ref=pingora"
            && Selects(kept, before, from)
            && (forall part :: part in after ==> part != "" && !("debug=" <= part))
            && (forall part :: part != "" && !("debug=" <= part) ==> multiset(kept)[part] == multiset(before)[part])
    ensures query == "" ==> Rewrite(query) == "ref=pingora"
  {
    RewriteMeaning(query);
    var before := Split(query, '&');
    from := FilterSelects(before);
    forall part ensures
      && (part in Filter(before) ==> part != "" && !("debug=" <= part))
      && (part != "" && !("debug=" <= part) ==> multiset(Filter(before))[part] == multiset(before)[part])
    {
      FilterKeeps(before, part);
    }
    var after := Split(Rewrite(query), '&');
    assert after[..|after| - 1] == Filter(before);
    assert TAG[0] != "debug="[0];
  }

  lemma {:induction false} FilterOfKept(parts: seq<string>, last: string)
    requires Kept(last)
    ensures Filter(Filter(parts) + [last]) == Filter(parts) + [last]
  {
    var all := Filter(parts) + [last];
    if parts == [] {
      assert all[1..] == [];
    } else {
      FilterOfKept(parts[1..], last);
      if Kept(parts[0]) {
        assert all[1..] == Filter(parts[1..]) + [last];
      }
    }
  }

  /** Rewriting again only appends one more tag. */
  lemma RewriteTwice(query: string)
    ensures Split(Rewrite(Rewrite(query)), '&') == Split(Rewrite(query), '&') + [TAG]
    ensures Rewrite(Rewrite(query)) == Rewrite(query) + "&" + TAG
  {
    RewriteMeaning(query);
    RewriteMeaning(Rewrite(query));
    assert !("debug=" <= TAG) by {
      assert TAG[0] != "debug="[0];
    }
    FilterOfKept(Split(query, '&'), TAG);
    JoinOfSplit(Rewrite(Rewrite(query)), '&');
    JoinOfSplit(Rewrite(query), '&');
    JoinSnoc(Split(Rewrite(query), '&'), TAG, "&");
  }

  lemma {:induction false} JoinSnoc(parts: seq<string>, last: string, glue: string)
    requires parts != []
    ensures Join(parts + [last], glue) == Join(parts, glue) + glue + last
  {
    assert (parts + [last])[1..] == parts[1..] + [last];
    if |parts| > 1 {
      JoinSnoc(parts[1..], last, glue);
    }
  }
}
