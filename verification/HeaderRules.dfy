/**
 Header maps and the per-route header rules.  Names compare without case; inserting replaces
 every value of a name.  The configured additions come from a hash map, so their order of
 iteration is arbitrary.
 */
module HeaderRules {
  import opened Wrappers
  import opened Text
  import opened Config

  /** Lower-case names to their values. */
  type Headers = map<string, seq<string>>

  predicate NameChar(c: char) {
    || 'a' <= c <= 'z' || 'A' <= c <= 'Z' || '0' <= c <= '9' || c in "!#$%&'*+-.^_`|~"
  }

  /** A field name is a token (section 5.1 of RFC 9110). */
  predicate ValidName(name: string) {
    name != "" && forall i :: 0 <= i < |name| ==> NameChar(name[i])
  }

  /** A token is made of visible ASCII characters other than the delimiters (section 5.6.2 of
      RFC 9110). */
  lemma NameCharMeaning(c: char)
    ensures NameChar(c) <==> 33 <= c as int < 127 && c !in "\"(),/:;<=>?@[\\]{}"
  {
    var delimiters := "\"(),/:;<=>?@[\\]{}";
    assert forall k :: 0 <= k < |delimiters| ==> !NameChar(delimiters[k]);
  }

  predicate ValidValue(value: string) {
    forall i :: 0 <= i < |value| ==> (value[i] as int >= 32 && value[i] as int != 127) || value[i] == '\t'
  }

  /** Fails on a name or value that cannot be sent. */
  function InsertHeader(h: Headers, name: string, value: string): Option<Headers> {
    if ValidName(name) && ValidValue(value) then Some(h[Lower(name) := [value]]) else None
  }

  function RemoveHeader(h: Headers, name: string): Headers {
    h - {Lower(name)}
  }

  /** An order in which a hash map may yield its keys. */
  ghost predicate IsOrder(order: seq<string>, additions: map<string, string>) {
    && (forall i :: 0 <= i < |order| ==> order[i] in additions)
    && (forall k :: k in additions ==> k in order)
    && (forall i, j :: 0 <= i < j < |order| ==> order[i] != order[j])
  }

  predicate Iterates(order: seq<string>, additions: map<string, string>) {
    forall i :: 0 <= i < |order| ==> order[i] in additions
  }

  predicate ValidAdditions(additions: map<string, string>) {
    forall k :: k in additions ==> ValidName(k) && ValidValue(additions[k])
  }

  function AddAll(h: Headers, additions: map<string, string>, order: seq<string>): Option<Headers>
    requires Iterates(order, additions)
    decreases |order|
  {
    if order == [] then Some(h)
    else
      match InsertHeader(h, order[0], additions[order[0]])
      case None => None
      case Some(h') => AddAll(h', additions, order[1..])
  }

  function RemoveAll(h: Headers, names: seq<string>): Headers {
    if names == [] then h else RemoveAll(RemoveHeader(h, names[0]), names[1..])
  }

  /** Request rules: add, remove, then set Host unless it is to be preserved. */
  function RewriteRequest(rules: HeaderConf, sni: Option<string>, order: seq<string>, h: Headers): Option<Headers>
    requires Iterates(order, rules.addRequest)
  {
    match AddAll(h, rules.addRequest, order)
    case None => None
    case Some(added) =>
      var cleaned := RemoveAll(added, rules.removeRequest);
      if !rules.preserveHost && sni.Some? then InsertHeader(cleaned, "Host", sni.value) else Some(cleaned)
  }

  class Message {
    var headers: Headers

    constructor (h: Headers)
      ensures headers == h
    {
      headers := h;
    }

    method AddAllInPlace(additions: map<string, string>, order: seq<string>) returns (ok: bool)
      requires Iterates(order, additions)
      modifies this
      ensures ok <==> AddAll(old(headers), additions, order).Some?
      ensures ok ==> Some(headers) == AddAll(old(headers), additions, order)
    {
      for i := 0 to |order|
        invariant AddAll(old(headers), additions, order) == AddAll(headers, additions, order[i..])
      {
        assert order[i..][1..] == order[i + 1..];
        var next := InsertHeader(headers, order[i], additions[order[i]]);
        if next.None? {
          return false;
        }
        headers := next.value;
      }
      return true;
    }

    method RemoveAllInPlace(names: seq<string>)
      modifies this
      ensures headers == RemoveAll(old(headers), names)
    {
      for i := 0 to |names|
        invariant RemoveAll(old(headers), names) == RemoveAll(headers, names[i..])
      {
        assert names[i..][1..] == names[i + 1..];
        headers := RemoveHeader(headers, names[i]);
      }
    }

    method ApplyRequestRules(rules: HeaderConf, sni: Option<string>, order: seq<string>) returns (ok: bool)
      requires Iterates(order, rules.addRequest)
      modifies this
      ensures ok <==> RewriteRequest(rules, sni, order, old(headers)).Some?
      ensures ok ==> Some(headers) == RewriteRequest(rules, sni, order, old(headers))
    {
      ok := AddAllInPlace(rules.addRequest, order);
      if !ok {
        return;
      }
      RemoveAllInPlace(rules.removeRequest);
      if !rules.preserveHost && sni.Some? {
        var next := InsertHeader(headers, "Host", sni.value);
        if next.None? {
          return false;
        }
        headers := next.value;
      }
    }
  }

  // ---------- what the rules mean, name by name ----------

  /** The value of the last key in `order` that folds to `name`, if any. */
  function LastAdded(additions: map<string, string>, order: seq<string>, name: string): Option<string>
    requires Iterates(order, additions)
  {
    if order == [] then None
    else
      match LastAdded(additions, order[1..], name)
      case Some(v) => Some(v)
      case None => if Lower(order[0]) == name then Some(additions[order[0]]) else None
  }

  function Field(h: Headers, name: string): seq<string> {
    if name in h then h[name] else []
  }

  lemma {:induction false} AddAllMeaning(h: Headers, additions: map<string, string>, order: seq<string>, name: string)
    requires Iterates(order, additions) && ValidAdditions(additions)
    ensures AddAll(h, additions, order).Some?
    ensures var h' := AddAll(h, additions, order).value;
            && (name in h' <==> name in h || LastAdded(additions, order, name).Some?)
            && Field(h', name) ==
               match LastAdded(additions, order, name) case None => Field(h, name) case Some(v) => [v]
    decreases |order|
  {
    if order != [] {
      var h1 := InsertHeader(h, order[0], additions[order[0]]).value;
      AddAllMeaning(h1, additions, order[1..], name);
    }
  }

  predicate Removed(names: seq<string>, name: string) {
    exists i :: 0 <= i < |names| && Lower(names[i]) == name
  }

  lemma {:induction false} RemoveAllMeaning(h: Headers, names: seq<string>, name: string)
    ensures name in RemoveAll(h, names) <==> name in h && !Removed(names, name)
    ensures name in RemoveAll(h, names) ==> RemoveAll(h, names)[name] == h[name]
  {
    if names != [] {
      RemoveAllMeaning(RemoveHeader(h, names[0]), names[1..], name);
      if Removed(names[1..], name) {
        var i :| 0 <= i < |names[1..]| && Lower(names[1..][i]) == name;
        assert Lower(names[i + 1]) == name;
      }
      if Removed(names, name) && Lower(names[0]) != name {
        var i :| 0 <= i < |names| && Lower(names[i]) == name;
        assert Lower(names[1..][i - 1]) == name;
      }
    }
  }

  /** On requests: Host, unless preserved, ends as the given name; otherwise removal beats
      addition, and addition beats what was there. */
  lemma RequestRulesMeaning(rules: HeaderConf, sni: Option<string>, order: seq<string>, h: Headers, name: string)
    requires Iterates(order, rules.addRequest) && ValidAdditions(rules.addRequest)
    requires !rules.preserveHost && sni.Some? ==> ValidValue(sni.value)
    ensures RewriteRequest(rules, sni, order, h).Some?
    ensures Field(RewriteRequest(rules, sni, order, h).value, name) ==
            if name == "host" && !rules.preserveHost && sni.Some? then [sni.value]
            else if Removed(rules.removeRequest, name) then []
            else match LastAdded(rules.addRequest, order, name) case Some(v) => [v] case None => Field(h, name)
  {
    HostName();
    AddAllMeaning(h, rules.addRequest, order, name);
    var added := AddAll(h, rules.addRequest, order).value;
    RemoveAllMeaning(added, rules.removeRequest, name);
  }

  lemma {:induction false} AddAllSucceeds(h: Headers, additions: map<string, string>, order: seq<string>)
    requires Iterates(order, additions)
    ensures AddAll(h, additions, order).Some? <==>
            forall i :: 0 <= i < |order| ==> ValidName(order[i]) && ValidValue(additions[order[i]])
    decreases |order|
  {
    if order != [] {
      var h1 := InsertHeader(h, order[0], additions[order[0]]);
      if h1.Some? {
        AddAllSucceeds(h1.value, additions, order[1..]);
        assert forall i :: 1 <= i < |order| ==> order[i] == order[1..][i - 1];
      }
    }
  }

  lemma AdditionsSucceed(h: Headers, additions: map<string, string>, order: seq<string>)
    requires IsOrder(order, additions)
    ensures AddAll(h, additions, order).Some? <==> ValidAdditions(additions)
  {
    AddAllSucceeds(h, additions, order);
  }

  /** A request rewrite is refused exactly for a name or value that cannot be sent. */
  lemma RewriteSucceeds(rules: HeaderConf, sni: Option<string>, order: seq<string>, h: Headers)
    requires IsOrder(order, rules.addRequest)
    ensures RewriteRequest(rules, sni, order, h).Some? <==>
            ValidAdditions(rules.addRequest) && (!rules.preserveHost && sni.Some? ==> ValidValue(sni.value))
  {
    HostName();
    AdditionsSucceed(h, rules.addRequest, order);
  }

  lemma HostName()
    ensures ValidName("Host") && Lower("Host") == "host"
  {
  }

  // ---------- independence of the iteration order ----------

  /** Keys that fold to the same name outside `masked` carry the same value. */
  ghost predicate Agree(additions: map<string, string>, masked: iset<string>) {
    forall k, l :: k in additions && l in additions && Lower(k) == Lower(l) && Lower(k) !in masked ==>
      additions[k] == additions[l]
  }

  /** Every order yields the same field for every name outside `masked`. */
  ghost predicate OrderIrrelevant(additions: map<string, string>, masked: iset<string>) {
    forall one, other, name :: IsOrder(one, additions) && IsOrder(other, additions) && name !in masked ==>
      LastAdded(additions, one, name) == LastAdded(additions, other, name)
  }

  lemma {:induction false} LastAddedIsSome(additions: map<string, string>, order: seq<string>, name: string)
    requires Iterates(order, additions)
    ensures match LastAdded(additions, order, name)
      case None => forall i :: 0 <= i < |order| ==> Lower(order[i]) != name
      case Some(v) => exists i :: 0 <= i < |order| && Lower(order[i]) == name && additions[order[i]] == v
  {
    if order != [] {
      LastAddedIsSome(additions, order[1..], name);
      var rest := LastAdded(additions, order[1..], name);
      if rest.Some? {
        var i :| 0 <= i < |order[1..]| && Lower(order[1..][i]) == name && additions[order[1..][i]] == rest.value;
        assert Lower(order[i + 1]) == name && additions[order[i + 1]] == rest.value;
      } else {
        forall i | 1 <= i < |order| ensures Lower(order[i]) != name {
          assert Lower(order[1..][i - 1]) != name;
        }
      }
    }
  }

  lemma {:induction false} LastAddedAtEnd(additions: map<string, string>, order: seq<string>, last: string)
    requires Iterates(order, additions) && last in additions
    ensures LastAdded(additions, order + [last], Lower(last)) == Some(additions[last])
  {
    if order != [] {
      assert (order + [last])[1..] == order[1..] + [last];
      LastAddedAtEnd(additions, order[1..], last);
    } else {
      assert (order + [last])[1..] == [];
    }
  }

  lemma {:induction false} Enumerate(keys: set<string>) returns (order: seq<string>)
    ensures forall k :: k in order <==> k in keys
    ensures forall i, j :: 0 <= i < j < |order| ==> order[i] != order[j]
  {
    if keys == {} {
      order := [];
    } else {
      var k :| k in keys;
      order := Enumerate(keys - {k});
      order := order + [k];
    }
  }

  /** Some iteration order of a map. */
  ghost function SomeOrder(additions: map<string, string>): (order: seq<string>)
    ensures IsOrder(order, additions)
  {
    OrderExists(additions);
    var order :| IsOrder(order, additions);
    order
  }

  lemma OrderExists(additions: map<string, string>)
    ensures exists order :: IsOrder(order, additions)
  {
    var order := Enumerate(additions.Keys);
    forall i | 0 <= i < |order| ensures order[i] in additions {
      assert order[i] in order;
    }
    assert IsOrder(order, additions);
  }

  lemma OrderEndingIn(additions: map<string, string>, last: string) returns (order: seq<string>)
    requires last in additions
    ensures IsOrder(order, additions)
    ensures LastAdded(additions, order, Lower(last)) == Some(additions[last])
  {
    var rest := Enumerate(additions.Keys - {last});
    forall i | 0 <= i < |rest| ensures rest[i] in additions && rest[i] != last {
      assert rest[i] in rest;
    }
    order := rest + [last];
    LastAddedAtEnd(additions, rest, last);
  }

  /** The outcome is independent of the iteration order exactly when keys that differ only in
      case agree on their value, names overwritten or removed afterwards aside. */
  lemma OrderIrrelevantExactly(additions: map<string, string>, masked: iset<string>)
    ensures OrderIrrelevant(additions, masked) <==> Agree(additions, masked)
  {
    if Agree(additions, masked) {
      forall one, other, name | IsOrder(one, additions) && IsOrder(other, additions) && name !in masked
        ensures LastAdded(additions, one, name) == LastAdded(additions, other, name)
      {
        LastAddedIsSome(additions, one, name);
        LastAddedIsSome(additions, other, name);
      }
    }
    if OrderIrrelevant(additions, masked) {
      forall k, l | k in additions && l in additions && Lower(k) == Lower(l) && Lower(k) !in masked
        ensures additions[k] == additions[l]
      {
        var one := OrderEndingIn(additions, k);
        var other := OrderEndingIn(additions, l);
      }
    }
  }

  /** The names whose additions a request rewrite overrides. */
  ghost function Overridden(rules: HeaderConf, sni: Option<string>): iset<string> {
    iset name | Removed(rules.removeRequest, name) || (name == "host" && !rules.preserveHost && sni.Some?)
  }

  /** The field `name` of a rewritten request. */
  function RequestField(
    rules: HeaderConf, sni: Option<string>, order: seq<string>, h: Headers, name: string): seq<string>
    requires Iterates(order, rules.addRequest)
  {
    match RewriteRequest(rules, sni, order, h) case None => [] case Some(h') => Field(h', name)
  }

  ghost predicate RequestIndependent(rules: HeaderConf, sni: Option<string>, h: Headers) {
    forall one, other, name :: IsOrder(one, rules.addRequest) && IsOrder(other, rules.addRequest) ==>
      RequestField(rules, sni, one, h, name) == RequestField(rules, sni, other, h, name)
  }

  lemma OrdersDiffer(
    rules: HeaderConf, sni: Option<string>, h: Headers, one: seq<string>, other: seq<string>, name: string)
    requires ValidAdditions(rules.addRequest) && (sni.Some? ==> ValidValue(sni.value))
    requires IsOrder(one, rules.addRequest) && IsOrder(other, rules.addRequest)
    ensures RequestField(rules, sni, one, h, name) == RequestField(rules, sni, other, h, name)
       <==> name in Overridden(rules, sni)
            || LastAdded(rules.addRequest, one, name) == LastAdded(rules.addRequest, other, name)
  {
    RequestRulesMeaning(rules, sni, one, h, name);
    RequestRulesMeaning(rules, sni, other, h, name);
    SameNames(rules.addRequest, one, other, name);
    var a := LastAdded(rules.addRequest, one, name);
    var b := LastAdded(rules.addRequest, other, name);
    if a.Some? && a != b {
      assert [a.value][0] != [b.value][0];
    }
  }

  /** For valid names, a request rewrite is independent of the iteration order exactly when
      case-colliding additions that survive agree. */
  lemma RequestOrderIrrelevant(rules: HeaderConf, sni: Option<string>, h: Headers)
    requires ValidAdditions(rules.addRequest) && (sni.Some? ==> ValidValue(sni.value))
    ensures RequestIndependent(rules, sni, h) <==> Agree(rules.addRequest, Overridden(rules, sni))
  {
    OrderIrrelevantExactly(rules.addRequest, Overridden(rules, sni));
    forall one, other, name | IsOrder(one, rules.addRequest) && IsOrder(other, rules.addRequest)
      ensures RequestField(rules, sni, one, h, name) == RequestField(rules, sni, other, h, name)
         <==> name in Overridden(rules, sni)
              || LastAdded(rules.addRequest, one, name) == LastAdded(rules.addRequest, other, name)
    {
      OrdersDiffer(rules, sni, h, one, other, name);
    }
  }

  lemma SameNames(additions: map<string, string>, one: seq<string>, other: seq<string>, name: string)
    requires IsOrder(one, additions) && IsOrder(other, additions)
    ensures LastAdded(additions, one, name).Some? <==> LastAdded(additions, other, name).Some?
  {
    LastAddedIsSome(additions, one, name);
    LastAddedIsSome(additions, other, name);
  }

  /** On responses, removal runs first and addition last, so addition wins. */
  lemma ResponseRulesMeaning(rules: HeaderConf, order: seq<string>, h: Headers, name: string)
    requires Iterates(order, rules.addResponse) && ValidAdditions(rules.addResponse)
    ensures AddAll(RemoveAll(h, rules.removeResponse), rules.addResponse, order).Some?
    ensures Field(AddAll(RemoveAll(h, rules.removeResponse), rules.addResponse, order).value, name) ==
            match LastAdded(rules.addResponse, order, name)
            case Some(v) => [v]
            case None => if Removed(rules.removeResponse, name) then [] else Field(h, name)
  {
    RemoveAllMeaning(h, rules.removeResponse, name);
    AddAllMeaning(RemoveAll(h, rules.removeResponse), rules.addResponse, order, name);
  }

  /** The field `name` of a response after removal, then addition. */
  function ResponseField(rules: HeaderConf, order: seq<string>, h: Headers, name: string): seq<string>
    requires Iterates(order, rules.addResponse)
  {
    match AddAll(RemoveAll(h, rules.removeResponse), rules.addResponse, order)
    case None => []
    case Some(h') => Field(h', name)
  }

  ghost predicate ResponseIndependent(rules: HeaderConf, h: Headers) {
    forall one, other, name :: IsOrder(one, rules.addResponse) && IsOrder(other, rules.addResponse) ==>
      ResponseField(rules, one, h, name) == ResponseField(rules, other, h, name)
  }

  /** For valid names, a response rewrite is independent of the iteration order exactly when
      all case-colliding additions agree. */
  lemma ResponseOrderIrrelevant(rules: HeaderConf, h: Headers)
    requires ValidAdditions(rules.addResponse)
    ensures ResponseIndependent(rules, h) <==> Agree(rules.addResponse, iset{})
  {
    OrderIrrelevantExactly(rules.addResponse, iset{});
    forall one, other, name | IsOrder(one, rules.addResponse) && IsOrder(other, rules.addResponse)
      ensures ResponseField(rules, one, h, name) == ResponseField(rules, other, h, name)
         <==> LastAdded(rules.addResponse, one, name) == LastAdded(rules.addResponse, other, name)
    {
      ResponseRulesMeaning(rules, one, h, name);
      ResponseRulesMeaning(rules, other, h, name);
      SameNames(rules.addResponse, one, other, name);
      var a := LastAdded(rules.addResponse, one, name);
      var b := LastAdded(rules.addResponse, other, name);
      if a.Some? && a != b {
        assert [a.value][0] != [b.value][0];
      }
    }
  }
}
