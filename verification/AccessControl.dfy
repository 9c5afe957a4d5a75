/**
 Access control lists: compiled when the router is built, decided by the IP restriction
 middleware.  Any deny network blocks; otherwise a non-empty allow list must admit.
 */
module AccessControl {
  import opened Wrappers
  import opened Networks

  datatype Decision = Continue | Stop

  datatype AclConf = AclConf(allow: seq<string>, deny: seq<string>)

  datatype Compiled = Compiled(allow: seq<Net>, deny: seq<Net>)

  type Parser = string -> Option<Net>

  predicate AllParse(parse: Parser, blocks: seq<string>) {
    forall i :: 0 <= i < |blocks| ==> parse(blocks[i]).Some?
  }

  function ParseAll(parse: Parser, blocks: seq<string>): seq<Net>
    requires AllParse(parse, blocks)
  {
    seq(|blocks|, i requires 0 <= i < |blocks| => parse(blocks[i]).value)
  }

  predicate AclAccepted(parse: Parser, conf: Option<AclConf>) {
    conf.Some? ==> AllParse(parse, conf.value.deny) && AllParse(parse, conf.value.allow)
  }

  /** The table the router stores for a route. */
  function CompileAcl(parse: Parser, conf: Option<AclConf>): Option<Compiled>
    requires AclAccepted(parse, conf)
  {
    if conf.None? || (conf.value.allow == [] && conf.value.deny == []) then None
    else Some(Compiled(ParseAll(parse, conf.value.allow), ParseAll(parse, conf.value.deny)))
  }

  method ParseBlocks(parse: Parser, blocks: seq<string>) returns (nets: Option<seq<Net>>)
    ensures nets.Some? <==> AllParse(parse, blocks)
    ensures nets.Some? ==> nets.value == ParseAll(parse, blocks)
  {
    var found: seq<Net> := [];
    for i := 0 to |blocks|
      invariant AllParse(parse, blocks[..i]) && found == ParseAll(parse, blocks[..i])
    {
      var net := parse(blocks[i]);
      if net.None? {
        return None;
      }
      found := found + [net.value];
      assert forall k :: 0 <= k < i ==> blocks[..i + 1][k] == blocks[..i][k];
    }
    assert blocks[..|blocks|] == blocks;
    return Some(found);
  }

  method BuildAcl(parse: Parser, conf: Option<AclConf>) returns (r: Result<Option<Compiled>, ()>)
    ensures r.Ok? <==> AclAccepted(parse, conf)
    ensures r.Ok? ==> r.value == CompileAcl(parse, conf)
  {
    if conf.None? {
      return Ok(None);
    }
    var deny := ParseBlocks(parse, conf.value.deny);
    if deny.None? {
      return Err(());
    }
    var allow := ParseBlocks(parse, conf.value.allow);
    if allow.None? {
      return Err(());
    }
    if allow.value == [] && deny.value == [] {
      return Ok(None);
    }
    return Ok(Some(Compiled(allow.value, deny.value)));
  }

  // ---------- the decision ----------

  datatype Client = NoAddress | UnixSocket | Inet(ip: Address)

  /** The 403 could not be written. */
  datatype WriteError = ResponseNotWritten

  predicate Covered(nets: seq<Net>, a: Address)
  {
    exists i :: 0 <= i < |nets| && Contains(nets[i], a)
  }

  predicate Admits(table: Option<Compiled>, client: Client)
  {
    table.Some? && client.Inet? ==>
      !Covered(table.value.deny, client.ip)
      && (table.value.allow == [] || Covered(table.value.allow, client.ip))
  }

  /** `route` is the route entry's table, if the context holds an entry. */
  method HandleRequest(route: Option<Option<Compiled>>, client: Client, writable: bool)
    returns (r: Result<Decision, WriteError>)
    ensures r == if route.None? || Admits(route.value, client) then Ok(Continue)
                 else if writable then Ok(Stop) else Err(ResponseNotWritten)
  {
    if route.None? || route.value.None? || !client.Inet? {
      return Ok(Continue);
    }
    var acl := route.value.value;
    var ip := client.ip;
    for i := 0 to |acl.deny|
      invariant forall k :: 0 <= k < i ==> !Contains(acl.deny[k], ip)
    {
      if Contains(acl.deny[i], ip) {
        return if writable then Ok(Stop) else Err(ResponseNotWritten);
      }
    }
    for i := 0 to |acl.allow|
      invariant forall k :: 0 <= k < i ==> !Contains(acl.allow[k], ip)
    {
      if Contains(acl.allow[i], ip) {
        return Ok(Continue);
      }
    }
    if acl.allow != [] {
      return if writable then Ok(Stop) else Err(ResponseNotWritten);
    }
    return Ok(Continue);
  }

  // ---------- the meaning on the configuration ----------

  ghost predicate BlockCovers(parse: Parser, block: string, a: Address)
  {
    parse(block).Some? && SharesPrefix(parse(block).value, a)
  }

  /** No deny block holds the address, and the allow list is empty or one of its blocks does.
      A block holds the addresses that share its leading bits. */
  ghost predicate Permitted(parse: Parser, conf: AclConf, a: Address)
  {
    && (forall block :: block in conf.deny ==> !BlockCovers(parse, block, a))
    && (conf.allow == [] || exists block :: block in conf.allow && BlockCovers(parse, block, a))
  }

  lemma CoveredMeaning(parse: Parser, blocks: seq<string>, a: Address)
    requires AllParse(parse, blocks)
    ensures Covered(ParseAll(parse, blocks), a) <==> exists block :: block in blocks && BlockCovers(parse, block, a)
  {
    var nets := ParseAll(parse, blocks);
    forall i | 0 <= i < |blocks| ensures Contains(nets[i], a) <==> BlockCovers(parse, blocks[i], a) {
      ContainsMeansPrefix(nets[i], a);
    }
    if exists block :: block in blocks && BlockCovers(parse, block, a) {
      var block :| block in blocks && BlockCovers(parse, block, a);
      var i :| 0 <= i < |blocks| && blocks[i] == block;
      assert Contains(nets[i], a);
    }
  }

  /** The decision on the compiled table is the decision on the configuration; a route
      without a list, or with two empty lists, admits everyone. */
  lemma DecisionMeaning(parse: Parser, conf: Option<AclConf>, a: Address)
    requires AclAccepted(parse, conf)
    ensures Admits(CompileAcl(parse, conf), Inet(a)) <==> conf.None? || Permitted(parse, conf.value, a)
    ensures conf == Some(AclConf([], [])) ==> CompileAcl(parse, conf) == CompileAcl(parse, None)
  {
    if conf.Some? {
      CoveredMeaning(parse, conf.value.deny, a);
      CoveredMeaning(parse, conf.value.allow, a);
    }
  }

  /** Order and repetition of the blocks are irrelevant. */
  lemma OnlyTheBlocksMatter(parse: Parser, one: AclConf, other: AclConf, a: Address)
    requires AclAccepted(parse, Some(one)) && AclAccepted(parse, Some(other))
    requires forall block :: block in one.allow <==> block in other.allow
    requires forall block :: block in one.deny <==> block in other.deny
    ensures Admits(CompileAcl(parse, Some(one)), Inet(a)) <==> Admits(CompileAcl(parse, Some(other)), Inet(a))
  {
    DecisionMeaning(parse, Some(one), a);
    DecisionMeaning(parse, Some(other), a);
    if one.allow != [] {
      assert one.allow[0] in other.allow;
    }
    if other.allow != [] {
      assert other.allow[0] in one.allow;
    }
  }

  /** Network `i` replaced by its two halves. */
  function Halved(nets: seq<Net>, i: nat): seq<Net>
    requires i < |nets| && nets[i].prefixLen < Width(nets[i].address.family)
  {
    nets[..i] + [LowerHalf(nets[i]), UpperHalf(nets[i])] + nets[i + 1..]
  }

  lemma CoveredConcat(xs: seq<Net>, ys: seq<Net>, a: Address)
    ensures Covered(xs + ys, a) <==> Covered(xs, a) || Covered(ys, a)
  {
    var both := xs + ys;
    if Covered(xs, a) {
      var k :| 0 <= k < |xs| && Contains(xs[k], a);
      assert Contains(both[k], a);
    }
    if Covered(ys, a) {
      var k :| 0 <= k < |ys| && Contains(ys[k], a);
      assert Contains(both[|xs| + k], a);
    }
    if Covered(both, a) {
      var k :| 0 <= k < |both| && Contains(both[k], a);
      assert Contains(if k < |xs| then xs[k] else ys[k - |xs|], a);
    }
  }

  lemma HalvedCovers(nets: seq<Net>, i: nat, a: Address)
    requires i < |nets| && nets[i].prefixLen < Width(nets[i].address.family)
    ensures Covered(Halved(nets, i), a) <==> Covered(nets, a)
  {
    SplitInHalves(nets[i], a);
    var halves := [LowerHalf(nets[i]), UpperHalf(nets[i])];
    assert Covered(halves, a) <==> Covered([nets[i]], a) by {
      assert Covered([nets[i]], a) <==> Contains([nets[i]][0], a);
      assert Covered(halves, a) <==> Contains(halves[0], a) || Contains(halves[1], a);
    }
    CoveredConcat(nets[..i], halves, a);
    CoveredConcat(nets[..i] + halves, nets[i + 1..], a);
    CoveredConcat(nets[..i], [nets[i]], a);
    CoveredConcat(nets[..i] + [nets[i]], nets[i + 1..], a);
    assert nets == nets[..i] + [nets[i]] + nets[i + 1..];
  }

  /** Splitting any network of either list into its halves changes no decision. */
  lemma SplittingIsIrrelevant(table: Compiled, i: nat, client: Client)
    ensures i < |table.deny| && table.deny[i].prefixLen < Width(table.deny[i].address.family) ==>
      (Admits(Some(table.(deny := Halved(table.deny, i))), client) <==> Admits(Some(table), client))
    ensures i < |table.allow| && table.allow[i].prefixLen < Width(table.allow[i].address.family) ==>
      (Admits(Some(table.(allow := Halved(table.allow, i))), client) <==> Admits(Some(table), client))
  {
    var a := if client.Inet? then client.ip else Address(V4, 0);
    if i < |table.deny| && table.deny[i].prefixLen < Width(table.deny[i].address.family) {
      HalvedCovers(table.deny, i, a);
    }
    if i < |table.allow| && table.allow[i].prefixLen < Width(table.allow[i].address.family) {
      HalvedCovers(table.allow, i, a);
    }
  }
}
