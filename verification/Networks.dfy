/**
 CIDR networks over 32-bit and 128-bit addresses (section 3.1 of RFC 4632).  Membership is
 the range test of the `ipnet` crate; the reference meaning is agreement on the leading bits.
 */
module Networks {
  import opened Arithmetic

  datatype Family = V4 | V6

  function Width(f: Family): nat {
    if f.V4? then 32 else 128
  }

  function Pow2(n: nat): (r: nat)
    ensures r > 0
  {
    if n == 0 then 1 else 2 * Pow2(n - 1)
  }

  datatype AddressText = Address(family: Family, value: nat)

  type Address = a: AddressText | a.value < Pow2(Width(a.family)) witness Address(V4, 0)

  datatype NetText = Net(address: Address, prefixLen: nat)

  /** A network keeps the host bits it was written with. */
  type Net = n: NetText | n.prefixLen <= Width(n.address.family) witness Net(Address(V4, 0), 0)

  /** Number of addresses in a network. */
  function Size(n: Net): (r: nat)
    ensures r > 0
  {
    Pow2(Width(n.address.family) - n.prefixLen)
  }

  function NetworkOf(n: Net): nat
  {
    FloorTo(n.address.value, Size(n))
  }

  function BroadcastOf(n: Net): nat
  {
    NetworkOf(n) + Size(n) - 1
  }

  predicate Contains(n: Net, a: Address)
  {
    n.address.family == a.family && NetworkOf(n) <= a.value <= BroadcastOf(n)
  }

  // ---------- the meaning of a prefix ----------

  /** Bit `k` of an address, counted from the most significant. */
  function Bit(a: Address, k: nat): nat
    requires k < Width(a.family)
  {
    a.value / Pow2(Width(a.family) - 1 - k) % 2
  }

  ghost predicate SharesPrefix(n: Net, a: Address)
  {
    && n.address.family == a.family
    && forall k :: 0 <= k < n.prefixLen ==> Bit(a, k) == Bit(n.address, k)
  }

  /** Equal quotients by 2^(w-p) mean equal leading bits. */
  lemma {:induction false} LeadingBits(a: Address, b: Address, p: nat)
    requires a.family == b.family && p <= Width(a.family)
    ensures a.value / Pow2(Width(a.family) - p) == b.value / Pow2(Width(a.family) - p)
       <==> forall k :: 0 <= k < p ==> Bit(a, k) == Bit(b, k)
  {
    var w := Width(a.family);
    if p == 0 {
      DivUnique(a.value, Pow2(w), 0, a.value);
      DivUnique(b.value, Pow2(w), 0, b.value);
    } else {
      LeadingBits(a, b, p - 1);
      var d := Pow2(w - p);
      assert Pow2(w - (p - 1)) == 2 * d;
      DivTwice(a.value, d);
      DivTwice(b.value, d);
      assert Bit(a, p - 1) == a.value / d % 2;
      assert Bit(b, p - 1) == b.value / d % 2;
    }
  }

  /** The range test is exactly agreement on the first `prefixLen` bits. */
  lemma ContainsMeansPrefix(n: Net, a: Address)
    ensures Contains(n, a) <==> SharesPrefix(n, a)
  {
    if n.address.family == a.family {
      InBlock(n.address.value, Size(n), a.value);
      LeadingBits(a, n.address, n.prefixLen);
    }
  }

  // ---------- splitting ----------

  function LowerHalf(n: Net): Net
    requires n.prefixLen < Width(n.address.family)
  {
    BroadcastInRange(n);
    Net(Address(n.address.family, NetworkOf(n)), n.prefixLen + 1)
  }

  function UpperHalf(n: Net): Net
    requires n.prefixLen < Width(n.address.family)
  {
    BroadcastInRange(n);
    Net(Address(n.address.family, NetworkOf(n) + Size(n) / 2), n.prefixLen + 1)
  }

  lemma {:induction false} Pow2Add(m: nat, n: nat)
    ensures Pow2(m + n) == Pow2(m) * Pow2(n)
  {
    if m > 0 {
      Pow2Add(m - 1, n);
      DoubleProduct(Pow2(m - 1), Pow2(n));
    }
  }

  lemma BroadcastInRange(n: Net)
    ensures BroadcastOf(n) < Pow2(Width(n.address.family))
  {
    Pow2Add(n.prefixLen, Width(n.address.family) - n.prefixLen);
    BlockBelow(n.address.value, Size(n), Pow2(n.prefixLen));
  }

  /** A network is the disjoint union of its two halves. */
  lemma SplitInHalves(n: Net, a: Address)
    requires n.prefixLen < Width(n.address.family)
    ensures Contains(n, a) <==> Contains(LowerHalf(n), a) || Contains(UpperHalf(n), a)
    ensures !(Contains(LowerHalf(n), a) && Contains(UpperHalf(n), a))
  {
    var half := Pow2(Width(n.address.family) - (n.prefixLen + 1));
    assert Size(n) == 2 * half;
    HalfBlocks(n.address.value, half);
    assert Size(LowerHalf(n)) == half && Size(UpperHalf(n)) == half;
    assert NetworkOf(LowerHalf(n)) == NetworkOf(n);
    assert NetworkOf(UpperHalf(n)) == NetworkOf(n) + half;
  }
}
