/** The subnet overlap check: CIDR prefixes of section 3.1 of RFC 4632 and section 2.3 of RFC 4291. */
module Subnets {

  type Address = seq<bv8>

  /** How an IPv4 address looks in IPv6 form. */
  const MAPPED: Address := [0, 0, 0, 0, 0, 0, 0, 0, 0, 0, 0xFF, 0xFF]

  predicate Mapped(x: Address) { |x| == 16 && x[..12] == MAPPED }

  /** IP.To4, and the address itself where that has no answer: IPv4-mapped addresses are taken for IPv4. */
  function Plain(x: Address): Address { if Mapped(x) then x[12..] else x }

  /** An IPv4 address and its IPv6 form are one address: ten zero bytes, two of all ones, and the four of IPv4. */
  lemma MappedIsSame(n: IPNet, x: Address, y: Address)
    requires |x| == 4 && |y| == 16 && y[12..] == x && y[10] == 0xFF && y[11] == 0xFF
    requires forall i :: 0 <= i < 10 ==> y[i] == 0
    ensures Plain(y) == x && (n.Contains(y) <==> n.Contains(x))
  {
    assert y[..12] == MAPPED;
  }

  /** A parsed prefix: 4 address bytes for IPv4, 16 for IPv6, and a mask of `ones` leading one bits. */
  datatype IPNet = IPNet(ip: Address, ones: nat) {
    ghost predicate Valid() { (|ip| == 4 || |ip| == 16) && ones <= 8 * |ip| }

    /** Byte i of the mask. */
    function Mask(i: nat): bv8 { MaskByte(ones, i) }

    /** IPNet.Contains: the masked bytes agree, and of an IPv4-mapped prefix the last four mask bytes count.
        Addresses of the other family are never contained. */
    predicate Contains(x: Address) {
      var own, other, skipped := Plain(ip), Plain(x), if Mapped(ip) then 12 else 0;
      |other| == |own| &&
      forall i :: 0 <= i < |own| ==> own[i] & Mask(i + skipped) == other[i] & Mask(i + skipped)
    }

    /** The same prefix with an IPv4-mapped address written as IPv4. */
    function Canonical(): IPNet {
      if !Mapped(ip) then this else IPNet(ip[12..], if ones < 96 then 0 else ones - 96)
    }

    /** The masked bytes agree, for addresses already written that way. */
    predicate Matches(x: Address) {
      |x| == |ip| && forall i :: 0 <= i < |ip| ==> ip[i] & Mask(i) == x[i] & Mask(i)
    }
  }

  /** The prefix length that counts. */
  function Length(n: IPNet): nat { n.Canonical().ones }

  lemma ContainsCanonical(n: IPNet, x: Address)
    ensures n.Contains(x) <==> n.Canonical().Matches(Plain(x))
  {
    if Mapped(n.ip) {
      assert forall i: nat :: n.Mask(i + 12) == n.Canonical().Mask(i);
    }
  }

  /** `ones` leading one bits, seen from byte i. */
  function MaskByte(ones: nat, i: nat): bv8 {
    if ones >= 8 * i + 8 then 0xFF
    else if ones <= 8 * i then 0x00
    else Leading(ones - 8 * i)
  }

  function Leading(n: nat): bv8
    requires 0 < n < 8
  {
    match n
    case 1 => 0x80 case 2 => 0xC0 case 3 => 0xE0 case 4 => 0xF0
    case 5 => 0xF8 case 6 => 0xFC case _ => 0xFE
  }

  predicate Overlap(a: IPNet, b: IPNet) { a.Contains(b.ip) || b.Contains(a.ip) }

  ghost predicate ShareAddress(a: IPNet, b: IPNet) {
    exists x: Address :: a.Contains(x) && b.Contains(x)
  }

  lemma LeadingNests(m: nat, n: nat)
    requires 0 < m <= n < 8
    ensures Leading(m) & Leading(n) == Leading(m)
  {
  }

  /** Masks of prefixes nest: the shorter one keeps a subset of the longer one's bits. */
  lemma MaskNests(short: nat, long: nat, i: nat)
    requires short <= long
    ensures MaskByte(short, i) & MaskByte(long, i) == MaskByte(short, i)
  {
    if 8 * i < short && long < 8 * i + 8 {
      LeadingNests(short - 8 * i, long - 8 * i);
    }
  }

  lemma MaskTwice(x: bv8, y: bv8, short: bv8, long: bv8)
    requires short & long == short && x & long == y & long
    ensures x & short == y & short
  {
    assert (x & long) & short == x & (short & long);
    assert (y & long) & short == y & (short & long);
  }

  /** The shorter prefix matches everything the longer one does, once it matches one of its addresses. */
  lemma ShorterSwallows(short: IPNet, long: IPNet, x: Address, y: Address)
    requires short.ones <= long.ones && |short.ip| == |long.ip|
    requires short.Matches(x) && long.Matches(x) && long.Matches(y)
    ensures short.Matches(y)
  {
    forall i | 0 <= i < |short.ip| ensures short.ip[i] & short.Mask(i) == y[i] & short.Mask(i) {
      MaskNests(short.ones, long.ones, i);
      MaskTwice(x[i], y[i], short.Mask(i), long.Mask(i));
    }
  }

  /** Two prefixes with an address in common: the shorter one contains the longer. */
  lemma SharedNests(short: IPNet, long: IPNet, x: Address)
    requires Length(short) <= Length(long) && short.Contains(x) && long.Contains(x)
    ensures forall y :: long.Contains(y) ==> short.Contains(y)
  {
    ContainsCanonical(short, x);
    ContainsCanonical(long, x);
    forall y | long.Contains(y) ensures short.Contains(y) {
      ContainsCanonical(short, y);
      ContainsCanonical(long, y);
      ShorterSwallows(short.Canonical(), long.Canonical(), Plain(x), Plain(y));
    }
  }

  /** subnetsOverlap is true exactly when some address lies in both, for all prefix lengths and families,
      aligned or not, IPv4-mapped or not; and overlapping prefixes nest. */
  lemma OverlapMeansShared(a: IPNet, b: IPNet)
    ensures Overlap(a, b) <==> ShareAddress(a, b)
    ensures Overlap(a, b) && Length(a) <= Length(b) ==> forall y :: b.Contains(y) ==> a.Contains(y)
    ensures Overlap(a, b) && Length(b) <= Length(a) ==> forall y :: a.Contains(y) ==> b.Contains(y)
  {
    assert a.Contains(a.ip) && b.Contains(b.ip);
    if x: Address :| a.Contains(x) && b.Contains(x) {
      if Length(a) <= Length(b) {
        SharedNests(a, b, x);
      }
      if Length(b) <= Length(a) {
        SharedNests(b, a, x);
      }
    }
  }

  /** Bit r of a byte, the most significant first. */
  predicate BitOf(x: bv8, r: nat)
    requires r < 8
  {
    x & Weight(r) != 0
  }

  /** Bit k of an address. */
  predicate Bit(x: Address, k: nat)
    requires k < 8 * |x|
  {
    BitOf(x[k / 8], k % 8)
  }

  function Weight(r: nat): bv8
    requires r < 8
  {
    match r
    case 0 => 0x80 case 1 => 0x40 case 2 => 0x20 case 3 => 0x10
    case 4 => 0x08 case 5 => 0x04 case 6 => 0x02 case _ => 0x01
  }

  predicate SameUnder(x: bv8, y: bv8, mask: bv8) { x & mask == y & mask }

  lemma SameBit(x: bv8, y: bv8, r: nat)
    requires r < 8
    ensures BitOf(x, r) == BitOf(y, r) <==> SameUnder(x, y, Weight(r))
  {
  }

  lemma JoinMasks(x: bv8, y: bv8, m: bv8, w: bv8)
    requires SameUnder(x, y, m) && SameUnder(x, y, w)
    ensures SameUnder(x, y, m | w)
  {
  }

  lemma SplitMasks(x: bv8, y: bv8, m: bv8, w: bv8)
    requires SameUnder(x, y, m | w)
    ensures SameUnder(x, y, m) && SameUnder(x, y, w)
  {
  }

  lemma MasksTogether(x: bv8, y: bv8, m: bv8, w: bv8)
    ensures SameUnder(x, y, m | w) <==> SameUnder(x, y, m) && SameUnder(x, y, w)
  {
    if SameUnder(x, y, m) && SameUnder(x, y, w) {
      JoinMasks(x, y, m, w);
    } else if SameUnder(x, y, m | w) {
      SplitMasks(x, y, m, w);
    }
  }

  /** The leading one bits of a mask byte, from none to eight. */
  function Head(n: nat): bv8
    requires n <= 8
  {
    if n == 0 then 0x00 else if n == 8 then 0xFF else Leading(n)
  }

  lemma HeadGrows(n: nat)
    requires 0 < n <= 8
    ensures Head(n) == Head(n - 1) | Weight(n - 1)
  {
  }

  /** One more leading bit. */
  lemma HeadStep(x: bv8, y: bv8, n: nat, h: bv8, w: bv8)
    requires 0 < n <= 8 && h == Head(n - 1) && w == Weight(n - 1)
    ensures SameUnder(x, y, Head(n)) <==> SameUnder(x, y, h) && BitOf(x, n - 1) == BitOf(y, n - 1)
  {
    HeadGrows(n);
    SameBit(x, y, n - 1);
    MasksTogether(x, y, h, w);
  }

  /** x and y agree on their first n bits. */
  ghost predicate AgreeOn(x: bv8, y: bv8, n: nat)
    requires n <= 8
  {
    n == 0 || (AgreeOn(x, y, n - 1) && BitOf(x, n - 1) == BitOf(y, n - 1))
  }

  lemma {:induction false} HeadBits(x: bv8, y: bv8, n: nat)
    requires n <= 8
    ensures SameUnder(x, y, Head(n)) <==> AgreeOn(x, y, n)
  {
    if n == 0 {
      assert SameUnder(x, y, 0x00);
    } else {
      HeadBits(x, y, n - 1);
      HeadStep(x, y, n, Head(n - 1), Weight(n - 1));
    }
  }

  lemma {:induction false} AgreeOnEach(x: bv8, y: bv8, n: nat)
    requires n <= 8
    ensures AgreeOn(x, y, n) <==> forall r: nat :: r < n ==> BitOf(x, r) == BitOf(y, r)
  {
    if n > 0 {
      AgreeOnEach(x, y, n - 1);
    }
  }

  /** How many of the mask's one bits fall in byte i. */
  ghost function OnesIn(ones: nat, i: nat): nat {
    if ones >= 8 * i + 8 then 8 else if ones <= 8 * i then 0 else ones - 8 * i
  }

  /** A prefix contains exactly the addresses of its family that agree with it on the bits of its length. */
  lemma ContainsMeansPrefix(n: IPNet, x: Address)
    requires n.Valid()
    ensures n.Contains(x) <==>
              && |Plain(x)| == |Plain(n.ip)|
              && forall k: nat :: k < Length(n) ==> Bit(Plain(n.ip), k) == Bit(Plain(x), k)
  {
    ContainsCanonical(n, x);
    if |Plain(x)| == |Plain(n.ip)| {
      MatchesMeansPrefix(n.Canonical(), Plain(x));
    }
  }

  lemma MatchesMeansPrefix(n: IPNet, x: Address)
    requires n.Valid() && |x| == |n.ip|
    ensures n.Matches(x) <==> forall k: nat :: k < n.ones ==> Bit(n.ip, k) == Bit(x, k)
  {
    forall i: nat | i < |x|
      ensures n.ip[i] & n.Mask(i) == x[i] & n.Mask(i) <==> SameBits(n.ip[i], x[i], OnesIn(n.ones, i))
    {
      MaskIsHead(n.ones, i);
      HeadMeans(n.ip[i], x[i], n.Mask(i), OnesIn(n.ones, i));
    }
    BytesAreBits(n, x);
  }

  /** The first n bits agree. */
  ghost predicate SameBits(x: bv8, y: bv8, n: nat)
    requires n <= 8
  {
    forall r: nat :: r < n ==> BitOf(x, r) == BitOf(y, r)
  }

  lemma HeadMeans(x: bv8, y: bv8, m: bv8, n: nat)
    requires n <= 8 && m == Head(n)
    ensures x & m == y & m <==> SameBits(x, y, n)
  {
    HeadBits(x, y, n);
    AgreeOnEach(x, y, n);
  }

  /** A mask byte is all ones, all zeros, or where the ones end. */
  lemma MaskIsHead(ones: nat, i: nat)
    ensures MaskByte(ones, i) == Head(OnesIn(ones, i))
  {
  }

  lemma BytesAreBits(n: IPNet, x: Address)
    requires n.Valid() && |x| == |n.ip|
    ensures (forall i: nat :: i < |x| ==> SameBits(n.ip[i], x[i], OnesIn(n.ones, i))) <==>
            forall k: nat :: k < n.ones ==> Bit(n.ip, k) == Bit(x, k)
  {
    if forall k: nat :: k < n.ones ==> Bit(n.ip, k) == Bit(x, k) {
      forall i: nat, r: nat | i < |x| && r < OnesIn(n.ones, i) ensures BitOf(n.ip[i], r) == BitOf(x[i], r) {
        assert (8 * i + r) / 8 == i && (8 * i + r) % 8 == r;
        assert Bit(n.ip, 8 * i + r) == Bit(x, 8 * i + r);
      }
    }
  }

  // The check itself.

  /** One IPAM configuration: no subnet, one net.ParseCIDR rejects, or a prefix. */
  datatype Subnet = Missing | Malformed | Prefix(net: IPNet)

  datatype Network = Network(name: string, configs: seq<Subnet>)

  datatype Named = Named(network: string, cidr: IPNet)

  ghost function Prefixes(name: string, configs: seq<Subnet>): seq<Named> {
    if configs == [] then []
    else Prefixes(name, configs[..|configs| - 1])
         + (match configs[|configs| - 1] case Prefix(n) => [Named(name, n)] case _ => [])
  }

  ghost function AllPrefixes(networks: seq<Network>): seq<Named> {
    if networks == [] then []
    else AllPrefixes(networks[..|networks| - 1])
         + Prefixes(networks[|networks| - 1].name, networks[|networks| - 1].configs)
  }

  /** Every well-formed subnet of every network, in order; the others are skipped. */
  method Collect(networks: seq<Network>) returns (subnets: seq<Named>)
    ensures subnets == AllPrefixes(networks)
  {
    subnets := [];
    for i := 0 to |networks|
      invariant subnets == AllPrefixes(networks[..i])
    {
      var n := networks[i];
      ghost var before := subnets;
      for j := 0 to |n.configs|
        invariant subnets == before + Prefixes(n.name, n.configs[..j])
      {
        assert n.configs[..j + 1][..j] == n.configs[..j];
        if n.configs[j].Prefix? {
          subnets := subnets + [Named(n.name, n.configs[j].net)];
        }
      }
      assert n.configs[..|n.configs|] == n.configs;
      assert networks[..i + 1][..i] == networks[..i];
    }
    assert networks[..|networks|] == networks;
  }

  ghost predicate Clash(subnets: seq<Named>, i: nat, j: nat) {
    i < j < |subnets| && Overlap(subnets[i].cidr, subnets[j].cidr)
  }

  /** Before the pair (i, j), in the order of the nested loops. */
  ghost predicate Earlier(a: nat, b: nat, i: nat, j: nat) { a < i || (a == i && b < j) }

  /** The clashes before (i, j) are reported once each, and nothing else is. */
  ghost predicate Reported(pairs: seq<(nat, nat)>, subnets: seq<Named>, i: nat, j: nat) {
    forall a: nat, b: nat ::
      multiset(pairs)[(a, b)] == if Earlier(a, b, i, j) && Clash(subnets, a, b) then 1 else 0
  }

  lemma ReportOne(pairs: seq<(nat, nat)>, subnets: seq<Named>, i: nat, j: nat)
    requires Reported(pairs, subnets, i, j)
    ensures Reported(if Clash(subnets, i, j) then pairs + [(i, j)] else pairs, subnets, i, j + 1)
  {
  }

  lemma NextRow(pairs: seq<(nat, nat)>, subnets: seq<Named>, i: nat)
    requires Reported(pairs, subnets, i, |subnets|)
    ensures Reported(pairs, subnets, i + 1, i + 2)
  {
  }

  /** Each overlapping unordered pair is reported exactly once, and nothing else is. */
  method FindOverlaps(subnets: seq<Named>) returns (pairs: seq<(nat, nat)>)
    ensures forall i: nat, j: nat :: multiset(pairs)[(i, j)] == if Clash(subnets, i, j) then 1 else 0
  {
    pairs := [];
    for i := 0 to |subnets|
      invariant Reported(pairs, subnets, i, i + 1)
    {
      for j := i + 1 to |subnets|
        invariant Reported(pairs, subnets, i, j)
      {
        ReportOne(pairs, subnets, i, j);
        if Overlap(subnets[i].cidr, subnets[j].cidr) {
          pairs := pairs + [(i, j)];
        }
      }
      NextRow(pairs, subnets, i);
    }
  }

  ghost predicate PairwiseDisjoint(subnets: seq<Named>) {
    forall i, j :: 0 <= i < j < |subnets| ==> !ShareAddress(subnets[i].cidr, subnets[j].cidr)
  }

  /** The check succeeds exactly when no two collected subnets share an address. */
  method Run(networks: seq<Network>) returns (success: bool, pairs: seq<(nat, nat)>)
    ensures success <==> PairwiseDisjoint(AllPrefixes(networks))
    ensures success <==> pairs == []
    ensures var all := AllPrefixes(networks);
            forall i: nat, j: nat :: i < j < |all| ==>
              multiset(pairs)[(i, j)] == if ShareAddress(all[i].cidr, all[j].cidr) then 1 else 0
  {
    var subnets := Collect(networks);
    pairs := FindOverlaps(subnets);
    forall i: nat, j: nat | i < j < |subnets|
      ensures Overlap(subnets[i].cidr, subnets[j].cidr) <==> ShareAddress(subnets[i].cidr, subnets[j].cidr)
    {
      OverlapMeansShared(subnets[i].cidr, subnets[j].cidr);
    }
    success := |pairs| == 0;
    if success {
      forall i, j | 0 <= i < j < |subnets| ensures !ShareAddress(subnets[i].cidr, subnets[j].cidr) {
        assert multiset(pairs)[(i, j)] == 0;
      }
    } else {
      var (i, j) := pairs[0];
      assert multiset(pairs)[(i, j)] > 0;
    }
  }
}
