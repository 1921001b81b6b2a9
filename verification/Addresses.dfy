/**
 * Addresses and the ranges a setting lists: `Network` of backend/src/config.rs, `bucket` of
 * backend/src/services/accounts.rs, and the walk of `client_address` in backend/src/api/auth.rs.
 */
module Addresses {
  import opened Options

  function Pow2(n: nat): (p: nat)
    ensures p > 0
  {
    if n == 0 then 1 else 2 * Pow2(n - 1)
  }

  /** `bits` shifted `s` places to the right. */
  function Shifted(bits: nat, s: nat): nat
    decreases s
  {
    if s == 0 then bits else Shifted(bits / 2, s - 1)
  }

  function Bit(bits: nat, k: nat): nat {
    Shifted(bits, k) % 2
  }

  lemma {:induction false} ShiftedOnceMore(bits: nat, s: nat)
    ensures Shifted(bits, s + 1) == Shifted(bits, s) / 2
    decreases s
  {
    if s > 0 {
      ShiftedOnceMore(bits / 2, s - 1);
    }
  }

  lemma {:induction false} ShiftedFurther(bits: nat, s: nat, n: nat)
    ensures Shifted(bits, s + n) == Shifted(Shifted(bits, s), n)
    decreases s
  {
    if s > 0 {
      ShiftedFurther(bits / 2, s - 1, n);
    }
  }

  lemma {:induction false} ShiftedOut(bits: nat, width: nat)
    requires bits < Pow2(width)
    ensures Shifted(bits, width) == 0
    decreases width
  {
    if width > 0 {
      ShiftedOut(bits / 2, width - 1);
    }
  }

  lemma HalvedThenDivided(a: nat, p: nat)
    requires p > 0
    ensures a / 2 / p == a / (2 * p)
  {
    var h, q := a / 2, a / 2 / p;
    assert h == q * p + h % p;
    var r := 2 * (h % p) + a % 2;
    assert a == q * (2 * p) + r && r < 2 * p;
    QuotientIs(a, 2 * p, q, r);
  }

  lemma TimesAtMost(x: int, y: int, d: nat)
    requires x <= y
    ensures x * d <= y * d
  {
    var gap := y - x;
    assert y * d == x * d + gap * d;
  }

  lemma QuotientIs(a: nat, d: nat, q: nat, r: nat)
    requires d > 0 && r < d && a == q * d + r
    ensures a / d == q
  {
    var other, rest := a / d, a % d;
    assert a == other * d + rest && rest < d;
    assert (q + 1) * d == q * d + d;
    assert (other + 1) * d == other * d + d;
    if other > q {
      TimesAtMost(q + 1, other, d);
    } else if other < q {
      TimesAtMost(other + 1, q, d);
    }
  }

  /** A shift is the whole quotient by a power of two. */
  lemma {:induction false} ShiftIsDivision(bits: nat, s: nat)
    ensures Shifted(bits, s) == bits / Pow2(s)
    decreases s
  {
    if s > 0 {
      ShiftIsDivision(bits / 2, s - 1);
      HalvedThenDivided(bits, Pow2(s - 1));
    }
  }

  // ----- ranges

  datatype Family = V4 | V6

  datatype Ip = Ip(family: Family, bits: nat)

  datatype Network = Network(base: Ip, prefix: nat)

  function Width(family: Family): nat {
    if family.V4? then 32 else 128
  }

  /** An address of its family, in canonical form. */
  ghost predicate Proper(ip: Ip) {
    ip.bits < Pow2(Width(ip.family))
  }

  /** The bits a mask keeps, the `prefix` highest: a prefix of 0 shifts nothing, and keeps none. */
  predicate MaskBit(width: nat, prefix: nat, k: nat) {
    prefix != 0 && width - prefix <= k < width
  }

  /** Base and address compared under the mask, bit by bit. */
  predicate Contains(network: Network, ip: Ip) {
    var width := Width(network.base.family);
    Canonical(ip).family == network.base.family &&
    forall k | 0 <= k < width && MaskBit(width, network.prefix, k) ::
      Bit(network.base.bits, k) == Bit(Canonical(ip).bits, k)
  }

  /** `::ffff:0:0/96` holds the IPv4 addresses, and a range is canonical as `parse` leaves it. */
  function Canonical(ip: Ip): Ip {
    if ip.family.V6? && Shifted(ip.bits, 32) == 0xFFFF then Ip(V4, ip.bits % Pow2(32)) else ip
  }

  /** An entry read from its address and the prefix written after it, if any. */
  function Parse(address: Option<Ip>, prefix: Option<nat>): (network: Option<Network>)
    requires address.Some? ==> Proper(address.value)
    ensures network.Some? ==> Parsed(network.value)
    ensures network.None? <==>
      address.None? ||
      (prefix.Some? && prefix.value > if Canonical(address.value).family.V4? then 32 else 128)
  {
    match address
    case None => None
    case Some(ip) =>
      var base := Canonical(ip);
      var length := match prefix case Some(n) => n case None => Width(base.family);
      if length <= Width(base.family) then Some(Network(base, length)) else None
  }

  ghost predicate Parsed(network: Network) {
    network.prefix <= Width(network.base.family) && Proper(network.base) && Canonical(network.base) == network.base
  }

  /** An entry without a prefix lists its own address and nothing else. */
  lemma AloneItListsItself(address: Ip, ip: Ip)
    requires Proper(address) && Proper(ip)
    ensures Contains(Parse(Some(address), None).value, ip) <==> Canonical(ip) == Canonical(address)
  {
    ContainsIsShift(Parse(Some(address), None).value, ip);
  }

  lemma {:induction false} HighBitsAlike(a: nat, b: nat, s: nat, width: nat)
    requires s <= width && Shifted(a, width) == Shifted(b, width)
    ensures (forall k | s <= k < width :: Bit(a, k) == Bit(b, k)) <==> Shifted(a, s) == Shifted(b, s)
    decreases width - s
  {
    if s < width {
      HighBitsAlike(a, b, s + 1, width);
      ShiftedOnceMore(a, s);
      ShiftedOnceMore(b, s);
      assert Shifted(a, s) == 2 * Shifted(a, s + 1) + Bit(a, s);
      assert Shifted(b, s) == 2 * Shifted(b, s + 1) + Bit(b, s);
    }
  }

  lemma ContainsIsShift(network: Network, ip: Ip)
    requires Parsed(network) && Proper(ip)
    ensures var s := Width(network.base.family) - network.prefix;
      Contains(network, ip) <==>
      (Canonical(ip).family == network.base.family && Shifted(Canonical(ip).bits, s) == Shifted(network.base.bits, s))
  {
    var width := Width(network.base.family);
    if Canonical(ip).family == network.base.family {
      ShiftedOut(network.base.bits, width);
      ShiftedOut(Canonical(ip).bits, width);
      HighBitsAlike(network.base.bits, Canonical(ip).bits, width - network.prefix, width);
      assert forall k | 0 <= k < width :: MaskBit(width, network.prefix, k) <==> width - network.prefix <= k;
    }
  }

  /** A range holds the addresses of its family that agree with its base after division by its size. */
  lemma ContainsIsDivision(network: Network, ip: Ip)
    requires Parsed(network) && Proper(ip)
    ensures var size := Pow2((if network.base.family.V4? then 32 else 128) - network.prefix);
      Contains(network, ip) <==>
      (Canonical(ip).family == network.base.family && Canonical(ip).bits / size == network.base.bits / size)
  {
    ContainsIsShift(network, ip);
    ShiftIsDivision(Canonical(ip).bits, Width(network.base.family) - network.prefix);
    ShiftIsDivision(network.base.bits, Width(network.base.family) - network.prefix);
  }

  /** Two ranges that share an address nest: what the longer prefix holds, the shorter one holds. */
  lemma RangesNest(outer: Network, inner: Network, shared: Ip, ip: Ip)
    requires Parsed(outer) && Parsed(inner) && Proper(shared) && Proper(ip)
    requires outer.prefix <= inner.prefix
    requires Contains(outer, shared) && Contains(inner, shared) && Contains(inner, ip)
    ensures Contains(outer, ip)
  {
    ContainsIsShift(outer, shared);
    ContainsIsShift(inner, shared);
    ContainsIsShift(inner, ip);
    ContainsIsShift(outer, ip);
    var s, n := Width(inner.base.family) - inner.prefix, inner.prefix - outer.prefix;
    ShiftedFurther(Canonical(ip).bits, s, n);
    ShiftedFurther(Canonical(shared).bits, s, n);
  }

  // ----- the address a request comes from

  predicate Listed(trusted: seq<Network>, ip: Ip) {
    exists network | network in trusted :: Contains(network, ip)
  }

  /** `hops` as the header lists them, an unreadable one `None`; the last was written by the peer. */
  function Walked(client: Ip, hops: seq<Option<Ip>>, trusted: seq<Network>): Ip
    decreases |hops|
  {
    if hops == [] || !Listed(trusted, client) then client
    else match hops[|hops| - 1]
      case None => client
      case Some(ip) => Walked(Canonical(ip), hops[..|hops| - 1], trusted)
  }

  method ClientAddress(peer: Option<Ip>, hops: seq<Option<Ip>>, trusted: seq<Network>) returns (client: Option<Ip>)
    ensures client == if peer.Some? then Some(Walked(Canonical(peer.value), hops, trusted)) else None
  {
    if peer.None? {
      return None;
    }
    var at := Canonical(peer.value);
    var left := |hops|;
    assert hops[..left] == hops;
    while left > 0
      invariant 0 <= left <= |hops|
      invariant Walked(at, hops[..left], trusted) == Walked(Canonical(peer.value), hops, trusted)
    {
      if !Listed(trusted, at) {
        return Some(at);
      }
      left := left - 1;
      assert hops[..left + 1][..left] == hops[..left];
      if hops[left].None? {
        return Some(at);
      }
      at := Canonical(hops[left].value);
    }
    client := Some(at);
  }

  /** The address the walk stands on after `n` hops, the last one first. */
  function Standing(peer: Ip, hops: seq<Option<Ip>>, n: nat): Ip
    requires n <= |hops| && (n > 0 ==> hops[|hops| - n].Some?)
  {
    if n == 0 then peer else Canonical(hops[|hops| - n].value)
  }

  ghost predicate Readable(hops: seq<Option<Ip>>, n: nat)
    requires n <= |hops|
  {
    forall i | |hops| - n <= i < |hops| :: hops[i].Some?
  }

  /** The walk went past `n` hops, each written by a listed address. */
  ghost predicate Passed(peer: Ip, hops: seq<Option<Ip>>, trusted: seq<Network>, n: nat)
    requires n <= |hops| && Readable(hops, n)
  {
    forall i: nat | i < n :: Listed(trusted, Standing(peer, hops, i))
  }

  /** It goes past listed addresses alone, and stops only where nobody listed, or nothing readable, is next. */
  lemma {:induction false} WalksPastListedOnly(peer: Ip, hops: seq<Option<Ip>>, trusted: seq<Network>) returns (n: nat)
    ensures n <= |hops| && Readable(hops, n) && Passed(peer, hops, trusted, n)
    ensures Walked(peer, hops, trusted) == Standing(peer, hops, n)
    ensures n == |hops| || !Listed(trusted, Walked(peer, hops, trusted)) || hops[|hops| - 1 - n].None?
    decreases |hops|
  {
    if hops == [] || !Listed(trusted, peer) || hops[|hops| - 1].None? {
      n := 0;
    } else {
      var last := |hops| - 1;
      var next, rest := Canonical(hops[last].value), hops[..last];
      var m := WalksPastListedOnly(next, rest, trusted);
      n := m + 1;
      assert Standing(peer, hops, n) == Standing(next, rest, m);
      forall i: nat | i < n ensures Listed(trusted, Standing(peer, hops, i)) {
        if i > 0 {
          assert Standing(peer, hops, i) == Standing(next, rest, i - 1);
        }
      }
    }
  }

  /**
   * A chain stopped by an unlisted or unreadable hop is not moved by anything written to its left:
   * whoever is not trusted cannot choose the address its requests are counted against.
   */
  lemma {:induction false} NothingLeftOfAStopCounts(
    peer: Ip, hops: seq<Option<Ip>>, more: seq<Option<Ip>>, trusted: seq<Network>)
    requires !Listed(trusted, Walked(peer, hops, trusted)) || exists i | 0 <= i < |hops| :: hops[i].None?
    ensures Walked(peer, more + hops, trusted) == Walked(peer, hops, trusted)
    decreases |hops|
  {
    if hops == [] {
    } else if Listed(trusted, peer) && hops[|hops| - 1].Some? {
      var last := |hops| - 1;
      assert (more + hops)[..|more + hops| - 1] == more + hops[..last];
      NothingLeftOfAStopCounts(Canonical(hops[last].value), hops[..last], more, trusted);
    }
  }

  // ----- what one client answers for

  /** An IPv4 address as it is, an IPv6 one by its /64. */
  function Bucket(ip: Ip): Ip {
    var c := Canonical(ip);
    if c.family.V4? then c else Ip(V6, Shifted(c.bits, 64) * 0x1_0000_0000_0000_0000)
  }

  /** One IPv4 address alone, or the IPv6 addresses of one /64, share a bucket. */
  lemma OneBucketOneNetwork(a: Ip, b: Ip)
    requires Proper(a) && Proper(b)
    ensures Bucket(a) == Bucket(b) <==>
      if Canonical(a).family.V4? then Canonical(a) == Canonical(b) else Contains(Network(Canonical(a), 64), b)
  {
    var c, d := Canonical(a), Canonical(b);
    if c.family.V6? {
      ContainsIsShift(Network(c, 64), b);
      SameTimes(Shifted(c.bits, 64), Shifted(d.bits, 64), 0x1_0000_0000_0000_0000);
    }
  }

  lemma SameTimes(x: nat, y: nat, m: nat)
    requires m > 0
    ensures x * m == y * m <==> x == y
  {
    if x < y {
      TimesAtMost(x + 1, y, m);
    } else if y < x {
      TimesAtMost(y + 1, x, m);
    }
  }

  lemma CarriedBack(bits: nat, carrier: nat, s: nat)
    requires bits < Pow2(s)
    ensures Shifted(carrier * Pow2(s) + bits, s) == carrier && (carrier * Pow2(s) + bits) % Pow2(s) == bits
  {
    var p := Pow2(s);
    ShiftIsDivision(carrier * p + bits, s);
    QuotientIs(carrier * p + bits, p, carrier, bits);
  }

  /** `::ffff:a.b.c.d` is the IPv4 address it carries. */
  lemma MappedReadsAsIpv4(bits: nat)
    requires bits < Pow2(32)
    ensures Canonical(Ip(V6, 0xFFFF * Pow2(32) + bits)) == Ip(V4, bits)
  {
    CarriedBack(bits, 0xFFFF, 32);
  }

  /** And no other address is read as another. */
  lemma OthersReadAsTheyAre(ip: Ip)
    ensures Canonical(ip) == ip ||
      (ip.family.V6? && Canonical(ip).family.V4? && Canonical(ip).bits < Pow2(32) &&
      ip.bits == 0xFFFF * Pow2(32) + Canonical(ip).bits)
  {
    ShiftIsDivision(ip.bits, 32);
  }

  lemma TwoToThe32()
    ensures Pow2(32) == 0x1_0000_0000
  {
    assert Pow2(8) == 0x100;
    assert Pow2(16) == 0x1_0000;
    assert Pow2(24) == 0x100_0000;
  }
}
