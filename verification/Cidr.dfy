/** Expanding a CIDR to its probeable addresses (internal/discovery/scan.go). */
module Cidr {
  import opened Arithmetic
  import opened Order
  import opened Wrappers

  const DEFAULT_MAX_HOSTS := 65536

  type int64 = x: int | -0x8000_0000_0000_0000 <= x < 0x8000_0000_0000_0000

  type uint64 = x: int | 0 <= x < 0x1_0000_0000_0000_0000

  /** An address as a number, IPv4 or IPv6. */
  datatype Addr = Addr(is4: bool, value: nat) {
    function BitLen(): nat {
      if is4 then 32 else 128
    }

    predicate Valid() {
      value < Pow2(BitLen())
    }

    /** netip's Next: the address after this one, or none at the top of the address space. */
    function Next(): Option<Addr> {
      if value + 1 < Pow2(BitLen()) then Some(Addr(is4, value + 1)) else None
    }
  }

  datatype Prefix = Prefix(addr: Addr, bits: nat) {
    predicate Valid() {
      addr.Valid() && bits <= addr.BitLen()
    }

    function HostBits(): nat
      requires Valid()
    {
      addr.BitLen() - bits
    }

    /** The same prefix with its host bits cleared. */
    function Masked(): Prefix
      requires Valid()
    {
      Prefix(Addr(addr.is4, addr.value / Pow2(HostBits()) * Pow2(HostBits())), bits)
    }

    /** The two agree on the network bits. */
    predicate Contains(a: Addr)
      requires Valid()
    {
      a.is4 == addr.is4 && a.value / Pow2(HostBits()) == addr.value / Pow2(HostBits())
    }
  }

  lemma MaskedKeepsTheNetwork(p: Prefix)
    requires p.Valid()
    ensures p.Masked().Valid() && p.Masked().HostBits() == p.HostBits()
    ensures p.Masked().addr.value / Pow2(p.HostBits()) == p.addr.value / Pow2(p.HostBits())
  {
    Quotient(p.addr.value, Pow2(p.HostBits()));
    QuotientShift(0, Pow2(p.HostBits()), p.addr.value / Pow2(p.HostBits()));
  }

  /** A masked prefix covers exactly the 2^b addresses from its own on, and they all fit the address space. */
  lemma PrefixIsInterval(p: Prefix, a: Addr)
    requires p.Valid()
    ensures
      var base, span := p.Masked().addr.value, Pow2(p.HostBits());
      && (p.Masked().Valid() && (p.Masked().Contains(a) <==> a.is4 == p.addr.is4 && base <= a.value < base + span))
      && (p.Masked().Contains(a) <==> p.Contains(a))
      && base + span <= Pow2(p.addr.BitLen())
  {
    hide Pow2;
    MaskedKeepsTheNetwork(p);
    SameBlock(p.addr.value, a.value, Pow2(p.HostBits()));
    SameBlock(p.Masked().addr.value, a.value, Pow2(p.HostBits()));
    BlockFits(p.addr.value, p.bits, p.HostBits());
  }

  lemma SameBlock(x: int, y: int, span: int)
    requires span > 0
    ensures y / span == x / span <==> x / span * span <= y < x / span * span + span
  {
    Quotient(y, span);
    if x / span * span <= y < x / span * span + span {
      QuotientIs(y, span, x / span);
    }
  }

  lemma BlockFits(x: nat, networkBits: nat, hostBits: nat)
    requires x < Pow2(networkBits + hostBits)
    ensures x / Pow2(hostBits) * Pow2(hostBits) + Pow2(hostBits) <= Pow2(networkBits + hostBits)
  {
    hide Pow2;
    var span, m := Pow2(hostBits), x / Pow2(hostBits);
    Pow2Sum(networkBits, hostBits);
    Quotient(x, span);
    if m < Pow2(networkBits) {
      ProductGrows(m + 1, Pow2(networkBits), span);
      assert (m + 1) * span == m * span + span;
    } else {
      ProductGrows(Pow2(networkBits), m, span);
      assert false;
    }
  }

  /** The number of addresses, saturating at the largest uint64. */
  function HostCount(p: Prefix): uint64
    requires p.Valid()
  {
    if p.HostBits() >= 64 then 0xFFFF_FFFF_FFFF_FFFF else (Pow2Grows(p.HostBits(), 63); Pow2Of63(); Pow2(p.HostBits()))
  }

  lemma Pow2Of63()
    ensures Pow2(63) == 0x8000_0000_0000_0000
    ensures Pow2(64) == 0x1_0000_0000_0000_0000
  {
    assert Pow2(16) == 65536;
    Pow2Sum(16, 16);
    Pow2Sum(32, 16);
    Pow2Sum(48, 15);
    assert Pow2(15) == 32768;
  }

  function Limit(maxHosts: int64): int64 {
    if maxHosts <= 0 then DEFAULT_MAX_HOSTS else maxHosts
  }

  /** Saturation never changes the decision: a subnet is refused exactly when it truly has more addresses than the limit. */
  lemma RefusedWhenTooWide(p: Prefix, maxHosts: int64)
    requires p.Valid()
    ensures HostCount(p) > Limit(maxHosts) <==> Pow2(p.HostBits()) > if maxHosts > 0 then maxHosts else 65536
    ensures HostCount(p) == Min(Pow2(p.HostBits()), 0xFFFF_FFFF_FFFF_FFFF)
  {
    Pow2Of63();
    if p.HostBits() >= 64 {
      Pow2Grows(64, p.HostBits());
    } else {
      Pow2Grows(p.HostBits(), 63);
    }
  }

  /** IPv4 subnets with a network and a broadcast address. */
  predicate HasEdges(p: Prefix) {
    p.addr.is4 && p.bits < 31
  }

  function Range(is4: bool, from: nat, to: int): (r: seq<Addr>)
    ensures |r| == (if from <= to then to - from else 0)
    ensures forall i :: 0 <= i < |r| ==> r[i] == Addr(is4, from + i)
  {
    if from <= to then seq(to - from, i requires 0 <= i => Addr(is4, from + i)) else []
  }

  lemma RangeGrows(is4: bool, from: nat, to: nat)
    requires from <= to
    ensures Range(is4, from, to + 1) == Range(is4, from, to) + [Addr(is4, to)]
  {
  }

  /** The addresses worth probing, in order. */
  function Hosts(p: Prefix): seq<Addr>
    requires p.Valid()
  {
    var base, span := p.Masked().addr.value, Pow2(p.HostBits());
    if HasEdges(p) then Range(true, base + 1, base + span - 1) else Range(p.addr.is4, base, base + span)
  }

  /**
   * They are exactly the addresses that share the prefix's network bits, less the first and the last of an IPv4 subnet
   * that has a network and a broadcast address: 2^b of them, or 2^b - 2, each once, all inside the address space.
   */
  lemma HostsAreTheUsableAddresses(p: Prefix, a: Addr)
    requires p.Valid()
    ensures
      var bits := if p.addr.is4 then 32 else 128;
      var span := Pow2(bits - p.bits);
      var base := p.addr.value / span * span;
      var edges := p.addr.is4 && p.bits <= 30;
      && (a in Hosts(p) <==>
            a.is4 == p.addr.is4 && a.value / span == p.addr.value / span && !(edges && (a.value == base || a.value == base + span - 1)))
      && (a in Hosts(p) ==> a.value < Pow2(bits))
      && |Hosts(p)| == (if edges then span - 2 else span)
      && Distinct(Hosts(p))
  {
    PrefixIsInterval(p, a);
    var base, span := p.Masked().addr.value, Pow2(p.HostBits());
    if HasEdges(p) {
      Pow2Grows(2, p.HostBits());
      if a.is4 && base + 1 <= a.value < base + span - 1 {
        assert Hosts(p)[a.value - base - 1] == a;
      }
    } else if a.is4 == p.addr.is4 && base <= a.value < base + span {
      assert Hosts(p)[a.value - base] == a;
    }
  }

  datatype Expansion =
    | Unparsable
    | TooManyHosts(total: uint64)
    | Expanded(addresses: seq<Addr>)

  /** ExpandCIDR, from the parsed prefix on. */
  method ExpandCIDR(parsed: Option<Prefix>, maxHosts: int64) returns (r: Expansion)
    requires parsed.Some? ==> parsed.value.Valid()
    ensures parsed.None? <==> r.Unparsable?
    ensures parsed.Some? ==>
        (if Pow2(parsed.value.HostBits()) > (if maxHosts > 0 then maxHosts else 65536) then r == TooManyHosts(HostCount(parsed.value)) else r == Expanded(Hosts(parsed.value)))
  {
    if parsed.None? {
      return Unparsable;
    }
    hide Pow2;
    ghost var p := parsed.value;
    MaskedKeepsTheNetwork(p);
    var prefix := parsed.value.Masked();
    var total := HostCount(prefix);
    RefusedWhenTooWide(p, maxHosts);
    if total > Limit(maxHosts) {
      return TooManyHosts(total);
    }
    var out := CollectHosts(prefix, p);
    r := Expanded(out);
  }

  method CollectHosts(prefix: Prefix, ghost p: Prefix) returns (out: seq<Addr>)
    requires p.Valid() && prefix == p.Masked()
    ensures out == Hosts(p)
  {
    hide Pow2;
    ghost var is4, base, span := prefix.addr.is4, prefix.addr.value, Pow2(p.HostBits());
    MaskedKeepsTheNetwork(p);
    forall a: Addr
      ensures prefix.Contains(a) <==> a.is4 == is4 && base <= a.value < base + span
      ensures base + span <= Pow2(prefix.addr.BitLen())
    {
      PrefixIsInterval(p, a);
    }
    hide Prefix.Contains, Prefix.Masked, Range;
    var skipEdges := HasEdges(prefix);
    out := [];
    var addr := prefix.addr;
    ghost var first := if skipEdges then base + 1 else base;
    while prefix.Contains(addr)
      invariant addr.is4 == is4 && base <= addr.value <= base + span
      invariant out == Range(is4, first, if skipEdges && addr.value == base + span then addr.value - 1 else addr.value)
      decreases base + span - addr.value
    {
      var next := addr.Next();
      var isNetwork := addr == prefix.addr;
      var isBroadcast := skipEdges && !(next.Some? && prefix.Contains(next.value));
      if !skipEdges || (!isNetwork && !isBroadcast) {
        RangeGrows(is4, first, addr.value);
        out := out + [addr];
      }
      if next.None? {
        break;
      }
      addr := next.value;
    }
  }
}
