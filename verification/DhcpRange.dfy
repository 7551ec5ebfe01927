/** The host-only subnet arithmetic of the VirtualBox driver: choosing the DHCP server address and the
    bounds of the address pool, octet by octet as the driver does it. */
module DhcpRange {
  import opened Basics

  type Octet = x: int | 0 <= x < 256

  datatype Ip = Ip(a: Octet, b: Octet, c: Octet, d: Octet) {
    function Value(): nat {
      ((a * 256 + b) * 256 + c) * 256 + d
    }
  }

  /** Prefix length of a CIDR, section 3.1 of RFC 4632. */
  type Prefix = p: int | 0 <= p <= 32

  /** 2^n for the bits of one octet. */
  function Pow2(n: int): (r: int)
    requires 0 <= n <= 8
    ensures 1 <= r <= 256
  {
    if n == 0 then 1 else if n == 1 then 2 else if n == 2 then 4 else if n == 3 then 8
    else if n == 4 then 16 else if n == 5 then 32 else if n == 6 then 64 else if n == 7 then 128 else 256
  }

  /** How many leading bits of octet `i` the mask keeps. */
  function Kept(p: Prefix, i: int): (n: int)
    requires 0 <= i < 4
    ensures 0 <= n <= 8
  {
    if p <= 8 * i then 0 else if p >= 8 * i + 8 then 8 else p - 8 * i
  }

  /** The octet with all but its first `kept` bits cleared. */
  function MaskOctet(x: Octet, kept: int): (r: Octet)
    requires 0 <= kept <= 8
  {
    if kept == 0 then 0 else if kept == 1 then x - x % 128 else if kept == 2 then x - x % 64
    else if kept == 3 then x - x % 32 else if kept == 4 then x - x % 16 else if kept == 5 then x - x % 8
    else if kept == 6 then x - x % 4 else if kept == 7 then x - x % 2 else x
  }

  /** All those cases at once. */
  lemma MaskOctetIs(x: Octet, kept: int)
    requires 0 <= kept <= 8
    ensures MaskOctet(x, kept) == x - x % Pow2(8 - kept)
  {
  }

  /** `net.IP.Mask`. */
  function Network(ip: Ip, p: Prefix): Ip {
    Ip(MaskOctet(ip.a, Kept(p, 0)), MaskOctet(ip.b, Kept(p, 1)),
       MaskOctet(ip.c, Kept(p, 2)), MaskOctet(ip.d, Kept(p, 3)))
  }

  /** The last address of the subnet: all host bits set. */
  function Broadcast(net: Ip, p: Prefix): Ip
    requires net == Network(net, p)
  {
    Ip(FillOctet(net.a, Kept(p, 0)), FillOctet(net.b, Kept(p, 1)),
       FillOctet(net.c, Kept(p, 2)), FillOctet(net.d, Kept(p, 3)))
  }

  function FillOctet(x: Octet, kept: int): (r: Octet)
    requires 0 <= kept <= 8 && x == MaskOctet(x, kept)
    ensures x <= r
  {
    x + Pow2(8 - kept) - 1
  }

  /** `net.IPNet.Contains`. */
  predicate Contains(net: Ip, p: Prefix, x: Ip) {
    Network(x, p) == net
  }

  /** Conversion to a Go `byte`. */
  function ToByte(x: int): Octet {
    x % 256
  }

  // ----- the driver's functions

  /** `parseAndValidateCIDR`, after the library has parsed the text: a network address is refused. */
  function ValidateCIDR(ip: Ip, p: Prefix): (r: Option<Ip>)
    ensures r.None? <==> Contains(ip, p, ip)
    ensures r.Some? ==> r.value.Value() < ip.Value() && Contains(r.value, p, ip)
  {
    MaskIdempotent(ip, p);
    if ip == Network(ip, p) then None else Some(Network(ip, p))
  }

  // ----- what the octets come to as numbers

  function Power(n: nat): (r: nat)
    ensures r > 0
  {
    if n == 0 then 1 else 2 * Power(n - 1)
  }

  lemma {:induction false} PowerSplit(m: nat, n: nat)
    ensures Power(m + n) == Power(m) * Power(n)
  {
    if m > 0 { PowerSplit(m - 1, n); }
  }

  lemma SmallPower(n: nat)
    requires n <= 8
    ensures Power(n) == Pow2(n)
  {
    if n > 0 { SmallPower(n - 1); }
  }

  /** Rounding down to a multiple of `m`, `m` being one of the block sizes within an octet. */
  function Floor(x: int, m: int): int
    requires m > 0
  {
    x - x % m
  }

  /** `x` is split into a number of whole blocks and the octet in which the mask ends. */
  lemma FloorOfOctet(x: nat, o: Octet, k: int)
    requires 0 <= k <= 8
    ensures Floor(x * 256 + o, Pow2(8 - k)) == x * 256 + MaskOctet(o, k)
  {
    MaskOctetIs(o, k);
    var m := Pow2(8 - k);
    var q, n, r := 256 / m, o / m, o % m;
    assert 256 == m * q;
    Regroup(x, m, q);
    assert o == m * n + r;
    assert m * (x * q + n) == m * (x * q) + m * n;
    DivisionIsUnique(x * 256 + o, m, x * q + n, r);
  }

  lemma Regroup(x: int, m: int, q: int)
    ensures x * (m * q) == m * (x * q)
  {
  }

  /** Octets below the one in which the mask ends are cleared. */
  lemma FloorAbove(x: nat, low: nat, b: nat, m: int)
    requires low < b && m > 0
    ensures Floor(x * b + low, m * b) == Floor(x, m) * b
  {
    var q, r := x / m, x % m;
    assert r * b + low < m * b by {
      assert (r + 1) * b <= m * b;
      assert (r + 1) * b == r * b + b;
    }
    assert x * b + low == (m * b) * q + (r * b + low) by {
      assert x == m * q + r;
      assert x * b == m * q * b + r * b;
    }
    DivisionIsUnique(x * b + low, m * b, q, r * b + low);
    assert (x - r) * b == x * b - r * b;
  }

  lemma FloorIn4(ip: Ip, p: Prefix)
    requires p >= 24
    ensures Network(ip, p).Value() == Floor(ip.Value(), Power(32 - p))
  {
    SmallPower(32 - p);
    FloorOfOctet((ip.a * 256 + ip.b) * 256 + ip.c, ip.d, p - 24);
  }

  lemma FloorIn3(ip: Ip, p: Prefix)
    requires 16 <= p < 24
    ensures Network(ip, p).Value() == Floor(ip.Value(), Power(32 - p))
  {
    var m := Pow2(24 - p);
    PowerIs(24 - p, 8, 256);
    FloorOfOctet(ip.a * 256 + ip.b, ip.c, p - 16);
    FloorAbove((ip.a * 256 + ip.b) * 256 + ip.c, ip.d, 256, m);
    assert Network(ip, p) == Ip(ip.a, ip.b, MaskOctet(ip.c, p - 16), 0);
    assert ip.Value() == ((ip.a * 256 + ip.b) * 256 + ip.c) * 256 + ip.d;
  }

  lemma FloorIn2(ip: Ip, p: Prefix)
    requires 8 <= p < 16
    ensures Network(ip, p).Value() == Floor(ip.Value(), Power(32 - p))
  {
    var m := Pow2(16 - p);
    Power16();
    PowerIs(16 - p, 16, 65536);
    FloorOfOctet(ip.a, ip.b, p - 8);
    FloorAbove(ip.a * 256 + ip.b, ip.c * 256 + ip.d, 65536, m);
    var top := Floor(ip.a * 256 + ip.b, m);
    assert Network(ip, p) == Ip(ip.a, MaskOctet(ip.b, p - 8), 0, 0);
    assert ip.Value() == (ip.a * 256 + ip.b) * 65536 + (ip.c * 256 + ip.d);
  }

  lemma FloorIn1(ip: Ip, p: Prefix)
    requires p < 8
    ensures Network(ip, p).Value() == Floor(ip.Value(), Power(32 - p))
  {
    var m := Pow2(8 - p);
    Power24();
    PowerIs(8 - p, 24, 16777216);
    FloorOfOctet(0, ip.a, p);
    var low := (ip.b * 256 + ip.c) * 256 + ip.d;
    FloorAbove(ip.a, low, 16777216, m);
    assert Network(ip, p) == Ip(MaskOctet(ip.a, p), 0, 0, 0);
    assert ip.Value() == ip.a * 16777216 + low;
  }

  lemma Power16()
    ensures Power(16) == 65536
  {
    PowerSplit(8, 8);
    SmallPower(8);
  }

  lemma Power24()
    ensures Power(24) == 16777216
  {
    Power16();
    PowerSplit(8, 16);
    SmallPower(8);
  }

  lemma PowerIs(k: nat, n: nat, b: nat)
    requires k <= 8 && ((n == 8 && b == 256) || (n == 16 && b == 65536) || (n == 24 && b == 16777216))
    ensures Power(k + n) == Pow2(k) * b
  {
    PowerSplit(k, n);
    SmallPower(k);
    SmallPower(8);
    Power16();
    Power24();
  }

  /** The network address is the address rounded down to a multiple of 2^(32-p), as in section 3.1 of RFC 4632. */
  lemma NetworkIsFloor(ip: Ip, p: Prefix)
    ensures Network(ip, p).Value() == Floor(ip.Value(), Power(32 - p))
  {
    if p >= 24 {
      FloorIn4(ip, p);
    } else if p >= 16 {
      FloorIn3(ip, p);
    } else if p >= 8 {
      FloorIn2(ip, p);
    } else {
      FloorIn1(ip, p);
    }
  }

  /** And the broadcast address is the last one before the next multiple. */
  lemma BroadcastIsLast(net: Ip, p: Prefix)
    requires net == Network(net, p)
    ensures Broadcast(net, p).Value() == net.Value() + Power(32 - p) - 1
  {
    if p >= 24 {
      SmallPower(32 - p);
    } else if p >= 16 {
      PowerIs(24 - p, 8, 256);
    } else if p >= 8 {
      PowerIs(16 - p, 16, 65536);
    } else {
      PowerIs(8 - p, 24, 16777216);
    }
  }

  lemma MaskIdempotent(ip: Ip, p: Prefix)
    ensures Network(Network(ip, p), p) == Network(ip, p)
    ensures Network(ip, p).Value() <= ip.Value()
    ensures Network(ip, p).Value() == ip.Value() ==> Network(ip, p) == ip
  {
    OctetIdempotent(ip.a, Kept(p, 0));
    OctetIdempotent(ip.b, Kept(p, 1));
    OctetIdempotent(ip.c, Kept(p, 2));
    OctetIdempotent(ip.d, Kept(p, 3));
  }

  lemma OctetIdempotent(x: Octet, kept: int)
    requires 0 <= kept <= 8
    ensures MaskOctet(MaskOctet(x, kept), kept) == MaskOctet(x, kept) <= x
  {
    var y := x - x % Pow2(8 - kept);
    Aligned(x, Pow2(8 - kept));
    assert MaskOctet(x, kept) == y by { MaskOctetIs(x, kept); }
    assert MaskOctet(y, kept) == y by { MaskOctetIs(y, kept); }
  }

  lemma DivisionIsUnique(x: int, m: int, q: int, r: int)
    requires m > 0 && 0 <= r < m && x == m * q + r
    ensures x % m == r && x / m == q
  {
    var d := q - x / m;
    assert m * d == x % m - r;
    assert d >= 1 ==> m * d >= m;
    assert d <= -1 ==> m * d <= -m;
  }

  lemma Aligned(x: int, m: int)
    requires m > 0
    ensures (x - x % m) % m == 0
  {
    DivisionIsUnique(x - x % m, m, x / m, 0);
  }

  /** Five results of `RandomInt(24)`. */
  type Draws = s: seq<int> | |s| == 5 && forall i :: 0 <= i < |s| ==> 0 <= s[i] < 24
    witness [0, 0, 0, 0, 0]

  /** `getRandomIPinSubnet`: up to five draws of `RandomInt(24) + 1`, skipping the host's last octet. */
  method RandomIPInSubnet(base: Ip, draws: Draws) returns (r: Option<Ip>)
    ensures r.None? <==> forall i :: 0 <= i < 5 ==> draws[i] + 1 == base.d
    ensures r.Some? ==> exists i :: 0 <= i < 5 && Chosen(base, draws, i) && r.value == base.(d := draws[i] + 1)
  {
    r := None;
    for i := 0 to 5
      invariant r.None? && forall j :: 0 <= j < i ==> draws[j] + 1 == base.d
    {
      var n := draws[i] + 1;
      if ToByte(n) != base.d {
        assert Chosen(base, draws, i);
        return Some(base.(d := ToByte(n)));
      }
    }
  }

  /** Draw `i` is the first that does not clash with the host. */
  ghost predicate Chosen(base: Ip, draws: Draws, i: nat) {
    i < |draws| && draws[i] + 1 != base.d && forall j :: 0 <= j < i ==> draws[j] + 1 == base.d
  }

  /** `getDHCPAddressRange`. */
  function AddressRange(server: Ip, net: Ip, p: Prefix): (Ip, Ip) {
    if p <= 24 then (net.(d := 100), net.(d := 254))
    else (net.(d := ToByte(server.d + 1)), net.(d := ToByte(Pow2(32 - p) - 2)))
  }

  // ----- where the addresses end up

  predicate InPool(server: Ip, net: Ip, p: Prefix, x: Ip) {
    var (lower, upper) := AddressRange(server, net, p);
    lower.Value() <= x.Value() <= upper.Value()
  }

  /** What a DHCP server on the subnet of `host` needs. */
  predicate WellPlaced(host: Ip, p: Prefix, server: Ip) {
    MaskIdempotent(host, p);
    var net := Network(host, p);
    var (lower, upper) := AddressRange(server, net, p);
    && Contains(net, p, server) && Contains(net, p, lower) && Contains(net, p, upper)
    && lower.Value() <= upper.Value() < Broadcast(net, p).Value()
    && !InPool(server, net, p, server)
    && server != host
  }

  lemma SameBlock(base: int, n: int, m: int)
    requires m > 0 && base >= 0 && base % m == 0
    ensures n - n % m == base <==> base <= n < base + m
    ensures base == 0 || base >= m
  {
    var q := base / m;
    assert base == m * q;
    if base <= n < base + m { DivisionIsUnique(n, m, q, n - base); }
    assert q >= 1 ==> m * q >= m;
  }

  /** Whether the last octet `n` lies in the block of 2^(32-p) addresses that starts at `base`. */
  lemma LastOctet(base: Octet, n: Octet, p: Prefix)
    requires p > 24 && base == MaskOctet(base, Kept(p, 3))
    ensures MaskOctet(n, Kept(p, 3)) == base <==> base <= n < base + Pow2(32 - p)
    ensures base == 0 || base >= Pow2(32 - p)
  {
    var m := Pow2(32 - p);
    MaskOctetIs(base, Kept(p, 3));
    MaskOctetIs(n, Kept(p, 3));
    SameBlock(base, n, m);
  }

  /** Clearing more bits of an octet than are set cannot matter, for short prefixes. */
  lemma ShortPrefix(host: Ip, p: Prefix)
    requires p <= 24
    ensures var net := Network(host, p);
            && net.d == 0 && net == Network(net, p) && Broadcast(net, p).d == 255
            && Broadcast(net, p).Value() >= net.Value() + 255
    ensures forall x: Octet :: Contains(Network(host, p), p, Network(host, p).(d := x))
    ensures forall x: Octet :: Contains(Network(host, p), p, host.(d := x))
  {
    MaskIdempotent(host, p);
  }

  /** For every host address, prefix and accepted draw `n`, the outcome is right exactly when the prefix is
      at most 24, or the network address ends in octet 0 and the draw leaves room below the broadcast. */
  lemma WellPlacedIff(host: Ip, p: Prefix, n: Octet)
    requires 1 <= n <= 24 && n != host.d
    ensures WellPlaced(host, p, host.(d := n)) <==>
            p <= 24 || (Network(host, p).d == 0 && n <= Pow2(32 - p) - 3)
  {
    if p <= 24 {
      ShortWellPlaced(host, p, n);
    } else {
      LongPrefix(host, p, n);
    }
  }

  lemma ShortWellPlaced(host: Ip, p: Prefix, n: Octet)
    requires p <= 24 && 1 <= n <= 24 && n != host.d
    ensures WellPlaced(host, p, host.(d := n))
  {
    MaskIdempotent(host, p);
    ShortPrefix(host, p);
    var net, server := Network(host, p), host.(d := n);
    assert Contains(net, p, server) && Contains(net, p, net.(d := 100)) && Contains(net, p, net.(d := 254));
    NotBetween(net, server);
    WellPlacedMeans(host, p, server, net);
  }

  /** An address that ends in an octet below 100 lies outside every pool from 100 to 254. */
  lemma NotBetween(net: Ip, x: Ip)
    requires x.d < 100
    ensures !(net.(d := 100).Value() <= x.Value() <= net.(d := 254).Value())
  {
    Between(net, x, 100, 254);
  }

  /** What it means to lie between two addresses that differ in the last octet only. */
  lemma Between(net: Ip, x: Ip, l: Octet, u: Octet)
    ensures net.(d := l).Value() <= x.Value() <= net.(d := u).Value() <==> net.(d := x.d) == x && l <= x.d <= u
  {
    var s, t := (net.a * 256 + net.b) * 256 + net.c, (x.a * 256 + x.b) * 256 + x.c;
    assert net.(d := l).Value() == s * 256 + l && net.(d := u).Value() == s * 256 + u && x.Value() == t * 256 + x.d;
    assert s == t <==> net.a == x.a && net.b == x.b && net.c == x.c;
  }

  /** Beyond /24 the mask keeps the first three octets. */
  lemma FirstOctets(host: Ip, net: Ip, p: Prefix)
    requires p > 24 && net == Network(host, p)
    ensures net.a == host.a && net.b == host.b && net.c == host.c
    ensures forall x: Octet :: Network(net.(d := x), p) == net.(d := MaskOctet(x, Kept(p, 3)))
    ensures forall x: Octet :: Network(host.(d := x), p) == net.(d := MaskOctet(x, Kept(p, 3)))
  {
  }

  /** Beyond /24 the subnet is the block of last octets from `net.d` on. */
  lemma LongContains(host: Ip, net: Ip, p: Prefix, x: Octet)
    requires p > 24 && net == Network(host, p) && net == Network(net, p)
    ensures Contains(net, p, host.(d := x)) <==> net.d <= x < net.d + Pow2(32 - p)
    ensures Contains(net, p, net.(d := x)) <==> net.d <= x < net.d + Pow2(32 - p)
    ensures net.d == 0 || net.d >= Pow2(32 - p)
    ensures Broadcast(net, p) == net.(d := net.d + Pow2(32 - p) - 1)
  {
    FirstOctets(host, net, p);
    LastOctet(net.d, x, p);
    LongBroadcast(net, p);
  }

  lemma LongBroadcast(net: Ip, p: Prefix)
    requires p > 24 && net == Network(net, p)
    ensures Broadcast(net, p) == net.(d := net.d + Pow2(32 - p) - 1)
  {
  }

  /** The arithmetic of the long-prefix branch, on the last octets alone. */
  lemma LongBounds(net: Ip, n: Octet, upper: Octet, size: int)
    requires 1 <= size <= 128 && net.d + size <= 256 && (net.d == 0 || net.d >= size) && 1 <= n <= 24
    requires upper == if size == 1 then 255 else size - 2
    ensures (&& net.d <= n < net.d + size && net.d <= n + 1 < net.d + size && net.d <= upper < net.d + size
             && net.(d := n + 1).Value() <= net.(d := upper).Value() < net.(d := net.d + size - 1).Value())
            <==> net.d == 0 && n <= size - 3
  {
  }

  lemma LongPrefix(host: Ip, p: Prefix, n: Octet)
    requires 1 <= n <= 24 && n != host.d && p > 24
    ensures WellPlaced(host, p, host.(d := n)) <==> Network(host, p).d == 0 && n <= Pow2(32 - p) - 3
  {
    MaskIdempotent(host, p);
    var net, size := Network(host, p), Pow2(32 - p);
    var server := host.(d := n);
    var (lower, upper) := AddressRange(server, net, p);
    LongRange(server, net, p);
    var inServer, inLower, inUpper := Contains(net, p, server), Contains(net, p, lower), Contains(net, p, upper);
    assert inServer <==> net.d <= n < net.d + size by { LongContains(host, net, p, n); }
    assert inLower <==> net.d <= n + 1 < net.d + size by { LongContains(host, net, p, n + 1); }
    assert inUpper <==> net.d <= upper.d < net.d + size by { LongContains(host, net, p, upper.d); }
    assert (net.d == 0 || net.d >= size) && Broadcast(net, p) == net.(d := net.d + size - 1) by {
      LongContains(host, net, p, n);
    }
    assert server == net.(d := n) by { FirstOctets(host, net, p); }
    LongBounds(net, n, upper.d, size);
    WellPlacedMeans(host, p, server, net);
  }

  /** The long-prefix range without byte conversions; a /32 wraps around to 255. */
  lemma LongRange(server: Ip, net: Ip, p: Prefix)
    requires p > 24 && server.d < 255
    ensures AddressRange(server, net, p) ==
            (net.(d := server.d + 1), net.(d := if Pow2(32 - p) == 1 then 255 else Pow2(32 - p) - 2))
  {
  }

  lemma WellPlacedMeans(host: Ip, p: Prefix, server: Ip, net: Ip)
    requires net == Network(host, p) && net == Network(net, p)
    ensures var (lower, upper) := AddressRange(server, net, p);
            WellPlaced(host, p, server) <==>
            && Contains(net, p, server) && Contains(net, p, lower) && Contains(net, p, upper)
            && lower.Value() <= upper.Value() < Broadcast(net, p).Value()
            && !(lower.Value() <= server.Value() <= upper.Value()) && server != host
  {
  }

  /** What a user can check in the CIDR alone: every draw works out exactly for prefixes up to 24, and for
      25 to 27 when the network address ends in octet 0. */
  lemma SafeCIDRIff(host: Ip, p: Prefix)
    ensures (forall n: Octet :: 1 <= n <= 24 && n != host.d ==> WellPlaced(host, p, host.(d := n)))
            <==> p <= 24 || (p <= 27 && Network(host, p).d == 0)
  {
    forall n: Octet | 1 <= n <= 24 && n != host.d
      ensures WellPlaced(host, p, host.(d := n)) <==> p <= 24 || (Network(host, p).d == 0 && n <= Pow2(32 - p) - 3)
    {
      WellPlacedIff(host, p, n);
    }
    var n: Octet := if host.d == 24 then 23 else 24;
    WellPlacedIff(host, p, n);
    assert WellPlaced(host, p, host.(d := n)) <==> p <= 24 || (Network(host, p).d == 0 && n <= Pow2(32 - p) - 3);
    if p == 25 {} else if p == 26 {} else if p == 27 {} else if p == 28 {}
    else if p == 29 {} else if p == 30 {} else if p == 31 {} else {}
  }

  /** The pool need not keep clear of the host's own address: the exact condition under which it contains it. */
  lemma HostInPoolIff(host: Ip, p: Prefix, n: Octet)
    requires 1 <= n <= 24 && n != host.d && WellPlaced(host, p, host.(d := n))
    ensures InPool(host.(d := n), Network(host, p), p, host) <==>
            if p <= 24 then Network(host, p).(d := host.d) == host && 100 <= host.d <= 254
            else n < host.d <= Pow2(32 - p) - 2
  {
    WellPlacedIff(host, p, n);
    var net := Network(host, p);
    if p > 24 {
      FirstOctets(host, net, p);
    } else {
      assert net.d == 0 by { ShortPrefix(host, p); }
    }
    PoolBounds(host, net, p, n);
  }

  lemma PoolBounds(host: Ip, net: Ip, p: Prefix, n: Octet)
    requires 1 <= n <= 24 && net.d == 0
    requires p > 24 ==> net == host.(d := 0) && Pow2(32 - p) >= 4
    ensures InPool(host.(d := n), net, p, host) <==>
            if p <= 24 then net.(d := host.d) == host && 100 <= host.d <= 254
            else n < host.d <= Pow2(32 - p) - 2
  {
    if p <= 24 {
      Between(net, host, 100, 254);
    } else {
      LongRange(host.(d := n), net, p);
      Between(net, host, n + 1, Pow2(32 - p) - 2);
    }
  }
}
