/** `validateNoIPCollisions`: the host-only network must not share its network address with a host
    interface. The driver goes through two maps keyed by CIDR; the reference is a direct scan. */
module IpCollisions {
  import opened Basics
  import opened DhcpRange

  /** An IPv4 `net.IPNet`. Its CIDR text determines it, so it is its own map key. */
  datatype IpNet = IpNet(ip: Ip, prefix: Prefix)

  datatype Addr = Net(net: IpNet) | OtherAddr

  /** A host interface; `addrs` is `None` when asking for its addresses fails. */
  datatype Iface = Iface(up: bool, loopback: bool, addrs: Option<seq<Addr>>)

  datatype Verdict = Accepted | Collision | Failed

  // ----- the direct scan

  /** Some address of the interface is a known host-only network. */
  ghost predicate IsHostOnly(iface: Iface, nets: map<string, Option<IpNet>>) {
    iface.addrs.Some? && exists a, name :: a in iface.addrs.value && a.Net? && name in nets && nets[name] == Some(a.net)
  }

  ghost predicate Relevant(iface: Iface, nets: map<string, Option<IpNet>>) {
    iface.up && !iface.loopback && !IsHostOnly(iface, nets)
  }

  /** `x` is an address of an up, non-loopback interface that is not a host-only one. */
  ghost predicate OnHost(ifaces: seq<Iface>, nets: map<string, Option<IpNet>>, x: IpNet) {
    exists i ::
      && 0 <= i < |ifaces| && Relevant(ifaces[i], nets)
      && ifaces[i].addrs.Some? && Net(x) in ifaces[i].addrs.value
  }

  ghost predicate Collides(hostOnly: Ip, x: IpNet) {
    Network(x.ip, x.prefix) == hostOnly
  }

  // ----- the driver's loops

  /** Rekeys the host-only adapters by CIDR; an adapter without an address gets a key no address has. */
  method ByCIDR(nets: map<string, Option<IpNet>>) returns (keys: set<IpNet>)
    ensures forall x :: x in keys <==> exists name :: name in nets && nets[name] == Some(x)
  {
    keys := {};
    var todo := nets.Keys;
    while todo != {}
      invariant todo <= nets.Keys
      invariant forall x :: x in keys <==> exists name :: name in nets.Keys - todo && nets[name] == Some(x)
      decreases |todo|
    {
      var name :| name in todo;
      todo := todo - {name};
      ghost var before := keys;
      if nets[name].Some? {
        keys := keys + {nets[name].value};
      }
      forall x
        ensures x in keys <==> exists n :: n in nets.Keys - todo && nets[n] == Some(x)
      {
        if x in before {
          var n :| n in nets.Keys - (todo + {name}) && nets[n] == Some(x);
          assert n in nets.Keys - todo;
        }
        if nets[name] == Some(x) {
          assert name in nets.Keys - todo;
        }
      }
    }
  }

  /** Whether the first scan of an interface's addresses sets `ifaceExcluded`. */
  method AnyExcluded(addrs: seq<Addr>, excluded: set<IpNet>) returns (found: bool)
    ensures found <==> exists a :: a in addrs && a.Net? && a.net in excluded
  {
    found := false;
    for i := 0 to |addrs|
      invariant found <==> exists a :: a in addrs[..i] && a.Net? && a.net in excluded
    {
      assert addrs[..i + 1] == addrs[..i] + [addrs[i]];
      if addrs[i].Net? && addrs[i].net in excluded {
        found := true;
      }
    }
    assert addrs[..|addrs|] == addrs;
  }

  /** `listHostInterfaces`: the addresses of the remaining interfaces, or an error. */
  method ListHostInterfaces(ifaces: seq<Iface>, excluded: set<IpNet>, ghost nets: map<string, Option<IpNet>>)
    returns (ok: bool, m: set<IpNet>)
    requires forall x :: x in excluded <==> exists name :: name in nets && nets[name] == Some(x)
    ensures ok <==> forall i :: 0 <= i < |ifaces| ==> ifaces[i].addrs.Some?
    ensures ok ==> forall x :: x in m <==> OnHost(ifaces, nets, x)
  {
    m := {};
    for i := 0 to |ifaces|
      invariant forall j :: 0 <= j < i ==> ifaces[j].addrs.Some?
      invariant forall x :: x in m <==> OnHost(ifaces[..i], nets, x)
    {
      var iface := ifaces[i];
      if iface.addrs.None? {
        return false, {};
      }
      OneMore(ifaces, i, nets);
      var skip := AnyExcluded(iface.addrs.value, excluded);
      assert skip <==> IsHostOnly(iface, nets);
      if !skip && iface.up && !iface.loopback {
        m := m + set a | a in iface.addrs.value && a.Net? :: a.net;
      }
    }
    assert ifaces[..|ifaces|] == ifaces;
    ok := true;
  }

  lemma OneMore(ifaces: seq<Iface>, i: nat, nets: map<string, Option<IpNet>>)
    requires i < |ifaces| && ifaces[i].addrs.Some?
    ensures forall x :: OnHost(ifaces[..i + 1], nets, x) <==>
              OnHost(ifaces[..i], nets, x) || (Relevant(ifaces[i], nets) && Net(x) in ifaces[i].addrs.value)
  {
    var more, few := ifaces[..i + 1], ifaces[..i];
    assert forall j :: 0 <= j < i ==> more[j] == few[j];
    assert more[i] == ifaces[i];
  }

  /** `checkIPNetCollision`. */
  method CheckCollision(hostOnly: Ip, m: set<IpNet>) returns (hit: bool)
    ensures hit <==> exists x :: x in m && Collides(hostOnly, x)
  {
    var todo := m;
    while todo != {}
      invariant todo <= m && forall x :: x in m - todo ==> !Collides(hostOnly, x)
      decreases |todo|
    {
      var x :| x in todo;
      if hostOnly == Network(x.ip, x.prefix) {
        assert Collides(hostOnly, x);
        return true;
      }
      todo := todo - {x};
    }
    return false;
  }

  /** Accepts exactly when no address of an up, non-loopback interface, none of whose addresses is a known
      host-only network, has the host-only network's network address. */
  method ValidateNoIPCollisions(ifaces: Option<seq<Iface>>, hostOnly: Ip, nets: map<string, Option<IpNet>>)
    returns (v: Verdict)
    ensures v == Failed <==> ifaces.None? || exists i :: 0 <= i < |ifaces.value| && ifaces.value[i].addrs.None?
    ensures v == Accepted <==>
            v != Failed && forall x :: OnHost(ifaces.value, nets, x) ==> !Collides(hostOnly, x)
  {
    var excluded := ByCIDR(nets);
    if ifaces.None? {
      return Failed;
    }
    var ok, m := ListHostInterfaces(ifaces.value, excluded, nets);
    if !ok {
      return Failed;
    }
    var hit := CheckCollision(hostOnly, m);
    return if hit then Collision else Accepted;
  }
}
