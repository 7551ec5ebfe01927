/** `setupHostOnlyNetwork` against an abstract VirtualBox: commands that succeed do what they say, any command may
    fail, and a created adapter may show up late, or although its creation reported an error. */
module HostOnlyNetwork {
  import opened Basics
  import opened DhcpRange

  const PREFIX := "HostInterfaceNetworking-"

  /** A reported netmask; `Buggy` is the 0f000000 that VirtualBox reports for a new adapter. */
  datatype Mask = Bits(p: Prefix) | Buggy | NoMask

  datatype Adapter = Adapter(name: string, ip: Option<Ip>, mask: Mask)

  /** Adapters by network name. */
  type Adapters = map<string, Adapter>

  datatype Dhcp = Dhcp(ip: Ip, prefix: Prefix, lower: Ip, upper: Ip, enabled: bool)

  /** DHCP servers by network name. */
  type Servers = map<string, Dhcp>

  function NetworkOf(name: string): string {
    PREFIX + name
  }

  predicate Prefixed(network: string) {
    PREFIX <= network
  }

  /** The prefixed names are those that some adapter could have. */
  lemma PrefixedIff(network: string)
    ensures Prefixed(network) <==> exists name :: network == NetworkOf(name)
  {
    if Prefixed(network) { assert network == NetworkOf(network[|PREFIX|..]); }
  }

  /** The condition of `getHostOnlyAdapter`. */
  predicate Matches(a: Adapter, ip: Ip, p: Prefix) {
    a.ip == Some(ip) && (a.mask == Bits(p) || a.mask == Buggy)
  }

  ghost predicate Keyed(nets: Adapters) {
    forall n :: n in nets ==> n == NetworkOf(nets[n].name)
  }

  ghost predicate DistinctIPs(nets: Adapters) {
    forall m, n :: m in nets && n in nets && m != n && nets[m].ip.Some? ==> nets[m].ip != nets[n].ip
  }

  /** The adapters have no address yet. */
  ghost predicate Addressless(nets: Adapters) {
    forall n :: n in nets ==> nets[n].ip == None
  }

  function Part(nets: Adapters, names: set<string>): Adapters
    requires names <= nets.Keys
  {
    map n | n in names :: nets[n]
  }

  lemma Split(a: Adapters, h: Adapters, names: set<string>)
    requires a.Keys !! h.Keys && names <= h.Keys
    ensures (a + Part(h, names)) + (h - names) == a + h
    ensures Keyed(a) && Keyed(h) ==> Keyed(a + Part(h, names)) && Keyed(h - names)
    ensures Addressless(h) ==> Addressless(h - names)
  {
  }

  /** Adapters and DHCP servers are keyed by network name; `hidden` adapters are created but not visible yet. */
  class VBox {
    const reliable: bool            // no command fails for no reason, and adapters are visible at once
    const refuses: set<string>      // the DHCP servers that cannot be removed
    const addsServer: bool          // creating an adapter adds a default DHCP server (on some platforms)
    var adapters: Adapters
    var hidden: Adapters
    var servers: Servers
    var nic2: Option<string>

    constructor (reliable: bool, refuses: set<string>, addsServer: bool, adapters: Adapters,
                 servers: Servers)
      requires Keyed(adapters)
      ensures this.reliable == reliable && this.refuses == refuses && this.addsServer == addsServer
      ensures Valid() && this.adapters == adapters && hidden == map[] && this.servers == servers && nic2 == None
    {
      this.reliable, this.refuses, this.addsServer := reliable, refuses, addsServer;
      this.adapters, hidden, this.servers, nic2 := adapters, map[], servers, None;
    }

    ghost predicate Valid()
      reads this
    {
      Keyed(adapters) && Keyed(hidden) && adapters.Keys !! hidden.Keys && Addressless(hidden)
    }

    /** All adapters, visible or not. */
    ghost function All(): Adapters
      reads this
    {
      adapters + hidden
    }

    /** What a listing may do: hidden adapters become visible. */
    twostate predicate OnlyAppears()
      reads this
    {
      && Valid() && nic2 == old(nic2) && servers == old(servers)
      && All() == old(All()) && old(adapters).Keys <= adapters.Keys
    }

    /** `hostonlyif create`; whatever it reports, an adapter without an address may have been created. */
    method Create(name: string, server: Dhcp) returns (ok: bool)
      requires Valid()
      modifies this`hidden, this`servers
      ensures Valid()
      ensures var n := NetworkOf(name);
              || hidden == old(hidden)
              || (n !in old(All()) && hidden == old(hidden)[n := Adapter(name, None, NoMask)])
      ensures var n := NetworkOf(name);
              || servers == old(servers)
              || (hidden != old(hidden) && addsServer && servers == old(servers)[n := server] && n !in old(servers))
      ensures reliable && NetworkOf(name) !in old(All()) ==>
                NetworkOf(name) in hidden && (addsServer ==> NetworkOf(name) in servers)
    {
      var created: bool := *;
      ok := *;
      var n := NetworkOf(name);
      if (reliable || created) && n !in adapters && n !in hidden {
        hidden := hidden[n := Adapter(name, None, NoMask)];
        if addsServer && n !in servers { servers := servers[n := server]; }
      }
    }

    /** `list hostonlyifs`, read by the parser, which refuses two adapters with one IP. */
    method ListAdapters() returns (ok: bool, nets: Adapters)
      requires Valid()
      modifies this`adapters, this`hidden
      ensures OnlyAppears() && nets == adapters
      ensures ok ==> DistinctIPs(nets)
      ensures reliable ==> hidden == map[] && (ok <==> DistinctIPs(nets))
    {
      var show: set<string> := *;
      var fails: bool := *;
      var appearing := if reliable then hidden.Keys else show * hidden.Keys;
      Split(adapters, hidden, appearing);
      adapters := adapters + Part(hidden, appearing);
      hidden := hidden - appearing;
      var clash := HasClash(adapters);
      ok, nets := (reliable || !fails) && !clash, adapters;
    }

    method HasClash(nets: Adapters) returns (clash: bool)
      ensures clash <==> !DistinctIPs(nets)
    {
      clash := exists m, n :: m in nets && n in nets && m != n && nets[m].ip.Some? && nets[m].ip == nets[n].ip;
    }

    /** `hostonlyif ipconfig <name> --ip <ip> --netmask <mask>`. */
    method IpConfig(name: string, ip: Ip, p: Prefix) returns (ok: bool)
      requires Valid()
      modifies this`adapters
      ensures Valid()
      ensures ok ==> NetworkOf(name) in old(adapters)
      ensures adapters == if ok then old(adapters)[NetworkOf(name) := Adapter(name, Some(ip), Bits(p))]
                          else old(adapters)
      ensures reliable ==> (ok <==> NetworkOf(name) in old(adapters))
    {
      var fails: bool := *;
      var n := NetworkOf(name);
      ok := n in adapters && (reliable || !fails);
      if ok { adapters := adapters[n := Adapter(name, Some(ip), Bits(p))]; }
    }

    method ListServers() returns (ok: bool, list: Servers)
      ensures (ok ==> list == servers) && (reliable ==> ok)
    {
      ok := *;
      ok := ok || reliable;
      list := if ok then servers else map[];
    }

    method RemoveServer(n: string) returns (ok: bool)
      modifies this`servers
      ensures ok == (n !in refuses)
      ensures servers == if ok then old(servers) - {n} else old(servers)
    {
      ok := n !in refuses;
      if ok { servers := servers - {n}; }
    }

    /** `dhcpserver add`, which needs the name to be free. */
    method AddServer(n: string, d: Dhcp) returns (ok: bool)
      modifies this`servers
      ensures servers == if ok then old(servers)[n := d] else old(servers)
      ensures ok ==> n !in old(servers)
      ensures reliable ==> (ok <==> n !in old(servers))
    {
      var fails: bool := *;
      ok := n !in servers && (reliable || !fails);
      if ok { servers := servers[n := d]; }
    }

    /** `dhcpserver modify`, which needs the server to exist. */
    method ModifyServer(n: string, d: Dhcp) returns (ok: bool)
      modifies this`servers
      ensures servers == if ok then old(servers)[n := d] else old(servers)
      ensures ok ==> n in old(servers)
      ensures reliable ==> (ok <==> n in old(servers))
    {
      var fails: bool := *;
      ok := n in servers && (reliable || !fails);
      if ok { servers := servers[n := d]; }
    }

    /** `modifyvm --nic2 hostonly --hostonlyadapter2 <name>`. */
    method AttachNic2(name: string) returns (ok: bool)
      modifies this`nic2
      ensures nic2 == if ok then Some(name) else old(nic2)
      ensures reliable ==> ok
    {
      ok := *;
      ok := ok || reliable;
      if ok { nic2 := Some(name); }
    }
  }

  // ----- the driver's functions

  /** `getHostOnlyAdapter`: a search through the map, in any order. */
  method GetHostOnlyAdapter(nets: Adapters, ip: Ip, p: Prefix) returns (found: Option<Adapter>)
    ensures found.Some? ==> exists n :: n in nets && nets[n] == found.value && Matches(found.value, ip, p)
    ensures found.None? ==> forall n :: n in nets ==> !Matches(nets[n], ip, p)
  {
    var todo := nets.Keys;
    while todo != {}
      invariant todo <= nets.Keys && forall n :: n in nets.Keys - todo ==> !Matches(nets[n], ip, p)
      decreases |todo|
    {
      var n :| n in todo;
      if Matches(nets[n], ip, p) { return Some(nets[n]); }
      todo := todo - {n};
    }
    return None;
  }

  /** `waitForNewHostOnlyNetwork`: ten listings, until one shows a name that was not there before. */
  method WaitForNew(vbox: VBox, oldNets: Adapters) returns (found: Option<Adapter>)
    requires vbox.Valid()
    modifies vbox`adapters, vbox`hidden
    ensures vbox.OnlyAppears()
    ensures found.Some? ==>
              var n := NetworkOf(found.value.name);
              n !in oldNets && n in vbox.adapters && vbox.adapters[n] == found.value && DistinctIPs(vbox.adapters)
    ensures vbox.reliable && DistinctIPs(old(vbox.adapters)) && !(old(vbox.hidden).Keys <= oldNets.Keys) ==> found.Some?
  {
    for i := 0 to 10
      invariant vbox.OnlyAppears()
      invariant vbox.reliable && DistinctIPs(old(vbox.adapters)) && i > 0 ==>
                  vbox.hidden == map[] && vbox.adapters.Keys <= oldNets.Keys
    {
      var ok, nets := vbox.ListAdapters();
      SameAddresses(old(vbox.adapters), old(vbox.hidden), vbox.adapters, vbox.hidden);
      if !ok { return None; }
      var fresh' := nets.Keys - oldNets.Keys;
      if fresh' != {} {
        var n :| n in fresh';
        return Some(nets[n]);
      }
      assert forall n :: n in nets ==> n !in fresh';
    }
    assert forall n :: n in old(vbox.hidden) ==> n in old(vbox.All()).Keys;
    return None;
  }

  /** From `a` visible and `h` hidden adapters, some of the latter have become visible. */
  ghost predicate Appeared(a: Adapters, h: Adapters, a': Adapters, h': Adapters) {
    a.Keys !! h.Keys && a'.Keys !! h'.Keys && a + h == a' + h' && a.Keys <= a'.Keys
  }

  lemma AppearedMeans(a: Adapters, h: Adapters, a': Adapters, h': Adapters)
    requires Appeared(a, h, a', h')
    ensures forall n :: n in a ==> n in a' && a'[n] == a[n]
    ensures forall n :: n in a' && n !in a ==> n in h && a'[n] == h[n]
    ensures forall n :: n in h' ==> n in h && h'[n] == h[n]
  {
    var all := a + h;
    assert forall n :: n in a ==> all[n] == a[n];
    assert forall n :: n in a' ==> n in all && (a' + h')[n] == a'[n];
    assert forall n :: n in h' ==> n in all && (a' + h')[n] == h'[n];
  }

  /** Adapters without an address clash with none, and match none. */
  lemma SameAddresses(a: Adapters, h: Adapters, a': Adapters, h': Adapters)
    requires Appeared(a, h, a', h') && Addressless(h)
    ensures DistinctIPs(a') <==> DistinctIPs(a)
    ensures forall ip :: UsesAddress(a', ip) <==> UsesAddress(a, ip)
    ensures forall ip, p :: HasMatch(a', ip, p) <==> HasMatch(a, ip, p)
  {
    AppearedMeans(a, h, a', h');
    forall ip
      ensures UsesAddress(a', ip) <==> UsesAddress(a, ip)
    {
      if m :| m in a && a[m].ip == Some(ip) { assert a'[m].ip == Some(ip); }
    }
    forall ip, p
      ensures HasMatch(a', ip, p) <==> HasMatch(a, ip, p)
    {
      if m :| m in a && Matches(a[m], ip, p) { assert Matches(a'[m], ip, p); }
    }
  }

  ghost predicate UsesAddress(nets: Adapters, ip: Ip) {
    exists m :: m in nets && nets[m].ip == Some(ip)
  }

  ghost predicate HasMatch(nets: Adapters, ip: Ip, p: Prefix) {
    exists m :: m in nets && Matches(nets[m], ip, p)
  }

  /** Giving an adapter without an address a new one keeps addresses distinct exactly when no other has it. */
  lemma NewAddress(nets: Adapters, n: string, a: Adapter, listed: Adapters)
    requires DistinctIPs(nets) && n in nets && n !in listed && a.ip.Some?
    requires forall m :: m in listed ==> m in nets && nets[m] == listed[m]
    requires forall m :: m in nets && m !in listed ==> nets[m].ip == None
    ensures DistinctIPs(nets[n := a]) <==> !UsesAddress(listed, a.ip.value)
  {
    var new' := nets[n := a];
    if UsesAddress(listed, a.ip.value) {
      var m :| m in listed && listed[m].ip == a.ip;
      assert m in new' && m != n && new'[m].ip == new'[n].ip;
    }
  }

  /** What has become of adapters and servers when a new adapter was looked for. */
  twostate predicate Grown(vbox: VBox, nets: Adapters)
    reads vbox
  {
    && vbox.Valid() && vbox.nic2 == old(vbox.nic2)
    && (forall m :: m in nets ==> m in vbox.adapters && vbox.adapters[m] == nets[m])
    && (forall m :: m in old(vbox.servers) ==> m in vbox.servers && vbox.servers[m] == old(vbox.servers)[m])
    && (forall m :: m in vbox.servers && m !in old(vbox.servers) ==> m !in nets && m in vbox.All() && vbox.addsServer)
  }

  /** `getOrCreateHostOnlyNetwork`: an adapter that matches already, or one that was not listed before and now has the
      requested address and mask; the latter clashes exactly if a listed adapter has that address, with another mask. */
  method GetOrCreate(vbox: VBox, ip: Ip, p: Prefix, nets: Adapters, newName: string, default: Dhcp)
    returns (r: Option<Adapter>)
    requires vbox.Valid() && nets == vbox.adapters && DistinctIPs(nets)
    modifies vbox`adapters, vbox`hidden, vbox`servers
    ensures Grown(vbox, nets)
    ensures r.Some? ==>
              var n := NetworkOf(r.value.name);
              n in vbox.adapters && vbox.adapters[n] == r.value && Matches(r.value, ip, p)
    ensures HasMatch(nets, ip, p) ==>
              && r.Some? && NetworkOf(r.value.name) in nets && vbox.adapters == nets && vbox.hidden == old(vbox.hidden)
              && vbox.servers == old(vbox.servers)
    ensures !HasMatch(nets, ip, p) && r.Some? ==>
              && NetworkOf(r.value.name) !in nets && r.value.mask == Bits(p)
              && (DistinctIPs(vbox.adapters) <==> !UsesAddress(nets, ip))
    ensures !HasMatch(nets, ip, p) && vbox.reliable && NetworkOf(newName) !in old(vbox.All()) ==>
              r.Some? && (vbox.addsServer ==> vbox.servers != map[])
  {
    r := GetHostOnlyAdapter(nets, ip, p);
    if r.Some? { return; }
    r := CreateNew(vbox, ip, p, nets, newName, default);
  }

  /** Its part without a match. */
  method CreateNew(vbox: VBox, ip: Ip, p: Prefix, nets: Adapters, newName: string, default: Dhcp)
    returns (r: Option<Adapter>)
    requires vbox.Valid() && nets == vbox.adapters && DistinctIPs(nets)
    modifies vbox`adapters, vbox`hidden, vbox`servers
    ensures Grown(vbox, nets)
    ensures r.Some? ==>
              var n := NetworkOf(r.value.name);
              && n !in nets && n in vbox.adapters && vbox.adapters[n] == r.value
              && r.value.ip == Some(ip) && r.value.mask == Bits(p)
              && (DistinctIPs(vbox.adapters) <==> !UsesAddress(nets, ip))
    ensures vbox.reliable && NetworkOf(newName) !in old(vbox.All()) ==>
              r.Some? && (vbox.addsServer ==> vbox.servers != map[])
  {
    r := CreateAndFind(vbox, nets, newName, default);
    if r.None? { return; }
    r := Configure(vbox, r.value.name, ip, p, nets);
  }

  /** Its end: give the new adapter its address and mask. */
  method Configure(vbox: VBox, name: string, ip: Ip, p: Prefix, ghost nets: Adapters)
    returns (r: Option<Adapter>)
    requires vbox.Valid() && DistinctIPs(vbox.adapters) && NetworkOf(name) in vbox.adapters && NetworkOf(name) !in nets
    requires forall m :: m in nets ==> m in vbox.adapters && vbox.adapters[m] == nets[m]
    requires forall m :: m in vbox.adapters && m !in nets ==> vbox.adapters[m].ip == None
    modifies vbox`adapters
    ensures vbox.Valid() && vbox.adapters.Keys == old(vbox.adapters).Keys
    ensures forall m :: m in nets ==> m in vbox.adapters && vbox.adapters[m] == nets[m]
    ensures r.Some? ==>
              && r.value == Adapter(name, Some(ip), Bits(p)) && vbox.adapters[NetworkOf(name)] == r.value
              && (DistinctIPs(vbox.adapters) <==> !UsesAddress(nets, ip))
    ensures vbox.reliable ==> r.Some?
  {
    NewAddress(vbox.adapters, NetworkOf(name), Adapter(name, Some(ip), Bits(p)), nets);
    var ok := vbox.IpConfig(name, ip, p);
    r := if ok then Some(Adapter(name, Some(ip), Bits(p))) else None;
  }

  /** Its middle: create an adapter and wait for one that was not listed. */
  method CreateAndFind(vbox: VBox, nets: Adapters, newName: string, default: Dhcp)
    returns (r: Option<Adapter>)
    requires vbox.Valid() && nets == vbox.adapters && DistinctIPs(nets)
    modifies vbox`adapters, vbox`hidden, vbox`servers
    ensures Grown(vbox, nets)
    ensures forall m :: m in vbox.adapters && m !in nets ==> vbox.adapters[m].ip == None
    ensures r.Some? ==>
              var n := NetworkOf(r.value.name);
              n !in nets && n in vbox.adapters && vbox.adapters[n] == r.value && DistinctIPs(vbox.adapters)
    ensures vbox.reliable && NetworkOf(newName) !in old(vbox.All()) ==>
              r.Some? && (vbox.addsServer ==> vbox.servers != map[])
  {
    var _ := vbox.Create(newName, default);      // an error is only logged
    ghost var hidden := vbox.hidden;
    assert forall n :: n in hidden ==> n in vbox.All();
    r := WaitForNew(vbox, nets);
    AppearedMeans(nets, hidden, vbox.adapters, vbox.hidden);
  }

  predicate Orphan(n: string, nets: Adapters) {
    Prefixed(n) && n !in nets
  }

  /** `removeOrphanDHCPServers`: exactly the prefixed servers without an adapter go, except those whose removal is
      refused. Where there are servers at all it lists the adapters again, and fails if two of them have one address. */
  method RemoveOrphans(vbox: VBox) returns (ok: bool)
    requires vbox.Valid()
    modifies vbox`adapters, vbox`hidden, vbox`servers
    ensures vbox.Valid()
    ensures forall n :: n in old(vbox.adapters) ==> n in vbox.adapters && vbox.adapters[n] == old(vbox.adapters)[n]
    ensures vbox.All() == old(vbox.All())
    ensures DistinctIPs(vbox.adapters) <==> DistinctIPs(old(vbox.adapters))
    ensures forall n :: n in vbox.servers ==> n in old(vbox.servers) && vbox.servers[n] == old(vbox.servers)[n]
    ensures ok ==> forall n :: n in old(vbox.servers) ==>
              (n !in vbox.servers <==> Prefixed(n) && n !in vbox.adapters && n !in vbox.refuses)
    ensures !ok ==> vbox.servers == old(vbox.servers)
    ensures ok ==> old(vbox.servers) == map[] || DistinctIPs(old(vbox.adapters))
    ensures vbox.reliable ==> (ok <==> old(vbox.servers) == map[] || DistinctIPs(old(vbox.adapters)))
  {
    var dhcps;
    ok, dhcps := vbox.ListServers();
    if !ok || dhcps == map[] { return; }
    var nets;
    ok, nets := vbox.ListAdapters();
    SameAddresses(old(vbox.adapters), old(vbox.hidden), vbox.adapters, vbox.hidden);
    AppearedMeans(old(vbox.adapters), old(vbox.hidden), vbox.adapters, vbox.hidden);
    if !ok { return; }
    RemoveThose(vbox, dhcps, nets);
  }

  /** Its loop. */
  method RemoveThose(vbox: VBox, dhcps: Servers, nets: Adapters)
    requires dhcps == vbox.servers
    modifies vbox`servers
    ensures forall n :: n in vbox.servers ==> n in dhcps && vbox.servers[n] == dhcps[n]
    ensures forall n :: n in dhcps ==> (n !in vbox.servers <==> Prefixed(n) && n !in nets && n !in vbox.refuses)
  {
    var todo := dhcps.Keys;
    while todo != {}
      invariant todo <= dhcps.Keys
      invariant forall n :: n in vbox.servers ==> n in dhcps && vbox.servers[n] == dhcps[n]
      invariant forall n :: n in todo ==> n in vbox.servers
      invariant forall n :: n in dhcps.Keys - todo ==> (n !in vbox.servers <==> Orphan(n, nets) && n !in vbox.refuses)
      decreases |todo|
    {
      var n :| n in todo;
      todo := todo - {n};
      if Orphan(n, nets) {
        var gone := vbox.RemoveServer(n);       // a failure is only logged
      }
    }
  }

  /** `addHostOnlyDHCPServer`: whatever was there, the entry ends up as requested, and no other entry changes. */
  method AddHostOnlyDHCPServer(vbox: VBox, name: string, d: Dhcp) returns (ok: bool)
    modifies vbox`servers
    ensures vbox.servers == if ok then old(vbox.servers)[NetworkOf(name) := d] else old(vbox.servers)
    ensures vbox.reliable ==> ok
  {
    var n := NetworkOf(name);
    var dhcps;
    ok, dhcps := vbox.ListServers();
    if !ok { return; }
    if n in dhcps {
      if dhcps[n] == d { return; }
      ok := vbox.ModifyServer(n, d);
    } else {
      ok := vbox.AddServer(n, d);
    }
  }

  /** The DHCP entry for a server address on the subnet of `host`. */
  function DhcpFor(host: Ip, p: Prefix, server: Ip, enabled: bool): Dhcp {
    var (lower, upper) := AddressRange(server, Network(host, p), p);
    Dhcp(server, p, lower, upper, enabled)
  }

  ghost predicate Drawn(host: Ip, server: Ip) {
    server == host.(d := server.d) && 1 <= server.d <= 24 && server.d != host.d
  }

  /** The adapters listed at the start: those that were visible, and some that were about to be. */
  twostate predicate ListedAtStart(vbox: VBox, listed: Adapters)
    reads vbox
  {
    && (forall m :: m in old(vbox.adapters) ==> m in listed && listed[m] == old(vbox.adapters)[m])
    && (forall m :: m in listed && m !in old(vbox.adapters) ==>
          m in old(vbox.hidden) && listed[m] == old(vbox.hidden)[m])
  }

  /** The adapter matches, and is an old one as it was, or, if none matched, one that was not listed and has just been
      configured. */
  ghost predicate Chosen(vbox: VBox, host: Ip, p: Prefix, a: Adapter, listed: Adapters)
    reads vbox
  {
    var n := NetworkOf(a.name);
    && n in vbox.adapters && vbox.adapters[n] == a && Matches(a, host, p)
    && (HasMatch(listed, host, p) ==> n in listed && listed[n] == a)
    && (!HasMatch(listed, host, p) ==> n !in listed && a.mask == Bits(p))
  }

  /** Its DHCP entry is the requested one, on a server address next to the host's, and the second NIC points at it. */
  ghost predicate Served(vbox: VBox, host: Ip, p: Prefix, enabled: bool, name: string)
    reads vbox
  {
    var n := NetworkOf(name);
    && n in vbox.servers && Drawn(host, vbox.servers[n].ip)
    && vbox.servers[n] == DhcpFor(host, p, vbox.servers[n].ip, enabled)
    && vbox.nic2 == Some(name)
  }

  /** Every other server is as it was, except that exactly the orphans are gone, other than those whose removal is
      refused; what is new besides belongs to an adapter. */
  twostate predicate OthersKept(vbox: VBox, name: string)
    reads vbox
  {
    Kept(old(vbox.servers), vbox.servers, NetworkOf(name), vbox.adapters, vbox.refuses, vbox.All())
  }

  /** The same on values: what has become of the servers `s`, apart from `n`. */
  ghost predicate Kept(s: Servers, s': Servers, n: string, adapters: Adapters, refuses: set<string>, all: Adapters) {
    && (forall m :: m in s && m != n && m in s' ==> s'[m] == s[m])
    && (forall m :: m in s && m != n ==> (m !in s' <==> Prefixed(m) && m !in adapters && m !in refuses))
    && (forall m :: m in s' && m !in s && m != n ==> m in all)
  }

  /** If servers only came in for known adapters before, nothing changes. */
  lemma KeptSince(s0: Servers, s: Servers, s': Servers, n: string, adapters: Adapters, refuses: set<string>,
                  all: Adapters)
    requires Kept(s, s', n, adapters, refuses, all)
    requires forall m :: m in s0 ==> m in s && s[m] == s0[m]
    requires forall m :: m in s && m !in s0 ==> m in all
    ensures Kept(s0, s', n, adapters, refuses, all)
  {
  }

  /** The prefixes for which every draw leads to a well placed server. */
  predicate SafeCIDR(host: Ip, p: Prefix) {
    p <= 24 || (p <= 27 && Network(host, p).d == 0)
  }

  /** Some draw differs from the host's last octet. */
  ghost predicate UsableDraw(draws: Draws, host: Ip)
  {
    exists i :: 0 <= i < 5 && draws[i] + 1 != host.d
  }

  /** The end of the set-up: draw an address, enter the server, attach the NIC. */
  method ServeAndAttach(vbox: VBox, host: Ip, p: Prefix, enabled: bool, draws: Draws, name: string)
    returns (ok: bool)
    modifies vbox`servers, vbox`nic2
    ensures ok ==> Served(vbox, host, p, enabled, name)
    ensures ok && SafeCIDR(host, p) ==> WellPlaced(host, p, vbox.servers[NetworkOf(name)].ip)
    ensures forall m :: m != NetworkOf(name) ==>
              && (m in vbox.servers <==> m in old(vbox.servers))
              && (m in vbox.servers ==> vbox.servers[m] == old(vbox.servers)[m])
    ensures !ok ==> vbox.nic2 == old(vbox.nic2)
    ensures vbox.reliable ==> (ok <==> UsableDraw(draws, host))
  {
    var server := RandomIPInSubnet(host, draws);
    if server.None? { return false; }
    SafeCIDRIff(host, p);
    ok := AddHostOnlyDHCPServer(vbox, name, DhcpFor(host, p, server.value, enabled));
    if !ok { return; }
    ok := vbox.AttachNic2(name);
  }

  /** From the orphans on. */
  method CleanUpAndServe(vbox: VBox, host: Ip, p: Prefix, enabled: bool, draws: Draws, name: string)
    returns (ok: bool)
    requires vbox.Valid() && NetworkOf(name) in vbox.adapters
    modifies vbox
    ensures vbox.Valid() && vbox.All() == old(vbox.All())
    ensures NetworkOf(name) in vbox.adapters && vbox.adapters[NetworkOf(name)] == old(vbox.adapters)[NetworkOf(name)]
    ensures DistinctIPs(vbox.adapters) <==> DistinctIPs(old(vbox.adapters))
    ensures ok ==> Served(vbox, host, p, enabled, name) && OthersKept(vbox, name)
    ensures ok && SafeCIDR(host, p) ==> WellPlaced(host, p, vbox.servers[NetworkOf(name)].ip)
    ensures ok ==> forall m :: m in vbox.servers && m != NetworkOf(name) ==> m in old(vbox.servers)
    ensures !ok ==> vbox.nic2 == old(vbox.nic2)
    ensures vbox.reliable && UsableDraw(draws, host) ==>
              (ok <==> old(vbox.servers) == map[] || DistinctIPs(old(vbox.adapters)))
  {
    ok := RemoveOrphans(vbox);
    if !ok { return; }
    ok := ServeAndAttach(vbox, host, p, enabled, draws, name);
  }

  /** A visible adapter has the requested address, but neither the requested nor the misreported mask. */
  ghost predicate OtherMask(nets: Adapters, host: Ip, p: Prefix) {
    UsesAddress(nets, host) && !HasMatch(nets, host, p)
  }

  /** The inputs are such that nothing but VirtualBox's own state can stand in the way. */
  ghost predicate Smooth(vbox: VBox, host: Ip, p: Prefix, collides: bool, draws: Draws, newName: string)
    reads vbox
  {
    && vbox.reliable && host != Network(host, p) && !collides && NetworkOf(newName) !in vbox.All()
    && UsableDraw(draws, host)
  }

  /** `setupHostOnlyNetwork`; `collides` is the verdict of `validateNoIPCollisions`. */
  method SetupHostOnlyNetwork(vbox: VBox, host: Ip, p: Prefix, enabled: bool, collides: bool, draws: Draws,
                              newName: string, default: Dhcp)
    returns (r: Option<Adapter>, ghost listed: Adapters)
    requires vbox.Valid()
    modifies vbox
    ensures vbox.Valid() && ListedAtStart(vbox, listed)
    ensures r.None? ==> vbox.nic2 == old(vbox.nic2)
    ensures r.Some? ==>
              && Chosen(vbox, host, p, r.value, listed) && Served(vbox, host, p, enabled, r.value.name)
              && OthersKept(vbox, r.value.name) && host != Network(host, p)
    ensures r.Some? && SafeCIDR(host, p) ==>
              WellPlaced(host, p, vbox.servers[NetworkOf(r.value.name)].ip)
    // an adapter with the requested address but another mask is not reused: the new one clashes with it
    ensures r.Some? ==> (DistinctIPs(vbox.adapters) <==> !OtherMask(listed, host, p))
    // and then the set-up itself fails, unless there is no DHCP server at all
    ensures old(Smooth(vbox, host, p, collides, draws, newName)) ==>
              (r.Some? <==> && DistinctIPs(old(vbox.adapters))
                            && (OtherMask(old(vbox.adapters), host, p) ==>
                                  old(vbox.servers) == map[] && !vbox.addsServer))
    ensures old(Smooth(vbox, host, p, collides, draws, newName)) && OtherMask(old(vbox.adapters), host, p) ==>
              !DistinctIPs(vbox.adapters)
  {
    r, listed := None, vbox.adapters;
    if ValidateCIDR(host, p).None? { return; }
    var ok, nets := vbox.ListAdapters();
    listed := nets;
    SameAddresses(old(vbox.adapters), old(vbox.hidden), vbox.adapters, vbox.hidden);
    AppearedMeans(old(vbox.adapters), old(vbox.hidden), vbox.adapters, vbox.hidden);
    if !ok || collides { return; }
    r := SetupWith(vbox, host, p, enabled, draws, newName, default, nets);
  }

  /** The same from the point on where the adapters have been listed and do not collide. */
  method SetupWith(vbox: VBox, host: Ip, p: Prefix, enabled: bool, draws: Draws, newName: string, default: Dhcp,
                   nets: Adapters)
    returns (r: Option<Adapter>)
    requires vbox.Valid() && nets == vbox.adapters && DistinctIPs(nets)
    modifies vbox
    ensures vbox.Valid()
    ensures r.None? ==> vbox.nic2 == old(vbox.nic2)
    ensures r.Some? ==>
              && Chosen(vbox, host, p, r.value, nets) && Served(vbox, host, p, enabled, r.value.name)
              && OthersKept(vbox, r.value.name)
              && (SafeCIDR(host, p) ==> WellPlaced(host, p, vbox.servers[NetworkOf(r.value.name)].ip))
              && (DistinctIPs(vbox.adapters) <==> !OtherMask(nets, host, p))
    ensures vbox.reliable && NetworkOf(newName) !in old(vbox.All()) && UsableDraw(draws, host) ==>
              && (r.Some? <==> (OtherMask(nets, host, p) ==> old(vbox.servers) == map[] && !vbox.addsServer))
              && (OtherMask(nets, host, p) ==> !DistinctIPs(vbox.adapters))
  {
    r := None;
    var a := GetOrCreate(vbox, host, p, nets, newName, default);
    if a.None? { return; }
    MatchUsesAddress(nets, host, p);
    ghost var servers := vbox.servers;
    var ok := CleanUpAndServe(vbox, host, p, enabled, draws, a.value.name);
    if !ok { return; }
    KeptSince(old(vbox.servers), servers, vbox.servers, NetworkOf(a.value.name),
              vbox.adapters, vbox.refuses, vbox.All());
    r := a;
  }

  lemma MatchUsesAddress(nets: Adapters, ip: Ip, p: Prefix)
    ensures HasMatch(nets, ip, p) ==> UsesAddress(nets, ip)
  {
  }

  /** A VirtualBox that has the address with mask `q`, and a DHCP server for it. */
  method WithOtherMask(host: Ip, p: Prefix, q: Prefix, draws: Draws, name: string, newName: string, d: Dhcp)
    returns (vbox: VBox)
    requires p != q && host != Network(host, p) && name != newName && draws[0] + 1 != host.d
    ensures fresh(vbox) && vbox.Valid() && vbox.servers != map[]
    ensures Smooth(vbox, host, p, false, draws, newName) && OtherMask(vbox.adapters, host, p)
  {
    var a, n := Adapter(name, Some(host), Bits(q)), NetworkOf(name);
    vbox := new VBox(true, {}, false, map[n := a], map[n := d]);
    assert NetworkOf(newName)[|PREFIX|..] == newName && n[|PREFIX|..] == name;
    assert vbox.adapters[n].ip == Some(host);
  }

  /** It is then asked for with mask `p`: the set-up fails, and so does every listing from then on. */
  method OtherMaskRun(host: Ip, p: Prefix, q: Prefix, draws: Draws, name: string, newName: string, d: Dhcp)
    returns (vbox: VBox, r: Option<Adapter>, listable: bool)
    requires p != q && host != Network(host, p) && name != newName
    requires draws[0] + 1 != host.d
    ensures fresh(vbox) && r.None? && !listable
  {
    vbox := WithOtherMask(host, p, q, draws, name, newName, d);
    ghost var listed;
    r, listed := SetupHostOnlyNetwork(vbox, host, p, true, false, draws, newName, d);
    ghost var a, h := vbox.adapters, vbox.hidden;
    var nets;
    listable, nets := vbox.ListAdapters();
    SameAddresses(a, h, vbox.adapters, vbox.hidden);
  }
}
