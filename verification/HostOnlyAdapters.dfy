/** `listHostOnlyAdapters`: the record parser with its two indexes, by network name and by IP. */
module HostOnlyAdapters {
  import opened Basics
  import opened KeyValues

  /** Parsers of the `net` package: canonical text of an address, a mask or a MAC, if there is one. */
  datatype Parsers = Parsers(
    ip: string -> Option<string>,
    mask: string -> Option<string>,
    mac: string -> Option<string>)

  datatype Adapter = Adapter(
    name: string,
    guid: string,
    dhcp: bool,
    ip: Option<string>,
    mask: Option<string>,
    hardware: Option<string>,
    medium: string,
    status: string,
    networkName: string)

  const EMPTY := Adapter("", "", false, None, None, None, "", "", "")

  /** The keys the callback's switch knows. */
  datatype Key =
    | Name | Guid | Dhcp | IPAddress | NetworkMask | HardwareAddress | MediumType | Status | NetworkName | Other

  datatype Field = Field(key: Key, val: string)

  function KeyOf(text: string): Key {
    if text == "Name" then Name else if text == "GUID" then Guid else if text == "DHCP" then Dhcp
    else if text == "IPAddress" then IPAddress else if text == "NetworkMask" then NetworkMask
    else if text == "HardwareAddress" then HardwareAddress else if text == "MediumType" then MediumType
    else if text == "Status" then Status else if text == "VBoxNetworkName" then NetworkName else Other
  }

  function FieldOf(kv: KeyValue): Field {
    Field(KeyOf(kv.key), kv.val)
  }

  function FieldsOf(kvs: seq<KeyValue>): seq<Field> {
    seq(|kvs|, i requires 0 <= i < |kvs| => FieldOf(kvs[i]))
  }

  /** The fields in the lines of an output, in order. */
  function Fields(lines: seq<string>): seq<Field> {
    FieldsOf(Pairs(lines))
  }

  /** A `hostOnlyNetwork` on the heap: the callback fills in the fields of one after another. */
  class HostOnlyNetwork {
    var value: Adapter

    constructor ()
      ensures value == EMPTY
    {
      value := EMPTY;
    }
  }

  // ----- the reference: blocks that end in a network name, last assignment wins

  /** The last value given to `key`. */
  function LastValue(block: seq<Field>, key: Key): Option<string> {
    if block == [] then None
    else if block[|block| - 1].key == key then Some(block[|block| - 1].val)
    else LastValue(block[..|block| - 1], key)
  }

  function TextOf(v: Option<string>): string {
    if v.Some? then v.value else ""
  }

  function ParsedOf(v: Option<string>, parse: string -> Option<string>): Option<string> {
    if v.Some? then parse(v.value) else None
  }

  function RecordOf(ps: Parsers, block: seq<Field>): Adapter {
    var dhcp := LastValue(block, Dhcp);
    Adapter(TextOf(LastValue(block, Name)), TextOf(LastValue(block, Guid)), dhcp.Some? && dhcp.value != "Disabled",
            ParsedOf(LastValue(block, IPAddress), ps.ip), ParsedOf(LastValue(block, NetworkMask), ps.mask),
            ParsedOf(LastValue(block, HardwareAddress), ps.mac),
            TextOf(LastValue(block, MediumType)), TextOf(LastValue(block, Status)),
            TextOf(LastValue(block, NetworkName)))
  }

  /** The fields after the last network name. */
  function OpenBlock(fs: seq<Field>): seq<Field> {
    if fs == [] || fs[|fs| - 1].key == NetworkName then [] else OpenBlock(fs[..|fs| - 1]) + [fs[|fs| - 1]]
  }

  /** The blocks that a network name closes, in order. */
  function Blocks(fs: seq<Field>): seq<seq<Field>> {
    if fs == [] then []
    else
      var front, last := fs[..|fs| - 1], fs[|fs| - 1];
      Blocks(front) + if last.key == NetworkName then [OpenBlock(front) + [last]] else []
  }

  function RecordsOf(ps: Parsers, blocks: seq<seq<Field>>): seq<Adapter> {
    seq(|blocks|, i requires 0 <= i < |blocks| => RecordOf(ps, blocks[i]))
  }

  function Records(ps: Parsers, fs: seq<Field>): seq<Adapter> {
    RecordsOf(ps, Blocks(fs))
  }

  predicate BadMac(ps: Parsers, f: Field) {
    f.key == HardwareAddress && ps.mac(f.val).None?
  }

  ghost predicate MacsParse(ps: Parsers, fs: seq<Field>) {
    forall i :: 0 <= i < |fs| ==> !BadMac(ps, fs[i])
  }

  ghost predicate NamesDistinct(rs: seq<Adapter>) {
    forall i, j :: 0 <= i < j < |rs| ==> rs[i].networkName != rs[j].networkName
  }

  ghost predicate IPsDistinct(rs: seq<Adapter>) {
    forall i, j :: 0 <= i < j < |rs| && rs[i].ip.Some? && rs[j].ip.Some? ==> rs[i].ip != rs[j].ip
  }

  ghost predicate Clash(rs: seq<Adapter>, r: Adapter) {
    exists q :: q in rs && (q.networkName == r.networkName || (q.ip.Some? && q.ip == r.ip))
  }

  ghost predicate Acceptable(ps: Parsers, fs: seq<Field>) {
    MacsParse(ps, fs) && NamesDistinct(Records(ps, fs)) && IPsDistinct(Records(ps, fs))
  }

  lemma LastValueAppend(block: seq<Field>, f: Field, key: Key)
    ensures LastValue(block + [f], key) == if f.key == key then Some(f.val) else LastValue(block, key)
  {
    assert (block + [f])[..|block|] == block;
  }

  /** Adding one record keeps names and IPs distinct exactly when it clashes with none of the others. */
  lemma Closing(rs: seq<Adapter>, r: Adapter)
    ensures NamesDistinct(rs + [r]) && IPsDistinct(rs + [r]) <==> NamesDistinct(rs) && IPsDistinct(rs) && !Clash(rs, r)
  {
    var all := rs + [r];
    assert all[|rs|] == r && forall i :: 0 <= i < |rs| ==> all[i] == rs[i] && rs[i] in rs;
    if Clash(rs, r) {
      var q :| q in rs && (q.networkName == r.networkName || (q.ip.Some? && q.ip == r.ip));
      var i :| 0 <= i < |rs| && rs[i] == q;
      assert all[i] == q;
    }
  }

  lemma BlockStep(fs: seq<Field>, f: Field)
    ensures OpenBlock(fs + [f]) == if f.key == NetworkName then [] else OpenBlock(fs) + [f]
    ensures Blocks(fs + [f]) == if f.key == NetworkName then Blocks(fs) + [OpenBlock(fs) + [f]] else Blocks(fs)
  {
    assert (fs + [f])[..|fs|] == fs;
  }

  lemma RecordsStep(ps: Parsers, blocks: seq<seq<Field>>, block: seq<Field>)
    ensures RecordsOf(ps, blocks + [block]) == RecordsOf(ps, blocks) + [RecordOf(ps, block)]
  {
  }

  lemma RecordStep(ps: Parsers, fs: seq<Field>, f: Field)
    ensures Records(ps, fs + [f]) ==
            if f.key == NetworkName then Records(ps, fs) + [RecordOf(ps, OpenBlock(fs) + [f])] else Records(ps, fs)
  {
    BlockStep(fs, f);
    if f.key == NetworkName { RecordsStep(ps, Blocks(fs), OpenBlock(fs) + [f]); }
  }

  lemma MacStep(ps: Parsers, fs: seq<Field>, f: Field)
    ensures MacsParse(ps, fs + [f]) <==> MacsParse(ps, fs) && !BadMac(ps, f)
  {
    var all := fs + [f];
    assert all[|fs|] == f;
    assert forall i :: 0 <= i < |fs| ==> all[i] == fs[i];
  }

  /** The reference, one field further. */
  lemma FieldStep(ps: Parsers, fs: seq<Field>, f: Field)
    ensures OpenBlock(fs + [f]) == if f.key == NetworkName then [] else OpenBlock(fs) + [f]
    ensures Records(ps, fs + [f]) ==
            if f.key == NetworkName then Records(ps, fs) + [RecordOf(ps, OpenBlock(fs) + [f])] else Records(ps, fs)
    ensures Acceptable(ps, fs + [f]) <==>
            && Acceptable(ps, fs) && !BadMac(ps, f)
            && (f.key == NetworkName ==> !Clash(Records(ps, fs), RecordOf(ps, OpenBlock(fs) + [f])))
  {
    BlockStep(fs, f);
    RecordStep(ps, fs, f);
    MacStep(ps, fs, f);
    var rs, r := Records(ps, fs), RecordOf(ps, OpenBlock(fs) + [f]);
    Closing(rs, r);
  }

  lemma LineStep(lines: seq<string>, i: nat)
    requires i < |lines|
    ensures match SplitColon(lines[i])
            case Some(kv) => Fields(lines[..i + 1]) == Fields(lines[..i]) + [FieldOf(kv)]
            case None => Fields(lines[..i + 1]) == Fields(lines[..i])
  {
    assert lines[..i + 1][..i] == lines[..i];
  }

  /** If a prefix of the output is refused, so is the whole. */
  lemma {:induction false} PrefixAcceptable(ps: Parsers, lines: seq<string>, i: nat)
    requires i <= |lines|
    ensures Acceptable(ps, Fields(lines)) ==> Acceptable(ps, Fields(lines[..i]))
    decreases |lines| - i
  {
    if i == |lines| {
      assert lines[..i] == lines;
    } else {
      PrefixAcceptable(ps, lines, i + 1);
      LineStep(lines, i);
      if SplitColon(lines[i]).Some? {
        FieldStep(ps, Fields(lines[..i]), FieldOf(SplitColon(lines[i]).value));
      }
    }
  }

  // ----- the parser

  /** The assignments of the callback's switch; false when the MAC address does not parse. */
  method Assign(ps: Parsers, n: HostOnlyNetwork, f: Field, ghost block: seq<Field>) returns (ok: bool)
    requires n.value == RecordOf(ps, block)
    modifies n
    ensures ok <==> !BadMac(ps, f)
    ensures ok ==> n.value == RecordOf(ps, block + [f])
  {
    forall key ensures LastValue(block + [f], key) == if f.key == key then Some(f.val) else LastValue(block, key) {
      LastValueAppend(block, f, key);
    }
    ok := true;
    match f.key {
      case Name => n.value := n.value.(name := f.val);
      case Guid => n.value := n.value.(guid := f.val);
      case Dhcp => n.value := n.value.(dhcp := f.val != "Disabled");
      case IPAddress => n.value := n.value.(ip := ps.ip(f.val));
      case NetworkMask => n.value := n.value.(mask := ps.mask(f.val));
      case HardwareAddress =>
        var mac := ps.mac(f.val);
        if mac.None? { return false; }
        n.value := n.value.(hardware := mac);
      case MediumType => n.value := n.value.(medium := f.val);
      case Status => n.value := n.value.(status := f.val);
      case NetworkName => n.value := n.value.(networkName := f.val);
      case Other =>
    }
  }

  function Names(rs: seq<Adapter>): set<string> {
    set r | r in rs :: r.networkName
  }

  function IPs(rs: seq<Adapter>): set<string> {
    set r | r in rs && r.ip.Some? :: r.ip.value
  }

  lemma IndexStep(rs: seq<Adapter>, r: Adapter)
    ensures Names(rs + [r]) == Names(rs) + {r.networkName}
    ensures IPs(rs + [r]) == IPs(rs) + if r.ip.Some? then {r.ip.value} else {}
    ensures Clash(rs, r) <==> r.networkName in Names(rs) || (r.ip.Some? && r.ip.value in IPs(rs))
  {
    assert forall q :: q in rs + [r] <==> q in rs || q == r;
  }

  /** The records closed so far, as `byName` and `byIP` hold them. */
  ghost predicate Indexed(rs: seq<Adapter>, byName: map<string, HostOnlyNetwork>, byIP: map<string, HostOnlyNetwork>)
    reads byName.Values
  {
    && byName.Keys == Names(rs) && byIP.Keys == IPs(rs)
    && (forall r | r in rs :: r.networkName in byName && byName[r.networkName].value == r)
    && (forall k1, k2 | k1 in byName && k2 in byName && k1 != k2 :: byName[k1] != byName[k2])
  }

  /** The `VBoxNetworkName` case: refuse a name or an IP seen before, else enter the record in both indexes. */
  method CloseRecord(n: HostOnlyNetwork, byName: map<string, HostOnlyNetwork>, byIP: map<string, HostOnlyNetwork>,
                     ghost rs: seq<Adapter>)
    returns (ok: bool, byName': map<string, HostOnlyNetwork>, byIP': map<string, HostOnlyNetwork>)
    requires Indexed(rs, byName, byIP) && n !in byName.Values
    ensures ok <==> !Clash(rs, n.value)
    ensures byName'.Values <= byName.Values + {n}
    ensures ok ==> Indexed(rs + [n.value], byName', byIP')
  {
    byName', byIP' := byName, byIP;
    var r := n.value;
    IndexStep(rs, r);
    if r.networkName in byName' {
      return false, byName', byIP';
    }
    byName' := byName'[r.networkName := n];
    if r.ip.Some? {
      if r.ip.value in byIP' {
        return false, byName', byIP';
      }
      byIP' := byIP'[r.ip.value := n];
    }
    ok := true;
    assert forall k :: k in byName ==> byName[k] in byName.Values;
  }

  /** What the callback's captured variables hold once `seen` has gone through it. */
  ghost predicate Captures(ps: Parsers, seen: seq<Field>, n: HostOnlyNetwork,
                           byName: map<string, HostOnlyNetwork>, byIP: map<string, HostOnlyNetwork>)
    reads n, byName.Values
  {
    && Indexed(Records(ps, seen), byName, byIP)
    && n !in byName.Values
    && n.value == RecordOf(ps, OpenBlock(seen))
  }

  /** A callback turn other than `VBoxNetworkName`. */
  method PlainField(ps: Parsers, f: Field, ghost seen: seq<Field>, n: HostOnlyNetwork,
                    ghost byName: map<string, HostOnlyNetwork>, ghost byIP: map<string, HostOnlyNetwork>)
    returns (ok: bool)
    requires Captures(ps, seen, n, byName, byIP) && Acceptable(ps, seen) && f.key != NetworkName
    modifies n
    ensures ok <==> Acceptable(ps, seen + [f])
    ensures ok ==> Captures(ps, seen + [f], n, byName, byIP)
  {
    ok := Assign(ps, n, f, OpenBlock(seen));
    FieldStep(ps, seen, f);
  }

  /** A callback turn that ends a record. */
  method EndRecord(ps: Parsers, f: Field, ghost seen: seq<Field>, n: HostOnlyNetwork,
                   byName: map<string, HostOnlyNetwork>, byIP: map<string, HostOnlyNetwork>)
    returns (ok: bool, byName': map<string, HostOnlyNetwork>, byIP': map<string, HostOnlyNetwork>)
    requires Captures(ps, seen, n, byName, byIP) && Acceptable(ps, seen) && f.key == NetworkName
    modifies n
    ensures ok <==> Acceptable(ps, seen + [f])
    ensures ok ==> Indexed(Records(ps, seen + [f]), byName', byIP')
    ensures byName'.Values <= byName.Values + {n} && OpenBlock(seen + [f]) == []
  {
    ok := Assign(ps, n, f, OpenBlock(seen));
    assert n.value == RecordOf(ps, OpenBlock(seen) + [f]);
    ok, byName', byIP' := CloseRecord(n, byName, byIP, Records(ps, seen));
    FieldStep(ps, seen, f);
  }

  method Callback(ps: Parsers, f: Field, ghost seen: seq<Field>, n: HostOnlyNetwork,
                  byName: map<string, HostOnlyNetwork>, byIP: map<string, HostOnlyNetwork>)
    returns (ok: bool, n': HostOnlyNetwork, byName': map<string, HostOnlyNetwork>, byIP': map<string, HostOnlyNetwork>)
    requires Captures(ps, seen, n, byName, byIP) && Acceptable(ps, seen)
    modifies n
    ensures ok <==> Acceptable(ps, seen + [f])
    ensures ok ==> Captures(ps, seen + [f], n', byName', byIP')
    ensures (n' == n || fresh(n')) && byName'.Values <= byName.Values + {n}
  {
    if f.key == NetworkName {
      ok, byName', byIP' := EndRecord(ps, f, seen, n, byName, byIP);
      n' := new HostOnlyNetwork();
    } else {
      n', byName', byIP' := n, byName, byIP;
      ok := PlainField(ps, f, seen, n, byName, byIP);
    }
  }

  /** One line of the scan in `parseKeyValues`; lines that do not match are skipped. */
  method ScanLine(ps: Parsers, lines: seq<string>, i: nat, n: HostOnlyNetwork,
                  byName: map<string, HostOnlyNetwork>, byIP: map<string, HostOnlyNetwork>)
    returns (ok: bool, n': HostOnlyNetwork, byName': map<string, HostOnlyNetwork>, byIP': map<string, HostOnlyNetwork>)
    requires i < |lines| && Acceptable(ps, Fields(lines[..i])) && Captures(ps, Fields(lines[..i]), n, byName, byIP)
    modifies n
    ensures ok <==> Acceptable(ps, Fields(lines[..i + 1]))
    ensures ok ==> Captures(ps, Fields(lines[..i + 1]), n', byName', byIP')
    ensures (n' == n || fresh(n')) && byName'.Values <= byName.Values + {n}
  {
    LineStep(lines, i);
    ok, n', byName', byIP' := true, n, byName, byIP;
    var res := SplitColon(lines[i]);
    if res.Some? {
      ok, n', byName', byIP' := Callback(ps, FieldOf(res.value), Fields(lines[..i]), n, byName, byIP);
    }
  }

  /** Accepts exactly the outputs in which all MACs parse and all network names and all IPs are pairwise
      distinct; the map then has one entry per record, keyed by that record's network name, and no two keys
      share a record. */
  method ListHostOnlyAdapters(ps: Parsers, out: string) returns (ok: bool, byName: map<string, HostOnlyNetwork>)
    ensures ok <==> Acceptable(ps, Fields(Lines(out)))
    ensures ok ==> fresh(byName.Values)
    ensures ok ==> exists byIP :: Indexed(Records(ps, Fields(Lines(out))), byName, byIP)
  {
    var lines := Lines(out);
    byName := map[];
    var byIP: map<string, HostOnlyNetwork> := map[];
    var n := new HostOnlyNetwork();
    ok := true;
    for i := 0 to |lines|
      invariant ok && Acceptable(ps, Fields(lines[..i])) && Captures(ps, Fields(lines[..i]), n, byName, byIP)
      invariant fresh(n) && fresh(byName.Values)
    {
      PrefixAcceptable(ps, lines, i + 1);
      ok, n, byName, byIP := ScanLine(ps, lines, i, n, byName, byIP);
      if !ok { return; }
    }
    assert lines[..|lines|] == lines;
  }
}
