/** Printing host-only adapters the way `VBoxManage list hostonlyifs` does, and reading them back. */
module AdapterRoundTrip {
  import opened Basics
  import opened KeyValues
  import opened HostOnlyAdapters

  function Show(key: Key): string {
    match key
    case Name => "Name"
    case Guid => "GUID"
    case Dhcp => "DHCP"
    case IPAddress => "IPAddress"
    case NetworkMask => "NetworkMask"
    case HardwareAddress => "HardwareAddress"
    case MediumType => "MediumType"
    case Status => "Status"
    case NetworkName => "VBoxNetworkName"
    case Other => "IPV6NetworkMaskPrefixLength"
  }

  function Optional(key: Key, v: Option<string>): seq<Field> {
    if v.Some? then [Field(key, v.value)] else []
  }

  /** What is printed for a key; a missing address, mask or MAC has no line. */
  function ValueOf(a: Adapter, key: Key): Option<string> {
    match key
    case Name => Some(a.name)
    case Guid => Some(a.guid)
    case Dhcp => Some(if a.dhcp then "Enabled" else "Disabled")
    case IPAddress => a.ip
    case NetworkMask => a.mask
    case HardwareAddress => a.hardware
    case MediumType => Some(a.medium)
    case Status => Some(a.status)
    case NetworkName => Some(a.networkName)
    case Other => None
  }

  function Listed(a: Adapter, keys: seq<Key>): seq<Field> {
    if keys == [] then []
    else Listed(a, keys[..|keys| - 1]) + Optional(keys[|keys| - 1], ValueOf(a, keys[|keys| - 1]))
  }

  const KEYS: seq<Key> := [Name, Guid, Dhcp, IPAddress, NetworkMask, HardwareAddress, MediumType, Status]

  function Body(a: Adapter): seq<Field> {
    Listed(a, KEYS)
  }

  function FieldsFor(a: Adapter): seq<Field> {
    Body(a) + [Field(NetworkName, a.networkName)]
  }

  function AllFields(rs: seq<Adapter>): seq<Field> {
    if rs == [] then [] else AllFields(rs[..|rs| - 1]) + FieldsFor(rs[|rs| - 1])
  }

  function Shown(fs: seq<Field>): seq<KeyValue> {
    seq(|fs|, i requires 0 <= i < |fs| => KeyValue(Show(fs[i].key), fs[i].val))
  }

  /** The whole output, with the given padding after each colon, and line ends of Unix or Windows. */
  function Print(rs: seq<Adapter>, pad: Layout, crlf: bool): string {
    Unlines(PrintAll(Shown(AllFields(rs)), pad), crlf)
  }

  predicate Text(s: string) {
    Plain(s) && IsLine(s)
  }

  predicate Canonical(parse: string -> Option<string>, v: Option<string>) {
    v.Some? ==> Text(v.value) && parse(v.value) == v
  }

  /** Values that fit on a line: no colon before white space, no leading white space, parsed back as they are. */
  predicate Storable(ps: Parsers, a: Adapter) {
    && Text(a.name) && Text(a.guid) && Text(a.medium) && Text(a.status) && Text(a.networkName)
    && Canonical(ps.ip, a.ip) && Canonical(ps.mask, a.mask) && Canonical(ps.mac, a.hardware)
  }

  ghost predicate AllStorable(ps: Parsers, rs: seq<Adapter>) {
    forall i :: 0 <= i < |rs| ==> Storable(ps, rs[i])
  }

  lemma OptionalValue(block: seq<Field>, key: Key, v: Option<string>, k: Key)
    ensures LastValue(block + Optional(key, v), k) == if k == key && v.Some? then v else LastValue(block, k)
  {
    if v.Some? {
      LastValueAppend(block, Field(key, v.value), k);
    } else {
      assert block + [] == block;
    }
  }

  lemma {:induction false} ListedValue(a: Adapter, keys: seq<Key>, k: Key)
    ensures LastValue(Listed(a, keys), k) == if k in keys then ValueOf(a, k) else None
  {
    if keys != [] {
      var n := |keys| - 1;
      ListedValue(a, keys[..n], k);
      OptionalValue(Listed(a, keys[..n]), keys[n], ValueOf(a, keys[n]), k);
      assert keys == keys[..n] + [keys[n]];
    }
  }

  lemma {:induction false} ListedField(a: Adapter, keys: seq<Key>, f: Field)
    requires f in Listed(a, keys)
    ensures f.key in keys && ValueOf(a, f.key) == Some(f.val)
  {
    var n := |keys| - 1;
    if f in Listed(a, keys[..n]) { ListedField(a, keys[..n], f); }
  }

  lemma BodyValue(a: Adapter, k: Key)
    ensures LastValue(Body(a), k) == if k == NetworkName then None else ValueOf(a, k)
  {
    ListedValue(a, KEYS, k);
    assert k in KEYS <==> k != NetworkName && k != Other;
  }

  lemma BodyFields(a: Adapter)
    ensures forall i :: 0 <= i < |Body(a)| ==>
              Body(a)[i].key != NetworkName && ValueOf(a, Body(a)[i].key) == Some(Body(a)[i].val)
  {
    forall i | 0 <= i < |Body(a)|
      ensures Body(a)[i].key != NetworkName && ValueOf(a, Body(a)[i].key) == Some(Body(a)[i].val)
    {
      ListedField(a, KEYS, Body(a)[i]);
    }
  }

  lemma PrintedValue(a: Adapter, k: Key)
    ensures LastValue(FieldsFor(a), k) == ValueOf(a, k)
  {
    BodyValue(a, k);
    LastValueAppend(Body(a), Field(NetworkName, a.networkName), k);
  }

  lemma RecordOfPrinted(ps: Parsers, a: Adapter)
    requires Storable(ps, a)
    ensures RecordOf(ps, FieldsFor(a)) == a
  {
    forall k ensures LastValue(FieldsFor(a), k) == ValueOf(a, k) {
      PrintedValue(a, k);
    }
  }

  /** Fields without a network name extend the open block. */
  lemma {:induction false} Accumulate(fs: seq<Field>, more: seq<Field>)
    requires forall i :: 0 <= i < |more| ==> more[i].key != NetworkName
    ensures Blocks(fs + more) == Blocks(fs) && OpenBlock(fs + more) == OpenBlock(fs) + more
    decreases |more|
  {
    if more == [] {
      assert fs + more == fs;
      assert OpenBlock(fs) + more == OpenBlock(fs);
    } else {
      var n := |more| - 1;
      var front, f, open := more[..n], more[n], OpenBlock(fs);
      Accumulate(fs, front);
      assert more == front + [f];
      var all := fs + front;
      assert fs + more == all + [f];
      assert open + more == (open + front) + [f];
      BlockStep(all, f);
    }
  }

  /** A block closed by a network name. */
  lemma ClosedBlock(fs: seq<Field>, body: seq<Field>, last: Field)
    requires last.key == NetworkName && OpenBlock(fs) == []
    requires forall i :: 0 <= i < |body| ==> body[i].key != NetworkName
    ensures Blocks(fs + (body + [last])) == Blocks(fs) + [body + [last]]
    ensures OpenBlock(fs + (body + [last])) == []
  {
    Accumulate(fs, body);
    BlockStep(fs + body, last);
    assert fs + (body + [last]) == fs + body + [last];
    assert [] + body == body;
  }

  lemma OneMore(ps: Parsers, fs: seq<Field>, a: Adapter)
    requires Storable(ps, a) && OpenBlock(fs) == []
    ensures Records(ps, fs + FieldsFor(a)) == Records(ps, fs) + [a] && OpenBlock(fs + FieldsFor(a)) == []
  {
    BodyFields(a);
    ClosedBlock(fs, Body(a), Field(NetworkName, a.networkName));
    RecordsStep(ps, Blocks(fs), FieldsFor(a));
    RecordOfPrinted(ps, a);
  }

  lemma {:induction false} RecordsOfPrinted(ps: Parsers, rs: seq<Adapter>)
    requires AllStorable(ps, rs)
    ensures Records(ps, AllFields(rs)) == rs && OpenBlock(AllFields(rs)) == []
  {
    if rs != [] {
      var n := |rs| - 1;
      var front := rs[..n];
      RecordsOfPrinted(ps, front);
      var fs := AllFields(front);
      assert AllFields(rs) == fs + FieldsFor(rs[n]);
      OneMore(ps, fs, rs[n]);
      assert rs == front + [rs[n]];
    }
  }

  predicate GoodField(ps: Parsers, f: Field) {
    f.key != Other && Text(f.val) && !BadMac(ps, f)
  }

  lemma GoodFieldsFor(ps: Parsers, a: Adapter)
    requires Storable(ps, a)
    ensures forall f :: f in FieldsFor(a) ==> GoodField(ps, f)
  {
    BodyFields(a);
    assert Text("Enabled") && Text("Disabled");
    forall f | f in FieldsFor(a)
      ensures GoodField(ps, f)
    {
      assert f in Body(a) || f == Field(NetworkName, a.networkName);
    }
  }

  lemma {:induction false} GoodAllFields(ps: Parsers, rs: seq<Adapter>)
    requires AllStorable(ps, rs)
    ensures forall f :: f in AllFields(rs) ==> GoodField(ps, f)
  {
    if rs != [] {
      GoodAllFields(ps, rs[..|rs| - 1]);
      GoodFieldsFor(ps, rs[|rs| - 1]);
    }
  }

  lemma ShownIsPrintable(f: Field)
    requires f.key != Other && Text(f.val)
    ensures Printable(KeyValue(Show(f.key), f.val)) && KeyOf(Show(f.key)) == f.key
  {
    ShowIsLine(f.key);
    ShowIsRead(f.key);
  }

  lemma ShowIsLine(key: Key)
    ensures Show(key) != [] && IsLine(Show(key))
  {
  }

  lemma ShowIsRead(key: Key)
    ensures KeyOf(Show(key)) == key
  {
    var s := Show(key);
    assert |s| == match key
      case Name => 4 case Guid => 4 case Dhcp => 4 case IPAddress => 9 case NetworkMask => 11
      case HardwareAddress => 15 case MediumType => 10 case Status => 6 case NetworkName => 15 case Other => 27;
    assert s[0] == match key
      case Name => 'N' case Guid => 'G' case Dhcp => 'D' case IPAddress => 'I' case NetworkMask => 'N'
      case HardwareAddress => 'H' case MediumType => 'M' case Status => 'S' case NetworkName => 'V' case Other => 'I';
  }

  /** Every list of storable adapters with distinct network names and distinct IPs, printed as `Key: value`
      lines with any padding, is accepted by the parser and read back as the same records. */
  lemma PrintThenParse(ps: Parsers, rs: seq<Adapter>, pad: Layout, crlf: bool)
    requires AllStorable(ps, rs) && NamesDistinct(rs) && IPsDistinct(rs) && Pads(pad)
    ensures Acceptable(ps, Fields(Lines(Print(rs, pad, crlf))))
    ensures Records(ps, Fields(Lines(Print(rs, pad, crlf)))) == rs
  {
    var fs := AllFields(rs);
    GoodAllFields(ps, rs);
    forall i | 0 <= i < |fs|
      ensures Printable(Shown(fs)[i]) && FieldOf(Shown(fs)[i]) == fs[i] && !BadMac(ps, fs[i])
    {
      assert fs[i] in fs;
      ShownIsPrintable(fs[i]);
    }
    TextRoundTrip(Shown(fs), pad, crlf);
    assert FieldsOf(Shown(fs)) == fs;
    RecordsOfPrinted(ps, rs);
  }

  /** The parser itself, on the printed text, returns the same map. */
  method ParsePrinted(ps: Parsers, rs: seq<Adapter>, pad: Layout, crlf: bool)
    returns (ok: bool, byName: map<string, HostOnlyNetwork>)
    requires AllStorable(ps, rs) && NamesDistinct(rs) && IPsDistinct(rs) && Pads(pad)
    ensures ok && fresh(byName.Values) && byName.Keys == Names(rs)
    ensures forall r :: r in rs ==> r.networkName in byName && byName[r.networkName].value == r
    ensures forall m, n :: m in byName && n in byName && m != n ==> byName[m] != byName[n]
  {
    PrintThenParse(ps, rs, pad, crlf);
    ok, byName := ListHostOnlyAdapters(ps, Print(rs, pad, crlf));
  }
}
