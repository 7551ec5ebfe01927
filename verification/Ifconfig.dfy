/** `parseIPForMACFromIPAddr`: finding a guest's address in the output of `ifconfig`, in the layout of
    busybox (MAC line before inet line) and in that of net-tools (inet line before ether line). */
module Ifconfig {
  import opened Basics

  // ----- the string functions used on a line

  predicate IsSpace(c: char) {
    c == ' ' || c == '\t' || c == '\n' || c == '\U{0B}' || c == '\U{0C}' || c == '\r'
  }

  function TrimLeft(s: string): string {
    if s != [] && IsSpace(s[0]) then TrimLeft(s[1..]) else s
  }

  function TrimRight(s: string): string {
    if s != [] && IsSpace(s[|s| - 1]) then TrimRight(s[..|s| - 1]) else s
  }

  /** The first occurrence of `pat`. */
  function Index(s: string, pat: string): Option<nat> {
    if pat <= s then Some(0) else if s == [] then None
    else
      var i := Index(s[1..], pat);
      if i.Some? then Some(i.value + 1) else None
  }

  predicate HasText(s: string, pat: string) {
    Index(s, pat).Some?
  }

  lemma {:induction false} IndexInRange(s: string, pat: string)
    ensures Index(s, pat).Some? ==> Index(s, pat).value + |pat| <= |s|
  {
    if !(pat <= s) && s != [] { IndexInRange(s[1..], pat); }
  }

  /** `strings.Split(s, sep)[0]`. */
  function FirstPart(s: string, sep: string): string {
    IndexInRange(s, sep);
    var i := Index(s, sep);
    if i.Some? then s[..i.value] else s
  }

  /** `strings.Split(s, sep)[1]`, if the split has two parts. */
  function SecondPart(s: string, sep: string): Option<string> {
    IndexInRange(s, sep);
    var i := Index(s, sep);
    if i.Some? then Some(FirstPart(s[i.value + |sep|..], sep)) else None
  }

  /** `s[:strings.Index(s, " ")]`, which panics when there is no space. */
  function UpToSpace(s: string): Option<string> {
    IndexInRange(s, " ");
    var i := Index(s, " ");
    if i.Some? then Some(s[..i.value]) else None
  }

  function ToLower(s: string): string {
    seq(|s|, i requires 0 <= i < |s| => if 'A' <= s[i] <= 'Z' then s[i] - 'A' + 'a' else s[i])
  }

  function WithoutColons(s: string): string {
    if s == [] then [] else (if s[0] == ':' then [] else [s[0]]) + WithoutColons(s[1..])
  }

  // ----- what a line means to the loop

  datatype Kind = LinkMac(mac: string) | EtherMac(mac: string) | Inet(ip: string) | Blank | Panics

  function Classify(raw: string): Kind {
    var line := TrimRight(TrimLeft(raw));
    if HasText(line, "Link") then
      var v := SecondPart(line, "HWaddr ");
      if v.Some? then LinkMac(WithoutColons(ToLower(v.value))) else Blank
    else if HasText(line, "ether") then
      var v := SecondPart(line, "ether ");
      if v.None? then Blank
      else
        var w := UpToSpace(v.value);
        if w.Some? then EtherMac(WithoutColons(ToLower(w.value))) else Panics
    else if "inet" <= line && !("inet6" <= line) then
      var a := SecondPart(line, "addr:");
      var v := if a.Some? then a else SecondPart(line, "inet ");
      var w := if v.Some? then UpToSpace(v.value) else None;
      if w.Some? then Inet(w.value) else Panics
    else Blank
  }

  function Kinds(lines: seq<string>): seq<Kind> {
    seq(|lines|, i requires 0 <= i < |lines| => Classify(lines[i]))
  }

  datatype Outcome = Found(ip: string) | NotFound | Crashed

  // ----- the loop

  /** What is left to come when the device was (or was not) found and `addr` is the last address seen. */
  function Scan(ks: seq<Kind>, mac: string, device: bool, addr: Option<string>): Outcome
    decreases |ks|
  {
    if ks == [] then NotFound
    else
      var k := ks[0];
      if k.Panics? then Crashed
      else
        var device' := device || k == LinkMac(mac) || k == EtherMac(mac);
        var addr' := if k == LinkMac(mac) then None else if k.Inet? then Some(k.ip) else addr;
        if device' && addr'.Some? then Found(addr'.value) else Scan(ks[1..], mac, device', addr')
  }

  method ParseIPForMAC(lines: seq<string>, mac: string) returns (r: Outcome)
    ensures r == Scan(Kinds(lines), mac, false, None)
  {
    var ipAddress, foundDevice, foundAddress := "", false, false;
    ghost var ks := Kinds(lines);
    for i := 0 to |lines|
      invariant !(foundDevice && foundAddress)
      invariant Scan(ks, mac, false, None) ==
                Scan(ks[i..], mac, foundDevice, if foundAddress then Some(ipAddress) else None)
    {
      assert ks[i..][0] == Classify(lines[i]) && ks[i..][1..] == ks[i + 1..];
      var k := Classify(lines[i]);
      match k {
        case LinkMac(m) => if m == mac { foundDevice, foundAddress := true, false; }
        case EtherMac(m) => if m == mac { foundDevice := true; }
        case Inet(ip) => ipAddress, foundAddress := ip, true;
        case Blank =>
        case Panics => return Crashed;
      }
      if foundDevice && foundAddress {
        return Found(ipAddress);
      }
    }
    return NotFound;
  }

  // ----- what it finds, for every output

  function FirstInet(ks: seq<Kind>): Option<string> {
    if ks == [] then None else if ks[0].Inet? then Some(ks[0].ip) else FirstInet(ks[1..])
  }

  function LastInet(ks: seq<Kind>): Option<string> {
    if ks == [] then None
    else if ks[|ks| - 1].Inet? then Some(ks[|ks| - 1].ip) else LastInet(ks[..|ks| - 1])
  }

  function ToOutcome(a: Option<string>): Outcome {
    if a.Some? then Found(a.value) else NotFound
  }

  ghost predicate Calm(ks: seq<Kind>) {
    forall i :: 0 <= i < |ks| ==> !ks[i].Panics?
  }

  ghost predicate NoMatch(ks: seq<Kind>, mac: string) {
    forall i :: 0 <= i < |ks| ==> ks[i] != LinkMac(mac) && ks[i] != EtherMac(mac)
  }

  /** Lines before the first match only move the last address along. */
  lemma {:induction false} SkipPrefix(pre: seq<Kind>, rest: seq<Kind>, mac: string)
    requires Calm(pre) && NoMatch(pre, mac)
    ensures Scan(pre + rest, mac, false, None) == Scan(rest, mac, false, LastInet(pre))
  {
    if pre == [] {
      assert pre + rest == rest;
    } else {
      var n := |pre| - 1;
      SkipPrefix(pre[..n], [pre[n]] + rest, mac);
      assert pre + rest == pre[..n] + ([pre[n]] + rest);
      assert ([pre[n]] + rest)[1..] == rest;
    }
  }

  lemma {:induction false} AfterDevice(ks: seq<Kind>, mac: string)
    requires Calm(ks)
    ensures Scan(ks, mac, true, None) == ToOutcome(FirstInet(ks))
  {
    if ks != [] { AfterDevice(ks[1..], mac); }
  }

  /** If no line carries the MAC address, nothing is found. */
  lemma NothingMatches(ks: seq<Kind>, mac: string)
    requires Calm(ks) && NoMatch(ks, mac)
    ensures Scan(ks, mac, false, None) == NotFound
  {
    SkipPrefix(ks, [], mac);
    assert ks + [] == ks;
  }

  /** If the first match is a `HWaddr` line, the result is the first address after it. */
  lemma FirstMatchIsLink(pre: seq<Kind>, post: seq<Kind>, mac: string)
    requires Calm(pre) && Calm(post) && NoMatch(pre, mac)
    ensures Scan(pre + [LinkMac(mac)] + post, mac, false, None) == ToOutcome(FirstInet(post))
  {
    var rest := [LinkMac(mac)] + post;
    SkipPrefix(pre, rest, mac);
    assert pre + [LinkMac(mac)] + post == pre + rest;
    assert rest[1..] == post;
    AfterDevice(post, mac);
  }

  /** If it is an `ether` line, the result is the last address before it, or else the first one after it. */
  lemma FirstMatchIsEther(pre: seq<Kind>, post: seq<Kind>, mac: string)
    requires Calm(pre) && Calm(post) && NoMatch(pre, mac)
    ensures Scan(pre + [EtherMac(mac)] + post, mac, false, None) ==
            ToOutcome(if LastInet(pre).Some? then LastInet(pre) else FirstInet(post))
  {
    var rest := [EtherMac(mac)] + post;
    SkipPrefix(pre, rest, mac);
    assert pre + [EtherMac(mac)] + post == pre + rest;
    assert rest[1..] == post;
    AfterDevice(post, mac);
  }

  // ----- when nothing is found

  ghost predicate NoInet(ks: seq<Kind>) {
    forall j :: 0 <= j < |ks| ==> !ks[j].Inet?
  }

  lemma {:induction false} NoneThere(ks: seq<Kind>)
    ensures FirstInet(ks) == None <==> NoInet(ks)
    ensures LastInet(ks) == None <==> NoInet(ks)
  {
    if ks != [] {
      NoneThere(ks[1..]);
      NoneThere(ks[..|ks| - 1]);
    }
  }

  ghost predicate Matching(k: Kind, mac: string) {
    k == LinkMac(mac) || k == EtherMac(mac)
  }

  ghost predicate IsFirstMatch(ks: seq<Kind>, m: nat, mac: string) {
    m < |ks| && Matching(ks[m], mac) && forall i :: 0 <= i < m ==> !Matching(ks[i], mac)
  }

  /** The lines hold no answer: no line is cut off, and no line has the MAC address, or the first that does is a
      `HWaddr` line with no address after it, or an `ether` line and there is no address at all. */
  ghost predicate NoAnswer(ks: seq<Kind>, mac: string) {
    && Calm(ks)
    && (NoMatch(ks, mac)
        || exists m: nat :: IsFirstMatch(ks, m, mac) && NoInet(if ks[m].LinkMac? then ks[m + 1..] else ks))
  }

  lemma {:induction false} NotFoundIsCalm(ks: seq<Kind>, mac: string, device: bool, addr: Option<string>)
    requires Scan(ks, mac, device, addr) == NotFound
    ensures Calm(ks)
    decreases |ks|
  {
    if ks != [] {
      var k := ks[0];
      NotFoundIsCalm(ks[1..], mac, device || k == LinkMac(mac) || k == EtherMac(mac),
                     if k == LinkMac(mac) then None else if k.Inet? then Some(k.ip) else addr);
    }
  }

  lemma {:induction false} HasFirstMatch(ks: seq<Kind>, mac: string) returns (m: nat)
    requires !NoMatch(ks, mac)
    ensures IsFirstMatch(ks, m, mac)
    decreases |ks|
  {
    if Matching(ks[0], mac) {
      m := 0;
    } else {
      m := HasFirstMatch(ks[1..], mac);
      m := m + 1;
    }
  }

  lemma OnlyOne(ks: seq<Kind>, mac: string, m: nat, n: nat)
    requires IsFirstMatch(ks, m, mac) && IsFirstMatch(ks, n, mac)
    ensures m == n
  {
  }

  lemma OneFirstMatch(ks: seq<Kind>, mac: string, m: nat)
    requires Calm(ks) && IsFirstMatch(ks, m, mac)
    ensures Scan(ks, mac, false, None) == NotFound <==> NoInet(if ks[m].LinkMac? then ks[m + 1..] else ks)
  {
    var pre, post := ks[..m], ks[m + 1..];
    assert ks == pre + [ks[m]] + post;
    NoneThere(pre);
    NoneThere(post);
    if ks[m].LinkMac? {
      FirstMatchIsLink(pre, post, mac);
    } else {
      FirstMatchIsEther(pre, post, mac);
      assert NoInet(ks) <==> NoInet(pre) && NoInet(post);
    }
  }

  lemma NotFoundIff(ks: seq<Kind>, mac: string)
    ensures Scan(ks, mac, false, None) == NotFound <==> NoAnswer(ks, mac)
  {
    if Scan(ks, mac, false, None) == NotFound { NotFoundIsCalm(ks, mac, false, None); }
    if Calm(ks) {
      if NoMatch(ks, mac) {
        NothingMatches(ks, mac);
      } else {
        var m := HasFirstMatch(ks, mac);
        OneFirstMatch(ks, mac, m);
        forall n: nat | IsFirstMatch(ks, n, mac)
          ensures n == m
        {
          OnlyOne(ks, mac, m, n);
        }
      }
    }
  }

  /** A line before which nothing is found and at which the search panics. */
  ghost predicate CrashesAt(ks: seq<Kind>, mac: string, device: bool, addr: Option<string>, i: nat) {
    i < |ks| && ks[i].Panics? && Scan(ks[..i], mac, device, addr) == NotFound
  }

  /** After a first line that neither panics nor completes the search. */
  lemma CrashesAtNext(k: Kind, rest: seq<Kind>, mac: string, device: bool, addr: Option<string>, i: nat)
    requires !k.Panics?
    ensures var device' := device || k == LinkMac(mac) || k == EtherMac(mac);
            var addr' := if k == LinkMac(mac) then None else if k.Inet? then Some(k.ip) else addr;
            CrashesAt([k] + rest, mac, device, addr, i + 1) <==>
            !(device' && addr'.Some?) && CrashesAt(rest, mac, device', addr', i)
  {
    if i < |rest| {
      var front := ([k] + rest)[..i + 1];
      assert front[0] == k && front[1..] == rest[..i];
      assert ([k] + rest)[i + 1] == rest[i];
    }
  }

  /** The search crashes exactly when it reaches a line cut off right after an address, nothing being found before. */
  lemma {:induction false} CrashesIff(ks: seq<Kind>, mac: string, device: bool, addr: Option<string>)
    ensures Scan(ks, mac, device, addr) == Crashed <==> exists i: nat :: CrashesAt(ks, mac, device, addr, i)
    decreases |ks|
  {
    if ks != [] {
      var k, rest := ks[0], ks[1..];
      assert ks == [k] + rest;
      if k.Panics? {
        assert ks[..0] == [];
        assert CrashesAt(ks, mac, device, addr, 0);
      } else {
        var device' := device || k == LinkMac(mac) || k == EtherMac(mac);
        var addr' := if k == LinkMac(mac) then None else if k.Inet? then Some(k.ip) else addr;
        CrashesIff(rest, mac, device', addr');
        forall i: nat
          ensures CrashesAt(ks, mac, device, addr, i + 1) <==>
                  !(device' && addr'.Some?) && CrashesAt(rest, mac, device', addr', i)
        {
          CrashesAtNext(k, rest, mac, device, addr, i);
        }
        forall i: nat | CrashesAt(ks, mac, device, addr, i)
          ensures CrashesAt(rest, mac, device', addr', i - 1) && !(device' && addr'.Some?)
        {
          CrashesAtNext(k, rest, mac, device, addr, i - 1);
        }
      }
    }
  }

  // ----- the two layouts, block by block

  /** An interface block: its MAC address, and what its other lines are. */
  datatype Block = Block(mac: string, body: seq<Kind>)

  ghost predicate WellFormed(b: Block) {
    forall i :: 0 <= i < |b.body| ==> b.body[i].Inet? || b.body[i].Blank?
  }

  /** busybox: the MAC line comes first. */
  function Busybox(bs: seq<Block>): seq<Kind> {
    if bs == [] then [] else [LinkMac(bs[0].mac)] + bs[0].body + Busybox(bs[1..])
  }

  /** net-tools: the ether line comes last. */
  function NetTools(bs: seq<Block>): seq<Kind> {
    if bs == [] then [] else bs[0].body + [EtherMac(bs[0].mac)] + NetTools(bs[1..])
  }

  /** The first interface with the MAC address is `b`. */
  ghost predicate FirstWith(bs: seq<Block>, b: nat, mac: string) {
    b < |bs| && bs[b].mac == mac && forall i :: 0 <= i < b ==> bs[i].mac != mac
  }

  ghost predicate AllWellFormed(bs: seq<Block>) {
    forall i :: 0 <= i < |bs| ==> WellFormed(bs[i])
  }

  lemma {:induction false} BusyboxSplit(bs: seq<Block>, b: nat)
    requires b < |bs|
    ensures Busybox(bs) == Busybox(bs[..b]) + [LinkMac(bs[b].mac)] + (bs[b].body + Busybox(bs[b + 1..]))
  {
    if b == 0 {
      assert bs[..0] == [];
    } else {
      BusyboxSplit(bs[1..], b - 1);
      assert bs[1..][..b - 1] == bs[..b][1..] && bs[1..][b..] == bs[b + 1..];
    }
  }

  lemma {:induction false} NetToolsSplit(bs: seq<Block>, b: nat)
    requires b < |bs|
    ensures NetTools(bs) == (NetTools(bs[..b]) + bs[b].body) + [EtherMac(bs[b].mac)] + NetTools(bs[b + 1..])
  {
    if b == 0 {
      assert bs[..0] == [];
    } else {
      NetToolsSplit(bs[1..], b - 1);
      assert bs[1..][..b - 1] == bs[..b][1..] && bs[1..][b..] == bs[b + 1..];
    }
  }

  lemma {:induction false} BlocksAreCalm(bs: seq<Block>, mac: string)
    requires AllWellFormed(bs)
    ensures Calm(Busybox(bs)) && Calm(NetTools(bs))
    ensures (forall i :: 0 <= i < |bs| ==> bs[i].mac != mac) ==> NoMatch(Busybox(bs), mac) && NoMatch(NetTools(bs), mac)
  {
    if bs != [] { BlocksAreCalm(bs[1..], mac); }
  }

  lemma {:induction false} FirstInetAppend(a: seq<Kind>, b: seq<Kind>)
    ensures FirstInet(a + b) == if FirstInet(a).Some? then FirstInet(a) else FirstInet(b)
  {
    if a == [] {
      assert a + b == b;
    } else {
      FirstInetAppend(a[1..], b);
      assert (a + b)[1..] == a[1..] + b;
    }
  }

  lemma {:induction false} LastInetAppend(a: seq<Kind>, b: seq<Kind>)
    ensures LastInet(a + b) == if LastInet(b).Some? then LastInet(b) else LastInet(a)
  {
    if b == [] {
      assert a + b == a;
    } else {
      var n := |b| - 1;
      LastInetAppend(a, b[..n]);
      assert (a + b)[..|a| + n] == a + b[..n];
    }
  }

  /** busybox: the block's first address if it has one, and otherwise the first address of any later block. */
  lemma BusyboxFinds(bs: seq<Block>, b: nat, mac: string)
    requires AllWellFormed(bs) && FirstWith(bs, b, mac)
    ensures Scan(Busybox(bs), mac, false, None) ==
            ToOutcome(if FirstInet(bs[b].body).Some? then FirstInet(bs[b].body) else FirstInet(Busybox(bs[b + 1..])))
  {
    var pre, post := Busybox(bs[..b]), bs[b].body + Busybox(bs[b + 1..]);
    BusyboxSplit(bs, b);
    BlocksAreCalm(bs[..b], mac);
    BlocksAreCalm(bs[b + 1..], mac);
    FirstMatchIsLink(pre, post, mac);
    FirstInetAppend(bs[b].body, Busybox(bs[b + 1..]));
  }

  /** net-tools: the block's last address if it has one; otherwise the address of another interface. */
  lemma NetToolsFinds(bs: seq<Block>, b: nat, mac: string)
    requires AllWellFormed(bs) && FirstWith(bs, b, mac)
    ensures Scan(NetTools(bs), mac, false, None) ==
            ToOutcome(if LastInet(bs[b].body).Some? then LastInet(bs[b].body)
                      else if LastInet(NetTools(bs[..b])).Some? then LastInet(NetTools(bs[..b]))
                      else FirstInet(NetTools(bs[b + 1..])))
  {
    var pre, post := NetTools(bs[..b]) + bs[b].body, NetTools(bs[b + 1..]);
    NetToolsSplit(bs, b);
    BlocksAreCalm(bs[..b], mac);
    BlocksAreCalm(bs[b + 1..], mac);
    FirstMatchIsEther(pre, post, mac);
    LastInetAppend(NetTools(bs[..b]), bs[b].body);
  }

  /** busybox: the address of the first inet line of the interface's block. */
  lemma BusyboxAddress(bs: seq<Block>, b: nat, mac: string, i: nat)
    requires AllWellFormed(bs) && FirstWith(bs, b, mac)
    requires i < |bs[b].body| && bs[b].body[i].Inet? && NoInet(bs[b].body[..i])
    ensures Scan(Busybox(bs), mac, false, None) == Found(bs[b].body[i].ip)
  {
    BusyboxFinds(bs, b, mac);
    var body := bs[b].body;
    NoneThere(body[..i]);
    FirstInetAppend(body[..i], body[i..]);
    assert body == body[..i] + body[i..];
  }

  /** net-tools: that of the last one. */
  lemma NetToolsAddress(bs: seq<Block>, b: nat, mac: string, i: nat)
    requires AllWellFormed(bs) && FirstWith(bs, b, mac)
    requires i < |bs[b].body| && bs[b].body[i].Inet? && NoInet(bs[b].body[i + 1..])
    ensures Scan(NetTools(bs), mac, false, None) == Found(bs[b].body[i].ip)
  {
    NetToolsFinds(bs, b, mac);
    var body := bs[b].body;
    NoneThere(body[i + 1..]);
    LastInetAppend(body[..i + 1], body[i + 1..]);
    assert body == body[..i + 1] + body[i + 1..];
  }
}
