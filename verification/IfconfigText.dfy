/** From lines of text to the addresses found in them: what `ifconfig` prints, in either layout, is understood. */
module IfconfigText {
  import opened Basics
  import opened Ifconfig

  // ----- searching in a line

  predicate OccursAt(s: string, pat: string, j: nat) {
    j <= |s| && pat <= s[j..]
  }

  /** `Index` is the first occurrence. */
  lemma {:induction false} FirstOccurrence(s: string, pat: string)
    ensures Index(s, pat) == None <==> forall j: nat :: !OccursAt(s, pat, j)
    ensures Index(s, pat).Some? ==> OccursAt(s, pat, Index(s, pat).value)
    ensures Index(s, pat).Some? ==> forall j: nat :: j < Index(s, pat).value ==> !OccursAt(s, pat, j)
  {
    assert s[0..] == s;
    if pat <= s {
      assert OccursAt(s, pat, 0);
    } else if s != [] {
      var rest := s[1..];
      FirstOccurrence(rest, pat);
      assert !OccursAt(s, pat, 0);
      forall j: nat | 0 < j ensures OccursAt(s, pat, j) == OccursAt(rest, pat, j - 1) {
        if j <= |s| { assert rest[j - 1..] == s[j..]; }
      }
      forall j: nat ensures OccursAt(rest, pat, j) == OccursAt(s, pat, j + 1) {
        if j <= |rest| { assert rest[j..] == s[j + 1..]; }
      }
    }
  }

  lemma IndexIs(s: string, pat: string, at: nat)
    requires OccursAt(s, pat, at) && forall j: nat :: j < at ==> !OccursAt(s, pat, j)
    ensures Index(s, pat) == Some(at)
  {
    FirstOccurrence(s, pat);
    if Index(s, pat).Some? { assert OccursAt(s, pat, Index(s, pat).value); }
  }

  lemma CharAt(s: string, pat: string, j: nat, k: nat)
    requires OccursAt(s, pat, j) && k < |pat|
    ensures j + k < |s| && s[j + k] == pat[k]
  {
    assert s[j..][k] == pat[k];
  }

  /** A line that lacks one of the pattern's characters does not have the pattern. */
  lemma Lacks(s: string, pat: string, k: nat)
    requires k < |pat| && pat[k] !in s
    ensures !Has(s, pat)
  {
    forall j: nat ensures !OccursAt(s, pat, j) {
      if OccursAt(s, pat, j) { CharAt(s, pat, j, k); }
    }
  }

  ghost predicate Has(s: string, pat: string) {
    exists j: nat :: OccursAt(s, pat, j)
  }

  lemma HasIff(s: string, pat: string)
    ensures HasText(s, pat) <==> Has(s, pat)
  {
    FirstOccurrence(s, pat);
  }

  lemma OccursInPrefix(a: string, b: string, pat: string, j: nat)
    requires j + |pat| <= |a| && OccursAt(a + b, pat, j)
    ensures OccursAt(a, pat, j)
  {
    assert pat == (a + b)[j..][..|pat|] == a[j..][..|pat|];
  }

  /** The first occurrence comes right after a text without the pattern, for a pattern that cannot overlap itself. */
  lemma FoundAfter(pre: string, pat: string, post: string)
    requires pat != [] && (forall k :: 0 < k < |pat| ==> pat[k] != pat[0]) && !Has(pre, pat)
    ensures Index(pre + pat + post, pat) == Some(|pre|)
  {
    var s := pre + pat + post;
    assert s[|pre|..] == pat + post;
    forall j: nat | j < |pre| ensures !OccursAt(s, pat, j) {
      if OccursAt(s, pat, j) {
        if j + |pat| <= |pre| {
          OccursInPrefix(pre, pat + post, pat, j);
        } else {
          CharAt(s, pat, j, |pre| - j);
        }
      }
    }
    IndexIs(s, pat, |pre|);
  }

  lemma StillHasText(s: string, pat: string, post: string)
    requires HasText(s, pat)
    ensures HasText(s + post, pat)
  {
    FirstOccurrence(s, pat);
    FirstOccurrence(s + post, pat);
    var j := Index(s, pat).value;
    assert (s + post)[j..] == s[j..] + post;
    assert OccursAt(s + post, pat, j);
  }

  lemma UpToSpaceIs(word: string, rest: string)
    requires ' ' !in word
    ensures UpToSpace(word + " " + rest) == Some(word)
  {
    forall j: nat ensures !OccursAt(word, " ", j) {
      if OccursAt(word, " ", j) { CharAt(word, " ", j, 0); }
    }
    FoundAfter(word, " ", rest);
    assert (word + " " + rest)[..|word|] == word;
  }

  lemma NoSpace(s: string)
    ensures UpToSpace(s) == None <==> ' ' !in s
  {
    FirstOccurrence(s, " ");
    if i :| 0 <= i < |s| && s[i] == ' ' {
      assert " " <= s[i..];
      assert OccursAt(s, " ", i);
    }
    if j: nat :| OccursAt(s, " ", j) { CharAt(s, " ", j, 0); }
  }

  /** The separator is `core`, or `core` and a space; the word before the space does not have it. */
  ghost predicate Separates(sep: string, core: string, word: string) {
    (sep == core || sep == core + " ") && core != [] && ' ' !in core && ' ' !in word && !Has(word, core)
  }

  /** No separator begins within such a word. */
  lemma NoneInWord(sep: string, core: string, word: string, tail: string, j: nat)
    requires Separates(sep, core, word) && OccursAt(word + " " + tail, sep, j)
    ensures j > |word|
  {
    var rest := word + " " + tail;
    assert core <= sep && core <= rest[j..];
    if j <= |word| {
      assert OccursAt(rest, core, j);
      if j + |core| <= |word| {
        assert rest == word + (" " + tail);
        OccursInPrefix(word, " " + tail, core, j);
      } else {
        CharAt(rest, core, j, |word| - j);
      }
    }
  }

  /** Splitting at the separator and then at a space gives the word after the first separator, whatever follows it. */
  lemma WordAfter(line: string, at: nat, sep: string, core: string, word: string, tail: string)
    requires Separates(sep, core, word)
    requires Index(line, sep) == Some(at) && at + |sep| <= |line| && line[at + |sep|..] == word + " " + tail
    ensures SecondPart(line, sep).Some? && UpToSpace(SecondPart(line, sep).value) == Some(word)
  {
    var rest := line[at + |sep|..];
    SecondPartAt(line, at, sep, rest);
    FirstPartKeeps(rest, sep, core, word, tail);
  }

  lemma SecondPartAt(line: string, at: nat, sep: string, rest: string)
    requires Index(line, sep) == Some(at) && at + |sep| <= |line| && line[at + |sep|..] == rest
    ensures SecondPart(line, sep) == Some(FirstPart(rest, sep))
  {
  }

  lemma FirstPartKeeps(rest: string, sep: string, core: string, word: string, tail: string)
    requires Separates(sep, core, word) && rest == word + " " + tail
    ensures UpToSpace(FirstPart(rest, sep)) == Some(word)
  {
    IndexInRange(rest, sep);
    var j := Index(rest, sep);
    if j.Some? {
      FirstOccurrence(rest, sep);
      NoneInWord(sep, core, word, tail, j.value);
      assert rest[..j.value] == word + " " + rest[|word| + 1..j.value];
      UpToSpaceIs(word, rest[|word| + 1..j.value]);
    } else {
      UpToSpaceIs(word, tail);
    }
  }

  // ----- trimming

  ghost predicate AllSpace(s: string) {
    forall i :: 0 <= i < |s| ==> IsSpace(s[i])
  }

  /** A text that trimming leaves alone. */
  ghost predicate Solid(s: string) {
    s != [] && !IsSpace(s[0]) && !IsSpace(s[|s| - 1])
  }

  lemma {:induction false} TrimIndent(indent: string, s: string)
    requires AllSpace(indent) && s != [] && !IsSpace(s[0])
    ensures TrimLeft(indent + s) == s
  {
    if indent == [] {
      assert indent + s == s;
    } else {
      TrimIndent(indent[1..], s);
      assert (indent + s)[1..] == indent[1..] + s;
    }
  }

  lemma {:induction false} TrimPadding(s: string, pad: string)
    requires AllSpace(pad) && s != [] && !IsSpace(s[|s| - 1])
    ensures TrimRight(s + pad) == s
  {
    if pad == [] {
      assert s + pad == s;
    } else {
      var n := |pad| - 1;
      TrimPadding(s, pad[..n]);
      assert (s + pad)[..|s| + n] == s + pad[..n];
    }
  }

  lemma Trimmed(indent: string, s: string, pad: string)
    requires AllSpace(indent) && AllSpace(pad) && Solid(s)
    ensures TrimRight(TrimLeft(indent + s + pad)) == s
  {
    assert indent + s + pad == indent + (s + pad);
    TrimIndent(indent, s + pad);
    TrimPadding(s, pad);
  }

  // ----- the lines that matter

  /** An address line: `inet addr:A  Bcast:...` in busybox, `inet A  netmask ...` in net-tools. */
  datatype InetLine = InetLine(indent: string, ip: string, tail: string, pad: string)

  function BusyboxLine(l: InetLine): string {
    "inet addr:" + l.ip + " " + l.tail
  }

  function NetToolsLine(l: InetLine): string {
    "inet " + l.ip + " " + l.tail
  }

  /** The line has none of the words by which other lines are recognised. */
  ghost predicate Plausible(l: InetLine, busybox: bool) {
    && AllSpace(l.indent) && AllSpace(l.pad)
    && l.tail != [] && !IsSpace(l.tail[|l.tail| - 1])
    && Separates(if busybox then "addr:" else "inet ", if busybox then "addr:" else "inet", l.ip)
    && var line := if busybox then BusyboxLine(l) else NetToolsLine(l);
       !Has(line, "Link") && !Has(line, "ether") && (!busybox ==> !Has(line, "addr:"))
  }

  function BusyboxInet(l: InetLine): string {
    l.indent + BusyboxLine(l) + l.pad
  }

  function NetToolsInet(l: InetLine): string {
    l.indent + NetToolsLine(l) + l.pad
  }

  /** A line that starts with `inet` and mentions no link is an address line. */
  lemma IsInetLine(indent: string, line: string, pad: string)
    requires AllSpace(indent) && AllSpace(pad) && Solid(line)
    requires !Has(line, "Link") && !Has(line, "ether") && "inet " <= line
    ensures var a := SecondPart(line, "addr:");
            var v := if a.Some? then a else SecondPart(line, "inet ");
            var w := if v.Some? then UpToSpace(v.value) else None;
            Classify(indent + line + pad) == if w.Some? then Inet(w.value) else Panics
  {
    Trimmed(indent, line, pad);
    HasIff(line, "Link");
    HasIff(line, "ether");
    assert line[4] == ' ';
  }

  lemma BusyboxInetIs(l: InetLine)
    requires Plausible(l, true)
    ensures Classify(BusyboxInet(l)) == Inet(l.ip)
  {
    var rest := l.ip + " " + l.tail;
    var line := BusyboxLine(l);
    assert line == "inet " + "addr:" + rest;
    assert line[|line| - 1] == l.tail[|l.tail| - 1];
    IsInetLine(l.indent, line, l.pad);
    AddrAt(line, rest);
    WordAfter(line, 5, "addr:", "addr:", l.ip, l.tail);
  }

  lemma AddrAt(line: string, rest: string)
    requires line == "inet " + "addr:" + rest
    ensures Index(line, "addr:") == Some(5) && line[10..] == rest
  {
    Lacks("inet ", "addr:", 0);
    FoundAfter("inet ", "addr:", rest);
  }

  lemma NetToolsInetIs(l: InetLine)
    requires Plausible(l, false)
    ensures Classify(NetToolsInet(l)) == Inet(l.ip)
  {
    var rest := l.ip + " " + l.tail;
    var line := NetToolsLine(l);
    assert line == [] + "inet " + rest;
    assert line[|line| - 1] == l.tail[|l.tail| - 1];
    IsInetLine(l.indent, line, l.pad);
    HasIff(line, "addr:");
    assert line[5..] == rest;
    WordAfter(line, 0, "inet ", "inet", l.ip, l.tail);
  }

  /** An address line of net-tools with `x` after the word `inet` makes the search panic exactly if `x` has no space. */
  lemma CutOffInetIff(indent: string, x: string, pad: string)
    requires AllSpace(indent) && AllSpace(pad) && Solid("inet " + x)
    requires !Has("inet " + x, "Link") && !Has("inet " + x, "ether") && !Has("inet " + x, "addr:") && !Has(x, "inet ")
    ensures Classify(indent + ("inet " + x) + pad) == Panics <==> ' ' !in x
  {
    var line := "inet " + x;
    IsInetLine(indent, line, pad);
    HasIff(line, "addr:");
    assert line[5..] == x;
    HasIff(x, "inet ");
    NoSpace(x);
  }

  // ----- exactly which lines panic

  /** `v` is what follows the first `sep` in `line`, up to the next one or the end. */
  ghost predicate SecondPiece(line: string, sep: string, v: string) {
    exists i: nat :: FirstAt(line, sep, i) && UpToNext(line[i + |sep|..], sep, v)
  }

  ghost predicate UpToNext(rest: string, sep: string, v: string) {
    || (v == rest && !Has(rest, sep))
    || (v <= rest && OccursAt(rest, sep, |v|) && forall j: nat :: j < |v| ==> !OccursAt(rest, sep, j))
  }

  lemma FirstPartIff(rest: string, sep: string, v: string)
    ensures FirstPart(rest, sep) == v <==> UpToNext(rest, sep, v)
  {
    FirstOccurrence(rest, sep);
    IndexInRange(rest, sep);
    if v <= rest && OccursAt(rest, sep, |v|) && forall j: nat :: j < |v| ==> !OccursAt(rest, sep, j) {
      IndexIs(rest, sep, |v|);
    }
  }

  ghost predicate FirstAt(line: string, sep: string, i: nat) {
    OccursAt(line, sep, i) && i + |sep| <= |line| && forall j: nat :: j < i ==> !OccursAt(line, sep, j)
  }

  lemma FirstAtIff(line: string, sep: string, i: nat)
    ensures Index(line, sep) == Some(i) <==> FirstAt(line, sep, i)
  {
    FirstOccurrence(line, sep);
    IndexInRange(line, sep);
    if FirstAt(line, sep, i) { IndexIs(line, sep, i); }
  }

  lemma SecondPartNone(line: string, sep: string)
    ensures SecondPart(line, sep) == None <==> !Has(line, sep)
  {
    HasIff(line, sep);
  }

  lemma SecondPieceIff(line: string, sep: string, v: string)
    ensures SecondPart(line, sep) == Some(v) <==> SecondPiece(line, sep, v)
  {
    if SecondPart(line, sep) == Some(v) {
      IsSecondPiece(line, sep, v);
    }
    if SecondPiece(line, sep, v) {
      var i: nat :| FirstAt(line, sep, i) && UpToNext(line[i + |sep|..], sep, v);
      FirstAtIff(line, sep, i);
      FirstPartIff(line[i + |sep|..], sep, v);
      SecondPartAt(line, i, sep, line[i + |sep|..]);
    }
  }

  lemma IsSecondPiece(line: string, sep: string, v: string)
    requires SecondPart(line, sep) == Some(v)
    ensures SecondPiece(line, sep, v)
  {
    IndexInRange(line, sep);
    var i := Index(line, sep).value;
    FirstAtIff(line, sep, i);
    FirstPartIff(line[i + |sep|..], sep, v);
  }

  /** What is taken for the address in an address line, with all that follows. */
  ghost predicate AddressPiece(line: string, v: string) {
    SecondPiece(line, if Has(line, "addr:") then "addr:" else "inet ", v)
  }

  /** A line cut off after a MAC address or an IP address: an `ether` or an `inet` line whose value is not followed by a
      space, or is not there. */
  ghost predicate CutOffLine(line: string) {
    && !Has(line, "Link")
    && if Has(line, "ether") then exists v :: SecondPiece(line, "ether ", v) && ' ' !in v
       else "inet" <= line && !("inet6" <= line) && forall v :: AddressPiece(line, v) ==> ' ' !in v
  }

  lemma PanicsIff(raw: string)
    ensures Classify(raw).Panics? <==> CutOffLine(TrimRight(TrimLeft(raw)))
  {
    var line := TrimRight(TrimLeft(raw));
    HasIff(line, "Link");
    HasIff(line, "ether");
    if HasText(line, "ether") {
      EtherValue(line);
    } else {
      AddressValue(line);
    }
  }

  /** Which lines the search passes over: `Link` lines without a MAC address, lines that only mention `ether`, and of
      the rest all but those that begin with `inet` and not with `inet6`. */
  lemma BlankIff(raw: string)
    ensures var line := TrimRight(TrimLeft(raw));
            Classify(raw).Blank? <==>
            if Has(line, "Link") then !Has(line, "HWaddr ")
            else if Has(line, "ether") then !Has(line, "ether ")
            else !("inet" <= line) || "inet6" <= line
  {
    var line := TrimRight(TrimLeft(raw));
    HasIff(line, "Link");
    HasIff(line, "ether");
    SecondPartNone(line, "HWaddr ");
    SecondPartNone(line, "ether ");
  }

  /** So IPv6 addresses are never taken for the guest's. */
  lemma Inet6IsIgnored(indent: string, rest: string, pad: string)
    requires AllSpace(indent) && AllSpace(pad) && Solid("inet6" + rest)
    requires !Has("inet6" + rest, "HWaddr ") && !Has("inet6" + rest, "ether")
    ensures Classify(indent + ("inet6" + rest) + pad) == Blank
  {
    Trimmed(indent, "inet6" + rest, pad);
    BlankIff(indent + ("inet6" + rest) + pad);
  }

  lemma EtherValue(line: string)
    ensures var v := SecondPart(line, "ether ");
            (v.Some? && UpToSpace(v.value) == None) <==> exists v :: SecondPiece(line, "ether ", v) && ' ' !in v
  {
    var v := SecondPart(line, "ether ");
    if v.Some? {
      SecondPieceIff(line, "ether ", v.value);
      NoSpace(v.value);
    }
    forall u | SecondPiece(line, "ether ", u)
      ensures v == Some(u)
    {
      SecondPieceIff(line, "ether ", u);
    }
  }

  lemma AddressValue(line: string)
    ensures var a := SecondPart(line, "addr:");
            var v := if a.Some? then a else SecondPart(line, "inet ");
            (v == None || UpToSpace(v.value) == None) <==> forall v :: AddressPiece(line, v) ==> ' ' !in v
  {
    var a := SecondPart(line, "addr:");
    var v := if a.Some? then a else SecondPart(line, "inet ");
    SecondPartNone(line, "addr:");
    var sep := if Has(line, "addr:") then "addr:" else "inet ";
    assert v == SecondPart(line, sep);
    if v.Some? {
      SecondPieceIff(line, sep, v.value);
      NoSpace(v.value);
      assert AddressPiece(line, v.value);
    }
    forall u | AddressPiece(line, u)
      ensures v == Some(u)
    {
      SecondPieceIff(line, sep, u);
    }
  }

  /** The line with the MAC address: `eth1  Link encap:Ethernet  HWaddr M` or `ether M  txqueuelen ...`. */
  datatype MacLine = MacLine(indent: string, before: string, mac: string, tail: string, pad: string)

  function Plain(mac: string): string {
    WithoutColons(ToLower(mac))
  }

  /** The pairs of a MAC address, with or without colons between them. */
  function Joined(pairs: seq<string>, colons: bool): string {
    if pairs == [] then []
    else pairs[0] + (if colons && |pairs| > 1 then ":" else "") + Joined(pairs[1..], colons)
  }

  lemma {:induction false} WithoutColonsAppend(a: string, b: string)
    ensures WithoutColons(a + b) == WithoutColons(a) + WithoutColons(b)
  {
    if a == [] {
      assert a + b == b;
    } else {
      var h, rest := if a[0] == ':' then [] else [a[0]], a[1..];
      WithoutColonsAppend(rest, b);
      assert (a + b)[1..] == rest + b;
      assert WithoutColons(a) == h + WithoutColons(rest);
      assert WithoutColons(a + b) == h + WithoutColons(rest + b);
    }
  }

  lemma {:induction false} NoColons(s: string)
    requires ':' !in s
    ensures WithoutColons(s) == s
  {
    if s != [] { NoColons(s[1..]); }
  }

  lemma LowerAppend(a: string, b: string)
    ensures ToLower(a + b) == ToLower(a) + ToLower(b)
  {
  }

  lemma PlainStep(first: string, sep: string, more: string)
    requires ':' !in first && (sep == "" || sep == ":")
    ensures Plain(first + sep + more) == ToLower(first) + Plain(more)
  {
    LowerAppend(first + sep, more);
    LowerAppend(first, sep);
    WithoutColonsAppend(ToLower(first) + ToLower(sep), ToLower(more));
    WithoutColonsAppend(ToLower(first), ToLower(sep));
    NoColons(ToLower(first));
    assert ToLower(sep) == sep;
    assert WithoutColons(sep) == [];
  }

  /** A MAC address as `ifconfig` prints it becomes what VBoxManage prints, in lower case. */
  lemma {:induction false} PlainMac(pairs: seq<string>)
    requires forall i :: 0 <= i < |pairs| ==> ':' !in pairs[i]
    ensures Plain(Joined(pairs, true)) == ToLower(Joined(pairs, false))
  {
    if pairs != [] {
      var rest := pairs[1..];
      PlainMac(rest);
      PlainStep(pairs[0], if |pairs| > 1 then ":" else "", Joined(rest, true));
      LowerAppend(pairs[0], Joined(rest, false));
      assert pairs[0] + "" == pairs[0];
    }
  }

  lemma LowerCase()
    ensures ToLower("09:AZaz") == "09:azaz"
  {
  }

  ghost predicate LinkPlausible(l: MacLine) {
    && AllSpace(l.indent) && AllSpace(l.pad) && l.before != [] && !IsSpace(l.before[0]) && Solid(l.mac)
    && Has(l.before, "Link") && !Has(l.before, "HWaddr ") && !Has(l.mac, "HWaddr ")
  }

  function LinkLine(l: MacLine): string {
    l.indent + (l.before + "HWaddr " + l.mac) + l.pad
  }

  lemma LinkLineIs(l: MacLine)
    requires LinkPlausible(l)
    ensures Classify(LinkLine(l)) == LinkMac(Plain(l.mac))
  {
    var line := l.before + "HWaddr " + l.mac;
    Trimmed(l.indent, line, l.pad);
    HasIff(l.before, "Link");
    StillHasText(l.before, "Link", "HWaddr " + l.mac);
    assert line == l.before + ("HWaddr " + l.mac);
    MacAfter(l.before, l.mac, line);
  }

  lemma MacAfter(before: string, mac: string, line: string)
    requires line == before + "HWaddr " + mac && !Has(before, "HWaddr ") && !Has(mac, "HWaddr ")
    ensures SecondPart(line, "HWaddr ") == Some(mac)
  {
    FoundAfter(before, "HWaddr ", mac);
    assert line[|before| + 7..] == mac;
    HasIff(mac, "HWaddr ");
  }

  ghost predicate EtherPlausible(l: MacLine) {
    && AllSpace(l.indent) && AllSpace(l.pad)
    && l.tail != [] && !IsSpace(l.tail[|l.tail| - 1])
    && Separates("ether ", "ether", l.mac) && !Has("ether " + l.mac + " " + l.tail, "Link")
  }

  function EtherLine(l: MacLine): string {
    l.indent + ("ether " + l.mac + " " + l.tail) + l.pad
  }

  lemma EtherLineIs(l: MacLine)
    requires EtherPlausible(l)
    ensures Classify(EtherLine(l)) == EtherMac(Plain(l.mac))
  {
    var rest := l.mac + " " + l.tail;
    var line := "ether " + l.mac + " " + l.tail;
    Trimmed(l.indent, line, l.pad);
    HasIff(line, "Link");
    EtherAtStart(line, rest);
    WordAfter(line, 0, "ether ", "ether", l.mac, l.tail);
  }

  lemma EtherAtStart(line: string, rest: string)
    requires line == "ether " + rest
    ensures HasText(line, "ether") && Index(line, "ether ") == Some(0) && line[6..] == rest
  {
    assert line == "ether" + (" " + rest);
    StillHasText("ether", "ether", " " + rest);
  }

  // ----- whole outputs

  /** Any other line of an interface's block is one to which the search pays no attention. */
  datatype BodyLine = Address(inet: InetLine) | Other(raw: string)

  datatype Interface = Interface(link: MacLine, body: seq<BodyLine>)

  function BodyText(body: seq<BodyLine>, busybox: bool): seq<string> {
    seq(|body|, i requires 0 <= i < |body| =>
      match body[i]
      case Address(l) => if busybox then BusyboxInet(l) else NetToolsInet(l)
      case Other(raw) => raw)
  }

  function InterfaceText(i: Interface, busybox: bool): seq<string> {
    var body := BodyText(i.body, busybox);
    if busybox then [LinkLine(i.link)] + body else body + [EtherLine(i.link)]
  }

  /** The lines of an output, in the one layout or the other. */
  function Text(ifs: seq<Interface>, busybox: bool): seq<string> {
    if ifs == [] then [] else InterfaceText(ifs[0], busybox) + Text(ifs[1..], busybox)
  }

  ghost predicate Readable(i: Interface, busybox: bool) {
    && (if busybox then LinkPlausible(i.link) else EtherPlausible(i.link))
    && forall k :: 0 <= k < |i.body| ==>
         match i.body[k]
         case Address(l) => Plausible(l, busybox)
         case Other(raw) => Classify(raw).Blank?
  }

  function BlockOf(i: Interface): Block {
    Block(Plain(i.link.mac),
          seq(|i.body|, k requires 0 <= k < |i.body| =>
            if i.body[k].Address? then Inet(i.body[k].inet.ip) else Blank))
  }

  function Blocks(ifs: seq<Interface>): (r: seq<Block>)
    ensures |r| == |ifs| && forall i :: 0 <= i < |ifs| ==> r[i] == BlockOf(ifs[i])
  {
    seq(|ifs|, i requires 0 <= i < |ifs| => BlockOf(ifs[i]))
  }

  lemma BodyKinds(i: Interface, busybox: bool)
    requires Readable(i, busybox)
    ensures Kinds(BodyText(i.body, busybox)) == BlockOf(i).body
  {
    forall k | 0 <= k < |i.body| ensures Kinds(BodyText(i.body, busybox))[k] == BlockOf(i).body[k] {
      if i.body[k].Address? {
        if busybox { BusyboxInetIs(i.body[k].inet); } else { NetToolsInetIs(i.body[k].inet); }
      }
    }
  }

  lemma Append(a: seq<string>, b: seq<string>)
    ensures Kinds(a + b) == Kinds(a) + Kinds(b)
  {
  }

  lemma InterfaceKinds(i: Interface, busybox: bool)
    requires Readable(i, busybox)
    ensures var b := BlockOf(i);
            Kinds(InterfaceText(i, busybox)) ==
            if busybox then [LinkMac(b.mac)] + b.body else b.body + [EtherMac(b.mac)]
  {
    BodyKinds(i, busybox);
    var body := BodyText(i.body, busybox);
    if busybox {
      LinkLineIs(i.link);
      Append([LinkLine(i.link)], body);
    } else {
      EtherLineIs(i.link);
      Append(body, [EtherLine(i.link)]);
    }
  }

  function Layout(bs: seq<Block>, busybox: bool): seq<Kind> {
    if busybox then Busybox(bs) else NetTools(bs)
  }

  lemma {:induction false} TextKinds(ifs: seq<Interface>, busybox: bool)
    requires forall i :: 0 <= i < |ifs| ==> Readable(ifs[i], busybox)
    ensures Kinds(Text(ifs, busybox)) == Layout(Blocks(ifs), busybox)
  {
    if ifs != [] {
      TextKinds(ifs[1..], busybox);
      InterfaceKinds(ifs[0], busybox);
      Append(InterfaceText(ifs[0], busybox), Text(ifs[1..], busybox));
      assert Blocks(ifs)[1..] == Blocks(ifs[1..]);
    }
  }

  /**
    * The address of the first interface with the MAC address is found in the text of either layout: of several
    * addresses the first in busybox's layout, the last in that of net-tools. (An interface without a MAC line,
    * such as `lo`, counts there as part of the block before it, here of the one after it.)
    */
  lemma AddressIsFound(ifs: seq<Interface>, busybox: bool, b: nat, mac: string, i: nat)
    requires forall k :: 0 <= k < |ifs| ==> Readable(ifs[k], busybox)
    requires FirstWith(Blocks(ifs), b, mac)
    requires i < |ifs[b].body| && ifs[b].body[i].Address?
    requires forall j :: 0 <= j < |ifs[b].body| && (if busybox then j < i else j > i) ==> ifs[b].body[j].Other?
    ensures Scan(Kinds(Text(ifs, busybox)), mac, false, None) == Found(ifs[b].body[i].inet.ip)
  {
    TextKinds(ifs, busybox);
    BlocksAreWellFormed(ifs);
    var bs := Blocks(ifs);
    if busybox {
      NoInetBefore(ifs[b], i);
      BusyboxAddress(bs, b, mac, i);
    } else {
      NoInetAfter(ifs[b], i);
      NetToolsAddress(bs, b, mac, i);
    }
  }

  lemma NoInetBefore(f: Interface, i: nat)
    requires i < |f.body| && f.body[i].Address? && forall j :: 0 <= j < i ==> f.body[j].Other?
    ensures |BlockOf(f).body| == |f.body| && BlockOf(f).body[i] == Inet(f.body[i].inet.ip)
    ensures NoInet(BlockOf(f).body[..i])
  {
    BlockLines(f);
  }

  lemma NoInetAfter(f: Interface, i: nat)
    requires i < |f.body| && f.body[i].Address? && forall j :: i < j < |f.body| ==> f.body[j].Other?
    ensures |BlockOf(f).body| == |f.body| && BlockOf(f).body[i] == Inet(f.body[i].inet.ip)
    ensures NoInet(BlockOf(f).body[i + 1..])
  {
    BlockLines(f);
  }

  lemma BlocksAreWellFormed(ifs: seq<Interface>)
    ensures AllWellFormed(Blocks(ifs))
  {
    forall i | 0 <= i < |ifs|
      ensures WellFormed(Blocks(ifs)[i])
    {
      BlockLines(ifs[i]);
    }
  }

  lemma BlockLines(i: Interface)
    ensures |BlockOf(i).body| == |i.body|
    ensures forall k :: 0 <= k < |i.body| ==>
              BlockOf(i).body[k] == if i.body[k].Address? then Inet(i.body[k].inet.ip) else Blank
  {
  }

  /** And nothing is found when no interface has the MAC address. */
  lemma NothingIsFound(ifs: seq<Interface>, busybox: bool, mac: string)
    requires forall k :: 0 <= k < |ifs| ==> Readable(ifs[k], busybox) && Plain(ifs[k].link.mac) != mac
    ensures Scan(Kinds(Text(ifs, busybox)), mac, false, None) == NotFound
  {
    TextKinds(ifs, busybox);
    BlocksAreCalm(Blocks(ifs), mac);
    NothingMatches(Kinds(Text(ifs, busybox)), mac);
  }
}
