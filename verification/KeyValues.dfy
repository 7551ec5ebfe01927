/** Reading `VBoxManage list ...` output: the line scanner and the `(.+):\s+(.*)` split of vbm.go. */
module KeyValues {
  import opened Basics

  datatype KeyValue = KeyValue(key: string, val: string)

  /** `\s` of Go's regular expressions. */
  predicate IsSpace(c: char) {
    c == ' ' || c == '\t' || c == '\n' || c == '\U{0C}' || c == '\r'
  }

  // ----- bufio.ScanLines

  function DropCR(line: string): string {
    if line != [] && line[|line| - 1] == '\r' then line[..|line| - 1] else line
  }

  /** Where the first line of `text` ends. */
  function LineEnd(text: string): (i: nat)
    ensures i <= |text| && '\n' !in text[..i] && (i < |text| ==> text[i] == '\n')
  {
    if text == [] || text[0] == '\n' then 0 else
      var i := 1 + LineEnd(text[1..]);
      assert text[..i] == [text[0]] + text[1..][..i - 1];
      i
  }

  function Lines(text: string): seq<string>
    decreases |text|
  {
    if text == [] then []
    else
      var i := LineEnd(text);
      [DropCR(text[..i])] + if i == |text| then [] else Lines(text[i + 1..])
  }

  /** The text of a line as the scanner gives it back unchanged. */
  predicate IsLine(line: string) {
    '\n' !in line && (line != [] ==> line[|line| - 1] != '\r')
  }

  /** Lines end as on Unix or, with `crlf`, as on Windows. */
  function Unlines(lines: seq<string>, crlf: bool): string {
    if lines == [] then [] else lines[0] + (if crlf then "\r" else "") + ['\n'] + Unlines(lines[1..], crlf)
  }

  lemma {:induction false} LineEndOf(line: string, rest: string)
    requires '\n' !in line
    ensures LineEnd(line + ['\n'] + rest) == |line|
  {
    if line != [] {
      LineEndOf(line[1..], rest);
      assert (line + ['\n'] + rest)[1..] == line[1..] + ['\n'] + rest;
    }
  }

  lemma FirstLine(line: string, rest: string)
    requires '\n' !in line
    ensures Lines(line + ['\n'] + rest) == [DropCR(line)] + Lines(rest)
  {
    var text := line + ['\n'] + rest;
    LineEndOf(line, rest);
    assert text[..|line|] == line && text[|line| + 1..] == rest;
  }

  lemma Dropped(line: string)
    requires IsLine(line)
    ensures DropCR(line) == line && DropCR(line + "\r") == line && '\n' !in line + "\r"
  {
  }

  lemma {:induction false} LinesOfUnlines(lines: seq<string>, crlf: bool)
    requires forall i :: 0 <= i < |lines| ==> IsLine(lines[i])
    ensures Lines(Unlines(lines, crlf)) == lines
  {
    if lines != [] {
      var line, rest := lines[0], lines[1..];
      Dropped(line);
      LinesOfUnlines(rest, crlf);
      var ended := line + if crlf then "\r" else "";
      assert line + "" == line;
      FirstLine(ended, Unlines(rest, crlf));
      assert lines == [line] + rest;
    }
  }

  // ----- reColonLine

  /** A colon at `i`, after at least one character and before white space. */
  predicate ColonAt(line: string, i: int) {
    1 <= i && i + 1 < |line| && line[i] == ':' && IsSpace(line[i + 1])
  }

  /** The last such position below `n`, or 0: `.+` is greedy. */
  function LastColon(line: string, n: nat): (i: nat)
    requires n <= |line|
    ensures i == 0 || (i < n && ColonAt(line, i))
    ensures forall j :: i < j < n ==> !ColonAt(line, j)
  {
    if n == 0 then 0 else if ColonAt(line, n - 1) then n - 1 else LastColon(line, n - 1)
  }

  function SkipSpace(s: string): (r: string) {
    if s != [] && IsSpace(s[0]) then SkipSpace(s[1..]) else s
  }

  /** The two groups of `(.+):\s+(.*)` on a line, if it matches. */
  function SplitColon(line: string): Option<KeyValue> {
    var i := LastColon(line, |line|);
    if i == 0 then None else Some(KeyValue(line[..i], SkipSpace(line[i + 1..])))
  }

  /** A value the split gives back: it holds no colon before white space and begins with none. */
  predicate Plain(val: string) {
    (val != [] ==> !IsSpace(val[0])) && forall i :: 0 <= i < |val| - 1 ==> !(val[i] == ':' && IsSpace(val[i + 1]))
  }

  /** What may stand between the colon and the value on a line. */
  predicate Padding(ws: string) {
    ws != [] && (forall i :: 0 <= i < |ws| ==> IsSpace(ws[i])) && '\n' !in ws && ws[|ws| - 1] != '\r'
  }

  lemma {:induction false} SkipAll(ws: string, val: string)
    requires (forall i :: 0 <= i < |ws| ==> IsSpace(ws[i])) && (val != [] ==> !IsSpace(val[0]))
    ensures SkipSpace(ws + val) == val
  {
    if ws == [] {
      assert ws + val == val;
    } else {
      SkipAll(ws[1..], val);
      assert (ws + val)[1..] == ws[1..] + val;
    }
  }

  /** However the value is padded, the line splits into key and value. */
  lemma SplitOfPrinted(kv: KeyValue, ws: string)
    requires kv.key != [] && Plain(kv.val) && Padding(ws)
    ensures SplitColon(kv.key + ":" + ws + kv.val) == Some(kv)
  {
    var line, at := kv.key + ":" + ws + kv.val, |kv.key| + 1 + |ws|;
    var i := LastColon(line, |line|);
    assert line[|kv.key| + 1] == ws[0];
    assert ColonAt(line, |kv.key|);
    forall j | |kv.key| < j < |line|
      ensures !ColonAt(line, j)
    {
      if j < at {
        assert line[j] == ws[j - |kv.key| - 1];
      } else {
        assert line[j] == kv.val[j - at] && (j + 1 < |line| ==> line[j + 1] == kv.val[j + 1 - at]);
      }
    }
    assert i == |kv.key| && line[..i] == kv.key;
    assert line[i + 1..] == ws + kv.val;
    SkipAll(ws, kv.val);
  }

  /** What `parseKeyValues` hands to its callback, in order. */
  function Pairs(lines: seq<string>): seq<KeyValue> {
    if lines == [] then []
    else
      var last := SplitColon(lines[|lines| - 1]);
      Pairs(lines[..|lines| - 1]) + if last.Some? then [last.value] else []
  }

  function Printed(kv: KeyValue, ws: string): string {
    kv.key + ":" + ws + kv.val
  }

  /** The padding of each line. */
  type Layout = nat -> string

  function PrintAll(kvs: seq<KeyValue>, pad: Layout): seq<string> {
    seq(|kvs|, i requires 0 <= i < |kvs| => Printed(kvs[i], pad(i)))
  }

  ghost predicate Pads(pad: Layout) {
    forall i :: Padding(pad(i))
  }

  predicate Printable(kv: KeyValue) {
    kv.key != [] && Plain(kv.val) && IsLine(kv.key) && IsLine(kv.val)
  }

  /** Printing pairs as lines of text and reading the text gives the pairs back. */
  lemma {:induction false} PairsOfPrinted(kvs: seq<KeyValue>, pad: Layout)
    requires Pads(pad) && forall i :: 0 <= i < |kvs| ==> Printable(kvs[i])
    ensures Pairs(PrintAll(kvs, pad)) == kvs
  {
    if kvs != [] {
      var n := |kvs| - 1;
      PairsOfPrinted(kvs[..n], pad);
      assert PrintAll(kvs, pad)[..n] == PrintAll(kvs[..n], pad);
      SplitOfPrinted(kvs[n], pad(n));
      assert kvs == kvs[..n] + [kvs[n]];
    }
  }

  lemma PrintedIsLine(kv: KeyValue, ws: string)
    requires Printable(kv) && Padding(ws)
    ensures IsLine(Printed(kv, ws))
  {
    var line := Printed(kv, ws);
    assert forall c :: c in line ==> c in kv.key || c in ":" || c in ws || c in kv.val;
    assert kv.val != [] ==> line[|line| - 1] == kv.val[|kv.val| - 1];
    assert kv.val == [] ==> line[|line| - 1] == ws[|ws| - 1];
  }

  lemma TextRoundTrip(kvs: seq<KeyValue>, pad: Layout, crlf: bool)
    requires Pads(pad) && forall i :: 0 <= i < |kvs| ==> Printable(kvs[i])
    ensures Pairs(Lines(Unlines(PrintAll(kvs, pad), crlf))) == kvs
  {
    forall i | 0 <= i < |kvs|
      ensures IsLine(PrintAll(kvs, pad)[i])
    {
      PrintedIsLine(kvs[i], pad(i));
    }
    LinesOfUnlines(PrintAll(kvs, pad), crlf);
    PairsOfPrinted(kvs, pad);
  }
}
