/** `createDiskImage`: a tar archive followed by zeros up to the size of the disk. */
module DiskImage {
  import opened Basics

  const BLOCK_SIZE: nat := 32 * 1024

  function Zeros(n: nat): (s: seq<bv8>)
    ensures |s| == n && forall i :: 0 <= i < n ==> s[i] == 0
  {
    seq(n, i => 0)
  }

  function Max(a: int, b: int): int {
    if a < b then b else a
  }

  /** `int64(size) << 20`. */
  function SizeBytes(size: int): int {
    var x := size * 0x10_0000 % 0x1_0000_0000_0000_0000;
    if x < 0x8000_0000_0000_0000 then x else x - 0x1_0000_0000_0000_0000
  }

  /** The pipe to VBoxManage: an `io.Writer`, which takes everything or reports an error and may then have taken a part.
      It breaks at the first write that goes beyond `limit` bytes, if there is a limit. */
  class Pipe {
    const limit: Option<nat>
    var sent: seq<bv8>

    constructor (limit: Option<nat>)
      ensures sent == [] && this.limit == limit
    {
      this.limit, sent := limit, [];
    }

    predicate Takes(n: nat) {
      limit.None? || n <= limit.value
    }

    method Write(p: seq<bv8>) returns (k: nat, ok: bool)
      modifies this
      ensures ok <==> Takes(|old(sent)| + |p|)
      ensures k <= |p| && sent == old(sent) + p[..k] && (ok ==> k == |p|)
    {
      ok := Takes(|sent| + |p|);
      var taken: int := *;
      k := if ok || taken < 0 || taken > |p| then |p| else taken;
      sent := sent + p[..k];
    }
  }

  /** Sends exactly `n` zeros, block by block, or reports an error, exactly when the pipe does not take them. */
  method ZeroFill(w: Pipe, n: int) returns (ok: bool)
    modifies w
    ensures ok ==> w.sent == old(w.sent) + Zeros(Max(n, 0))
    ensures if n > 0 then ok <==> w.Takes(|old(w.sent)| + n) else ok
    ensures exists k :: 0 <= k <= Max(n, 0) && w.sent == old(w.sent) + Zeros(k)
  {
    var zeros := Zeros(BLOCK_SIZE);
    var left := n;
    assert old(w.sent) + Zeros(0) == w.sent;
    while left > 0
      invariant left <= n && (n >= 0 ==> 0 <= left) && (n < 0 ==> left == n)
      invariant w.sent == old(w.sent) + Zeros(Max(n, 0) - Max(left, 0))
      invariant left < n ==> w.Takes(|w.sent|)
      decreases left
    {
      var chunk := if left > BLOCK_SIZE then zeros else zeros[..left];
      var k;
      k, ok := w.Write(chunk);
      assert chunk[..k] == Zeros(k);
      assert Zeros(Max(n, 0) - left) + Zeros(k) == Zeros(Max(n, 0) - left + k);
      if !ok { return; }
      left := left - k;
    }
    ok := true;
  }

  /** The archive, and zeros up to the size of the disk. */
  function Image(size: int, tar: seq<bv8>): seq<bv8> {
    tar + Zeros(Max(SizeBytes(size) - |tar|, 0))
  }

  /**
    * Without errors the pipe carries the archive and then zeros, max(size, archive) bytes in all; after an
    * error it carries the beginning of that. Below 2^43 MB, which no disk reaches, the shift is exact.
    */
  method CreateDiskImage(w: Pipe, size: int, tar: seq<bv8>) returns (ok: bool)
    requires w.sent == []
    modifies w
    ensures w.sent <= Image(size, tar) && (ok ==> w.sent == Image(size, tar))
    ensures ok <==> w.Takes(|Image(size, tar)|)
    ensures ok && 0 <= size < 0x800_0000_0000 ==> |w.sent| == Max(size * 0x10_0000, |tar|)
  {
    var n;
    n, ok := w.Write(tar);            // io.Copy
    assert w.sent == tar[..n];
    if !ok { return; }
    assert tar[..n] == tar;
    var left := SizeBytes(size) - n;
    if left > 0 {
      ok := ZeroFill(w, left);
    }
  }
}
