/** `ReaderWithProgress.Read`: the progress marks printed while an ISO image is downloaded. */
module ProgressReader {

  datatype Mark = Percent(n: int) | Dot

  const MAX_INT64 := 0x7fff_ffff_ffff_ffff

  /** Division of Go, which rounds towards zero. */
  function Quotient(a: int, b: int): int
    requires b != 0
  {
    if (a >= 0) == (b > 0) then Abs(a) / Abs(b) else -(Abs(a) / Abs(b))
  }

  function Abs(a: int): nat {
    if a < 0 then -a else a
  }

  /** The mark for one even percentage. */
  function MarkOf(n: int): Mark {
    if n % 10 == 0 then Percent(n) else Dot
  }

  /** The marks for every even percentage from 0 to `p`. */
  function Marks(p: int): (r: seq<Mark>) {
    if p < 0 then [] else if p % 2 == 1 then Marks(p - 1) else Marks(p - 2) + [MarkOf(p)]
  }

  class Reader {
    var transferred: int
    var expected: int
    var next: int
    var out: seq<Mark>

    /** What has been printed is a function of the bytes read: with the length unknown (-1), nothing. */
    ghost predicate Valid()
      reads this
    {
      && 0 <= transferred && -1 <= expected && 0 <= next && next % 2 == 0
      && out == Marks(next - 2)
      && (transferred == 0 || expected == -1 ==> next == 0)
      && (expected == 0 ==> transferred == 0)
      && (transferred > 0 && expected > 0 ==> InStep(Quotient(100 * transferred, expected), next))
    }

    /** `length` is the Content-Length of the response, -1 if the server sends none. */
    constructor (length: int)
      requires length >= -1
      ensures Valid() && transferred == 0 && expected == length
    {
      transferred, expected, next, out := 0, length, 0, [];
    }

    /** The printing loop: the marks from `next` on that `percentage` has reached. */
    method PrintUpTo(percentage: int)
      requires 0 <= next && next % 2 == 0 && out == Marks(next - 2)
      modifies this`next, this`out
      ensures next % 2 == 0 && old(next) <= next && out == Marks(next - 2) && old(out) <= out
      ensures if percentage < old(next) then next == old(next) else next - 2 <= percentage < next
    {
      while percentage >= next
        invariant old(next) <= next && next % 2 == 0 && out == Marks(next - 2) && old(out) <= out
        invariant next - 2 <= percentage || next == old(next)
        decreases percentage - next
      {
        if next % 10 == 0 {
          out := out + [Percent(next)];
        } else if next % 2 == 0 {
          out := out + [Dot];
        }
        next := next + 2;
      }
    }

    /**
      * One read of `n` bytes; a read of none prints nothing. Bytes on a body declared empty divide by zero,
      * and only then the call panics.
      */
    method Read(n: nat) returns (panics: bool)
      requires Valid() && 100 * (transferred + n) <= MAX_INT64
      modifies this
      ensures panics <==> n > 0 && old(expected) == 0
      ensures !panics ==> Valid() && expected == old(expected) && transferred == old(transferred) + n
      ensures !panics ==> old(out) <= out
    {
      if n > 0 {
        transferred := transferred + n;
        if expected == 0 { return true; }
        var percentage := Quotient(100 * transferred, expected);
        Percentages(transferred - n, transferred, expected);
        PrintUpTo(percentage);
      }
      panics := false;
    }
  }

  /** `next` is the first even percentage after `percentage`. */
  predicate InStep(percentage: int, next: int) {
    0 <= percentage && next - 2 <= percentage < next
  }

  /** For a known length the percentage does not fall, and for an unknown one it is negative. */
  lemma Percentages(a: nat, b: nat, expected: int)
    requires a <= b && 0 < b && (expected > 0 || expected == -1)
    ensures expected > 0 ==> 0 <= Quotient(100 * a, expected) <= Quotient(100 * b, expected)
    ensures expected > 0 ==> Quotient(100 * b, expected) == 100 * b / expected
    ensures expected == -1 ==> Quotient(100 * b, expected) < 0
  {
    if expected > 0 {
      QuotientsGrow(100 * a, 100 * b, expected);
    }
  }

  lemma QuotientsGrow(x: nat, y: nat, d: nat)
    requires x <= y && 0 < d
    ensures 0 <= x / d <= y / d
  {
    Quotients(d, x / d, x % d, y / d, y % d);
  }

  lemma Quotients(d: nat, q: int, u: nat, r: int, v: nat)
    requires u < d && v < d && d * q + u <= d * r + v
    ensures q <= r
  {
    if q >= r + 1 {
      assert d * q >= d * (r + 1) by { Scaled(d, r + 1, q); }
    }
  }

  lemma Scaled(d: nat, a: int, b: int)
    requires a <= b
    ensures d * a <= d * b
  {
  }

  function Sum(chunks: seq<nat>): nat {
    if chunks == [] then 0 else Sum(chunks[..|chunks| - 1]) + chunks[|chunks| - 1]
  }

  lemma {:induction false} SumOfPrefix(chunks: seq<nat>, i: nat)
    requires i <= |chunks|
    ensures Sum(chunks[..i]) <= Sum(chunks)
    decreases |chunks| - i
  {
    if i < |chunks| {
      SumOfPrefix(chunks, i + 1);
      assert chunks[..i + 1][..i] == chunks[..i];
    } else {
      assert chunks[..i] == chunks;
    }
  }

  /** However the bytes were cut into reads, the output is the marks up to floor(100 * total / expected). */
  method ReadAll(length: int, chunks: seq<nat>) returns (out: seq<Mark>)
    requires (length > 0 || length == -1) && 100 * Sum(chunks) <= MAX_INT64
    ensures out == if Sum(chunks) == 0 || length == -1 then [] else Marks(100 * Sum(chunks) / length)
  {
    var r := new Reader(length);
    for i := 0 to |chunks|
      invariant r.Valid() && r.expected == length && r.transferred == Sum(chunks[..i]) && fresh(r)
    {
      assert chunks[..i + 1][..i] == chunks[..i];
      SumOfPrefix(chunks, i + 1);
      var panics := r.Read(chunks[i]);
    }
    assert chunks[..|chunks|] == chunks;
    ghost var total := Sum(chunks);
    if total > 0 && length > 0 {
      Percentages(0, total, length);
      MarksOfNext(Quotient(100 * total, length), r.next);
    }
    out := r.out;
  }

  lemma {:induction false} MarksOfNext(percentage: int, next: int)
    requires next % 2 == 0 && InStep(percentage, next)
    ensures Marks(percentage) == Marks(next - 2)
  {
    if percentage % 2 == 1 {
      assert percentage - 1 == next - 2;
    } else {
      assert percentage == next - 2;
    }
  }

  lemma {:induction false} MarkAt(p: int, i: nat)
    requires p >= 0
    ensures |Marks(p)| == p / 2 + 1 && (i <= p / 2 ==> Marks(p)[i] == MarkOf(2 * i))
    decreases p
  {
    if p % 2 == 1 {
      MarkAt(p - 1, i);
    } else if p >= 2 {
      MarkAt(p - 2, i);
    }
  }

  /** The marks are those of the even percentages, in order, and later output extends earlier output. */
  lemma MarksInOrder(p: int, q: int)
    requires 0 <= p <= q
    ensures |Marks(q)| == q / 2 + 1 && (forall i :: 0 <= i < |Marks(q)| ==> Marks(q)[i] == MarkOf(2 * i))
    ensures Marks(p) <= Marks(q)
  {
    MarkAt(p, 0);
    MarkAt(q, 0);
    forall i | 0 <= i < |Marks(q)|
      ensures Marks(q)[i] == MarkOf(2 * i) && (i < |Marks(p)| ==> Marks(p)[i] == Marks(q)[i])
    {
      MarkAt(p, i);
      MarkAt(q, i);
    }
  }
}
