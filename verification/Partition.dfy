/** The boundaries of `divideFileIntoChunks`: what always holds, and exactly when they
    are a partition of the file. */
module Partition {
  import opened Files
  import opened Splitter

  function Sum(xs: seq<int>): int {
    if xs == [] then 0 else Sum(xs[..|xs| - 1]) + xs[|xs| - 1]
  }

  // The values left in `train_chunk_size`.
  function Sizes(bs: seq<int>): seq<int> {
    seq(if bs == [] then 0 else |bs| - 1, i requires 0 <= i < |bs| - 1 => bs[i + 1] - bs[i])
  }

  // Every chunk is a (possibly empty) part of the file.
  ghost predicate InBounds(size: nat, bs: seq<int>) {
    && (forall k :: 0 <= k < |bs| ==> 0 <= bs[k] <= size)
    && (forall k :: 0 <= k < |bs| - 1 ==> bs[k] <= bs[k + 1])
  }

  // ------------------------------------------------------------ laws without conditions

  lemma {:induction false} StepLaws(file: Bytes, n: nat, i: nat, reach: nat, offset: nat, next: int)
    requires i < n - 1 && IsStep(file, n, i, reach, offset, next)
    ensures offset <= next <= offset + 2 * Ideal(|file|, n, i)
    ensures offset >= |file| ==> next == offset + Ideal(|file|, n, i)
    ensures offset < |file| ==> next <= |file|
    ensures offset < |file| ==> next <= offset + Ideal(|file|, n, i) + Min(reach, Ideal(|file|, n, i))
  {
  }

  lemma {:induction false} SumOfSizes(bs: seq<int>)
    requires bs != []
    ensures Sum(Sizes(bs)) == bs[|bs| - 1] - bs[0]
    decreases |bs|
  {
    if |bs| > 1 {
      var m := |bs| - 1;
      SumOfSizes(bs[..m]);
      assert Sizes(bs)[..m - 1] == Sizes(bs[..m]);
    }
  }

  // Chunk sizes always sum to the file size, and every chunk but the last is between
  // nothing and twice its ideal share. (Chunk `i` starts where chunk `i - 1` ends by
  // the meaning of the boundaries.)
  lemma {:induction false} UnconditionalLaws(file: Bytes, n: nat, reach: nat, bs: seq<int>)
    requires n > 0 && IsDivision(file, n, reach, bs)
    ensures Sum(Sizes(bs)) == |file|
    ensures forall i :: 0 <= i < n - 1 ==> 0 <= Sizes(bs)[i] <= 2 * Ideal(|file|, n, i)
    ensures forall i :: 0 <= i < n - 1 ==> (n + 2) * Sizes(bs)[i] <= 2 * (|file| * (if i == 0 then 3 else 1))
  {
    SumOfSizes(bs);
    assert IsStep(file, n, n - 1, reach, bs[n - 1], bs[n]);
    forall i | 0 <= i < n - 1
      ensures 0 <= Sizes(bs)[i] <= 2 * Ideal(|file|, n, i)
      ensures (n + 2) * Sizes(bs)[i] <= 2 * (|file| * (if i == 0 then 3 else 1))
    {
      StepLaws(file, n, i, reach, bs[i], bs[i + 1]);
      DoubleShare(|file|, n, i, Sizes(bs)[i]);
    }
  }

  lemma {:induction false} DoubleShare(size: nat, n: nat, i: nat, chunk: nat)
    requires n > 0 && chunk <= 2 * Ideal(size, n, i)
    ensures (n + 2) * chunk <= 2 * (size * (if i == 0 then 3 else 1))
  {
    var share := Ideal(size, n, i);
    Quotient(size * Weight(i), n + 2);
    Times(chunk, 2 * share, n + 2);
    assert (2 * share) * (n + 2) == 2 * (share * (n + 2));
  }

  // ------------------------------------------------------------ the exact condition

  // How far node `i` can push its end past its start while inside the file.
  function Stride(size: nat, n: nat, reach: nat, i: nat): nat
    requires n > 0
  {
    Ideal(size, n, i) + Min(reach, Ideal(size, n, i))
  }

  function Far(size: nat, n: nat, reach: nat, k: nat): nat
    requires n > 0
  {
    if k == 0 then 0 else Far(size, n, reach, k - 1) + Stride(size, n, reach, k - 1)
  }

  // What a caller can check before dividing: at most two nodes, fewer bytes than units
  // of weight, or the boundary before the last cannot be pushed to the end of the file.
  predicate Safe(size: nat, n: nat, reach: nat)
    requires n > 0
  {
    n <= 2 || size < n + 2 || Far(size, n, reach, n - 2) < size
  }

  ghost predicate AlwaysInBounds(size: nat, n: nat, reach: nat)
    requires n > 0
  {
    forall file: Bytes, bs :: |file| == size && IsDivision(file, n, reach, bs) ==> InBounds(size, bs)
  }

  // Every division that scans of this reach allow, of every content of the file, is a
  // partition if and only if the condition holds.
  lemma {:induction false} PartitionExactly(size: nat, n: nat, reach: nat)
    requires size > 0 && n > 0 && reach >= WINDOW
    ensures Safe(size, n, reach) <==> AlwaysInBounds(size, n, reach)
  {
    if Safe(size, n, reach) {
      forall file: Bytes, bs | |file| == size && IsDivision(file, n, reach, bs)
        ensures InBounds(size, bs)
      {
        SafeIsPartition(file, n, reach, bs);
      }
    } else {
      var file, bs := OverrunFile(size, n, reach);
      assert !InBounds(size, bs);
    }
  }

  // The same of the boundaries the program computes: with any reads, and with full reads.
  ghost predicate RunsInBounds(size: nat, n: nat, short: bool) {
    forall file: Bytes, patterns: seq<seq<nat>> ::
      |file| == size && (short || patterns == []) ==> InBounds(size, Boundaries(file, n, patterns))
  }

  // For a file size and a number of nodes, the program partitions every file of that size
  // under every pattern of short reads if and only if the condition holds for the reach
  // of short reads; and with full reads, if and only if it holds for the window.
  lemma {:induction false} RunsPartitionExactly(size: nat, n: nat, short: bool)
    requires size > 0 && n > 0
    ensures Safe(size, n, Reach(short)) <==> RunsInBounds(size, n, short)
  {
    hide Safe, IsDivision, InBounds;
    PartitionExactly(size, n, Reach(short));
    if AlwaysInBounds(size, n, Reach(short)) {
      forall file: Bytes, patterns: seq<seq<nat>> | |file| == size && (short || patterns == [])
        ensures InBounds(size, Boundaries(file, n, patterns))
      {
        BoundariesDivide(file, n, patterns);
        WiderReach(file, n, Reach(patterns != []), Reach(short), Boundaries(file, n, patterns));
      }
    } else {
      var file: Bytes, bs :| |file| == size && IsDivision(file, n, Reach(short), bs) && !InBounds(size, bs);
      var patterns := DivisionIsRun(file, n, short, bs);
      assert !InBounds(size, Boundaries(file, n, patterns));
    }
  }

  // A further reach only allows more.
  lemma {:induction false} WiderReach(file: Bytes, n: nat, reach: nat, wider: nat, bs: seq<int>)
    requires n > 0 && reach <= wider && IsDivision(file, n, reach, bs)
    ensures IsDivision(file, n, wider, bs)
  {
    forall i | 0 <= i < n
      ensures IsStep(file, n, i, wider, bs[i], bs[i + 1])
    {
      assert IsStep(file, n, i, reach, bs[i], bs[i + 1]);
      if i < n - 1 {
        var t := bs[i] + Ideal(|file|, n, i);
        var r :| IsNextLine(file, t, reach, r) && bs[i + 1] == Safeguard(bs[i], Ideal(|file|, n, i), r);
        assert IsNextLine(file, t, wider, r);
      }
    }
  }

  lemma {:induction false} SmallShare(size: nat, n: nat, i: nat)
    requires n > 0 && i > 0
    ensures Ideal(size, n, i) == 0 <==> size < n + 2
  {
  }

  lemma {:induction false} FarGrows(size: nat, n: nat, reach: nat, j: nat, k: nat)
    requires n > 0 && j <= k
    ensures Far(size, n, reach, j) <= Far(size, n, reach, k)
    decreases k
  {
    if j < k {
      FarGrows(size, n, reach, j, k - 1);
    }
  }

  lemma {:induction false} BoundaryWithin(file: Bytes, n: nat, reach: nat, bs: seq<int>, k: nat)
    requires |file| > 0 && n > 0 && IsDivision(file, n, reach, bs)
    requires Safe(|file|, n, reach)
    requires k < n
    ensures 0 <= bs[k] <= |file|
    ensures |file| >= n + 2 ==> bs[k] <= Far(|file|, n, reach, k)
  {
    if k > 0 {
      var i := k - 1;
      BoundaryWithin(file, n, reach, bs, i);
      assert IsStep(file, n, i, reach, bs[i], bs[i + 1]);
      StepLaws(file, n, i, reach, bs[i], bs[i + 1]);
      if |file| < n + 2 {
        if i > 0 { SmallShare(|file|, n, i); }
      } else if i > 0 {
        FarGrows(|file|, n, reach, i, n - 2);
      }
    }
  }

  lemma {:induction false} SafeIsPartition(file: Bytes, n: nat, reach: nat, bs: seq<int>)
    requires |file| > 0 && n > 0 && IsDivision(file, n, reach, bs)
    requires Safe(|file|, n, reach)
    ensures InBounds(|file|, bs)
  {
    assert IsStep(file, n, n - 1, reach, bs[n - 1], bs[n]);
    forall k | 0 <= k < n
      ensures 0 <= bs[k] <= |file| && bs[k] <= bs[k + 1]
    {
      BoundaryWithin(file, n, reach, bs, k);
      if k < n - 1 {
        assert IsStep(file, n, k, reach, bs[k], bs[k + 1]);
        StepLaws(file, n, k, reach, bs[k], bs[k + 1]);
      }
    }
  }

  // ------------------------------------------------------------ a file that overruns

  // The boundaries of the worst file of its size.
  function Worst(size: nat, n: nat, reach: nat, k: nat): nat
    requires n > 0
  {
    if k == n then size
    else if k == 0 then 0
    else
      var p := Worst(size, n, reach, k - 1);
      if p >= size then p + Ideal(size, n, k - 1)
      else Min(size, p + Stride(size, n, reach, k - 1))
  }

  // Its newlines stand exactly before its boundaries.
  predicate IsMark(size: nat, n: nat, reach: nat, i: nat)
    requires n > 0
  {
    exists k :: 1 <= k < n && Worst(size, n, reach, k) == i + 1
  }

  function WorstFile(size: nat, n: nat, reach: nat): (file: Bytes)
    requires n > 0
    ensures |file| == size
  {
    seq(size, i requires 0 <= i < size => if IsMark(size, n, reach, i) then NEWLINE else 0)
  }

  lemma {:induction false} WorstGrows(size: nat, n: nat, reach: nat, j: nat, k: nat)
    requires size >= n + 2 && reach > 0 && j < k < n
    ensures Worst(size, n, reach, j) < Worst(size, n, reach, k)
    decreases k
  {
    ShareIsPositive(size, n, k - 1);
    if j < k - 1 {
      WorstGrows(size, n, reach, j, k - 1);
    }
  }

  lemma {:induction false} ShareIsPositive(size: nat, n: nat, i: nat)
    requires n > 0 && size >= n + 2
    ensures Ideal(size, n, i) > 0
  {
    if i > 0 {
      SmallShare(size, n, i);
    } else {
      assert size * 3 >= n + 2;
    }
  }

  lemma {:induction false} WorstIsFar(size: nat, n: nat, reach: nat, k: nat)
    requires k < n
    ensures Worst(size, n, reach, k) >= Min(size, Far(size, n, reach, k))
  {
    if k > 0 {
      WorstIsFar(size, n, reach, k - 1);
    }
  }

  lemma {:induction false} NoMarkBetween(size: nat, n: nat, reach: nat, k: nat, from: nat)
    requires size >= n + 2 && reach > 0 && 0 < k < n
    requires from >= Worst(size, n, reach, k - 1)
    ensures NoNewline(WorstFile(size, n, reach), from, Worst(size, n, reach, k) - 1)
  {
    hide Worst;
    forall i | from <= i < Worst(size, n, reach, k) - 1 && i < size
      ensures !IsMark(size, n, reach, i)
    {
      forall j | 1 <= j < n
        ensures Worst(size, n, reach, j) != i + 1
      {
        if j < k - 1 { WorstGrows(size, n, reach, j, k - 1); }
        if k < j { WorstGrows(size, n, reach, k, j); }
      }
    }
  }

  lemma {:induction false} WorstStep(size: nat, n: nat, reach: nat, k: nat)
    requires size >= n + 2 && reach > 0 && 0 < k < n
    ensures IsStep(WorstFile(size, n, reach), n, k - 1, reach, Worst(size, n, reach, k - 1), Worst(size, n, reach, k))
  {
    hide NoNewline, Far, Ideal;
    var file := WorstFile(size, n, reach);
    var p, w, ideal := Worst(size, n, reach, k - 1), Worst(size, n, reach, k), Ideal(size, n, k - 1);
    ShareIsPositive(size, n, k - 1);
    var r := if p + ideal >= size then size else w;
    if p + ideal < size {
      assert IsMark(size, n, reach, w - 1);
      assert file[w - 1] == NEWLINE;
      NoMarkBetween(size, n, reach, k, p + ideal);
    }
    assert IsNextLine(file, p + ideal, reach, r);
    assert w == Safeguard(p, ideal, r);
  }

  // Whenever the condition fails, some file of that size gets a last chunk of negative
  // size in some division, and with full reads the program makes that very division.
  lemma {:induction false} OverrunFile(size: nat, n: nat, reach: nat) returns (file: Bytes, bs: seq<int>)
    requires n > 0 && reach > 0 && !Safe(size, n, reach)
    ensures |file| == size && IsDivision(file, n, reach, bs)
    ensures Sizes(bs)[n - 1] < 0
    ensures bs[n - 1] > size
    ensures reach == WINDOW ==> bs == Boundaries(file, n, [])
  {
    hide IsNextLine, Safeguard, Ideal, Far, Worst, WorstFile, IsStep;
    file := WorstFile(size, n, reach);
    bs := seq(n + 1, k requires 0 <= k <= n => Worst(size, n, reach, k));
    WorstEnds(size, n, reach);
    forall i | 0 <= i < n
      ensures IsStep(file, n, i, reach, bs[i], bs[i + 1])
    {
      if i < n - 1 {
        WorstStep(size, n, reach, i + 1);
      } else {
        LastStep(file, n, reach, bs[i]);
      }
    }
    WorstIsFar(size, n, reach, n - 2);
    WorstOverruns(size, n, reach);
    if reach == WINDOW {
      var _ := DivisionIsRun(file, n, false, bs);
    }
  }

  lemma {:induction false} WorstEnds(size: nat, n: nat, reach: nat)
    requires n > 0
    ensures Worst(size, n, reach, 0) == 0 && Worst(size, n, reach, n) == size
  {
  }

  lemma LastStep(file: Bytes, n: nat, reach: nat, offset: nat)
    requires n > 0
    ensures IsStep(file, n, n - 1, reach, offset, |file|)
  {
  }

  lemma {:induction false} WorstOverruns(size: nat, n: nat, reach: nat)
    requires n > 2 && size >= n + 2 && Worst(size, n, reach, n - 2) >= size
    ensures Worst(size, n, reach, n - 1) > size
  {
    ShareIsPositive(size, n, n - 2);
  }

  // Five bytes over three nodes: the first boundary can land on the end of the file, and
  // then the last chunk is negative.
  lemma {:induction false} TinyFileOverruns() returns (file: Bytes, bs: seq<int>)
    ensures |file| == 5 && bs == Boundaries(file, 3, [])
    ensures bs[1] == 5 && bs[2] == 6 && Sizes(bs)[2] == -1
  {
    assert Far(5, 3, WINDOW, 1) == Far(5, 3, WINDOW, 0) + Stride(5, 3, WINDOW, 0);
    file, bs := OverrunFile(5, 3, WINDOW);
    StepLaws(file, 3, 0, WINDOW, 0, bs[1]);
    StepLaws(file, 3, 1, WINDOW, bs[1], bs[2]);
  }

  // ------------------------------------------------------------ a simple sufficient size

  lemma {:induction false} FarBound(size: nat, n: nat, reach: nat, q: nat, k: nat)
    requires n > 0 && q == size / (n + 2)
    ensures Far(size, n, reach, k) <= (if k == 0 then 0 else (k + 2) * q + 2 + k * reach)
  {
    if k > 0 {
      FarBound(size, n, reach, q, k - 1);
      ShareBound(size, n, q, k - 1);
      assert (k + 2) * q == (k + 1) * q + q;
      assert k * reach == (k - 1) * reach + reach;
    }
  }

  lemma {:induction false} ShareBound(size: nat, n: nat, q: nat, i: nat)
    requires n > 0 && q == size / (n + 2)
    ensures Ideal(size, n, i) <= (if i == 0 then 3 * q + 2 else q)
  {
    var w := n + 2;
    if i == 0 {
      DivBelow(size, w, q + 1);
      TripleBelow(size, q + 1, w);
      DivBelow(size * 3, w, 3 * q + 3);
    } else {
      assert size * 1 == size;
    }
  }

  lemma {:induction false} TripleBelow(size: nat, m: nat, w: nat)
    requires size < m * w
    ensures size * 3 < (3 * m) * w
  {
    assert (3 * m) * w == 3 * (m * w);
  }

  // a / w < m exactly when a < m * w.
  lemma {:induction false} DivBelow(a: nat, w: nat, m: nat)
    requires w > 0
    ensures a / w < m <==> a < m * w
  {
    var q := a / w;
    Quotient(a, w);
    if q < m {
      Times(q + 1, m, w);
    } else {
      Times(m, q, w);
    }
  }

  lemma Quotient(a: nat, w: nat)
    requires w > 0
    ensures a / w * w <= a < (a / w + 1) * w
  {
  }

  lemma {:induction false} Times(a: nat, b: nat, w: nat)
    requires a <= b
    ensures a * w <= b * w
  {
  }

  // A file this large is divided well, whatever it holds.
  lemma {:induction false} LargeFilesAreSafe(size: nat, n: nat, reach: nat)
    requires n > 0 && reach >= WINDOW
    requires size >= (n - 1) * (n + 2) * reach
    ensures Safe(size, n, reach)
  {
    if n > 2 {
      var q := size / (n + 2);
      LargeShare(size, n, reach, q);
      FarBound(size, n, reach, q, n - 2);
    }
  }

  lemma {:induction false} LargeShare(size: nat, n: nat, reach: nat, q: nat)
    requires n > 2 && reach >= WINDOW && q == size / (n + 2)
    requires size >= (n - 1) * (n + 2) * reach
    ensures n * q + 2 + (n - 2) * reach < size
  {
    var m := (n - 1) * reach;
    assert (n - 1) * (n + 2) * reach == m * (n + 2) by {
      Reorder(n - 1, n + 2, reach);
    }
    DivBelow(size, n + 2, m);
    assert q >= m == (n - 2) * reach + reach;
    assert size >= q * (n + 2) == n * q + 2 * q;
  }

  lemma Reorder(a: nat, b: nat, c: nat)
    ensures a * b * c == (a * c) * b
  {
  }
}
