/** Chunks as contents: they concatenate to the file, and with short enough lines they
    cut it only between lines, so a line-by-line computation distributes over them. */
module Lines {
  import opened Files
  import opened Splitter
  import opened Partition
  import opened Words

  function Chunk(file: Bytes, bs: seq<int>, i: nat): Bytes
    requires i + 1 < |bs| && InBounds(|file|, bs)
  {
    file[bs[i]..bs[i + 1]]
  }

  // The chunks of the nodes before node `k`.
  function Chunks(file: Bytes, bs: seq<int>, k: nat): (cs: seq<Bytes>)
    requires k < |bs| && InBounds(|file|, bs)
    ensures |cs| == k && forall i :: 0 <= i < k ==> cs[i] == Chunk(file, bs, i)
  {
    if k == 0 then [] else Chunks(file, bs, k - 1) + [Chunk(file, bs, k - 1)]
  }

  lemma {:induction false} ChunksConcat(file: Bytes, bs: seq<int>, k: nat)
    requires k < |bs| && InBounds(|file|, bs) && bs[0] == 0
    ensures Concat(Chunks(file, bs, k)) == file[..bs[k]]
  {
    if k > 0 {
      ChunksConcat(file, bs, k - 1);
      ConcatSnoc(Chunks(file, bs, k - 1), Chunk(file, bs, k - 1));
      CutAt(file, bs[k - 1], bs[k]);
    }
  }

  // The chunks of all nodes concatenate to the file.
  lemma {:induction false} ChunksAreTheFile(file: Bytes, n: nat, reach: nat, bs: seq<int>)
    requires |file| > 0 && n > 0 && IsDivision(file, n, reach, bs)
    requires Safe(|file|, n, reach)
    ensures InBounds(|file|, bs)
    ensures Concat(Chunks(file, bs, n)) == file
  {
    SafeIsPartition(file, n, reach, bs);
    assert IsStep(file, n, n - 1, reach, bs[n - 1], bs[n]);
    ChunksConcat(file, bs, n);
    assert file[..|file|] == file;
  }

  // ------------------------------------------------------------ lines

  // The length of the first line, newline included.
  function LineEnd(s: Bytes): (k: nat)
    requires s != []
    ensures 0 < k <= |s|
    ensures NoNewline(s, 0, k - 1)
    ensures s[k - 1] == NEWLINE || k == |s|
  {
    if s[0] == NEWLINE || |s| == 1 then 1 else 1 + LineEnd(s[1..])
  }

  function FirstLine(s: Bytes): Bytes
    requires s != []
  {
    s[..LineEnd(s)]
  }

  function OtherLines(s: Bytes): (t: Bytes)
    requires s != []
    ensures |t| < |s|
  {
    s[LineEnd(s)..]
  }

  function LinesOf(s: Bytes): seq<Bytes>
    decreases |s|
  {
    if s == [] then [] else [FirstLine(s)] + LinesOf(OtherLines(s))
  }

  lemma {:induction false} ConcatCons(first: Bytes, rest: seq<Bytes>)
    ensures Concat([first] + rest) == first + Concat(rest)
    decreases |rest|
  {
    if rest == [] {
      ConcatSnoc([], first);
      assert [] + [first] == [first] + rest;
    } else {
      hide Concat;
      var m := |rest| - 1;
      var init, last := rest[..m], rest[m];
      ConcatCons(first, init);
      ConcatSnoc([first] + init, last);
      ConcatSnoc(init, last);
      assert rest == init + [last];
      ConcatAssoc([first], init, [last]);
      ConcatAssoc(first, Concat(init), last);
    }
  }

  // One line: no newline before its last byte, and one there unless it is the last line.
  predicate IsLine(line: Bytes, isLast: bool) {
    line != [] && NoNewline(line, 0, |line| - 1) && (line[|line| - 1] == NEWLINE || isLast)
  }

  // The lines of a file are lines, and concatenate to it.
  lemma {:induction false} LinesAreLines(s: Bytes)
    ensures Concat(LinesOf(s)) == s
    ensures forall i :: 0 <= i < |LinesOf(s)| ==> IsLine(LinesOf(s)[i], i == |LinesOf(s)| - 1)
    ensures forall i :: 0 <= i < |LinesOf(s)| ==>
              var line := LinesOf(s)[i];
              && line != [] && (forall k :: 0 <= k < |line| - 1 ==> line[k] != 10)
              && (line[|line| - 1] == 10 || i == |LinesOf(s)| - 1)
    decreases |s|
  {
    if s != [] {
      hide FirstLine, OtherLines, IsLine, NoNewline;
      var first, rest := FirstLine(s), OtherLines(s);
      LineIs(first, rest == []);
      FirstLineIsLine(s);
      LinesAreLines(rest);
      ConcatCons(first, LinesOf(rest));
      assert LinesOf(s) == [first] + LinesOf(rest);
      assert rest == [] ==> LinesOf(rest) == [];
    }
  }

  lemma LineIs(line: Bytes, isLast: bool)
    ensures IsLine(line, isLast) ==>
              && line != [] && (forall k :: 0 <= k < |line| - 1 ==> line[k] != 10)
              && (line[|line| - 1] == 10 || isLast)
  {
  }

  lemma {:induction false} FirstLineIsLine(s: Bytes)
    requires s != []
    ensures IsLine(FirstLine(s), OtherLines(s) == [])
    ensures s == FirstLine(s) + OtherLines(s)
  {
  }

  predicate EndsLine(s: Bytes) {
    s == [] || s[|s| - 1] == NEWLINE
  }

  lemma {:induction false} LineEndOfPrefix(a: Bytes, b: Bytes)
    requires a != [] && a[LineEnd(a) - 1] == NEWLINE
    ensures LineEnd(a + b) == LineEnd(a)
  {
    if |a| > 1 && a[0] != NEWLINE {
      LineEndOfPrefix(a[1..], b);
      assert (a + b)[1..] == a[1..] + b;
    }
  }

  lemma {:induction false} FirstOfConcat(a: Bytes, b: Bytes)
    requires a != [] && a[LineEnd(a) - 1] == NEWLINE
    ensures FirstLine(a + b) == FirstLine(a)
    ensures OtherLines(a + b) == OtherLines(a) + b
    ensures EndsLine(OtherLines(a)) <==> EndsLine(a)
  {
    LineEndOfPrefix(a, b);
  }

  lemma {:induction false} LinesOfBoth(line: Bytes, rest: Bytes, a: Bytes, b: Bytes)
    requires a != [] && line == FirstLine(a) == FirstLine(a + b)
    requires rest == OtherLines(a) && OtherLines(a + b) == rest + b
    ensures LinesOf(a) == [line] + LinesOf(rest)
    ensures LinesOf(a + b) == [line] + LinesOf(rest + b)
  {
  }

  lemma {:induction false} FirstEnds(s: Bytes)
    requires EndsLine(s) && s != []
    ensures s[LineEnd(s) - 1] == NEWLINE
  {
  }

  lemma {:induction false} LinesConcat(a: Bytes, b: Bytes)
    requires EndsLine(a)
    ensures LinesOf(a + b) == LinesOf(a) + LinesOf(b)
    decreases |a|
  {
    hide *;
    if a == [] {
      NoLines();
      assert a + b == b;
    } else {
      var line, rest := FirstLine(a), OtherLines(a);
      FirstEnds(a);
      FirstOfConcat(a, b);
      LinesOfBoth(line, rest, a, b);
      LinesConcat(rest, b);
      ConcatAssoc([line], LinesOf(rest), LinesOf(b));
    }
  }

  // ------------------------------------------------------------ cutting a line in two

  lemma {:induction false} LineEndAcross(a: Bytes, b: Bytes)
    requires b != [] && NoNewline(a, 0, |a|)
    ensures LineEnd(a + b) == |a| + LineEnd(b)
  {
    if a == [] {
      assert a + b == b;
    } else {
      LineEndAcross(a[1..], b);
      assert (a + b)[1..] == a[1..] + b;
    }
  }

  lemma {:induction false} OneLineMore(s: Bytes)
    requires s != []
    ensures |LinesOf(s)| == 1 + |LinesOf(OtherLines(s))|
  {
  }

  lemma {:induction false} UncutLine(a: Bytes, b: Bytes)
    requires a != [] && b != [] && a[LineEnd(a) - 1] != NEWLINE
    ensures |LinesOf(a)| == 1 && |LinesOf(a + b)| == |LinesOf(b)|
  {
    hide LinesOf;
    LineEndAcross(a, b);
    OneLineMore(a);
    OneLineMore(b);
    OneLineMore(a + b);
    assert OtherLines(a + b) == OtherLines(b);
    assert OtherLines(a) == [];
    NoLines();
  }

  // A cut inside a line makes one line more; no other cut does.
  lemma {:induction false} LinesAcross(a: Bytes, b: Bytes)
    ensures |LinesOf(a)| + |LinesOf(b)| == |LinesOf(a + b)| + (if EndsLine(a) || b == [] then 0 else 1)
    decreases |a|
  {
    if EndsLine(a) {
      LinesConcat(a, b);
    } else if b == [] {
      assert a + b == a;
      NoLines();
    } else {
      assert a != [];
      hide *;
      if a[LineEnd(a) - 1] == NEWLINE {
        OneLineMore(a);
        OneLineMore(a + b);
        FirstOfConcat(a, b);
        LinesAcross(OtherLines(a), b);
      } else {
        UncutLine(a, b);
      }
    }
  }

  // ------------------------------------------------------------ boundaries between lines

  predicate NewlineAt(file: Bytes, j: nat) {
    j < |file| && file[j] == NEWLINE
  }

  // The boundary follows a newline.
  predicate FollowsNewline(file: Bytes, k: int) {
    k > 0 && NewlineAt(file, k - 1)
  }

  ghost predicate NewlineWithin(file: Bytes, from: nat, length: nat) {
    exists j: nat :: from <= j < from + length && NewlineAt(file, j)
  }

  // A newline stands close enough after the end that node `i` aims for.
  ghost predicate NewlineNear(file: Bytes, n: nat, i: nat, offset: nat)
    requires n > 0
  {
    var ideal := Ideal(|file|, n, i);
    NewlineWithin(file, offset + ideal, Min(WINDOW, ideal))
  }

  // If there is a newline, there is a first one.
  lemma {:induction false} FirstFrom(file: Bytes, from: nat, j: nat) returns (first: nat)
    requires from <= j && NewlineAt(file, j)
    ensures from <= first <= j && NewlineAt(file, first) && NoNewline(file, from, first)
    decreases j - from
  {
    first := from;
    if file[from] != NEWLINE {
      first := FirstFrom(file, from + 1, j);
    }
  }

  lemma {:induction false} BoundaryEndsLine(file: Bytes, n: nat, i: nat, reach: nat, offset: nat, next: int)
    requires i < n - 1 && IsStep(file, n, i, reach, offset, next)
    requires NewlineNear(file, n, i, offset)
    ensures FollowsNewline(file, next)
  {
    hide IsNextLine, NoNewline, Ideal;
    var ideal := Ideal(|file|, n, i);
    var aim := offset + ideal;
    var r :| IsNextLine(file, aim, reach, r) && next == Safeguard(offset, ideal, r);
    var j: nat :| aim <= j < aim + Min(WINDOW, ideal) && NewlineAt(file, j);
    var first := FirstFrom(file, aim, j);
    ScanFindsFirst(file, aim, reach, r, first);
  }

  // Node `i`, with its intended end inside the file: whatever the reads, its boundary
  // follows a newline, if and only if a newline stands near the intended end or just
  // before it.
  lemma {:induction false} AlwaysFollowsExactly(file: Bytes, n: nat, i: nat, offset: nat, short: bool)
    requires i < n - 1 && offset + Ideal(|file|, n, i) < |file|
    ensures (forall next :: IsStep(file, n, i, Reach(short), offset, next) ==> FollowsNewline(file, next)) <==>
            NewlineNear(file, n, i, offset) || FollowsNewline(file, offset + Ideal(|file|, n, i))
  {
    hide NextLine, IsNextLine, NoNewline, Ideal, NewlineNear;
    var ideal := Ideal(|file|, n, i);
    var aim := offset + ideal;
    if NewlineNear(file, n, i, offset) {
      forall next | IsStep(file, n, i, Reach(short), offset, next)
        ensures FollowsNewline(file, next)
      {
        BoundaryEndsLine(file, n, i, Reach(short), offset, next);
      }
    } else if FollowsNewline(file, aim) {
      forall next | IsStep(file, n, i, Reach(short), offset, next)
        ensures FollowsNewline(file, next)
      {
        var r :| IsNextLine(file, aim, Reach(short), r) && next == Safeguard(offset, ideal, r);
        AimOrNewline(file, aim, Reach(short), r);
      }
    } else {
      FullStepIsAim(file, n, i, offset, short);
      assert IsStep(file, n, i, Reach(short), offset, aim);
    }
  }

  // Some reads make it follow a newline if and only if one stands just before the
  // intended end or near it, where short reads see a little past the window.
  lemma {:induction false} CanFollowExactly(file: Bytes, n: nat, i: nat, offset: nat, short: bool)
    requires i < n - 1 && offset + Ideal(|file|, n, i) < |file|
    ensures var ideal := Ideal(|file|, n, i);
            (exists next :: IsStep(file, n, i, Reach(short), offset, next) && FollowsNewline(file, next)) <==>
            NewlineWithin(file, offset + ideal, Min(Reach(short), ideal)) || FollowsNewline(file, offset + ideal)
  {
    hide IsNextLine, NoNewline, Ideal, NewlineNear;
    var ideal := Ideal(|file|, n, i);
    var aim := offset + ideal;
    var reach := Reach(short);
    if NewlineWithin(file, aim, Min(reach, ideal)) {
      var j: nat :| aim <= j < aim + Min(reach, ideal) && NewlineAt(file, j);
      var first := FirstFrom(file, aim, j);
      FirstIsNext(file, aim, reach, first);
      assert first + 1 == Safeguard(offset, ideal, first + 1);
      assert IsStep(file, n, i, reach, offset, first + 1);
    } else {
      if FollowsNewline(file, aim) {
        FullStepIsAimOrNear(file, n, i, offset, short);
      }
      forall next | IsStep(file, n, i, reach, offset, next) && FollowsNewline(file, next)
        ensures FollowsNewline(file, aim)
      {
        var r :| IsNextLine(file, aim, reach, r) && next == Safeguard(offset, ideal, r);
        AimOrNewline(file, aim, reach, r);
        assert next != aim ==> aim <= next - 1 < aim + Min(reach, ideal);
      }
    }
  }

  lemma {:induction false} AimOrNewline(file: Bytes, aim: nat, reach: nat, r: int)
    requires aim < |file| && IsNextLine(file, aim, reach, r)
    ensures r == aim || (aim < r <= aim + reach && FollowsNewline(file, r))
  {
  }

  lemma {:induction false} FirstIsNext(file: Bytes, aim: nat, reach: nat, first: nat)
    requires aim <= first < aim + reach && NewlineAt(file, first) && NoNewline(file, aim, first)
    ensures IsNextLine(file, aim, reach, first + 1)
  {
  }

  // With full reads and no newline near, the node ends where it intended to.
  lemma {:induction false} FullStepIsAim(file: Bytes, n: nat, i: nat, offset: nat, short: bool)
    requires i < n - 1 && offset + Ideal(|file|, n, i) < |file| && !NewlineNear(file, n, i, offset)
    ensures IsStep(file, n, i, Reach(short), offset, offset + Ideal(|file|, n, i))
  {
    hide NextLine, Ideal, NoNewline, IsNextLine;
    var ideal := Ideal(|file|, n, i);
    var aim := offset + ideal;
    var r := NextLine(file, aim, []);
    NextLineMeets(file, aim, []);
    AimOrNewline(file, aim, WINDOW, r);
    assert r == aim || r > aim + ideal;
    assert Safeguard(offset, ideal, r) == aim;
    NextLineReaches(file, aim, WINDOW, Reach(short), r);
  }

  lemma {:induction false} NextLineReaches(file: Bytes, pos: nat, reach: nat, wider: nat, r: int)
    requires IsNextLine(file, pos, reach, r) && reach <= wider
    ensures IsNextLine(file, pos, wider, r)
  {
  }

  lemma {:induction false} FullStepIsAimOrNear(file: Bytes, n: nat, i: nat, offset: nat, short: bool)
    requires i < n - 1 && offset + Ideal(|file|, n, i) < |file|
    requires FollowsNewline(file, offset + Ideal(|file|, n, i))
    ensures exists next :: IsStep(file, n, i, Reach(short), offset, next) && FollowsNewline(file, next)
  {
    hide Ideal, NewlineNear, IsStep;
    AlwaysFollowsExactly(file, n, i, offset, short);
    EndIsStep(file, n, if short then [[]] else [], i, offset);
  }

  ghost predicate NewlinesNear(file: Bytes, n: nat, bs: seq<int>)
    requires n > 0 && |bs| == n + 1
  {
    forall i :: 0 <= i < n - 1 ==> bs[i] >= 0 && NewlineNear(file, n, i, bs[i])
  }

  // With a newline near each intended end no bound on the file size is needed: the
  // division is a partition, and every interior boundary follows a newline.
  lemma {:induction false} LineBoundaries(file: Bytes, n: nat, reach: nat, bs: seq<int>)
    requires |file| > 0 && n > 0 && IsDivision(file, n, reach, bs)
    requires NewlinesNear(file, n, bs)
    ensures InBounds(|file|, bs)
    ensures forall k :: 0 < k < n ==> FollowsNewline(file, bs[k])
    ensures forall k :: 0 < k < n ==> 0 < bs[k] <= |file| && file[bs[k] - 1] == 10
  {
    assert IsStep(file, n, n - 1, reach, bs[n - 1], bs[n]);
    forall k | 0 < k < n
      ensures bs[k - 1] <= bs[k] && FollowsNewline(file, bs[k])
    {
      var i := k - 1;
      assert IsStep(file, n, i, reach, bs[i], bs[i + 1]);
      StepLaws(file, n, i, reach, bs[i], bs[i + 1]);
      BoundaryEndsLine(file, n, i, reach, bs[i], bs[i + 1]);
    }
    assert forall i :: 0 <= i < n - 1 ==> bs[i] <= bs[i + 1] by {
      forall i | 0 <= i < n - 1 ensures bs[i] <= bs[i + 1] {
        var k := i + 1;
        assert bs[k - 1] <= bs[k];
      }
    }
  }

  // A condition on the file alone: every `length` bytes in a row hold a newline.
  ghost predicate ShortLines(file: Bytes, length: nat) {
    forall from: nat {:trigger NewlineWithin(file, from, length)} ::
      from + length <= |file| ==> NewlineWithin(file, from, length)
  }

  // A file whose lines are shorter than the scan window and than a share, and that is
  // large enough for its boundaries to stay inside, meets the condition on every division.
  lemma {:induction false} ShortLinesSuffice(file: Bytes, n: nat, reach: nat, bs: seq<int>, length: nat)
    requires n > 0 && IsDivision(file, n, reach, bs) && reach >= WINDOW
    requires length <= WINDOW && length * (n + 2) <= |file|
    requires |file| >= n + 2 && Far(|file|, n, reach, n - 1) <= |file|
    requires ShortLines(file, length)
    ensures NewlinesNear(file, n, bs)
  {
    hide NewlineNear, ShortLines;
    forall i | 0 <= i < n - 1
      ensures bs[i] >= 0 && NewlineNear(file, n, i, bs[i])
    {
      BoundaryBelowFar(file, n, reach, bs, i);
      ShortLineIsNear(file, n, reach, i, bs[i], length);
    }
  }

  lemma {:induction false} ShortLineIsNear(file: Bytes, n: nat, reach: nat, i: nat, offset: nat, length: nat)
    requires i < n - 1 && reach >= WINDOW && offset <= Far(|file|, n, reach, i)
    requires length <= WINDOW && length * (n + 2) <= |file|
    requires Far(|file|, n, reach, n - 1) <= |file|
    requires ShortLines(file, length)
    ensures NewlineNear(file, n, i, offset)
  {
    hide *;
    ShareHoldsLine(|file|, n, i, length);
    FarGrows(|file|, n, reach, i + 1, n - 1);
    FarStep(|file|, n, reach, i);
    AtLeast(reach, Ideal(|file|, n, i), length);
    LineInShare(file, n, i, offset, length);
  }

  lemma AtLeast(a: int, b: int, c: int)
    requires a >= c && b >= c
    ensures Min(a, b) >= c
  {
  }

  lemma {:induction false} FarStep(size: nat, n: nat, reach: nat, i: nat)
    requires n > 0
    ensures Far(size, n, reach, i + 1) ==
            Far(size, n, reach, i) + Ideal(size, n, i) + Min(reach, Ideal(size, n, i))
  {
  }

  lemma {:induction false} LineInShare(file: Bytes, n: nat, i: nat, offset: nat, length: nat)
    requires n > 0 && length <= WINDOW && length <= Ideal(|file|, n, i)
    requires offset + Ideal(|file|, n, i) + length <= |file|
    requires ShortLines(file, length)
    ensures NewlineNear(file, n, i, offset)
  {
    hide Ideal;
    var aim := offset + Ideal(|file|, n, i);
    assert NewlineWithin(file, aim, length);
    var j: nat :| aim <= j < aim + length && NewlineAt(file, j);
  }

  lemma {:induction false} ShareHoldsLine(size: nat, n: nat, i: nat, length: nat)
    requires n > 0 && length * (n + 2) <= size
    ensures length <= Ideal(size, n, i)
  {
    DivBelow(size, n + 2, length);
    DivBelow(size * Weight(i), n + 2, length);
    assert size <= size * Weight(i);
  }

  lemma {:induction false} BoundaryBelowFar(file: Bytes, n: nat, reach: nat, bs: seq<int>, k: nat)
    requires n > 0 && IsDivision(file, n, reach, bs) && k < n
    requires |file| >= n + 2 && Far(|file|, n, reach, n - 1) <= |file|
    ensures 0 <= bs[k] <= Far(|file|, n, reach, k)
  {
    if k > 0 {
      var i := k - 1;
      BoundaryBelowFar(file, n, reach, bs, i);
      assert IsStep(file, n, i, reach, bs[i], bs[i + 1]);
      StepLaws(file, n, i, reach, bs[i], bs[i + 1]);
      FarGrows(|file|, n, reach, i, n - 1);
      if bs[i] == |file| {
        FarGrows(|file|, n, reach, k, n - 1);
      }
    }
  }

  // No chunk starts inside a line. (What follows the end of the file has no lines.)
  ghost predicate CutsLines(file: Bytes, bs: seq<int>)
    requires InBounds(|file|, bs)
  {
    forall k :: 0 <= k < |bs| - 1 ==> bs[k] == |file| || EndsLine(file[..bs[k]])
  }

  // The lines of every chunk, in the order of the nodes.
  function ChunkLines(cs: seq<Bytes>): (ls: seq<seq<Bytes>>)
    ensures |ls| == |cs|
  {
    seq(|cs|, i requires 0 <= i < |cs| => LinesOf(cs[i]))
  }

  lemma {:induction false} OneMoreChunk(a: Bytes, b: Bytes, cs: seq<Bytes>)
    requires (EndsLine(a) || b == []) && LinesOf(a) == Concat(ChunkLines(cs))
    ensures LinesOf(a + b) == Concat(ChunkLines(cs + [b]))
  {
    if b == [] {
      NoLines();
      assert a + b == a;
    } else {
      LinesConcat(a, b);
    }
    ChunkLinesSnoc(cs, b);
  }

  lemma {:induction false} ChunkLinesSnoc(cs: seq<Bytes>, b: Bytes)
    ensures Concat(ChunkLines(cs + [b])) == Concat(ChunkLines(cs)) + LinesOf(b)
  {
    ConcatSnoc(ChunkLines(cs), LinesOf(b));
    assert ChunkLines(cs + [b]) == ChunkLines(cs) + [LinesOf(b)];
  }

  lemma {:induction false} NoLines()
    ensures LinesOf([]) == [] == Concat(ChunkLines([]))
  {
    assert ChunkLines([]) == [];
  }

  lemma {:induction false} LinesOfPrefix(file: Bytes, bs: seq<int>, k: nat)
    requires InBounds(|file|, bs) && k < |bs| && bs[0] == 0
    requires CutsLines(file, bs)
    ensures LinesOf(file[..bs[k]]) == Concat(ChunkLines(Chunks(file, bs, k)))
  {
    hide ChunkLines, EndsLine;
    if k == 0 {
      NoLines();
    } else {
      hide LinesOf, Concat;
      LinesOfPrefix(file, bs, k - 1);
      var a, b := file[..bs[k - 1]], Chunk(file, bs, k - 1);
      assert file[..bs[k]] == a + b;
      OneMoreChunk(a, b, Chunks(file, bs, k - 1));
    }
  }

  // The lines of the chunks before node `k`, one chunk after the other.
  function LinesBefore(file: Bytes, bs: seq<int>, k: nat): nat
    requires InBounds(|file|, bs) && k < |bs|
  {
    |Concat(ChunkLines(Chunks(file, bs, k)))|
  }

  lemma {:induction false} LinesOfOneMore(file: Bytes, bs: seq<int>, k: nat)
    requires InBounds(|file|, bs) && 0 < k < |bs|
    ensures LinesBefore(file, bs, k) - |LinesOf(file[..bs[k]])| ==
            LinesBefore(file, bs, k - 1) - |LinesOf(file[..bs[k - 1]])|
            + if EndsLine(file[..bs[k - 1]]) || bs[k - 1] == bs[k] then 0 else 1
  {
    hide ChunkLines, EndsLine, LinesOf, Concat;
    var a, b := file[..bs[k - 1]], Chunk(file, bs, k - 1);
    CutAt(file, bs[k - 1], bs[k]);
    ChunkLinesSnoc(Chunks(file, bs, k - 1), b);
    LinesAcross(a, b);
  }

  // The chunks have at least as many lines as the file, and more if a chunk starts inside
  // a line.
  lemma {:induction false} ChunksHaveAllLines(file: Bytes, bs: seq<int>, k: nat)
    requires InBounds(|file|, bs) && k < |bs| && bs[0] == 0
    ensures |LinesOf(file[..bs[k]])| <= LinesBefore(file, bs, k)
  {
    hide LinesOf, LinesBefore, EndsLine;
    if k == 0 {
      NoLines();
    } else {
      ChunksHaveAllLines(file, bs, k - 1);
      LinesOfOneMore(file, bs, k);
    }
  }

  lemma {:induction false} ChunksHaveMoreLines(file: Bytes, bs: seq<int>, j: nat, k: nat)
    requires InBounds(|file|, bs) && j < k < |bs| && bs[0] == 0
    requires bs[j] < bs[k] && !EndsLine(file[..bs[j]])
    ensures |LinesOf(file[..bs[k]])| < LinesBefore(file, bs, k)
  {
    hide LinesOf, LinesBefore, EndsLine;
    LinesOfOneMore(file, bs, k);
    Ascending(bs, |file|, j, k - 1);
    if bs[j] == bs[k - 1] {
      ChunksHaveAllLines(file, bs, k - 1);
    } else {
      ChunksHaveMoreLines(file, bs, j, k - 1);
    }
  }

  lemma {:induction false} Ascending(bs: seq<int>, size: nat, j: nat, k: nat)
    requires InBounds(size, bs) && j <= k < |bs|
    ensures bs[j] <= bs[k]
  {
    if j < k {
      Ascending(bs, size, j, k - 1);
    }
  }

  // For any boundaries in the file: the lines of the file are the lines of the chunks if
  // and only if no chunk starts inside a line.
  lemma {:induction false} LinesPreservedExactly(file: Bytes, bs: seq<int>)
    requires bs != [] && InBounds(|file|, bs) && bs[0] == 0 && bs[|bs| - 1] == |file|
    ensures LinesOf(file) == Concat(ChunkLines(Chunks(file, bs, |bs| - 1))) <==> CutsLines(file, bs)
  {
    hide ChunkLines, EndsLine, LinesOf, Concat, Chunks;
    var n := |bs| - 1;
    assert file[..bs[n]] == file;
    if CutsLines(file, bs) {
      LinesOfPrefix(file, bs, n);
    } else {
      var j :| 0 <= j < n && bs[j] != |file| && !EndsLine(file[..bs[j]]);
      ChunksHaveMoreLines(file, bs, j, n);
    }
  }

  // The lines of the file are the lines of the chunks, one after the other.
  lemma {:induction false} LinesArePreserved(file: Bytes, n: nat, reach: nat, bs: seq<int>)
    requires |file| > 0 && n > 0 && IsDivision(file, n, reach, bs)
    requires NewlinesNear(file, n, bs)
    ensures InBounds(|file|, bs)
    ensures LinesOf(file) == Concat(ChunkLines(Chunks(file, bs, n)))
  {
    LineBoundaries(file, n, reach, bs);
    assert IsStep(file, n, n - 1, reach, bs[n - 1], bs[n]);
    assert CutsLines(file, bs);
    LinesOfPrefix(file, bs, n);
    assert file[..bs[n]] == file;
  }

  // ------------------------------------------------------------ line-by-line computations

  function FoldLines(g: Bytes -> int, lines: seq<Bytes>): int {
    XorAll(seq(|lines|, i requires 0 <= i < |lines| => g(lines[i])))
  }

  // A program that combines a value of each line by exclusive or.
  function PerLine(g: Bytes -> int, s: Bytes): int {
    FoldLines(g, LinesOf(s))
  }

  lemma {:induction false} FoldLinesConcat(g: Bytes -> int, a: seq<Bytes>, b: seq<Bytes>)
    ensures FoldLines(g, a + b) == Xor(FoldLines(g, a), FoldLines(g, b))
  {
    var va := seq(|a|, i requires 0 <= i < |a| => g(a[i]));
    var vb := seq(|b|, i requires 0 <= i < |b| => g(b[i]));
    var ab := a + b;
    assert seq(|ab|, i requires 0 <= i < |ab| => g(ab[i])) == va + vb;
    XorAllConcat(va, vb);
  }

  function PerLineResults(g: Bytes -> int, cs: seq<Bytes>): (rs: seq<int>)
    ensures |rs| == |cs|
  {
    seq(|cs|, i requires 0 <= i < |cs| => PerLine(g, cs[i]))
  }

  lemma {:induction false} PerLineOfConcat(g: Bytes -> int, cs: seq<Bytes>)
    ensures FoldLines(g, Concat(ChunkLines(cs))) == XorAll(PerLineResults(g, cs))
    decreases |cs|
  {
    hide LinesOf, Xor;
    if cs != [] {
      var m := |cs| - 1;
      var front, last := cs[..m], cs[m];
      PerLineOfConcat(g, front);
      ConcatSnoc(ChunkLines(front), LinesOf(last));
      assert ChunkLines(cs) == ChunkLines(front) + [LinesOf(last)];
      FoldLinesConcat(g, Concat(ChunkLines(front)), LinesOf(last));
      assert PerLineResults(g, cs) == PerLineResults(g, front) + [PerLine(g, last)];
      XorAllSnoc(PerLineResults(g, front), PerLine(g, last));
    }
  }

  // When nodes process whole chunks, a line-by-line program gives the answer of the
  // whole file, although it need not distribute over cuts inside a line.
  lemma {:induction false} PerLineDistributes(file: Bytes, n: nat, reach: nat, bs: seq<int>, g: Bytes -> int)
    requires |file| > 0 && n > 0 && IsDivision(file, n, reach, bs)
    requires NewlinesNear(file, n, bs)
    ensures InBounds(|file|, bs)
    ensures XorAll(PerLineResults(g, Chunks(file, bs, n))) == PerLine(g, file)
  {
    LinesArePreserved(file, n, reach, bs);
    PerLineOfConcat(g, Chunks(file, bs, n));
  }
}
