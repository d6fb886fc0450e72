/** `divideFileIntoChunks` and `adjustToNextLine`: the boundaries they choose, by what the
    reads return and by what is known of them without the reads. */
module Splitter {
  import opened Files

  const BUF_SIZE := 4096
  const WINDOW := 4 * BUF_SIZE

  // How far past the starting position a newline can be picked up: exactly the window
  // with full reads, almost one more buffer when reads may be short.
  function Reach(short: bool): nat {
    if short then WINDOW + BUF_SIZE - 1 else WINDOW
  }

  predicate NoNewline(file: Bytes, from: int, to: int) {
    forall i :: 0 <= from <= i < to && i < |file| ==> file[i] != NEWLINE
  }

  // ------------------------------------------------------------ adjustToNextLine

  // `r` is one past the first newline from `pos`, found within `reach` bytes, or `pos`
  // itself and then the window holds no newline.
  predicate IsNextLine(file: Bytes, pos: nat, reach: nat, r: int) {
    if pos >= |file| then
      r == |file|
    else if r == pos then
      NoNewline(file, pos, pos + WINDOW)
    else
      pos < r <= |file| && r <= pos + reach && file[r - 1] == NEWLINE && NoNewline(file, pos, r - 1)
  }

  // How reads turn out: at most `cuts[i]` bytes from read number `i`. A cut that is zero,
  // larger than the buffer or missing stands for a full read.
  function ReadLength(cuts: seq<nat>): (n: nat)
    ensures 0 < n <= BUF_SIZE && (cuts == [] ==> n == BUF_SIZE)
  {
    if cuts == [] || cuts[0] == 0 || cuts[0] > BUF_SIZE then BUF_SIZE else cuts[0]
  }

  function Later(cuts: seq<nat>): seq<nat> {
    if cuts == [] then [] else cuts[1..]
  }

  function FirstNewline(s: Bytes): (i: nat)
    ensures i <= |s| && (i < |s| ==> s[i] == NEWLINE)
    ensures forall k :: 0 <= k < i ==> s[k] != NEWLINE
  {
    if s == [] || s[0] == NEWLINE then 0 else 1 + FirstNewline(s[1..])
  }

  // What the blocks from `pos` on make of a scan begun at `start`.
  function Scan(file: Bytes, start: nat, pos: nat, cuts: seq<nat>): nat
    requires start <= pos
    decreases |file| - pos
  {
    if pos >= |file| || pos - start >= WINDOW then start
    else
      var buffer := Slice(file, pos, ReadLength(cuts));
      var i := FirstNewline(buffer);
      if i < |buffer| then pos + i + 1 else Scan(file, start, pos + |buffer|, Later(cuts))
  }

  function NextLine(file: Bytes, start: nat, cuts: seq<nat>): nat {
    if start >= |file| then |file| else Scan(file, start, start, cuts)
  }

  method AdjustToNextLine(file: Bytes, start: nat, cuts: seq<nat>) returns (r: nat)
    ensures r == NextLine(file, start, cuts)
    ensures IsNextLine(file, start, Reach(cuts != []), r)
    ensures start >= |file| ==> r == |file|
    ensures start < |file| ==> r == start || (start < r <= |file| && r <= start + 20479 && file[r - 1] == 10)
    ensures forall p :: start <= p < |file| && p < r - 1 ==> file[p] != 10
    ensures forall p :: start <= p < |file| && p < start + 16384 && file[p] == 10 ==> start < r <= p + 1
    ensures cuts == [] ==> r <= start + 16384 || start >= |file|
  {
    hide IsNextLine, Scan, Slice;
    NextLineMeets(file, start, cuts);
    NextLineByCases(file, start, Reach(cuts != []), NextLine(file, start, cuts));
    var fileSize := |file|;
    var pos := start;
    if pos >= fileSize {
      return fileSize;
    }
    var rest := cuts;
    while pos < fileSize && pos - start < WINDOW
      invariant start <= pos <= fileSize
      invariant Scan(file, start, pos, rest) == Scan(file, start, start, cuts)
      decreases fileSize - pos
    {
      ScanBlock(file, start, pos, rest);
      var buffer := Slice(file, pos, ReadLength(rest));
      for i := 0 to |buffer|
        invariant i <= FirstNewline(buffer)
      {
        if buffer[i] == NEWLINE {
          return pos + i + 1;
        }
      }
      pos := pos + |buffer|;
      rest := Later(rest);
    }
    ScanBlock(file, start, pos, rest);
    return start;
  }

  lemma {:induction false} ScanBlock(file: Bytes, start: nat, pos: nat, cuts: seq<nat>)
    requires start <= pos <= |file|
    ensures var buffer := Slice(file, pos, ReadLength(cuts));
            && pos + |buffer| <= |file| && (pos < |file| ==> buffer != [])
            && Scan(file, start, pos, cuts) ==
               if pos == |file| || pos - start >= WINDOW then start
               else if FirstNewline(buffer) < |buffer| then pos + FirstNewline(buffer) + 1
               else Scan(file, start, pos + |buffer|, Later(cuts))
  {
  }

  // The scan keeps what its description says, from any block on.
  lemma {:induction false} ScanMeets(file: Bytes, start: nat, pos: nat, short: bool, cuts: seq<nat>)
    requires start <= pos <= |file| && start < |file| && pos - start < WINDOW + BUF_SIZE
    requires !short ==> cuts == [] && (pos == |file| || (pos - start) % BUF_SIZE == 0)
    requires NoNewline(file, start, pos)
    ensures IsNextLine(file, start, Reach(short), Scan(file, start, pos, cuts))
    decreases |file| - pos
  {
    hide Scan, Slice, IsNextLine, NoNewline;
    ScanBlock(file, start, pos, cuts);
    if pos < |file| && pos - start < WINDOW {
      var buffer := Slice(file, pos, ReadLength(cuts));
      var i := FirstNewline(buffer);
      BlockBefore(file, start, pos, ReadLength(cuts));
      if i == |buffer| {
        FullBlocks(file, start, pos, cuts);
        ScanMeets(file, start, pos + i, short, Later(cuts));
      } else {
        FoundInBlock(file, start, pos, short, pos + i + 1, |buffer|);
      }
    } else {
      NothingFound(file, start, pos, short);
    }
  }

  // The part of a block before its first newline.
  lemma {:induction false} BlockBefore(file: Bytes, start: nat, pos: nat, length: nat)
    requires start <= pos <= |file| && NoNewline(file, start, pos)
    ensures var buffer := Slice(file, pos, length);
            var i := FirstNewline(buffer);
            && pos + |buffer| <= |file| && |buffer| <= length
            && NoNewline(file, start, pos + i) && (i < |buffer| ==> file[pos + i] == NEWLINE)
  {
    var buffer := Slice(file, pos, length);
    assert forall k :: pos <= k < pos + FirstNewline(buffer) ==> file[k] == buffer[k - pos];
  }

  // Full reads end at the end of a buffer or of the file.
  lemma {:induction false} FullBlocks(file: Bytes, start: nat, pos: nat, cuts: seq<nat>)
    requires start <= pos <= |file| && pos - start < WINDOW
    ensures var next := pos + |Slice(file, pos, ReadLength(cuts))|;
            && next - start < WINDOW + BUF_SIZE
            && (cuts == [] && (pos - start) % BUF_SIZE == 0 ==> next == |file| || (next - start) % BUF_SIZE == 0)
  {
  }

  lemma {:induction false} FoundInBlock(file: Bytes, start: nat, pos: nat, short: bool, r: nat, length: nat)
    requires start <= pos < r <= |file| && r <= pos + length && length <= BUF_SIZE
    requires pos - start < WINDOW && (!short ==> (pos - start) % BUF_SIZE == 0)
    requires NoNewline(file, start, r - 1) && file[r - 1] == NEWLINE
    ensures IsNextLine(file, start, Reach(short), r)
  {
    hide NoNewline;
  }

  lemma {:induction false} NothingFound(file: Bytes, start: nat, pos: nat, short: bool)
    requires start < |file| && start <= pos && (pos >= |file| || pos - start >= WINDOW)
    requires NoNewline(file, start, pos)
    ensures IsNextLine(file, start, Reach(short), start)
  {
  }

  lemma {:induction false} NextLineMeets(file: Bytes, start: nat, cuts: seq<nat>)
    ensures IsNextLine(file, start, Reach(cuts != []), NextLine(file, start, cuts))
  {
    if start < |file| {
      ScanMeets(file, start, start, cuts != [], cuts);
    }
  }

  // The same without the words used to say it: one past the first byte 10, which is found
  // if it is one of the next 16384, and may be found up to 4095 bytes later by short reads.
  lemma {:induction false} NextLineByCases(file: Bytes, start: nat, reach: nat, r: int)
    requires IsNextLine(file, start, reach, r) && reach <= Reach(true)
    ensures start >= |file| ==> r == |file|
    ensures start < |file| ==> r == start || (start < r <= |file| && r <= start + 20479 && file[r - 1] == 10)
    ensures start < |file| ==> forall p :: start <= p < |file| && p < r - 1 ==> file[p] != 10
    ensures forall p :: start <= p < |file| && p < start + 16384 && file[p] == 10 ==> start < r <= p + 1
    ensures reach == Reach(false) ==> r <= start + 16384 || start >= |file|
  {
  }

  // The scan refines a linear search: whatever the reads, a newline in the window means
  // the result is one past the first of them.
  lemma {:induction false} ScanFindsFirst(file: Bytes, pos: nat, reach: nat, r: int, first: nat)
    requires IsNextLine(file, pos, reach, r)
    requires pos <= first < |file| && first < pos + WINDOW
    requires file[first] == NEWLINE && NoNewline(file, pos, first)
    ensures r == first + 1
  {
    assert !NoNewline(file, pos, pos + WINDOW);
    assert r - 1 > first ==> !NoNewline(file, pos, r - 1);
  }

  // With full reads the scan is a function of the file. Short reads can only decide whether
  // a newline just past the window is picked up.
  lemma {:induction false} ScanIsDetermined(file: Bytes, pos: nat, r: int, r': int)
    requires IsNextLine(file, pos, Reach(false), r) && IsNextLine(file, pos, Reach(false), r')
    ensures r == r'
  {
    if pos < |file| && r != pos {
      ScanFindsFirst(file, pos, Reach(false), r', r - 1);
    }
    if pos < |file| && r' != pos {
      ScanFindsFirst(file, pos, Reach(false), r, r' - 1);
    }
  }

  // The description says no more than the scan does: every result it allows comes from
  // some reads, and what it allows of full reads comes from full reads.
  lemma {:induction false} ScanAttains(file: Bytes, start: nat, short: bool, r: int) returns (cuts: seq<nat>)
    requires IsNextLine(file, start, Reach(short), r)
    ensures NextLine(file, start, cuts) == r && (!short ==> cuts == [])
  {
    if start < |file| && r > start + WINDOW {
      cuts := [BUF_SIZE, BUF_SIZE, BUF_SIZE, BUF_SIZE - 1];
      LastBlock(file, start, r);
    } else {
      cuts := [];
      NextLineMeets(file, start, []);
      ScanIsDetermined(file, start, r, NextLine(file, start, []));
    }
  }

  // Four blocks that leave the window one byte short, and a fifth that goes past it.
  lemma {:induction false} LastBlock(file: Bytes, start: nat, r: nat)
    requires start + WINDOW < r <= |file| && r <= start + Reach(true)
    requires file[r - 1] == NEWLINE && NoNewline(file, start, r - 1)
    ensures NextLine(file, start, [BUF_SIZE, BUF_SIZE, BUF_SIZE, BUF_SIZE - 1]) == r
  {
    hide Scan;
    var b := BUF_SIZE;
    assert Later([b, b, b, b - 1]) == [b, b, b - 1] && Later([b, b, b - 1]) == [b, b - 1];
    assert Later([b, b - 1]) == [b - 1] && Later([b - 1]) == [];
    BlockWithout(file, start, start, [b, b, b, b - 1]);
    BlockWithout(file, start, start + b, [b, b, b - 1]);
    BlockWithout(file, start, start + 2 * b, [b, b - 1]);
    BlockWithout(file, start, start + 3 * b, [b - 1]);
    BlockWith(file, start, start + WINDOW - 1, r);
  }

  lemma {:induction false} BlockWithout(file: Bytes, start: nat, pos: nat, cuts: seq<nat>)
    requires start <= pos < start + WINDOW && pos + ReadLength(cuts) <= |file|
    requires NoNewline(file, pos, pos + ReadLength(cuts))
    ensures Scan(file, start, pos, cuts) == Scan(file, start, pos + ReadLength(cuts), Later(cuts))
  {
  }

  lemma {:induction false} BlockWith(file: Bytes, start: nat, pos: nat, r: nat)
    requires start <= pos < start + WINDOW && pos < r <= |file| && r <= pos + BUF_SIZE
    requires file[r - 1] == NEWLINE && NoNewline(file, pos, r - 1)
    ensures Scan(file, start, pos, []) == r
  {
    var buffer := Slice(file, pos, BUF_SIZE);
    assert buffer[r - 1 - pos] == NEWLINE;
    assert FirstNewline(buffer) == r - 1 - pos;
  }

  // ------------------------------------------------------------ divideFileIntoChunks

  function Weight(i: nat): nat {
    if i == 0 then 3 else 1
  }

  // The local node has weight 3 and the others 1.
  function TotalWeight(n: nat): nat
    ensures n > 0 ==> TotalWeight(n) == n + 2
  {
    if n == 0 then 0 else TotalWeight(n - 1) + Weight(n - 1)
  }

  function Ideal(size: nat, n: nat, i: nat): nat
    requires n > 0
  {
    size * Weight(i) / (n + 2)
  }

  // The end the loop settles on, given what the scan returned.
  function Safeguard(offset: nat, ideal: nat, scanned: int): nat {
    if scanned <= offset || scanned > offset + 2 * ideal then offset + ideal else scanned
  }

  // What the scan of node `i` reads, by its pattern; nodes without one have full reads.
  function CutsOf(patterns: seq<seq<nat>>, i: nat): seq<nat> {
    if i < |patterns| then patterns[i] else []
  }

  // Where the loop puts the end of node `i` that starts at `offset`.
  function EndOf(file: Bytes, n: nat, patterns: seq<seq<nat>>, i: nat, offset: nat): nat
    requires i < n
  {
    if i == n - 1 then |file|
    else
      var ideal := Ideal(|file|, n, i);
      Safeguard(offset, ideal, NextLine(file, offset + ideal, CutsOf(patterns, i)))
  }

  // The boundaries the program computes: node `i` gets `file[b(i)..b(i + 1)]`.
  function Boundary(file: Bytes, n: nat, patterns: seq<seq<nat>>, k: nat): nat
    requires k <= n
  {
    if k == 0 then 0 else EndOf(file, n, patterns, k - 1, Boundary(file, n, patterns, k - 1))
  }

  function Boundaries(file: Bytes, n: nat, patterns: seq<seq<nat>>): (bs: seq<int>)
    ensures |bs| == n + 1
  {
    seq(n + 1, k requires 0 <= k <= n => Boundary(file, n, patterns, k))
  }

  // What is known of them without the reads: `next` may follow the boundary `offset` of
  // node `i` when scans reach at most `reach` bytes.
  ghost predicate IsStep(file: Bytes, n: nat, i: nat, reach: nat, offset: nat, next: int)
    requires n > 0
  {
    if i == n - 1 then
      next == |file|
    else
      exists r :: IsNextLine(file, offset + Ideal(|file|, n, i), reach, r)
                  && next == Safeguard(offset, Ideal(|file|, n, i), r)
  }

  ghost predicate IsDivision(file: Bytes, n: nat, reach: nat, bs: seq<int>)
    requires n > 0
  {
    && |bs| == n + 1
    && bs[0] == 0
    && (forall i :: 0 <= i < n ==> bs[i] >= 0 && IsStep(file, n, i, reach, bs[i], bs[i + 1]))
  }

  lemma {:induction false} EndIsStep(file: Bytes, n: nat, patterns: seq<seq<nat>>, i: nat, offset: nat)
    requires i < n
    ensures IsStep(file, n, i, Reach(patterns != []), offset, EndOf(file, n, patterns, i, offset))
  {
    hide NextLine;
    NextLineMeets(file, offset + Ideal(|file|, n, i), CutsOf(patterns, i));
  }

  lemma {:induction false} BoundariesDivide(file: Bytes, n: nat, patterns: seq<seq<nat>>)
    requires n > 0
    ensures IsDivision(file, n, Reach(patterns != []), Boundaries(file, n, patterns))
  {
    hide IsStep, EndOf;
    var bs := Boundaries(file, n, patterns);
    forall i | 0 <= i < n
      ensures bs[i] >= 0 && IsStep(file, n, i, Reach(patterns != []), bs[i], bs[i + 1])
    {
      EndIsStep(file, n, patterns, i, bs[i]);
    }
  }

  // Every division so described is one the program makes: of some reads in general, and
  // of full reads within their reach.
  lemma {:induction false} DivisionIsRun(file: Bytes, n: nat, short: bool, bs: seq<int>)
    returns (patterns: seq<seq<nat>>)
    requires n > 0 && IsDivision(file, n, Reach(short), bs)
    ensures Boundaries(file, n, patterns) == bs && (!short ==> patterns == [])
  {
    patterns := StepReads(file, n, short, bs, n);
    forall k | 0 <= k <= n
      ensures Boundary(file, n, patterns, k) == bs[k]
    {
      StepsAreRun(file, n, bs, patterns, k);
    }
  }

  // Reads that give the first `k` steps of a division.
  lemma {:induction false} StepReads(file: Bytes, n: nat, short: bool, bs: seq<int>, k: nat)
    returns (patterns: seq<seq<nat>>)
    requires n > 0 && k <= n && IsDivision(file, n, Reach(short), bs)
    ensures |patterns| == if short then k else 0
    ensures forall i :: 0 <= i < k ==> bs[i] >= 0 && EndOf(file, n, patterns, i, bs[i]) == bs[i + 1]
  {
    hide Scan, IsNextLine;
    if k == 0 {
      patterns := [];
    } else {
      var before := StepReads(file, n, short, bs, k - 1);
      var cuts := StepCuts(file, n, k - 1, short, bs[k - 1], bs[k]);
      patterns := if short then before + [cuts] else [];
    }
  }

  lemma {:induction false} StepCuts(file: Bytes, n: nat, i: nat, short: bool, offset: nat, next: int)
    returns (cuts: seq<nat>)
    requires i < n && IsStep(file, n, i, Reach(short), offset, next)
    ensures !short ==> cuts == []
    ensures next == if i == n - 1 then |file| else
                    Safeguard(offset, Ideal(|file|, n, i), NextLine(file, offset + Ideal(|file|, n, i), cuts))
  {
    hide NextLine, IsNextLine;
    cuts := [];
    if i < n - 1 {
      var r :| IsNextLine(file, offset + Ideal(|file|, n, i), Reach(short), r)
               && next == Safeguard(offset, Ideal(|file|, n, i), r);
      cuts := ScanAttains(file, offset + Ideal(|file|, n, i), short, r);
    }
  }

  lemma {:induction false} StepsAreRun(file: Bytes, n: nat, bs: seq<int>, patterns: seq<seq<nat>>, k: nat)
    requires k <= n && |bs| == n + 1 && bs[0] == 0
    requires forall i :: 0 <= i < n ==> bs[i] >= 0 && EndOf(file, n, patterns, i, bs[i]) == bs[i + 1]
    ensures Boundary(file, n, patterns, k) == bs[k]
  {
    hide EndOf;
    if k > 0 {
      StepsAreRun(file, n, bs, patterns, k - 1);
    }
  }

  // The body of the loop: where the chunk that starts at `offset` ends.
  method ChunkEnd(file: Bytes, n: nat, i: nat, totalWeight: nat, offset: nat, patterns: seq<seq<nat>>)
    returns (adjustedEnd: nat)
    requires i < n && totalWeight == TotalWeight(n)
    ensures adjustedEnd == EndOf(file, n, patterns, i, offset)
    ensures IsStep(file, n, i, Reach(patterns != []), offset, adjustedEnd)
  {
    hide IsNextLine, NextLine;
    EndIsStep(file, n, patterns, i, offset);
    var fileSize := |file|;
    var currWeight := if i == 0 then 3 else 1;
    var idealChunk := fileSize * currWeight / totalWeight;
    var tentativeEnd := offset + idealChunk;
    if i == n - 1 {
      adjustedEnd := fileSize;
    } else {
      assert idealChunk == Ideal(fileSize, n, i);
      adjustedEnd := AdjustToNextLine(file, tentativeEnd, CutsOf(patterns, i));
      if adjustedEnd <= offset || adjustedEnd > tentativeEnd + idealChunk {
        adjustedEnd := tentativeEnd;
      }
    }
  }

  lemma {:induction false} BoundarySteps(file: Bytes, n: nat, patterns: seq<seq<nat>>)
    ensures Boundary(file, n, patterns, 0) == 0
    ensures forall i: nat :: i < n ==>
              Boundary(file, n, patterns, i + 1) == EndOf(file, n, patterns, i, Boundary(file, n, patterns, i))
  {
  }

  method DivideFileIntoChunks(
    file: Bytes, n: nat, patterns: seq<seq<nat>>, trainOffset: array<int>, trainChunkSize: array<int>)
    requires trainOffset != trainChunkSize && trainOffset.Length == n && trainChunkSize.Length == n
    modifies trainOffset, trainChunkSize
    ensures |file| == 0 ==> trainOffset[..] == old(trainOffset[..]) && trainChunkSize[..] == old(trainChunkSize[..])
    ensures |file| > 0 && n > 0 ==>
      var bs := Boundaries(file, n, patterns);
      && IsDivision(file, n, Reach(patterns != []), bs)
      && (forall i :: 0 <= i < n ==> trainOffset[i] == bs[i] && trainChunkSize[i] == bs[i + 1] - bs[i])
      && trainOffset[0] == 0 && trainOffset[n - 1] + trainChunkSize[n - 1] == |file|
      && forall i :: 0 <= i < n - 1 ==> trainOffset[i] + trainChunkSize[i] == trainOffset[i + 1]
  {
    hide IsDivision, EndOf, Boundary;
    BoundarySteps(file, n, patterns);
    if |file| <= 0 {
      return;
    }
    var totalWeight := 0;
    for i := 0 to n
      invariant totalWeight == TotalWeight(i)
    {
      totalWeight := totalWeight + if i == 0 then 3 else 1;
    }
    var offset: nat := 0;
    for i := 0 to n
      invariant offset == Boundary(file, n, patterns, i)
      invariant forall k :: 0 <= k < i ==>
        && trainOffset[k] == Boundary(file, n, patterns, k)
        && trainChunkSize[k] == Boundary(file, n, patterns, k + 1) - Boundary(file, n, patterns, k)
    {
      var adjustedEnd := ChunkEnd(file, n, i, totalWeight, offset, patterns);
      var finalChunk := adjustedEnd - offset;
      trainOffset[i] := offset;
      trainChunkSize[i] := finalChunk;
      offset := adjustedEnd;
    }
    if n > 0 {
      BoundariesDivide(file, n, patterns);
      LastIsEnd(file, n, patterns);
    }
  }

  lemma {:induction false} LastIsEnd(file: Bytes, n: nat, patterns: seq<seq<nat>>)
    requires n > 0
    ensures Boundary(file, n, patterns, n) == |file|
  {
  }

  // ------------------------------------------------------------ the boundaries in numbers

  // The share of node `i` is 3 or 1 of n + 2 parts of the file, rounded down once.
  lemma {:induction false} ShareIs(size: nat, n: nat, i: nat, share: nat)
    requires n > 0
    requires (n + 2) * share <= size * (if i == 0 then 3 else 1) < (n + 2) * (share + 1)
    ensures Ideal(size, n, i) == share
  {
    assert share * (n + 2) == (n + 2) * share && (share + 1) * (n + 2) == (n + 2) * (share + 1);
    QuotientIs(size * Weight(i), n + 2, share);
  }

  // Where node `i` ends, by what stands in the file. A share is two-sidedly bounded instead
  // of computed, so that it is pinned without dividing.
  lemma {:induction false} BoundaryByCases(file: Bytes, n: nat, patterns: seq<seq<nat>>, i: nat, share: nat)
    requires i < n
    requires (n + 2) * share <= |file| * (if i == 0 then 3 else 1) < (n + 2) * (share + 1)
    ensures var bs := Boundaries(file, n, patterns);
            var offset, next, aim := bs[i], bs[i + 1], bs[i] + share;
            && bs[0] == 0
            && (i == n - 1 ==> next == |file|)
            && (i < n - 1 && aim >= |file| ==> next == if offset < |file| then |file| else aim)
            && (i < n - 1 && aim < |file| ==>
                  && (next == aim || (aim < next <= |file| && next <= aim + share && file[next - 1] == 10))
                  && (forall p :: aim <= p < |file| && p < next - 1 ==> file[p] != 10)
                  && (forall p :: aim <= p < |file| && p < aim + 16384 && p < aim + share && file[p] == 10 ==>
                        aim < next <= p + 1)
                  && next <= aim + if patterns != [] then 20479 else 16384)
  {
    hide *;
    var bs := Boundaries(file, n, patterns);
    BoundaryIs(file, n, patterns, i, share);
    if i < n - 1 {
      var offset: nat, cuts := bs[i], CutsOf(patterns, i);
      NextLineMeets(file, offset + share, cuts);
      SafeguardByCases(file, offset, share, cuts != [], patterns != [], NextLine(file, offset + share, cuts));
    }
  }

  lemma {:induction false} BoundaryIs(file: Bytes, n: nat, patterns: seq<seq<nat>>, i: nat, share: nat)
    requires i < n
    requires (n + 2) * share <= |file| * (if i == 0 then 3 else 1) < (n + 2) * (share + 1)
    ensures var bs := Boundaries(file, n, patterns);
            && bs[0] == 0 && bs[i] >= 0
            && (i == n - 1 ==> bs[i + 1] == |file|)
            && (i < n - 1 ==>
                  && bs[i + 1] == Safeguard(bs[i], share, NextLine(file, bs[i] + share, CutsOf(patterns, i)))
                  && (CutsOf(patterns, i) != [] ==> patterns != []))
  {
    BoundarySteps(file, n, patterns);
    ShareIs(|file|, n, i, share);
    hide Ideal, NextLine, Boundary, Safeguard;
  }

  lemma {:induction false} SafeguardByCases(file: Bytes, offset: nat, share: nat, short: bool, any: bool, r: nat)
    requires IsNextLine(file, offset + share, Reach(short), r) && (short ==> any)
    ensures var next, aim := Safeguard(offset, share, r), offset + share;
            && (aim >= |file| ==> next == if offset < |file| then |file| else aim)
            && (aim < |file| ==>
                  && (next == aim || (aim < next <= |file| && next <= aim + share && file[next - 1] == 10))
                  && (forall p :: aim <= p < |file| && p < next - 1 ==> file[p] != 10)
                  && (forall p :: aim <= p < |file| && p < aim + 16384 && p < aim + share && file[p] == 10 ==>
                        aim < next <= p + 1)
                  && next <= aim + if any then 20479 else 16384)
  {
    hide IsNextLine;
    NextLineByCases(file, offset + share, Reach(short), r);
  }

  // Seven bytes without a newline over two nodes: five for the local node, two for the other.
  lemma {:induction false} SevenBytes(file: Bytes)
    requires |file| == 7 && forall p :: 0 <= p < 7 ==> file[p] != 10
    ensures Boundaries(file, 2, []) == [0, 5, 7]
  {
    BoundaryByCases(file, 2, [], 0, 5);
    BoundaryByCases(file, 2, [], 1, 1);
  }
}
