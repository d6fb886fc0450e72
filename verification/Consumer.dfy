/** The handler's loop as one sequential program, whatever the receiver does between its
    rounds. */
module Consumer {
  import opened Files
  import opened Words
  import opened Decimal
  import opened Feed
  import opened Answer

  // What a round of the loop finds: the value of processedBytes it reads, and the train
  // file while it feeds from it.
  datatype View = View(published: nat, file: Bytes)

  // What the receiver guarantees of successive rounds: published bytes are on disk, the
  // file is a prefix of the slice, the count never falls, and in the end it is complete.
  ghost predicate Consistent(slice: Bytes, views: seq<View>) {
    && (forall i :: 0 <= i < |views| ==> views[i].published <= |views[i].file| && views[i].file <= slice)
    && (forall i, j :: 0 <= i < j < |views| ==> views[i].published <= views[j].published)
    && (|views| == 0 ==> slice == [])
    && (|views| > 0 ==> views[|views| - 1].published == |slice|)
  }

  // Any counts that never fall and end at the whole slice can be found, with no more on disk
  // than is published.
  lemma {:induction false} AnyCountsAreConsistent(slice: Bytes, counts: seq<nat>, views: seq<View>)
    requires forall i, j :: 0 <= i < j < |counts| ==> counts[i] <= counts[j]
    requires counts != [] && counts[|counts| - 1] == |slice|
    requires |views| == |counts|
    requires forall i :: 0 <= i < |views| ==> views[i] == View(counts[i], if counts[i] <= |slice| then slice[..counts[i]] else [])
    ensures Consistent(slice, views)
  {
    forall i | 0 <= i < |views|
      ensures counts[i] <= |slice|
    {
      if i < |views| - 1 {
        assert counts[i] <= counts[|counts| - 1];
      }
    }
  }

  function Number(run: Bytes -> string): Bytes -> int {
    input => NodeResult(run(input))
  }

  // The rounds end, consume the slice once and in order, and send the fold of its parts.
  method HandleStream(ghost slice: Bytes, fileSize: int, views: seq<View>, run: Bytes -> string, short: bool)
    returns (reply: string, ghost segments: seq<Bytes>)
    requires fileSize == |slice| && Consistent(slice, views)
    ensures Concat(segments) == slice && |segments| <= |views|
    ensures segments != [] ==> segments[|segments| - 1] != []
    ensures reply == ToString(XorAll(Ints(Number(run), segments)))
    ensures Distributes(Number(run)) && |slice| < LIMIT ==> reply == ToString(ToInt(Number(run)(slice)))
  {
    hide *;
    NothingYet(run, slice, views);
    var finalResult := 0;
    var offset: nat := 0;
    var round := 0;
    segments := [];
    while offset != fileSize
      invariant 0 <= round <= |views| && |segments| == round
      invariant offset <= |slice| && offset == (if round == 0 then 0 else views[round - 1].published)
      invariant Concat(segments) == slice[..offset]
      invariant offset == |slice| && segments != [] ==> segments[|segments| - 1] != []
      invariant finalResult == XorAll(Ints(Number(run), segments))
      decreases |views| - round
    {
      if round == |views| {
        LastView(slice, views);
      }
      ViewIs(slice, views, round);
      var view := views[round];
      var remaining := view.published - offset;
      var value := DistributiveComputing(view.file, offset, remaining, run, short);
      var temp := ToInt(value);
      finalResult := Xor(finalResult, temp);
      segments := OneMore(slice, segments, offset, view, run, value);
      offset := offset + remaining;
      round := round + 1;
    }
    assert slice[..offset] == slice;
    reply := ToString(finalResult);
    if Distributes(Number(run)) && |slice| < LIMIT {
      FoldOfParts(Number(run), segments);
    }
  }

  lemma {:induction false} NothingYet(run: Bytes -> string, slice: Bytes, views: seq<View>)
    ensures Concat<byte>([]) == slice[..0] && XorAll(Ints(Number(run), [])) == 0
  {
    assert Ints(Number(run), []) == [];
  }

  lemma LastView(slice: Bytes, views: seq<View>)
    requires Consistent(slice, views)
    ensures |slice| == if views == [] then 0 else views[|views| - 1].published
  {
  }

  lemma ViewIs(slice: Bytes, views: seq<View>, round: nat)
    requires Consistent(slice, views) && round < |views|
    ensures views[round].published <= |views[round].file| <= |slice| && views[round].file <= slice
    ensures round > 0 ==> views[round - 1].published <= views[round].published
  {
  }

  // The segment of a round and what it adds.
  lemma {:induction false} OneMore(
    slice: Bytes, segments: seq<Bytes>, offset: nat, view: View, run: Bytes -> string, value: int)
    returns (more: seq<Bytes>)
    requires offset <= view.published <= |view.file| && view.file <= slice
    requires Concat(segments) == slice[..offset]
    requires value == NodeResult(run(Portion(view.file, offset, view.published - offset)))
    ensures |more| == |segments| + 1 && Concat(more) == slice[..view.published]
    ensures |more[|segments|]| == view.published - offset
    ensures XorAll(Ints(Number(run), more)) == Xor(XorAll(Ints(Number(run), segments)), ToInt(value))
  {
    hide ToInt, Xor, NodeResult;
    var part := Portion(view.file, offset, view.published - offset);
    more := segments + [part];
    ConcatSnoc(segments, part);
    assert slice[..offset] + part == slice[..view.published];
    assert Ints(Number(run), more) == Ints(Number(run), segments) + [ToInt(value)];
    XorAllSnoc(Ints(Number(run), segments), ToInt(value));
  }
}
