/** What a failed partition does to the transfer of the last chunk. */
module Overrun {
  import opened Files
  import opened Sockets
  import opened Wire
  import opened Splitter
  import opened Partition
  import opened Transfer

  // The boundary before the last decides whether a division is a partition.
  lemma {:induction false} LastBoundaryDecides(file: Bytes, n: nat, reach: nat, bs: seq<int>)
    requires n > 0 && IsDivision(file, n, reach, bs)
    ensures InBounds(|file|, bs) <==> bs[n - 1] <= |file|
  {
    assert IsStep(file, n, n - 1, reach, bs[n - 1], bs[n]);
    if bs[n - 1] <= |file| {
      forall k | 0 <= k < n
        ensures 0 <= bs[k] <= |file| && bs[k] <= bs[k + 1]
      {
        BoundariesRise(file, n, reach, bs, k, n - 1);
        if k < n - 1 {
          BoundariesRise(file, n, reach, bs, k, k + 1);
        }
      }
    }
  }

  lemma {:induction false} BoundariesRise(file: Bytes, n: nat, reach: nat, bs: seq<int>, j: nat, k: nat)
    requires n > 0 && IsDivision(file, n, reach, bs) && j <= k < n
    ensures 0 <= bs[j] <= bs[k]
  {
    hide IsStep;
    if j < k {
      BoundariesRise(file, n, reach, bs, j, k - 1);
      StepLaws(file, n, k - 1, reach, bs[k - 1], bs[k]);
    }
  }

  // However far the boundaries overrun, it is by less than the size of the file.
  lemma {:induction false} BoundaryBelowTwice(file: Bytes, n: nat, reach: nat, bs: seq<int>, k: nat)
    requires n > 0 && IsDivision(file, n, reach, bs) && k < n
    ensures 0 <= bs[k] <= 2 * |file|
    ensures (n + 2) * bs[k] <= 2 * (|file| * TotalWeight(k))
  {
    hide IsStep;
    if k > 0 {
      BoundaryBelowTwice(file, n, reach, bs, k - 1);
      StepLaws(file, n, k - 1, reach, bs[k - 1], bs[k]);
      var ideal := Ideal(|file|, n, k - 1);
      ShareTimes(|file|, n, k - 1);
      OneShareMore(n + 2, bs[k - 1], bs[k], ideal, |file|, TotalWeight(k - 1), Weight(k - 1));
      WeightsBelow(n + 2, bs[k], |file|, TotalWeight(k));
    }
  }

  lemma {:induction false} ShareTimes(size: nat, n: nat, i: nat)
    requires n > 0
    ensures (n + 2) * Ideal(size, n, i) <= size * Weight(i)
  {
    Quotient(size * Weight(i), n + 2);
  }

  lemma {:induction false} OneShareMore(w: nat, before: nat, after: nat, ideal: nat, size: nat, total: nat, weight: nat)
    requires after <= before + 2 * ideal && w * ideal <= size * weight
    requires w * before <= 2 * (size * total)
    ensures w * after <= 2 * (size * (total + weight))
  {
    Times(after, before + 2 * ideal, w);
    assert w * (before + 2 * ideal) == w * before + 2 * (w * ideal);
    assert size * (total + weight) == size * total + size * weight;
  }

  lemma {:induction false} WeightsBelow(w: nat, b: nat, size: nat, total: nat)
    requires w > 0 && total <= w && w * b <= 2 * (size * total)
    ensures b <= 2 * size
  {
    Times(total, w, size);
    assert (2 * size + 1) * w == 2 * (size * w) + w;
    if b > 2 * size {
      Times(2 * size + 1, b, w);
    }
  }

  // Dividing the file and sending the last chunk to its worker, under any reads and any
  // fragmentation. The transfer succeeds if and only if the division is a partition.
  // Otherwise the sender announces a size that is not zero and sends none of it, noticing
  // only if the chunk is -1; the worker's file stays empty, and it publishes nothing.
  method SendLastChunk(file: Bytes, n: nat, patterns: seq<seq<nat>>, filename: Bytes, worker: WorkerProcess)
    returns (ok: bool, status: int)
    requires n > 0 && 0 < |file| < TWO_64 / 2
    requires Acceptable(TRAIN, filename, 0)
    modifies worker
    ensures var bs := Boundaries(file, n, patterns);
            var path := OutPath(TRAIN, BaseName(filename));
            && (status == 0 <==> InBounds(|file|, bs))
            && (status == 0 ==> ok && worker.disk == old(worker.disk)[path := file[bs[n - 1]..]])
            && (status != 0 ==>
                  && status == -1 && (ok <==> bs[n] - bs[n - 1] < -1)
                  && worker.disk == old(worker.disk)[path := []]
                  && worker.fileSize == AnnouncedSize(file, bs[n] - bs[n - 1]) != 0
                  && worker.processedBytes == 0)
  {
    hide IsDivision, InBounds, Boundaries, Acceptable, AnnouncedSize, OutPath, BaseName;
    var trainOffset, trainChunkSize := new int[n], new int[n];
    DivideFileIntoChunks(file, n, patterns, trainOffset, trainChunkSize);
    LastChunk(file, n, Reach(patterns != []), Boundaries(file, n, patterns));
    ok, status := SendRest(file, filename, trainOffset[n - 1], trainChunkSize[n - 1], worker);
  }

  // The transfer of the part from `offset` to the end of the file, or to before `offset`.
  method SendRest(file: Bytes, filename: Bytes, offset: nat, chunk: int, worker: WorkerProcess)
    returns (ok: bool, status: int)
    requires 0 < |file| < TWO_64 / 2 && chunk == |file| - offset && offset <= 2 * |file|
    requires Acceptable(TRAIN, filename, 0)
    modifies worker
    ensures var path := OutPath(TRAIN, BaseName(filename));
            && (status == 0 <==> offset <= |file|)
            && (status == 0 ==> ok && worker.disk == old(worker.disk)[path := file[offset..]])
            && (status != 0 ==>
                  && status == -1 && (ok <==> chunk < -1)
                  && worker.disk == old(worker.disk)[path := []]
                  && worker.fileSize == AnnouncedSize(file, chunk) != 0
                  && worker.processedBytes == 0)
  {
    hide Parse, Preamble, OutPath, BaseName, Payload, GoodPath;
    NameFits();
    var sender := new Socket([]);
    ok := SendFile(sender, file, filename, TRAIN, offset, chunk);
    LastStream(file, filename, offset, chunk, sender.outgoing);
    var receiver := new Socket(sender.outgoing);
    status := ReceiveFile(receiver, worker);
  }

  lemma {:induction false} LastChunk(file: Bytes, n: nat, reach: nat, bs: seq<int>)
    requires n > 0 && IsDivision(file, n, reach, bs)
    ensures bs[n] == |file| && 0 <= bs[n - 1] <= 2 * |file|
    ensures InBounds(|file|, bs) <==> bs[n - 1] <= |file|
  {
    LastBoundaryDecides(file, n, reach, bs);
    BoundaryBelowTwice(file, n, reach, bs, n - 1);
    assert IsStep(file, n, n - 1, reach, bs[n - 1], bs[n]);
  }

  // What the worker makes of the stream.
  lemma {:induction false} LastStream(file: Bytes, filename: Bytes, offset: nat, chunk: int, stream: Bytes)
    requires 0 < |file| < TWO_64 / 2 && chunk == |file| - offset && offset <= 2 * |file|
    requires Acceptable(TRAIN, filename, 0)
    requires Unsigned64(AnnouncedSize(file, chunk)) >= 0
    requires stream == [] + Preamble(TRAIN, filename, AnnouncedSize(file, chunk))
                       + Payload(file, offset, AnnouncedSize(file, chunk))
    ensures var size := AnnouncedSize(file, chunk);
            var rest := if chunk >= 0 then file[offset..] else [];
            && Parse(stream) ==
               Accepted(Header(TRAIN, OutPath(TRAIN, BaseName(filename)), Unsigned64(size)), rest)
            && Arrived(Header(TRAIN, OutPath(TRAIN, BaseName(filename)), Unsigned64(size)), rest) == rest
            && Signed64(Unsigned64(size)) == size
            && (chunk >= 0 ==> Unsigned64(size) == |rest|)
            && (chunk < 0 ==> Unsigned64(size) > 0 && size != 0)
  {
    hide Parse, Preamble, OutPath, BaseName, GoodPath;
    var size := AnnouncedSize(file, chunk);
    SizeFits(size);
    NameFits();
    var rest: Bytes := if chunk >= 0 then file[offset..] else [];
    assert Payload(file, offset, size) == rest;
    assert rest[..|rest|] == rest;
    assert [] + Preamble(TRAIN, filename, size) == Preamble(TRAIN, filename, size);
    RoundTrip(TRAIN, filename, size, rest);
  }
}
