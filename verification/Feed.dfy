/** Running the user's program on a part of a file: the loops that feed its standard
    input, and what is made of its output. */
module Feed {
  import opened Files
  import opened Words
  import opened Decimal

  const BUF_SIZE := 65536

  // The standard input of the child process.
  class Pipe {
    var delivered: Bytes

    constructor ()
      ensures delivered == []
    {
      delivered := [];
    }

    // write: takes between one byte and all of them.
    method Write(data: Bytes) returns (written: nat)
      requires data != []
      modifies this
      ensures 1 <= written <= |data| && delivered == old(delivered) + data[..written]
    {
      written :| 1 <= written <= |data|;
      delivered := delivered + data[..written];
    }
  }

  method WriteAll(pipe: Pipe, data: Bytes)
    modifies pipe
    ensures pipe.delivered == old(pipe.delivered) + data
  {
    var total := 0;
    while total < |data|
      invariant 0 <= total <= |data|
      invariant pipe.delivered == old(pipe.delivered) + data[..total]
    {
      var w := pipe.Write(data[total..]);
      assert data[..total + w] == data[..total] + data[total..][..w];
      total := total + w;
    }
    assert data[..total] == data;
  }

  // What a request for `size` bytes from `offset` can get from the file.
  function Portion(file: Bytes, offset: nat, size: int): Bytes {
    if size <= 0 then [] else Slice(file, offset, size)
  }

  lemma {:induction false} PortionIs(file: Bytes, offset: nat, size: int)
    ensures size <= 0 ==> Portion(file, offset, size) == []
    ensures size > 0 && offset + size <= |file| ==> Portion(file, offset, size) == file[offset..offset + size]
    ensures size > 0 && offset <= |file| < offset + size ==> Portion(file, offset, size) == file[offset..]
    ensures |file| <= offset ==> Portion(file, offset, size) == []
  {
    PartIs(file, offset, offset + size);
  }

  // The loop of the local node, which also stops at the end of the file: whatever the
  // short reads and writes, the child gets its portion in order and once.
  method FeedLocal(file: Bytes, start: nat, size: int, pipe: Pipe, short: bool)
    modifies pipe
    ensures pipe.delivered == old(pipe.delivered) + Portion(file, start, size)
    ensures size > 0 && start + size <= |file| ==> pipe.delivered == old(pipe.delivered) + file[start..start + size]
    ensures size > 0 && start <= |file| < start + size ==> pipe.delivered == old(pipe.delivered) + file[start..]
    ensures size <= 0 || |file| <= start ==> pipe.delivered == old(pipe.delivered)
  {
    hide Slice, Portion;
    PortionIs(file, start, size);
    ghost var before := pipe.delivered;
    NothingYet(before, file, start);
    var remaining := size;
    var offset := start;
    while remaining > 0
      invariant start <= offset && (offset == start || offset <= |file|)
      invariant remaining == size - (offset - start)
      invariant offset == start || remaining >= 0
      invariant pipe.delivered == before + Slice(file, start, offset - start)
    {
      var toRead := Min(BUF_SIZE, remaining);
      var data := Pread(file, toRead, offset, short);
      if data == [] {
        break;
      }
      WriteAll(pipe, data);
      Appended(before, file, start, offset - start, |data|);
      offset := offset + |data|;
      remaining := remaining - |data|;
    }
    WholePortion(file, start, size, offset);
  }

  // The loop stops with the portion delivered or the file at its end.
  lemma {:induction false} WholePortion(file: Bytes, start: nat, size: int, offset: nat)
    requires start <= offset && (offset == start || offset <= |file|)
    requires if offset - start >= size then offset == start || offset == start + size else offset >= |file|
    ensures Slice(file, start, offset - start) == Portion(file, start, size)
  {
  }

  lemma {:induction false} NothingYet(before: Bytes, file: Bytes, start: nat)
    ensures before + Slice(file, start, 0) == before
  {
  }

  // The loop of a worker stops only when reading fails, so it needs the portion to be
  // on disk: at the end of the file it would read nothing for ever.
  method FeedWorker(file: Bytes, start: nat, size: int, pipe: Pipe, short: bool)
    requires size <= 0 || start + size <= |file|
    modifies pipe
    ensures pipe.delivered == old(pipe.delivered) + Portion(file, start, size)
    ensures pipe.delivered == old(pipe.delivered) + if size <= 0 then [] else file[start..start + size]
  {
    PortionIs(file, start, size);
    hide Slice;
    ghost var before := pipe.delivered;
    NothingYet(before, file, start);
    var remaining := size;
    var offset := start;
    while remaining > 0
      invariant start <= offset && offset + remaining == start + size
      invariant offset == start || offset <= |file|
      invariant remaining >= 0 || offset == start
      decreases remaining
      invariant pipe.delivered == before + Slice(file, start, offset - start)
    {
      var toRead := Min(BUF_SIZE, remaining);
      var data := Pread(file, toRead, offset, short);
      assert data != [];
      WriteAll(pipe, data);
      Appended(before, file, start, offset - start, |data|);
      offset := offset + |data|;
      remaining := remaining - |data|;
    }
    if size > 0 {
      assert offset == start + size;
    }
  }

  // What a node makes of the output: the number it starts with, or -1.
  function NodeResult(stdout: string): int {
    match Stoll(stdout)
    case Some(v) => v
    case None => -1
  }

  // For a program that prints a number of 64 bits it is that number, whatever follows on
  // the next line; for one that prints no digit first it is -1.
  lemma {:induction false} NodeResultIs(v: int, more: string)
    ensures -0x8000_0000_0000_0000 <= v < 0x8000_0000_0000_0000 ==> NodeResult(ToString(v) + "\n" + more) == v
    ensures !(-0x8000_0000_0000_0000 <= v < 0x8000_0000_0000_0000) ==> NodeResult(ToString(v)) == -1
    ensures NodeResult("") == -1 && NodeResult("x" + more) == -1
  {
    hide ToString, ParseInteger, InRange;
    Ranges(v);
    if -0x8000_0000_0000_0000 <= v < 0x8000_0000_0000_0000 {
      LongIsInRange(v);
      var tail := "\n" + more;
      ParsePrinted(v, 64, "", tail);
      assert "" + ToString(v) + tail == ToString(v) + "\n" + more;
    }
    ParsesNothing("", "", "", 64);
    ParsesNothing("", "", "x" + more, 64);
    assert "" + "" + "" == "" && "" + "" + ("x" + more) == "x" + more;
  }

  lemma LongIsInRange(v: int)
    requires -0x8000_0000_0000_0000 <= v < 0x8000_0000_0000_0000
    ensures InRange(v, 64)
  {
    Powers();
  }

  method DistributiveComputingLocal(file: Bytes, offset: nat, size: int, run: Bytes -> string, short: bool)
    returns (result: int)
    ensures result == NodeResult(run(Portion(file, offset, size)))
    ensures Stoll(run(Portion(file, offset, size))).None? ==> result == -1
  {
    var pipe := new Pipe();
    FeedLocal(file, offset, size, pipe, short);
    assert pipe.delivered == Portion(file, offset, size);
    var output := run(pipe.delivered);
    var parsed := Stoll(output);
    if parsed.None? {
      return -1;
    }
    result := parsed.value;
  }

  method DistributiveComputing(file: Bytes, offset: nat, remaining: int, run: Bytes -> string, short: bool)
    returns (result: int)
    requires remaining <= 0 || offset + remaining <= |file|
    ensures result == NodeResult(run(Portion(file, offset, remaining)))
    ensures Stoll(run(Portion(file, offset, remaining))).None? ==> result == -1
  {
    var pipe := new Pipe();
    FeedWorker(file, offset, remaining, pipe, short);
    assert pipe.delivered == Portion(file, offset, remaining);
    var output := run(pipe.delivered);
    var parsed := Stoll(output);
    if parsed.None? {
      return -1;
    }
    result := parsed.value;
  }
}
