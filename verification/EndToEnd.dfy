/** The whole computation: split the file, send each slice, stream it through a worker,
    combine the replies. */
module EndToEnd {
  import opened Options
  import opened Files
  import opened Words
  import opened Decimal
  import opened CStrings
  import opened Wire
  import Sending = Transfer
  import opened Feed
  import opened Splitter
  import opened Partition
  import opened Lines
  import opened Worker
  import opened Invariant
  import opened Answer
  import opened Handoff
  import Completion
  import Necessity
  import Overlap

  // ------------------------------------------------------------ combining the results

  // The loop over the futures: an int combined with long long values.
  method CombineResults(values: seq<int>) returns (result: int)
    ensures result == ToInt(XorAll(values))
    ensures -0x8000_0000 <= result < 0x8000_0000
    ensures (XorAll(values) - result) % 0x1_0000_0000 == 0
  {
    hide ToInt, Xor;
    IntIsLow32(XorAll(values));
    result := 0;
    assert values[..0] == [];
    ToIntZero();
    for i := 0 to |values|
      invariant result == ToInt(XorAll(values[..i]))
    {
      CombineOne(XorAll(values[..i]), values[i]);
      XorAllSnoc(values[..i], values[i]);
      assert values[..i + 1] == values[..i] + [values[i]];
      result := ToInt(Xor(result, values[i]));
    }
    assert values[..|values|] == values;
  }

  lemma {:induction false} CombineOne(v: int, w: int)
    ensures ToInt(Xor(ToInt(v), w)) == ToInt(Xor(v, w))
  {
    WrapXor(ToInt(v), w, INT_BITS);
    WrapXor(v, w, INT_BITS);
    WrapTwice(v, INT_BITS);
  }

  // Truncating every partial result first makes no difference.
  lemma {:induction false} TruncateFirst(values: seq<int>, truncated: seq<int>)
    requires |truncated| == |values|
    requires forall i :: 0 <= i < |values| ==> truncated[i] == ToInt(values[i])
    ensures XorAll(truncated) == ToInt(XorAll(values))
  {
    hide ToInt, Xor;
    if values == [] {
      ToIntZero();
    } else {
      var m := |values| - 1;
      TruncateFirst(values[..m], truncated[..m]);
      IntXor(XorAll(values[..m]), values[m]);
    }
  }

  // ------------------------------------------------------------ the jobs

  const MAIN := Ascii("main.cpp")
  const TEST := Ascii("test.txt")
  const CODE_PATH := OutPath(CODE, MAIN)
  const TRAIN_PATH := OutPath(TRAIN, TEST)

  // What the client sends to one worker, as file names and contents.
  datatype Package = Package(
    codeName: Bytes, code: Bytes, reducerName: Bytes, reducer: Bytes, trainName: Bytes, slice: Bytes)

  // Names fit the receiver, and the two files the worker uses are called as it expects.
  ghost predicate Sendable(k: Package) {
    && Acceptable(CODE, k.codeName, |k.code|) && BaseName(k.codeName) == MAIN
    && Acceptable(REDUCER, k.reducerName, |k.reducer|)
    && Acceptable(TRAIN, k.trainName, |k.slice|) && BaseName(k.trainName) == TEST
  }

  function Sent(folder: Bytes, name: Bytes, contents: Bytes): Transfer {
    Transfer(Parse(Stream(folder, name, contents)), folder, OutPath(folder, BaseName(name)), contents)
  }

  // The first job of a worker process.
  function JobOf(k: Package, run: (Bytes, Bytes) -> string): Job {
    Job(Sent(CODE, k.codeName, k.code), Sent(REDUCER, k.reducerName, k.reducer), Sent(TRAIN, k.trainName, k.slice),
        CODE_PATH, TRAIN_PATH, None, run)
  }

  lemma {:induction false} SentIsReadable(folder: Bytes, name: Bytes, contents: Bytes)
    requires Acceptable(folder, name, |contents|)
    ensures Readable(Sent(folder, name, contents))
  {
    hide Parse, Stream, OutPath;
    StreamIsRead(folder, name, contents, []);
    assert Stream(folder, name, contents) + [] == Stream(folder, name, contents);
    assert contents + [] == contents;
  }

  // What `distributiveComputingOverNetwork` sends for one node: code and reducer whole, by
  // the default chunk, and its chunk of the train file.
  method SendPackage(
    codeName: Bytes, code: Bytes, reducerName: Bytes, reducer: Bytes,
    trainName: Bytes, train: Bytes, offset: nat, chunk: nat, ghost run: (Bytes, Bytes) -> string)
    returns (codeStream: Bytes, reducerStream: Bytes, trainStream: Bytes)
    requires offset + chunk <= |train|
    requires |code| < LIMIT && |reducer| < LIMIT && |train| < LIMIT
    requires |codeName| < NAME_SIZE && |reducerName| < NAME_SIZE && |trainName| < NAME_SIZE
    ensures var p := JobOf(Package(codeName, code, reducerName, reducer, trainName, train[offset..offset + chunk]), run);
            && p.code.parsed == Parse(codeStream) && p.code.contents == code
            && p.reducer.parsed == Parse(reducerStream) && p.reducer.contents == reducer
            && p.train.parsed == Parse(trainStream) && p.train.contents == train[offset..offset + chunk]
  {
    hide Stream, Parse, OutPath, BaseName;
    assert |CODE| < NAME_SIZE && |REDUCER| < NAME_SIZE && |TRAIN| < NAME_SIZE;
    codeStream := Sending.SendPart(code, codeName, CODE, 0, -1);
    reducerStream := Sending.SendPart(reducer, reducerName, REDUCER, 0, -1);
    trainStream := Sending.SendPart(train, trainName, TRAIN, offset, chunk);
  }

  // The paths the handler compiles and opens.
  lemma {:induction false} HandlerPaths()
    ensures CODE_PATH == Ascii("received_files/code/main.cpp")
    ensures TRAIN_PATH == Ascii("received_files/train/test.txt")
    ensures MAIN == [109, 97, 105, 110, 46, 99, 112, 112]
    ensures TEST == [116, 101, 115, 116, 46, 116, 120, 116]
  {
  }

  // What the client sends is what the worker needs: the job of any sendable package
  // meets every assumption made of a job.
  lemma {:induction false} PackageIsReady(k: Package, run: (Bytes, Bytes) -> string)
    requires Sendable(k)
    ensures Ready(JobOf(k, run))
  {
    hide Parse, Stream, OutPath, Readable;
    SentIsReadable(CODE, k.codeName, k.code);
    SentIsReadable(REDUCER, k.reducerName, k.reducer);
    SentIsReadable(TRAIN, k.trainName, k.slice);
    hide LiesIn;
    PathLiesIn(CODE, MAIN);
    PathLiesIn(REDUCER, BaseName(k.reducerName));
    PathLiesIn(TRAIN, TEST);
  }

  // ------------------------------------------------------------ the theorem

  // The number a node makes of running the code on some bytes.
  function NodeValue(run: (Bytes, Bytes) -> string, code: Bytes): Bytes -> int {
    input => NodeResult(run(code, input))
  }

  // One worker's part: its job and a run of it.
  datatype Part = Part(job: Job, start: State, schedule: seq<Action>, end: State)

  // The first job of a worker process, for this code and slice, in a run with a reply.
  ghost predicate IsPart(w: Part, code: Bytes, slice: Bytes, run: (Bytes, Bytes) -> string) {
    && Ready(w.job) && w.job.prior == None && w.job.run == run
    && w.job.code.contents == code && w.job.train.contents == slice
    && Replies(w.job, w.start, w.schedule, w.end)
  }

  // What the client gets for its chunks: the first from its own run, the others parsed
  // from the replies.
  ghost predicate IsResult(r: int, i: nat, w: Part, run: (Bytes, Bytes) -> string, code: Bytes, chunk: Bytes) {
    if i == 0 then
      r == NodeValue(run, code)(chunk)
    else
      IsPart(w, code, chunk, run) && Stoi(w.end.m.reply.value) == Some(r)
  }

  // The theorem below is not about nothing: every sendable package makes such a job, and
  // the job is answered in a run that exists on a process at rest.
  lemma {:induction false} EveryPackageIsAnswered(k: Package, run: (Bytes, Bytes) -> string) returns (w: Part)
    requires Sendable(k)
    ensures IsPart(w, k.code, k.slice, run) && w.job == JobOf(k, run)
  {
    hide Ready, Inv, Sendable, Run, Begins, Quiet, Sent;
    var p := JobOf(k, run);
    PackageIsReady(k, run);
    SaysWhatItSends(k, run);
    var s := Necessity.Idle(p);
    Overlap.IdleBegins(p);
    InvBegins(p, s);
    var acts, t := Completion.CanFinish(p, s);
    Necessity.ReplyOf(p, s, acts, t);
    w := Part(p, s, acts, t);
  }

  // What the client sends for a second job, on the reply to a first.
  function NextJobOf(k: Package, k': Package, run: (Bytes, Bytes) -> string): Job {
    JobOf(k', run).(prior := Some(k.code))
  }

  // For any two packages, the second job can be lost to the late write of the first.
  lemma {:induction false} NextPackageCanBeLost(k: Package, k': Package, run: (Bytes, Bytes) -> string)
    returns (o: Overlap.Meeting)
    requires Sendable(k) && Sendable(k')
    ensures Overlap.Meets(o) && o.first == JobOf(k, run) && o.next == NextJobOf(k, k', run)
    ensures Overlap.NeverReplies(o.first, o.next, Overlap.After(o))
  {
    hide Ready, Sendable, Sent, Overlap.Meets, Overlap.NeverReplies;
    PackageIsReady(k, run);
    PackageIsReady(k', run);
    ReadyAfter(JobOf(k', run), k.code);
    SaysWhatItSends(k, run);
    o := Overlap.AnyNextJobCanBeLost(JobOf(k, run), NextJobOf(k, k', run));
  }

  lemma ReadyAfter(p: Job, code: Bytes)
    requires Ready(p)
    ensures Ready(p.(prior := Some(code)))
  {
  }

  lemma {:induction false} SaysWhatItSends(k: Package, run: (Bytes, Bytes) -> string)
    ensures JobOf(k, run).code.contents == k.code && JobOf(k, run).train.contents == k.slice
    ensures JobOf(k, run).prior == None && JobOf(k, run).run == run
  {
    hide Parse, Stream, OutPath;
  }

  // And contents of any kind can be sent under plain names.
  lemma {:induction false} PlainNamesAreSendable(code: Bytes, reducer: Bytes, slice: Bytes)
    requires |code| < LIMIT && |reducer| < LIMIT && |slice| < LIMIT
    ensures Sendable(Package(MAIN, code, MAIN, reducer, TEST, slice))
  {
    hide Ascii, NoNul, GoodLength, GoodPath, BaseName;
    PlainName("main.cpp");
    PlainName("test.txt");
    PlainFolder("code");
    PlainFolder("reducer");
    PlainFolder("train");
  }

  // So they can under those names in any directory, as far as names go.
  lemma {:induction false} PathsAreSendable(dir: Bytes, code: Bytes, reducer: Bytes, slice: Bytes)
    requires |code| < LIMIT && |reducer| < LIMIT && |slice| < LIMIT
    requires |dir| < 247 && forall i :: 0 <= i < |dir| ==> dir[i] != 0
    ensures Sendable(Package(dir + [47] + MAIN, code, dir + [47] + MAIN, reducer, dir + [47] + TEST, slice))
  {
    hide Ascii, BaseName, Acceptable, GoodPath, GoodLength;
    PlainNamesAreSendable(code, reducer, slice);
    HandlerPaths();
    InDirectory(CODE, dir, MAIN, |code|);
    InDirectory(REDUCER, dir, MAIN, |reducer|);
    InDirectory(TRAIN, dir, TEST, |slice|);
  }

  lemma {:induction false} InDirectory(folder: Bytes, dir: Bytes, base: Bytes, size: nat)
    requires Acceptable(folder, base, size) && |dir| + 1 + |base| < 256
    requires forall i :: 0 <= i < |dir| ==> dir[i] != 0
    requires forall i :: 0 <= i < |base| ==> base[i] != 47
    ensures Acceptable(folder, dir + [47] + base, size) && BaseName(dir + [47] + base) == base
  {
    hide Acceptable;
    AcceptableExactly(folder, base, dir, base, size);
    AcceptableExactly(folder, dir + [47] + base, dir, base, size);
    BaseNameIs(dir, base);
  }

  lemma {:induction false} PlainName(s: string)
    requires 0 < |s| < 16 && forall i :: 0 <= i < |s| ==> '.' <= s[i] <= 'z' && s[i] != '/'
    ensures NoNul(Ascii(s), 0) && GoodLength(Ascii(s)) && BaseName(Ascii(s)) == Ascii(s)
  {
    BaseNameIs([], Ascii(s));
  }

  lemma {:induction false} PlainFolder(s: string)
    requires 0 < |s| < 16 && forall i :: 0 <= i < |s| ==> 'a' <= s[i] <= 'z'
    ensures NoNul(Ascii(s), 0) && GoodLength(Ascii(s))
    ensures forall base: Bytes :: 2 < |base| < 16 ==> GoodPath(Ascii(s), base)
  {
    assert |ROOT| == 15;
  }

  lemma {:induction false} PartAnswers(w: Part, code: Bytes, slice: Bytes, run: (Bytes, Bytes) -> string)
    requires IsPart(w, code, slice, run) && Distributes(NodeValue(run, code))
    ensures Stoi(w.end.m.reply.value) == Some(ToInt(NodeValue(run, code)(slice)))
  {
    hide Ready, Replies, ToInt, Distributes, Stoi;
    SameValues(w.job, run, code);
    ReplyIsTheAnswer(w.job, w.start, w.schedule, w.end);
  }

  lemma {:induction false} SameValues(p: Job, run: (Bytes, Bytes) -> string, code: Bytes)
    requires p.run == run && p.prior == None && p.code.contents == code
    requires Distributes(NodeValue(run, code))
    ensures Distributes(ProgramOf(p))
  {
    hide ToInt, Xor, NodeResult;
    var f := NodeValue(run, code);
    forall a: Bytes, b: Bytes | |a| + |b| < LIMIT
      ensures ToInt(ProgramOf(p)(a + b)) == Xor(ToInt(ProgramOf(p)(a)), ToInt(ProgramOf(p)(b)))
    {
      assert ToInt(f(a + b)) == Xor(ToInt(f(a)), ToInt(f(b)));
    }
  }

  // For every file, division that the splitter may make of it under the condition for a
  // partition, and run of every worker, the number printed is the low 32 bits of that of the
  // whole file. (What CombineResults returns is a number like `printed`.)
  lemma {:induction false} PrintedIsTheAnswer(
    file: Bytes, n: nat, reach: nat, bs: seq<int>, code: Bytes, run: (Bytes, Bytes) -> string,
    workers: seq<Part>, results: seq<int>, printed: int)
    requires 0 < |file| < LIMIT && n > 0 && IsDivision(file, n, reach, bs) && Safe(|file|, n, reach)
    requires Distributes(NodeValue(run, code))
    requires InBounds(|file|, bs) && |workers| == |results| == n
    requires forall i :: 0 <= i < n ==> IsResult(results[i], i, workers[i], run, code, Chunks(file, bs, n)[i])
    requires -0x8000_0000 <= printed < 0x8000_0000 && (XorAll(results) - printed) % 0x1_0000_0000 == 0
    ensures ToInt(XorAll(results)) == ToInt(NodeValue(run, code)(file))
    ensures (NodeValue(run, code)(file) - printed) % 0x1_0000_0000 == 0
  {
    hide IsStep, Safe, IsPart, Distributes, ToInt, Stoi, InBounds, Chunks;
    var f := NodeValue(run, code);
    ChunksAreTheFile(file, n, reach, bs);
    var chunks := Chunks(file, bs, n);
    forall i | 0 <= i < n
      ensures ToInt(results[i]) == ToInt(f(chunks[i]))
    {
      if i > 0 {
        PartAnswers(workers[i], code, chunks[i], run);
        Truncated(f(chunks[i]));
      }
    }
    TruncateFirst(results, Ints(f, chunks));
    FoldOfParts(f, chunks);
    IntIsUnique(XorAll(results), printed);
    IntIsLow32(f(file));
  }

  // The same for what the client really sends: every worker but the local node gets a
  // package with its chunk over the wire.
  lemma {:induction false} SentFileIsAnswered(
    file: Bytes, n: nat, reach: nat, bs: seq<int>, code: Bytes, run: (Bytes, Bytes) -> string,
    packages: seq<Package>, workers: seq<Part>, results: seq<int>, printed: int)
    requires 0 < |file| < LIMIT && n > 0 && IsDivision(file, n, reach, bs) && Safe(|file|, n, reach)
    requires Distributes(NodeValue(run, code))
    requires InBounds(|file|, bs) && |packages| == |workers| == |results| == n
    requires results[0] == NodeValue(run, code)(Chunk(file, bs, 0))
    requires forall i :: 0 < i < n ==>
      && Sendable(packages[i]) && packages[i].code == code && packages[i].slice == Chunk(file, bs, i)
      && workers[i].job == JobOf(packages[i], run)
      && Replies(workers[i].job, workers[i].start, workers[i].schedule, workers[i].end)
      && Stoi(workers[i].end.m.reply.value) == Some(results[i])
    requires -0x8000_0000 <= printed < 0x8000_0000 && (XorAll(results) - printed) % 0x1_0000_0000 == 0
    ensures ToInt(XorAll(results)) == ToInt(NodeValue(run, code)(file))
    ensures (NodeValue(run, code)(file) - printed) % 0x1_0000_0000 == 0
  {
    hide IsStep, Safe, Distributes, ToInt, Stoi, Sendable, JobOf, Replies, Ready, InBounds, NodeValue;
    forall i | 0 <= i < n
      ensures IsResult(results[i], i, workers[i], run, code, Chunks(file, bs, n)[i])
    {
      if i > 0 {
        PackageIsReady(packages[i], run);
        SaysWhatItSends(packages[i], run);
      }
    }
    PrintedIsTheAnswer(file, n, reach, bs, code, run, workers, results, printed);
  }

  lemma {:induction false} Truncated(v: int)
    ensures ToInt(ToInt(v)) == ToInt(v)
  {
    WrapTwice(v, INT_BITS);
  }
}
