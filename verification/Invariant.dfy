/** What every step of a job keeps, and so what holds in every state of every run. */
module Invariant {
  import opened Options
  import opened Files
  import opened Words
  import opened Decimal
  import opened Wire
  import opened Feed
  import opened Worker

  // ------------------------------------------------------------ the invariant

  predicate HasHeader(pc: ReceiverPc) {
    !(pc.Unsent? || pc.Knocking? || pc.TurnedAway? || pc.Reading? || pc.Failed?)
  }

  // The train file is open and the handler has been told.
  predicate IsOpen(pc: ReceiverPc) {
    pc.Receiving? || pc.Appending? || pc.Publishing? || pc.Finishing? || pc.Finished?
  }

  predicate IsComplete(pc: ReceiverPc) {
    pc.Finishing? || pc.Finished?
  }

  // A connection: the file on disk is the part of the contents received so far, less
  // the block that is being written.
  ghost predicate ReceiverInv(r: Receiver, t: Transfer, file: Bytes) {
    && !r.pc.Failed?
    && (!HasHeader(r.pc) ==> r.received == 0)
    && (HasHeader(r.pc) ==> r.header == Header(t.folder, t.path, |t.contents|) && r.rest == t.contents
                            && r.received <= |t.contents|)
    && (r.pc.Counting? || r.pc.Creating? || r.pc.Signalling? ==> r.received == 0)
    && (r.pc.Signalling? || (IsOpen(r.pc) && !r.pc.Appending?) ==> file == t.contents[..r.received])
    && (r.pc.Appending? ==> r.buffer != [] && file + r.buffer == t.contents[..r.received])
    && (IsComplete(r.pc) ==> r.received == |t.contents|)
  }

  // Shared_fileSize and processedBytes: only bytes already on disk are published.
  ghost predicate Published(r: Receiver, size: nat, file: Bytes, fileSize: int, processed: int) {
    && (HasHeader(r.pc) ==> fileSize == size)
    && (r.pc.Creating? || r.pc.Signalling? ==> processed == 0)
    && (r.pc.Receiving? || IsComplete(r.pc) ==> processed == r.received)
    && (r.pc.Appending? ==> 0 <= processed <= |file| && processed < r.received)
    && (r.pc.Publishing? ==> 0 <= processed < r.received)
  }

  function Rank(pc: HandlerPc): nat {
    match pc
    case Opening => 0
    case Inviting => 1
    case Waiting1 => 2
    case Compiling => 3
    case Waiting2 => 4
    case Starting => 5
    case Checking | Measuring | Feeding | Piping | Folding => 6
    case Replying => 7
    case Closing => 8
    case Ended => 9
  }

  // The gate and the invitation follow the handler.
  ghost predicate Gate(m: Memory, rank: nat) {
    && (m.gate <==> 1 <= rank <= 8)
    && (m.invited <==> rank >= 2)
  }

  // A connection and the signals: nobody connects uninvited, code and train are never
  // turned away, and a flag is up exactly from the resume to the wait that takes it.
  ghost predicate Signalled(t: Transfer, m: Memory, pc: ReceiverPc, rank: nat) {
    && (m.invited || pc.Unsent?)
    && (t.folder == CODE ==>
        && !pc.TurnedAway?
        && (m.flag1 <==> pc.Finished? && rank <= 2)
        && (rank > 2 ==> pc.Finished?))
    && (t.folder == TRAIN ==>
        && !pc.TurnedAway?
        && (m.flag2 <==> IsOpen(pc) && rank <= 4)
        && (rank > 4 ==> IsOpen(pc)))
  }

  // The program of the job: the first one this process compiled.
  function Program(p: Job): Bytes {
    match p.prior
    case Some(b) => b
    case None => p.code.contents
  }

  // The number the node makes of one run on these bytes.
  function Value(p: Job, input: Bytes): int {
    NodeResult(p.run(Program(p), input))
  }

  // The program of the job, as the node sees it.
  function ProgramOf(p: Job): Bytes -> int {
    input => Value(p, input)
  }

  // The segments consumed so far are exactly the slice up to `offset`, in order, without
  // gap or overlap, and the accumulated number is that of their values.
  ghost predicate Tallied(p: Job, segments: seq<Bytes>, offset: int, acc: int) {
    && 0 <= offset <= |p.train.contents|
    && Concat(segments) == p.train.contents[..offset]
    && acc == XorAll(Ints(ProgramOf(p), segments))
  }

  ghost predicate Consumed(p: Job, h: Handler) {
    && (Rank(h.pc) <= 5 ==> h.segments == [])
    && (Rank(h.pc) >= 6 ==> Tallied(p, h.segments, h.offset, h.acc))
  }

  // The run under way has been given exactly the next bytes of the slice, all published.
  ghost predicate UnderWay(slice: Bytes, h: Handler, processed: int) {
    && (Rank(h.pc) >= 6 ==> 0 <= h.offset <= processed && h.offset <= |slice|)
    && (h.pc.Feeding? || h.pc.Piping? || h.pc.Folding? ==>
        && h.remaining >= 0 && h.offset + h.remaining <= processed
        && h.offset + h.remaining <= |slice|)
    && (h.pc.Feeding? || h.pc.Piping? ==>
        && h.left >= 0 && h.offset <= h.pos && h.pos + h.left == h.offset + h.remaining)
    && (h.pc.Feeding? ==> h.fed == slice[h.offset..h.pos])
    && (h.pc.Piping? ==> h.buffer != [] && h.fed + h.buffer == slice[h.offset..h.pos])
    && (h.pc.Folding? ==> h.fed == slice[h.offset..h.offset + h.remaining])
    && (Rank(h.pc) >= 7 ==> h.offset == |slice|)
  }

  // The compiled program and the reply.
  ghost predicate Outside(p: Job, h: Handler, binary: Option<Bytes>, reply: Option<string>) {
    && (Rank(h.pc) <= 3 ==> binary == p.prior)
    && (Rank(h.pc) > 3 ==> binary == Some(Program(p)))
    && (Rank(h.pc) <= 7 ==> reply == None)
    && (Rank(h.pc) > 7 ==> reply == Some(ToString(h.acc)))
  }

  // The connection and its file.
  ghost predicate Holds(t: Transfer, after: (Memory, Receiver)) {
    ReceiverInv(after.1, t, FileAt(after.0.disk, t.path))
  }

  // The train connection and the counters.
  ghost predicate Counted(t: Transfer, after: (Memory, Receiver)) {
    Published(after.1, |t.contents|, FileAt(after.0.disk, t.path), after.0.fileSize, after.0.processed)
  }

  // The job's handler.
  ghost predicate Handled(p: Job, after: (Memory, Handler)) {
    var (m, h) := after;
    && Consumed(p, h)
    && UnderWay(p.train.contents, h, m.processed)
    && Outside(p, h, m.binary, m.reply)
  }

  ghost predicate Connected(t: Transfer, m: Memory, r: Receiver, rank: nat) {
    Holds(t, (m, r)) && Signalled(t, m, r.pc, rank)
  }

  ghost predicate Inv(p: Job, s: State) {
    var rank := Rank(s.h.pc);
    && (forall role :: Connected(TransferOf(p, role), s.m, ReceiverOf(s, role), rank))
    && Counted(p.train, (s.m, s.train))
    && Gate(s.m, rank)
    && Handled(p, (s.m, s.h))
  }

  lemma {:induction false} InvBegins(p: Job, s: State)
    requires Begins(p, s)
    ensures Inv(p, s)
  {
    assert forall role :: ReceiverOf(s, role) == NEW_RECEIVER;
  }

  // What the invariant says about the train file once the handler may look at it: the
  // published count is covered by the disk, and the disk by the slice.
  lemma {:induction false} DiskCovers(t: Transfer, m: Memory, r: Receiver)
    requires Holds(t, (m, r)) && Counted(t, (m, r)) && IsOpen(r.pc)
    ensures var file := FileAt(m.disk, t.path);
            && 0 <= m.processed <= |file| <= |t.contents| == m.fileSize
            && file == t.contents[..|file|]
  {
    var file := FileAt(m.disk, t.path);
    if r.pc.Appending? {
      assert file == (file + r.buffer)[..|file|];
    }
  }

  // ------------------------------------------------------------ steps of a connection

  lemma {:induction false} OwnEarlyStep(t: Transfer, m: Memory, r: Receiver)
    requires Holds(t, (m, r)) && (r.pc.Knocking? || r.pc.Reading? || r.pc.Counting? || r.pc.Creating?)
    ensures Holds(t, ReceiverStep(Meaning(t), m, r))
  {
  }

  lemma {:induction false} OwnLateStep(t: Transfer, m: Memory, r: Receiver)
    requires Holds(t, (m, r)) && ReceiverEnabled(r)
    requires r.pc.Signalling? || r.pc.Receiving? || r.pc.Publishing? || r.pc.Finishing?
    ensures Holds(t, ReceiverStep(Meaning(t), m, r))
  {
  }

  lemma {:induction false} OwnRecv(t: Transfer, m: Memory, r: Receiver, n: nat)
    requires Holds(t, (m, r)) && RecvEnabled(r, n)
    ensures Holds(t, (m, RecvStep(r, n)))
  {
    assert r.rest[..r.received] + r.rest[r.received..r.received + n] == r.rest[..r.received + n];
  }

  lemma {:induction false} OwnAppend(t: Transfer, m: Memory, r: Receiver, n: nat)
    requires Holds(t, (m, r)) && AppendEnabled(r, n)
    ensures Holds(t, AppendStep(m, r, n))
  {
    var file := FileAt(m.disk, t.path);
    assert file + r.buffer[..n] + r.buffer[n..] == file + r.buffer;
  }

  lemma {:induction false} OwnConnection(t: Transfer, m: Memory, r: Receiver, a: Action)
    requires Holds(t, (m, r)) && ConnectionEnabled(r, a)
    ensures Holds(t, ConnectionStep(Meaning(t), m, r, a))
  {
    match a
    case Request(_) =>
    case Receive(_) =>
      if r.pc.Knocking? || r.pc.Reading? || r.pc.Counting? || r.pc.Creating? {
        OwnEarlyStep(t, m, r);
      } else {
        OwnLateStep(t, m, r);
      }
    case Recv(_, n) => OwnRecv(t, m, r, n);
    case Append(_, n) => OwnAppend(t, m, r, n);
  }

  // A connection writes to no file but its own, and only the train connection touches
  // the counters and the second signal.
  ghost predicate Confined(t: Transfer, m: Memory, m': Memory) {
    && m'.gate == m.gate && m'.invited == m.invited && m'.binary == m.binary && m'.reply == m.reply
    && (forall path :: path != t.path ==> FileAt(m'.disk, path) == FileAt(m.disk, path))
    && (t.folder != TRAIN ==> m'.fileSize == m.fileSize && m'.processed == m.processed && m'.flag2 == m.flag2)
    && (t.folder != CODE ==> m'.flag1 == m.flag1)
  }

  // All that takes is the header: what is on disk does not matter.
  predicate Headed(t: Transfer, r: Receiver) {
    HasHeader(r.pc) ==> r.header == Header(t.folder, t.path, |t.contents|)
  }

  lemma {:induction false} ConfinedEarly(t: Transfer, m: Memory, r: Receiver)
    requires Headed(t, r) && (r.pc.Knocking? || r.pc.Reading? || r.pc.Counting? || r.pc.Creating?)
    ensures var (m', r') := ReceiverStep(Meaning(t), m, r);
            Confined(t, m, m') && Headed(t, r')
  {
  }

  lemma {:induction false} ConfinedLate(t: Transfer, m: Memory, r: Receiver)
    requires Headed(t, r) && ReceiverEnabled(r)
    requires r.pc.Signalling? || r.pc.Receiving? || r.pc.Publishing? || r.pc.Finishing?
    ensures var (m', r') := ReceiverStep(Meaning(t), m, r);
            Confined(t, m, m') && Headed(t, r')
  {
  }

  lemma {:induction false} HeadedIsConfined(t: Transfer, m: Memory, r: Receiver, a: Action)
    requires Headed(t, r) && ConnectionEnabled(r, a)
    ensures var (m', r') := ConnectionStep(Meaning(t), m, r, a);
            Confined(t, m, m') && Headed(t, r')
  {
    hide ReceiverStep;
    if a.Receive? {
      if r.pc.Knocking? || r.pc.Reading? || r.pc.Counting? || r.pc.Creating? {
        ConfinedEarly(t, m, r);
      } else {
        ConfinedLate(t, m, r);
      }
    }
  }

  lemma {:induction false} ConnectionIsConfined(t: Transfer, m: Memory, r: Receiver, a: Action)
    requires Holds(t, (m, r)) && ConnectionEnabled(r, a)
    ensures Confined(t, m, ConnectionStep(Meaning(t), m, r, a).0)
  {
    hide ConnectionStep, Confined;
    HeadedIsConfined(t, m, r, a);
  }

  // A connection leaves the others as they were.
  lemma {:induction false} Undisturbed(t: Transfer, m: Memory, m': Memory, u: Transfer, r: Receiver, rank: nat)
    requires Confined(t, m, m') && t.path != u.path
    requires !(t.folder == CODE && u.folder == CODE) && !(t.folder == TRAIN && u.folder == TRAIN)
    requires Connected(u, m, r, rank)
    ensures Connected(u, m', r, rank)
  {
  }

  // ------------------------------------------------------------ the counters

  lemma {:induction false} CountsEarly(t: Transfer, m: Memory, r: Receiver)
    requires t.folder == TRAIN && |t.contents| < TWO_64 / 2
    requires Holds(t, (m, r)) && Counted(t, (m, r))
    requires r.pc.Knocking? || r.pc.Reading? || r.pc.Counting? || r.pc.Creating?
    ensures Counted(t, ReceiverStep(Meaning(t), m, r))
  {
  }

  lemma {:induction false} CountsLate(t: Transfer, m: Memory, r: Receiver)
    requires t.folder == TRAIN
    requires Holds(t, (m, r)) && Counted(t, (m, r)) && ReceiverEnabled(r)
    requires r.pc.Signalling? || r.pc.Receiving? || r.pc.Publishing? || r.pc.Finishing?
    ensures Counted(t, ReceiverStep(Meaning(t), m, r))
    ensures ReceiverStep(Meaning(t), m, r).0.processed >= m.processed
  {
  }

  lemma {:induction false} Counts(t: Transfer, m: Memory, r: Receiver, a: Action)
    requires t.folder == TRAIN && |t.contents| < TWO_64 / 2
    requires Holds(t, (m, r)) && Counted(t, (m, r)) && ConnectionEnabled(r, a)
    ensures Counted(t, ConnectionStep(Meaning(t), m, r, a))
    ensures IsOpen(r.pc) ==> ConnectionStep(Meaning(t), m, r, a).0.processed >= m.processed
  {
    match a
    case Request(_) =>
    case Receive(_) =>
      if r.pc.Knocking? || r.pc.Reading? || r.pc.Counting? || r.pc.Creating? {
        CountsEarly(t, m, r);
      } else {
        CountsLate(t, m, r);
      }
    case Recv(_, n) =>
    case Append(_, n) =>
  }

  // ------------------------------------------------------------ the signals

  // A connection that knocks finds the gate open, if it is code or train.
  lemma {:induction false} SignalsEarly(t: Transfer, m: Memory, r: Receiver, rank: nat)
    requires Gate(m, rank) && Signalled(t, m, r.pc, rank)
    requires r.pc.Knocking? || r.pc.Reading? || r.pc.Counting? || r.pc.Creating?
    ensures var (m', r') := ReceiverStep(Meaning(t), m, r);
            Signalled(t, m', r'.pc, rank)
  {
  }

  lemma {:induction false} SignalsLate(t: Transfer, m: Memory, r: Receiver, rank: nat)
    requires Gate(m, rank) && Signalled(t, m, r.pc, rank) && Holds(t, (m, r)) && ReceiverEnabled(r)
    requires r.pc.Signalling? || r.pc.Receiving? || r.pc.Publishing? || r.pc.Finishing?
    ensures var (m', r') := ReceiverStep(Meaning(t), m, r);
            Signalled(t, m', r'.pc, rank)
  {
  }

  lemma {:induction false} ConnectionSignals(t: Transfer, m: Memory, r: Receiver, rank: nat, a: Action)
    requires Gate(m, rank) && Connected(t, m, r, rank) && ConnectionEnabled(r, a)
    requires a.Request? ==> m.invited
    ensures var (m', r') := ConnectionStep(Meaning(t), m, r, a);
            Connected(t, m', r', rank)
  {
    OwnConnection(t, m, r, a);
    if a.Receive? {
      if r.pc.Knocking? || r.pc.Reading? || r.pc.Counting? || r.pc.Creating? {
        SignalsEarly(t, m, r, rank);
      } else {
        SignalsLate(t, m, r, rank);
      }
    }
  }

  // ------------------------------------------------------------ steps of the handler

  // The train file and the counters, as the handler may rely on them.
  ghost predicate Visible(p: Job, m: Memory) {
    var file := FileAt(m.disk, p.trainFile);
    && 0 <= m.processed <= |file| <= |p.train.contents| == m.fileSize
    && file == p.train.contents[..|file|]
  }

  lemma {:induction false} TalliedNothing(p: Job)
    ensures Tallied(p, [], 0, 0)
  {
    assert Ints(ProgramOf(p), []) == [];
  }

  lemma {:induction false} ConsumedStep(p: Job, m: Memory, h: Handler, source: Bytes, temp: int)
    requires Consumed(p, h) && HandlerEnabled(m, h) && !h.pc.Folding?
    ensures Consumed(p, HandlerStep(source, temp, m, h).1)
  {
    hide Tallied;
    TalliedNothing(p);
  }

  // The accumulated number and the consumed bytes grow by the segment just run.
  lemma {:induction false} TalliedMore(p: Job, segments: seq<Bytes>, offset: int, acc: int, fed: Bytes)
    requires Tallied(p, segments, offset, acc)
    requires offset + |fed| <= |p.train.contents| && fed == p.train.contents[offset..offset + |fed|]
    ensures Tallied(p, segments + [fed], offset + |fed|, Xor(acc, ToInt(Value(p, fed))))
  {
    var slice, temp := p.train.contents, ToInt(Value(p, fed));
    ConcatSnoc(segments, fed);
    assert slice[..offset] + slice[offset..offset + |fed|] == slice[..offset + |fed|];
    assert Ints(ProgramOf(p), segments + [fed]) == Ints(ProgramOf(p), segments) + [temp];
    XorAllSnoc(Ints(ProgramOf(p), segments), temp);
  }

  lemma {:induction false} ConsumedFold(p: Job, m: Memory, h: Handler, source: Bytes, temp: int)
    requires Consumed(p, h) && h.pc.Folding? && temp == ToInt(Value(p, h.fed))
    requires h.offset >= 0 && h.remaining >= 0 && h.offset + h.remaining <= |p.train.contents|
    requires h.fed == p.train.contents[h.offset..h.offset + h.remaining]
    ensures Consumed(p, HandlerStep(source, temp, m, h).1)
  {
    hide Tallied, ToInt, Value;
    TalliedMore(p, h.segments, h.offset, h.acc, h.fed);
  }

  lemma {:induction false} UnderWayStep(p: Job, m: Memory, h: Handler, source: Bytes, temp: int)
    requires UnderWay(p.train.contents, h, m.processed) && HandlerEnabled(m, h)
    requires Rank(h.pc) > 4 ==> Visible(p, m)
    ensures UnderWay(p.train.contents, HandlerStep(source, temp, m, h).1, m.processed)
  {
  }

  lemma {:induction false} OutsideStep(p: Job, m: Memory, h: Handler, source: Bytes, temp: int)
    requires Outside(p, h, m.binary, m.reply) && HandlerEnabled(m, h)
    requires Rank(h.pc) == 3 ==> source == p.code.contents
    ensures var (m', h') := HandlerStep(source, temp, m, h);
            Outside(p, h', m'.binary, m'.reply)
  {
    hide ToString;
  }

  lemma {:induction false} HandlerSteps(p: Job, m: Memory, h: Handler, source: Bytes, temp: int)
    requires Handled(p, (m, h)) && HandlerEnabled(m, h)
    requires Rank(h.pc) == 3 ==> source == p.code.contents
    requires Rank(h.pc) > 4 ==> Visible(p, m)
    requires h.pc.Folding? ==> temp == ToInt(Value(p, h.fed))
    ensures Handled(p, HandlerStep(source, temp, m, h))
  {
    if h.pc.Folding? {
      ConsumedFold(p, m, h, source, temp);
    } else {
      ConsumedStep(p, m, h, source, temp);
    }
    UnderWayStep(p, m, h, source, temp);
    OutsideStep(p, m, h, source, temp);
  }

  // Published bytes are on disk, so a read of the feed loop never comes back empty: each
  // makes progress, which is what the loop's termination rests on.
  lemma {:induction false} PreadProgresses(slice: Bytes, file: Bytes, processed: int, h: Handler, n: nat)
    requires processed <= |file| <= |slice| && file == slice[..|file|]
    requires UnderWay(slice, h, processed) && PreadEnabled(h, file, n)
    ensures n > 0
    ensures UnderWay(slice, PreadStep(h, file, n), processed)
  {
    assert Slice(file, h.pos, n) == slice[h.pos..h.pos + n];
    assert slice[h.offset..h.pos] + slice[h.pos..h.pos + n] == slice[h.offset..h.pos + n];
  }

  lemma {:induction false} PipeSteps(slice: Bytes, processed: int, h: Handler, n: nat)
    requires UnderWay(slice, h, processed) && PipeEnabled(h, n)
    ensures UnderWay(slice, PipeStep(h, n), processed)
  {
    assert h.fed + h.buffer[..n] + h.buffer[n..] == h.fed + h.buffer;
  }

  // Reading and piping move nothing but the run under way.
  lemma {:induction false} StillHandled(p: Job, m: Memory, h: Handler, h': Handler)
    requires Handled(p, (m, h)) && UnderWay(p.train.contents, h', m.processed)
    requires Rank(h'.pc) == Rank(h.pc)
    requires h'.segments == h.segments && h'.offset == h.offset && h'.acc == h.acc
    ensures Handled(p, (m, h'))
  {
    hide Tallied, ToString, UnderWay;
  }

  // What a step of the handler changes in memory.
  ghost predicate HandlerConfined(m: Memory, h: Handler, after: (Memory, Handler)) {
    var (m', h') := after;
    && m'.disk == m.disk && m'.fileSize == m.fileSize && m'.processed == m.processed
    && Gate(m', Rank(h'.pc))
    && (m'.flag1 == (m.flag1 && !h.pc.Waiting1?))
    && (m'.flag2 == (m.flag2 && !h.pc.Waiting2?))
    && (m.invited ==> m'.invited)
    && (Rank(h'.pc) <= 2 <==> Rank(h.pc) <= 2 && !h.pc.Waiting1?)
    && (Rank(h'.pc) <= 4 <==> Rank(h.pc) <= 4 && !h.pc.Waiting2?)
    && (h.pc.Waiting1? ==> m.flag1) && (h.pc.Waiting2? ==> m.flag2)
  }

  lemma {:induction false} HandlerIsConfined(m: Memory, h: Handler, source: Bytes, temp: int)
    requires Gate(m, Rank(h.pc)) && HandlerEnabled(m, h)
    ensures HandlerConfined(m, h, HandlerStep(source, temp, m, h))
  {
  }

  lemma {:induction false} HandlerSignals(t: Transfer, m: Memory, h: Handler, after: (Memory, Handler), r: Receiver)
    requires HandlerConfined(m, h, after)
    requires Connected(t, m, r, Rank(h.pc))
    ensures Connected(t, after.0, r, Rank(after.1.pc))
  {
  }

  // ------------------------------------------------------------ every step

  // What a step of a connection means for the handler and for the counters.
  lemma {:induction false} HandlerUndisturbed(p: Job, t: Transfer, m: Memory, m': Memory, h: Handler)
    requires Confined(t, m, m') && Handled(p, (m, h)) && Gate(m, Rank(h.pc))
    requires Rank(h.pc) <= 5 || m'.processed >= m.processed
    ensures Handled(p, (m', h)) && Gate(m', Rank(h.pc))
  {
    hide Tallied;
  }

  lemma {:induction false} CountsUndisturbed(t: Transfer, m: Memory, m': Memory, u: Transfer, r: Receiver)
    requires Confined(t, m, m') && t.folder != TRAIN && t.path != u.path
    requires Counted(u, (m, r))
    ensures Counted(u, (m', r)) && m'.processed == m.processed
  {
  }

  // The facts about code and train that the handler uses.
  lemma {:induction false} HandlerView(p: Job, s: State)
    requires Ready(p) && Inv(p, s)
    ensures Handled(p, (s.m, s.h)) && Gate(s.m, Rank(s.h.pc))
    ensures Rank(s.h.pc) > 2 ==> FileAt(s.m.disk, p.codeFile) == p.code.contents
    ensures Rank(s.h.pc) > 4 ==> Visible(p, s.m)
    ensures Rank(s.h.pc) > 4 ==> IsOpen(s.train.pc)
  {
    hide Tallied, UnderWay, Outside;
    var rank := Rank(s.h.pc);
    assert Connected(TransferOf(p, Code), s.m, ReceiverOf(s, Code), rank);
    assert Connected(TransferOf(p, Train), s.m, ReceiverOf(s, Train), rank);
    if rank > 4 {
      DiskCovers(p.train, s.m, s.train);
    }
  }

  // The handler runs the program that the invariant says it has compiled.
  lemma {:induction false} HandlerTemp(p: Job, s: State)
    requires Handled(p, (s.m, s.h))
    ensures s.h.pc.Folding? ==> Temp(p, s.m, s.h) == ToInt(Value(p, s.h.fed))
  {
    hide ToInt, NodeResult, ToString, Consumed, UnderWay;
  }

  lemma {:induction false} InvHandle(p: Job, s: State)
    requires Ready(p) && Inv(p, s) && HandlerEnabled(s.m, s.h)
    ensures Inv(p, ApplyHandle(p, s))
  {
    hide Ready, Connected, Handled, Consumed, UnderWay, Outside, Published, HandlerStep, Temp;
    HandlerView(p, s);
    HandlerTemp(p, s);
    var source, temp := FileAt(s.m.disk, p.codeFile), Temp(p, s.m, s.h);
    HandlerSteps(p, s.m, s.h, source, temp);
    HandlerIsConfined(s.m, s.h, source, temp);
    var after := HandlerStep(source, temp, s.m, s.h);
    forall role
      ensures Connected(TransferOf(p, role), after.0, ReceiverOf(s, role), Rank(after.1.pc))
    {
      HandlerSignals(TransferOf(p, role), s.m, s.h, after, ReceiverOf(s, role));
    }
  }

  lemma {:induction false} InvWithHandler(p: Job, s: State, h: Handler)
    requires Inv(p, s) && Rank(h.pc) == Rank(s.h.pc) && Handled(p, (s.m, h))
    ensures Inv(p, s.(h := h))
  {
    hide Connected, Counted, Gate, Handled;
    assert forall role :: ReceiverOf(s.(h := h), role) == ReceiverOf(s, role);
  }

  lemma {:induction false} InvPread(p: Job, s: State, n: nat)
    requires Ready(p) && Inv(p, s) && PreadEnabled(s.h, FileAt(s.m.disk, p.trainFile), n)
    ensures Inv(p, s.(h := PreadStep(s.h, FileAt(s.m.disk, p.trainFile), n)))
  {
    hide Inv, Ready, Consumed, UnderWay, Outside;
    HandlerView(p, s);
    PreadProgresses(p.train.contents, FileAt(s.m.disk, p.trainFile), s.m.processed, s.h, n);
    StillHandled(p, s.m, s.h, PreadStep(s.h, FileAt(s.m.disk, p.trainFile), n));
    InvWithHandler(p, s, PreadStep(s.h, FileAt(s.m.disk, p.trainFile), n));
  }

  lemma {:induction false} InvPipe(p: Job, s: State, n: nat)
    requires Ready(p) && Inv(p, s) && PipeEnabled(s.h, n)
    ensures Inv(p, s.(h := PipeStep(s.h, n)))
  {
    hide Inv, Ready, Consumed, UnderWay, Outside;
    HandlerView(p, s);
    PipeSteps(p.train.contents, s.m.processed, s.h, n);
    StillHandled(p, s.m, s.h, PipeStep(s.h, n));
    InvWithHandler(p, s, PipeStep(s.h, n));
  }

  lemma {:induction false} InvConnection(p: Job, s: State, a: Action)
    requires Ready(p) && Inv(p, s) && !IsHandlers(a)
    requires ConnectionEnabled(ReceiverOf(s, a.role), a) && (a.Request? ==> s.m.invited)
    ensures Inv(p, ApplyConnection(Meaning(TransferOf(p, a.role)), s, a))
  {
    hide Holds, Signalled, Confined, Handled, Counted, Gate, ConnectionStep, ConnectionEnabled, Meaning;
    var t, r, rank := TransferOf(p, a.role), ReceiverOf(s, a.role), Rank(s.h.pc);
    var (m', r') := ConnectionStep(Meaning(t), s.m, r, a);
    assert Connected(t, s.m, r, rank);
    ConnectionSignals(t, s.m, r, rank, a);
    ConnectionIsConfined(t, s.m, r, a);
    forall role
      ensures Connected(TransferOf(p, role), m', if role == a.role then r' else ReceiverOf(s, role), rank)
    {
      if role != a.role {
        Undisturbed(t, s.m, m', TransferOf(p, role), ReceiverOf(s, role), rank);
      }
    }
    if a.role.Train? {
      Counts(t, s.m, r, a);
    } else {
      CountsUndisturbed(t, s.m, m', p.train, s.train);
    }
    HandlerView(p, s);
    HandlerUndisturbed(p, t, s.m, m', s.h);
  }

  lemma {:induction false} ReadyMeans(p: Job, role: Role)
    requires Ready(p)
    ensures TransferOf(p, role).parsed == Meaning(TransferOf(p, role))
  {
  }

  lemma {:induction false} InvStep(p: Job, s: State, a: Action)
    requires Ready(p) && Inv(p, s) && Enabled(p, s, a)
    ensures Inv(p, Apply(p, s, a))
  {
    hide Inv, ApplyHandle, ApplyConnection, PreadStep, PipeStep;
    match a
    case Handle => InvHandle(p, s);
    case Pread(n) => InvPread(p, s, n);
    case Pipe(n) => InvPipe(p, s, n);
    case _ =>
      ReadyMeans(p, a.role);
      InvConnection(p, s, a);
  }

  // The invariant holds in every state of every run of a job.
  lemma {:induction false} InvAlways(p: Job, s: State, acts: seq<Action>, t: State)
    requires Ready(p) && Inv(p, s) && Run(p, s, acts, t)
    ensures Inv(p, t)
    decreases |acts|
  {
    if acts != [] {
      InvStep(p, s, acts[0]);
      InvAlways(p, Apply(p, s, acts[0]), acts[1..], t);
    }
  }
}
