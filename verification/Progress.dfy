/** Termination: how much work a job holds, and why it can always be finished. */
module Progress {
  import opened Files
  import opened Words
  import opened Decimal
  import opened Worker
  import opened Invariant

  // ------------------------------------------------------------ a bound on the work

  // The steps a connection still has before it.
  function Work(r: Receiver, size: nat): int {
    match r.pc
    case Unsent => 3 * size + 9
    case Knocking => 3 * size + 8
    case Reading => 3 * size + 7
    case Counting => 3 * size + 6
    case Creating => 3 * size + 5
    case Signalling => 3 * size + 4
    case Receiving => 3 * (size - r.received) + 3
    case Appending => 3 * (size - r.received) + |r.buffer| + 4
    case Publishing => 3 * (size - r.received) + 4
    case Finishing => 2
    case Finished | TurnedAway | Failed => 0
  }

  // From the head of the loop: two steps for a byte still to be consumed, four for the round
  // that consumes it (no round that consumes anything consumes less than a byte), and the
  // way out.
  function FromHead(todo: int): int {
    6 * todo + 3
  }

  // The steps the handler still has before it, empty rounds aside.
  function Effort(h: Handler, size: nat): int {
    match h.pc
    case Checking => FromHead(size - h.offset)
    case Measuring => FromHead(size - h.offset) - 1
    case Feeding => FromHead(size - h.offset - h.remaining) + 2 + 2 * h.left
    case Piping => FromHead(size - h.offset - h.remaining) + 2 + 2 * h.left + |h.buffer|
    case Folding => FromHead(size - h.offset - h.remaining) + 1
    case Replying => 2
    case Closing => 1
    case Ended => 0
    case _ => FromHead(size) + 6 - Rank(h.pc)
  }

  function Potential(p: Job, s: State): int {
    Work(s.code, |p.code.contents|) + Work(s.reducer, |p.reducer.contents|) + Work(s.train, |p.train.contents|)
    + Effort(s.h, |p.train.contents|)
  }

  // The handler finds nothing new: this round of its loop will be empty.
  predicate FindsNothing(s: State, a: Action) {
    a.Handle? && s.h.pc.Measuring? && s.m.processed == s.h.offset
  }

  lemma {:induction false} WorkShrinks(t: Transfer, m: Memory, r: Receiver, a: Action)
    requires Holds(t, (m, r)) && ConnectionEnabled(r, a)
    ensures 0 <= Work(ConnectionStep(Meaning(t), m, r, a).1, |t.contents|) < Work(r, |t.contents|)
  {
    OwnConnection(t, m, r, a);
  }

  lemma {:induction false} EffortOfHandle(p: Job, m: Memory, h: Handler, source: Bytes, temp: int)
    requires Handled(p, (m, h)) && HandlerEnabled(m, h) && (Rank(h.pc) > 4 ==> Visible(p, m))
    ensures var h' := HandlerStep(source, temp, m, h).1;
            if h.pc.Measuring? && m.processed == h.offset
            then Effort(h', |p.train.contents|) == Effort(h, |p.train.contents|) + 3
            else Effort(h', |p.train.contents|) < Effort(h, |p.train.contents|)
  {
    hide Consumed, Outside, Visible, Xor, ToString;
    if Rank(h.pc) >= 6 {
      assert UnderWay(p.train.contents, h, m.processed);
      if h.pc.Checking? {
        assert m.fileSize == |p.train.contents| by { SizeIsKnown(p, m); }
      }
    }
  }

  lemma SizeIsKnown(p: Job, m: Memory)
    requires Visible(p, m)
    ensures m.fileSize == |p.train.contents|
  {
  }

  lemma {:induction false} EffortOfFeed(file: Bytes, h: Handler, n: nat, size: nat)
    requires n > 0
    ensures PreadEnabled(h, file, n) ==> Effort(PreadStep(h, file, n), size) < Effort(h, size)
    ensures PipeEnabled(h, n) ==> Effort(PipeStep(h, n), size) < Effort(h, size)
  {
  }

  lemma {:induction false} EffortIsPositive(slice: Bytes, h: Handler, processed: int)
    requires UnderWay(slice, h, processed)
    ensures Effort(h, |slice|) >= 0
  {
  }

  // Finding nothing pays for the four steps of one empty round; every other step uses up
  // potential.
  lemma {:induction false} PotentialShrinks(p: Job, s: State, a: Action)
    requires Ready(p) && Inv(p, s) && Enabled(p, s, a)
    ensures FindsNothing(s, a) ==> Potential(p, Apply(p, s, a)) == Potential(p, s) + 3
    ensures !FindsNothing(s, a) ==> Potential(p, Apply(p, s, a)) < Potential(p, s)
  {
    hide Ready, Signalled, Consumed, Outside, ConnectionStep, HandlerStep, Temp, Inv, Work, Effort,
      UnderWay, PreadStep, PipeStep, Holds;
    HandlerView(p, s);
    match a
    case Handle => EffortOfHandle(p, s.m, s.h, FileAt(s.m.disk, p.codeFile), Temp(p, s.m, s.h));
    case Pread(n) =>
      PreadProgresses(p.train.contents, FileAt(s.m.disk, p.trainFile), s.m.processed, s.h, n);
      EffortOfFeed(FileAt(s.m.disk, p.trainFile), s.h, n, |p.train.contents|);
    case Pipe(n) => EffortOfFeed([], s.h, n, |p.train.contents|);
    case _ =>
      ReadyMeans(p, a.role);
      HoldsFor(p, s, a.role);
      WorkShrinks(TransferOf(p, a.role), s.m, ReceiverOf(s, a.role), a);
  }

  lemma {:induction false} HoldsFor(p: Job, s: State, role: Role)
    requires Inv(p, s)
    ensures Connected(TransferOf(p, role), s.m, ReceiverOf(s, role), Rank(s.h.pc))
    ensures Holds(TransferOf(p, role), (s.m, ReceiverOf(s, role)))
  {
    hide Holds, Signalled, Handled, Counted, Gate;
  }

  // The empty rounds of a schedule.
  ghost function EmptyRounds(p: Job, s: State, acts: seq<Action>, t: State): nat
    requires Run(p, s, acts, t)
    decreases |acts|
  {
    if acts == [] then 0
    else (if FindsNothing(s, acts[0]) then 1 else 0) + EmptyRounds(p, Apply(p, s, acts[0]), acts[1..], t)
  }

  lemma {:induction false} StepsArePaidFor(p: Job, s: State, acts: seq<Action>, t: State)
    requires Ready(p) && Inv(p, s) && Run(p, s, acts, t)
    ensures |acts| <= Potential(p, s) - Potential(p, t) + 4 * EmptyRounds(p, s, acts, t)
    decreases |acts|
  {
    hide Ready, Inv, Potential, FindsNothing, Apply, Enabled;
    if acts != [] {
      PotentialShrinks(p, s, acts[0]);
      InvStep(p, s, acts[0]);
      StepsArePaidFor(p, Apply(p, s, acts[0]), acts[1..], t);
    }
  }

  lemma {:induction false} PotentialIsPositive(p: Job, s: State)
    requires Inv(p, s)
    ensures Potential(p, s) >= 0
  {
    hide Inv, UnderWay, Effort, Work, Holds;
    HoldsFor(p, s, Code);
    HoldsFor(p, s, Reducer);
    HoldsFor(p, s, Train);
    WorkIsPositive(p.code, s.m, s.code);
    WorkIsPositive(p.reducer, s.m, s.reducer);
    WorkIsPositive(p.train, s.m, s.train);
    HandledUnderWay(p, s);
    EffortIsPositive(p.train.contents, s.h, s.m.processed);
  }

  lemma {:induction false} WorkIsPositive(t: Transfer, m: Memory, r: Receiver)
    requires Holds(t, (m, r))
    ensures Work(r, |t.contents|) >= 0
  {
  }

  lemma {:induction false} HandledUnderWay(p: Job, s: State)
    requires Inv(p, s)
    ensures UnderWay(p.train.contents, s.h, s.m.processed)
  {
    hide UnderWay, Connected, Counted, Gate, Consumed, Outside;
  }

  // In every run of a job, whatever the schedule, the only steps without a bound are those
  // of rounds in which the handler finds nothing new, four for each such round.
  lemma {:induction false} WorkIsBounded(p: Job, s: State, acts: seq<Action>, t: State)
    requires Ready(p) && Begins(p, s) && Run(p, s, acts, t)
    ensures |acts| <= 3 * |p.code.contents| + 3 * |p.reducer.contents| + 9 * |p.train.contents| + 36
                      + 4 * EmptyRounds(p, s, acts, t)
  {
    hide Ready, Inv, Run;
    InvBegins(p, s);
    InvAlways(p, s, acts, t);
    StepsArePaidFor(p, s, acts, t);
    PotentialIsPositive(p, t);
  }

  // ------------------------------------------------------------ the handler finishes

  // What follows once the offset is `todo` bytes short of a completely published slice.
  function AtHead(todo: int): int {
    if todo == 0 then 3 else 7 + 2 * todo
  }

  function Rest(h: Handler, size: nat): int {
    match h.pc
    case Checking => AtHead(size - h.offset)
    case Measuring => 6 + 2 * (size - h.offset)
    case Feeding => AtHead(size - h.offset - h.remaining) + 2 + 2 * h.left
    case Piping => AtHead(size - h.offset - h.remaining) + 2 + 2 * h.left + |h.buffer|
    case Folding => AtHead(size - h.offset - h.remaining) + 1
    case Replying => 2
    case Closing => 1
    case Ended => 0
    case _ => AtHead(size) + 6 - Rank(h.pc)
  }

  lemma {:induction false} RestOfHandle(p: Job, m: Memory, h: Handler, source: Bytes, temp: int)
    requires UnderWay(p.train.contents, h, m.processed) && HandlerEnabled(m, h) && (Rank(h.pc) > 4 ==> Visible(p, m))
    requires m.processed == |p.train.contents| == m.fileSize
    ensures 0 <= Rest(HandlerStep(source, temp, m, h).1, |p.train.contents|) < Rest(h, |p.train.contents|)
  {
  }

  lemma {:induction false} RestOfFeed(slice: Bytes, processed: int, file: Bytes, h: Handler, n: nat)
    requires n > 0 && UnderWay(slice, h, processed)
    ensures PreadEnabled(h, file, n) ==> 0 <= Rest(PreadStep(h, file, n), |slice|) < Rest(h, |slice|)
    ensures PipeEnabled(h, n) ==> 0 <= Rest(PipeStep(h, n), |slice|) < Rest(h, |slice|)
  {
  }

  lemma {:induction false} CompleteIsPublished(p: Job, s: State)
    requires Inv(p, s) && IsComplete(s.train.pc)
    ensures s.m.processed == |p.train.contents| == s.m.fileSize
  {
    HoldsFor(p, s, Train);
  }

  // Once the train connection has published everything, every step of the handler brings
  // it nearer to its end: there is no way to go round the loop for ever.
  lemma {:induction false} RestShrinks(p: Job, s: State, a: Action)
    requires Ready(p) && Inv(p, s) && IsComplete(s.train.pc) && IsHandlers(a) && Enabled(p, s, a)
    ensures 0 <= Rest(Apply(p, s, a).h, |p.train.contents|) < Rest(s.h, |p.train.contents|)
    ensures Apply(p, s, a).train == s.train
  {
    hide Ready, Inv, Signalled, Consumed, Outside, Gate, HandlerStep, Temp, Rest, UnderWay,
      PreadStep, PipeStep;
    HandlerView(p, s);
    CompleteIsPublished(p, s);
    var slice := p.train.contents;
    match a
    case Handle => RestOfHandle(p, s.m, s.h, FileAt(s.m.disk, p.codeFile), Temp(p, s.m, s.h));
    case Pread(n) =>
      PreadProgresses(slice, FileAt(s.m.disk, p.trainFile), s.m.processed, s.h, n);
      RestOfFeed(slice, s.m.processed, FileAt(s.m.disk, p.trainFile), s.h, n);
    case Pipe(n) => RestOfFeed(slice, s.m.processed, [], s.h, n);
  }

  function HandlerActs(acts: seq<Action>): nat {
    if acts == [] then 0 else (if IsHandlers(acts[0]) then 1 else 0) + HandlerActs(acts[1..])
  }

  lemma {:induction false} CompleteStays(p: Job, s: State, a: Action)
    requires Enabled(p, s, a) && IsComplete(s.train.pc)
    ensures IsComplete(Apply(p, s, a).train.pc)
    ensures !IsHandlers(a) ==> Apply(p, s, a).h == s.h
  {
    hide HandlerStep, Temp;
  }

  // So in any run from there the handler takes no more than that many steps.
  lemma {:induction false} HandlerEnds(p: Job, s: State, acts: seq<Action>, t: State)
    requires Ready(p) && Inv(p, s) && IsComplete(s.train.pc) && Run(p, s, acts, t)
    ensures HandlerActs(acts) <= Rest(s.h, |p.train.contents|) <= 2 * |p.train.contents| + 13
    ensures (forall i :: 0 <= i < |acts| ==> IsHandlers(acts[i])) ==> |acts| <= 2 * |p.train.contents| + 13
    decreases |acts|
  {
    hide Ready, Inv, Apply, Enabled, Rest;
    RestIsBounded(p, s);
    AllHandlers(acts);
    if acts != [] {
      var s' := Apply(p, s, acts[0]);
      InvStep(p, s, acts[0]);
      CompleteStays(p, s, acts[0]);
      HandlerEnds(p, s', acts[1..], t);
      if IsHandlers(acts[0]) {
        RestShrinks(p, s, acts[0]);
      }
    } else {
      RestIsPositive(p, s);
    }
  }

  lemma {:induction false} AllHandlers(acts: seq<Action>)
    ensures (forall i :: 0 <= i < |acts| ==> IsHandlers(acts[i])) ==> HandlerActs(acts) == |acts|
  {
    if acts != [] {
      AllHandlers(acts[1..]);
    }
  }

  lemma {:induction false} RestIsBounded(p: Job, s: State)
    requires Inv(p, s)
    ensures Rest(s.h, |p.train.contents|) <= 2 * |p.train.contents| + 13
  {
    hide Inv, UnderWay, Rest;
    HandledUnderWay(p, s);
    RestOfSlice(p.train.contents, s.h, s.m.processed);
  }

  lemma {:induction false} RestOfSlice(slice: Bytes, h: Handler, processed: int)
    requires UnderWay(slice, h, processed)
    ensures Rest(h, |slice|) <= 2 * |slice| + 13
  {
    if h.pc.Piping? {
      assert |h.buffer| <= h.pos - h.offset by { BufferIsRead(slice, h, processed); }
    }
  }

  lemma BufferIsRead(slice: Bytes, h: Handler, processed: int)
    requires UnderWay(slice, h, processed) && h.pc.Piping?
    ensures |h.fed| + |h.buffer| == h.pos - h.offset
  {
    assert |h.fed + h.buffer| == |slice[h.offset..h.pos]|;
  }

  lemma {:induction false} RestIsPositive(p: Job, s: State)
    requires Inv(p, s)
    ensures Rest(s.h, |p.train.contents|) >= 0
  {
    hide Consumed, Outside, Connected, Counted, Gate;
  }

  // ------------------------------------------------------------ the feed loop

  // Reads and writes of the feed loop over a file that does not grow.
  ghost predicate Feeds(file: Bytes, h: Handler, acts: seq<Action>, h': Handler)
    decreases |acts|
  {
    if acts == [] then h == h'
    else match acts[0]
      case Pread(n) => PreadEnabled(h, file, n) && Feeds(file, PreadStep(h, file, n), acts[1..], h')
      case Pipe(n) => PipeEnabled(h, n) && Feeds(file, PipeStep(h, n), acts[1..], h')
      case _ => false
  }

  predicate FeedIsOver(h: Handler) {
    h.pc.Feeding? && h.left <= 0
  }

  ghost predicate FeedCanEnd(file: Bytes, h: Handler) {
    exists acts, h' :: Feeds(file, h, acts, h') && FeedIsOver(h')
  }

  // The loop ends if and only if there is nothing to feed or all of it is on disk. At the
  // end of the file it reads nothing for ever.
  lemma {:induction false} FeedEndsExactly(file: Bytes, h: Handler)
    requires h.pc.Feeding? && h.pos >= 0
    ensures FeedCanEnd(file, h) <==> h.left <= 0 || h.pos + h.left <= |file|
  {
    if h.left <= 0 || h.pos + h.left <= |file| {
      var acts, h' := FeedToEnd(file, h);
    } else {
      forall acts, h' | Feeds(file, h, acts, h')
        ensures !FeedIsOver(h')
      {
        FeedGoesOn(file, h, acts, h');
      }
    }
  }

  lemma {:induction false} FeedToEnd(file: Bytes, h: Handler) returns (acts: seq<Action>, h': Handler)
    requires h.pc.Feeding? && h.pos >= 0 && (h.left <= 0 || h.pos + h.left <= |file|)
    ensures Feeds(file, h, acts, h') && FeedIsOver(h')
    decreases h.left
  {
    if h.left <= 0 {
      acts, h' := [], h;
    } else {
      var piping := PreadStep(h, file, 1);
      acts, h' := FeedToEnd(file, PipeStep(piping, 1));
      assert ([Pipe(1)] + acts)[1..] == acts;
      assert ([Pread(1)] + ([Pipe(1)] + acts))[1..] == [Pipe(1)] + acts;
      acts := [Pread(1)] + ([Pipe(1)] + acts);
    }
  }

  lemma {:induction false} FeedGoesOn(file: Bytes, h: Handler, acts: seq<Action>, h': Handler)
    requires Feeds(file, h, acts, h')
    requires h.pos >= 0 && h.left > 0 && h.pos + h.left > |file|
    ensures h'.left > 0
    decreases |acts|
  {
    if acts != [] {
      match acts[0]
      case Pread(n) => FeedGoesOn(file, PreadStep(h, file, n), acts[1..], h');
      case Pipe(n) => FeedGoesOn(file, PipeStep(h, n), acts[1..], h');
    }
  }
}
