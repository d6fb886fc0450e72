/** Schedules that exist: every job can be finished from wherever it is, and the slice can
    be consumed in different segments. */
module Completion {
  import opened Files
  import opened Decimal
  import opened Worker
  import opened Invariant
  import opened Handoff
  import opened Progress

  // ------------------------------------------------------------ runs

  lemma {:induction false} RunThen(p: Job, s: State, acts: seq<Action>, m: State, more: seq<Action>, t: State)
    requires Run(p, s, acts, m) && Run(p, m, more, t)
    ensures Run(p, s, acts + more, t)
    decreases |acts|
  {
    hide Apply, Enabled;
    if acts == [] {
      assert acts + more == more;
    } else {
      RunThen(p, Apply(p, s, acts[0]), acts[1..], m, more, t);
      assert (acts + more)[1..] == acts[1..] + more;
    }
  }

  lemma {:induction false} FirstThen(p: Job, s: State, a: Action, more: seq<Action>, t: State)
    requires Enabled(p, s, a) && Run(p, Apply(p, s, a), more, t)
    ensures Run(p, s, [a] + more, t)
  {
    hide Apply, Enabled;
    assert ([a] + more)[1..] == more;
  }

  // ------------------------------------------------------------ a step there always is

  // The next step of a connection; it receives and appends byte by byte.
  function NextOf(role: Role, r: Receiver): Action {
    match r.pc
    case Unsent => Request(role)
    case Receiving => if r.received < r.header.size then Recv(role, 1) else Receive(role)
    case Appending => Append(role, 1)
    case _ => Receive(role)
  }

  lemma {:induction false} ConnectionCanStep(t: Transfer, m: Memory, r: Receiver, role: Role)
    requires Holds(t, (m, r)) && !AtRest(r.pc)
    ensures !IsHandlers(NextOf(role, r)) && NextOf(role, r).role == role
    ensures ConnectionEnabled(r, NextOf(role, r))
  {
  }

  // The next step of the handler when all connections are at rest.
  function HandlerNext(h: Handler): Action {
    match h.pc
    case Feeding => if h.left > 0 then Pread(1) else Handle
    case Piping => Pipe(1)
    case _ => Handle
  }

  lemma {:induction false} HandlerCanStep(p: Job, s: State)
    requires Ready(p) && Inv(p, s) && !s.h.pc.Ended?
    requires s.h.pc.Waiting1? ==> s.code.pc.Finished?
    requires s.h.pc.Waiting2? ==> IsOpen(s.train.pc)
    ensures Enabled(p, s, HandlerNext(s.h)) && IsHandlers(HandlerNext(s.h))
  {
    hide Inv, Holds, Counted, Gate, Consumed, Outside;
    HandlerView(p, s);
    HoldsFor(p, s, Code);
    HoldsFor(p, s, Train);
  }

  // ------------------------------------------------------------ every job can be finished

  // The segments there will be if the whole slice is published before the handler next
  // measures what there is.
  function Tail(slice: Bytes, from: int): seq<Bytes> {
    if 0 <= from < |slice| then [slice[from..]] else []
  }

  function Expected(h: Handler, slice: Bytes): seq<Bytes> {
    match h.pc
    case Checking => h.segments + Tail(slice, h.offset)
    case Measuring =>
      h.segments + if 0 <= h.offset <= |slice| then [slice[h.offset..]] else []
    case Feeding | Piping | Folding =>
      if 0 <= h.offset <= h.offset + h.remaining <= |slice| then
        h.segments + [slice[h.offset..h.offset + h.remaining]] + Tail(slice, h.offset + h.remaining)
      else h.segments
    case Replying | Closing | Ended => h.segments
    case _ => Tail(slice, 0)
  }

  lemma {:induction false} ExpectedOfMeasuring(slice: Bytes, m: Memory, h: Handler, source: Bytes, temp: int)
    requires h.pc.Measuring? && 0 <= h.offset <= |slice| == m.processed
    ensures Expected(HandlerStep(source, temp, m, h).1, slice) == Expected(h, slice)
  {
    assert slice[h.offset..|slice|] == slice[h.offset..];
  }

  lemma {:induction false} ExpectedOfFolding(slice: Bytes, m: Memory, h: Handler, source: Bytes, temp: int)
    requires h.pc.Folding? && UnderWay(slice, h, m.processed)
    ensures Expected(HandlerStep(source, temp, m, h).1, slice) == Expected(h, slice)
  {
    assert h.fed == slice[h.offset..h.offset + h.remaining];
  }

  lemma {:induction false} ExpectedElsewhere(slice: Bytes, m: Memory, h: Handler, source: Bytes, temp: int)
    requires HandlerEnabled(m, h) && !h.pc.Measuring? && !h.pc.Folding?
    requires Rank(h.pc) <= 5 ==> h.segments == []
    requires h.pc.Checking? ==> 0 <= h.offset <= |slice| == m.fileSize
    ensures Expected(HandlerStep(source, temp, m, h).1, slice) == Expected(h, slice)
  {
    hide ToString, Tail;
    if h.pc.Checking? {
      TailAtEnd(h.segments, slice, h.offset);
    } else if h.pc.Feeding? {
      FeedingExpects(h, slice);
    }
  }

  lemma TailAtEnd(segments: seq<Bytes>, slice: Bytes, from: int)
    requires 0 <= from <= |slice|
    ensures from == |slice| ==> segments + Tail(slice, from) == segments
    ensures from < |slice| ==> Tail(slice, from) == [slice[from..]]
  {
  }

  lemma FeedingExpects(h: Handler, slice: Bytes)
    requires h.pc.Feeding?
    ensures Expected(h.(pc := Folding), slice) == Expected(h, slice)
  {
  }

  lemma {:induction false} ExpectedOfHandle(p: Job, m: Memory, h: Handler, source: Bytes, temp: int)
    requires UnderWay(p.train.contents, h, m.processed) && HandlerEnabled(m, h)
    requires Rank(h.pc) <= 5 ==> h.segments == []
    requires Rank(h.pc) > 4 ==> Visible(p, m) && m.processed == |p.train.contents|
    ensures Expected(HandlerStep(source, temp, m, h).1, p.train.contents) == Expected(h, p.train.contents)
  {
    hide HandlerStep, Expected;
    if h.pc.Measuring? {
      ExpectedOfMeasuring(p.train.contents, m, h, source, temp);
    } else if h.pc.Folding? {
      ExpectedOfFolding(p.train.contents, m, h, source, temp);
    } else {
      ExpectedElsewhere(p.train.contents, m, h, source, temp);
    }
  }

  lemma {:induction false} ExpectedStays(p: Job, s: State, a: Action)
    requires Ready(p) && Inv(p, s) && Enabled(p, s, a)
    requires IsHandlers(a) ==> Rank(s.h.pc) <= 4 || IsComplete(s.train.pc)
    ensures Expected(Apply(p, s, a).h, p.train.contents) == Expected(s.h, p.train.contents)
  {
    hide Ready, Inv, Connected, Counted, Gate, Tallied, Outside, Temp, HandlerStep, Expected;
    HandlerView(p, s);
    if a.Handle? {
      if Rank(s.h.pc) > 4 {
        CompleteIsPublished(p, s);
      }
      ExpectedOfHandle(p, s.m, s.h, FileAt(s.m.disk, p.codeFile), Temp(p, s.m, s.h));
    } else if a.Pread? || a.Pipe? {
      ExpectedOfFeed(s.h, Apply(p, s, a).h, p.train.contents);
    }
  }

  lemma {:induction false} ExpectedOfFeed(h: Handler, h': Handler, slice: Bytes)
    requires (h.pc.Feeding? || h.pc.Piping?) && (h'.pc.Feeding? || h'.pc.Piping?)
    requires h'.offset == h.offset && h'.remaining == h.remaining && h'.segments == h.segments
    ensures Expected(h', slice) == Expected(h, slice)
  {
  }

  // ------------------------------------------------------------ finishing

  predicate Resting(s: State) {
    AtRest(s.code.pc) && AtRest(s.reducer.pc) && AtRest(s.train.pc)
  }

  // The steps the three connections still have.
  function Remaining(p: Job, s: State): int {
    Work(s.code, |p.code.contents|) + Work(s.reducer, |p.reducer.contents|) + Work(s.train, |p.train.contents|)
  }

  function Uninvited(s: State): nat {
    if Rank(s.h.pc) < 2 then 2 - Rank(s.h.pc) else 0
  }

  // What to do next: invite the client, then the connections, then the handler.
  function Next(s: State): Action {
    if Rank(s.h.pc) < 2 then Handle
    else if !AtRest(s.code.pc) then NextOf(Code, s.code)
    else if !AtRest(s.reducer.pc) then NextOf(Reducer, s.reducer)
    else if !AtRest(s.train.pc) then NextOf(Train, s.train)
    else HandlerNext(s.h)
  }

  lemma {:induction false} RestingIsComplete(p: Job, s: State)
    requires Ready(p) && Inv(p, s)
    ensures AtRest(s.code.pc) ==> s.code.pc.Finished?
    ensures AtRest(s.train.pc) ==> s.train.pc.Finished?
    ensures Rank(s.h.pc) >= 2 ==> s.m.invited
  {
    hide Holds, Counted, Handled;
    HoldsFor(p, s, Code);
    HoldsFor(p, s, Train);
  }

  // In every reachable state that is not the end there is a step to take.
  lemma {:induction false} NextIsEnabled(p: Job, s: State)
    requires Ready(p) && Inv(p, s) && !Quiet(s)
    ensures Enabled(p, s, Next(s))
    ensures IsHandlers(Next(s)) <==> Rank(s.h.pc) < 2 || Resting(s)
  {
    hide Ready, Inv, Holds, ConnectionEnabled, PreadEnabled, PipeEnabled;
    RestingIsComplete(p, s);
    if Rank(s.h.pc) < 2 {
    } else if Resting(s) {
      HandlerCanStep(p, s);
    } else {
      var role := if !AtRest(s.code.pc) then Code else if !AtRest(s.reducer.pc) then Reducer else Train;
      HoldsFor(p, s, role);
      ConnectionCanStep(TransferOf(p, role), s.m, ReceiverOf(s, role), role);
    }
  }

  lemma {:induction false} ConnectionUsesWork(p: Job, s: State, a: Action)
    requires Ready(p) && Inv(p, s) && Enabled(p, s, a) && !IsHandlers(a)
    ensures Remaining(p, Apply(p, s, a)) < Remaining(p, s)
    ensures Apply(p, s, a).h == s.h
  {
    hide Ready, Inv, ConnectionStep, Holds, Work;
    ReadyMeans(p, a.role);
    HoldsFor(p, s, a.role);
    WorkShrinks(TransferOf(p, a.role), s.m, ReceiverOf(s, a.role), a);
  }

  lemma {:induction false} RemainingIsPositive(p: Job, s: State)
    requires Inv(p, s)
    ensures Remaining(p, s) >= 0
  {
    hide Inv, Signalled;
    HoldsFor(p, s, Code);
    HoldsFor(p, s, Reducer);
    HoldsFor(p, s, Train);
  }

  // From every reachable state the job can be finished, and what its segments will then
  // be is already determined if the rest of the slice arrives first.
  lemma {:induction false} CanFinish(p: Job, s: State) returns (acts: seq<Action>, t: State)
    requires Ready(p) && Inv(p, s)
    ensures Run(p, s, acts, t) && Quiet(t) && Inv(p, t)
    ensures t.h.segments == Expected(s.h, p.train.contents)
    decreases Uninvited(s), Remaining(p, s), Rest(s.h, |p.train.contents|)
  {
    hide Ready, Inv, Apply, Enabled, Expected, Remaining, Rest, Next;
    if Quiet(s) {
      acts, t := [], s;
      QuietExpects(p, s);
    } else {
      var a := Next(s);
      NextIsEnabled(p, s);
      InvStep(p, s, a);
      NextGoesOn(p, s);
      NextExpects(p, s);
      acts, t := CanFinish(p, Apply(p, s, a));
      FirstThen(p, s, a, acts, t);
      acts := [a] + acts;
    }
  }

  lemma {:induction false} QuietExpects(p: Job, s: State)
    requires Quiet(s)
    ensures s.h.segments == Expected(s.h, p.train.contents)
  {
  }

  lemma {:induction false} NextExpects(p: Job, s: State)
    requires Ready(p) && Inv(p, s) && !Quiet(s) && Enabled(p, s, Next(s))
    ensures Expected(Apply(p, s, Next(s)).h, p.train.contents) == Expected(s.h, p.train.contents)
  {
    hide Ready, Inv, Apply, Enabled, Expected, Next;
    NextIsEnabled(p, s);
    RestingIsComplete(p, s);
    ExpectedStays(p, s, Next(s));
  }

  lemma {:induction false} NextGoesOn(p: Job, s: State)
    requires Ready(p) && Inv(p, s) && !Quiet(s) && Enabled(p, s, Next(s))
    ensures var s' := Apply(p, s, Next(s));
            var size := |p.train.contents|;
            || Uninvited(s') < Uninvited(s)
            || (Uninvited(s') == Uninvited(s) && 0 <= Remaining(p, s') < Remaining(p, s))
            || (Uninvited(s') == Uninvited(s) && Remaining(p, s') == Remaining(p, s)
                && 0 <= Rest(s'.h, size) < Rest(s.h, size))
  {
    hide Ready, Inv, ApplyConnection, HandlerStep, Enabled, Rest, Remaining;
    var s' := Apply(p, s, Next(s));
    NextIsEnabled(p, s);
    InvStep(p, s, Next(s));
    if Rank(s.h.pc) < 2 {
      InvitingStep(p, s);
    } else if Resting(s) {
      RestingIsComplete(p, s);
      RestShrinks(p, s, Next(s));
      HandlerKeepsWork(p, s, Next(s));
    } else {
      ConnectionUsesWork(p, s, Next(s));
      RemainingIsPositive(p, s');
    }
  }

  lemma {:induction false} InvitingStep(p: Job, s: State)
    requires Rank(s.h.pc) < 2
    ensures Uninvited(Apply(p, s, Handle)) < Uninvited(s)
  {
    hide Temp;
  }

  lemma {:induction false} HandlerKeepsWork(p: Job, s: State, a: Action)
    requires Enabled(p, s, a) && IsHandlers(a) && Rank(s.h.pc) >= 2
    ensures Remaining(p, Apply(p, s, a)) == Remaining(p, s)
    ensures Uninvited(Apply(p, s, a)) == Uninvited(s)
  {
    hide Temp, Work, ApplyConnection;
  }
}
