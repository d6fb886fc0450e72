/** Particular schedules of a job: where the slice is cut, and who knocks when. */
module Schedules {
  import opened Files
  import opened Decimal
  import opened Worker
  import opened Invariant
  import opened Handoff
  import opened Progress
  import opened Completion

  // Only the connection of `role` has moved.
  ghost predicate OnlyMoved(s: State, t: State, role: Role) {
    t.h == s.h && forall other :: other != role ==> ReceiverOf(t, other) == ReceiverOf(s, other)
  }

  // Only the handler has moved.
  predicate OnlyHandler(s: State, t: State) {
    t.code == s.code && t.reducer == s.reducer && t.train == s.train
  }

  lemma {:induction false} ConnectionMovesAlone(p: Job, s: State, a: Action)
    requires Enabled(p, s, a) && !IsHandlers(a)
    ensures OnlyMoved(s, Apply(p, s, a), a.role)
    ensures ReceiverOf(Apply(p, s, a), a.role) ==
            ConnectionStep(TransferOf(p, a.role).parsed, s.m, ReceiverOf(s, a.role), a).1
  {
    hide ConnectionStep, ConnectionEnabled;
  }

  lemma {:induction false} HandlerMovesAlone(p: Job, s: State, a: Action)
    requires Enabled(p, s, a) && IsHandlers(a)
    ensures OnlyHandler(s, Apply(p, s, a))
    ensures Apply(p, s, a).m.processed == s.m.processed && Apply(p, s, a).m.fileSize == s.m.fileSize
    ensures Apply(p, s, a).m.disk == s.m.disk
  {
    hide Temp, ApplyConnection, HandlerStep, Gate, PreadEnabled, HandlerEnabled;
    if a.Handle? {
      HandleMovesAlone(s.m, s.h, FileAt(s.m.disk, p.codeFile), Temp(p, s.m, s.h));
    }
  }

  lemma {:induction false} HandleMovesAlone(m: Memory, h: Handler, source: Bytes, temp: int)
    requires HandlerEnabled(m, h)
    ensures var m' := HandlerStep(source, temp, m, h).0;
            m'.processed == m.processed && m'.fileSize == m.fileSize && m'.disk == m.disk
  {
    hide ToString;
  }

  // The reducer takes no part.
  predicate Spares(acts: seq<Action>) {
    forall i :: 0 <= i < |acts| ==> IsHandlers(acts[i]) || acts[i].role != Reducer
  }

  // ------------------------------------------------------------ driving a connection

  predicate CanReach(r: Receiver, k: nat) {
    && !r.pc.TurnedAway? && !r.pc.Failed? && !r.pc.Finishing? && !r.pc.Finished?
    && r.received <= k
  }

  lemma {:induction false} StillCanReach(t: Transfer, m: Memory, r: Receiver, role: Role, k: nat)
    requires Holds(t, (m, r)) && CanReach(r, k) && k <= |t.contents|
    requires r.pc.Receiving? ==> r.received < k
    ensures ConnectionEnabled(r, NextOf(role, r))
    ensures var r' := ConnectionStep(Meaning(t), m, r, NextOf(role, r)).1;
            !r'.pc.TurnedAway? ==> CanReach(r', k)
  {
  }

  lemma {:induction false} NotTurnedAway(p: Job, s: State, role: Role)
    requires Ready(p) && Inv(p, s) && role != Reducer
    ensures !ReceiverOf(s, role).pc.TurnedAway?
  {
    hide Inv, Holds;
    HoldsFor(p, s, role);
  }

  // A connection receives its first `k` bytes, publishes them, and stops there.
  lemma {:induction false} Drive(p: Job, s: State, role: Role, k: nat) returns (acts: seq<Action>, t: State)
    requires Ready(p) && Inv(p, s) && s.m.invited && role != Reducer
    requires k <= |TransferOf(p, role).contents| && CanReach(ReceiverOf(s, role), k)
    ensures Run(p, s, acts, t) && Inv(p, t) && OnlyMoved(s, t, role) && t.m.invited
    ensures ReceiverOf(t, role).pc.Receiving? && ReceiverOf(t, role).received == k
    decreases Work(ReceiverOf(s, role), |TransferOf(p, role).contents|)
  {
    hide Ready, Inv, Apply, Holds, Signalled, Work, CanReach, ConnectionEnabled, ConnectionStep, NextOf;
    var tr, r := TransferOf(p, role), ReceiverOf(s, role);
    HoldsFor(p, s, role);
    if r.pc.Receiving? && r.received == k {
      acts, t := [], s;
    } else {
      var a := NextOf(role, r);
      WithinReach(r, k);
      StillCanReach(tr, s.m, r, role, k);
      WorkShrinks(tr, s.m, r, a);
      ReadyMeans(p, role);
      NextIsFor(role, r);
      var s' := Apply(p, s, a);
      InvStep(p, s, a);
      ConnectionMovesAlone(p, s, a);
      NotTurnedAway(p, s', role);
      StaysInvited(p, s, a);
      acts, t := Drive(p, s', role, k);
      FirstThen(p, s, a, acts, t);
      acts := [a] + acts;
    }
  }

  lemma WithinReach(r: Receiver, k: nat)
    requires CanReach(r, k)
    ensures r.received <= k
  {
  }

  lemma NextIsFor(role: Role, r: Receiver)
    ensures !IsHandlers(NextOf(role, r)) && NextOf(role, r).role == role
  {
  }

  lemma {:induction false} StaysInvited(p: Job, s: State, a: Action)
    requires Ready(p) && Inv(p, s) && Enabled(p, s, a) && !IsHandlers(a) && s.m.invited
    ensures Apply(p, s, a).m.invited
  {
    hide Ready, Inv, Holds, Signalled, ConnectionEnabled, ConnectionStep;
    HoldsFor(p, s, a.role);
    ReadyMeans(p, a.role);
    ConnectionIsConfined(TransferOf(p, a.role), s.m, ReceiverOf(s, a.role), a);
  }

  // A connection runs to its end.
  lemma {:induction false} Complete(p: Job, s: State, role: Role) returns (acts: seq<Action>, t: State)
    requires Ready(p) && Inv(p, s) && s.m.invited && role != Reducer
    ensures Run(p, s, acts, t) && Inv(p, t) && OnlyMoved(s, t, role) && t.m.invited
    ensures ReceiverOf(t, role).pc.Finished? && Spares(acts)
    decreases Work(ReceiverOf(s, role), |TransferOf(p, role).contents|)
  {
    hide Ready, Inv, Apply, Holds, Signalled, Work, ConnectionEnabled, ConnectionStep, NextOf;
    var tr, r := TransferOf(p, role), ReceiverOf(s, role);
    HoldsFor(p, s, role);
    NotTurnedAway(p, s, role);
    if AtRest(r.pc) {
      acts, t := [], s;
    } else {
      var a := NextOf(role, r);
      ConnectionCanStep(tr, s.m, r, role);
      NextIsFor(role, r);
      WorkShrinks(tr, s.m, r, a);
      ReadyMeans(p, role);
      var s' := Apply(p, s, a);
      InvStep(p, s, a);
      ConnectionMovesAlone(p, s, a);
      StaysInvited(p, s, a);
      acts, t := Complete(p, s', role);
      FirstThen(p, s, a, acts, t);
      acts := [a] + acts;
    }
  }

  // ------------------------------------------------------------ driving the handler

  lemma {:induction false} Invite(p: Job, s: State) returns (acts: seq<Action>, t: State)
    requires Ready(p) && Begins(p, s)
    ensures Run(p, s, acts, t) && Inv(p, t) && t.m.invited && Rank(t.h.pc) == 2
    ensures OnlyHandler(s, t)
  {
    hide Ready, Inv, Temp;
    InvBegins(p, s);
    InvStep(p, s, Handle);
    var m := Apply(p, s, Handle);
    InvStep(p, m, Handle);
    t := Apply(p, m, Handle);
    FirstThen(p, m, Handle, [], t);
    FirstThen(p, s, Handle, [Handle] + [], t);
    acts := [Handle] + ([Handle] + []);
  }

  lemma {:induction false} RankSteps(p: Job, s: State)
    requires Enabled(p, s, Handle) && Rank(s.h.pc) < 6
    ensures Rank(Apply(p, s, Handle).h.pc) == Rank(s.h.pc) + 1
    ensures Rank(s.h.pc) == 5 ==> Apply(p, s, Handle).h.pc.Checking? && Apply(p, s, Handle).h.offset == 0
    ensures Apply(p, s, Handle).h.segments == s.h.segments
  {
    hide Temp;
  }

  // With the code complete and the train file open the handler gets to its loop.
  lemma {:induction false} EnterLoop(p: Job, s: State) returns (acts: seq<Action>, t: State)
    requires Ready(p) && Inv(p, s) && s.code.pc.Finished? && IsOpen(s.train.pc)
    requires Rank(s.h.pc) <= 5 && s.h.segments == []
    ensures Run(p, s, acts, t) && Inv(p, t) && OnlyHandler(s, t) && t.m.processed == s.m.processed
    ensures t.h.pc.Checking? && t.h.offset == 0 && t.h.segments == []
    decreases 6 - Rank(s.h.pc)
  {
    hide Ready, Inv, Apply, Enabled;
    HandlerCanStep(p, s);
    var s' := Apply(p, s, Handle);
    InvStep(p, s, Handle);
    HandlerMovesAlone(p, s, Handle);
    RankSteps(p, s);
    if Rank(s'.h.pc) == 6 {
      acts, t := [], s';
    } else {
      acts, t := EnterLoop(p, s');
    }
    FirstThen(p, s, Handle, acts, t);
    acts := [Handle] + acts;
  }

  function Cut(slice: Bytes, from: int, to: int): Bytes {
    if 0 <= from <= to <= |slice| then slice[from..to] else []
  }

  predicate InRound(h: Handler) {
    h.pc.Feeding? || h.pc.Piping? || h.pc.Folding?
  }

  function FeedLeft(h: Handler): int {
    match h.pc
    case Feeding => 2 * h.left + 2
    case Piping => 2 * h.left + |h.buffer| + 2
    case _ => 1
  }

  lemma {:induction false} RoundStep(p: Job, s: State)
    requires InRound(s.h) && Enabled(p, s, HandlerNext(s.h))
    requires UnderWay(p.train.contents, s.h, s.m.processed)
    ensures var h' := Apply(p, s, HandlerNext(s.h)).h;
            && (!s.h.pc.Folding? ==> InRound(h') && h'.offset == s.h.offset && h'.remaining == s.h.remaining
                                     && h'.segments == s.h.segments && FeedLeft(h') < FeedLeft(s.h))
            && (s.h.pc.Folding? ==> h'.pc.Checking? && h'.offset == s.h.offset + s.h.remaining
                                    && h'.segments ==
                                       s.h.segments + [Cut(p.train.contents, s.h.offset, s.h.offset + s.h.remaining)])
  {
    hide Temp, ApplyConnection;
  }

  // The handler runs on to the head of its loop; nothing else moves.
  lemma {:induction false} FinishRound(p: Job, s: State) returns (acts: seq<Action>, t: State)
    requires Ready(p) && Inv(p, s) && InRound(s.h)
    requires UnderWay(p.train.contents, s.h, s.m.processed)
    ensures Run(p, s, acts, t) && Inv(p, t) && OnlyHandler(s, t)
    ensures t.h.pc.Checking? && t.h.offset == s.h.offset + s.h.remaining
    ensures t.h.segments == s.h.segments + [Cut(p.train.contents, s.h.offset, s.h.offset + s.h.remaining)]
    decreases FeedLeft(s.h)
  {
    hide Ready, Inv, Apply, Enabled, HandlerNext, FeedLeft;
    HandlerCanStep(p, s);
    var a := HandlerNext(s.h);
    var s' := Apply(p, s, a);
    InvStep(p, s, a);
    HandlerMovesAlone(p, s, a);
    RoundStep(p, s);
    HandledUnderWay(p, s');
    if s.h.pc.Folding? {
      acts, t := [], s';
    } else {
      FeedLeftIsPositive(p.train.contents, s'.h, s'.m.processed);
      acts, t := FinishRound(p, s');
    }
    FirstThen(p, s, a, acts, t);
    acts := [a] + acts;
  }

  lemma FeedLeftIsPositive(slice: Bytes, h: Handler, processed: int)
    requires UnderWay(slice, h, processed)
    ensures FeedLeft(h) >= 0
  {
  }

  // One round from the head of the loop consumes exactly what is published.
  lemma {:induction false} Round(p: Job, s: State) returns (acts: seq<Action>, t: State)
    requires Ready(p) && Inv(p, s) && s.h.pc.Checking? && s.h.offset != s.m.fileSize
    ensures 0 <= s.h.offset <= s.m.processed <= |p.train.contents|
    ensures Run(p, s, acts, t) && Inv(p, t) && OnlyHandler(s, t)
    ensures t.h.pc.Checking? && t.h.offset == s.m.processed
    ensures t.h.segments == s.h.segments + [Cut(p.train.contents, s.h.offset, s.m.processed)]
  {
    hide Ready, Inv, Temp, Outside, Consumed, Visible;
    HandledUnderWay(p, s);
    var m := Apply(p, s, Handle);
    InvStep(p, s, Handle);
    var m' := Apply(p, m, Handle);
    InvStep(p, m, Handle);
    HandledUnderWay(p, m');
    acts, t := FinishRound(p, m');
    FirstThen(p, m, Handle, acts, t);
    FirstThen(p, s, Handle, [Handle] + acts, t);
    acts := [Handle] + ([Handle] + acts);
  }

  // With code and train complete the handler gets to its end, the reducer not moving.
  lemma {:induction false} HandlerToEnd(p: Job, s: State) returns (acts: seq<Action>, t: State)
    requires Ready(p) && Inv(p, s) && s.code.pc.Finished? && s.train.pc.Finished?
    ensures Run(p, s, acts, t) && Inv(p, t) && OnlyHandler(s, t) && t.h.pc.Ended? && Spares(acts)
    decreases Rest(s.h, |p.train.contents|)
  {
    hide Ready, Inv, Apply, Enabled, HandlerNext, Rest;
    if s.h.pc.Ended? {
      acts, t := [], s;
    } else {
      HandlerCanStep(p, s);
      var a := HandlerNext(s.h);
      InvStep(p, s, a);
      HandlerMovesAlone(p, s, a);
      RestShrinks(p, s, a);
      acts, t := HandlerToEnd(p, Apply(p, s, a));
      FirstThen(p, s, a, acts, t);
      acts := [a] + acts;
    }
  }

  // ------------------------------------------------------------ the schedules

  // Up to the head of the loop with the first `k` bytes published.
  lemma {:induction false} WithPrefix(p: Job, s: State, k: nat) returns (acts: seq<Action>, t: State)
    requires Ready(p) && Begins(p, s) && k <= |p.train.contents|
    ensures Run(p, s, acts, t) && Inv(p, t)
    ensures t.h.pc.Checking? && t.h.offset == 0 && t.h.segments == []
    ensures t.train.pc.Receiving? && t.train.received == k
  {
    hide Ready, Inv, Run;
    var a0, s0 := Invite(p, s);
    NothingConsumed(p, s0);
    var a1, s1 := Complete(p, s0, Code);
    assert ReceiverOf(s1, Code) == s1.code && ReceiverOf(s1, Train) == ReceiverOf(s0, Train);
    var a2, s2 := Drive(p, s1, Train, k);
    assert ReceiverOf(s2, Code) == ReceiverOf(s1, Code) && ReceiverOf(s2, Train) == s2.train;
    var a3, s3 := EnterLoop(p, s2);
    RunThen(p, s, a0, s0, a1, s1);
    RunThen(p, s, a0 + a1, s1, a2, s2);
    RunThen(p, s, a0 + a1 + a2, s2, a3, s3);
    acts, t := a0 + a1 + a2 + a3, s3;
  }

  lemma {:induction false} NothingConsumed(p: Job, s: State)
    requires Inv(p, s) && Rank(s.h.pc) <= 5
    ensures s.h.segments == []
  {
    hide UnderWay, Connected, Counted, Gate, Outside;
  }

  lemma {:induction false} PublishedAtHead(p: Job, s: State)
    requires Inv(p, s) && s.train.pc.Receiving?
    ensures s.m.processed == s.train.received && s.m.fileSize == |p.train.contents|
  {
    hide Connected, Gate, Handled;
  }

  // From the head of the loop, with the first `k` parts consumed: the others arrive one by
  // one, and each is consumed before the next.
  lemma {:induction false} Rounds(p: Job, s: State, parts: seq<Bytes>, k: nat) returns (acts: seq<Action>, t: State)
    requires Ready(p) && Inv(p, s) && Divides(parts, p.train.contents) && k <= |parts|
    requires s.h.pc.Checking? && s.h.segments == parts[..k] && s.h.offset == |Concat(parts[..k])|
    requires s.train.pc.Receiving? && s.train.received == s.h.offset
    ensures Run(p, s, acts, t) && Inv(p, t)
    ensures t.h.pc.Checking? && t.h.segments == parts && t.h.offset == |p.train.contents|
    decreases |parts| - k
  {
    hide Ready, Inv, Run, Divides, Concat;
    if k == |parts| {
      acts, t := [], s;
      assert parts[..k] == parts;
      AllParts(p, s, parts);
    } else {
      var slice := p.train.contents;
      PartIsCut(parts, slice, k);
      RestingIsComplete(p, s);
      var a0, s0 := Drive(p, s, Train, |Concat(parts[..k + 1])|);
      assert ReceiverOf(s0, Train) == s0.train;
      PublishedAtHead(p, s0);
      var a1, s1 := Round(p, s0);
      assert parts[..k + 1] == parts[..k] + [parts[k]];
      var a2;
      a2, t := Rounds(p, s1, parts, k + 1);
      RunThen(p, s, a0, s0, a1, s1);
      RunThen(p, s, a0 + a1, s1, a2, t);
      acts := a0 + a1 + a2;
    }
  }

  // The parts make up the slice, and the last is not empty.
  ghost predicate Divides(parts: seq<Bytes>, slice: Bytes) {
    Concat(parts) == slice && (parts != [] ==> parts[|parts| - 1] != [])
  }

  lemma AllParts(p: Job, s: State, parts: seq<Bytes>)
    requires Divides(parts, p.train.contents) && s.h.offset == |Concat(parts)|
    ensures Run(p, s, [], s) && s.h.offset == |p.train.contents|
  {
  }

  lemma {:induction false} PartIsCut(parts: seq<Bytes>, slice: Bytes, k: nat)
    requires Divides(parts, slice) && k < |parts|
    ensures var from, to := |Concat(parts[..k])|, |Concat(parts[..k + 1])|;
            from <= to <= |slice| && from < |slice| && slice[from..to] == parts[k]
  {
    assert parts[..|parts|] == parts;
    ConcatOfFirst(parts, k, |parts| - 1);
    ConcatOfFirst(parts, k + 1, |parts|);
    assert parts[..k + 1][..k] == parts[..k];
    assert Concat(parts[..k + 1]) == Concat(parts[..k]) + parts[k];
  }

  lemma {:induction false} ConcatOfFirst(parts: seq<Bytes>, j: nat, k: nat)
    requires j <= k <= |parts|
    ensures Concat(parts[..j]) <= Concat(parts[..k])
  {
    if j < k {
      ConcatOfFirst(parts, j, k - 1);
      assert parts[..k][..k - 1] == parts[..k - 1];
    }
  }

  // The slice can be consumed in any parts of which the last is not empty.
  lemma {:induction false} InPieces(p: Job, s: State, parts: seq<Bytes>) returns (acts: seq<Action>, t: State)
    requires Ready(p) && Begins(p, s) && Divides(parts, p.train.contents)
    ensures Run(p, s, acts, t) && Quiet(t) && Inv(p, t)
    ensures t.h.segments == parts
  {
    hide Ready, Inv, Quiet, Run, Begins, Divides;
    var a0, s0 := WithPrefix(p, s, 0);
    assert parts[..0] == [];
    var a1, s1 := Rounds(p, s0, parts, 0);
    var a2, s2 := CanFinish(p, s1);
    assert parts + [] == parts;
    RunThen(p, s, a0, s0, a1, s1);
    RunThen(p, s, a0 + a1, s1, a2, s2);
    acts, t := a0 + a1 + a2, s2;
  }

  lemma {:induction false} TwoParts(a: Bytes, b: Bytes)
    requires b != []
    ensures Divides([a, b], a + b) && Divides([b], b)
  {
    ConcatSnoc([], a);
    ConcatSnoc([a], b);
    ConcatSnoc([], b);
    assert [] + [a] == [a] && [a] + [b] == [a, b] && [] + [b] == [b];
    assert [] + a == a && [] + b == b;
  }

  // The reducer has no such guarantee as code and train: every job has a schedule in
  // which it finds the gate closed.
  lemma {:induction false} ReducerCanBeTurnedAway(p: Job, s: State) returns (acts: seq<Action>, t: State)
    requires Ready(p) && Begins(p, s)
    ensures Run(p, s, acts, t) && Quiet(t) && t.reducer.pc.TurnedAway?
  {
    hide Ready, Inv, Run;
    var a0, s0 := Invite(p, s);
    var a1, s1 := Complete(p, s0, Code);
    var a2, s2 := Complete(p, s1, Train);
    assert ReceiverOf(s2, Code) == ReceiverOf(s1, Code);
    assert ReceiverOf(s2, Reducer) == ReceiverOf(s1, Reducer) == ReceiverOf(s0, Reducer);
    assert s2.code.pc.Finished? && s2.train.pc.Finished? && s2.reducer == NEW_RECEIVER;
    var a3, s3 := HandlerToEnd(p, s2);
    var a4, s4 := KnockAtClosedGate(p, s3);
    assert ReceiverOf(s4, Code) == ReceiverOf(s3, Code) && ReceiverOf(s4, Train) == ReceiverOf(s3, Train);
    RunThen(p, s, a0, s0, a1, s1);
    RunThen(p, s, a0 + a1, s1, a2, s2);
    RunThen(p, s, a0 + a1 + a2, s2, a3, s3);
    RunThen(p, s, a0 + a1 + a2 + a3, s3, a4, s4);
    acts, t := a0 + a1 + a2 + a3 + a4, s4;
  }

  lemma {:induction false} KnockAtClosedGate(p: Job, s: State) returns (acts: seq<Action>, t: State)
    requires Inv(p, s) && s.h.pc.Ended? && s.reducer == NEW_RECEIVER
    ensures Run(p, s, acts, t) && OnlyMoved(s, t, Reducer) && t.reducer.pc.TurnedAway?
  {
    hide Connected, Counted, Handled;
    var m := Apply(p, s, Request(Reducer));
    t := Apply(p, m, Receive(Reducer));
    FirstThen(p, m, Receive(Reducer), [], t);
    FirstThen(p, s, Request(Reducer), [Receive(Reducer)] + [], t);
    acts := [Request(Reducer)] + ([Receive(Reducer)] + []);
  }
}
