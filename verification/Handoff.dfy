/** The order the signals and the gate impose, in every run of a job and over any number
    of jobs. */
module Handoff {
  import opened Options
  import opened Files
  import opened Words
  import opened Decimal
  import opened Worker
  import opened Invariant
  import opened Answer

  ghost predicate Reachable(p: Job, s: State, acts: seq<Action>, t: State) {
    Begins(p, s) && Run(p, s, acts, t)
  }

  lemma {:induction false} InvReached(p: Job, s: State, acts: seq<Action>, t: State)
    requires Ready(p) && Reachable(p, s, acts, t)
    ensures Inv(p, t)
  {
    hide Inv, Ready;
    InvBegins(p, s);
    InvAlways(p, s, acts, t);
  }

  // The consumer never runs ahead of what is published, the publication never ahead of
  // the disk, and the disk is always a prefix of the slice.
  lemma {:induction false} StreamingInvariant(p: Job, s: State, acts: seq<Action>, t: State)
    requires Ready(p) && Reachable(p, s, acts, t)
    requires Rank(t.h.pc) >= 6
    ensures var file := FileAt(t.m.disk, p.trainFile);
            && 0 <= t.h.offset <= t.m.processed <= |file| <= t.m.fileSize == |p.train.contents|
            && file <= p.train.contents
            && Concat(t.h.segments) == p.train.contents[..t.h.offset]
  {
    hide Ready, Inv, Outside;
    InvReached(p, s, acts, t);
    HandlerView(p, t);
  }

  // Past the first wait the code file is completely written. Past the second the train
  // file holds only this job's bytes, and the counters are this job's.
  lemma {:induction false} HandoffOrder(p: Job, s: State, acts: seq<Action>, t: State)
    requires Ready(p) && Reachable(p, s, acts, t)
    ensures Rank(t.h.pc) > 2 ==> FileAt(t.m.disk, p.codeFile) == p.code.contents
    ensures Rank(t.h.pc) > 4 ==>
      && FileAt(t.m.disk, p.trainFile) <= p.train.contents
      && t.m.fileSize == |p.train.contents|
      && 0 <= t.m.processed <= |FileAt(t.m.disk, p.trainFile)|
  {
    hide Ready, Inv, Handled;
    InvReached(p, s, acts, t);
    HandlerView(p, t);
  }

  // A resume before the wait is not lost: the handler can pass a wait exactly when the
  // matching resume has happened, whichever came first.
  lemma {:induction false} NoLostSignal(p: Job, s: State, acts: seq<Action>, t: State)
    requires Ready(p) && Reachable(p, s, acts, t)
    ensures t.h.pc.Waiting1? ==> (HandlerEnabled(t.m, t.h) <==> t.code.pc.Finished?)
    ensures t.h.pc.Waiting2? ==> (HandlerEnabled(t.m, t.h) <==> IsOpen(t.train.pc))
  {
    hide Handled, Holds, Counted;
    InvReached(p, s, acts, t);
    assert Connected(TransferOf(p, Code), t.m, ReceiverOf(t, Code), Rank(t.h.pc));
    assert Connected(TransferOf(p, Train), t.m, ReceiverOf(t, Train), Rank(t.h.pc));
  }

  // Code and train always find the gate open. The reducer is turned away exactly when it
  // knocks after the handler has closed the gate.
  lemma {:induction false} GateSafety(p: Job, s: State, acts: seq<Action>, t: State)
    requires Ready(p) && Reachable(p, s, acts, t)
    ensures !t.code.pc.TurnedAway? && !t.train.pc.TurnedAway?
    ensures t.reducer.pc.Knocking? ==>
              (Apply(p, t, Receive(Reducer)).reducer.pc.TurnedAway? <==> t.h.pc.Ended?)
  {
    hide Handled, Holds, Counted;
    InvReached(p, s, acts, t);
    assert Connected(TransferOf(p, Code), t.m, ReceiverOf(t, Code), Rank(t.h.pc));
    assert Connected(TransferOf(p, Train), t.m, ReceiverOf(t, Train), Rank(t.h.pc));
    assert Connected(TransferOf(p, Reducer), t.m, ReceiverOf(t, Reducer), Rank(t.h.pc));
  }

  // ------------------------------------------------------------ jobs one after another

  predicate AtRest(pc: ReceiverPc) {
    pc.Finished? || pc.TurnedAway?
  }

  // The job is over on the worker, the gate write included.
  predicate Quiet(s: State) {
    s.h.pc.Ended? && AtRest(s.code.pc) && AtRest(s.reducer.pc) && AtRest(s.train.pc)
  }

  // The next job on the same process: new threads and a new connection to the client,
  // the same memory and disk.
  function NextJob(s: State): State {
    State(s.m.(invited := false, reply := None), NEW_HANDLER, NEW_RECEIVER, NEW_RECEIVER, NEW_RECEIVER)
  }

  // After a job both flags are down and the gate is closed, so that the next may begin.
  lemma {:induction false} FlagsAreClear(p: Job, s: State, acts: seq<Action>, t: State, next: Job)
    requires Ready(p) && Reachable(p, s, acts, t) && Quiet(t)
    requires next.prior == t.m.binary
    ensures !t.m.flag1 && !t.m.flag2 && !t.m.gate
    ensures Begins(next, NextJob(t))
    ensures t.m.binary == Some(Program(p))
  {
    hide Holds, Counted, Consumed, UnderWay;
    InvReached(p, s, acts, t);
    assert Connected(TransferOf(p, Code), t.m, ReceiverOf(t, Code), Rank(t.h.pc));
    assert Connected(TransferOf(p, Train), t.m, ReceiverOf(t, Train), Rank(t.h.pc));
  }

  // A sequence of jobs on a fresh process, each begun when the one before is over.
  ghost predicate Series(ps: seq<Job>, starts: seq<State>, schedules: seq<seq<Action>>, ends: seq<State>) {
    && |starts| == |schedules| == |ends| == |ps|
    && (forall k :: 0 <= k < |ps| ==> Ready(ps[k]) && Run(ps[k], starts[k], schedules[k], ends[k]) && Quiet(ends[k]))
    && (ps != [] ==> ps[0].prior == None && Begins(ps[0], starts[0]))
    && (forall k :: 0 < k < |ps| ==> starts[k] == NextJob(ends[k - 1]) && ps[k].prior == ends[k - 1].m.binary)
  }

  // Every job of a series begins properly, and every one of them runs the program of the
  // first: compileCode does its work only once per process.
  lemma {:induction false} SeriesRunsFirstProgram(
    ps: seq<Job>, starts: seq<State>, schedules: seq<seq<Action>>, ends: seq<State>, k: nat)
    requires Series(ps, starts, schedules, ends) && k < |ps|
    ensures Begins(ps[k], starts[k])
    ensures Program(ps[k]) == ps[0].code.contents
    ensures ends[k].m.binary == Some(ps[0].code.contents)
    ensures !ends[k].m.flag1 && !ends[k].m.flag2 && !ends[k].m.gate
  {
    hide Ready, Begins, Run, Quiet, NextJob;
    if k > 0 {
      SeriesRunsFirstProgram(ps, starts, schedules, ends, k - 1);
      FlagsAreClear(ps[k - 1], starts[k - 1], schedules[k - 1], ends[k - 1], ps[k]);
    }
    FlagsAreClear(ps[k], starts[k], schedules[k], ends[k], ps[k].(prior := ends[k].m.binary));
  }

  // So the answer of a later job is that of the first job's code on the later slice,
  // whatever code the later job sent.
  lemma {:induction false} SeriesAnswers(
    ps: seq<Job>, starts: seq<State>, schedules: seq<seq<Action>>, ends: seq<State>, k: nat)
    requires Series(ps, starts, schedules, ends) && k < |ps|
    requires Distributes(ProgramOf(ps[k]))
    ensures ends[k].m.reply == Some(ToString(ToInt(Value(ps[k], ps[k].train.contents))))
    ensures Program(ps[k]) == ps[0].code.contents
  {
    hide Ready, Run, Begins, Value, ToInt, ToString;
    SeriesRunsFirstProgram(ps, starts, schedules, ends, k);
    Replied(ps[k], starts[k], schedules[k], ends[k]);
    ReplyIsTheAnswer(ps[k], starts[k], schedules[k], ends[k]);
  }

  lemma {:induction false} Replied(p: Job, s: State, acts: seq<Action>, t: State)
    requires Ready(p) && Reachable(p, s, acts, t) && Rank(t.h.pc) > 7
    ensures t.m.reply.Some?
  {
    hide Connected, Counted, Consumed, UnderWay, ToString;
    InvReached(p, s, acts, t);
  }
}
