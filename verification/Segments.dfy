/** What the rounds of a job find: exactly which ways of consuming the slice there are. */
module Segments {
  import opened Files
  import opened Words
  import opened Decimal
  import opened Worker
  import opened Invariant
  import opened Answer
  import opened Handoff
  import opened Progress
  import opened Schedules
  import Necessity

  // A round is only begun while there is something left, so the round that reaches the end
  // of the slice consumes something.
  predicate LastIsNotEmpty(slice: Bytes, h: Handler) {
    && (h.pc.Measuring? || InRound(h) ==> h.offset != |slice|)
    && (Rank(h.pc) >= 6 && h.offset == |slice| && h.segments != [] ==> h.segments[|h.segments| - 1] != [])
  }

  lemma {:induction false} HandleKeepsLast(slice: Bytes, m: Memory, h: Handler, source: Bytes, temp: int)
    requires LastIsNotEmpty(slice, h) && HandlerEnabled(m, h) && UnderWay(slice, h, m.processed)
    requires Rank(h.pc) <= 5 ==> h.segments == []
    requires h.pc.Checking? ==> m.fileSize == |slice|
    ensures LastIsNotEmpty(slice, HandlerStep(source, temp, m, h).1)
  {
    hide ToString, Xor;
  }

  lemma {:induction false} StepKeepsLast(p: Job, s: State, a: Action)
    requires Ready(p) && Inv(p, s) && Enabled(p, s, a) && LastIsNotEmpty(p.train.contents, s.h)
    ensures LastIsNotEmpty(p.train.contents, Apply(p, s, a).h)
  {
    hide Ready, Inv, Temp, HandlerStep, UnderWay, Visible, HandlerEnabled, ConnectionStep, ConnectionEnabled;
    HandlerView(p, s);
    HandledUnderWay(p, s);
    if a.Handle? {
      if Rank(s.h.pc) <= 5 {
        NothingConsumed(p, s);
      } else {
        SizeIsKnown(p, s.m);
      }
      HandleKeepsLast(p.train.contents, s.m, s.h, FileAt(s.m.disk, p.codeFile), Temp(p, s.m, s.h));
    }
  }

  lemma {:induction false} LastAlways(p: Job, s: State, acts: seq<Action>, t: State)
    requires Ready(p) && Inv(p, s) && Run(p, s, acts, t) && LastIsNotEmpty(p.train.contents, s.h)
    ensures LastIsNotEmpty(p.train.contents, t.h)
    decreases |acts|
  {
    hide Ready, Inv, Apply, Enabled, LastIsNotEmpty;
    if acts != [] {
      StepKeepsLast(p, s, acts[0]);
      InvStep(p, s, acts[0]);
      LastAlways(p, Apply(p, s, acts[0]), acts[1..], t);
    }
  }

  ghost predicate CanConsume(p: Job, parts: seq<Bytes>) {
    exists s, acts, t :: Replies(p, s, acts, t) && t.h.segments == parts
  }

  // The inputs the program is run on before a job is answered can be any parts that make up
  // the slice, empty ones among them but for the last, and nothing else.
  lemma {:induction false} SegmentsExactly(p: Job, parts: seq<Bytes>)
    requires Ready(p)
    ensures CanConsume(p, parts) <==> Divides(parts, p.train.contents)
  {
    hide Ready, Inv, Replies, Divides;
    if Divides(parts, p.train.contents) {
      IdleRuns(p, parts);
    }
    forall s, acts, t | Replies(p, s, acts, t) && t.h.segments == parts
      ensures Divides(parts, p.train.contents)
    {
      SegmentsDivide(p, s, acts, t);
    }
  }

  lemma {:induction false} IdleRuns(p: Job, parts: seq<Bytes>)
    requires Ready(p) && Divides(parts, p.train.contents)
    ensures CanConsume(p, parts)
  {
    hide Ready, Inv, Quiet, Run, Divides, Replies;
    var s := Necessity.Idle(p);
    assert Begins(p, s);
    var acts, t := InPieces(p, s, parts);
    Necessity.ReplyOf(p, s, acts, t);
  }

  lemma {:induction false} SegmentsDivide(p: Job, s: State, acts: seq<Action>, t: State)
    requires Ready(p) && Replies(p, s, acts, t)
    ensures Divides(t.h.segments, p.train.contents)
  {
    hide Ready, Inv, Run;
    ReplyFoldsTheSlice(p, s, acts, t);
    InvBegins(p, s);
    LastAlways(p, s, acts, t);
    InvAlways(p, s, acts, t);
    RepliedAtEnd(p, t);
  }

  lemma {:induction false} RepliedAtEnd(p: Job, t: State)
    requires Inv(p, t) && t.m.reply.Some?
    ensures Rank(t.h.pc) >= 6 && t.h.offset == |p.train.contents|
  {
    hide Connected, Counted, Gate, Consumed;
  }
}
