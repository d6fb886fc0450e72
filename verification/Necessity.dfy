/** Exactly when the answer does not depend on the schedule. */
module Necessity {
  import opened Options
  import opened Files
  import opened Words
  import opened Decimal
  import opened Wire
  import opened Worker
  import opened Invariant
  import opened Answer
  import opened Handoff
  import opened Schedules
  import Lines

  // The same job with another slice, sent under the same name.
  function WithSlice(p: Job, name: Bytes, slice: Bytes): Job {
    p.(train := Transfer(Parse(Stream(TRAIN, name, slice)), TRAIN, p.trainFile, slice))
  }

  // The name is acceptable and leads to the file that the handler opens.
  predicate LeadsToTrainFile(p: Job, name: Bytes) {
    Acceptable(TRAIN, name, 0) && OutPath(TRAIN, BaseName(name)) == p.trainFile
  }

  lemma {:induction false} WithSliceIsReady(p: Job, name: Bytes, slice: Bytes)
    requires Ready(p) && LeadsToTrainFile(p, name) && |slice| < LIMIT
    ensures Ready(WithSlice(p, name, slice))
  {
    hide Parse, Stream, OutPath;
    assert Acceptable(TRAIN, name, |slice|);
    StreamIsRead(TRAIN, name, slice, []);
    assert Stream(TRAIN, name, slice) + [] == Stream(TRAIN, name, slice);
    assert slice + [] == slice;
  }

  // Whatever the slice, any two runs of the job that reply reply alike.
  ghost predicate AlwaysAgrees(p: Job, name: Bytes) {
    forall slice: Bytes, s, acts, t, s', acts', t' ::
      var q := WithSlice(p, name, slice);
      |slice| < LIMIT && Replies(q, s, acts, t) && Replies(q, s', acts', t') ==> t.m.reply == t'.m.reply
  }

  // A process at rest, ready for its next job.
  function Idle(p: Job): State {
    State(Memory(false, false, false, 0, 0, map[], p.prior, false, None),
          NEW_HANDLER, NEW_RECEIVER, NEW_RECEIVER, NEW_RECEIVER)
  }

  // A cut before the end of the slice must not change the answer, because both schedules
  // exist.
  lemma {:induction false} CutsAgree(p: Job, name: Bytes, a: Bytes, b: Bytes)
    requires Ready(p) && LeadsToTrainFile(p, name) && AlwaysAgrees(p, name)
    requires b != [] && |a| + |b| < LIMIT
    ensures ToInt(Value(p, a + b)) == Xor(ToInt(Value(p, a)), ToInt(Value(p, b)))
  {
    hide Ready, Inv, Run, Quiet, ToInt, Xor, LeadsToTrainFile;
    var q := WithSlice(p, name, a + b);
    WithSliceIsReady(p, name, a + b);
    var s := Idle(p);
    TwoParts(a, b);
    TwoParts([], a + b);
    var acts, t := InPieces(q, s, [a + b]);
    var acts', t' := InPieces(q, s, [a, b]);
    ReplyOf(q, s, acts, t);
    ReplyOf(q, s, acts', t');
    assert Ints(ProgramOf(q), [a + b]) == [ToInt(Value(p, a + b))];
    assert Ints(ProgramOf(q), [a, b]) == [ToInt(Value(p, a)), ToInt(Value(p, b))];
    assert t.m.reply == t'.m.reply;
    FoldOne(Value(p, a + b));
    FoldTwo(Value(p, a), Value(p, b));
    SameText(XorAll([ToInt(Value(p, a + b))]), XorAll([ToInt(Value(p, a)), ToInt(Value(p, b))]));
  }

  lemma {:induction false} ReplyOf(p: Job, s: State, acts: seq<Action>, t: State)
    requires Ready(p) && Begins(p, s) && Run(p, s, acts, t) && Quiet(t)
    ensures Replies(p, s, acts, t)
    ensures t.m.reply == Some(ToString(XorAll(Ints(ProgramOf(p), t.h.segments))))
  {
    hide Ready, Begins, Run, XorAll, ToString;
    Replied(p, s, acts, t);
    ReplyFoldsTheSlice(p, s, acts, t);
  }

  lemma {:induction false} FoldOne(v: int)
    ensures XorAll([ToInt(v)]) == ToInt(v) && InRange(ToInt(v), INT_BITS)
  {
    hide ToInt;
    XorAllSnoc([], ToInt(v));
    assert [] + [ToInt(v)] == [ToInt(v)];
    XorZero(ToInt(v));
    IntRange(v);
  }

  lemma {:induction false} FoldTwo(v: int, w: int)
    ensures XorAll([ToInt(v), ToInt(w)]) == Xor(ToInt(v), ToInt(w)) && InRange(Xor(ToInt(v), ToInt(w)), INT_BITS)
  {
    FoldOne(v);
    XorAllSnoc([ToInt(v)], ToInt(w));
    assert [ToInt(v)] + [ToInt(w)] == [ToInt(v), ToInt(w)];
    WrapXor(v, w, INT_BITS);
    IntRange(Xor(v, w));
  }

  lemma {:induction false} IntRange(v: int)
    ensures InRange(ToInt(v), INT_BITS)
  {
    var _ := WrapIsConversion(v, INT_BITS);
  }

  lemma {:induction false} SameText(v: int, w: int)
    requires InRange(v, INT_BITS) && InRange(w, INT_BITS) && ToString(v) == ToString(w)
    ensures v == w
  {
    ResultTransport(v);
    ResultTransport(w);
  }

  // The answer is independent of the schedule, for every slice, if and only if the
  // program distributes over every cut of its input.
  lemma {:induction false} AgreementExactly(p: Job, name: Bytes)
    requires Ready(p) && LeadsToTrainFile(p, name)
    ensures AlwaysAgrees(p, name) <==> Distributes(ProgramOf(p))
  {
    hide Ready, LeadsToTrainFile, Replies, ToInt, Value;
    if Distributes(ProgramOf(p)) {
      forall slice: Bytes, s, acts, t, s', acts', t' |
        var q := WithSlice(p, name, slice);
        |slice| < LIMIT && Replies(q, s, acts, t) && Replies(q, s', acts', t')
        ensures t.m.reply == t'.m.reply
      {
        var q := WithSlice(p, name, slice);
        WithSliceIsReady(p, name, slice);
        SameProgram(p, q);
        ScheduleIndependence(q, s, acts, t, s', acts', t');
      }
    }
    if AlwaysAgrees(p, name) {
      forall a: Bytes, b: Bytes | |a| + |b| < LIMIT
        ensures ToInt(Value(p, a + b)) == Xor(ToInt(Value(p, a)), ToInt(Value(p, b)))
      {
        if b != [] {
          CutsAgree(p, name, a, b);
        } else {
          EmptyAgrees(p, name);
          XorZero(ToInt(Value(p, a)));
          assert a + b == a;
        }
      }
    }
  }

  lemma {:induction false} SameProgram(p: Job, q: Job)
    requires q.prior == p.prior && q.code == p.code && q.run == p.run
    requires Distributes(ProgramOf(p))
    ensures Distributes(ProgramOf(q))
  {
    hide ToInt, Xor;
    forall a: Bytes, b: Bytes | |a| + |b| < LIMIT
      ensures ToInt(ProgramOf(q)(a + b)) == Xor(ToInt(ProgramOf(q)(a)), ToInt(ProgramOf(q)(b)))
    {
      assert ToInt(ProgramOf(p)(a + b)) == Xor(ToInt(ProgramOf(p)(a)), ToInt(ProgramOf(p)(b)));
    }
  }

  lemma {:induction false} EmptyAgrees(p: Job, name: Bytes)
    requires Ready(p) && LeadsToTrainFile(p, name) && AlwaysAgrees(p, name)
    ensures ToInt(Value(p, [])) == 0
  {
    hide Ready, LeadsToTrainFile, AlwaysAgrees, ToInt, Value;
    var one: Bytes := [0];
    CutsAgree(p, name, [], one);
    assert [] + one == one;
    var e, v := ToInt(Value(p, [])), ToInt(Value(p, one));
    XorAssoc(e, v, v);
    XorSelf(v);
    XorZero(e);
  }

  // Combining a value of each line by exclusive or is not such a program: a cut inside a
  // line makes two lines of it. Line-aligned chunks do not help against this, because
  // a worker cuts its chunk again wherever a receive happens to end.
  lemma {:induction false} LineByLineNeedNotDistribute()
    ensures !Distributes(s => Lines.PerLine(line => 1, s))
  {
    var f: Bytes -> int := s => Lines.PerLine(line => 1, s);
    var x: Bytes := [0];
    OneLine([0]);
    OneLine([0, 0]);
    assert x + x == [0, 0];
    assert f(x) == 1 && f(x + x) == 1;
    XorSelf(1);
    WrapInRange(1, INT_BITS);
    assert ToInt(f(x + x)) != Xor(ToInt(f(x)), ToInt(f(x)));
  }

  lemma {:induction false} OneLine(s: Bytes)
    requires s == [0] || s == [0, 0]
    ensures Lines.PerLine(line => 1, s) == 1
  {
    if |s| == 2 {
      assert s[1..] == [0];
    }
    assert Lines.LineEnd(s) == |s|;
    assert Lines.FirstLine(s) == s && Lines.OtherLines(s) == [];
    assert Lines.LinesOf(s) == [s] + Lines.LinesOf([]);
    XorAllSnoc([], 1);
    XorZero(1);
    assert [] + [1] == [1];
    assert seq(1, i requires 0 <= i < 1 => (line => 1)(Lines.LinesOf(s)[i])) == [1];
  }
}
