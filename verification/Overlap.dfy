/** What happens to a job that begins before the previous handler has closed the gate.

    The handler replies first and writes the gate afterwards. A client that starts its
    next job on the reply can have that write fall anywhere in the next job, and
    connections of the first job may still be at work: its reducer at anything, its train
    at its last steps. */
module Overlap {
  import opened Options
  import opened Files
  import opened Words
  import opened Decimal
  import opened Wire
  import opened Feed
  import opened Worker
  import opened Invariant
  import opened Answer
  import opened Progress
  import opened Handoff
  import opened Completion
  import opened Schedules
  import Necessity

  // ------------------------------------------------------------ two jobs on one process

  // The threads of both jobs. The memory they share is that of `late`.
  datatype Joint = Joint(early: State, late: State)

  datatype Move = Earlier(a: Action) | Later(a: Action)

  // Shared memory as a job sees it: the connection to its client is its own.
  function Seen(m: Memory, own: Memory): Memory {
    m.(invited := own.invited, reply := own.reply)
  }

  function OldView(j: Joint): State {
    j.early.(m := Seen(j.late.m, j.early.m))
  }

  predicate CanMove(first: Job, next: Job, j: Joint, move: Move) {
    match move
    case Earlier(a) => Enabled(first, OldView(j), a)
    case Later(a) => Enabled(next, j.late, a)
  }

  function Moved(first: Job, next: Job, j: Joint, move: Move): Joint
    requires CanMove(first, next, j, move)
  {
    match move
    case Earlier(a) =>
      var s := Apply(first, OldView(j), a);
      Joint(s, j.late.(m := Seen(s.m, j.late.m)))
    case Later(a) => Joint(j.early, Apply(next, j.late, a))
  }

  ghost predicate JointRun(first: Job, next: Job, j: Joint, moves: seq<Move>, j': Joint)
    decreases |moves|
  {
    if moves == [] then j == j'
    else
      && CanMove(first, next, j, moves[0])
      && JointRun(first, next, Moved(first, next, j, moves[0]), moves[1..], j')
  }

  // A run of the first job to where its handler has replied and only the gate is left to
  // write, and a run of both from the next job's start to `now`, that write still to come.
  datatype Meeting = Meeting(
    first: Job, start: State, schedule: seq<Action>, replied: State,
    next: Job, moves: seq<Move>, now: Joint)

  ghost predicate Meets(o: Meeting) {
    && Ready(o.first) && Reachable(o.first, o.start, o.schedule, o.replied) && o.replied.h.pc.Closing?
    && Ready(o.next) && o.next.prior == o.replied.m.binary
    && JointRun(o.first, o.next, Joint(o.replied, NextJob(o.replied)), o.moves, o.now)
    && o.now.early.h.pc.Closing?
  }

  // Both jobs when the late write has happened.
  function After(o: Meeting): Joint
    requires o.now.early.h.pc.Closing?
  {
    Moved(o.first, o.next, o.now, Earlier(Handle))
  }

  predicate Unread(pc: ReceiverPc) {
    pc.Unsent? || pc.Knocking?
  }

  // The next handler has opened the gate, and code or train has still to read it.
  predicate Exposed(s: State) {
    Rank(s.h.pc) >= 1 && (Unread(s.code.pc) || Unread(s.train.pc))
  }

  // Code or train was turned away.
  predicate IsTurnedAway(s: State) {
    s.code.pc.TurnedAway? || s.train.pc.TurnedAway?
  }

  // ------------------------------------------------------------ what is left of the first job

  // The train connection has nothing to do any more that another job could notice.
  predicate Drained(r: Receiver) {
    r.header.folder == TRAIN && r.received >= r.header.size && (r.pc.Receiving? || IsComplete(r.pc))
  }

  ghost predicate Trail(p: Job, early: State) {
    && (early.h.pc.Closing? || early.h.pc.Ended?)
    && early.code.pc.Finished? && Drained(early.train) && Headed(p.reducer, early.reducer)
  }

  lemma {:induction false} TrailBegins(p: Job, s: State, acts: seq<Action>, t: State)
    requires Ready(p) && Reachable(p, s, acts, t) && t.h.pc.Closing?
    ensures Trail(p, t)
  {
    hide Run, Begins, Consumed, Outside;
    InvReached(p, s, acts, t);
    HoldsFor(p, t, Code);
    HoldsFor(p, t, Reducer);
    HoldsFor(p, t, Train);
  }

  // It touches nothing but its reducer file, and once the gate.
  ghost predicate Trace(p: Job, m: Memory, m': Memory) {
    && m' == m.(gate := m'.gate, disk := m'.disk)
    && forall path :: path != p.reducer.path ==> FileAt(m'.disk, path) == FileAt(m.disk, path)
  }

  lemma {:induction false} TrailOfReducer(p: Job, m: Memory, r: Receiver, a: Action)
    requires Ready(p) && Headed(p.reducer, r) && ConnectionEnabled(r, a)
    ensures var (m', r') := ConnectionStep(p.reducer.parsed, m, r, a);
            Trace(p, m, m') && m'.gate == m.gate && Headed(p.reducer, r')
  {
    hide ConnectionStep;
    ReadyMeans(p, Reducer);
    HeadedIsConfined(p.reducer, m, r, a);
    assert p.reducer.folder == REDUCER;
  }

  lemma {:induction false} TrailOfTrain(parsed: Parsed, m: Memory, r: Receiver, a: Action)
    requires Drained(r) && ConnectionEnabled(r, a) && TRAIN != CODE
    ensures var (m', r') := ConnectionStep(parsed, m, r, a);
            m' == m && Drained(r')
  {
  }

  lemma {:induction false} TrailStep(first: Job, next: Job, j: Joint, a: Action)
    requires Ready(first) && Trail(first, j.early) && CanMove(first, next, j, Earlier(a))
    ensures var j' := Moved(first, next, j, Earlier(a));
            && Trail(first, j'.early) && Trace(first, j.late.m, j'.late.m)
            && j'.late == j.late.(m := j'.late.m)
            && (a != Handle ==> j'.late.m.gate == j.late.m.gate && j'.early.h == j.early.h)
            && (a == Handle ==> j.early.h.pc.Closing? && j'.early.h.pc.Ended?
                                && j'.late.m == j.late.m.(gate := false))
  {
    hide Ready, ConnectionStep, ConnectionEnabled, ApplyHandle, Trace, Headed, Drained, PreadEnabled, PipeEnabled;
    TrailEnabled(first, j, a);
    var s := OldView(j);
    if a.Handle? {
      TrailOfHandler(first, s);
      TraceOfGate(first, j.late.m);
    } else if a.role.Reducer? {
      TrailOfReducer(first, s.m, s.reducer, a);
      TraceSeen(first, s.m, ConnectionStep(first.reducer.parsed, s.m, s.reducer, a).0, j.late.m);
    } else {
      FoldersDiffer();
      TrailOfTrain(first.train.parsed, s.m, s.train, a);
      TraceOfNothing(first, j.late.m);
    }
  }

  lemma TrailEnabled(first: Job, j: Joint, a: Action)
    requires Trail(first, j.early) && Enabled(first, OldView(j), a)
    ensures IsHandlers(a) ==> a == Handle && j.early.h.pc.Closing?
    ensures !IsHandlers(a) ==> a.role != Code
  {
  }

  lemma TrailOfHandler(p: Job, s: State)
    requires s.h.pc.Closing?
    ensures ApplyHandle(p, s) == s.(m := s.m.(gate := false), h := s.h.(pc := Ended))
  {
  }

  lemma TraceOfGate(p: Job, m: Memory)
    ensures Trace(p, m, m.(gate := false))
  {
  }

  lemma TraceOfNothing(p: Job, m: Memory)
    ensures Trace(p, m, m)
  {
  }

  lemma TraceSeen(p: Job, m: Memory, m': Memory, own: Memory)
    requires Trace(p, m, m')
    ensures Trace(p, Seen(m, own), Seen(m', own))
  {
  }

  // ------------------------------------------------------------ the next job and a proper one

  // Code and train have both read the gate, and found it open.
  predicate Settled(s: State) {
    && Rank(s.h.pc) >= 1
    && !Unread(s.code.pc) && !s.code.pc.TurnedAway?
    && !Unread(s.train.pc) && !s.train.pc.TurnedAway?
  }

  // The two memories differ at most in the gate and the disk.
  predicate Alike(m: Memory, m': Memory) {
    m == m'.(gate := m.gate, disk := m.disk)
  }

  // The job `u`, on the process it shares with the first job, goes like the job `v` on a
  // process at rest: only the reducer, and files other than code and train, may be different;
  // and the gate, if nobody who matters looks at it any more, or not before it is opened.
  ghost predicate Like(p: Job, u: State, v: State) {
    && u.h == v.h && u.code == v.code && u.train == v.train
    && Alike(u.m, v.m)
    && FileAt(u.m.disk, p.code.path) == FileAt(v.m.disk, p.code.path)
    && FileAt(u.m.disk, p.train.path) == FileAt(v.m.disk, p.train.path)
    && (u.m.gate == v.m.gate || Rank(u.h.pc) == 0 || Settled(u))
    && Headed(p.reducer, u.reducer)
  }

  // What the first job still does is not noticed, its late write excepted.
  lemma {:induction false} TrailIsLike(first: Job, next: Job, j: Joint, a: Action, v: State)
    requires Ready(first) && Ready(next) && Trail(first, j.early) && Inv(next, v)
    requires Like(next, j.late, v) && CanMove(first, next, j, Earlier(a))
    requires a == Handle ==> !Exposed(j.late)
    ensures Like(next, Moved(first, next, j, Earlier(a)).late, v)
  {
    TrailStep(first, next, j, a);
    OtherFiles(first, next);
    NotTurnedAway(next, v, Code);
    NotTurnedAway(next, v, Train);
    hide Ready, Inv, Trail, Moved, CanMove;
  }

  lemma {:induction false} OtherFiles(first: Job, next: Job)
    requires Ready(first) && Ready(next)
    ensures first.reducer.path != next.code.path && first.reducer.path != next.train.path
  {
    hide LiesIn, Readable;
    FoldersDiffer();
    FilesDiffer(first.reducer.path, REDUCER, next.code.path, CODE);
    FilesDiffer(first.reducer.path, REDUCER, next.train.path, TRAIN);
  }

  // A connection that does not knock neither looks at the gate nor at other files.
  ghost predicate BlindStep(m: Memory, m': Memory, path: Option<Bytes>, after: (Memory, Receiver), after': (Memory, Receiver)) {
    && after.1 == after'.1 && Alike(after.0, after'.0)
    && after.0.gate == m.gate && after'.0.gate == m'.gate
    && (path == None ==> after.0.disk == m.disk && after'.0.disk == m'.disk)
    && (path.Some? ==> after.0.disk == m.disk[path.value := []] && after'.0.disk == m'.disk[path.value := []])
  }

  lemma {:induction false} ReceiverIsBlindEarly(parsed: Parsed, m: Memory, m': Memory, r: Receiver)
    requires Alike(m, m') && (r.pc.Reading? || r.pc.Counting? || r.pc.Creating?)
    ensures BlindStep(m, m', if r.pc.Creating? then Some(r.header.path) else None,
                      ReceiverStep(parsed, m, r), ReceiverStep(parsed, m', r))
  {
    hide Signed64;
  }

  lemma {:induction false} ReceiverIsBlindLate(parsed: Parsed, m: Memory, m': Memory, r: Receiver)
    requires Alike(m, m') && ReceiverEnabled(r)
    requires r.pc.Signalling? || r.pc.Receiving? || r.pc.Publishing? || r.pc.Finishing?
    ensures BlindStep(m, m', None, ReceiverStep(parsed, m, r), ReceiverStep(parsed, m', r))
  {
  }

  ghost predicate SameElsewhere(m: Memory, m': Memory, path: Bytes) {
    forall other :: other != path ==> FileAt(m'.disk, other) == FileAt(m.disk, other)
  }

  lemma {:induction false} ConnectionIsBlind(parsed: Parsed, m: Memory, m': Memory, r: Receiver, a: Action)
    requires Alike(m, m') && ConnectionEnabled(r, a) && !(a.Receive? && r.pc.Knocking?)
    requires HasHeader(r.pc) ==> FileAt(m.disk, r.header.path) == FileAt(m'.disk, r.header.path)
    ensures var ((n, s), (n', s')) := (ConnectionStep(parsed, m, r, a), ConnectionStep(parsed, m', r, a));
            && s == s' && Alike(n, n') && n.gate == m.gate && n'.gate == m'.gate
            && (HasHeader(r.pc) ==> FileAt(n.disk, r.header.path) == FileAt(n'.disk, r.header.path))
            && SameElsewhere(m, n, r.header.path) && SameElsewhere(m', n', r.header.path)
            && (!HasHeader(r.pc) ==> n.disk == m.disk && n'.disk == m'.disk)
  {
    hide ReceiverStep;
    if a.Receive? {
      if r.pc.Reading? || r.pc.Counting? || r.pc.Creating? {
        ReceiverIsBlindEarly(parsed, m, m', r);
      } else {
        ReceiverIsBlindLate(parsed, m, m', r);
      }
    }
  }

  ghost predicate BlindHandler(
    m: Memory, m': Memory, opening: bool, after: (Memory, Handler), after': (Memory, Handler)) {
    && after.1 == after'.1 && Alike(after.0, after'.0) && !after.1.pc.Opening?
    && after.0.disk == m.disk && after'.0.disk == m'.disk
    && (m.gate == m'.gate || opening ==> after.0.gate == after'.0.gate)
  }

  lemma {:induction false} HandlerIsBlindBefore(source: Bytes, temp: int, m: Memory, m': Memory, h: Handler)
    requires Alike(m, m') && HandlerEnabled(m, h)
    requires h.pc.Opening? || h.pc.Inviting? || h.pc.Waiting1? || h.pc.Compiling? || h.pc.Waiting2?
    ensures BlindHandler(m, m', h.pc.Opening?, HandlerStep(source, temp, m, h), HandlerStep(source, temp, m', h))
  {
  }

  lemma {:induction false} HandlerIsBlindWithin(source: Bytes, temp: int, m: Memory, m': Memory, h: Handler)
    requires Alike(m, m') && HandlerEnabled(m, h)
    requires h.pc.Starting? || h.pc.Checking? || h.pc.Measuring? || h.pc.Feeding? || h.pc.Folding?
    ensures BlindHandler(m, m', false, HandlerStep(source, temp, m, h), HandlerStep(source, temp, m', h))
  {
    hide Xor;
  }

  lemma {:induction false} HandlerIsBlindAfter(source: Bytes, temp: int, m: Memory, m': Memory, h: Handler)
    requires Alike(m, m') && (h.pc.Replying? || h.pc.Closing?)
    ensures BlindHandler(m, m', false, HandlerStep(source, temp, m, h), HandlerStep(source, temp, m', h))
  {
    hide ToString;
  }

  lemma {:induction false} HandlerIsBlind(source: Bytes, temp: int, m: Memory, m': Memory, h: Handler)
    requires Alike(m, m') && HandlerEnabled(m, h)
    ensures HandlerEnabled(m', h)
    ensures BlindHandler(m, m', h.pc.Opening?, HandlerStep(source, temp, m, h), HandlerStep(source, temp, m', h))
  {
    hide HandlerStep, BlindHandler;
    if h.pc.Opening? || h.pc.Inviting? || h.pc.Waiting1? || h.pc.Compiling? || h.pc.Waiting2? {
      HandlerIsBlindBefore(source, temp, m, m', h);
    } else if h.pc.Replying? || h.pc.Closing? {
      HandlerIsBlindAfter(source, temp, m, m', h);
    } else {
      HandlerIsBlindWithin(source, temp, m, m', h);
    }
  }

  // A connection leaves the gate alone, and reads it at most once.
  lemma {:induction false} GateIsRead(parsed: Parsed, m: Memory, r: Receiver, a: Action)
    requires ConnectionEnabled(r, a) && !Unread(r.pc) && !r.pc.TurnedAway?
    ensures var r' := ConnectionStep(parsed, m, r, a).1;
            !Unread(r'.pc) && !r'.pc.TurnedAway?
  {
    hide AppendStep;
    if a.Append? {
      AppendGoesOn(m, r, a.n);
    }
  }

  lemma AppendGoesOn(m: Memory, r: Receiver, n: nat)
    requires AppendEnabled(r, n)
    ensures AppendStep(m, r, n).1.pc == (if n == |r.buffer| then Publishing else Appending)
  {
  }

  // The steps of the next job itself.
  lemma {:induction false} HandlerIsLike(p: Job, u: State, v: State, a: Action)
    requires Ready(p) && Like(p, u, v) && IsHandlers(a)
    ensures Enabled(p, u, a) <==> Enabled(p, v, a)
    ensures Enabled(p, u, a) ==> Like(p, Apply(p, u, a), Apply(p, v, a))
  {
    hide ToInt, NodeResult, HandlerStep, PreadEnabled, PreadStep, PipeEnabled, PipeStep, Readable, LiesIn;
    if a.Handle? && HandlerEnabled(v.m, v.h) {
      HandlerIsBlind(FileAt(v.m.disk, p.codeFile), Temp(p, v.m, v.h), u.m, v.m, v.h);
    } else if a.Pread? && PreadEnabled(v.h, FileAt(v.m.disk, p.trainFile), a.n) {
      FeedKeepsRank(v.h, FileAt(v.m.disk, p.trainFile), a.n);
    } else if a.Pipe? {
      FeedKeepsRank(v.h, [], a.n);
    }
  }

  lemma FeedKeepsRank(h: Handler, file: Bytes, n: nat)
    ensures PreadEnabled(h, file, n) ==> Rank(PreadStep(h, file, n).pc) == Rank(h.pc) == 6
    ensures PipeEnabled(h, n) ==> Rank(PipeStep(h, n).pc) == Rank(h.pc) == 6
  {
  }

  lemma {:induction false} KnockIsLike(p: Job, u: State, v: State, a: Action)
    requires Like(p, u, v) && Inv(p, v)
    requires a.Receive? && a.role != Reducer && ReceiverOf(v, a.role).pc.Knocking?
    ensures Enabled(p, u, a) && Enabled(p, v, a) && Like(p, Apply(p, u, a), Apply(p, v, a))
  {
    hide Holds, Counted, Handled;
    HoldsFor(p, v, a.role);
    assert Rank(v.h.pc) >= 2;
    assert u.m.gate == v.m.gate;
  }

  lemma {:induction false} ConnectionIsLike(p: Job, u: State, v: State, a: Action)
    requires Ready(p) && Like(p, u, v) && Inv(p, v) && !IsHandlers(a) && a.role != Reducer
    requires !(a.Receive? && ReceiverOf(v, a.role).pc.Knocking?)
    ensures Enabled(p, u, a) <==> Enabled(p, v, a)
    ensures Enabled(p, u, a) ==> Like(p, Apply(p, u, a), Apply(p, v, a))
  {
    hide Ready, Inv, ConnectionStep, ConnectionEnabled, Holds, Signalled;
    var t, r := TransferOf(p, a.role), ReceiverOf(v, a.role);
    HoldsFor(p, v, a.role);
    HoldsIsHeaded(t, v.m, r);
    if Enabled(p, v, a) {
      ConnectionIsBlind(t.parsed, u.m, v.m, r, a);
      if Settled(u) {
        GateIsRead(t.parsed, u.m, r, a);
      }
    }
  }

  lemma HoldsIsHeaded(t: Transfer, m: Memory, r: Receiver)
    requires Holds(t, (m, r))
    ensures Headed(t, r)
  {
  }

  lemma {:induction false} OwnIsLike(p: Job, u: State, v: State, a: Action)
    requires Ready(p) && Like(p, u, v) && Inv(p, v) && (IsHandlers(a) || a.role != Reducer)
    ensures Enabled(p, u, a) <==> Enabled(p, v, a)
    ensures Enabled(p, u, a) ==> Like(p, Apply(p, u, a), Apply(p, v, a))
  {
    hide Ready, Like, Inv, Enabled, Apply;
    if IsHandlers(a) {
      HandlerIsLike(p, u, v, a);
    } else if a.Receive? && ReceiverOf(v, a.role).pc.Knocking? {
      KnockIsLike(p, u, v, a);
    } else {
      ConnectionIsLike(p, u, v, a);
    }
  }

  // What the reducer of the next job does need not be matched.
  lemma {:induction false} ReducerIsLike(p: Job, u: State, v: State, a: Action)
    requires Ready(p) && Like(p, u, v) && !IsHandlers(a) && a.role == Reducer && Enabled(p, u, a)
    ensures Like(p, Apply(p, u, a), v)
  {
    hide Ready, ConnectionStep;
    TrailOfReducer(p, u.m, u.reducer, a);
  }

  // Every run after the first job's reply is matched by a run of the next job alone, if
  // the late write does not happen in it or does not expose it.
  lemma {:induction false} Matched(first: Job, next: Job, j: Joint, moves: seq<Move>, j': Joint, v: State)
    returns (acts: seq<Action>, v': State)
    requires Ready(first) && Ready(next) && Trail(first, j.early)
    requires Like(next, j.late, v) && Inv(next, v)
    requires JointRun(first, next, j, moves, j') && j'.early.h.pc == j.early.h.pc
    ensures Run(next, v, acts, v') && Inv(next, v') && Like(next, j'.late, v') && Trail(first, j'.early)
    decreases |moves|
  {
    hide Ready, Like, Inv, Trail, CanMove, Moved, Trace;
    if moves == [] {
      acts, v' := [], v;
    } else {
      var j1 := Moved(first, next, j, moves[0]);
      match moves[0]
      case Earlier(a) =>
        TrailStep(first, next, j, a);
        if a == Handle {
          EndedStays(first, next, j1, moves[1..], j');
        }
        TrailIsLike(first, next, j, a, v);
        acts, v' := Matched(first, next, j1, moves[1..], j', v);
      case Later(a) =>
        LaterMove(first, next, j, a);
        if !IsHandlers(a) && a.role == Reducer {
          ReducerIsLike(next, j.late, v, a);
          acts, v' := Matched(first, next, j1, moves[1..], j', v);
        } else {
          OwnIsLike(next, j.late, v, a);
          InvStep(next, v, a);
          acts, v' := Matched(first, next, j1, moves[1..], j', Apply(next, v, a));
          FirstThen(next, v, a, acts, v');
          acts := [a] + acts;
        }
    }
  }

  lemma LaterMove(first: Job, next: Job, j: Joint, a: Action)
    ensures CanMove(first, next, j, Later(a)) <==> Enabled(next, j.late, a)
    ensures CanMove(first, next, j, Later(a)) ==>
              Moved(first, next, j, Later(a)) == Joint(j.early, Apply(next, j.late, a))
  {
  }

  lemma {:induction false} EndedStays(first: Job, next: Job, j: Joint, moves: seq<Move>, j': Joint)
    requires Ready(first) && Trail(first, j.early) && j.early.h.pc.Ended?
    requires JointRun(first, next, j, moves, j')
    ensures j'.early.h.pc.Ended?
    decreases |moves|
  {
    hide Ready, Trail, CanMove, Moved, Trace;
    if moves != [] {
      if moves[0].Earlier? {
        TrailStep(first, next, j, moves[0].a);
      } else {
        LaterMove(first, next, j, moves[0].a);
      }
      EndedStays(first, next, Moved(first, next, j, moves[0]), moves[1..], j');
    }
  }

  // And the other way for runs in which the reducer takes no part.
  lemma {:induction false} Replayed(first: Job, next: Job, j: Joint, v: State, acts: seq<Action>, v': State)
    returns (j': Joint)
    requires Ready(next) && Like(next, j.late, v) && Inv(next, v)
    requires Run(next, v, acts, v') && Spares(acts)
    ensures JointRun(first, next, j, LaterAll(acts), j') && Like(next, j'.late, v')
    decreases |acts|
  {
    hide Ready, Like, Inv, Apply, Enabled, CanMove, Moved;
    if acts == [] {
      j' := j;
    } else {
      var a := acts[0];
      OwnIsLike(next, j.late, v, a);
      InvStep(next, v, a);
      LaterMove(first, next, j, a);
      j' := Replayed(first, next, Moved(first, next, j, Later(a)), Apply(next, v, a), acts[1..], v');
      assert LaterAll(acts)[1..] == LaterAll(acts[1..]);
    }
  }

  function LaterAll(acts: seq<Action>): (moves: seq<Move>)
    ensures |moves| == |acts|
  {
    seq(|acts|, i requires 0 <= i < |acts| => Later(acts[i]))
  }

  // The next job alone is a part of the two.
  lemma {:induction false} LaterRun(first: Job, next: Job, early: State, s: State, acts: seq<Action>, t: State)
    requires Run(next, s, acts, t)
    ensures JointRun(first, next, Joint(early, s), LaterAll(acts), Joint(early, t))
    decreases |acts|
  {
    hide Apply, Enabled, CanMove, Moved;
    if acts != [] {
      LaterMove(first, next, Joint(early, s), acts[0]);
      LaterRun(first, next, early, Apply(next, s, acts[0]), acts[1..], t);
      assert LaterAll(acts)[1..] == LaterAll(acts[1..]);
    }
  }

  // ------------------------------------------------------------ before the late write

  // The state a job properly begins in.
  function Rested(o: Meeting): State {
    var s := NextJob(o.replied);
    s.(m := s.m.(gate := false))
  }

  lemma {:induction false} RestedBegins(o: Meeting)
    requires Meets(o)
    ensures Begins(o.next, Rested(o)) && Like(o.next, NextJob(o.replied), Rested(o))
  {
    hide Run, JointRun, Holds, Counted, Handled;
    InvReached(o.first, o.start, o.schedule, o.replied);
    HoldsFor(o.first, o.replied, Code);
    HoldsFor(o.first, o.replied, Train);
  }

  // Up to the late write the next job is like one from a proper beginning: its handler's
  // first step opens the gate, so it makes no difference that it was open already.
  lemma {:induction false} ProperSoFar(o: Meeting) returns (acts: seq<Action>, v: State)
    requires Meets(o)
    ensures Reachable(o.next, Rested(o), acts, v) && Inv(o.next, v)
    ensures Like(o.next, o.now.late, v) && Trail(o.first, o.now.early)
  {
    hide Ready, Inv, Begins, Run, Like, Trail;
    RestedBegins(o);
    InvBegins(o.next, Rested(o));
    TrailBegins(o.first, o.start, o.schedule, o.replied);
    acts, v := Matched(o.first, o.next, Joint(o.replied, NextJob(o.replied)), o.moves, o.now, Rested(o));
  }

  // ------------------------------------------------------------ the job that is lost

  predicate Barred(pc: ReceiverPc) {
    Unread(pc) || pc.TurnedAway?
  }

  // The handler has yet to pass a signal that can no longer come: the connection that would
  // give it has not read the gate, which is closed for good, or was turned away.
  ghost predicate Stranded(p: Job, s: State) {
    && !s.m.gate && Rank(s.h.pc) >= 1 && s.m.reply == None
    && (|| (Barred(s.code.pc) && !s.m.flag1 && Rank(s.h.pc) <= 2)
        || (Barred(s.train.pc) && !s.m.flag2 && Rank(s.h.pc) <= 4))
    && forall role :: Headed(TransferOf(p, role), ReceiverOf(s, role))
  }

  lemma {:induction false} StrandedHandler(p: Job, s: State, a: Action)
    requires Stranded(p, s) && Enabled(p, s, a) && IsHandlers(a)
    ensures Stranded(p, Apply(p, s, a))
  {
    hide Headed, Temp, ConnectionStep;
    assert forall role :: ReceiverOf(Apply(p, s, a), role) == ReceiverOf(s, role);
  }

  lemma {:induction false} BarredStays(parsed: Parsed, m: Memory, r: Receiver, a: Action)
    requires ConnectionEnabled(r, a) && Barred(r.pc) && !m.gate
    ensures var (m', r') := ConnectionStep(parsed, m, r, a);
            m' == m && Barred(r'.pc)
  {
  }

  lemma {:induction false} StrandedConnection(p: Job, s: State, a: Action)
    requires Ready(p) && Stranded(p, s) && Enabled(p, s, a) && !IsHandlers(a)
    ensures Stranded(p, Apply(p, s, a))
  {
    hide Headed, ConnectionStep, ConnectionEnabled, Readable, LiesIn;
    var t, r := TransferOf(p, a.role), ReceiverOf(s, a.role);
    assert Headed(t, r);
    ReadyMeans(p, a.role);
    HeadedIsConfined(t, s.m, r, a);
    if Barred(r.pc) {
      BarredStays(t.parsed, s.m, r, a);
    }
    assert forall role :: role != a.role ==> ReceiverOf(Apply(p, s, a), role) == ReceiverOf(s, role);
  }

  lemma {:induction false} StrandedStep(first: Job, next: Job, j: Joint, move: Move)
    requires Ready(first) && Ready(next) && Trail(first, j.early) && j.early.h.pc.Ended?
    requires Stranded(next, j.late) && CanMove(first, next, j, move)
    ensures var j' := Moved(first, next, j, move);
            Stranded(next, j'.late) && Trail(first, j'.early) && j'.early.h.pc.Ended?
  {
    hide Ready, Trail, Moved, CanMove, Headed;
    match move
    case Earlier(a) =>
      TrailStep(first, next, j, a);
      var j' := Moved(first, next, j, move);
      assert forall role :: ReceiverOf(j'.late, role) == ReceiverOf(j.late, role);
    case Later(a) =>
      hide Stranded;
      LaterMove(first, next, j, a);
      if IsHandlers(a) {
        StrandedHandler(next, j.late, a);
      } else {
        StrandedConnection(next, j.late, a);
      }
  }

  // From there no schedule ever gets the job going again: it is never answered.
  lemma {:induction false} StrandedForever(first: Job, next: Job, j: Joint, moves: seq<Move>, j': Joint)
    requires Ready(first) && Ready(next) && Trail(first, j.early) && j.early.h.pc.Ended?
    requires Stranded(next, j.late) && JointRun(first, next, j, moves, j')
    ensures j'.late.m.reply == None && Rank(j'.late.h.pc) <= 4
    decreases |moves|
  {
    if moves != [] {
      hide Ready, Stranded, Trail, Moved, CanMove;
      StrandedStep(first, next, j, moves[0]);
      StrandedForever(first, next, Moved(first, next, j, moves[0]), moves[1..], j');
    }
  }

  // The late write, seen from the next job.
  lemma {:induction false} LateWrite(o: Meeting)
    requires Meets(o)
    ensures After(o).late == o.now.late.(m := o.now.late.m.(gate := false))
    ensures After(o).early.h.pc.Ended? && Trail(o.first, After(o).early)
  {
    hide Ready, Trace, Moved, Trail, JointRun;
    var acts, v := ProperSoFar(o);
    assert CanMove(o.first, o.next, o.now, Earlier(Handle)) by { ClosingCanClose(o.first, o.now); }
    TrailStep(o.first, o.next, o.now, Handle);
  }

  lemma ClosingCanClose(first: Job, j: Joint)
    requires j.early.h.pc.Closing?
    ensures Enabled(first, OldView(j), Handle)
  {
  }

  // It strands a job that is exposed.
  lemma {:induction false} LateWriteStrands(p: Job, u: State, v: State)
    requires Ready(p) && Inv(p, v) && Like(p, u, v) && Exposed(u)
    ensures Stranded(p, u.(m := u.m.(gate := false)))
    ensures u.m.invited <==> Rank(u.h.pc) >= 2
    ensures Rank(u.h.pc) < 2 ==> u.h.pc.Inviting? && u.code.pc.Unsent?
  {
    hide Holds, Consumed, UnderWay, Counted, Readable, LiesIn;
    HoldsFor(p, v, Code);
    HoldsFor(p, v, Train);
    HoldsIsHeaded(p.code, v.m, v.code);
    HoldsIsHeaded(p.train, v.m, v.train);
    hide Headed;
    var s := u.(m := u.m.(gate := false));
    forall role
      ensures Headed(TransferOf(p, role), ReceiverOf(s, role))
    {
      match role
      case Code =>
      case Reducer =>
      case Train =>
    }
  }

  // A connection that has still to read the gate reads it closed.
  lemma {:induction false} Knock(p: Job, s: State, role: Role) returns (acts: seq<Action>, t: State)
    requires !s.m.gate && s.m.invited && Unread(ReceiverOf(s, role).pc)
    ensures Run(p, s, acts, t)
    ensures t == SetReceiver(s, role, s.m, ReceiverOf(s, role).(pc := TurnedAway))
  {
    var a, knocking := Receive(role), s;
    if ReceiverOf(s, role).pc.Unsent? {
      knocking := Apply(p, s, Request(role));
    }
    t := Apply(p, knocking, a);
    FirstThen(p, knocking, a, [], t);
    acts := [a] + [];
    if ReceiverOf(s, role).pc.Unsent? {
      FirstThen(p, s, Request(role), acts, t);
      acts := [Request(role)] + acts;
    }
  }

  lemma {:induction false} Invited(p: Job, s: State) returns (t: State)
    requires s.h.pc.Inviting?
    ensures Enabled(p, s, Handle) && t == Apply(p, s, Handle)
    ensures t == s.(m := s.m.(invited := true), h := s.h.(pc := Waiting1))
  {
    hide Temp;
    t := Apply(p, s, Handle);
  }

  lemma {:induction false} ExposedIsTurnedAway(o: Meeting) returns (moves: seq<Move>, u: Joint)
    requires Meets(o) && Exposed(o.now.late)
    ensures JointRun(o.first, o.next, After(o), moves, u) && IsTurnedAway(u.late)
  {
    hide Ready, Inv, Like, Trail, Temp, Run, Stranded, After, JointRun;
    var _, v := ProperSoFar(o);
    LateWrite(o);
    LateWriteStrands(o.next, o.now.late, v);
    var p, s := o.next, After(o).late;
    var role := if Unread(o.now.late.code.pc) then Code else Train;
    var acts, t;
    if s.m.invited {
      acts, t := Knock(p, s, role);
    } else {
      var invited := Invited(p, s);
      acts, t := Knock(p, invited, role);
      FirstThen(p, s, Handle, acts, t);
      acts := [Handle] + acts;
    }
    LaterRun(o.first, p, After(o).early, s, acts, t);
    moves, u := LaterAll(acts), Joint(After(o).early, t);
  }

  // ------------------------------------------------------------ the job that is not

  // After the late write on a job that is not exposed, whatever the schedule: there is a
  // run of the same job from a proper beginning, alone on the process, in which code, train
  // and handler come to the very same state and the reply is the same.
  lemma {:induction false} HarmlessIfNotExposed(o: Meeting, moves: seq<Move>, u: Joint)
    returns (proper: seq<Action>, v: State)
    requires Meets(o) && !Exposed(o.now.late) && JointRun(o.first, o.next, After(o), moves, u)
    ensures Reachable(o.next, Rested(o), proper, v) && Like(o.next, u.late, v)
  {
    hide Ready, Inv, Begins, Run, Like, Trail, Exposed, JointRun;
    var before, w := ProperSoFar(o);
    LateWrite(o);
    assert CanMove(o.first, o.next, o.now, Earlier(Handle)) by { ClosingCanClose(o.first, o.now); }
    TrailIsLike(o.first, o.next, o.now, Handle, w);
    EndedStays(o.first, o.next, After(o), moves, u);
    var more;
    more, v := Matched(o.first, o.next, After(o), moves, u, w);
    RunThen(o.next, Rested(o), before, w, more, v);
    proper := before + more;
  }

  // From wherever such a job has got to it can still be answered.
  lemma {:induction false} CanStillReply(o: Meeting, moves: seq<Move>, u: Joint)
    returns (more: seq<Move>, t: Joint)
    requires Meets(o) && !Exposed(o.now.late) && JointRun(o.first, o.next, After(o), moves, u)
    ensures JointRun(o.first, o.next, u, more, t) && t.late.m.reply.Some?
  {
    hide Ready, Inv, Begins, Run, Exposed, Like, JointRun, After;
    var proper, v := HarmlessIfNotExposed(o, moves, u);
    var p := o.next;
    InvReached(p, Rested(o), proper, v);
    var acts, v' := AnswerWithoutReducer(p, v);
    RunThen(p, Rested(o), proper, v, acts, v');
    Replied(p, Rested(o), proper + acts, v');
    t := Replayed(o.first, p, u, v, acts, v');
    LikeReplies(p, t.late, v');
    more := LaterAll(acts);
  }

  lemma LikeReplies(p: Job, u: State, v: State)
    requires Like(p, u, v)
    ensures u.m.reply == v.m.reply && u.code == v.code && u.train == v.train
  {
  }

  lemma {:induction false} AnswerWithoutReducer(p: Job, v: State) returns (acts: seq<Action>, t: State)
    requires Ready(p) && Inv(p, v)
    ensures Run(p, v, acts, t) && Spares(acts) && t.h.pc.Ended?
  {
    hide Ready, Inv, Run;
    var a0, s0 := InviteFrom(p, v);
    var a1, s1 := Complete(p, s0, Code);
    var a2, s2 := Complete(p, s1, Train);
    assert ReceiverOf(s2, Code) == ReceiverOf(s1, Code);
    var a3, s3 := HandlerToEnd(p, s2);
    RunThen(p, v, a0, s0, a1, s1);
    RunThen(p, v, a0 + a1, s1, a2, s2);
    RunThen(p, v, a0 + a1 + a2, s2, a3, s3);
    acts, t := a0 + a1 + a2 + a3, s3;
  }

  lemma {:induction false} InviteFrom(p: Job, s: State) returns (acts: seq<Action>, t: State)
    requires Ready(p) && Inv(p, s)
    ensures Run(p, s, acts, t) && Inv(p, t) && t.m.invited && Spares(acts)
    decreases Uninvited(s)
  {
    hide Ready, Inv, Apply;
    if Rank(s.h.pc) < 2 {
      InvitingStep(p, s);
      InvStep(p, s, Handle);
      acts, t := InviteFrom(p, Apply(p, s, Handle));
      FirstThen(p, s, Handle, acts, t);
      acts := [Handle] + acts;
    } else {
      RestingIsComplete(p, s);
      acts, t := [], s;
    }
  }

  // ------------------------------------------------------------ exactly when

  // Some schedule gets code or train of the next job turned away.
  ghost predicate CanBeRefused(first: Job, next: Job, j: Joint) {
    exists moves, u :: JointRun(first, next, j, moves, u) && IsTurnedAway(u.late)
  }

  // No schedule gets it answered.
  ghost predicate NeverReplies(first: Job, next: Job, j: Joint) {
    forall moves, u :: JointRun(first, next, j, moves, u) ==> u.late.m.reply == None
  }

  // Two jobs overlap by the late write of the first. Code or train of the second can be
  // turned away if and only if the second handler had opened the gate and one of them had
  // still to read it.
  lemma {:induction false} RefusedExactly(o: Meeting)
    requires Meets(o)
    ensures CanBeRefused(o.first, o.next, After(o)) <==> Exposed(o.now.late)
  {
    hide Ready, Inv, Begins, Run, Like, JointRun, Exposed, After;
    if Exposed(o.now.late) {
      var moves, u := ExposedIsTurnedAway(o);
    } else {
      forall moves, u | JointRun(o.first, o.next, After(o), moves, u)
        ensures !IsTurnedAway(u.late)
      {
        var proper, v := HarmlessIfNotExposed(o, moves, u);
        GateSafety(o.next, Rested(o), proper, v);
        LikeReplies(o.next, u.late, v);
      }
    }
  }

  // And in exactly those cases the write loses the job: from then on no schedule answers it.
  // In all others it can be answered from wherever it gets to, by CanStillReply.
  lemma {:induction false} LostExactly(o: Meeting)
    requires Meets(o)
    ensures NeverReplies(o.first, o.next, After(o)) <==> Exposed(o.now.late)
  {
    hide Ready, Inv, Run, Begins, Like, Trail, Stranded, JointRun, After, Exposed;
    if Exposed(o.now.late) {
      var _, v := ProperSoFar(o);
      LateWrite(o);
      LateWriteStrands(o.next, o.now.late, v);
      forall moves, u | JointRun(o.first, o.next, After(o), moves, u)
        ensures u.late.m.reply == None
      {
        StrandedForever(o.first, o.next, After(o), moves, u);
      }
    } else {
      EmptyRun(o.first, o.next, After(o));
      var more, t := CanStillReply(o, [], After(o));
    }
  }

  lemma EmptyRun(first: Job, next: Job, j: Joint)
    ensures JointRun(first, next, j, [], j)
  {
  }

  // A reply that does come after the late write is the right one.
  lemma {:induction false} ReplyIsStillTheAnswer(o: Meeting, moves: seq<Move>, u: Joint)
    requires Meets(o) && Distributes(ProgramOf(o.next))
    requires JointRun(o.first, o.next, After(o), moves, u) && u.late.m.reply.Some?
    ensures u.late.m.reply == Some(ToString(ToInt(Value(o.next, o.next.train.contents))))
  {
    hide Ready, Inv, Run, Begins, Exposed, Like, Value, Distributes, JointRun, After;
    LostExactly(o);
    if Exposed(o.now.late) {
      assert false;
    } else {
      var proper, v := HarmlessIfNotExposed(o, moves, u);
      LikeReplies(o.next, u.late, v);
      ReplyIsTheAnswer(o.next, Rested(o), proper, v);
    }
  }

  // ------------------------------------------------------------ it does happen

  // A run of a job to its reply.
  lemma {:induction false} ToReply(p: Job, s: State) returns (acts: seq<Action>, t: State)
    requires Ready(p) && Inv(p, s) && Rank(s.h.pc) <= 8
    ensures Run(p, s, acts, t) && t.h.pc.Closing?
    decreases Uninvited(s), Remaining(p, s), Rest(s.h, |p.train.contents|)
  {
    hide Ready, Inv, Apply, Enabled, Remaining, Rest, Next;
    if s.h.pc.Closing? {
      acts, t := [], s;
    } else {
      var a := Next(s);
      NextIsEnabled(p, s);
      InvStep(p, s, a);
      NextGoesOn(p, s);
      NotYetEnded(p, s, a);
      acts, t := ToReply(p, Apply(p, s, a));
      FirstThen(p, s, a, acts, t);
      acts := [a] + acts;
    }
  }

  lemma {:induction false} NotYetEnded(p: Job, s: State, a: Action)
    requires Enabled(p, s, a) && Rank(s.h.pc) <= 8 && !s.h.pc.Closing?
    ensures Rank(Apply(p, s, a).h.pc) <= 8
  {
    hide Temp, ConnectionEnabled, ConnectionStep;
  }

  // Any job can be followed by any other so that the other is lost: its client has been
  // invited when the late write happens, and the code connection has not knocked.
  lemma {:induction false} AnyNextJobCanBeLost(first: Job, next: Job) returns (o: Meeting)
    requires Ready(first) && Ready(next) && next.prior == Some(Program(first))
    ensures o.first == first && o.next == next && Meets(o) && Exposed(o.now.late)
    ensures NeverReplies(first, next, After(o))
  {
    hide Ready, Inv, Run, Begins, Temp, NeverReplies, JointRun, After;
    var start := Necessity.Idle(first);
    IdleBegins(first);
    InvBegins(first, start);
    var schedule, replied := ToReply(first, start);
    CompiledBefore(first, start, schedule, replied);
    var s := NextJob(replied);
    var steps, now := TwoSteps(next, s);
    LaterRun(first, next, replied, s, steps, now);
    o := Meeting(first, start, schedule, replied, next, LaterAll(steps), Joint(replied, now));
    LostExactly(o);
  }

  lemma IdleBegins(p: Job)
    ensures Begins(p, Necessity.Idle(p))
  {
  }

  lemma {:induction false} CompiledBefore(p: Job, s: State, acts: seq<Action>, t: State)
    requires Ready(p) && Reachable(p, s, acts, t) && t.h.pc.Closing?
    ensures t.m.binary == Some(Program(p))
  {
    hide Ready, Connected, Counted, Gate, Consumed, UnderWay;
    InvReached(p, s, acts, t);
  }

  lemma {:induction false} TwoSteps(p: Job, s: State) returns (acts: seq<Action>, t: State)
    requires s.h == NEW_HANDLER && s.code == NEW_RECEIVER
    ensures Run(p, s, acts, t) && Exposed(t)
  {
    hide Temp;
    var m := Apply(p, s, Handle);
    t := Apply(p, m, Handle);
    FirstThen(p, m, Handle, [], t);
    FirstThen(p, s, Handle, [Handle] + [], t);
    acts := [Handle] + ([Handle] + []);
  }
}
