/** What a worker answers, in every run. */
module Answer {
  import opened Options
  import opened Files
  import opened Words
  import opened Decimal
  import opened Wire
  import opened Feed
  import opened Worker
  import opened Invariant

  // File sizes travel in 63 bits.
  const LIMIT := TWO_64 / 2

  // The program distributes over every cut of its input, as an int.
  ghost predicate Distributes(f: Bytes -> int) {
    forall a: Bytes, b: Bytes {:trigger f(a + b)} :: |a| + |b| < LIMIT ==> ToInt(f(a + b)) == Xor(ToInt(f(a)), ToInt(f(b)))
  }

  // That is: in the low 32 bits of what it prints.
  lemma {:induction false} DistributesMeans(f: Bytes -> int)
    ensures Distributes(f) <==>
            forall a: Bytes, b: Bytes {:trigger f(a + b)} :: |a| + |b| < 0x8000_0000_0000_0000 ==>
              (f(a + b) - Xor(f(a), f(b))) % 0x1_0000_0000 == 0
  {
    hide ToInt, Xor;
    forall a: Bytes, b: Bytes
      ensures ToInt(f(a + b)) == Xor(ToInt(f(a)), ToInt(f(b))) <==>
              (f(a + b) - Xor(f(a), f(b))) % 0x1_0000_0000 == 0
    {
      IntXor(f(a), f(b));
      IntIsSame(f(a + b), Xor(f(a), f(b)));
    }
  }

  lemma {:induction false} IntIsSame(v: int, w: int)
    ensures ToInt(v) == ToInt(w) <==> (v - w) % 0x1_0000_0000 == 0
  {
    hide ToInt;
    IntIsLow32(v);
    IntIsLow32(w);
  }

  // Then nothing comes of empty input, which matters: the worker also runs the program on
  // empty segments.
  lemma {:induction false} EmptyInput(f: Bytes -> int)
    requires Distributes(f)
    ensures ToInt(f([])) == 0
  {
    var e: Bytes := [];
    assert e + e == e;
    XorSelf(ToInt(f(e)));
    assert Xor(ToInt(f(e)), ToInt(f(e))) == ToInt(f(e + e));
  }

  // Folding the values of the parts gives the value of the whole.
  lemma {:induction false} FoldOfParts(f: Bytes -> int, parts: seq<Bytes>)
    requires Distributes(f) && |Concat(parts)| < LIMIT
    ensures XorAll(Ints(f, parts)) == ToInt(f(Concat(parts)))
    decreases |parts|
  {
    hide ToInt, Xor;
    if parts == [] {
      EmptyInput(f);
    } else {
      var m := |parts| - 1;
      FoldOfParts(f, parts[..m]);
      assert parts == parts[..m] + [parts[m]];
      assert Ints(f, parts) == Ints(f, parts[..m]) + [ToInt(f(parts[m]))];
      XorAllSnoc(Ints(f, parts[..m]), ToInt(f(parts[m])));
    }
  }

  // ------------------------------------------------------------ which programs these are

  function Singletons(s: Bytes): (parts: seq<Bytes>)
    ensures |parts| == |s|
  {
    seq(|s|, i requires 0 <= i < |s| => [s[i]])
  }

  lemma {:induction false} ConcatOfSingletons(s: Bytes)
    ensures Concat(Singletons(s)) == s
  {
    if s != [] {
      var m := |s| - 1;
      ConcatOfSingletons(s[..m]);
      assert Singletons(s)[..m] == Singletons(s[..m]);
      assert s == s[..m] + [s[m]];
    }
  }

  // The value of an input is the exclusive or of what the program makes of its bytes one
  // by one.
  ghost predicate ByteByByte(f: Bytes -> int) {
    forall s: Bytes {:trigger Singletons(s)} :: |s| < LIMIT ==> ToInt(f(s)) == XorAll(Ints(f, Singletons(s)))
  }

  // A program distributes over every cut if and only if it works byte by byte.
  lemma {:induction false} DistributesExactly(f: Bytes -> int)
    ensures Distributes(f) <==> ByteByByte(f)
  {
    hide ToInt, Xor, XorAll, Distributes;
    if Distributes(f) {
      forall s: Bytes | |s| < LIMIT
        ensures ToInt(f(s)) == XorAll(Ints(f, Singletons(s)))
      {
        ConcatOfSingletons(s);
        FoldOfParts(f, Singletons(s));
      }
    }
    if ByteByByte(f) {
      BytesDistribute(f);
    }
  }

  lemma {:induction false} BytesDistribute(f: Bytes -> int)
    requires ByteByByte(f)
    ensures Distributes(f)
  {
    hide ToInt, Xor, XorAll;
    forall a: Bytes, b: Bytes | |a| + |b| < LIMIT
      ensures ToInt(f(a + b)) == Xor(ToInt(f(a)), ToInt(f(b)))
    {
      var xs, ys := Ints(f, Singletons(a)), Ints(f, Singletons(b));
      assert Ints(f, Singletons(a + b)) == xs + ys;
      XorAllConcat(xs, ys);
    }
  }

  // Any choice of a number for each byte makes one: the program that prints the exclusive
  // or of the numbers of its input.
  function PrintXor(g: byte -> int): Bytes -> string {
    s => ToString(ToInt(XorAll(Ints(g, s))))
  }

  lemma {:induction false} PrintXorDistributes(g: byte -> int)
    ensures Distributes(s => NodeResult(PrintXor(g)(s)))
  {
    var f: Bytes -> int := s => NodeResult(PrintXor(g)(s));
    forall a: Bytes, b: Bytes | |a| + |b| < LIMIT
      ensures ToInt(f(a + b)) == Xor(ToInt(f(a)), ToInt(f(b)))
    {
      hide *;
      Printed(g, a);
      Printed(g, b);
      Printed(g, a + b);
      FoldOfBytes(g, a, b);
    }
  }

  lemma {:induction false} Printed(g: byte -> int, s: Bytes)
    ensures ToInt(NodeResult(PrintXor(g)(s))) == ToInt(XorAll(Ints(g, s)))
  {
    hide ToInt, NodeResult, ToString;
    PrintedNumber(XorAll(Ints(g, s)));
  }

  lemma {:induction false} FoldOfBytes(g: byte -> int, a: Bytes, b: Bytes)
    ensures ToInt(XorAll(Ints(g, a + b))) == Xor(ToInt(XorAll(Ints(g, a))), ToInt(XorAll(Ints(g, b))))
  {
    hide ToInt, Xor, XorAll;
    assert Ints(g, a + b) == Ints(g, a) + Ints(g, b);
    XorAllConcat(Ints(g, a), Ints(g, b));
    IntXor(XorAll(Ints(g, a)), XorAll(Ints(g, b)));
  }

  lemma {:induction false} IntXor(v: int, w: int)
    ensures ToInt(Xor(v, w)) == Xor(ToInt(v), ToInt(w))
  {
    WrapXor(v, w, INT_BITS);
  }

  lemma {:induction false} PrintedNumber(v: int)
    ensures ToInt(NodeResult(ToString(ToInt(v)))) == ToInt(v)
  {
    hide Wrap, Pow2, ToString;
    var _ := WrapIsConversion(v, INT_BITS);
    IntIsLong(ToInt(v));
    ParsePrinted(ToInt(v), LONG_BITS, "", "");
    assert "" + ToString(ToInt(v)) + "" == ToString(ToInt(v));
    WrapTwice(v, INT_BITS);
  }

  lemma {:induction false} IntIsLong(v: int)
    requires InRange(v, INT_BITS)
    ensures InRange(v, LONG_BITS)
  {
    Pow2Grows(INT_BITS - 1, LONG_BITS - 1);
  }

  // ------------------------------------------------------------ replies

  // A run of the job from its beginning in which the worker has replied.
  ghost predicate Replies(p: Job, s: State, acts: seq<Action>, t: State) {
    Begins(p, s) && Run(p, s, acts, t) && t.m.reply.Some?
  }

  // In every run the reply is the fold of the segments that were consumed, and these
  // concatenate to exactly the slice that was sent.
  lemma {:induction false} ReplyFoldsTheSlice(p: Job, s: State, acts: seq<Action>, t: State)
    requires Ready(p) && Replies(p, s, acts, t)
    ensures Concat(t.h.segments) == p.train.contents
    ensures t.m.reply == Some(ToString(XorAll(Ints(ProgramOf(p), t.h.segments))))
  {
    InvBegins(p, s);
    InvAlways(p, s, acts, t);
    assert p.train.contents[..|p.train.contents|] == p.train.contents;
  }

  // If the program distributes, the reply of every run is the value of the slice.
  lemma {:induction false} ReplyIsTheAnswer(p: Job, s: State, acts: seq<Action>, t: State)
    requires Ready(p) && Replies(p, s, acts, t) && Distributes(ProgramOf(p))
    ensures t.m.reply == Some(ToString(ToInt(Value(p, p.train.contents))))
    ensures Stoi(t.m.reply.value) == Some(ToInt(Value(p, p.train.contents)))
    ensures (Value(p, p.train.contents) - Stoi(t.m.reply.value).value) % 0x1_0000_0000 == 0
  {
    hide *;
    ReplyFoldsTheSlice(p, s, acts, t);
    SliceIsShort(p);
    FoldOfParts(ProgramOf(p), t.h.segments);
    ProgramIs(p, p.train.contents);
    IntInText(Value(p, p.train.contents));
  }

  lemma SliceIsShort(p: Job)
    requires Ready(p)
    ensures |p.train.contents| < LIMIT
  {
  }

  lemma ProgramIs(p: Job, input: Bytes)
    ensures ProgramOf(p)(input) == Value(p, input)
  {
  }

  // The low 32 bits of a number, sent as text and read again.
  lemma {:induction false} IntInText(v: int)
    ensures Stoi(ToString(ToInt(v))) == Some(ToInt(v)) && (v - ToInt(v)) % 0x1_0000_0000 == 0
  {
    hide ToInt;
    IntIsLow32(v);
    Ranges(ToInt(v));
  }

  // Any two runs, whatever their receives, publications and empty rounds, reply alike.
  lemma {:induction false} ScheduleIndependence(
    p: Job, s: State, acts: seq<Action>, t: State, s': State, acts': seq<Action>, t': State)
    requires Ready(p) && Distributes(ProgramOf(p))
    requires Replies(p, s, acts, t) && Replies(p, s', acts', t')
    ensures t.m.reply == t'.m.reply
  {
    ReplyIsTheAnswer(p, s, acts, t);
    ReplyIsTheAnswer(p, s', acts', t');
  }
}
