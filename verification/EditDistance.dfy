/** `levenshtein`: the table computes the least number of single-character edits. */
module EditDistance {
  import opened Files

  // ------------------------------------------------------------ edit scripts, the reference

  // One edit of a string, at a position of the string it is applied to.
  datatype Edit =
    | Insert(at: nat, c: char)
    | Delete(at: nat)
    | Substitute(at: nat, c: char)

  predicate Fits(e: Edit, s: string) {
    if e.Insert? then e.at <= |s| else e.at < |s|
  }

  function Apply(e: Edit, s: string): string
    requires Fits(e, s)
  {
    match e
    case Insert(at, c) => s[..at] + [c] + s[at..]
    case Delete(at) => s[..at] + s[at + 1..]
    case Substitute(at, c) => s[at := c]
  }

  // The script, applied edit by edit from the left, turns `s` into `t`.
  predicate Turns(script: seq<Edit>, s: string, t: string) {
    if script == [] then s == t
    else Fits(script[0], s) && Turns(script[1..], Apply(script[0], s), t)
  }

  // `d` is the cost of a cheapest script: some script attains it and none is cheaper.
  ghost predicate IsOptimal(s: string, t: string, d: int) {
    && (exists script :: Turns(script, s, t) && |script| == d)
    && (forall script :: Turns(script, s, t) ==> d <= |script|)
  }

  // What an edit is: a character put between, taken out, or exchanged, anywhere.
  lemma {:induction false} EditsAre(a: string, x: char, b: string, c: char)
    ensures Fits(Insert(|a|, c), a + b) && Apply(Insert(|a|, c), a + b) == a + [c] + b
    ensures Fits(Delete(|a|), a + [x] + b) && Apply(Delete(|a|), a + [x] + b) == a + b
    ensures Fits(Substitute(|a|, c), a + [x] + b) && Apply(Substitute(|a|, c), a + [x] + b) == a + [c] + b
  {
  }

  lemma {:induction false} NoOtherEdits(e: Edit, s: string)
    ensures Fits(e, s) ==> e.at <= |s| && (!e.Insert? ==> e.at < |s|)
    ensures Turns([], s, s)
    ensures forall t :: Turns([], s, t) ==> s == t
    ensures forall t :: Turns([e], s, t) <==> Fits(e, s) && t == Apply(e, s)
  {
  }

  // ------------------------------------------------------------ the recurrence of the table

  function Butlast(s: string): string
    requires s != []
  {
    s[..|s| - 1]
  }

  function Last(s: string): char
    requires s != []
  {
    s[|s| - 1]
  }

  function Dist(s: string, t: string): int
    decreases |s| + |t|
  {
    if s == [] then |t|
    else if t == [] then |s|
    else
      var cost := if Last(s) == Last(t) then 0 else 1;
      Min(Dist(Butlast(s), t) + 1,
          Min(Dist(s, Butlast(t)) + 1, Dist(Butlast(s), Butlast(t)) + cost))
  }

  // The same recurrence by prefix lengths, as the table is indexed.
  function Cell(s1: string, s2: string, i: nat, j: nat): int
    requires i <= |s1| && j <= |s2|
  {
    if i == 0 then j
    else if j == 0 then i
    else
      var cost := if s1[i - 1] == s2[j - 1] then 0 else 1;
      Min(Cell(s1, s2, i - 1, j) + 1,
          Min(Cell(s1, s2, i, j - 1) + 1, Cell(s1, s2, i - 1, j - 1) + cost))
  }

  lemma {:induction false} CellIsDist(s1: string, s2: string, i: nat, j: nat)
    requires i <= |s1| && j <= |s2|
    ensures Cell(s1, s2, i, j) == Dist(s1[..i], s2[..j])
  {
    hide Cell, Dist, Butlast, Last;
    if i == 0 || j == 0 {
      CellBorder(s1, s2, i, j);
    } else {
      CellIsDist(s1, s2, i - 1, j);
      CellIsDist(s1, s2, i, j - 1);
      CellIsDist(s1, s2, i - 1, j - 1);
      EndsOfPrefix(s1, i);
      EndsOfPrefix(s2, j);
      CellStep(s1, s2, i, j);
      DistStep(s1[..i], s2[..j]);
    }
  }

  lemma {:induction false} CellBorder(s1: string, s2: string, i: nat, j: nat)
    requires i <= |s1| && j <= |s2| && (i == 0 || j == 0)
    ensures Cell(s1, s2, i, j) == Dist(s1[..i], s2[..j])
  {
  }

  lemma {:induction false} CellStep(s1: string, s2: string, i: nat, j: nat)
    requires 0 < i <= |s1| && 0 < j <= |s2|
    ensures Cell(s1, s2, i, j) ==
            Min(Cell(s1, s2, i - 1, j) + 1,
                Min(Cell(s1, s2, i, j - 1) + 1,
                    Cell(s1, s2, i - 1, j - 1) + if s1[i - 1] == s2[j - 1] then 0 else 1))
  {
  }

  lemma {:induction false} DistStep(s: string, t: string)
    requires s != [] && t != []
    ensures Dist(s, t) ==
            Min(Dist(Butlast(s), t) + 1,
                Min(Dist(s, Butlast(t)) + 1,
                    Dist(Butlast(s), Butlast(t)) + if Last(s) == Last(t) then 0 else 1))
  {
  }

  lemma {:induction false} EndsOfPrefix(s: string, i: nat)
    requires 0 < i <= |s|
    ensures Butlast(s[..i]) == s[..i - 1] && Last(s[..i]) == s[i - 1]
  {
  }

  // The first `n` entries of row `i` of the table hold the values of the recurrence.
  ghost predicate RowHolds(dp: array2<int>, s1: string, s2: string, i: nat, n: nat)
    requires dp.Length0 == |s1| + 1 && dp.Length1 == |s2| + 1
    requires i <= |s1| && n <= |s2| + 1
    reads dp
  {
    forall l :: 0 <= l < n ==> dp[i, l] == Cell(s1, s2, i, l)
  }

  method FillBorder(dp: array2<int>, s1: string, s2: string)
    requires dp.Length0 == |s1| + 1 && dp.Length1 == |s2| + 1
    modifies dp
    ensures forall k :: 0 <= k <= |s1| ==> dp[k, 0] == k
    ensures RowHolds(dp, s1, s2, 0, |s2| + 1)
  {
    for i := 0 to |s1| + 1
      invariant forall k :: 0 <= k < i ==> dp[k, 0] == k
    {
      dp[i, 0] := i;
    }
    for j := 0 to |s2| + 1
      invariant forall k :: 0 <= k <= |s1| ==> dp[k, 0] == k
      invariant forall k :: 0 <= k < j ==> dp[0, k] == k
    {
      dp[0, j] := j;
    }
  }

  // The inner loop: one row from the row above it.
  method FillRow(dp: array2<int>, s1: string, s2: string, i: nat)
    requires dp.Length0 == |s1| + 1 && dp.Length1 == |s2| + 1
    requires 1 <= i <= |s1|
    requires forall k :: 0 <= k <= |s1| ==> dp[k, 0] == k
    requires RowHolds(dp, s1, s2, i - 1, |s2| + 1)
    modifies dp
    ensures forall k :: 0 <= k <= |s1| ==> dp[k, 0] == k
    ensures RowHolds(dp, s1, s2, i, |s2| + 1)
  {
    for j := 1 to |s2| + 1
      invariant forall k :: 0 <= k <= |s1| ==> dp[k, 0] == k
      invariant RowHolds(dp, s1, s2, i - 1, |s2| + 1)
      invariant RowHolds(dp, s1, s2, i, j)
    {
      var cost := if s1[i - 1] == s2[j - 1] then 0 else 1;
      var a := dp[i - 1, j] + 1;
      var b := dp[i, j - 1] + 1;
      var c := dp[i - 1, j - 1] + cost;
      dp[i, j] := Min(a, Min(b, c));
    }
  }

  method Levenshtein(s1: string, s2: string) returns (result: int)
    ensures result == Dist(s1, s2)
    ensures IsOptimal(s1, s2, result)
  {
    var dp := new int[|s1| + 1, |s2| + 1];
    FillBorder(dp, s1, s2);
    for i := 1 to |s1| + 1
      invariant forall k :: 0 <= k <= |s1| ==> dp[k, 0] == k
      invariant RowHolds(dp, s1, s2, i - 1, |s2| + 1)
    {
      FillRow(dp, s1, s2, i);
    }
    result := dp[|s1|, |s2|];
    CellIsDist(s1, s2, |s1|, |s2|);
    assert s1[..|s1|] == s1 && s2[..|s2|] == s2;
    DistIsOptimal(s1, s2);
  }

  // ------------------------------------------------------------ the recurrence is a metric

  lemma {:induction false} DistBounds(s: string, t: string)
    ensures |s| - |t| <= Dist(s, t)
    ensures |t| - |s| <= Dist(s, t)
    ensures Dist(s, t) <= (if |s| <= |t| then |t| else |s|)
    decreases |s| + |t|
  {
    if s != [] && t != [] {
      DistBounds(Butlast(s), t);
      DistBounds(s, Butlast(t));
      DistBounds(Butlast(s), Butlast(t));
    }
  }

  lemma {:induction false} DistZero(s: string, t: string)
    ensures Dist(s, t) == 0 <==> s == t
    decreases |s| + |t|
  {
    if s != [] && t != [] {
      DistBounds(Butlast(s), t);
      DistBounds(s, Butlast(t));
      DistBounds(Butlast(s), Butlast(t));
      DistZero(Butlast(s), Butlast(t));
      SameEnds(s, t);
    }
  }

  lemma {:induction false} SameEnds(s: string, t: string)
    requires s != [] && t != []
    ensures s == t <==> Butlast(s) == Butlast(t) && Last(s) == Last(t)
  {
    assert s == Butlast(s) + [Last(s)] && t == Butlast(t) + [Last(t)];
  }

  lemma {:induction false} DistSymmetric(s: string, t: string)
    ensures Dist(s, t) == Dist(t, s)
    decreases |s| + |t|
  {
    if s != [] && t != [] {
      DistSymmetric(Butlast(s), t);
      DistSymmetric(s, Butlast(t));
      DistSymmetric(Butlast(s), Butlast(t));
    }
  }

  lemma {:induction false} DistTriangle(s: string, t: string, u: string)
    ensures Dist(s, u) <= Dist(s, t) + Dist(t, u)
    decreases |s| + |t| + |u|
  {
    if s == [] || t == [] || u == [] {
      DistBounds(s, t);
      DistBounds(t, u);
      DistBounds(s, u);
    } else {
      var s', t', u' := Butlast(s), Butlast(t), Butlast(u);
      DistTriangle(s', t, u);
      DistTriangle(s, t, u');
      DistTriangle(s, t', u);
      DistTriangle(s, t', u');
      DistTriangle(s', t', u);
      DistTriangle(s', t', u');
    }
  }

  // ------------------------------------------------------------ no script is cheaper

  lemma {:induction false} CommonSuffix(a: string, b: string, q: string)
    ensures Dist(a + q, b + q) <= Dist(a, b)
    decreases |q|
  {
    if q == [] {
      assert a + q == a && b + q == b;
    } else {
      CommonSuffix(a, b, Butlast(q));
      assert Butlast(a + q) == a + Butlast(q) && Butlast(b + q) == b + Butlast(q);
      assert Last(a + q) == Last(q) == Last(b + q);
    }
  }

  lemma {:induction false} OneCharacter(p: string, x: string, y: string, q: string)
    requires |x| <= 1 && |y| <= 1
    ensures Dist(p + x + q, p + y + q) <= 1
  {
    hide Dist;
    LastCharacter(p, x, y);
    CommonSuffix(p + x, p + y, q);
  }

  lemma {:induction false} LastCharacter(p: string, x: string, y: string)
    requires |x| <= 1 && |y| <= 1
    ensures Dist(p + x, p + y) <= 1
  {
    hide Dist;
    DistZero(p, p);
    DistSteps(p + x, p + y);
    assert p + [] == p;
    assert x != [] ==> Butlast(p + x) == p;
    assert y != [] ==> Butlast(p + y) == p;
  }

  // The recurrence as bounds, one per edit.
  lemma {:induction false} DistSteps(s: string, t: string)
    ensures s != [] ==> Dist(s, t) <= Dist(Butlast(s), t) + 1
    ensures t != [] ==> Dist(s, t) <= Dist(s, Butlast(t)) + 1
    ensures s != [] && t != [] ==> Dist(s, t) <= Dist(Butlast(s), Butlast(t)) + 1
  {
  }

  lemma Around(s: string, from: nat, to: nat)
    requires from <= to <= |s|
    ensures s[..from] + s[from..to] + s[to..] == s
  {
  }

  lemma {:induction false} OneEdit(e: Edit, s: string)
    requires Fits(e, s)
    ensures Dist(s, Apply(e, s)) <= 1
  {
    var to := if e.Insert? then e.at else e.at + 1;
    var put := if e.Delete? then [] else [e.c];
    EditedAround(e, s);
    Around(s, e.at, to);
    hide *;
    OneCharacter(s[..e.at], s[e.at..to], put, s[to..]);
  }

  // What every edit does: it puts something in the place of something.
  lemma {:induction false} EditedAround(e: Edit, s: string)
    requires Fits(e, s)
    ensures Apply(e, s) ==
            s[..e.at] + (if e.Delete? then [] else [e.c]) + s[if e.Insert? then e.at else e.at + 1..]
  {
    if e.Delete? {
      assert s[..e.at] + [] == s[..e.at];
    }
  }

  lemma {:induction false} NoneCheaper(script: seq<Edit>, s: string, t: string)
    requires Turns(script, s, t)
    ensures Dist(s, t) <= |script|
    decreases |script|
  {
    if script == [] {
      DistZero(s, t);
    } else {
      var next := Apply(script[0], s);
      NoneCheaper(script[1..], next, t);
      OneEdit(script[0], s);
      DistTriangle(s, next, t);
    }
  }

  // ------------------------------------------------------------ some script attains it

  lemma {:induction false} TurnsConcat(a: seq<Edit>, b: seq<Edit>, s: string, t: string, u: string)
    requires Turns(a, s, t) && Turns(b, t, u)
    ensures Turns(a + b, s, u)
    decreases |a|
  {
    if a == [] {
      assert a + b == b;
    } else {
      TurnsHead(a, s, t);
      hide Turns, Apply, Fits;
      TurnsConcat(a[1..], b, Apply(a[0], s), t, u);
      ButFirst(a[1..] + b, a[0], s, u);
      ConcatAssoc([a[0]], a[1..], b);
      assert [a[0]] + a[1..] == a;
    }
  }

  lemma {:induction false} TurnsHead(a: seq<Edit>, s: string, t: string)
    requires a != [] && Turns(a, s, t)
    ensures Fits(a[0], s) && Turns(a[1..], Apply(a[0], s), t)
  {
  }

  lemma {:induction false} TurnsBefore(script: seq<Edit>, s: string, t: string, c: char)
    requires Turns(script, s, t)
    ensures Turns(script, s + [c], t + [c])
    decreases |script|
  {
    if script != [] {
      var e := script[0];
      TurnsBefore(script[1..], Apply(e, s), t, c);
      AppliesBefore(e, s, c);
    }
  }

  lemma {:induction false} AppliesBefore(e: Edit, s: string, c: char)
    requires Fits(e, s)
    ensures Fits(e, s + [c]) && Apply(e, s + [c]) == Apply(e, s) + [c]
  {
  }

  lemma {:induction false} ThenLast(script: seq<Edit>, e: Edit, s: string, t: string)
    requires Turns(script, s, t) && Fits(e, t)
    ensures Turns(script + [e], s, Apply(e, t))
  {
    assert [e][1..] == [];
    assert Turns([e][1..], Apply(e, t), Apply(e, t));
    TurnsConcat(script, [e], s, t, Apply(e, t));
  }

  lemma {:induction false} ButFirst(script: seq<Edit>, e: Edit, s: string, t: string)
    requires Fits(e, s) && Turns(script, Apply(e, s), t)
    ensures Turns([e] + script, s, t)
  {
    assert ([e] + script)[1..] == script;
  }

  lemma {:induction false} Attained(s: string, t: string) returns (script: seq<Edit>)
    ensures Turns(script, s, t) && |script| == Dist(s, t)
    decreases |s| + |t|
  {
    if s == [] && t == [] {
      script := [];
    } else {
      DistCases(s, t);
      hide Dist, Turns;
      if s == [] || (t != [] && Dist(s, t) == Dist(s, Butlast(t)) + 1) {
        script := Attained(s, Butlast(t));
        script := AttainedInsert(script, s, t);
      } else if t == [] || Dist(s, t) == Dist(Butlast(s), t) + 1 {
        script := Attained(Butlast(s), t);
        script := AttainedDelete(script, s, t);
      } else {
        script := Attained(Butlast(s), Butlast(t));
        script := AttainedDiagonal(script, s, t);
      }
    }
  }

  // The recurrence as the three ways to its minimum.
  lemma {:induction false} DistCases(s: string, t: string)
    requires s != [] || t != []
    ensures s == [] ==> Dist(s, t) == Dist(s, Butlast(t)) + 1
    ensures t == [] ==> Dist(s, t) == Dist(Butlast(s), t) + 1
    ensures s != [] && t != [] ==>
      || Dist(s, t) == Dist(s, Butlast(t)) + 1
      || Dist(s, t) == Dist(Butlast(s), t) + 1
      || Dist(s, t) == Dist(Butlast(s), Butlast(t)) + (if Last(s) == Last(t) then 0 else 1)
  {
  }

  lemma {:induction false} AttainedInsert(front: seq<Edit>, s: string, t: string) returns (script: seq<Edit>)
    requires t != [] && Turns(front, s, Butlast(t))
    ensures Turns(script, s, t) && |script| == |front| + 1
  {
    hide Turns;
    var e := Insert(|t| - 1, Last(t));
    ThenLast(front, e, s, Butlast(t));
    assert Apply(e, Butlast(t)) == t;
    script := front + [e];
  }

  lemma {:induction false} AttainedDelete(rest: seq<Edit>, s: string, t: string) returns (script: seq<Edit>)
    requires s != [] && Turns(rest, Butlast(s), t)
    ensures Turns(script, s, t) && |script| == |rest| + 1
  {
    hide Turns;
    var e := Delete(|s| - 1);
    assert Apply(e, s) == Butlast(s);
    ButFirst(rest, e, s, t);
    script := [e] + rest;
  }

  lemma {:induction false} AttainedDiagonal(front: seq<Edit>, s: string, t: string) returns (script: seq<Edit>)
    requires s != [] && t != [] && Turns(front, Butlast(s), Butlast(t))
    ensures Turns(script, s, t)
    ensures |script| == |front| + (if Last(s) == Last(t) then 0 else 1)
  {
    hide Turns;
    TurnsBefore(front, Butlast(s), Butlast(t), Last(s));
    assert s == Butlast(s) + [Last(s)];
    var almost := Butlast(t) + [Last(s)];
    script := front;
    if Last(s) != Last(t) {
      var e := Substitute(|t| - 1, Last(t));
      assert Apply(e, almost) == t;
      ThenLast(script, e, s, almost);
      script := script + [e];
    } else {
      assert almost == t;
    }
  }

  lemma {:induction false} DistIsOptimal(s: string, t: string)
    ensures IsOptimal(s, t, Dist(s, t))
  {
    var best := Attained(s, t);
    assert Turns(best, s, t) && |best| == Dist(s, t);
    forall script | Turns(script, s, t)
      ensures Dist(s, t) <= |script|
    {
      NoneCheaper(script, s, t);
    }
  }

  // ------------------------------------------------------------ the least script cost is a metric

  // Every answer of the program, on any strings, obeys the laws of a metric. The laws
  // are about script costs: the recurrence is not mentioned.
  lemma {:induction false} ScriptCostIsMetric(s: string, t: string, u: string, st: int, ts: int, tu: int, su: int)
    requires IsOptimal(s, t, st) && IsOptimal(t, s, ts) && IsOptimal(t, u, tu) && IsOptimal(s, u, su)
    ensures st == 0 <==> s == t
    ensures st == ts
    ensures su <= st + tu
    ensures |s| - |t| <= st && |t| - |s| <= st
    ensures st <= |s| || st <= |t|
  {
    OptimalIsUnique(s, t, st);
    OptimalIsUnique(t, s, ts);
    OptimalIsUnique(t, u, tu);
    OptimalIsUnique(s, u, su);
    DistZero(s, t);
    DistSymmetric(s, t);
    DistTriangle(s, t, u);
    DistBounds(s, t);
  }

  lemma {:induction false} OptimalIsUnique(s: string, t: string, d: int)
    requires IsOptimal(s, t, d)
    ensures d == Dist(s, t)
  {
    DistIsOptimal(s, t);
  }

  // Appending text costs exactly its length.
  lemma {:induction false} DistOfExtension(s: string, more: string)
    ensures Dist(s, s + more) == |more|
  {
    DistBounds(s, s + more);
    DistAtMostExtension(s, more);
  }

  lemma {:induction false} DistAtMostExtension(s: string, more: string)
    ensures Dist(s, s + more) <= |more|
    decreases |more|
  {
    if more == [] {
      assert s + more == s;
      DistZero(s, s);
    } else {
      DistAtMostExtension(s, Butlast(more));
      assert Butlast(s + more) == s + Butlast(more);
    }
  }
}
