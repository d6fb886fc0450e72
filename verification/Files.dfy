/** Bytes, and reading them from a file by position. */
module Files {

  type byte = b: int | 0 <= b < 256
  type Bytes = seq<byte>

  const NEWLINE: byte := 10

  function Min(a: int, b: int): int {
    if a <= b then a else b
  }

  // A run of `n` bytes from `pos`, or what the file still has of it.
  function Slice(file: Bytes, pos: nat, n: nat): Bytes {
    if pos >= |file| then [] else file[pos..Min(pos + n, |file|)]
  }

  // The part from `start` to `end`, as far as the file goes.
  lemma {:induction false} PartIs(file: Bytes, start: nat, end: int)
    ensures start <= end <= |file| ==> Slice(file, start, end - start) == file[start..end]
    ensures start <= |file| < end ==> Slice(file, start, end - start) == file[start..]
    ensures |file| <= start < end ==> Slice(file, start, end - start) == []
  {
  }

  lemma {:induction false} SliceSplit(file: Bytes, pos: nat, a: nat, b: nat)
    requires a == 0 || pos + a <= |file|
    ensures Slice(file, pos, a) + Slice(file, pos + a, b) == Slice(file, pos, a + b)
  {
  }

  lemma {:induction false} Appended(before: Bytes, file: Bytes, pos: nat, a: nat, b: nat)
    requires a == 0 || pos + a <= |file|
    ensures before + Slice(file, pos, a) + Slice(file, pos + a, b) == before + Slice(file, pos, a + b)
  {
    hide Slice;
    SliceSplit(file, pos, a, b);
    ConcatAssoc(before, Slice(file, pos, a), Slice(file, pos + a, b));
  }

  // pread. At the end of the file it returns nothing; before that at least one byte,
  // and all that was asked for (up to the end) unless reads may be short.
  method Pread(file: Bytes, count: nat, pos: nat, short: bool) returns (data: Bytes)
    ensures pos + |data| <= |file| || data == []
    ensures |data| <= count && data == Slice(file, pos, |data|)
    ensures count > 0 && pos < |file| ==> data != []
    ensures !short ==> data == Slice(file, pos, count)
  {
    data := Slice(file, pos, count);
    if short && data != [] {
      var n :| 1 <= n <= |data|;
      data := data[..n];
    }
  }

  // General facts about quotients and sequences.
  lemma {:induction false} QuotientIs(v: nat, d: nat, q: nat)
    requires d > 0 && q * d <= v < (q + 1) * d
    ensures v / d == q
  {
    var c := v / d;
    assert c * d <= v < (c + 1) * d;
    assert c < q ==> (c + 1) * d <= q * d;
    assert c > q ==> (q + 1) * d <= c * d;
  }

  lemma ConcatAssoc<T>(a: seq<T>, b: seq<T>, c: seq<T>)
    ensures a + b + c == a + (b + c)
  {
  }

  lemma CutAt<T>(s: seq<T>, from: nat, to: nat)
    requires from <= to <= |s|
    ensures s[..to] == s[..from] + s[from..to]
  {
  }

  function Concat<T>(parts: seq<seq<T>>): seq<T> {
    if parts == [] then [] else Concat(parts[..|parts| - 1]) + parts[|parts| - 1]
  }

  lemma {:induction false} ConcatSnoc<T>(parts: seq<seq<T>>, last: seq<T>)
    ensures Concat(parts + [last]) == Concat(parts) + last
  {
    assert (parts + [last])[..|parts|] == parts;
  }
}
