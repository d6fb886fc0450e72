/** C integers as mathematical integers.

    An `int` or a `long long` is the integer it denotes, `Xor` is exclusive or on
    two's complement numbers of any width (sign extension is then the identity),
    and `Wrap(v, bits)` is the value kept by a conversion to a signed type of that
    width. */
module Words {

  const INT_BITS := 32
  const LONG_BITS := 64

  function Pow2(k: nat): (r: int)
    ensures r > 0
  {
    if k == 0 then 1 else 2 * Pow2(k - 1)
  }

  function Magnitude(a: int): nat {
    if a >= 0 then a else -a - 1
  }

  // The two numbers all of whose bits are equal.
  predicate Flat(a: int) {
    a == 0 || a == -1
  }

  function Xor(a: int, b: int): int
    decreases Magnitude(a) + Magnitude(b)
  {
    if Flat(a) && Flat(b) then
      if a == b then 0 else -1
    else
      2 * Xor(a / 2, b / 2) + (if a % 2 == b % 2 then 0 else 1)
  }

  // Conversion to a signed type of `bits` bits: the low bits, the top one being the sign.
  function Wrap(v: int, bits: nat): int
    requires bits > 0
    decreases bits
  {
    if bits == 1 then -(v % 2) else 2 * Wrap(v / 2, bits - 1) + v % 2
  }

  function ToInt(v: int): int {
    Wrap(v, INT_BITS)
  }

  predicate InRange(v: int, bits: nat)
    requires bits > 0
  {
    -Pow2(bits - 1) <= v < Pow2(bits - 1)
  }

  // `r = 0; for v in vs: r ^= v`, without any truncation.
  function XorAll(vs: seq<int>): int {
    if vs == [] then 0 else Xor(XorAll(vs[..|vs| - 1]), vs[|vs| - 1])
  }

  // What `f` makes of each part, as an int.
  function Ints<T>(f: T -> int, parts: seq<T>): (vs: seq<int>)
    ensures |vs| == |parts|
  {
    seq(|parts|, i requires 0 <= i < |parts| => ToInt(f(parts[i])))
  }

  // ------------------------------------------------------------ laws of Xor

  lemma {:induction false} XorBits(a: int, b: int)
    ensures Xor(a, b) % 2 == (if a % 2 == b % 2 then 0 else 1)
    ensures Xor(a, b) / 2 == Xor(a / 2, b / 2)
  {
  }

  lemma {:induction false} XorComm(a: int, b: int)
    ensures Xor(a, b) == Xor(b, a)
    decreases Magnitude(a) + Magnitude(b)
  {
    if !(Flat(a) && Flat(b)) {
      XorComm(a / 2, b / 2);
    }
  }

  lemma {:induction false} XorZero(a: int)
    ensures Xor(a, 0) == a == Xor(0, a)
    decreases Magnitude(a)
  {
    if !Flat(a) {
      XorZero(a / 2);
    }
  }

  lemma {:induction false} XorSelf(a: int)
    ensures Xor(a, a) == 0
    decreases Magnitude(a)
  {
    if !Flat(a) {
      XorSelf(a / 2);
    }
  }

  lemma {:induction false} Halves(a: int)
    ensures Magnitude(a / 2) <= Magnitude(a)
    ensures !Flat(a) ==> Magnitude(a / 2) < Magnitude(a)
  {
  }

  lemma {:induction false} XorAssoc(a: int, b: int, c: int)
    ensures Xor(Xor(a, b), c) == Xor(a, Xor(b, c))
    decreases Magnitude(a) + Magnitude(b) + Magnitude(c)
  {
    if Flat(a) && Flat(b) && Flat(c) {
      XorAssocFlat(a, b, c);
    } else {
      hide Xor, Magnitude;
      Halves(a);
      Halves(b);
      Halves(c);
      XorAssoc(a / 2, b / 2, c / 2);
      XorBits(a, b);
      XorBits(b, c);
      XorBits(Xor(a, b), c);
      XorBits(a, Xor(b, c));
      SameBits(Xor(Xor(a, b), c), Xor(a, Xor(b, c)));
    }
  }

  lemma {:induction false} SameBits(v: int, w: int)
    requires v / 2 == w / 2 && v % 2 == w % 2
    ensures v == w
  {
  }

  lemma {:induction false} XorAssocFlat(a: int, b: int, c: int)
    requires Flat(a) && Flat(b) && Flat(c)
    ensures Xor(Xor(a, b), c) == Xor(a, Xor(b, c))
  {
  }

  lemma {:induction false} XorAllSnoc(vs: seq<int>, v: int)
    ensures XorAll(vs + [v]) == Xor(XorAll(vs), v)
  {
    assert (vs + [v])[..|vs|] == vs;
  }

  lemma {:induction false} XorAllConcat(a: seq<int>, b: seq<int>)
    ensures XorAll(a + b) == Xor(XorAll(a), XorAll(b))
  {
    if b == [] {
      assert a + b == a;
      XorZero(XorAll(a));
    } else {
      var m := |b| - 1;
      XorAllConcat(a, b[..m]);
      assert a + b == (a + b[..m]) + [b[m]];
      XorAllSnoc(a + b[..m], b[m]);
      XorAssoc(XorAll(a), XorAll(b[..m]), b[m]);
    }
  }

  // ------------------------------------------------------------ laws of Wrap

  // Wrap is what the C conversion promises: the number of the target range that is
  // congruent to `v` modulo two to the power of the width.
  lemma {:induction false} WrapIsConversion(v: int, bits: nat) returns (k: int)
    requires bits > 0
    ensures InRange(Wrap(v, bits), bits)
    ensures v == Wrap(v, bits) + k * Pow2(bits)
    decreases bits
  {
    if bits == 1 {
      k := (v + v % 2) / 2;
    } else {
      var h := WrapIsConversion(v / 2, bits - 1);
      k := h;
      assert h * Pow2(bits) == 2 * (h * Pow2(bits - 1));
    }
  }

  lemma {:induction false} WrapInRange(v: int, bits: nat)
    requires bits > 0 && InRange(v, bits)
    ensures Wrap(v, bits) == v
    decreases bits
  {
    if bits > 1 {
      WrapInRange(v / 2, bits - 1);
    }
  }

  lemma {:induction false} Pow2Grows(j: nat, k: nat)
    requires j <= k
    ensures Pow2(j) <= Pow2(k)
  {
    if j < k {
      Pow2Grows(j, k - 1);
    }
  }

  lemma {:induction false} Pow2Sum(j: nat, k: nat)
    ensures Pow2(j + k) == Pow2(j) * Pow2(k)
  {
    if j > 0 {
      Pow2Sum(j - 1, k);
    }
  }

  lemma {:induction false} Powers()
    ensures Pow2(31) == 0x8000_0000 && Pow2(32) == 0x1_0000_0000
    ensures Pow2(63) == 0x8000_0000_0000_0000
  {
    assert Pow2(8) == 0x100;
    Pow2Sum(8, 8);
    Pow2Sum(16, 16);
    Pow2Sum(31, 1);
    Pow2Sum(31, 32);
  }

  // The low 32 bits, as a signed number.
  lemma {:induction false} IntIsLow32(v: int)
    ensures -0x8000_0000 <= ToInt(v) < 0x8000_0000
    ensures (v - ToInt(v)) % 0x1_0000_0000 == 0
  {
    hide Wrap, Pow2;
    Powers();
    var k := WrapIsConversion(v, 32);
  }

  // Nothing else has that range and those bits.
  lemma {:induction false} IntIsUnique(v: int, r: int)
    requires -0x8000_0000 <= r < 0x8000_0000
    requires (v - r) % 0x1_0000_0000 == 0
    ensures r == ToInt(v)
  {
    hide ToInt;
    IntIsLow32(v);
  }

  lemma {:induction false} ToIntZero()
    ensures ToInt(0) == 0
  {
    WrapInRange(0, INT_BITS);
  }

  lemma {:induction false} WrapXor(a: int, b: int, bits: nat)
    requires bits > 0
    ensures Wrap(Xor(a, b), bits) == Xor(Wrap(a, bits), Wrap(b, bits))
    decreases bits
  {
    XorBits(a, b);
    if bits > 1 {
      WrapXor(a / 2, b / 2, bits - 1);
      var wa, wb := Wrap(a, bits), Wrap(b, bits);
      assert wa / 2 == Wrap(a / 2, bits - 1) && wa % 2 == a % 2;
      assert wb / 2 == Wrap(b / 2, bits - 1) && wb % 2 == b % 2;
      XorBits(wa, wb);
    }
  }

  lemma {:induction false} WrapTwice(v: int, bits: nat)
    requires bits > 0
    ensures Wrap(Wrap(v, bits), bits) == Wrap(v, bits)
  {
    var _ := WrapIsConversion(v, bits);
    WrapInRange(Wrap(v, bits), bits);
  }
}
