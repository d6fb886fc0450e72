/** Decimal text: `std::to_string(int)`, `std::stoi` and `std::stoll`. */
module Decimal {
  import opened Options
  import opened Files
  import opened Words

  function DigitChar(d: nat): char
    requires d < 10
  {
    '0' + d as char
  }

  predicate IsDigit(c: char) {
    '0' <= c <= '9'
  }

  predicate IsSpace(c: char) {
    c == ' ' || (9 as char <= c <= 13 as char)
  }

  function Digits(n: nat): string {
    if n < 10 then [DigitChar(n)] else Digits(n / 10) + [DigitChar(n % 10)]
  }

  function ToString(v: int): string {
    if v < 0 then "-" + Digits(-v) else Digits(v)
  }

  function SkipSpace(s: string): string {
    if s != [] && IsSpace(s[0]) then SkipSpace(s[1..]) else s
  }

  // The number written by the digits at the front of `s`, after `acc` to its left.
  function ReadDigits(s: string, acc: nat): nat {
    if s != [] && IsDigit(s[0]) then ReadDigits(s[1..], 10 * acc + (s[0] - '0') as nat) else acc
  }

  function ReadUnsigned(s: string): Option<nat> {
    if s != [] && IsDigit(s[0]) then Some(ReadDigits(s, 0)) else None
  }

  // White space, an optional sign, digits; whatever follows is ignored. None is the
  // exception `invalid_argument` (no digit) or `out_of_range`.
  function ParseInteger(s: string, bits: nat): (r: Option<int>)
    requires bits > 0
    ensures r.Some? ==> InRange(r.value, bits)
  {
    var t := SkipSpace(s);
    var negative := t != [] && t[0] == '-';
    var digits := if t != [] && (t[0] == '-' || t[0] == '+') then t[1..] else t;
    match ReadUnsigned(digits)
    case None => None
    case Some(n) =>
      var v := (if negative then -1 else 1) * n;
      if InRange(v, bits) then Some(v) else None
  }

  function Stoi(s: string): Option<int> {
    ParseInteger(s, INT_BITS)
  }

  function Stoll(s: string): Option<int> {
    ParseInteger(s, LONG_BITS)
  }

  // ------------------------------------------------------------ printing and parsing

  lemma {:induction false} ReadPrinted(n: nat, tail: string)
    ensures Digits(n) != [] && IsDigit(Digits(n)[0])
    ensures ReadDigits(Digits(n) + tail, 0) == ReadDigits(tail, n)
  {
    if n < 10 {
      assert (Digits(n) + tail)[1..] == tail;
    } else {
      var rest := [DigitChar(n % 10)] + tail;
      ReadPrinted(n / 10, rest);
      assert Digits(n) + tail == Digits(n / 10) + rest;
      assert rest[1..] == tail;
    }
  }

  lemma {:induction false} SkipLeadingSpace(space: string, s: string)
    requires forall i :: 0 <= i < |space| ==> IsSpace(space[i])
    requires s == [] || !IsSpace(s[0])
    ensures SkipSpace(space + s) == s
  {
    if space == [] {
      assert space + s == s;
    } else {
      assert (space + s)[1..] == space[1..] + s;
      SkipLeadingSpace(space[1..], s);
    }
  }

  // Parsing undoes printing: white space before the number and any text after it
  // that does not go on with a digit make no difference.
  lemma {:induction false} ParsePrinted(v: int, bits: nat, space: string, tail: string)
    requires bits > 0 && InRange(v, bits)
    requires forall i :: 0 <= i < |space| ==> IsSpace(space[i])
    requires tail == [] || !IsDigit(tail[0])
    ensures ParseInteger(space + ToString(v) + tail, bits) == Some(v)
  {
    var n: nat := if v < 0 then -v else v;
    var text := ToString(v) + tail;
    ReadsAsNumber(n, tail);
    hide Digits, ReadDigits, SkipSpace;
    ConcatAssoc(space, ToString(v), tail);
    if v < 0 {
      assert text[0] == '-';
      assert text[1..] == Digits(n) + tail;
    }
    SkipLeadingSpace(space, text);
  }

  lemma {:induction false} ReadsAsNumber(n: nat, tail: string)
    requires tail == [] || !IsDigit(tail[0])
    ensures Digits(n) != [] && IsDigit((Digits(n) + tail)[0])
    ensures ReadUnsigned(Digits(n) + tail) == Some(n)
  {
    ReadPrinted(n, tail);
    assert (Digits(n) + tail)[0] == Digits(n)[0];
    assert ReadDigits(tail, n) == n;
  }

  // ------------------------------------------------------------ what the text is

  // Decimal, most significant digit first, in the characters '0' to '9' of ASCII.
  lemma {:induction false} DigitsAreDecimal(n: nat)
    ensures n < 10 ==> |Digits(n)| == 1 && Digits(n)[0] as int == 48 + n
    ensures n >= 10 ==>
              var d := Digits(n);
              d[..|d| - 1] == Digits(n / 10) && d[|d| - 1] as int == 48 + n % 10
  {
    assert '0' as int == 48;
    if n >= 10 {
      assert Digits(n)[..|Digits(n)| - 1] == Digits(n / 10);
    }
  }

  lemma {:induction false} SignIsMinus(n: nat)
    ensures ToString(n) == Digits(n)
    ensures n > 0 ==> ToString(0 - n) == "-" + Digits(n)
  {
  }

  // The reference for reading: the number that decimal digits denote.
  predicate AreDigits(s: string) {
    forall i :: 0 <= i < |s| ==> 48 <= s[i] as int <= 57
  }

  function Denoted(s: string): nat
    requires AreDigits(s)
  {
    if s == [] then 0 else 10 * Denoted(s[..|s| - 1]) + (s[|s| - 1] as int - 48)
  }

  lemma {:induction false} NumberFrom(s: string, tail: string, acc: nat, k: nat)
    requires AreDigits(s) && k <= |s| && acc == Denoted(s[..k])
    requires tail == [] || !(48 <= tail[0] as int <= 57)
    ensures ReadDigits(s[k..] + tail, acc) == Denoted(s)
    decreases |s| - k
  {
    assert '0' as int == 48 && '9' as int == 57;
    if k == |s| {
      assert s[..k] == s && s[k..] + tail == tail;
    } else {
      assert s[..k + 1][..k] == s[..k];
      assert (s[k..] + tail)[1..] == s[k + 1..] + tail;
      NumberFrom(s, tail, 10 * acc + (s[k] as int - 48), k + 1);
    }
  }

  // White space is the characters 9 to 13 and 32, and nothing else.
  predicate AreSpaces(s: string) {
    forall i :: 0 <= i < |s| ==> s[i] as int == 32 || 9 <= s[i] as int <= 13
  }

  // All that `stoi` and `stoll` accept: white space, a sign or none, at least one digit,
  // and anything that does not go on with a digit. A number outside the type's range is
  // turned down.
  lemma {:induction false} ParsesNumber(space: string, sign: string, digits: string, tail: string, bits: nat)
    requires bits > 0 && AreSpaces(space) && sign in {"", "+", "-"}
    requires digits != [] && AreDigits(digits)
    requires tail == [] || !(48 <= tail[0] as int <= 57)
    ensures var v := if sign == "-" then 0 - Denoted(digits) else Denoted(digits);
            ParseInteger(space + sign + digits + tail, bits) == if InRange(v, bits) then Some(v) else None
  {
    hide *;
    var rest := digits + tail;
    ConcatAssoc(space, sign, digits);
    ConcatAssoc(space, sign + digits, tail);
    ConcatAssoc(sign, digits, tail);
    FirstIsDigit(digits);
    SignIsNoSpace(sign, rest, digits[0]);
    SpacesAreSkipped(space, sign + rest);
    assert digits[..0] == [] && digits[0..] == digits;
    NoDigitsYet();
    NumberFrom(digits, tail, 0, 0);
    ReadsAfterSign(space + (sign + rest), sign, rest, bits);
  }

  lemma FirstIsDigit(digits: string)
    requires digits != [] && AreDigits(digits)
    ensures 48 <= digits[0] as int <= 57
  {
  }

  lemma SpacesAreSkipped(space: string, text: string)
    requires AreSpaces(space) && (text == [] || !IsSpace(text[0]))
    ensures SkipSpace(space + text) == text
  {
    SkipLeadingSpace(space, text);
  }

  lemma SignIsNoSpace(sign: string, rest: string, digit: char)
    requires sign in {"", "+", "-"} && rest != [] && rest[0] == digit && 48 <= digit as int <= 57
    ensures sign + rest != [] && !IsSpace((sign + rest)[0])
  {
  }

  // What is read after the white space: a sign or none, and a digit next.
  lemma {:induction false} ReadsAfterSign(s: string, sign: string, rest: string, bits: nat)
    requires bits > 0 && SkipSpace(s) == sign + rest && sign in {"", "+", "-"}
    requires rest != [] && 48 <= rest[0] as int <= 57
    ensures var v := if sign == "-" then 0 - ReadDigits(rest, 0) else ReadDigits(rest, 0);
            ParseInteger(s, bits) == if InRange(v, bits) then Some(v) else None
  {
    hide ReadDigits, SkipSpace, InRange;
    assert '0' as int == 48 && '9' as int == 57;
    if sign != "" {
      assert (sign + rest)[0] == sign[0] && (sign + rest)[1..] == rest;
    } else {
      assert sign + rest == rest;
    }
  }

  lemma NoDigitsYet()
    ensures Denoted([]) == 0
  {
  }

  // And all that they turn down besides: white space, a sign or none, and no digit.
  lemma {:induction false} ParsesNothing(space: string, sign: string, tail: string, bits: nat)
    requires bits > 0 && AreSpaces(space) && sign in {"", "+", "-"}
    requires tail == [] || !(48 <= tail[0] as int <= 57)
    requires sign == "" && tail != [] ==> !AreSpaces(tail[..1]) && tail[0] != '+' && tail[0] != '-'
    ensures ParseInteger(space + sign + tail, bits) == None
  {
    var text := sign + tail;
    assert space + sign + tail == space + text;
    assert '0' as int == 48 && '9' as int == 57;
    if sign != "" {
      assert text[0] == sign[0] && text[1..] == tail;
    } else {
      assert text == tail;
      if tail != [] {
        assert tail[..1][0] == tail[0];
      }
    }
    SkipLeadingSpace(space, text);
  }

  // The ranges: 32 bits for `stoi`, 64 for `stoll`.
  lemma {:induction false} Ranges(v: int)
    ensures Stoi(ToString(v)) == if -0x8000_0000 <= v < 0x8000_0000 then Some(v) else None
    ensures Stoll(ToString(v)) == if -0x8000_0000_0000_0000 <= v < 0x8000_0000_0000_0000 then Some(v) else None
  {
    hide Digits, ReadDigits, SkipSpace;
    Powers();
    PrintedParses(v, 32);
    PrintedParses(v, 64);
  }

  lemma {:induction false} PrintedParses(v: int, bits: nat)
    requires bits > 0
    ensures ParseInteger(ToString(v), bits) == if InRange(v, bits) then Some(v) else None
  {
    var n: nat := if v < 0 then -v else v;
    ReadsAsNumber(n, "");
    hide Digits, ReadDigits, SkipSpace, InRange;
    assert Digits(n) + "" == Digits(n);
    if v < 0 {
      assert ToString(v)[0] == '-' && ToString(v)[1..] == Digits(n);
    }
    SkipLeadingSpace("", ToString(v));
    assert "" + ToString(v) == ToString(v);
  }

  // The worker's reply survives the trip through text: to_string, then stoi.
  lemma {:induction false} ResultTransport(v: int)
    requires InRange(v, INT_BITS)
    ensures Stoi(ToString(v)) == Some(v)
  {
    ParsePrinted(v, INT_BITS, "", "");
    assert "" + ToString(v) + "" == ToString(v);
  }
}
