/**
 The number printers of print.c: digits are written backwards into a local buffer
 of one character per bit of the word, plus the terminator.
 */
module Print {
  import opened Bits
  import opened Wrappers

  /** One digit, as the printers write it. */
  function DigitChar(d: nat): char
    requires d < 36
  {
    if d < 10 then ('0' as int + d) as char else ('a' as int + d - 10) as char
  }

  function DigitValue(ch: char): nat {
    if '0' <= ch <= '9' then ch as int - '0' as int
    else if 'a' <= ch <= 'z' then ch as int - 'a' as int + 10
    else 0
  }

  /** The numeral of v. */
  function Numeral(v: nat, base: nat): string
    requires 2 <= base <= 36
    decreases v
  {
    if v < base then [DigitChar(v)] else Smaller(v, base); Numeral(v / base, base) + [DigitChar(v % base)]
  }

  lemma Smaller(v: nat, base: nat)
    requires 2 <= base
    ensures v > 0 ==> v / base < v
  {
    var q := v / base;
    assert v == q * base + v % base;
    if q > 0 { assert q * base == q + q * (base - 1); ProductAtLeast(q, base - 1); }
  }

  /** Reading a numeral, most significant digit first. */
  function Read(s: string, base: nat): nat {
    if s == [] then 0 else Read(s[..|s| - 1], base) * base + DigitValue(s[|s| - 1])
  }

  function Power(base: nat, n: nat): nat {
    if n == 0 then 1 else base * Power(base, n - 1)
  }

  /** What is printed reads back as the number. */
  lemma {:induction false} ReadsBack(v: nat, base: nat)
    requires 2 <= base <= 36
    ensures Read(Numeral(v, base), base) == v
    decreases v
  {
    if v < base {
      ReadAppend([], v, base);
      assert [] + [DigitChar(v)] == [DigitChar(v)];
    } else {
      Smaller(v, base);
      ReadsBack(v / base, base);
      ReadAppend(Numeral(v / base, base), v % base, base);
      LeadingDigits(v, base);
    }
  }

  /** It is not empty and has no leading zero, unless it is the number zero. */
  lemma {:induction false} NoLeadingZero(v: nat, base: nat)
    requires 2 <= base <= 36
    ensures |Numeral(v, base)| > 0 && (Numeral(v, base)[0] == '0' <==> v == 0)
    decreases v
  {
    if v >= base {
      Smaller(v, base);
      LeadingDigits(v, base);
      NoLeadingZero(v / base, base);
    }
  }

  lemma LeadingDigits(v: nat, base: nat)
    requires 2 <= base <= v
    ensures v / base > 0 && v == (v / base) * base + v % base
  {
    var q := v / base;
    assert v == q * base + v % base;
    assert q <= 0 ==> q * base <= 0;
  }

  lemma ReadAppend(s: string, d: nat, base: nat)
    requires d < base <= 36
    ensures Read(s + [DigitChar(d)], base) == Read(s, base) * base + d
  {
    var t := s + [DigitChar(d)];
    assert t[..|t| - 1] == s;
  }

  /** n digits suffice exactly for the numbers below base^n. */
  lemma {:induction false} NumeralLength(v: nat, base: nat, n: nat)
    requires 2 <= base <= 36 && n > 0
    ensures |Numeral(v, base)| <= n <==> v < Power(base, n)
    decreases v
  {
    if n == 1 {
      assert Power(base, 1) == base;
      if v >= base { NumeralNotEmpty(v / base, base); }
    } else if v < base {
      PowerAtLeast(base, n);
    } else {
      Smaller(v, base);
      NumeralLength(v / base, base, n - 1);
      Scale(v, base, Power(base, n - 1));
    }
  }

  lemma {:induction false} PowerAtLeast(base: nat, n: nat)
    requires base >= 2 && n > 0
    ensures Power(base, n) >= base
  {
    if n > 1 {
      PowerAtLeast(base, n - 1);
      ProductAtLeast(Power(base, n - 1), base);
      assert Power(base, n - 1) * base == base * Power(base, n - 1);
    }
  }

  lemma Scale(v: nat, base: nat, p: nat)
    requires base > 0
    ensures v / base < p <==> v < base * p
  {
    var q, r := v / base, v % base;
    assert v == q * base + r;
    assert base * p == p * base;
    if q < p {
      Factor(p, q, base);
      ProductAtLeast(p - q, base);
    } else {
      Factor(q, p, base);
      if q > p { ProductAtLeast(q - p, base); }
    }
  }

  lemma {:induction false} PowerMonotone(a: nat, b: nat, n: nat)
    requires a <= b
    ensures Power(a, n) <= Power(b, n)
  {
    if n > 0 {
      PowerMonotone(a, b, n - 1);
      Products(a, b, Power(a, n - 1), Power(b, n - 1));
    }
  }

  lemma Products(a: nat, b: nat, x: nat, y: nat)
    requires a <= b && x <= y
    ensures a * x <= b * y
  {
    Less(a, b, x);
    Less(x, y, b);
  }

  lemma Less(a: nat, b: nat, x: nat)
    requires a <= b
    ensures a * x <= b * x
  {
    Factor(b, a, x);
  }

  /** 2^n <= 3^(n-1) from n = 3 on. */
  lemma {:induction false} ThreeBeatsTwo(n: nat)
    requires n >= 3
    ensures Power(2, n) <= Power(3, n - 1)
  {
    if n == 3 {
      assert Power(2, 3) == 8 && Power(3, 2) == 9 by {
        assert Power(2, 2) == 4 && Power(2, 1) == 2 && Power(3, 1) == 3;
      }
    } else {
      ThreeBeatsTwo(n - 1);
    }
  }

  /** The local buffer has one character per bit of the word, but the last free one is
      given up by the test, so one digit less than that fits. */
  predicate Prints(value: nat, base: nat, bits: nat)
    requires 2 <= base <= 36
  {
    |Numeral(value, base)| < bits
  }

  /** The internal error is unreachable for every word in every base from 3 on, in
      particular 10 and 16, the only ones DUMA uses. In base 2, for which the buffer is
      meant to be long enough, it is reached exactly by the words with the top bit set. */
  lemma PrintsEveryWord(value: nat, base: nat, bits: nat)
    requires 2 <= base <= 36 && bits >= 3 && value < Power(2, bits)
    ensures Prints(value, base, bits) <==> base > 2 || value < Power(2, bits - 1)
  {
    NumeralLength(value, base, bits - 1);
    if base > 2 {
      ThreeBeatsTwo(bits);
      PowerMonotone(3, base, bits - 1);
    }
  }

  /** The last digit, and what is left to print. */
  method SplitDigit(v: nat, base: nat) returns (digit: char, rest: nat)
    requires 2 <= base <= 36
    ensures Numeral(v, base) == (if rest > 0 then Numeral(rest, base) else []) + [digit]
    ensures v > 0 ==> rest < v
    ensures v == 0 ==> rest == 0
  {
    digit, rest := DigitChar(v % base), v / base;
    Smaller(v, base);
    if v < base {
      DivModUnique(v, base, 0, v);
    } else {
      LeadingDigits(v, base);
    }
  }

  method PutDigit(buffer: array<char>, s: nat, end: nat, digit: char)
    requires s < end <= buffer.Length
    modifies buffer
    ensures buffer[s..end] == [digit] + old(buffer[s + 1..end])
  {
    buffer[s] := digit;
    assert buffer[s + 1..end] == old(buffer[s + 1..end]);
  }

  lemma Regroup(front: string, digit: char, tail: string)
    ensures front + [digit] + tail == front + ([digit] + tail)
  {}

  /** The digit loop on a buffer whose length includes the terminator: `s` moves down
      from the end; the result is the string at `s`, and its length. */
  method SprintAddr(value: nat, base: nat, bits: nat) returns (o: Outcome<(string, nat)>)
    requires 2 <= base <= 36 && bits > 0
    ensures o == if Prints(value, base, bits) then Done((Numeral(value, base), |Numeral(value, base)|))
                 else Abort(NumberTooLong)
  {
    var buffer := new char[bits + 1];
    var s := bits;
    var v: nat := value;
    var more := true;
    ghost var tail: string := [];
    assert Numeral(value, base) + [] == Numeral(value, base);
    while more
      invariant 0 < s <= bits && buffer[s..bits] == tail
      invariant Numeral(value, base) == (if more then Numeral(v, base) else []) + tail
      decreases more, v
    {
      s := s - 1;
      NumeralNotEmpty(v, base);
      if s == 0 {
        return Abort(NumberTooLong);
      }
      var digit, rest := SplitDigit(v, base);
      PutDigit(buffer, s, bits, digit);
      Regroup(if rest > 0 then Numeral(rest, base) else [], digit, tail);
      tail := [digit] + tail;
      v := rest;
      more := v > 0;
    }
    assert [] + tail == tail;
    o := Done((buffer[s..bits], bits - s));
  }

  lemma NumeralNotEmpty(v: nat, base: nat)
    requires 2 <= base <= 36
    ensures |Numeral(v, base)| > 0
  {}
}
