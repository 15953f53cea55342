/**
 The bit tricks of the allocator, on unbounded naturals: `x & ~m`, `x & -x`
 and `x & (x - 1)` are defined bit by bit, and the arithmetic meaning the
 allocator relies on is proved from those definitions.
 */
module Bits {

  /** True of 1, 2, 4, 8, ... */
  predicate IsPow2(n: nat) {
    n == 1 || (n > 0 && n % 2 == 0 && IsPow2(n / 2))
  }

  /** Bitwise `x & ~m`. */
  function AndNot(x: nat, m: nat): nat {
    if x == 0 then 0
    else 2 * AndNot(x / 2, m / 2) + (if x % 2 == 1 && m % 2 == 0 then 1 else 0)
  }

  /** Bitwise `x & y`. */
  function And(x: nat, y: nat): nat {
    if x == 0 then 0
    else 2 * And(x / 2, y / 2) + (if x % 2 == 1 && y % 2 == 1 then 1 else 0)
  }

  /** `x & -x` in two's complement: `-x` is `~(x - 1)`. */
  function LowestBit(x: nat): nat {
    if x == 0 then 0 else AndNot(x, x - 1)
  }

  /** `x & ~(m - 1)` */
  function AlignDown(x: nat, m: nat): nat
    requires m > 0
  {
    AndNot(x, m - 1)
  }

  /** `(x + m - 1) & ~(m - 1)` */
  function AlignUp(x: nat, m: nat): nat
    requires m > 0
  {
    AndNot(x + m - 1, m - 1)
  }

  // ---- division facts ----

  lemma ProductAtLeast(k: int, m: int)
    requires k >= 1 && m > 0
    ensures k * m >= m
  {
    assert k * m == (k - 1) * m + m;
  }

  lemma Factor(a: int, b: int, m: int)
    ensures a * m - b * m == (a - b) * m
  {}

  lemma DivModUnique(x: int, m: int, q: int, r: int)
    requires m > 0 && 0 <= r < m && x == q * m + r
    ensures x / m == q && x % m == r
  {
    var q', r' := x / m, x % m;
    assert q' * m + r' == q * m + r;
    Factor(q, q', m);
    Factor(q', q, m);
    if q > q' {
      ProductAtLeast(q - q', m);
      assert false;
    } else if q < q' {
      ProductAtLeast(q' - q, m);
      assert false;
    }
  }

  lemma RemoveRest(x: int, m: int)
    requires m > 0
    ensures (x - x % m) % m == 0
  {
    var q, r := x / m, x % m;
    assert x == q * m + r;
    DivModUnique(x - r, m, q, 0);
  }

  lemma MultipleSum(a: int, b: int, m: int)
    requires m > 0 && a % m == 0 && b % m == 0
    ensures (a + b) % m == 0 && (a - b) % m == 0
  {
    assert a == (a / m) * m && b == (b / m) * m;
    assert a + b == (a / m + b / m) * m;
    assert a - b == (a / m - b / m) * m;
    DivModUnique(a + b, m, a / m + b / m, 0);
    DivModUnique(a - b, m, a / m - b / m, 0);
  }

  /** Distinct multiples of m are at least m apart. */
  lemma MultipleGap(a: int, b: int, m: int)
    requires m > 0 && a % m == 0 && b % m == 0 && a < b
    ensures a + m <= b
  {
    MultipleSum(b, a, m);
    if b - a < m {
      DivModUnique(b - a, m, 0, b - a);
      assert false;
    }
  }

  lemma MultipleTrans(a: int, m: int, n: int)
    requires m > 0 && n > 0 && a % n == 0 && n % m == 0
    ensures a % m == 0
  {
    var k, l := a / n, n / m;
    assert a == k * n && n == l * m;
    assert a == (k * l) * m by { assert k * (l * m) == (k * l) * m; }
    DivModUnique(a, m, k * l, 0);
  }

  // ---- powers of two ----

  lemma {:induction false} Pow2Product(a: nat, b: nat)
    requires IsPow2(a) && IsPow2(b)
    ensures IsPow2(a * b)
  {
    if b > 1 {
      Pow2Product(a, b / 2);
      assert a * b == 2 * (a * (b / 2));
      assert (2 * (a * (b / 2))) % 2 == 0 && (2 * (a * (b / 2))) / 2 == a * (b / 2);
    }
  }

  lemma {:induction false} Pow2Divides(a: nat, b: nat)
    requires IsPow2(a) && IsPow2(b) && a <= b
    ensures b % a == 0
  {
    if a == 1 {
    } else {
      Pow2Divides(a / 2, b / 2);
      assert a == 2 * (a / 2) && b == 2 * (b / 2);
      var k := (b / 2) / (a / 2);
      assert b / 2 == k * (a / 2);
      assert b == k * a;
      DivModUnique(b, a, k, 0);
    }
  }

  // ---- the masks ----

  lemma {:induction false} AndNotZero(x: nat)
    ensures AndNot(x, 0) == x
  {
    if x > 0 { AndNotZero(x / 2); }
  }

  lemma OddMask(x: nat, h: nat)
    requires h > 0
    ensures AndNot(x, 2 * h - 1) == 2 * AndNot(x / 2, h - 1)
  {
    assert (2 * h - 1) % 2 == 1 && (2 * h - 1) / 2 == h - 1;
  }

  lemma HalfMod(x: nat, h: nat)
    requires h > 0
    ensures x % (2 * h) == 2 * ((x / 2) % h) + x % 2
  {
    var q, r := (x / 2) / h, (x / 2) % h;
    assert x / 2 == q * h + r;
    assert 2 * (q * h) == q * (2 * h);
    DivModUnique(x, 2 * h, q, 2 * r + x % 2);
  }

  lemma MaskStep(x: nat, h: nat)
    requires h > 0
    requires AndNot(x / 2, h - 1) == x / 2 - (x / 2) % h
    ensures AndNot(x, 2 * h - 1) == x - x % (2 * h)
  {
    OddMask(x, h);
    var r := (x / 2) % h;
    HalfMod(x, h);
    assert x == 2 * (x / 2) + x % 2;
  }

  /** Clearing the low bits of x rounds down to a multiple of m. */
  lemma {:induction false} MaskRoundsDown(x: nat, m: nat)
    requires IsPow2(m)
    ensures AndNot(x, m - 1) == x - x % m
    decreases m
  {
    if m == 1 {
      AndNotZero(x);
    } else if x == 0 {
      DivModUnique(0, m, 0, 0);
    } else {
      MaskRoundsDown(x / 2, m / 2);
      MaskStep(x, m / 2);
    }
  }

  /** AlignDown(x, m) is the multiple of m in (x - m, x]. */
  lemma AlignDownMeans(x: nat, m: nat)
    requires IsPow2(m)
    ensures AlignDown(x, m) == x - x % m
    ensures AlignDown(x, m) <= x < AlignDown(x, m) + m
    ensures AlignDown(x, m) % m == 0
  {
    MaskRoundsDown(x, m);
    RemoveRest(x, m);
  }

  /** AlignUp(x, m) is the multiple of m in [x, x + m). */
  lemma AlignUpMeans(x: nat, m: nat)
    requires IsPow2(m)
    ensures x <= AlignUp(x, m) < x + m
    ensures AlignUp(x, m) % m == 0
  {
    AlignDownMeans(x + m - 1, m);
  }

  /** A multiple of m rounds to itself. */
  lemma AlignUpFixed(x: nat, m: nat)
    requires IsPow2(m) && x % m == 0
    ensures AlignUp(x, m) == x
  {
    AlignUpMeans(x, m);
    if x < AlignUp(x, m) { MultipleGap(x, AlignUp(x, m), m); }
  }

  /** The power-of-two test `a == (a & -a)` accepts exactly the powers of two. */
  lemma {:induction false} LowestBitTest(a: nat)
    requires a > 0
    ensures a == LowestBit(a) <==> IsPow2(a)
  {
    if a % 2 == 1 {
      AndNotSelf(a / 2);
      assert (a - 1) / 2 == a / 2;
    } else {
      LowestBitTest(a / 2);
      assert (a - 1) / 2 == a / 2 - 1;
    }
  }

  lemma {:induction false} AndNotSelf(x: nat)
    ensures AndNot(x, x) == 0
  {
    if x > 0 { AndNotSelf(x / 2); }
  }

  lemma {:induction false} AndSelf(x: nat)
    ensures And(x, x) == x
  {
    if x > 0 { AndSelf(x / 2); }
  }

  /** `a & (a - 1)` removes one bit: it is smaller, keeps every power of two
      at or below a reachable, and is 0 exactly for the powers of two. */
  lemma {:induction false} ClearLowestBit(a: nat)
    requires a > 0
    ensures And(a, a - 1) < a
    ensures And(a, a - 1) == 0 <==> IsPow2(a)
    ensures forall g: nat :: IsPow2(g) && g <= a < 2 * g && g != a ==> g <= And(a, a - 1) < 2 * g
  {
    if a % 2 == 1 {
      assert (a - 1) / 2 == a / 2;
      AndSelf(a / 2);
      assert And(a, a - 1) == 2 * (a / 2) == a - 1;
    } else {
      ClearLowestBit(a / 2);
      assert (a - 1) / 2 == a / 2 - 1;
      assert And(a, a - 1) == 2 * And(a / 2, a / 2 - 1);
      forall g: nat | IsPow2(g) && g <= a < 2 * g && g != a
        ensures g <= And(a, a - 1) < 2 * g
      {
        assert g != 1;
        assert IsPow2(g / 2) && g / 2 <= a / 2 < g;
      }
    }
  }

  /** The greatest power of two not above a. */
  function LeadingPower(a: nat): (g: nat)
    requires a > 0
    ensures IsPow2(g) && g <= a < 2 * g
  {
    if a == 1 then 1 else 2 * LeadingPower(a / 2)
  }

  lemma LeadingPowerIsGreatest(a: nat, g: nat)
    requires a > 0 && IsPow2(g) && g <= a
    ensures g <= LeadingPower(a)
  {
    var l := LeadingPower(a);
    if g > l { Pow2Divides(l, g); DivModUnique(l, l, 1, 0); MultipleGap(l, g, l); }
  }

  /** The loop of duma.c that shrinks the default alignment for small blocks:
      clearing lowest bits stops at the greatest power of two not above `size`. */
  method NextLowerPowerOf2(size: nat) returns (a: nat)
    requires size > 0
    ensures a == LeadingPower(size)
  {
    a := size;
    ghost var lead := LeadingPower(size);
    while And(a, a - 1) != 0
      invariant 0 < a <= size
      invariant lead <= a < 2 * lead
      decreases a
    {
      ClearLowestBit(a);
      a := And(a, a - 1);
    }
    ClearLowestBit(a);
    SameLead(a, lead);
  }

  lemma SameLead(a: nat, g: nat)
    requires IsPow2(a) && IsPow2(g) && g <= a < 2 * g
    ensures a == g
  {
    Pow2Divides(g, a);
    if a != g { DivModUnique(g, g, 1, 0); MultipleGap(g, a, g); }
  }
}
