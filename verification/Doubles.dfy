/** Whole numbers as doubles: those with at most 53 significant bits are represented exactly. */
module Doubles {
  const TWO_TO_53: int := 9_007_199_254_740_992

  function Abs(n: int): nat {
    if n >= 0 then n else -n
  }

  /** What remains when all factors of two are taken out. */
  function OddPart(n: nat): nat {
    if n == 0 then 0 else if n % 2 == 0 then OddPart(n / 2) else n
  }

  predicate Representable(n: int) {
    OddPart(Abs(n)) < TWO_TO_53
  }

  /** Rounding to doubles gives doubles, and leaves doubles alone. */
  ghost predicate Rounds(d: int -> int) {
    forall n: int :: Representable(d(n)) && (Representable(n) ==> d(n) == n)
  }

  lemma {:induction false} OddPartIsSmaller(n: nat)
    ensures OddPart(n) <= n
  {
    if n > 0 && n % 2 == 0 {
      OddPartIsSmaller(n / 2);
    }
  }

  lemma SmallIsRepresentable(n: int)
    requires Abs(n) <= TWO_TO_53
    ensures Representable(n)
  {
    var m := Abs(n);
    OddPartIsSmaller(m);
    if m == TWO_TO_53 {
      OddPartIsSmaller(m / 2);
    }
  }

  /** The odd part of a divisor is not greater. */
  lemma {:induction false} OddPartOfFactor(a: nat, b: nat)
    requires a > 0 && b > 0
    ensures OddPart(a) <= OddPart(a * b)
    decreases a + b
  {
    if a % 2 == 0 {
      HalfOfProduct(a, b);
      OddPartOfFactor(a / 2, b);
    } else if b % 2 == 0 {
      HalfOfProduct(b, a);
      OddPartOfFactor(a, b / 2);
    } else {
      OddTimesOdd(a, b);
    }
  }

  lemma HalfOfProduct(a: nat, b: nat)
    requires a > 0 && b > 0 && a % 2 == 0
    ensures a * b > 0 && a * b % 2 == 0 && a * b / 2 == a / 2 * b && b * a == a * b
  {
    var h := a / 2;
    assert a * b == (h + h) * b == h * b + h * b;
    assert h * b > 0;
  }

  lemma OddTimesOdd(a: nat, b: nat)
    requires a % 2 == 1 && b % 2 == 1
    ensures a * b % 2 == 1 && a * b >= a
  {
    var h := b / 2;
    assert a * b == a * (h + h + 1) == a * h + a * h + a;
    assert a * h >= 0;
  }

  /** What divides a double is a double. */
  lemma FactorIsRepresentable(n: int, f: nat)
    requires f > 0 && Representable(n * f)
    ensures Representable(n)
  {
    if n != 0 {
      OddPartOfFactor(Abs(n), f);
      assert Abs(n * f) == Abs(n) * f by {
        assert -(n * f) == -n * f;
      }
    }
  }

  // ---------------------------------------------------------------------------------------------------------
  // Rounding to the nearest double, ties to even
  // ---------------------------------------------------------------------------------------------------------

  /** Distance of neighbouring doubles at `n`: the least power of two of which `n` is less than 2^53 times. */
  function Quantum(n: nat): (q: nat)
    ensures q > 0 && n < TWO_TO_53 * q
  {
    if n < TWO_TO_53 then 1 else 2 * Quantum(n / 2)
  }

  /** A quotient rounded to the nearest whole number, ties to even. */
  function RoundedQuotient(n: nat, q: nat): (k: nat)
    requires q > 0
    ensures n / q <= k <= n / q + 1
    ensures n % q == 0 ==> k == n / q
  {
    var k, rest := n / q, n % q;
    if 2 * rest < q || (2 * rest == q && k % 2 == 0) then k else k + 1
  }

  /** How many times the distance. */
  function NearestCount(n: nat): nat {
    RoundedQuotient(n, Quantum(n))
  }

  function NearestNat(n: nat): (r: nat) {
    NearestCount(n) * Quantum(n)
  }

  function Nearest(n: int): int {
    if n >= 0 then NearestNat(n) else 0 - NearestNat(-n)
  }

  /** Doubling leaves the odd part alone, and so does multiplication with a distance of doubles. */
  lemma {:induction false} OddPartTimesQuantum(k: nat, n: nat)
    ensures OddPart(k * Quantum(n)) == OddPart(k)
    decreases n
  {
    if n >= TWO_TO_53 {
      OddPartTimesQuantum(k, n / 2);
      OddPartOfTwice(k, Quantum(n / 2));
    }
  }

  lemma OddPartOfTwice(k: nat, q: nat)
    ensures OddPart(k * (2 * q)) == OddPart(k * q)
  {
    assert k * (2 * q) == 2 * (k * q);
  }

  lemma QuotientBelow(n: nat, q: nat)
    requires q > 0 && n < TWO_TO_53 * q
    ensures n / q < TWO_TO_53
  {
    var k := n / q;
    assert n == k * q + n % q;
    assert k >= TWO_TO_53 ==> k * q >= TWO_TO_53 * q;
  }

  /** A double is a multiple of the distance. */
  lemma {:induction false} RepresentableIsMultiple(n: nat)
    requires OddPart(n) < TWO_TO_53
    ensures n % Quantum(n) == 0
    decreases n
  {
    if n >= TWO_TO_53 {
      OddIsItsOddPart(n);
      RepresentableIsMultiple(n / 2);
      TwiceAMultiple(n / 2, Quantum(n / 2));
    }
  }

  lemma OddIsItsOddPart(n: nat)
    requires n > 0 && OddPart(n) < n
    ensures n % 2 == 0 && OddPart(n / 2) == OddPart(n) && n == 2 * (n / 2)
  {
  }

  lemma TwiceAMultiple(h: nat, q: nat)
    requires q > 0 && h % q == 0
    ensures 2 * h % (2 * q) == 0
  {
    var m := h / q;
    assert 2 * h == 2 * (m * q) == m * (2 * q);
    MultipleOf(m, 2 * q);
  }

  lemma MultipleOf(m: nat, q: nat)
    requires q > 0
    ensures m * q % q == 0
  {
    var r, d := m * q % q, m - m * q / q;
    assert d * q == r;
    assert d >= 1 ==> d * q >= q;
  }

  lemma NearestRoundsNat(n: nat)
    ensures OddPart(NearestNat(n)) < TWO_TO_53
    ensures OddPart(n) < TWO_TO_53 ==> NearestNat(n) == n
  {
    QuotientBelow(n, Quantum(n));
    SmallIsRepresentable(NearestCount(n));
    OddPartTimesQuantum(NearestCount(n), n);
    if OddPart(n) < TWO_TO_53 {
      RepresentableIsMultiple(n);
      WholeQuotient(n, Quantum(n));
    }
  }

  lemma WholeQuotient(n: nat, q: nat)
    requires q > 0 && n % q == 0
    ensures n / q * q == n
  {
  }

  lemma NearestRounds()
    ensures Rounds(Nearest)
  {
    forall n: int ensures Representable(Nearest(n)) && (Representable(n) ==> Nearest(n) == n) {
      NearestRoundsNat(Abs(n));
    }
  }

  /** The first whole number without a double, and the one it is taken for. */
  lemma FirstGap()
    ensures !Representable(TWO_TO_53 + 1) && Nearest(TWO_TO_53 + 1) == TWO_TO_53
  {
    var n := TWO_TO_53 + 1;
    assert n / 2 == 4_503_599_627_370_496;
    assert Quantum(n / 2) == 1 && Quantum(n) == 2;
  }
}
