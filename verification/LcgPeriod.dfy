/** The period of a linear congruential generator modulo a power of two (Hull and Dobell; Knuth,
    The Art of Computer Programming, vol. 2, section 3.2.1.2, Theorem A): with multiplier
    a = 1 mod 4 and odd increment c, the generator modulo 2^w has full period 2^w. */
module LcgPeriod {

  function Pow2(k: nat): (p: nat)
    ensures p >= 1
  {
    if k == 0 then 1 else 2 * Pow2(k - 1)
  }

  /** n steps of x -> a*x + c over the integers. */
  function Iterate(a: nat, c: nat, n: nat, x: nat): nat {
    if n == 0 then x else a * Iterate(a, c, n - 1, x) + c
  }

  /** n steps of the generator modulo m. */
  function Orbit(a: nat, c: nat, m: nat, n: nat, x: nat): nat
    requires m >= 1
  {
    if n == 0 then x else (a * Orbit(a, c, m, n - 1, x) + c) % m
  }

  lemma MulAssociates(p: int, r: int, q: int)
    ensures (p * r) * q == p * (r * q)
  {
  }

  /** x and y leave the same remainder, with the witness spelled out. */
  ghost predicate Congruent(x: int, y: int, m: nat) {
    exists q: int :: x == y + m * q
  }

  lemma CongruentIntro(x: int, y: int, m: nat, q: int)
    requires x == y + m * q
    ensures Congruent(x, y, m)
  {
  }

  lemma CongruentTrans(x: int, y: int, z: int, m: nat)
    requires Congruent(x, y, m) && Congruent(y, z, m)
    ensures Congruent(x, z, m)
  {
    var p: int :| x == y + m * p;
    var q: int :| y == z + m * q;
    assert m * (p + q) == m * p + m * q;
    CongruentIntro(x, z, m, p + q);
  }

  lemma CongruentSym(x: int, y: int, m: nat)
    requires Congruent(x, y, m)
    ensures Congruent(y, x, m)
  {
    var q: int :| x == y + m * q;
    assert m * -q == -(m * q);
    CongruentIntro(y, x, m, -q);
  }

  lemma CongruentMod(x: nat, m: nat)
    requires m >= 1
    ensures Congruent(x % m, x, m)
  {
    var q := x / m;
    assert x == m * q + x % m;
    assert m * -q == -(m * q);
    CongruentIntro(x % m, x, m, -q);
  }

  lemma CongruentAffine(a: int, c: int, x: int, y: int, m: nat)
    requires Congruent(x, y, m)
    ensures Congruent(a * x + c, a * y + c, m)
  {
    var q: int :| x == y + m * q;
    assert a * (y + m * q) == a * y + m * (a * q);
    CongruentIntro(a * x + c, a * y + c, m, a * q);
  }

  lemma {:induction false} SmallCongruent(x: nat, y: nat, m: nat)
    requires Congruent(x, y, m) && x < m && y < m
    ensures x == y
  {
    var q: int :| x == y + m * q;
    MultipleIsFar(m, q);
  }

  lemma MultipleIsFar(m: int, q: int)
    requires m >= 0
    ensures q >= 1 ==> m * q >= m
    ensures q <= -1 ==> m * q <= -m
  {
    if q >= 1 {
      assert m * q == m + m * (q - 1);
    } else if q <= -1 {
      assert m * q == -m - m * (-q - 1);
    }
  }

  /** The modular orbit is the integer iterate, up to the modulus. */
  lemma {:induction false} OrbitIsIterate(a: nat, c: nat, m: nat, n: nat, x: nat)
    requires m >= 1
    ensures Congruent(Orbit(a, c, m, n, x), Iterate(a, c, n, x), m)
    decreases n
  {
    if n == 0 {
      CongruentIntro(x, x, m, 0);
    } else {
      hide Congruent;
      OrbitIsIterate(a, c, m, n - 1, x);
      var o, i := Orbit(a, c, m, n - 1, x), Iterate(a, c, n - 1, x);
      CongruentAffine(a, c, o, i, m);
      CongruentMod(a * o + c, m);
      CongruentTrans((a * o + c) % m, a * o + c, a * i + c, m);
    }
  }

  lemma {:induction false} IterateAdds(a: nat, c: nat, n: nat, k: nat, x: nat)
    ensures Iterate(a, c, n + k, x) == Iterate(a, c, n, Iterate(a, c, k, x))
    decreases n
  {
    if n == 0 {
    } else {
      IterateAdds(a, c, n - 1, k, x);
    }
  }

  /** 2^k steps are one affine step x -> A*x + C. */
  ghost predicate IsAffine(a: nat, c: nat, n: nat, bigA: nat, bigC: nat) {
    forall x: nat :: Iterate(a, c, n, x) == bigA * x + bigC
  }

  lemma AffineDoubles(a: nat, c: nat, n: nat, bigA: nat, bigC: nat)
    requires IsAffine(a, c, n, bigA, bigC)
    ensures IsAffine(a, c, n + n, bigA * bigA, bigC * (bigA + 1))
  {
    forall x: nat ensures Iterate(a, c, n + n, x) == bigA * bigA * x + bigC * (bigA + 1) {
      IterateAdds(a, c, n, n, x);
      ComposeAffine(bigA, bigC, x);
    }
  }

  lemma ComposeAffine(bigA: nat, bigC: nat, x: nat)
    ensures bigA * (bigA * x + bigC) + bigC == bigA * bigA * x + bigC * (bigA + 1)
  {
    assert bigA * (bigA * x + bigC) == bigA * bigA * x + bigA * bigC;
    assert bigC * (bigA + 1) == bigA * bigC + bigC;
  }

  /** The heart of the theorem: A = 1 mod 2^(k+2), and C = 2^k times an odd number. */
  lemma {:induction false} PowerOfTwoSteps(a: nat, c: nat, k: nat) returns (u: nat, v: nat)
    requires a % 4 == 1 && c % 2 == 1
    ensures IsAffine(a, c, Pow2(k), 1 + 4 * Pow2(k) * u, Pow2(k) * (2 * v + 1))
    decreases k
  {
    if k == 0 {
      u, v := a / 4, c / 2;
      forall x: nat ensures Iterate(a, c, 1, x) == a * x + c {
        assert Iterate(a, c, 0, x) == x;
      }
    } else {
      var u0, v0 := PowerOfTwoSteps(a, c, k - 1);
      var p := Pow2(k - 1);
      var bigA, bigC := 1 + 4 * p * u0, p * (2 * v0 + 1);
      AffineDoubles(a, c, p, bigA, bigC);
      u := u0 + 2 * p * u0 * u0;
      v := v0 + p * u0 * (2 * v0 + 1);
      SquareOfOneModFour(p, u0);
      ProductStaysOdd(p, u0, v0);
    }
  }

  lemma SquareOfOneModFour(p: nat, u: nat)
    ensures (1 + 4 * p * u) * (1 + 4 * p * u) == 1 + 4 * (2 * p) * (u + 2 * p * u * u)
  {
    var t := p * u;
    assert (1 + 4 * t) * (1 + 4 * t) == 1 + 8 * t + 16 * (t * t);
    assert 4 * p * u == 4 * t;
    assert t * t == p * (p * u * u);
    assert 4 * (2 * p) * (u + 2 * p * u * u) == 8 * (p * u) + 16 * (p * (p * u * u));
  }

  lemma ProductStaysOdd(p: nat, u: nat, v: nat)
    ensures p * (2 * v + 1) * (1 + 4 * p * u + 1) == 2 * p * (2 * (v + p * u * (2 * v + 1)) + 1)
  {
    var t := p * u;
    var o := 2 * v + 1;
    assert 4 * p * u == 4 * t;
    assert p * u * o == t * o;
    assert 2 * (v + t * o) + 1 == o + 2 * (t * o);
    assert o * (2 + 4 * t) == 2 * o + 4 * (t * o);
    assert p * o * (2 + 4 * t) == p * (o * (2 + 4 * t));
    assert 2 * p * (o + 2 * (t * o)) == p * (2 * (o + 2 * (t * o)));
  }

  // ---------------------------------------------------------------- the period

  lemma ShiftIdentity(p: nat, u: nat, v: nat, x: nat)
    ensures (1 + 4 * p * u) * x + p * (2 * v + 1) == x + p + 2 * p * (2 * u * x + v)
  {
    var t := u * x;
    MulAssociates(4 * p, u, x);
    assert (1 + 4 * p * u) * x == x + 4 * p * u * x;
    assert 4 * p * t == 4 * (p * t);
    assert 2 * u * x == 2 * t;
    assert p * (2 * v + 1) == 2 * (p * v) + p;
    assert 2 * p * (2 * t + v) == 4 * (p * t) + 2 * (p * v);
  }

  /** 2^k steps add 2^k modulo 2^(k+1). */
  lemma PowerOfTwoStepsShift(a: nat, c: nat, k: nat, x: nat)
    requires a % 4 == 1 && c % 2 == 1
    ensures Congruent(Iterate(a, c, Pow2(k), x), x + Pow2(k), 2 * Pow2(k))
  {
    var u, v := PowerOfTwoSteps(a, c, k);
    hide Pow2;
    ShiftIdentity(Pow2(k), u, v, x);
    CongruentIntro(Iterate(a, c, Pow2(k), x), x + Pow2(k), 2 * Pow2(k), 2 * u * x + v);
  }

  /** q times 2^k steps add q * 2^k modulo 2^(k+1). */
  lemma {:induction false} RepeatedShift(a: nat, c: nat, k: nat, q: nat, x: nat)
    requires a % 4 == 1 && c % 2 == 1
    ensures Congruent(Iterate(a, c, q * Pow2(k), x), x + q * Pow2(k), Pow2(k + 1))
    decreases q
  {
    var p := Pow2(k);
    if q == 0 {
      CongruentIntro(x, x, Pow2(k + 1), 0);
    } else {
      var y := Iterate(a, c, (q - 1) * p, x);
      RepeatedShift(a, c, k, q - 1, x);
      assert q * p == p + (q - 1) * p;
      IterateAdds(a, c, p, (q - 1) * p, x);
      PowerOfTwoStepsShift(a, c, k, y);
      CongruentAffine(1, p, y, x + (q - 1) * p, Pow2(k + 1));
      CongruentTrans(Iterate(a, c, p, y), y + p, x + q * p, Pow2(k + 1));
    }
  }

  /** Every positive number is a power of two times an odd number. */
  lemma {:induction false} OddPart(d: nat) returns (k: nat, q: nat)
    requires d >= 1
    ensures d == (2 * q + 1) * Pow2(k)
    decreases d
  {
    if d % 2 == 1 {
      k, q := 0, d / 2;
    } else {
      var k0, q0 := OddPart(d / 2);
      k, q := k0 + 1, q0;
      assert (2 * q + 1) * (2 * Pow2(k0)) == 2 * ((2 * q + 1) * Pow2(k0));
    }
  }

  lemma {:induction false} Pow2Divides(i: nat, j: nat) returns (q: nat)
    requires i <= j
    ensures Pow2(j) == Pow2(i) * q && q >= 1
    decreases j
  {
    if i == j {
      q := 1;
    } else {
      var q0 := Pow2Divides(i, j - 1);
      q := 2 * q0;
      assert Pow2(i) * (2 * q0) == 2 * (Pow2(i) * q0);
    }
  }

  lemma CongruentWeaken(x: int, y: int, i: nat, j: nat)
    requires i <= j && Congruent(x, y, Pow2(j))
    ensures Congruent(x, y, Pow2(i))
  {
    var q: int :| x == y + Pow2(j) * q;
    var r := Pow2Divides(i, j);
    MulAssociates(Pow2(i), r, q);
    CongruentIntro(x, y, Pow2(i), r * q);
  }

  /** An odd multiple of 2^k is not 0 modulo 2^(k+1). */
  lemma OddMultipleIsNotZero(k: nat, q: nat, x: int)
    ensures !Congruent(x + (2 * q + 1) * Pow2(k), x, Pow2(k + 1))
  {
    var p := Pow2(k);
    if Congruent(x + (2 * q + 1) * p, x, 2 * p) {
      var r: int :| x + (2 * q + 1) * p == x + 2 * p * r;
      assert (2 * q + 1) * p == 2 * (q * p) + p;
      assert 2 * p * r == 2 * (p * r);
      assert p * (2 * (r - q)) == p * 1 by {
        assert p * (2 * (r - q)) == 2 * (p * r) - 2 * (q * p);
      }
      CancelFactor(p, 2 * (r - q), 1);
      assert false;
    }
  }

  lemma CancelFactor(p: nat, i: int, j: int)
    requires p >= 1 && p * i == p * j
    ensures i == j
  {
    MultipleIsFar(p, i - j);
    assert p * (i - j) == p * i - p * j;
  }

  lemma LargeOddPart(w: nat, k: nat, q: nat)
    ensures k >= w ==> (2 * q + 1) * Pow2(k) >= Pow2(w)
  {
    if k >= w {
      var r := Pow2Divides(w, k);
      hide Pow2;
      assert (2 * q + 1) * (Pow2(w) * r) == Pow2(w) * ((2 * q + 1) * r);
      OddTimesPositive(q, r);
      MultipleIsFar(Pow2(w), (2 * q + 1) * r);
    }
  }

  /** No fewer than 2^w steps return to the start. */
  lemma NoShortCycle(a: nat, c: nat, w: nat, d: nat, x: nat)
    requires a % 4 == 1 && c % 2 == 1 && 1 <= d < Pow2(w)
    ensures !Congruent(Iterate(a, c, d, x), x, Pow2(w))
  {
    hide Pow2, Congruent;
    var k, q := OddPart(d);
    LargeOddPart(w, k, q);
    RepeatedShift(a, c, k, 2 * q + 1, x);
    OddMultipleIsNotZero(k, q, x);
    if Congruent(Iterate(a, c, d, x), x, Pow2(w)) {
      CongruentWeaken(Iterate(a, c, d, x), x, k + 1, w);
      CongruentSym(Iterate(a, c, d, x), x + d, Pow2(k + 1));
      CongruentTrans(x + d, Iterate(a, c, d, x), x, Pow2(k + 1));
      assert false;
    }
  }

  lemma OddTimesPositive(q: nat, r: nat)
    requires r >= 1
    ensures (2 * q + 1) * r >= 1
  {
  }

  /** 2^w steps do return to the start. */
  lemma FullCycle(a: nat, c: nat, w: nat, x: nat)
    requires a % 4 == 1 && c % 2 == 1
    ensures Congruent(Iterate(a, c, Pow2(w), x), x, Pow2(w))
  {
    var u, v := PowerOfTwoSteps(a, c, w);
    var p := Pow2(w);
    var q := 4 * u * x + 2 * v + 1;
    assert (1 + 4 * p * u) * x + p * (2 * v + 1) == x + p * q by {
      assert (1 + 4 * p * u) * x == x + 4 * p * u * x;
      assert p * q == p * (4 * u * x) + p * (2 * v + 1);
      assert 4 * p * u * x == p * (4 * u * x);
    }
    CongruentIntro(Iterate(a, c, p, x), x, p, q);
  }

  lemma OrbitIsReduced(a: nat, c: nat, m: nat, n: nat, x: nat)
    requires m >= 1 && x < m
    ensures Orbit(a, c, m, n, x) < m
  {
  }

  lemma {:induction false} OrbitAdds(a: nat, c: nat, m: nat, n: nat, k: nat, x: nat)
    requires m >= 1
    ensures Orbit(a, c, m, n + k, x) == Orbit(a, c, m, n, Orbit(a, c, m, k, x))
    decreases n
  {
    if n == 0 {
    } else {
      OrbitAdds(a, c, m, n - 1, k, x);
    }
  }

  lemma ShortOrbitMoves(a: nat, c: nat, w: nat, r: nat, x: nat)
    requires a % 4 == 1 && c % 2 == 1 && 1 <= r < Pow2(w)
    ensures Orbit(a, c, Pow2(w), r, x) != x
  {
    NoShortCycle(a, c, w, r, x);
    OrbitIsIterate(a, c, Pow2(w), r, x);
    if Orbit(a, c, Pow2(w), r, x) == x {
      CongruentSym(x, Iterate(a, c, r, x), Pow2(w));
      assert false;
    }
  }

  /** d steps return a reduced x to itself exactly when 2^w divides d: the period is 2^w. */
  lemma ReturnsIff(a: nat, c: nat, w: nat, d: nat, x: nat)
    requires a % 4 == 1 && c % 2 == 1 && x < Pow2(w)
    ensures Orbit(a, c, Pow2(w), d, x) == x <==> d % Pow2(w) == 0
  {
    hide Pow2;
    var r := d % Pow2(w);
    assert d == r + d / Pow2(w) * Pow2(w);
    OrbitSkipsCycles(a, c, w, r, d / Pow2(w), x);
    if r > 0 {
      ShortOrbitMoves(a, c, w, r, x);
    }
  }

  lemma OrbitOfFullCycle(a: nat, c: nat, w: nat, x: nat)
    requires a % 4 == 1 && c % 2 == 1 && x < Pow2(w)
    ensures Orbit(a, c, Pow2(w), Pow2(w), x) == x
  {
    hide Pow2;
    var m := Pow2(w);
    OrbitIsIterate(a, c, m, m, x);
    FullCycle(a, c, w, x);
    CongruentTrans(Orbit(a, c, m, m, x), Iterate(a, c, m, x), x, m);
    OrbitIsReduced(a, c, m, m, x);
    SmallCongruent(Orbit(a, c, m, m, x), x, m);
  }

  lemma {:induction false} OrbitSkipsCycles(a: nat, c: nat, w: nat, r: nat, n: nat, x: nat)
    requires a % 4 == 1 && c % 2 == 1 && x < Pow2(w)
    ensures Orbit(a, c, Pow2(w), r + n * Pow2(w), x) == Orbit(a, c, Pow2(w), r, x)
    decreases n
  {
    hide Pow2, Orbit;
    var m := Pow2(w);
    if n == 0 {
    } else {
      assert r + n * m == (r + (n - 1) * m) + m;
      OrbitAdds(a, c, m, r + (n - 1) * m, m, x);
      OrbitOfFullCycle(a, c, w, x);
      OrbitSkipsCycles(a, c, w, r, n - 1, x);
    }
  }

  /** Full period: from a reduced start, steps i and j land on the same value exactly when 2^w
      divides their distance. */
  lemma FullPeriod(a: nat, c: nat, w: nat, i: nat, j: nat, x: nat)
    requires a % 4 == 1 && c % 2 == 1 && x < Pow2(w) && i <= j
    ensures Orbit(a, c, Pow2(w), i, x) == Orbit(a, c, Pow2(w), j, x) <==> (j - i) % Pow2(w) == 0
  {
    var m := Pow2(w);
    var y := Orbit(a, c, m, i, x);
    OrbitIsReduced(a, c, m, i, x);
    OrbitAdds(a, c, m, j - i, i, x);
    ReturnsIff(a, c, w, j - i, y);
  }
}
