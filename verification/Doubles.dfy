/** Integers as IEEE 754 doubles, the only numbers of JavaScript: 53 significant bits, ties to even. */
module Doubles {

  /** From 2^53 on, not every integer is a double. */
  const EXACT: nat := 0x20_0000_0000_0000

  /** An integer is a double when halving it while it is even brings it below 2^53. */
  predicate Representable(n: nat) { n < EXACT || (n % 2 == 0 && Representable(n / 2)) }

  /** The distance of the doubles around n: the power of two that leaves n with 53 bits. */
  function Ulp(n: nat): (u: nat)
    ensures u >= 1
  {
    if n < EXACT then 1 else 2 * Ulp(n / 2)
  }

  /** q times the distance u. */
  function Times(q: nat, u: nat): nat
  {
    if q == 0 then 0 else Times(q - 1, u) + u
  }

  /** The largest multiple of u up to n. */
  function Floor(n: nat, u: nat): (q: nat)
    requires u >= 1
    ensures Times(q, u) <= n < Times(q + 1, u)
  {
    if n < u then 0 else 1 + Floor(n - u, u)
  }

  /** The nearest double, and of two equally near ones the one with an even last bit. */
  function Nearest(n: nat): nat {
    var u := Ulp(n);
    var q := Floor(n, u);
    var r := n - Times(q, u);
    if 2 * r < u || (2 * r == u && q % 2 == 0) then Times(q, u) else Times(q + 1, u)
  }

  function Magnitude(n: int): nat { if n < 0 then -n else n }

  function ToDouble(n: int): int { if n < 0 then -(Nearest(Magnitude(n)) as int) else Nearest(Magnitude(n)) }

  /** How far two multiples are apart. */
  lemma {:induction false} MultiplesApart(a: nat, b: nat, u: nat)
    requires a < b
    ensures Times(a, u) + u <= Times(b, u)
    decreases b
  {
    if a < b - 1 {
      MultiplesApart(a, b - 1, u);
    }
  }

  lemma {:induction false} TimesTwice(q: nat, u: nat)
    ensures Times(q, 2 * u) == 2 * Times(q, u)
    decreases q
  {
    if q > 0 {
      TimesTwice(q - 1, u);
    }
  }

  lemma {:induction false} TimesOne(q: nat)
    ensures Times(q, 1) == q
    decreases q
  {
    if q > 0 {
      TimesOne(q - 1);
    }
  }

  /** n lies between 2^52 and 2^53 times its distance. */
  lemma {:induction false} UlpBounds(n: nat)
    ensures n < Times(EXACT, Ulp(n))
    ensures EXACT <= n ==> Times(EXACT / 2, Ulp(n)) <= n
    decreases n
  {
    hide Times;
    if EXACT <= n {
      UlpBounds(n / 2);
      TimesTwice(EXACT, Ulp(n / 2));
      TimesTwice(EXACT / 2, Ulp(n / 2));
      TimesOne(EXACT / 2);
    } else {
      TimesOne(EXACT);
    }
  }

  /** Multiples of n's distance with at most 53 bits, and their successor, are doubles. */
  lemma {:induction false} MultipleIsDouble(n: nat, q: nat)
    requires q <= EXACT
    ensures Representable(Times(q, Ulp(n)))
    decreases n
  {
    hide Times;
    if EXACT <= n {
      MultipleIsDouble(n / 2, q);
      TimesTwice(q, Ulp(n / 2));
    } else {
      TimesOne(q);
    }
  }

  /** A double is a multiple of n's distance, or it is smaller than all that are as long as n. */
  lemma {:induction false} DoubleIsMultiple(x: nat, n: nat) returns (q: nat)
    requires Representable(x)
    ensures x == Times(q, Ulp(n)) || (EXACT <= n && x < Times(EXACT / 2, Ulp(n)))
    decreases n
  {
    hide Times;
    if n < EXACT {
      q := x;
      TimesOne(x);
    } else if x < EXACT {
      q := 0;
      UlpLarge(n);
    } else {
      q := DoubleIsMultiple(x / 2, n / 2);
      TimesTwice(q, Ulp(n / 2));
      TimesTwice(EXACT / 2, Ulp(n / 2));
    }
  }

  lemma {:induction false} TimesGrows(q: nat, u: nat)
    requires u >= 2
    ensures Times(q, u) >= 2 * q
    decreases q
  {
    if q > 0 {
      TimesGrows(q - 1, u);
    }
  }

  lemma UlpLarge(n: nat)
    requires EXACT <= n
    ensures Times(EXACT / 2, Ulp(n)) >= EXACT
  {
    hide Times;
    TimesGrows(EXACT / 2, Ulp(n));
  }

  lemma FloorBounds(n: nat)
    ensures Floor(n, Ulp(n)) < EXACT
    ensures EXACT <= n ==> EXACT / 2 <= Floor(n, Ulp(n))
  {
    hide Times, Floor, Ulp;
    var u, q := Ulp(n), Floor(n, Ulp(n));
    UlpBounds(n);
    if q > EXACT {
      MultiplesApart(EXACT, q, u);
    }
    if q + 1 < EXACT / 2 {
      MultiplesApart(q + 1, EXACT / 2, u);
    }
  }

  /** What Number gives for an integer is a double, and no double is nearer. */
  lemma NearestIsNearest(n: nat, x: nat)
    requires Representable(x)
    ensures Representable(Nearest(n))
    ensures Magnitude(Nearest(n) - n) <= Magnitude(x - n)
  {
    hide Times, Floor, Ulp, Representable;
    var u, q := Ulp(n), Floor(n, Ulp(n));
    FloorBounds(n);
    MultipleIsDouble(n, q);
    MultipleIsDouble(n, q + 1);
    MultiplesApart(q, q + 1, u);
    NextMultiple(q, u);
    var m := DoubleIsMultiple(x, n);
    if x == Times(m, u) {
      if m < q {
        MultiplesApart(m, q, u);
      }
      if q + 1 < m {
        MultiplesApart(q + 1, m, u);
      }
    } else if EXACT / 2 < q {
      MultiplesApart(EXACT / 2, q, u);
    }
  }

  lemma NextMultiple(q: nat, u: nat)
    ensures Times(q + 1, u) == Times(q, u) + u
  {
  }

  /** An integer comes back as itself exactly when it is a double. */
  lemma ExactIff(n: int)
    ensures ToDouble(n) == n <==> Representable(Magnitude(n))
  {
    hide Nearest, Representable;
    assert Representable(0) by { ZeroIsDouble(); }
    NearestIsNearest(Magnitude(n), 0);
    if Representable(Magnitude(n)) {
      NearestIsNearest(Magnitude(n), Magnitude(n));
    }
  }

  lemma ZeroIsDouble()
    ensures Representable(0) && Representable(EXACT)
  {
    assert Representable(EXACT / 2);
  }

  lemma SmallIsExact(n: nat)
    requires n < EXACT
    ensures Nearest(n) == n
  {
    ExactIff(n);
  }

  /** Rounding never takes a large number below 2^53. */
  lemma LargeStaysLarge(n: nat)
    requires EXACT <= n
    ensures EXACT <= Nearest(n)
  {
    hide Times, Floor, Ulp;
    var u, q := Ulp(n), Floor(n, Ulp(n));
    FloorBounds(n);
    UlpLarge(n);
    MultiplesApart(EXACT / 2, q + 1, u);
    if EXACT / 2 < q {
      MultiplesApart(EXACT / 2, q, u);
    }
  }

  /** Halfway between two doubles, the one that is an even multiple of the distance is taken. */
  lemma TiesToEven(n: nat)
    requires 2 * (n - Times(Floor(n, Ulp(n)), Ulp(n))) == Ulp(n)
    ensures exists q: nat ::
              q % 2 == 0 && Nearest(n) == Times(q, Ulp(n)) && Floor(n, Ulp(n)) <= q <= Floor(n, Ulp(n)) + 1
  {
    hide Times, Floor, Ulp;
    var q := Floor(n, Ulp(n));
    if q % 2 == 0 {
      assert Nearest(n) == Times(q, Ulp(n));
    } else {
      assert (q + 1) % 2 == 0 && Nearest(n) == Times(q + 1, Ulp(n));
    }
  }

  /** 2^53 + 1 is the first integer that is no double. */
  lemma FirstInexact()
    ensures ToDouble(9007199254740993) == 9007199254740992
    ensures forall n: int :: Magnitude(n) < 9007199254740993 ==> ToDouble(n) == n
  {
    hide Nearest;
    NearestBelow();
    forall n: int | Magnitude(n) < 9007199254740993
      ensures ToDouble(n) == n
    {
      ZeroIsDouble();
      ExactIff(n);
    }
  }

  lemma NearestBelow()
    ensures Nearest(9007199254740993) == 9007199254740992
  {
    hide Times, Floor;
    var n: nat := 9007199254740993;
    var half: nat := 4503599627370496;
    assert Ulp(half) == 1;
    assert n / 2 == half && Ulp(n) == 2;
    TimesTwice(half, 1);
    TimesOne(half);
    NextMultiple(half, 2);
    var q := Floor(n, 2);
    if q < half {
      MultiplesApart(q, half, 2);
      assert q + 1 < half ==> Times(q + 1, 2) + 2 <= Times(half, 2) by {
        if q + 1 < half {
          MultiplesApart(q + 1, half, 2);
        }
      }
    }
    if q > half {
      MultiplesApart(half, q, 2);
    }
  }
}
