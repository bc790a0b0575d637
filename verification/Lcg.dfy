/** The pseudo-random generator of zeos/libc.c: a linear congruential generator
    modulo 2^31 computed in 32-bit unsigned arithmetic, and its full period. */
module Lcg {
  import opened Common

  const MULTIPLIER: nat := 1103515245
  const INCREMENT: nat := 12345
  const MODULUS: nat := 0x8000_0000

  type uint32 = x: nat | x < WORD

  /** One step of `rand`, wrap-around included. */
  function Next(seed: uint32): (r: uint32)
  {
    ((MULTIPLIER * seed % WORD + INCREMENT) % WORD) % MODULUS
  }

  /** The generator as the mathematicians write it. */
  function Affine(x: int): int { MULTIPLIER * x + INCREMENT }

  /** The seed after `n` calls. */
  function Iterate(seed: uint32, n: nat): uint32 {
    if n == 0 then seed else Next(Iterate(seed, n - 1))
  }

  /** `n` steps over the integers. */
  function Orbit(x: int, n: nat): int {
    if n == 0 then x else Affine(Orbit(x, n - 1))
  }

  function Pow2(k: nat): (p: nat)
    ensures p > 0
  {
    if k == 0 then 1 else 2 * Pow2(k - 1)
  }

  // ---- orbits over the integers --------------------------------------------------------

  lemma {:induction false} OrbitAdds(x: int, m: nat, n: nat)
    ensures Orbit(x, m + n) == Orbit(Orbit(x, m), n)
  {
    if n > 0 {
      OrbitAdds(x, m, n - 1);
    }
  }

  /** `Orbit(x, 2^k)` is affine in `x`: its slope is `4 * 2^k * Slope(k) + 1`, its
      offset an odd multiple of 2^k. Applying it twice doubles both powers. */
  ghost function Slope(k: nat): int {
    if k == 0 then 275878811 else Slope(k - 1) * (2 * Pow2(k - 1) * Slope(k - 1) + 1)
  }

  ghost function Offset(k: nat): int {
    if k == 0 then 6172 else Offset(k - 1) + Pow2(k - 1) * Slope(k - 1) * (2 * Offset(k - 1) + 1)
  }

  function Form(p: int, s: int, o: int, x: int): int { (4 * p * s + 1) * x + p * (2 * o + 1) }

  lemma FormTwice(p: int, s: int, o: int, x: int)
    ensures Form(p, s, o, Form(p, s, o, x)) == Form(2 * p, s * (2 * p * s + 1), o + p * s * (2 * o + 1), x)
  {
    var a := 4 * p * s + 1;
    var c := p * (2 * o + 1);
    assert a * (a * x + c) + c == (a * a) * x + (a + 1) * c;
    assert a * a == 4 * (2 * p) * (s * (2 * p * s + 1)) + 1;
    assert (a + 1) * c == (2 * p) * (2 * (o + p * s * (2 * o + 1)) + 1);
  }

  lemma {:induction false} OrbitDoubling(x: int, k: nat)
    ensures Orbit(x, Pow2(k)) == Form(Pow2(k), Slope(k), Offset(k), x)
    decreases k
  {
    if k == 0 {
      assert Orbit(x, 1) == Affine(Orbit(x, 0));
    } else {
      var h := Pow2(k - 1);
      OrbitAdds(x, h, h);
      OrbitDoubling(x, k - 1);
      OrbitDoubling(Orbit(x, h), k - 1);
      FormTwice(h, Slope(k - 1), Offset(k - 1), x);
    }
  }

  function Moved(x: int, p: int, r: int): int { x + p * r }

  lemma FormMoves(p: int, s: int, o: int, x: int, r: int)
    ensures Form(p, s, o, Moved(x, p, r)) == Moved(x, p, r + 2 * (2 * s * Moved(x, p, r) + o) + 1)
  {
    var y := Moved(x, p, r);
    assert (4 * p * s + 1) * y == y + p * (4 * s * y);
    assert p * (4 * s * y) + p * (2 * o + 1) == p * (2 * (2 * s * y + o) + 1);
    assert p * r + p * (2 * (2 * s * y + o) + 1) == p * (r + 2 * (2 * s * y + o) + 1);
  }

  /** `q` rounds of `p` steps. */
  function Rounds(q: nat, p: nat): nat {
    if q == 0 then 0 else Rounds(q - 1, p) + p
  }

  lemma {:induction false} RoundsIs(q: nat, p: nat)
    ensures Rounds(q, p) == p * q
  {
    if q > 0 {
      RoundsIs(q - 1, p);
      assert p * (q - 1) + p == p * q;
    }
  }

  /** `q` rounds of 2^k steps move by `r` times 2^k, with `r` as odd as `q`. */
  lemma {:induction false} OrbitRounds(x: int, q: nat, k: nat) returns (r: int)
    ensures Orbit(x, Rounds(q, Pow2(k))) == Moved(x, Pow2(k), r) && (r - q) % 2 == 0
  {
    if q == 0 {
      r := 0;
    } else {
      var s := OrbitRounds(x, q - 1, k);
      var y := Orbit(x, Rounds(q - 1, Pow2(k)));
      OrbitAdds(x, Rounds(q - 1, Pow2(k)), Pow2(k));
      OrbitDoubling(y, k);
      FormMoves(Pow2(k), Slope(k), Offset(k), x, s);
      var t := 2 * Slope(k) * y + Offset(k);
      r := s + 2 * t + 1;
      SameParity(s, q - 1, t);
    }
  }

  lemma SameParity(s: int, q: int, t: int)
    requires (s - q) % 2 == 0
    ensures (s + 2 * t + 1 - (q + 1)) % 2 == 0
  {
  }

  // ---- divisibility by powers of two ---------------------------------------------------

  lemma MultipleMod(m: nat, q: int)
    requires m > 0
    ensures (m * q) % m == 0 && (m * q) / m == q
  {
    var d, r := (m * q) / m, (m * q) % m;
    assert m * q == m * d + r;
    SmallMultiple(m, q - d);
  }

  /** The only multiple of `m` in `0..m` is 0. */
  lemma SmallMultiple(m: nat, e: int)
    requires 0 <= m * e < m
    ensures e == 0
  {
  }

  /** Halving the modulus keeps divisibility; doubling it asks for an even quotient. */
  lemma DoubleMod(d: int, m: nat)
    requires m > 0
    ensures d % (2 * m) == 0 <==> d % m == 0 && (d / m) % 2 == 0
  {
    if d % (2 * m) == 0 {
      var q := d / (2 * m);
      assert d == (2 * m) * q == m * (2 * q);
      MultipleMod(m, 2 * q);
    }
    if d % m == 0 && (d / m) % 2 == 0 {
      var q := (d / m) / 2;
      assert d == m * (d / m) == (2 * m) * q;
      MultipleMod(2 * m, q);
    }
  }

  lemma QuotientsIff(d: int, n: nat, h: nat, r: int, q: nat)
    requires h > 0 && d == h * r && n == h * q && (r - q) % 2 == 0
    ensures d % (2 * h) == 0 <==> n % (2 * h) == 0
  {
    MultipleMod(h, r);
    MultipleMod(h, q);
    DoubleMod(d, h);
    DoubleMod(n, h);
  }

  /** The orbit is back at its start modulo 2^k after `n` steps exactly when 2^k
      divides `n`. */
  lemma {:induction false} ReturnsIff(x: int, n: nat, k: nat)
    ensures (Orbit(x, n) - x) % Pow2(k) == 0 <==> n % Pow2(k) == 0
  {
    if k > 0 {
      var h := Pow2(k - 1);
      ReturnsIff(x, n, k - 1);
      DoubleMod(Orbit(x, n) - x, h);
      DoubleMod(n, h);
      if n % h == 0 {
        var r := RoundsMove(x, n, n / h, k - 1);
        QuotientsIff(Orbit(x, n) - x, n, h, r, n / h);
      }
    }
  }

  lemma RoundsMove(x: int, n: nat, q: nat, k: nat) returns (r: int)
    requires n == Pow2(k) * q
    ensures Orbit(x, n) - x == Pow2(k) * r && (r - q) % 2 == 0
  {
    RoundsIs(q, Pow2(k));
    r := OrbitRounds(x, q, k);
  }

  lemma AddMultiple(t: int, p: nat, e: int)
    requires p > 0
    ensures (t + p * e) % p == t % p
  {
    var q, r := t / p, t % p;
    var d, u := (t + p * e) / p, (t + p * e) % p;
    assert p * d + u == p * q + r + p * e;
    assert u - r == p * (q + e - d);
    if u >= r {
      SmallMultiple(p, q + e - d);
    } else {
      assert r - u == p * (d - q - e);
      SmallMultiple(p, d - q - e);
    }
  }

  /** Equal residues mean a divisible difference. */
  lemma ResiduesIff(a: int, b: int, p: nat)
    requires p > 0
    ensures a % p == b % p <==> (a - b) % p == 0
  {
    var q, r := b / p, b % p;
    assert b == p * q + r;
    AddMultiple(a - b, p, q);
    AddMultiple(a - r, p, -q);
    assert a - b == (a - r) + p * (-q);
    var e, f := a / p, a % p;
    AddMultiple(f - r, p, e);
    assert a - r == (f - r) + p * e;
    SmallResidue(f - r, p);
  }

  lemma SmallResidue(d: int, p: nat)
    requires 0 - p < d < p
    ensures d % p == 0 <==> d == 0
  {
    if d % p == 0 {
      assert d == p * (d / p);
      if d >= 0 {
        SmallMultiple(p, d / p);
      } else {
        SmallMultiple(p, -(d / p));
      }
    }
  }

  // ---- the generator ---------------------------------------------------------------------

  /** Wrapping at 2^32 changes nothing modulo 2^31. */
  lemma NextIsAffine(seed: uint32)
    ensures Next(seed) == Affine(seed) % MODULUS
  {
    var a := MULTIPLIER * seed;
    var q1, t1 := a / WORD, a % WORD;
    var q2, t2 := (t1 + INCREMENT) / WORD, (t1 + INCREMENT) % WORD;
    assert a + INCREMENT == t2 + MODULUS * (2 * (q1 + q2));
    AddMultiple(t2, MODULUS, 2 * (q1 + q2));
  }

  lemma AffineMod(x: int)
    ensures Affine(x % MODULUS) % MODULUS == Affine(x) % MODULUS
  {
    var q, t := x / MODULUS, x % MODULUS;
    assert Affine(x) == Affine(t) + MODULUS * (MULTIPLIER * q);
    AddMultiple(Affine(t), MODULUS, MULTIPLIER * q);
  }

  /** So the seeds are the orbit modulo 2^31. */
  lemma {:induction false} IterateIsOrbit(seed: uint32, n: nat)
    requires n > 0
    ensures Iterate(seed, n) == Orbit(seed, n) % MODULUS
  {
    NextIsAffine(Iterate(seed, n - 1));
    if n > 1 {
      IterateIsOrbit(seed, n - 1);
      AffineMod(Orbit(seed, n - 1));
    }
  }

  lemma {:induction false} Pow2Adds(j: nat, k: nat)
    ensures Pow2(j + k) == Pow2(j) * Pow2(k)
  {
    if j > 0 {
      Pow2Adds(j - 1, k);
    }
  }

  lemma ModulusIsPow2()
    ensures Pow2(31) == MODULUS
  {
    assert Pow2(8) == 256;
    Pow2Adds(8, 8);
    Pow2Adds(16, 8);
    assert Pow2(7) == 128;
    Pow2Adds(24, 7);
  }

  lemma ModDivisor(x: int, p: nat, c: nat)
    requires p > 0 && p * c > 0
    ensures (x % (p * c)) % p == x % p
  {
    var q, t := x / (p * c), x % (p * c);
    assert x == t + (p * c) * q;
    assert (p * c) * q == p * (c * q);
    AddMultiple(t, p, c * q);
  }

  /** Reducing modulo 2^31 first keeps the low `k` bits. */
  lemma LowBits(x: int, k: nat)
    requires k <= 31
    ensures (x % MODULUS) % Pow2(k) == x % Pow2(k)
  {
    ModulusIsPow2();
    Pow2Adds(k, 31 - k);
    ModDivisor(x, Pow2(k), Pow2(31 - k));
  }

  lemma OrbitLowBits(seed: uint32, n: nat, k: nat)
    requires n > 0 && k <= 31
    ensures Iterate(seed, n) % Pow2(k) == Orbit(seed, n) % Pow2(k)
  {
    IterateIsOrbit(seed, n);
    LowBits(Orbit(seed, n), k);
  }

  lemma OrbitPeriod(x: int, m: nat, n: nat, k: nat, p: nat)
    requires m <= n && p == Pow2(k)
    ensures Orbit(x, n) % p == Orbit(x, m) % p <==> (n - m) % p == 0
  {
    OrbitAdds(x, m, n - m);
    ReturnsIff(Orbit(x, m), n - m, k);
    ResiduesIff(Orbit(x, n), Orbit(x, m), p);
  }

  /** From every seed, the low `k` bits of the outputs repeat with period exactly 2^k. */
  lemma LowBitsPeriod(seed: uint32, m: nat, n: nat, k: nat)
    requires 0 < m <= n && k <= 31
    ensures Iterate(seed, n) % Pow2(k) == Iterate(seed, m) % Pow2(k) <==> (n - m) % Pow2(k) == 0
  {
    OrbitLowBits(seed, n, k);
    OrbitLowBits(seed, m, k);
    OrbitPeriod(seed, m, n, k, Pow2(k));
  }

  /** Full period: two outputs are equal exactly when they are a multiple of 2^31
      calls apart. So the first 2^31 outputs differ pairwise, and then they repeat. */
  lemma FullPeriod(seed: uint32, m: nat, n: nat)
    requires 0 < m <= n
    ensures Iterate(seed, n) == Iterate(seed, m) <==> (n - m) % MODULUS == 0
  {
    ModulusIsPow2();
    LowBitsPeriod(seed, m, n, 31);
    NextIsSmall(seed, m);
    NextIsSmall(seed, n);
  }

  lemma NextIsSmall(seed: uint32, n: nat)
    requires n > 0
    ensures Iterate(seed, n) < MODULUS && Iterate(seed, n) % MODULUS == Iterate(seed, n)
  {
  }

  lemma {:induction false} OrbitReaches(x: int, v: int, k: nat) returns (n: nat)
    ensures n < Pow2(k) && (Orbit(x, n) - v) % Pow2(k) == 0
  {
    if k == 0 {
      n := 0;
    } else {
      var h := Pow2(k - 1);
      n := OrbitReaches(x, v, k - 1);
      var d := Orbit(x, n) - v;
      DoubleMod(d, h);
      if (d / h) % 2 != 0 {
        var r := RoundsMove(Orbit(x, n), h, 1, k - 1);
        OrbitAdds(x, n, h);
        n := n + h;
        OddTurnsEven(d, h, r);
      }
    }
  }

  lemma OddTurnsEven(d: int, h: nat, r: int)
    requires h > 0 && d % h == 0 && (d / h) % 2 != 0 && (r - 1) % 2 == 0
    ensures (d + h * r) % (2 * h) == 0
  {
    var q := d / h;
    assert d + h * r == h * (q + r);
    MultipleMod(h, q + r);
    DoubleMod(d + h * r, h);
  }

  /** Every 31-bit value comes up within the first 2^31 outputs, from every seed. */
  lemma EveryValue(seed: uint32, v: nat) returns (n: nat)
    requires v < MODULUS
    ensures 0 < n <= MODULUS && Iterate(seed, n) == v
  {
    ModulusIsPow2();
    var j := OrbitReaches(Orbit(seed, 1), v, 31);
    OrbitAdds(seed, 1, j);
    n := j + 1;
    IterateIsOrbit(seed, n);
    ResiduesIff(Orbit(seed, n), v, MODULUS);
  }

  // ---- libc.c ------------------------------------------------------------------------------

  class Generator {
    var lcgSeed: uint32

    /** Zero-initialised static storage. */
    constructor ()
      ensures lcgSeed == 0
    {
      lcgSeed := 0;
    }

    /** `srand` */
    method Srand(seed: uint32)
      modifies this
      ensures lcgSeed == seed
    {
      lcgSeed := seed;
    }

    /** `rand` */
    method Rand() returns (r: uint32)
      modifies this
      ensures r == lcgSeed == Next(old(lcgSeed))
      ensures r < MODULUS && r == Affine(old(lcgSeed)) % MODULUS
    {
      NextIsAffine(lcgSeed);
      lcgSeed := ((MULTIPLIER * lcgSeed % WORD + INCREMENT) % WORD) % MODULUS;
      r := lcgSeed;
    }

    /** `rand_range`. The answer lies between `min` and `max`, counting upwards from
        `min` around the word if `max` is below it; None is a division by zero, exactly
        when the range is the whole word. */
    method RandRange(min: uint32, max: uint32) returns (r: Option<uint32>)
      modifies this
      ensures lcgSeed == Next(old(lcgSeed))
      ensures r == None <==> (max - min) % WORD == WORD - 1
      ensures r.Some? ==> r.value == (min + lcgSeed % ((max - min) % WORD + 1)) % WORD
      ensures r.Some? ==> (r.value - min) % WORD <= (max - min) % WORD && (min <= max ==> min <= r.value <= max)
    {
      var x := Rand();
      var n := (max - min + 1) % WORD;
      if n == 0 {
        return None;
      }
      var y := x % n;
      r := Some((min + y) % WORD);
      RangeWraps(min, max, y);
    }
  }

  lemma RangeWraps(min: uint32, max: uint32, y: nat)
    requires (max - min + 1) % WORD != 0 && y < (max - min + 1) % WORD
    ensures var r := (min + y) % WORD;
            (r - min) % WORD <= (max - min) % WORD && (min <= max ==> min <= r <= max)
    ensures (max - min + 1) % WORD == (max - min) % WORD + 1
  {
    assert (max - min + 1) % WORD == (max - min) % WORD + 1;
    assert ((min + y) % WORD - min) % WORD == y;
  }

  lemma SmallMod(x: nat, n: nat)
    requires x < n
    ensures x % n == x
  {
  }

  lemma RangeValue(min: uint32, max: uint32, v: uint32, x: nat)
    requires min <= v <= max && x == v - min
    ensures (min + x % ((max - min) % WORD + 1)) % WORD == v
  {
    assert (max - min) % WORD == max - min;
    SmallMod(x, max - min + 1);
  }

  /** Every value of a range of at most 2^31 values comes up, from every seed. */
  lemma RangeCovered(seed: uint32, min: uint32, max: uint32, v: uint32) returns (n: nat)
    requires min <= v <= max && max - min < MODULUS
    ensures 0 < n <= MODULUS && (min + Iterate(seed, n) % ((max - min) % WORD + 1)) % WORD == v
  {
    n := EveryValue(seed, v - min);
    RangeValue(min, max, v, Iterate(seed, n));
  }
}
