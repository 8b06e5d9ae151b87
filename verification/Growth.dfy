/**
 The growth of vector_insert_at: roundf(cap * 1.5f) in the binary32 arithmetic of C, on counts of any
 size. A binary32 number has 24 significant bits; conversion and product round to the nearest, ties to
 the even significand.
 */
module Growth {
  import opened Bytes

  const BITS24: nat := 0x100_0000

  /** The distance of neighbouring binary32 numbers around n. */
  function Ulp(n: nat): (u: nat)
    ensures 1 <= u && (u == 1 || 0x80_0000 * u <= n) && n < BITS24 * u
  {
    if n < BITS24 then 1 else 2 * Ulp(n / 2)
  }

  /** The conversion of n to binary32. */
  function Float32(n: nat): (f: nat)
  {
    var u := Ulp(n);
    var q, r := n / u, n % u;
    if 2 * r < u || (2 * r == u && q % 2 == 0) then q * u else (q + 1) * u
  }

  /** The new capacity: the product is half of Float32(3 * m), as halving is exact, and roundf rounds halves up. */
  function Grow(cap: nat): nat {
    var m := Float32(cap);
    (Float32(3 * m) + 1) / 2
  }

  /** Rounding moves a number by half a unit at most. */
  lemma NearestError(n: nat)
    ensures 2 * n - Ulp(n) <= 2 * Float32(n) <= 2 * n + Ulp(n)
  {
    var u := Ulp(n);
    var q, r := n / u, n % u;
    assert n == q * u + r;
    assert (q + 1) * u == q * u + u;
  }

  /** Halfway between two neighbours the one with an even significand is taken. */
  lemma TiesToEven(n: nat)
    requires 2 * (n % Ulp(n)) == Ulp(n)
    ensures (Float32(n) / Ulp(n)) % 2 == 0
  {
    EvenMultiple(n, Ulp(n), n / Ulp(n));
  }

  lemma EvenMultiple(n: nat, u: nat, q: nat)
    requires u == Ulp(n) && q == n / u && 2 * (n % u) == u
    ensures (Float32(n) / u) % 2 == 0
  {
    var t := if q % 2 == 0 then q else q + 1;
    assert Float32(n) == t * u;
    hide Ulp, Float32;
    DivModOf(t, u, 0);
  }

  function PowerOfTwo(e: nat): nat {
    if e == 0 then 1 else 2 * PowerOfTwo(e - 1)
  }

  /** The result is a binary32 number: t times a power of two, where t has 24 bits or is the next power. */
  lemma Representable(n: nat) returns (t: nat, e: nat)
    ensures Ulp(n) == PowerOfTwo(e) && Float32(n) == t * PowerOfTwo(e) && t <= BITS24
  {
    e := UnitIsPower(n);
    var q := n / Ulp(n);
    t := if Float32(n) == q * Ulp(n) then q else q + 1;
    QuotientBelow(n, Ulp(n));
  }

  lemma QuotientBelow(n: nat, u: nat)
    requires 0 < u && n < BITS24 * u
    ensures n / u < BITS24
  {
  }

  lemma {:induction false} UnitIsPower(n: nat) returns (e: nat)
    ensures Ulp(n) == PowerOfTwo(e)
  {
    if n < BITS24 {
      e := 0;
    } else {
      var h := UnitIsPower(n / 2);
      e := h + 1;
    }
  }

  /** So by one part in 2^24 at most. */
  lemma RelativeError(n: nat)
    ensures n < BITS24 ==> Float32(n) == n
    ensures (BITS24 - 1) * n <= BITS24 * Float32(n) <= (BITS24 + 1) * n
  {
    NearestError(n);
    if n < BITS24 {
      assert n / 1 == n && n % 1 == 0;
    }
  }

  lemma ExactGrowth(cap: nat)
    requires 3 * cap < BITS24
    ensures Grow(cap) == (3 * cap + 1) / 2
  {
    RelativeError(cap);
    RelativeError(3 * cap);
  }

  /** A capacity of any size at all grows by a third at least: rounding never makes an insertion find no room. */
  lemma GrowsAlways(cap: nat)
    requires 1 <= cap
    ensures cap < Grow(cap) <= 2 * cap && cap <= 3 * (Grow(cap) - cap)
  {
    if 3 * cap < BITS24 {
      ExactGrowth(cap);
    } else {
      RelativeError(cap);
      RelativeError(3 * Float32(cap));
    }
  }

  /** A vector filled from empty by push_backs: its size and capacity, and the items resizes have carried over. */
  datatype Load = Load(size: nat, cap: nat, carried: nat)

  function Pushed(l: Load): Load {
    if l.size == l.cap then Load(l.size + 1, Grow(l.cap), l.carried + l.size) else l.(size := l.size + 1)
  }

  function AfterPushes(c0: nat, n: nat): (l: Load)
    ensures l.size == n
  {
    if n == 0 then Load(0, c0, 0) else Pushed(AfterPushes(c0, n - 1))
  }

  /** In exact arithmetic, what resizes carry is at most twice the growth of the capacity, and 3 per push. */
  predicate Exact(l: Load, c0: nat) {
    l.size <= l.cap && c0 <= l.cap && l.carried <= 2 * (l.cap - c0) <= 3 * l.size
  }

  /** At any capacity it is at most three times the growth, and 6 per push. */
  predicate Rounded(l: Load, c0: nat) {
    l.size <= l.cap && c0 <= l.cap && l.carried <= 3 * (l.cap - c0) <= 6 * l.size
  }

  lemma ExactStep(l: Load, c0: nat)
    requires 1 <= c0 && Exact(l, c0) && 3 * l.cap < BITS24
    ensures Exact(Pushed(l), c0)
  {
    ExactGrowth(l.cap);
  }

  lemma RoundedStep(l: Load, c0: nat)
    requires 1 <= c0 && Rounded(l, c0)
    ensures Rounded(Pushed(l), c0)
  {
    GrowsAlways(l.cap);
    hide Grow;
  }

  lemma CapacityGrows(c0: nat, n: nat)
    requires 1 <= c0
    ensures 1 <= AfterPushes(c0, n).cap <= AfterPushes(c0, n + 1).cap
  {
    AmortisedAlways(c0, n);
    GrowsAlways(AfterPushes(c0, n).cap);
    hide Grow;
  }

  lemma {:induction false} AmortisedGrowth(c0: nat, n: nat)
    requires 1 <= c0 && 3 * AfterPushes(c0, n).cap < BITS24
    ensures Exact(AfterPushes(c0, n), c0)
  {
    if n == 0 {
      assert AfterPushes(c0, 0) == Load(0, c0, 0);
    } else {
      CapacityGrows(c0, n - 1);
      AmortisedGrowth(c0, n - 1);
      ExactStep(AfterPushes(c0, n - 1), c0);
    }
  }

  lemma {:induction false} AmortisedAlways(c0: nat, n: nat)
    requires 1 <= c0
    ensures Rounded(AfterPushes(c0, n), c0)
  {
    if n == 0 {
      assert AfterPushes(c0, 0) == Load(0, c0, 0);
    } else {
      AmortisedAlways(c0, n - 1);
      RoundedStep(AfterPushes(c0, n - 1), c0);
    }
  }
}
