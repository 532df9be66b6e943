/**
 * `sieve_upto` of `src/lib.rs`: the sieve of Eratosthenes over a boolean
 * vector whose entry `k` stands for the number `k + 2`, proved to return
 * exactly the primes from 2 to `upto`, in increasing order.
 */
module Sieve {
  import opened Common

  predicate IsPrime(p: nat) {
    p >= 2 && forall d :: 2 <= d < p ==> p % d != 0
  }

  /** The reference answer: the primes in `[2, n]`, smallest first. */
  function PrimesUpTo(n: nat): seq<nat> {
    if n < 2 then [] else PrimesUpTo(n - 1) + (if IsPrime(n) then [n] else [])
  }

  lemma {:induction false} PrimesUpToMembers(n: nat)
    ensures forall p :: p in PrimesUpTo(n) <==> 2 <= p <= n && IsPrime(p)
  {
    if n >= 2 {
      PrimesUpToMembers(n - 1);
    }
  }

  lemma {:induction false} PrimesUpToIncreasing(n: nat)
    ensures forall i, j :: 0 <= i < j < |PrimesUpTo(n)| ==> PrimesUpTo(n)[i] < PrimesUpTo(n)[j]
    ensures forall i :: 0 <= i < |PrimesUpTo(n)| ==> PrimesUpTo(n)[i] <= n
  {
    if n >= 2 {
      PrimesUpToIncreasing(n - 1);
    }
  }

  /** `(n as f64).sqrt() as usize`, as the exact integer square root rounded down. */
  function FloorSqrt(n: nat): (r: nat)
    ensures r * r <= n < (r + 1) * (r + 1)
  {
    if n == 0 then 0
    else
      var s := FloorSqrt(n - 1);
      if (s + 1) * (s + 1) <= n then s + 1 else s
  }

  /** `m` has no divisor `d` with `2 <= d < i` other than itself. */
  predicate NoSmallFactor(m: nat, i: nat) {
    forall d :: 2 <= d < i && d < m ==> m % d != 0
  }

  // ---------------------------------------------------------------------------
  // Arithmetic: remainders by a variable divisor
  // ---------------------------------------------------------------------------

  lemma MulAtLeast(d: int, x: int)
    requires d > 0 && x >= 1
    ensures d * x >= d
  {
  }

  lemma MulAtMost(d: int, x: int)
    requires d > 0 && x <= -1
    ensures d * x <= -d
  {
  }

  /** Division leaves remainder `r` exactly when `m` is `r` past a multiple: remainders are unique. */
  lemma RemainderUnique(m: nat, d: nat, q: int, r: int)
    requires d > 0 && m == d * q + r && 0 <= r < d
    ensures m % d == r
  {
    var x := q - m / d;
    assert d * x == m % d - r;
    if x >= 1 {
      MulAtLeast(d, x);
    }
    if x <= -1 {
      MulAtMost(d, x);
    }
  }

  lemma MultipleRemainder(d: nat, k: nat, r: nat)
    requires d > 0 && r < d
    ensures (d * k + r) % d == r
  {
    RemainderUnique(d * k + r, d, k, r);
  }

  lemma DivisorOfDivisor(m: nat, i: nat, d: nat)
    requires i > 0 && d > 0 && m % i == 0 && i % d == 0
    ensures m % d == 0
  {
    var q := m / i;
    var p := i / d;
    assert m == i * q;
    assert i == d * p;
    assert m == d * (p * q);
    MultipleRemainder(d, p * q, 0);
  }

  /** The next multiple of `i` after a multiple `j` is `j + i`. */
  lemma NextMultiple(j: nat, i: nat, x: nat)
    requires i > 0 && j % i == 0 && j < x <= j + i
    ensures x % i == 0 <==> x == j + i
  {
    var q := j / i;
    assert j == i * q;
    if x < j + i {
      MultipleRemainder(i, q, x - j);
    } else {
      MultipleRemainder(i, q + 1, 0);
    }
  }

  /**
   * An `i` the sieve has already crossed out is skipped, and rightly so: its
   * multiples were crossed out with its own smaller divisor.
   */
  lemma SkipCrossedOut(m: nat, i: nat)
    requires i >= 2 && !NoSmallFactor(i, i) && NoSmallFactor(m, i)
    ensures NoSmallFactor(m, i + 1)
  {
    if i < m && m % i == 0 {
      var d :| 2 <= d < i && i % d == 0;
      DivisorOfDivisor(m, i, d);
    }
  }

  /** A composite number has a divisor no larger than its square root. */
  lemma SmallFactor(m: nat, s: nat)
    requires m >= 2 && m < (s + 1) * (s + 1) && NoSmallFactor(m, s + 1)
    ensures IsPrime(m)
  {
    forall d | 2 <= d < m
      ensures m % d != 0
    {
      if m % d == 0 {
        var e := m / d;
        assert m == d * e;
        assert e >= 2;
        if d > s && e > s {
          MulMonotone(s + 1, d, s + 1, e);
        }
        assert m == e * d;
        MultipleRemainder(e, d, 0);
      }
    }
  }

  lemma MulMonotone(a: nat, b: nat, c: nat, d: nat)
    requires a <= b && c <= d
    ensures a * c <= b * d
  {
  }

  /** The collection step: the indices still marked, plus 2. */
  function Survivors(a: seq<bool>): (r: seq<nat>)
    ensures forall x :: x in r <==> exists k :: 0 <= k < |a| && a[k] && x == k + 2
    ensures forall i :: 0 <= i < |r| ==> 2 <= r[i] <= |a| + 1
    ensures forall i, j :: 0 <= i < j < |r| ==> r[i] < r[j]
    decreases |a|
  {
    if a == [] then [] else Survivors(a[..|a| - 1]) + (if a[|a| - 1] then [|a| + 1] else [])
  }

  lemma {:induction false} SurvivorsArePrimes(a: seq<bool>)
    requires forall k :: 0 <= k < |a| ==> (a[k] <==> IsPrime(k + 2))
    ensures Survivors(a) == PrimesUpTo(|a| + 1)
  {
    if a != [] {
      SurvivorsArePrimes(a[..|a| - 1]);
    }
  }

  /**
   * The inner loop of `sieve_upto`: clears every multiple of `i` above `i` and
   * no larger than `upto`, so that the marks account for one more divisor.
   */
  method CrossOutMultiples(sieve: array<bool>, i: nat, upto: nat)
    requires sieve.Length + 1 == upto && i >= 2
    requires forall k :: 0 <= k < sieve.Length ==> (sieve[k] <==> NoSmallFactor(k + 2, i))
    modifies sieve
    ensures forall k :: 0 <= k < sieve.Length ==> (sieve[k] <==> NoSmallFactor(k + 2, i + 1))
  {
    var j := i * 2;
    MultipleRemainder(i, 2, 0);
    while j <= upto
      invariant j % i == 0 && 2 * i <= j
      invariant forall k :: 0 <= k < sieve.Length ==>
        (sieve[k] <==> NoSmallFactor(k + 2, i) && !(i < k + 2 < j && (k + 2) % i == 0))
    {
      sieve[j - 2] := false;
      forall x | j < x <= j + i
        ensures x % i == 0 <==> x == j + i
      {
        NextMultiple(j, i, x);
      }
      MultipleRemainder(i, j / i + 1, 0);
      j := j + i;
    }
  }

  /**
   * `sieve_upto`. Entry `k` of `sieve` is cleared exactly when `k + 2` has a
   * proper divisor among the `i` handled so far; after the last `i`, which is
   * the square root of `upto` rounded down, that leaves exactly the primes.
   * `upto == 0` has no model: `upto - 1` underflows.
   */
  method SieveUpto(upto: nat) returns (r: Result<seq<nat>, string>)
    requires upto >= 1
    ensures r == Ok(PrimesUpTo(upto))
    ensures forall p :: p in r.value <==> 2 <= p <= upto && IsPrime(p)
  {
    var sieve := new bool[upto - 1](_ => true);
    var s := FloorSqrt(upto);
    MulMonotone(1, s, s, s);
    for i := 2 to s + 1
      invariant forall k :: 0 <= k < sieve.Length ==> (sieve[k] <==> NoSmallFactor(k + 2, i))
    {
      if sieve[i - 2] {
        CrossOutMultiples(sieve, i, upto);
      } else {
        forall k | 0 <= k < sieve.Length
          ensures sieve[k] <==> NoSmallFactor(k + 2, i + 1)
        {
          if sieve[k] {
            SkipCrossedOut(k + 2, i);
          }
        }
      }
    }
    forall k | 0 <= k < sieve.Length
      ensures sieve[k] <==> IsPrime(k + 2)
    {
      if sieve[k] {
        SmallFactor(k + 2, s);
      }
    }
    SurvivorsArePrimes(sieve[..]);
    PrimesUpToMembers(upto);
    r := Ok(Survivors(sieve[..]));
  }

  /** The module's test values. */
  method SieveExamples() returns (r1: Result<seq<nat>, string>, r2: Result<seq<nat>, string>,
                                   r3: Result<seq<nat>, string>, r4: Result<seq<nat>, string>,
                                   r5: Result<seq<nat>, string>)
    ensures r1 == Ok([]) && r2 == Ok([2]) && r3 == Ok([2, 3]) && r4 == Ok([2, 3]) && r5 == Ok([2, 3, 5])
  {
    assert IsPrime(2) && IsPrime(3) && !IsPrime(4) by {
      assert 4 % 2 == 0;
    }
    assert IsPrime(5);
    assert PrimesUpTo(2) == [2];
    assert PrimesUpTo(3) == [2, 3];
    assert PrimesUpTo(4) == [2, 3];
    assert PrimesUpTo(5) == [2, 3, 5];
    r1 := SieveUpto(1);
    r2 := SieveUpto(2);
    r3 := SieveUpto(3);
    r4 := SieveUpto(4);
    r5 := SieveUpto(5);
  }
}
