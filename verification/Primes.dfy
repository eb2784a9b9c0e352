/** Three prime tables and a trial division that must agree.

    Integers are unbounded here: on-the-fly search ends because there is always a larger prime
    (`LargerPrimeExists`). */
module Primes {
  import opened Arithmetic

  ghost predicate Prime(n: int) {
    n >= 2 && forall d :: 2 <= d < n ==> !Divides(d, n)
  }

  /** `n` has a proper divisor below `bound`. */
  ghost predicate HasDivisor(n: int, bound: int) {
    exists d :: 2 <= d < bound && d < n && Divides(d, n)
  }

  lemma CofactorOf(d: int, n: int)
    requires Divides(d, n) && 1 < d < n
    ensures n == d * (n / d) && 1 < n / d < n && Divides(n / d, n)
  {
    var k := n / d;
    assert n == d * k == k * d;
    hide *;
    FactorBounds(d, k);
    Multiple(k, d);
  }

  lemma FactorBounds(d: int, k: int)
    requires 1 < d < d * k
    ensures 1 < k < d * k
  {
    MultipleGrows(d, k);
    MultipleGrows(k, d);
    assert d * 1 == d && d * 0 == 0 && d * k == k * d;
  }

  /** Trial division need not go beyond the square root. */
  lemma SquareRootSuffices(n: int, i: int)
    requires n >= 2 && i >= 2 && i * i > n
    ensures Prime(n) <==> !HasDivisor(n, i)
  {
    if !HasDivisor(n, i) {
      forall d | 2 <= d < n
        ensures !Divides(d, n)
      {
        if Divides(d, n) {
          SomeDivisorBelow(d, n, i);
        }
      }
    }
  }

  lemma SomeDivisorBelow(d: int, n: int, i: int)
    requires 2 <= d < n && Divides(d, n) && i >= 2 && i * i > n
    ensures HasDivisor(n, i)
  {
    CofactorOf(d, n);
    SmallerCofactor(d, n / d, i);
  }

  lemma SmallerCofactor(d: int, k: int, i: int)
    requires d > 0 && k > 0 && i > 0 && d * k < i * i
    ensures d < i || k < i
  {
    if d >= i && k >= i {
      Product(i, d, i, k);
    }
  }

  lemma Product(a: int, b: int, c: int, d: int)
    requires 0 <= a <= b && 0 <= c <= d
    ensures a * c <= b * d
  {
    assert (b - a) * c >= 0;
    assert b * (d - c) >= 0;
  }

  // ---------------------------------------------------------------- there is always a larger prime

  function Factorial(n: nat): (f: nat)
    ensures f > 0
  {
    if n == 0 then 1 else
      assert n * Factorial(n - 1) > 0;
      n * Factorial(n - 1)
  }

  lemma {:induction false} DividesFactorial(d: nat, n: nat)
    requires 1 <= d <= n
    ensures Divides(d, Factorial(n))
  {
    if d == n {
      Multiple(n, Factorial(n - 1));
    } else {
      DividesFactorial(d, n - 1);
      Multiple(Factorial(n - 1), n);
      assert Factorial(n) == Factorial(n - 1) * n;
      DividesTrans(d, Factorial(n - 1), Factorial(n));
    }
  }

  lemma {:induction false} PrimeDivisor(n: int) returns (p: int)
    requires n >= 2
    ensures Prime(p) && Divides(p, n) && p <= n
    decreases n
  {
    if Prime(n) {
      p := n;
      Multiple(n, 1);
    } else {
      var d :| 2 <= d < n && Divides(d, n);
      p := PrimeDivisor(d);
      DividesTrans(p, d, n);
    }
  }

  lemma LargerPrimeExists(p: nat) returns (q: nat)
    ensures Prime(q) && q > p
  {
    var f := Factorial(p);
    q := PrimeDivisor(f + 1);
    NotBoth(q, f);
    if q <= p {
      DividesFactorial(q, p);
    }
  }

  lemma NotBoth(q: int, f: int)
    requires q >= 2 && Divides(q, f + 1)
    ensures !Divides(q, f)
  {
    DividesSum(q, f + 1, -1);
    Multiple(q, -1);
    DividesSum(q, -q, q - 1);
    assert (q - 1) % q == q - 1;
  }

  ghost predicate IsNextPrime(p: int, q: int) {
    Prime(q) && q > p && forall n :: p < n < q ==> !Prime(n)
  }

  // ---------------------------------------------------------------- on the fly

  class OnTheFlyPrimeTable {
    constructor () {
    }

    method IsPrime(n: int) returns (r: bool)
      ensures r <==> Prime(n)
    {
      if n <= 1 {
        return false;
      }
      var i := 2;
      while i * i <= n
        invariant i >= 2 && !HasDivisor(n, i)
        decreases n - i
      {
        SquareGrows(i);
        if n % i == 0 {
          assert Divides(i, n) && i < n;
          return false;
        }
        assert !Divides(i, n);
        i := i + 1;
      }
      SquareRootSuffices(n, i);
      return true;
    }

    /** For a negative argument the loop is not entered. */
    method GetNextPrime(p: int) returns (r: int)
      ensures p >= 0 ==> IsNextPrime(p, r)
      ensures p < 0 ==> r == -1
    {
      ghost var q := 0;
      if p >= 0 {
        q := LargerPrimeExists(p);
      }
      var n := p + 1;
      while n > 0
        invariant p >= 0 ==> p < n <= q && forall m :: p < m < n ==> !Prime(m)
        invariant p < 0 ==> n == p + 1
        decreases q - n
      {
        var prime := IsPrime(n);
        if prime {
          return n;
        }
        n := n + 1;
      }
      return -1;
    }
  }

  lemma SquareGrows(i: int)
    requires i >= 2
    ensures i < i * i
  {
    assert i * (i - 1) > 0;
  }

  // ---------------------------------------------------------------- the sieve

  /** After the steps below `i`, an entry is cleared if it has a proper divisor below `i`. */
  ghost predicate Sieved(a: seq<bool>, i: int) {
    forall n :: 2 <= n < |a| ==> (a[n] <==> !HasDivisor(n, i))
  }

  /** While the multiples of `i` are being cleared, those below `j` are done. */
  ghost predicate Sieving(a: seq<bool>, i: int, j: int) {
    forall n :: 2 <= n < |a| ==> (a[n] <==> !HasDivisor(n, i) && !(Divides(i, n) && i * i <= n < j))
  }

  lemma SievingStarts(a: seq<bool>, i: int)
    requires Sieved(a, i)
    ensures Sieving(a, i, i * i)
  {
  }

  lemma NextMultiple(i: int, j: int, n: int)
    requires i > 0 && Divides(i, j) && j < n < j + i
    ensures !Divides(i, n)
  {
    DividesSum(i, j, n - j);
    assert n == j + (n - j);
    assert (n - j) % i == n - j;
  }

  lemma SievingStep(a: seq<bool>, i: int, j: int)
    requires 2 <= i && i * i <= j < |a| && Divides(i, j) && Sieving(a, i, j)
    ensures Sieving(a[j := false], i, j + i) && Divides(i, j + i)
  {
    var b := a[j := false];
    assert 0 <= j by {
      SquareGrows(i);
    }
    Multiple(i, 1);
    DividesSum(i, j, i);
    forall n | 2 <= n < |b|
      ensures b[n] <==> !HasDivisor(n, i) && !(Divides(i, n) && i * i <= n < j + i)
    {
      if j < n < j + i {
        NextMultiple(i, j, n);
      }
      assert n != j ==> b[n] == a[n];
    }
  }

  /** A multiple of `i` below its square has a smaller divisor. */
  lemma SmallMultiple(i: int, n: int)
    requires 2 <= i < n < i * i && Divides(i, n)
    ensures HasDivisor(n, i)
  {
    CofactorOf(i, n);
    var k := n / i;
    if k >= i {
      Product(i, i, i, k);
    }
    assert Divides(k, n) && k < i;
  }

  /** All multiples cleared: one more divisor is taken into account. */
  lemma SievingEnds(a: seq<bool>, i: int, j: int)
    requires 2 <= i && |a| <= j && Sieving(a, i, j)
    ensures Sieved(a, i + 1)
  {
    forall n | 2 <= n < |a|
      ensures a[n] <==> !HasDivisor(n, i + 1)
    {
      DivisorStep(n, i);
      if Divides(i, n) && i < n < i * i {
        SmallMultiple(i, n);
      }
      if Divides(i, n) && i * i <= n {
        SquareGrows(i);
      }
    }
  }

  lemma DivisorStep(n: int, i: int)
    requires i >= 2
    ensures HasDivisor(n, i + 1) <==> HasDivisor(n, i) || (i < n && Divides(i, n))
  {
  }

  /** A composite number adds nothing. */
  lemma CompositeSkipped(a: seq<bool>, i: int)
    requires 2 <= i < |a| && Sieved(a, i) && !a[i]
    ensures Sieved(a, i + 1)
  {
    var d :| 2 <= d < i && Divides(d, i);
    forall n | 2 <= n < |a|
      ensures a[n] <==> !HasDivisor(n, i + 1)
    {
      DivisorStep(n, i);
      if i < n && Divides(i, n) {
        DividesTrans(d, i, n);
        assert HasDivisor(n, i);
      }
    }
  }

  /** Neither does an even number above two. */
  lemma EvenSkipped(a: seq<bool>, i: int)
    requires i > 2 && i % 2 == 0 && Sieved(a, i)
    ensures Sieved(a, i + 1)
  {
    forall n | 2 <= n < |a|
      ensures a[n] <==> !HasDivisor(n, i + 1)
    {
      DivisorStep(n, i);
      if i < n && Divides(i, n) {
        DividesTrans(2, i, n);
        assert HasDivisor(n, i);
      }
    }
  }

  lemma NothingSieved(a: seq<bool>)
    requires forall n :: 2 <= n < |a| ==> a[n]
    ensures Sieved(a, 2)
  {
  }

  lemma NeitherIsPrime()
    ensures !Prime(0) && !Prime(1)
  {
  }

  lemma SieveIsComplete(a: seq<bool>, i: int)
    requires i >= 2 && i * i >= |a| && Sieved(a, i)
    ensures forall n :: 2 <= n < |a| ==> (a[n] <==> Prime(n))
  {
    forall n | 2 <= n < |a|
      ensures a[n] <==> Prime(n)
    {
      SquareRootSuffices(n, i);
    }
  }

  class PreCalculatedPrimeTable {
    const max: int
    const isPrime: array<bool>

    ghost predicate Valid()
      reads isPrime
    {
      isPrime.Length == max + 1 && forall n :: 0 <= n <= max ==> (isPrime[n] <==> Prime(n))
    }

    /** The entries 0 and 1 are written unconditionally, so there must be two of them. */
    constructor (max: int)
      requires max >= 1
      ensures this.max == max && Valid() && fresh(isPrime)
    {
      this.max := max;
      isPrime := new bool[max + 1];
      new;
      CalculatePrimesUpTo(isPrime, max);
    }

    static method CalculatePrimesUpTo(isPrime: array<bool>, max: int)
      requires max >= 1 && isPrime.Length == max + 1
      modifies isPrime
      ensures forall n :: 0 <= n <= max ==> (isPrime[n] <==> Prime(n))
    {
      hide *;
      Fill(isPrime);
      isPrime[0], isPrime[1] := false, false;
      NothingSieved(isPrime[..]);
      NeitherIsPrime();
      var i := 2;
      while i * i <= max
        invariant i >= 2 && (i == 2 || i % 2 == 1)
        invariant !isPrime[0] && !isPrime[1] && Sieved(isPrime[..], i)
        decreases max - i
      {
        SquareGrows(i);
        if isPrime[i] {
          ClearMultiples(isPrime, max, i);
        } else {
          CompositeSkipped(isPrime[..], i);
        }
        if i % 2 == 1 {
          EvenSkipped(isPrime[..], i + 1);
        }
        i := i + (i % 2 + 1);
      }
      SieveIsComplete(isPrime[..], i);
    }

    static method Fill(isPrime: array<bool>)
      modifies isPrime
      ensures forall n :: 0 <= n < isPrime.Length ==> isPrime[n]
    {
      var n := 0;
      while n < isPrime.Length
        invariant 0 <= n <= isPrime.Length && forall k :: 0 <= k < n ==> isPrime[k]
      {
        isPrime[n] := true;
        n := n + 1;
      }
    }

    /** Clears the multiples of `i` from its square on. */
    static method ClearMultiples(isPrime: array<bool>, max: int, i: int)
      requires isPrime.Length == max + 1 && i >= 2 && i * i <= max
      requires !isPrime[0] && !isPrime[1] && Sieved(isPrime[..], i)
      modifies isPrime
      ensures !isPrime[0] && !isPrime[1] && Sieved(isPrime[..], i + 1)
    {
      hide *;
      SievingStarts(isPrime[..], i);
      Multiple(i, i);
      SquareGrows(i);
      var j := i * i;
      while j <= max
        invariant j >= i * i > 1 && Divides(i, j) && !isPrime[0] && !isPrime[1]
        invariant Sieving(isPrime[..], i, j)
      {
        SievingStep(isPrime[..], i, j);
        ghost var before := isPrime[..];
        isPrime[j] := false;
        assert isPrime[..] == before[j := false];
        j := j + i;
      }
      SievingEnds(isPrime[..], i, j);
    }

    method IsPrime(n: int) returns (r: bool)
      requires Valid()
      ensures r <==> n <= max && Prime(n)
    {
      return 0 <= n && n < isPrime.Length && isPrime[n];
    }

    /** The entry after -2 or less lies before the table. */
    method GetNextPrime(p: int) returns (r: int)
      requires Valid() && p >= -1
      ensures r == -1 || (IsNextPrime(p, r) && r <= max)
      ensures r == -1 ==> forall n :: p < n <= max ==> !Prime(n)
    {
      var n := p + 1;
      while n < isPrime.Length
        invariant p < n && forall m :: p < m < n && m <= max ==> !Prime(m)
      {
        if isPrime[n] {
          return n;
        }
        n := n + 1;
      }
      return -1;
    }
  }

  // ---------------------------------------------------------------- sample1

  method IsPrime(n: int) returns (r: bool)
    ensures r <==> Prime(n)
  {
    if n <= 1 {
      return false;
    }
    if n % 2 == 0 {
      assert Divides(2, n);
      TwoIsPrime();
      return n == 2;
    }
    OddHasNoDivisorTwo(n);
    var i := 3;
    while true
      invariant i >= 3 && i % 2 == 1 && !HasDivisor(n, i)
      decreases n - i
    {
      if i > n / i {
        break;
      }
      BelowQuotient(n, i);
      if n % i == 0 {
        assert Divides(i, n);
        return false;
      }
      EvenIsNoDivisor(n, i);
      i := i + 2;
    }
    AboveQuotient(n, i);
    SquareRootSuffices(n, i);
    return true;
  }

  lemma TwoIsPrime()
    ensures Prime(2)
  {
  }

  lemma OddHasNoDivisorTwo(n: int)
    requires n % 2 == 1
    ensures !HasDivisor(n, 3)
  {
  }

  lemma EvenIsNoDivisor(n: int, i: int)
    requires n % 2 == 1 && i >= 3 && i % 2 == 1 && !HasDivisor(n, i) && !Divides(i, n)
    ensures !HasDivisor(n, i + 2)
  {
    DivisorStep(n, i);
    DivisorStep(n, i + 1);
    if Divides(i + 1, n) {
      DividesTrans(2, i + 1, n);
    }
  }

  lemma BelowQuotient(n: int, i: int)
    requires i >= 3 && n > 1 && i <= n / i
    ensures i < n
  {
    Product(i, i, i, n / i);
    SquareGrows(i);
  }

  lemma AboveQuotient(n: int, i: int)
    requires i >= 3 && n > 1 && i > n / i
    ensures i * i > n
  {
    var q := n / i;
    assert n == i * q + n % i && 0 <= q;
    Product(i, i, q, i - 1);
    assert i * (i - 1) == i * i - i;
  }

  // ---------------------------------------------------------------- the hybrid

  class HybridPrimeTable {
    const onTheFlyImpl: OnTheFlyPrimeTable
    const precalcImpl: PreCalculatedPrimeTable?
    const maxPrecalculated: int

    ghost predicate Valid()
      reads if precalcImpl == null then {} else {precalcImpl.isPrime}
    {
      precalcImpl != null ==> precalcImpl.max == maxPrecalculated >= 1 && precalcImpl.Valid()
    }

    constructor (forceOnTheFly: bool, maxPrecalculated: int)
      requires !forceOnTheFly ==> maxPrecalculated >= 1
      ensures Valid() && this.maxPrecalculated == maxPrecalculated
      ensures precalcImpl == null <==> forceOnTheFly
    {
      onTheFlyImpl := new OnTheFlyPrimeTable();
      if forceOnTheFly {
        precalcImpl := null;
      } else {
        precalcImpl := new PreCalculatedPrimeTable(maxPrecalculated);
      }
      this.maxPrecalculated := maxPrecalculated;
    }

    method IsPrime(n: int) returns (r: bool)
      requires Valid()
      ensures r <==> Prime(n)
    {
      if precalcImpl != null && n < maxPrecalculated {
        r := precalcImpl.IsPrime(n);
      } else {
        r := onTheFlyImpl.IsPrime(n);
      }
    }

    /** Which table answers is not to be seen from any argument that is not negative. */
    method GetNextPrime(p: int) returns (r: int)
      requires Valid() && (precalcImpl != null && p < maxPrecalculated ==> p >= -1)
      ensures p >= 0 ==> IsNextPrime(p, r)
      ensures p < 0 ==> r == if precalcImpl != null && maxPrecalculated >= 2 then 2 else -1
    {
      r := -1;
      if precalcImpl != null && p < maxPrecalculated {
        r := precalcImpl.GetNextPrime(p);
        NextAfterMinusOne(r);
      }
      if r == -1 {
        r := onTheFlyImpl.GetNextPrime(p);
      }
    }
  }

  lemma NextAfterMinusOne(r: int)
    ensures Prime(2) && !Prime(0) && !Prime(1)
    ensures IsNextPrime(-1, r) ==> r == 2
  {
    TwoIsPrime();
  }

  /** The next prime is unique, so all tables that give one give the same. */
  lemma NextPrimeIsUnique(p: int, q: int, r: int)
    requires IsNextPrime(p, q) && IsNextPrime(p, r)
    ensures q == r
  {
    assert p < q < r ==> !Prime(q);
    assert p < r < q ==> !Prime(r);
  }
}
