/** The prime-number service of main.go: `CheckPrime` trial-divides one
    number and appends it to the package-level list when no divisor is found;
    `GetPrimeNumberListService` resets the list and checks 0..number one
    number at a time, waiting on the WaitGroup after each. */
module Primes {
  import opened GoArith

  predicate IsPrime(n: int)
  {
    n >= 2 && forall d :: 2 <= d < n ==> n % d != 0
  }

  /** A number above n/2 and below n leaves remainder n - d, so it is no
      divisor. */
  lemma AboveHalf(n: int, d: int)
    requires 2 <= d < n && 2 * d > n
    ensures n % d == n - d
  {
    assert n == d * 1 + (n - d);
  }

  /** Trial division up to n/2 is enough. */
  lemma HalfSuffices(n: int)
    requires n >= 2
    requires forall d :: 2 <= d <= n / 2 ==> n % d != 0
    ensures IsPrime(n)
  {
    forall d | 2 <= d < n
      ensures n % d != 0
    {
      if d > n / 2 {
        AboveHalf(n, d);
      }
    }
  }

  /** The primes in [0, n], smallest first. */
  function PrimesUpTo(n: int): seq<int>
    decreases if n < 0 then 0 else n + 1
  {
    if n < 0 then [] else PrimesUpTo(n - 1) + (if IsPrime(n) then [n] else [])
  }

  /** PrimesUpTo holds exactly the primes between 0 and n. */
  lemma {:induction false} PrimesUpToMembers(n: int, x: int)
    ensures x in PrimesUpTo(n) <==> 0 <= x <= n && IsPrime(x)
    decreases if n < 0 then 0 else n + 1
  {
    if n >= 0 {
      PrimesUpToMembers(n - 1, x);
    }
  }

  /** PrimesUpTo is strictly increasing, so it holds each prime once. */
  lemma {:induction false} PrimesUpToAscending(n: int)
    ensures forall i, j :: 0 <= i < j < |PrimesUpTo(n)| ==> PrimesUpTo(n)[i] < PrimesUpTo(n)[j]
    decreases if n < 0 then 0 else n + 1
  {
    if n >= 0 {
      var p := PrimesUpTo(n - 1);
      PrimesUpToAscending(n - 1);
      forall i | 0 <= i < |p|
        ensures p[i] < n
      {
        PrimesUpToMembers(n - 1, p[i]);
      }
    }
  }

  /** 0 and 1 are never listed; 2 and 3 are, although their trial loop runs
      no round. */
  lemma SmallNumbers(n: int)
    requires n >= 3
    ensures 0 !in PrimesUpTo(n) && 1 !in PrimesUpTo(n)
    ensures 2 in PrimesUpTo(n) && 3 in PrimesUpTo(n)
  {
    PrimesUpToMembers(n, 0);
    PrimesUpToMembers(n, 1);
    PrimesUpToMembers(n, 2);
    PrimesUpToMembers(n, 3);
  }

  /** The package-level `primeNumberList` together with the WaitGroup counter. */
  class PrimeService {
    var primeNumberList: seq<int>
    var pending: int

    constructor ()
      ensures primeNumberList == [] && pending == 0
    {
      primeNumberList := [];
      pending := 0;
    }

    /** CheckPrime: appends `number` when no divisor in 2..number/2 is found
        (so every prime, and every negative number, whose loop is empty), and
        calls Done exactly once on every path. */
    method CheckPrime(number: int)
      modifies this
      ensures pending == old(pending) - 1
      ensures primeNumberList
           == old(primeNumberList) + (if number < 0 || IsPrime(number) then [number] else [])
    {
      var isPrime := true;
      if number == 0 || number == 1 {
        pending := pending - 1;
      } else {
        var i := 2;
        while i <= TruncDiv(number, 2)
          invariant 2 <= i
          invariant forall d :: 2 <= d < i ==> number % d != 0
          invariant primeNumberList == old(primeNumberList) && pending == old(pending)
          invariant isPrime
        {
          TruncDivPositive(number, 2);
          if TruncRem(number, i) == 0 {
            assert number % i == 0 && i < number;
            pending := pending - 1;
            isPrime := false;
            break;
          }
          i := i + 1;
        }
        if isPrime {
          if number >= 2 {
            TruncDivPositive(number, 2);
            HalfSuffices(number);
          }
          primeNumberList := primeNumberList + [number];
          pending := pending - 1;
        }
      }
    }

    /** GetPrimeNumberListService (sequentialised): the list is reset, then
        holds the primes of [0, number] in ascending order, and every Wait
        finds the counter back at zero. */
    method GetPrimeNumberList(number: int)
      requires pending == 0
      modifies this
      ensures primeNumberList == PrimesUpTo(number)
      ensures pending == 0
    {
      primeNumberList := [];
      var i := 0;
      while i <= number
        invariant 0 <= i && (if number >= 0 then i <= number + 1 else i == 0)
        invariant primeNumberList == PrimesUpTo(i - 1)
        invariant pending == 0
      {
        pending := pending + 1;
        CheckPrime(i);
        assert pending == 0;
        i := i + 1;
      }
    }
  }
}
