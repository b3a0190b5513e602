/**
 The bucket-count search of the dictionary (libndarray/src/npy_dict.c): the
 first odd number that passes trial division by the odd numbers below 51.
 */
module PrimeSearch {
  import opened CInt

  predicate TrialDivisor(i: int) {
    3 <= i < 51 && i % 2 == 1
  }

  predicate Divides(i: int, n: int)
    requires i > 0
  {
    n % i == 0
  }

  /** No trial divisor other than `n` itself divides `n`. */
  ghost predicate PassesTrials(n: int) {
    forall i :: TrialDivisor(i) && Divides(i, n) ==> n == i
  }

  lemma LargerDoesNotDivide(i: int, n: int)
    requires 0 < n < i
    ensures !Divides(i, n)
  {
  }

  /** The loop stops at the first trial divisor that equals or divides `n`. */
  method IsProbablePrime(n: int) returns (r: bool)
    ensures r <==> PassesTrials(n)
  {
    hide Divides;
    var i := 3;
    while i < 51
      invariant 3 <= i <= 51 && i % 2 == 1
      invariant forall j :: TrialDivisor(j) && j < i ==> n != j && !Divides(j, n)
    {
      if n == i {
        forall j | TrialDivisor(j) && Divides(j, n) ensures n == j {
          if j > n {
            LargerDoesNotDivide(j, n);
          }
        }
        return true;
      } else if Divides(i, n) {
        assert TrialDivisor(i) && Divides(i, n);
        return false;
      }
      i := i + 2;
    }
    return true;
  }

  /** A common multiple of the trial divisors: the least one, 3^3 * 5^2 * 7^2 and
      each prime from 11 to 47. */
  const COMMON_MULTIPLE: int := 96845140757687397075

  lemma CommonMultiple(i: int)
    requires TrialDivisor(i)
    ensures COMMON_MULTIPLE % i == 0
  {
    assert i == 3 || i == 5 || i == 7 || i == 9 || i == 11 || i == 13 || i == 15 || i == 17
        || i == 19 || i == 21 || i == 23 || i == 25 || i == 27 || i == 29 || i == 31 || i == 33
        || i == 35 || i == 37 || i == 39 || i == 41 || i == 43 || i == 45 || i == 47 || i == 49;
  }

  /** Beyond every start there is an odd number one above a common multiple,
      which no trial divisor divides. */
  function NumberAhead(start: nat): (t: int)
    ensures t >= start && t % 2 == 1 && PassesTrials(t)
  {
    hide PassesTrials;
    AllOneAbove(start);
    OddAhead(COMMON_MULTIPLE, start);
    2 * COMMON_MULTIPLE * start + 1
  }

  lemma OddAhead(c: nat, k: nat)
    requires c >= 1
    ensures var t := 2 * c * k + 1; t >= k && t % 2 == 1
  {
    ProductMonotone(1, c, k);
    var p := c * k;
    assert 2 * c * k == 2 * p;
  }

  lemma AllOneAbove(k: nat)
    ensures PassesTrials(2 * COMMON_MULTIPLE * k + 1)
  {
    hide Divides;
    var t := 2 * COMMON_MULTIPLE * k + 1;
    forall i | TrialDivisor(i) ensures !Divides(i, t) {
      OneAbove(i, k);
    }
  }

  lemma OneAbove(i: int, k: nat)
    requires TrialDivisor(i)
    ensures !Divides(i, 2 * COMMON_MULTIPLE * k + 1)
  {
    CommonMultiple(i);
    var c := COMMON_MULTIPLE / i;
    assert COMMON_MULTIPLE == i * c;
    calc {
      2 * COMMON_MULTIPLE * k;
      2 * (i * c) * k;
      i * (2 * c * k);
    }
    QuotientUnique(2 * COMMON_MULTIPLE * k + 1, i, 2 * c * k, 1);
  }

  function Scaled(ratio: real, x: real): real {
    ratio * x
  }

  /** What `buckets` buckets hold at the ratio `ratio`. */
  function Room(ratio: real, buckets: int): real {
    Scaled(ratio, buckets as real)
  }

  lemma RatioOrder(ratio: real, x: real, y: real)
    requires ratio > 0.0
    ensures x <= y ==> Scaled(ratio, x) <= Scaled(ratio, y)
    ensures x < y ==> Scaled(ratio, x) < Scaled(ratio, y)
  {
    if x < y {
      assert ratio * (y - x) > 0.0;
    }
  }

  lemma RoomGrows(ratio: real, a: int, b: int)
    requires ratio > 0.0
    ensures a <= b ==> Room(ratio, a) <= Room(ratio, b)
  {
    hide Scaled;
    RatioOrder(ratio, a as real, b as real);
  }

  lemma ScaledQuotient(n: nat, ratio: real)
    requires ratio > 0.0
    ensures Scaled(ratio, n as real / ratio) == n as real
  {
  }

  /** The quotient by the ratio, rounded down. */
  function RoundedDown(n: nat, ratio: real): (r: nat)
    requires ratio > 0.0
    ensures Room(ratio, r) <= n as real < Room(ratio, r + 1)
  {
    hide Scaled;
    var x := n as real / ratio;
    ScaledQuotient(n, ratio);
    RatioOrder(ratio, x.Floor as real, x);
    RatioOrder(ratio, x, (x.Floor + 1) as real);
    x.Floor
  }

  /** The first odd candidate: the rounded-down ideal count, made odd, at least 5. It is
      enough for the elements, and unless it is 5 there is not one bucket too many. */
  function FirstCandidate(numOfElements: nat, idealRatio: real): (r: nat)
    requires idealRatio > 0.0
    ensures r >= 5 && r % 2 == 1
    ensures numOfElements as real < Room(idealRatio, r + 1)
    ensures r == 5 || Room(idealRatio, r - 1) <= numOfElements as real
  {
    hide RoundedDown, Room, Scaled;
    var ideal := RoundedDown(numOfElements, idealRatio);
    var r := if ideal < 5 then 5 else if ideal % 2 == 0 then ideal + 1 else ideal;
    RoomGrows(idealRatio, ideal + 1, r + 1);
    RoomGrows(idealRatio, r - 1, ideal);
    assert r != 5 ==> r - 1 <= ideal;
    assert ideal + 1 <= r + 1;
    r
  }

  /** These bounds leave one odd candidate only. */
  lemma CandidateUnique(numOfElements: nat, idealRatio: real, r: int)
    requires idealRatio > 0.0 && r >= 5 && r % 2 == 1
    requires numOfElements as real < Room(idealRatio, r + 1)
    requires r == 5 || Room(idealRatio, r - 1) <= numOfElements as real
    ensures r == FirstCandidate(numOfElements, idealRatio)
  {
    hide RoundedDown, Room, Scaled;
    var c: int := FirstCandidate(numOfElements, idealRatio);
    hide FirstCandidate;
    RoomGrows(idealRatio, r + 1, c - 1);
    RoomGrows(idealRatio, c + 1, r - 1);
  }

  /** `n` is the first odd number from `first` on that passes. */
  ghost predicate FirstPassing(first: int, n: int) {
    && first <= n && n % 2 == 1 && PassesTrials(n)
    && forall m :: first <= m < n && m % 2 == 1 ==> !PassesTrials(m)
  }

  ghost predicate IsIdealNumOfBuckets(n: int, numOfElements: nat, idealRatio: real)
    requires idealRatio > 0.0
  {
    FirstPassing(FirstCandidate(numOfElements, idealRatio), n)
  }

  /** The search ends for every element count. */
  method CalculateIdealNumOfBuckets(numOfElements: nat, idealRatio: real) returns (n: int)
    requires idealRatio > 0.0
    ensures IsIdealNumOfBuckets(n, numOfElements, idealRatio)
    ensures numOfElements as real < Room(idealRatio, n + 1)
  {
    hide Room, PassesTrials;
    n := RoundedDown(numOfElements, idealRatio);
    hide RoundedDown;
    if n < 5 {
      n := 5;
    } else if n % 2 == 0 {
      n := n + 1;
    }
    n := SearchFrom(n);
    RoomGrows(idealRatio, FirstCandidate(numOfElements, idealRatio) + 1, n + 1);
  }

  /** Its loop, from the candidate on. */
  method SearchFrom(first: nat) returns (n: int)
    requires first % 2 == 1
    ensures FirstPassing(first, n)
  {
    hide PassesTrials, NumberAhead;
    n := first;
    ghost var ahead := NumberAhead(first);
    while true
      invariant first <= n <= ahead && n % 2 == 1
      invariant forall m :: first <= m < n && m % 2 == 1 ==> !PassesTrials(m)
      decreases ahead - n
    {
      var passes := IsProbablePrime(n);
      if passes {
        break;
      }
      n := n + 2;
    }
  }

  ghost predicate IsPrime(n: int) {
    n >= 2 && forall d :: 2 <= d < n ==> n % d != 0
  }

  /** Below 53 squared, passing the trials is being prime. */
  lemma PassesIsPrime(n: int)
    requires 3 <= n < 2809 && n % 2 == 1
    ensures PassesTrials(n) <==> IsPrime(n)
  {
    if IsPrime(n) {
      forall i | TrialDivisor(i) && Divides(i, n) ensures n == i {
        if i > n {
          LargerDoesNotDivide(i, n);
        }
      }
    }
    if PassesTrials(n) {
      forall d | 2 <= d < n ensures n % d != 0 {
        if n % d == 0 {
          SmallDivisor(n, d);
        }
      }
    }
  }

  /** A proper divisor of an odd number below 2809 leads to a trial divisor. */
  lemma SmallDivisor(n: int, d: int)
    requires 3 <= n < 2809 && n % 2 == 1 && 2 <= d < n && n % d == 0
    ensures !PassesTrials(n)
  {
    var e := n / d;
    assert n == d * e;
    ProductMonotone(e, 1, d);
    if d <= e {
      SmallFactor(n, d, e);
    } else {
      SmallFactor(n, e, d);
    }
  }

  lemma SmallFactor(n: int, a: int, b: int)
    requires n == a * b && 2 <= a <= b && n < 2809 && n % 2 == 1
    ensures !PassesTrials(n)
  {
    ProductMonotone(53, a, b);
    ProductMonotone(2, b, a);
    OddFactor(n, a, b);
    if a == 51 {
      QuotientUnique(n, 3, 17 * b, 0);
      assert TrialDivisor(3) && Divides(3, n);
    } else {
      QuotientUnique(n, a, b, 0);
      assert TrialDivisor(a) && Divides(a, n);
    }
  }

  lemma OddFactor(n: int, a: int, b: int)
    requires n == a * b && n % 2 == 1
    ensures a % 2 == 1
  {
    if a % 2 == 0 {
      QuotientUnique(n, 2, a / 2 * b, 0);
    }
  }

  predicate ProperDivisor(d: int, n: int) {
    2 <= d < n && n % d == 0
  }

  ghost predicate NoSmallDivisor(n: int) {
    forall d :: ProperDivisor(d, n) ==> d >= 53
  }

  /** What passing means for every candidate: no proper divisor below 53. So a
      number passes without being prime exactly if it is composite and all its
      proper divisors are at least 53. */
  lemma PassesExact(n: int)
    requires n >= 3 && n % 2 == 1
    ensures PassesTrials(n) <==> NoSmallDivisor(n)
    ensures PassesTrials(n) && !IsPrime(n) <==> NoSmallDivisor(n) && exists d :: ProperDivisor(d, n)
  {
    if NoSmallDivisor(n) {
      forall i | TrialDivisor(i) && Divides(i, n) ensures n == i {
        if i > n {
          LargerDoesNotDivide(i, n);
        }
        assert i < n ==> ProperDivisor(i, n);
      }
    }
    if PassesTrials(n) {
      forall d | ProperDivisor(d, n) ensures d >= 53 {
        if d < 53 {
          SmallFactorFails(n, d);
        }
      }
    }
    assert IsPrime(n) <==> !exists d :: ProperDivisor(d, n) by {
      if !IsPrime(n) {
        var d :| 2 <= d < n && n % d == 0;
        assert ProperDivisor(d, n);
      }
    }
  }

  lemma SmallFactorFails(n: int, d: int)
    requires n % 2 == 1 && ProperDivisor(d, n) && d < 53
    ensures !PassesTrials(n)
  {
    var e := n / d;
    assert n == d * e;
    OddFactor(n, d, e);
    if d == 51 {
      QuotientUnique(n, 3, 17 * e, 0);
      assert TrialDivisor(3) && Divides(3, n);
    } else {
      assert TrialDivisor(d) && Divides(d, n);
    }
  }

  /** 2809 is 53 squared: the first number that passes and is not prime. */
  lemma FirstPseudoPrime()
    ensures PassesTrials(2809) && !IsPrime(2809)
  {
    assert 2809 % 53 == 0;
  }
}
