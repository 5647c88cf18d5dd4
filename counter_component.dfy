/**
 * The `Counter` component of the optimisation project: a trial-division
 * primality test of the initial count, and a counter moved by one in either
 * direction.
 */
module CounterComponent {

  /** `n` is prime: greater than one and without a divisor strictly between 1 and `n`. */
  ghost predicate Prime(n: int) {
    n > 1 && forall d :: 2 <= d < n ==> n % d != 0
  }

  /** Multiplying by a non-negative factor keeps the order. */
  lemma MulMonotone(a: int, b: int, c: int)
    requires a <= b && 0 <= c
    ensures a * c <= b * c
  {
    assert b * c - a * c == (b - a) * c;
  }

  /** A multiple of `e` leaves no remainder when divided by `e`. */
  lemma MultipleHasNoRemainder(e: int, d: int)
    requires e > 0
    ensures (e * d) % e == 0
  {
    var q, m := (e * d) / e, (e * d) % e;
    assert e * d == e * q + m && 0 <= m < e;
    assert e * (d - q) == m;
    if d - q > 0 {
      MulMonotone(1, d - q, e);
    } else if d - q < 0 {
      MulMonotone(d - q, -1, e);
    }
  }

  /** A divisor `d` of `n` at or above `i`, where `n < i * i`, has a cofactor that is a smaller divisor. */
  lemma CofactorIsSmallDivisor(n: int, d: int, i: int)
    requires 2 <= i <= d < n && n < i * i && n % d == 0
    ensures 2 <= n / d < i && n % (n / d) == 0
  {
    var e := n / d;
    assert n == d * e;
    if e <= 1 {
      MulMonotone(e, 1, d);
    }
    if e >= i {
      MulMonotone(i, e, d);
      MulMonotone(i, d, i);
    }
    MultipleHasNoRemainder(e, d);
  }

  /**
   * If no candidate below `i` divides `n` and `i * i` already exceeds `n`,
   * then nothing between 2 and `n - 1` divides `n`.
   */
  lemma NoDivisorAboveSquareRoot(n: int, i: int)
    requires 2 <= i && n < i * i
    requires forall d :: 2 <= d < i ==> n % d != 0
    ensures forall d :: 2 <= d < n ==> n % d != 0
  {
    forall d | 2 <= d < n
      ensures n % d != 0
    {
      if n % d == 0 && d >= i {
        CofactorIsSmallDivisor(n, d, i);
        assert false;
      }
    }
  }

  /**
   * `isPrime(number)`: numbers up to 1 are not prime; otherwise candidates
   * `i = 2, 3, ...` are tried while `i` is at most the square root of
   * `number`, and the first that divides it answers "not prime".
   */
  method IsPrime(number: int) returns (r: bool)
    ensures r <==> Prime(number)
  {
    if number <= 1 {
      return false;
    }
    var i := 2;
    while i * i <= number
      invariant 2 <= i
      invariant (i - 1) * (i - 1) <= number
      invariant forall d :: 2 <= d < i ==> number % d != 0
      decreases number - i
    {
      assert i < number by {
        assert i * 2 <= i * i;
      }
      if number % i == 0 {
        return false;
      }
      i := i + 1;
    }
    NoDivisorAboveSquareRoot(number, i);
    return true;
  }

  /** What the component holds: the initial count, whether it is prime, and the counter state. */
  datatype CounterView = CounterView(initialCount: int, initialCountIsPrime: bool, counter: int)

  /** The component's first render: the counter state starts at `initialCount`. */
  method Mount(initialCount: int) returns (v: CounterView)
    ensures v.initialCount == initialCount && v.counter == initialCount
    ensures v.initialCountIsPrime <==> Prime(initialCount)
  {
    var isPrime := IsPrime(initialCount);
    v := CounterView(initialCount, isPrime, initialCount);
  }

  /** `handleIncrement`: the updater `prevCounter => prevCounter + 1`; nothing else changes. */
  function HandleIncrement(v: CounterView): (r: CounterView)
    ensures r.counter - v.counter == 1
    ensures r.initialCount == v.initialCount && r.initialCountIsPrime == v.initialCountIsPrime
  {
    v.(counter := v.counter + 1)
  }

  /** `handleDecrement`: the updater `prevCounter => prevCounter - 1`; nothing else changes. */
  function HandleDecrement(v: CounterView): (r: CounterView)
    ensures v.counter - r.counter == 1
    ensures r.initialCount == v.initialCount && r.initialCountIsPrime == v.initialCountIsPrime
  {
    v.(counter := v.counter - 1)
  }

  /** Incrementing and decrementing undo each other, in either order. */
  lemma IncrementDecrementInverse(v: CounterView)
    ensures HandleDecrement(HandleIncrement(v)) == v
    ensures HandleIncrement(HandleDecrement(v)) == v
  {
  }
}
