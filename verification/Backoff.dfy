/**
 The redelivery delay of the consumer: `retryDelay` (eventbus/consumer.go) under
 a configuration that has been through `defaults` and `validate`
 (eventbus/config.go).
 */
module Backoff {

  const TWO_63: int := 0x8000_0000_0000_0000

  /** `time.Duration`, in nanoseconds; arithmetic on it is checked for overflow. */
  newtype Duration = i: int | -TWO_63 <= i < TWO_63

  newtype uint64 = i: int | 0 <= i < 2 * TWO_63

  const SECOND: Duration := 1_000_000_000

  datatype Config = Config(ackWait: Duration, handlerTimeout: Duration, retryDelay: Duration,
                           maxRetryDelay: Duration, maxDeliver: int, deadLetterMaxDataBytes: int)

  function Defaulted(c: Config): Config {
    c.(ackWait := if c.ackWait <= 0 then 30 * SECOND else c.ackWait,
       handlerTimeout := if c.handlerTimeout <= 0 then 25 * SECOND else c.handlerTimeout,
       retryDelay := if c.retryDelay <= 0 then SECOND else c.retryDelay,
       maxRetryDelay := if c.maxRetryDelay <= 0 then 60 * SECOND else c.maxRetryDelay,
       maxDeliver := if c.maxDeliver <= 0 then 10 else c.maxDeliver,
       deadLetterMaxDataBytes := if c.deadLetterMaxDataBytes <= 0 then 0x10_0000 else c.deadLetterMaxDataBytes)
  }

  predicate Validated(c: Config) {
    c.handlerTimeout < c.ackWait && c.retryDelay <= c.maxRetryDelay
  }

  /** A configuration as a running bus holds it. */
  ghost predicate Accepted(c: Config) {
    exists raw :: c == Defaulted(raw) && Validated(c)
  }

  lemma AcceptedBounds(c: Config)
    requires Accepted(c)
    ensures 0 < c.retryDelay <= c.maxRetryDelay
  {
  }

  function Pow2(n: nat): (p: int)
    ensures p >= 1
  {
    if n == 0 then 1 else 2 * Pow2(n - 1)
  }

  /** A base delay doubled n times. */
  function Grown(base: int, n: nat): int {
    if n == 0 then base else 2 * Grown(base, n - 1)
  }

  lemma {:induction false} GrownIsPower(base: int, n: nat)
    ensures Grown(base, n) == base * Pow2(n)
  {
    if n > 0 {
      GrownIsPower(base, n - 1);
      assert base * (2 * Pow2(n - 1)) == 2 * (base * Pow2(n - 1));
    }
  }

  lemma {:induction false} GrownMonotone(base: int, m: nat, n: nat)
    requires base > 0 && m <= n
    ensures 0 < Grown(base, m) <= Grown(base, n)
    ensures m < n ==> 2 * Grown(base, m) <= Grown(base, n)
  {
    if n > 0 {
      GrownMonotone(base, if m < n then m else n - 1, n - 1);
    }
  }

  /** The doublings asked for: one less than the delivery count, at most 16. */
  function Doublings(delivery: int): (n: nat)
    ensures n <= 16
  {
    if delivery <= 1 then 0 else if delivery - 1 > 16 then 16 else delivery - 1
  }

  function Min(a: int, b: int): int {
    if a <= b then a else b
  }

  /** Exponential growth from the base delay, capped at the maximum. */
  function Ideal(c: Config, delivery: int): int {
    Min(Grown(c.retryDelay as int, Doublings(delivery)), c.maxRetryDelay as int)
  }

  /** What the loop returns: the capped exponential, except that it jumps to the
      maximum one doubling early when that doubling would stop one short of it. */
  function Delay(c: Config, delivery: int): int {
    var grown := Grown(c.retryDelay as int, Doublings(delivery));
    if Doublings(delivery) > 0 && grown + 1 == c.maxRetryDelay as int then c.maxRetryDelay as int
    else Min(grown, c.maxRetryDelay as int)
  }

  /** `retryDelay`. The type of `delay` makes every doubling a proof that it fits. */
  method RetryDelay(c: Config, delivery: uint64) returns (delay: Duration)
    requires Accepted(c)
    ensures delay as int == Delay(c, delivery as int)
  {
    var shift: nat := 0;
    if delivery > 1 {
      shift := (delivery - 1) as int;
    }
    if shift > 16 {
      shift := 16;
    }
    AcceptedBounds(c);
    delay := c.retryDelay;
    for i := 0 to shift
      invariant delay as int == Grown(c.retryDelay as int, i)
      invariant 0 < delay <= c.maxRetryDelay
      invariant i > 0 ==> delay as int + 1 < c.maxRetryDelay as int
    {
      if delay >= c.maxRetryDelay / 2 {
        GrownMonotone(c.retryDelay as int, i, shift);
        return c.maxRetryDelay;
      }
      delay := delay * 2;
    }
  }

  /** The doubling stops one short of the maximum. */
  predicate OneShort(c: Config, delivery: int) {
    Doublings(delivery) > 0 && Grown(c.retryDelay as int, Doublings(delivery)) + 1 == c.maxRetryDelay as int
  }

  /** The delay differs from the capped exponential by at most one nanosecond,
      and by that exactly when the exponential stops one short of the maximum,
      which an even maximum rules out. */
  lemma DelayIsCappedExponential(c: Config, delivery: int)
    requires Accepted(c)
    ensures Delay(c, delivery) ==
              Ideal(c, delivery) + (if OneShort(c, delivery) then 1 else 0)
    ensures c.maxRetryDelay as int % 2 == 0 ==> Delay(c, delivery) == Ideal(c, delivery)
    ensures
      var n := if delivery <= 1 then 0 else if delivery >= 17 then 16 else delivery - 1;
      var grown, max := c.retryDelay as int * Pow2(n), c.maxRetryDelay as int;
      Ideal(c, delivery) == if grown <= max then grown else max
  {
    AcceptedBounds(c);
    GrownIsPower(c.retryDelay as int, Doublings(delivery));
  }

  /** The odd case occurs: 1 ns doubled once against a maximum of 3 ns. */
  lemma OddMaximumOvershoots()
    ensures exists c, delivery :: Accepted(c) && Delay(c, delivery) == Ideal(c, delivery) + 1
  {
    var c := Config(30 * SECOND, 25 * SECOND, 1, 3, 10, 1);
    assert c == Defaulted(c) && Validated(c);
    assert Grown(1, Doublings(2)) == 2 * Grown(1, 0) == 2;
    assert Delay(c, 2) == 3 && Ideal(c, 2) == 2;
  }

  /** The delay lies between base and maximum and never falls from one delivery
      to a later one. */
  lemma DelayBoundedAndMonotone(c: Config, d: int, e: int)
    requires Accepted(c) && d <= e
    ensures c.retryDelay as int <= Delay(c, d) <= Delay(c, e) <= c.maxRetryDelay as int
  {
    AcceptedBounds(c);
    GrownMonotone(c.retryDelay as int, 0, Doublings(d));
    GrownMonotone(c.retryDelay as int, Doublings(d), Doublings(e));
  }

  /** What a configuration says after defaults: what it says where it is positive. */
  lemma DefaultsKept(raw: Config)
    ensures
      var c := Defaulted(raw);
      && c.ackWait == (if raw.ackWait > 0 then raw.ackWait else 30_000_000_000)
      && c.handlerTimeout == (if raw.handlerTimeout > 0 then raw.handlerTimeout else 25_000_000_000)
      && c.retryDelay == (if raw.retryDelay > 0 then raw.retryDelay else 1_000_000_000)
      && c.maxRetryDelay == (if raw.maxRetryDelay > 0 then raw.maxRetryDelay else 60_000_000_000)
      && c.maxDeliver == (if raw.maxDeliver > 0 then raw.maxDeliver else 10)
      && c.deadLetterMaxDataBytes == (if raw.deadLetterMaxDataBytes > 0 then raw.deadLetterMaxDataBytes else 1_048_576)
  {
  }

  /** What a running bus can hold: every field positive, the handler cut off before the
      acknowledgement is due, and the base delay no longer than the maximum. */
  lemma AcceptedIff(c: Config)
    ensures Accepted(c) <==>
            && c.ackWait > 0 && c.handlerTimeout > 0 && c.retryDelay > 0 && c.maxRetryDelay > 0
            && c.maxDeliver > 0 && c.deadLetterMaxDataBytes > 0
            && c.handlerTimeout <= c.ackWait - 1 && !(c.retryDelay > c.maxRetryDelay)
  {
    if c.ackWait > 0 && c.handlerTimeout > 0 && c.retryDelay > 0 && c.maxRetryDelay > 0
       && c.maxDeliver > 0 && c.deadLetterMaxDataBytes > 0
    {
      assert c == Defaulted(c);
    }
  }

  /** With the default delays the deliveries wait 1, 2, 4, 8, 16, 32 and then 60 seconds. */
  lemma DefaultDelays(c: Config)
    requires c.retryDelay == 1_000_000_000 && c.maxRetryDelay == 60_000_000_000
    ensures Delay(c, 1) == 1_000_000_000 && Delay(c, 2) == 2_000_000_000 && Delay(c, 3) == 4_000_000_000
    ensures Delay(c, 4) == 8_000_000_000 && Delay(c, 5) == 16_000_000_000 && Delay(c, 6) == 32_000_000_000
    ensures Delay(c, 7) == 60_000_000_000
  {
    assert Grown(1_000_000_000, 4) == 16_000_000_000;
    assert Grown(1_000_000_000, 6) == 64_000_000_000;
  }
}
