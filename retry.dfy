/** Bounded exponential backoff around an operation that may fail. */
module Retry {
  import opened Wrappers
  import opened Env
  import Errors

  type Positive = n: nat | n > 0 witness 1

  /** The backoff multiplier, a float in the source, as the ratio num / den. */
  datatype Multiplier = Ratio(num: nat, den: Positive)

  datatype Config = Config(maxAttempts: int, initialWait: Time, maxWait: Time, multiplier: Multiplier)

  /** `DefaultConfig`: 3 attempts, 100ms first wait, 5s cap, factor 2. */
  function DefaultConfig(): (c: Config)
    ensures c.maxAttempts == 3 && c.initialWait == 100 * Millisecond && c.maxWait == 5 * Second
    ensures c.multiplier.num == 2 * c.multiplier.den
  {
    Config(3, 100 * Millisecond, 5 * Second, Ratio(2, 1))
  }

  /** The wait after one more failure: scaled (truncated to whole nanoseconds), then capped. */
  function NextWait(cfg: Config, wait: Time): (w: Time)
    ensures w <= cfg.maxWait
  {
    var scaled := Scale(wait, cfg.multiplier);
    if scaled > cfg.maxWait then cfg.maxWait else scaled
  }

  /** `wait` times the multiplier, truncated to whole nanoseconds. */
  function Scale(wait: Time, m: Multiplier): Time
  {
    Times(wait, m.num) / m.den
  }

  /** a * k by repeated addition, which keeps the loop proofs free of nonlinear terms. */
  function Times(a: nat, k: nat): nat
  {
    if k == 0 then 0 else Times(a, k - 1) + a
  }

  lemma {:induction false} TimesIsProduct(a: nat, k: nat)
    ensures Times(a, k) == a * k
  {
    if k > 0 {
      TimesIsProduct(a, k - 1);
      assert a * k == a * (k - 1) + a;
    }
  }

  /**
   * The value of the next wait for every ratio: the previous wait times the multiplier,
   * truncated to whole nanoseconds, then capped at `maxWait`.
   */
  lemma NextWaitValue(cfg: Config, wait: Time)
    ensures var scaled := wait * cfg.multiplier.num / cfg.multiplier.den;
      NextWait(cfg, wait) == if scaled > cfg.maxWait then cfg.maxWait else scaled
  {
    TimesIsProduct(wait, cfg.multiplier.num);
  }

  /** The n-th wait (from 0): the first is `initialWait` uncapped, each later one follows `NextWait`. */
  function BackoffWait(cfg: Config, n: nat): Time
  {
    if n == 0 then cfg.initialWait else NextWait(cfg, BackoffWait(cfg, n - 1))
  }

  function Power(b: nat, n: nat): nat
  {
    if n == 0 then 1 else b * Power(b, n - 1)
  }

  function Min(a: nat, b: nat): nat
  {
    if a <= b then a else b
  }

  /** With a whole-number factor m, the n-th wait (n >= 1) is min(initial * m^n, maxWait). */
  lemma {:induction false} BackoffClosedForm(cfg: Config, n: nat)
    requires cfg.multiplier.den == 1 && n >= 1
    ensures BackoffWait(cfg, n) == Min(cfg.initialWait * Power(cfg.multiplier.num, n), cfg.maxWait)
  {
    var m := cfg.multiplier.num;
    var a := cfg.initialWait;
    var prev := BackoffWait(cfg, n - 1);
    TimesIsProduct(prev, m);
    assert BackoffWait(cfg, n) == Min(prev * m, cfg.maxWait);
    if n > 1 {
      BackoffClosedForm(cfg, n - 1);
      var x := a * Power(m, n - 1);
      assert prev == Min(x, cfg.maxWait);
      CapThenScale(x, cfg.maxWait, m);
      PowerStep(a, m, n);
    }
  }

  lemma PowerStep(a: nat, m: nat, n: nat)
    requires n >= 1
    ensures a * Power(m, n) == a * Power(m, n - 1) * m
  {
    assert Power(m, n) == m * Power(m, n - 1);
  }

  /** Capping before scaling by a whole factor, then capping again, is the same as capping once. */
  lemma CapThenScale(x: nat, cap: nat, m: nat)
    ensures Min(Min(x, cap) * m, cap) == Min(x * m, cap)
  {
    if x > cap {
      if m >= 1 {
        MulMonotone(x, m);
        MulMonotone(cap, m);
      }
    }
  }

  lemma MulMonotone(x: nat, m: nat)
    requires m >= 1
    ensures x * m >= x
  {
  }

  /** Every wait after the first is at most `maxWait`. */
  lemma LaterWaitsCapped(cfg: Config, n: nat)
    requires n >= 1
    ensures BackoffWait(cfg, n) <= cfg.maxWait
  {
  }

  /** The text of a decimal integer, as `%d` prints it. */
  function Decimal(n: int): string
  {
    if n < 0 then "-" + Digits(-n) else Digits(n)
  }

  function Digits(n: nat): string
    decreases n
  {
    if n < 10 then [DigitChar(n)] else Digits(n / 10) + [DigitChar(n % 10)]
  }

  function DigitChar(d: nat): char
    requires d < 10
  {
    "0123456789"[d]
  }

  /** The error returned when every attempt failed, wrapping the last failure (nil when none ran). */
  function Exhausted(maxAttempts: int, last: Option<Errors.Error>): Errors.Error
  {
    Errors.Wrapped("max retry attempts reached (" + Decimal(maxAttempts) + ")", last)
  }

  /** The error returned when the context is done during a wait. */
  function Cancelled(ctxErr: Errors.Error): Errors.Error
  {
    Errors.Wrapped("retry cancelled", Some(ctxErr))
  }

  /**
   * `Do`. The k-th call of the operation (from 1) yields `fn(k)` (None is success);
   * `cancelledDuring(k)` says whether the context is done before the wait after call k elapses.
   * Returns the error, the number of calls made and the waits that ran to completion.
   */
  method Do(cfg: Config, fn: nat -> Option<Errors.Error>, cancelledDuring: nat -> bool, ctxErr: Errors.Error)
    returns (err: Option<Errors.Error>, calls: nat, waits: seq<Time>)
    ensures calls == 0 <==> cfg.maxAttempts <= 0
    ensures calls <= cfg.maxAttempts || calls == 0
    ensures forall k :: 1 <= k < calls ==> fn(k).Some? && !cancelledDuring(k)
    ensures err.None? <==> calls > 0 && fn(calls).None?
    ensures calls > 0 ==> |waits| == calls - 1
    ensures calls == 0 ==> waits == []
    ensures forall i :: 0 <= i < |waits| ==> waits[i] == BackoffWait(cfg, i)
    ensures err.Some? && 0 < calls < cfg.maxAttempts ==> cancelledDuring(calls) && err == Some(Cancelled(ctxErr))
    ensures err.Some? && (calls == 0 || calls == cfg.maxAttempts) ==>
              err == Some(Exhausted(cfg.maxAttempts, if calls == 0 then None else fn(calls)))
  {
    var lastErr: Option<Errors.Error> := None;
    var wait := cfg.initialWait;
    var attempt := 1;
    calls, waits := 0, [];
    while attempt <= cfg.maxAttempts
      invariant 1 <= attempt && calls == attempt - 1
      invariant cfg.maxAttempts <= 0 ==> attempt == 1
      invariant cfg.maxAttempts > 0 ==> attempt <= cfg.maxAttempts
      invariant wait == BackoffWait(cfg, attempt - 1)
      invariant |waits| == attempt - 1
      invariant forall i :: 0 <= i < |waits| ==> waits[i] == BackoffWait(cfg, i)
      invariant forall k :: 1 <= k < attempt ==> fn(k).Some? && !cancelledDuring(k)
      invariant lastErr == if attempt == 1 then None else fn(attempt - 1)
    {
      calls := calls + 1;
      var result := fn(attempt);
      if result.None? {
        err := None;
        return;
      }
      lastErr := result;
      if attempt == cfg.maxAttempts {
        break;
      }
      if cancelledDuring(attempt) {
        err := Some(Cancelled(ctxErr));
        return;
      }
      waits := waits + [wait];
      wait := NextWait(cfg, wait);
      attempt := attempt + 1;
    }
    err := Some(Exhausted(cfg.maxAttempts, lastErr));
  }

  /**
   * The default policy against an operation that always fails, with no cancellation:
   * three calls, waits of 100ms then 200ms, and the exhaustion error wrapping the failure.
   */
  method DefaultPolicyAgainstPermanentFailure(failure: Errors.Error, ctxErr: Errors.Error)
    returns (err: Option<Errors.Error>, calls: nat, waits: seq<Time>)
    ensures calls == 3
    ensures waits == [100 * Millisecond, 200 * Millisecond]
    ensures err == Some(Errors.Wrapped("max retry attempts reached (3)", Some(failure)))
  {
    err, calls, waits := Do(DefaultConfig(), (k: nat) => Some(failure), (k: nat) => false, ctxErr);
    assert BackoffWait(DefaultConfig(), 1) == 200 * Millisecond by {
      TimesIsProduct(100 * Millisecond, 2);
    }
    assert Decimal(3) == "3";
    assert "max retry attempts reached (" + "3" + ")" == "max retry attempts reached (3)";
  }
}
