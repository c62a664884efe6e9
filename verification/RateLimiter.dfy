/** The gateway's rate limiter: fixed one-second windows per connection and per user, a warm-up ramp,
    and the login lockout. Times are nanoseconds of a clock that starts at zero. */
module RateLimiter {
  import opened Arithmetic

  const SECOND := 1_000_000_000
  const TWO_TO_THE_64 := 0x1_0000_0000_0000_0000

  datatype Config = Config(
    maxPerSecond: nat, warmupMaxPerSecond: nat, warmupSeconds: nat,
    loginMaxAttempts: nat, loginBlockSeconds: nat, guestMaxPerSecond: nat)

  // ---- The effective limit -------------------------------------------------------------------

  /** The linear ramp in 64-bit unsigned arithmetic. */
  function WarmupLimit(cfg: Config, ageSeconds: nat): (limit: nat)
    requires ageSeconds < cfg.warmupSeconds
  {
    var span := (cfg.maxPerSecond - cfg.warmupMaxPerSecond) % TWO_TO_THE_64;
    (cfg.warmupMaxPerSecond + (span * ageSeconds) % TWO_TO_THE_64 / cfg.warmupSeconds) % TWO_TO_THE_64
  }

  function EffectiveLimit(cfg: Config, age: nat, guest: bool): (limit: nat) {
    if guest then cfg.guestMaxPerSecond
    else if age < cfg.warmupSeconds * SECOND then WarmupLimit(cfg, age / SECOND)
    else cfg.maxPerSecond
  }

  /** The two maxima are ordered machine words. */
  predicate Ordered(cfg: Config) {
    cfg.warmupMaxPerSecond <= cfg.maxPerSecond < TWO_TO_THE_64
  }

  /** The products of the ramp fit the machine word at every age below the warm-up duration. */
  predicate RampFits(cfg: Config) {
    cfg.warmupSeconds == 0 || (cfg.maxPerSecond - cfg.warmupMaxPerSecond) * (cfg.warmupSeconds - 1) < TWO_TO_THE_64
  }

  lemma {:induction false} Word(x: nat)
    ensures x < TWO_TO_THE_64 ==> x % TWO_TO_THE_64 == x
  {
  }

  /** For ordered maxima the ramp adds at most their difference, even where its product wraps. */
  lemma {:induction false} WarmupAdds(cfg: Config, ageSeconds: nat)
    requires Ordered(cfg) && ageSeconds < cfg.warmupSeconds
    ensures var span := cfg.maxPerSecond - cfg.warmupMaxPerSecond;
            var added := (span * ageSeconds) % TWO_TO_THE_64 / cfg.warmupSeconds;
      0 <= added <= span && WarmupLimit(cfg, ageSeconds) == cfg.warmupMaxPerSecond + added
  {
    var span := cfg.maxPerSecond - cfg.warmupMaxPerSecond;
    Added(span, ageSeconds, cfg.warmupSeconds);
    Word(span);
    Word(cfg.warmupMaxPerSecond + (span * ageSeconds) % TWO_TO_THE_64 / cfg.warmupSeconds);
  }

  lemma {:induction false} Added(span: nat, age: nat, w: nat)
    requires age < w
    ensures 0 <= (span * age) % TWO_TO_THE_64 / w <= span
  {
    MultiplyMonotone(span, age, w);
    assert span * w == w * span;
    RemainderAtMost(span * age);
    QuotientAtMost((span * age) % TWO_TO_THE_64, w, span);
  }

  lemma {:induction false} RemainderAtMost(x: nat)
    ensures x % TWO_TO_THE_64 <= x
  {
  }

  lemma {:induction false} WarmupWithin(cfg: Config, age: nat)
    requires Ordered(cfg)
    ensures cfg.warmupMaxPerSecond <= EffectiveLimit(cfg, age, false) <= cfg.maxPerSecond
  {
    if age < cfg.warmupSeconds * SECOND {
      WarmupAdds(cfg, age / SECOND);
    }
  }

  /** The limit stays between the two maxima for every age exactly when they are ordered. */
  lemma {:induction false} WarmupWithinIff(cfg: Config)
    requires cfg.maxPerSecond < TWO_TO_THE_64
    ensures (forall age: nat :: cfg.warmupMaxPerSecond <= EffectiveLimit(cfg, age, false) <= cfg.maxPerSecond)
            <==> cfg.warmupMaxPerSecond <= cfg.maxPerSecond
  {
    if cfg.warmupMaxPerSecond <= cfg.maxPerSecond {
      forall age: nat ensures cfg.warmupMaxPerSecond <= EffectiveLimit(cfg, age, false) <= cfg.maxPerSecond {
        WarmupWithin(cfg, age);
      }
    } else {
      assert EffectiveLimit(cfg, cfg.warmupSeconds * SECOND, false) == cfg.maxPerSecond;
    }
  }

  /** Without the order the unsigned subtraction wraps, and a one-second-old connection is allowed the
      share of 2^64 that its age is of the warm-up duration, in 64-bit arithmetic. */
  lemma {:induction false} WarmupWraps(cfg: Config)
    requires cfg.maxPerSecond < cfg.warmupMaxPerSecond < TWO_TO_THE_64 && cfg.warmupSeconds >= 2
    ensures var share := (TWO_TO_THE_64 - (cfg.warmupMaxPerSecond - cfg.maxPerSecond)) / cfg.warmupSeconds;
      EffectiveLimit(cfg, SECOND, false) == (cfg.warmupMaxPerSecond + share) % TWO_TO_THE_64
  {
    LimitAt(cfg, 1);
    WrappedRamp(cfg);
  }

  lemma {:induction false} WrappedRamp(cfg: Config)
    requires cfg.maxPerSecond < cfg.warmupMaxPerSecond < TWO_TO_THE_64 && cfg.warmupSeconds >= 2
    ensures var share := (TWO_TO_THE_64 - (cfg.warmupMaxPerSecond - cfg.maxPerSecond)) / cfg.warmupSeconds;
      WarmupLimit(cfg, 1) == (cfg.warmupMaxPerSecond + share) % TWO_TO_THE_64
  {
    var span := (cfg.maxPerSecond - cfg.warmupMaxPerSecond) % TWO_TO_THE_64;
    assert span == TWO_TO_THE_64 - (cfg.warmupMaxPerSecond - cfg.maxPerSecond) by {
      Negative(cfg.warmupMaxPerSecond - cfg.maxPerSecond);
    }
    assert (span * 1) % TWO_TO_THE_64 == span by { Word(span); }
  }

  lemma {:induction false} Negative(d: int)
    requires 0 < d < TWO_TO_THE_64
    ensures (0 - d) % TWO_TO_THE_64 == TWO_TO_THE_64 - d
  {
  }

  /** Where the products fit, the limit is the exact linear ramp. */
  lemma {:induction false} WarmupExact(cfg: Config, ageSeconds: nat)
    requires Ordered(cfg) && RampFits(cfg) && ageSeconds < cfg.warmupSeconds
    ensures WarmupLimit(cfg, ageSeconds) ==
            cfg.warmupMaxPerSecond + (cfg.maxPerSecond - cfg.warmupMaxPerSecond) * ageSeconds / cfg.warmupSeconds
  {
    var span := cfg.maxPerSecond - cfg.warmupMaxPerSecond;
    MultiplyMonotone(span, ageSeconds, cfg.warmupSeconds - 1);
    Word(span * ageSeconds);
    WarmupAdds(cfg, ageSeconds);
  }

  lemma {:induction false} WarmupGrows(cfg: Config, x: nat, y: nat)
    requires Ordered(cfg) && RampFits(cfg) && x <= y < cfg.warmupSeconds
    ensures WarmupLimit(cfg, x) <= WarmupLimit(cfg, y)
  {
    WarmupExact(cfg, x);
    WarmupExact(cfg, y);
    RampGrows(cfg.maxPerSecond - cfg.warmupMaxPerSecond, x, y, cfg.warmupSeconds);
  }

  lemma {:induction false} RampGrows(span: nat, x: nat, y: nat, w: nat)
    requires x <= y < w
    ensures span * x / w <= span * y / w
  {
    MultiplyMonotone(span, x, y);
    DivideMonotone(span * x, span * y, w);
  }

  ghost predicate GrowsWithAge(cfg: Config) {
    forall younger: nat, older: nat :: younger <= older ==>
      EffectiveLimit(cfg, younger, false) <= EffectiveLimit(cfg, older, false)
  }

  /** The limit of a non-guest connection grows with its age where the products fit. */
  lemma {:induction false} WarmupMonotone(cfg: Config)
    requires Ordered(cfg) && RampFits(cfg)
    ensures GrowsWithAge(cfg)
  {
    forall younger: nat, older: nat | younger <= older
      ensures EffectiveLimit(cfg, younger, false) <= EffectiveLimit(cfg, older, false)
    {
      if older < cfg.warmupSeconds * SECOND {
        DivideMonotone(younger, older, SECOND);
        WarmupGrows(cfg, younger / SECOND, older / SECOND);
      } else {
        WarmupWithin(cfg, younger);
      }
    }
  }

  /** The first age at which the product reaches 2^64. */
  lemma {:induction false} FirstWrap(span: nat, w: nat) returns (x: nat)
    requires 0 < span < TWO_TO_THE_64 && w > 0 && span * (w - 1) >= TWO_TO_THE_64
    ensures 0 < x < w && span * (x - 1) < TWO_TO_THE_64 <= span * x
  {
    x := w - 1;
    while span * (x - 1) >= TWO_TO_THE_64
      invariant 0 < x < w && span * x >= TWO_TO_THE_64
    {
      x := x - 1;
    }
  }

  /** A wrapping product makes the limit fall: by the whole of 2^64 less one step of the ramp. */
  lemma {:induction false} WrapFalls(cfg: Config, x: nat)
    requires Ordered(cfg) && 0 < x < cfg.warmupSeconds
    requires var span := cfg.maxPerSecond - cfg.warmupMaxPerSecond;
      span + cfg.warmupSeconds <= TWO_TO_THE_64 && span * (x - 1) < TWO_TO_THE_64 <= span * x
    ensures WarmupLimit(cfg, x) < WarmupLimit(cfg, x - 1)
  {
    var span := cfg.maxPerSecond - cfg.warmupMaxPerSecond;
    WarmupAdds(cfg, x);
    WarmupAdds(cfg, x - 1);
    WrapRemainders(span, x);
    QuotientFalls((span * x) % TWO_TO_THE_64, (span * (x - 1)) % TWO_TO_THE_64, cfg.warmupSeconds);
  }

  lemma {:induction false} WrapRemainders(span: nat, x: nat)
    requires x > 0 && span < TWO_TO_THE_64 && span * (x - 1) < TWO_TO_THE_64 <= span * x
    ensures (span * x) % TWO_TO_THE_64 + (TWO_TO_THE_64 - span) == (span * (x - 1)) % TWO_TO_THE_64
  {
    var before, after := span * (x - 1), span * x - TWO_TO_THE_64;
    assert span * x == before + span;
    Word(before);
    Remainder(after);
  }

  lemma {:induction false} Remainder(r: nat)
    requires r < TWO_TO_THE_64
    ensures (r + TWO_TO_THE_64) % TWO_TO_THE_64 == r
  {
  }

  /** A difference of limits that is `2^64 - d` loses `d` with every second once it has wrapped. */
  lemma {:induction false} WrappedProduct(span: nat, x: nat)
    requires span < TWO_TO_THE_64 && x >= 1 && (x - 1) * (TWO_TO_THE_64 - span) <= span
    ensures (span * x) % TWO_TO_THE_64 == span - (x - 1) * (TWO_TO_THE_64 - span)
  {
    var k, d := x - 1, TWO_TO_THE_64 - span;
    assert span * x == span + k * TWO_TO_THE_64 - k * d by {
      assert span * x == span + span * k;
      assert span * k == (TWO_TO_THE_64 - d) * k == TWO_TO_THE_64 * k - d * k;
    }
    assert 0 <= k * d;
    Multiple(k, span - k * d);
  }

  lemma {:induction false} Multiple(k: nat, r: nat)
    requires r < TWO_TO_THE_64
    ensures (k * TWO_TO_THE_64 + r) % TWO_TO_THE_64 == r
  {
  }

  /** The products wrap, but the remainder of the difference absorbs all that is lost, so that the limit
      stays the same from the first second to the end of the warm-up. */
  predicate LossAbsorbed(cfg: Config) {
    var span, w := cfg.maxPerSecond - cfg.warmupMaxPerSecond, cfg.warmupSeconds;
    w > 0 && span % w >= (w - 2) * (TWO_TO_THE_64 - span)
  }

  lemma {:induction false} AbsorbedQuotient(span: nat, x: nat, w: nat)
    requires span < TWO_TO_THE_64 && 1 <= x < w && span % w >= (w - 2) * (TWO_TO_THE_64 - span)
    ensures (span * x) % TWO_TO_THE_64 / w == span / w
  {
    Division(span, w);
    AbsorbedParts(span, x, w, span / w, span % w);
  }

  lemma {:induction false} AbsorbedParts(span: nat, x: nat, w: nat, q: nat, r: nat)
    requires span < TWO_TO_THE_64 && 1 <= x < w && span == w * q + r && r < w
    requires (w - 2) * (TWO_TO_THE_64 - span) <= r
    ensures (span * x) % TWO_TO_THE_64 / w == q
  {
    var lost := (x - 1) * (TWO_TO_THE_64 - span);
    LostAtMost(TWO_TO_THE_64 - span, x - 1, w - 2, r);
    Absorb(span, w, q, r, lost);
    assert (span * x) % TWO_TO_THE_64 == span - lost by { WrappedProduct(span, x); }
  }

  lemma {:induction false} LostAtMost(d: nat, k: nat, n: nat, r: nat)
    requires k <= n && n * d <= r
    ensures 0 <= k * d <= r
  {
    MultiplyMonotone(d, k, n);
  }

  lemma {:induction false} Absorb(span: nat, w: nat, q: nat, r: nat, lost: nat)
    requires w > 0 && span == w * q + r && lost <= r < w
    ensures lost <= span && (span - lost) / w == q
  {
    MultiplyMonotone(w, 0, q);
    assert w * (q + 1) == w * q + w;
    QuotientIs(span - lost, w, q);
  }

  lemma {:induction false} AbsorbedGrows(cfg: Config, x: nat, y: nat)
    requires Ordered(cfg) && LossAbsorbed(cfg) && x <= y < cfg.warmupSeconds
    ensures WarmupLimit(cfg, x) <= WarmupLimit(cfg, y)
  {
    var span, w := cfg.maxPerSecond - cfg.warmupMaxPerSecond, cfg.warmupSeconds;
    WarmupAdds(cfg, x);
    WarmupAdds(cfg, y);
    if x >= 1 {
      AbsorbedQuotient(span, x, w);
      AbsorbedQuotient(span, y, w);
    } else {
      FirstSecondAdds(span, w);
    }
  }

  lemma {:induction false} FirstSecondAdds(span: nat, w: nat)
    requires w > 0
    ensures (span * 0) % TWO_TO_THE_64 / w == 0
  {
    QuotientIs(0, w, 0);
  }

  /** Where the loss exceeds the remainder, the limit falls below that of the first second. */
  lemma {:induction false} LossFalls(span: nat, w: nat) returns (y: nat)
    requires w < TWO_TO_THE_64 / 2 && 3 <= w && span < TWO_TO_THE_64 < span + w
    requires span % w < (w - 2) * (TWO_TO_THE_64 - span)
    ensures 1 < y < w && (span * y) % TWO_TO_THE_64 / w < (span * 1) % TWO_TO_THE_64 / w
  {
    var q, r, d := span / w, span % w, TWO_TO_THE_64 - span;
    assert span == w * q + r && 0 <= r < w by { Division(span, w); }
    var p := FirstLoss(r, d, w - 2);
    y := p + 2;
    LossAt(span, w, q, r, d, d * p);
    assert (y - 1) * d == d * p + d;
    assert (span * y) % TWO_TO_THE_64 == span - (d * p + d) by { WrappedProduct(span, y); }
    assert (span * 1) % TWO_TO_THE_64 == span by { Word(span); }
  }

  /** The first multiple of `d` above `r`. */
  lemma {:induction false} FirstLoss(r: nat, d: nat, n: nat) returns (p: nat)
    requires d > 0 && r < n * d
    ensures p < n && d * p <= r < d * p + d
  {
    p := r / d;
    QuotientBounds(r, d);
    assert d * (p + 1) == d * p + d;
    assert n * d == d * n;
    assert n > 0;
    Cancel(d, p, n - 1);
  }

  lemma {:induction false} LossAt(span: nat, w: nat, q: nat, r: nat, d: nat, below: nat)
    requires w < TWO_TO_THE_64 / 2 && span == w * q + r && r < w && d == TWO_TO_THE_64 - span < w
    requires below <= r < below + d
    ensures below + d <= span && (span - (below + d)) / w < q
  {
    assert w <= w * q by { MultiplyMonotone(w, 1, q); }
    BelowMultiple(span - (below + d), w, q);
  }

  /** The limit grows with the age exactly where the products fit the machine word, or wrap without a
      loss that shows. The warm-up duration is a signed 64-bit number of seconds. */
  lemma {:induction false} WarmupMonotoneIff(cfg: Config)
    requires Ordered(cfg) && cfg.warmupSeconds < TWO_TO_THE_64 / 2
    ensures GrowsWithAge(cfg) <==> RampFits(cfg) || LossAbsorbed(cfg)
  {
    var span, w := cfg.maxPerSecond - cfg.warmupMaxPerSecond, cfg.warmupSeconds;
    if RampFits(cfg) {
      WarmupMonotone(cfg);
    } else if LossAbsorbed(cfg) {
      AbsorbedMonotone(cfg);
    } else if span + w <= TWO_TO_THE_64 {
      var x := FirstWrap(span, w);
      WrapFalls(cfg, x);
      FallsBetween(cfg, x - 1, x);
    } else {
      assert 3 <= w by { ShortRampFits(cfg); }
      var y := LossFalls(span, w);
      WarmupAdds(cfg, 1);
      WarmupAdds(cfg, y);
      FallsBetween(cfg, 1, y);
    }
  }

  lemma {:induction false} ShortRampFits(cfg: Config)
    requires Ordered(cfg)
    ensures cfg.warmupSeconds <= 2 ==> RampFits(cfg)
  {
  }

  lemma {:induction false} AbsorbedMonotone(cfg: Config)
    requires Ordered(cfg) && LossAbsorbed(cfg)
    ensures GrowsWithAge(cfg)
  {
    forall younger: nat, older: nat | younger <= older
      ensures EffectiveLimit(cfg, younger, false) <= EffectiveLimit(cfg, older, false)
    {
      if older < cfg.warmupSeconds * SECOND {
        DivideMonotone(younger, older, SECOND);
        AbsorbedGrows(cfg, younger / SECOND, older / SECOND);
      } else {
        WarmupWithin(cfg, younger);
      }
    }
  }

  lemma {:induction false} FallsBetween(cfg: Config, x: nat, y: nat)
    requires x <= y < cfg.warmupSeconds && WarmupLimit(cfg, y) < WarmupLimit(cfg, x)
    ensures !GrowsWithAge(cfg)
  {
    LimitAt(cfg, x);
    LimitAt(cfg, y);
    assert x * SECOND <= y * SECOND;
    assert EffectiveLimit(cfg, y * SECOND, false) < EffectiveLimit(cfg, x * SECOND, false);
  }

  lemma {:induction false} LimitAt(cfg: Config, x: nat)
    requires x < cfg.warmupSeconds
    ensures EffectiveLimit(cfg, x * SECOND, false) == WarmupLimit(cfg, x)
  {
  }

  /** For instance, ordered maxima of 0 and 2^63 over four seconds: the limit at one second is above
      the limit at two. */
  lemma {:induction false} WarmupFalls(cfg: Config)
    requires cfg.maxPerSecond == TWO_TO_THE_64 / 2 && cfg.warmupMaxPerSecond == 0 && cfg.warmupSeconds == 4
    ensures Ordered(cfg) && EffectiveLimit(cfg, 2 * SECOND, false) < EffectiveLimit(cfg, SECOND, false)
  {
    WrapFalls(cfg, 2);
    LimitAt(cfg, 2);
    LimitAt(cfg, 1);
  }

  // ---- Fixed windows ---------------------------------------------------------------------------

  datatype Window = Window(start: int, count: nat)

  function WindowOf<K>(m: map<K, Window>, k: K): Window {
    if k in m then m[k] else Window(0, 0)
  }

  /** A call at `now` against a limit: the window afterwards, and whether the call was admitted. */
  function WindowStep(w: Window, now: int, limit: nat): (Window, bool) {
    var open := if now - w.start >= SECOND then Window(now, 0) else w;
    if open.count >= limit then (open, false) else (Window(open.start, open.count + 1), true)
  }

  /** The calls a limiter receives, in the order in which they take its lock. */
  datatype Call<K> = Check(key: K, now: int, limit: nat) | Forget(key: K)

  function Apply<K>(m: map<K, Window>, c: Call<K>): map<K, Window> {
    match c
    case Check(k, now, limit) => m[k := WindowStep(WindowOf(m, k), now, limit).0]
    case Forget(k) => m - {k}
  }

  predicate Monotone<K>(calls: seq<Call<K>>) {
    forall i, j :: 0 <= i < j < |calls| && calls[i].Check? && calls[j].Check? ==> calls[i].now <= calls[j].now
  }

  predicate Limited<K(==)>(calls: seq<Call<K>>, key: K, limit: nat) {
    forall i :: 0 <= i < |calls| && calls[i].Check? && calls[i].key == key ==> calls[i].limit <= limit
  }

  /** How many calls for `key` were admitted at times in [t, t + 1s). */
  function Admitted<K(==)>(m: map<K, Window>, calls: seq<Call<K>>, key: K, t: int): nat
    decreases calls
  {
    if calls == [] then 0
    else
      var c := calls[0];
      (if c.Check? && c.key == key && t <= c.now < t + SECOND &&
          WindowStep(WindowOf(m, key), c.now, c.limit).1 then 1 else 0)
      + Admitted(Apply(m, c), calls[1..], key, t)
  }

  function Forgets<K(==)>(calls: seq<Call<K>>, key: K): nat {
    if calls == [] then 0
    else (if calls[0] == Forget(key) then 1 else 0) + Forgets(calls[1..], key)
  }

  predicate AllFrom<K>(calls: seq<Call<K>>, t: int) {
    forall i :: 0 <= i < |calls| && calls[i].Check? ==> t <= calls[i].now
  }

  lemma {:induction false} NoneAfter<K>(m: map<K, Window>, calls: seq<Call<K>>, key: K, t: int)
    requires AllFrom(calls, t + SECOND)
    ensures Admitted(m, calls, key, t) == 0
    decreases calls
  {
    if calls != [] {
      NoneAfter(Apply(m, calls[0]), calls[1..], key, t);
    }
  }

  /** What a window can still admit inside [t, t + 1s): the rest of the current window, plus one
      whole window when the current one began before t. */
  function Allowance(w: Window, limit: nat, t: int): int {
    limit - w.count + if w.start >= t then 0 else limit
  }

  lemma {:induction false} AllowanceStep(w: Window, now: int, limit: nat, bound: nat, t: int)
    requires limit <= bound && w.count <= bound
    ensures WindowStep(w, now, limit).0.count <= bound
    ensures t <= now < t + SECOND ==>
      Allowance(WindowStep(w, now, limit).0, bound, t) + (if WindowStep(w, now, limit).1 then 1 else 0)
        <= Allowance(w, bound, t)
  {
  }

  /** Two windows' worth for each of `k` occasions. */
  function TwoWindows(limit: nat, k: nat): nat {
    if k == 0 then 0 else 2 * limit + TwoWindows(limit, k - 1)
  }

  lemma {:induction false} AdmittedInside<K>(m: map<K, Window>, calls: seq<Call<K>>, key: K, t: int, limit: nat)
    requires Monotone(calls) && Limited(calls, key, limit) && AllFrom(calls, t)
    requires WindowOf(m, key).count <= limit
    ensures Admitted(m, calls, key, t) <= Allowance(WindowOf(m, key), limit, t) + TwoWindows(limit, Forgets(calls, key))
    decreases calls
  {
    if calls != [] {
      var c, rest := calls[0], calls[1..];
      if c.Check? && c.now >= t + SECOND {
        assert forall i :: 0 <= i < |rest| && rest[i].Check? ==> rest[i] == calls[i + 1] && c.now <= rest[i].now;
        NoneAfter(Apply(m, c), rest, key, t);
      } else {
        if c.Check? && c.key == key {
          AllowanceStep(WindowOf(m, key), c.now, c.limit, limit, t);
        }
        AdmittedInside(Apply(m, c), rest, key, t, limit);
      }
    }
  }

  lemma {:induction false} AdmittedFrom<K>(m: map<K, Window>, calls: seq<Call<K>>, key: K, t: int, limit: nat)
    requires Monotone(calls) && Limited(calls, key, limit) && WindowOf(m, key).count <= limit
    ensures Admitted(m, calls, key, t) <= TwoWindows(limit, 1 + Forgets(calls, key))
    decreases calls
  {
    if calls == [] {
    } else if AllFrom(calls, t) {
      AdmittedInside(m, calls, key, t, limit);
    } else {
      var c, rest := calls[0], calls[1..];
      assert c.Check? ==> c.now < t;
      if c.Check? && c.key == key {
        AllowanceStep(WindowOf(m, key), c.now, c.limit, limit, t);
      }
      AdmittedFrom(Apply(m, c), rest, key, t, limit);
    }
  }

  /** In every run with a monotone clock, any one-second interval admits at most two windows' worth
      of calls for a key; every time its state is dropped adds at most two more. */
  lemma {:induction false} WindowBound<K>(calls: seq<Call<K>>, key: K, t: int, limit: nat)
    requires Monotone(calls) && Limited(calls, key, limit)
    ensures Admitted(map[], calls, key, t) <= TwoWindows(limit, 1 + Forgets(calls, key))
    ensures Forget(key) !in calls ==> Admitted(map[], calls, key, t) <= 2 * limit
  {
    AdmittedFrom(map[], calls, key, t, limit);
    if Forget(key) !in calls {
      NoForgets(calls, key);
    }
  }

  lemma {:induction false} NoForgets<K>(calls: seq<Call<K>>, key: K)
    requires Forget(key) !in calls
    ensures Forgets(calls, key) == 0
  {
    if calls != [] {
      NoForgets(calls[1..], key);
    }
  }

  /** Every call that a window begun at `t` or later has counted was admitted at `t` or later. */
  lemma {:induction false} WindowCountsAdmitted<K>(m: map<K, Window>, calls: seq<Call<K>>, key: K, t: int)
    requires Monotone(calls) && AllFrom(calls, 0) && AllFrom(calls, WindowOf(m, key).start)
    requires forall i :: 0 <= i < |calls| && calls[i].Check? ==> calls[i].now < t + SECOND
    ensures var before, after := WindowOf(m, key), WindowOf(ApplyAll(m, calls), key);
      after.start >= t ==>
        after.count <= Admitted(m, calls, key, t) + if before.start >= t then before.count else 0
    decreases calls
  {
    if calls != [] {
      var c, rest := calls[0], calls[1..];
      assert forall i :: 0 <= i < |rest| ==> rest[i] == calls[i + 1];
      WindowCountsAdmitted(Apply(m, c), rest, key, t);
    }
  }

  /** In every run with a monotone clock, whatever is dropped on the way, a call is refused only when
      `limit` calls for its key have been admitted within the second that ends with it. */
  lemma {:induction false} RefusedOnlyWhenFull<K>(calls: seq<Call<K>>, key: K, now: int, limit: nat)
    requires Monotone(calls + [Check(key, now, limit)]) && AllFrom(calls + [Check(key, now, limit)], 0)
    requires !WindowStep(WindowOf(ApplyAll(map[], calls), key), now, limit).1
    ensures Admitted(map[], calls, key, now - SECOND + 1) >= limit
  {
    var all, t := calls + [Check(key, now, limit)], now - SECOND + 1;
    assert forall i :: 0 <= i < |calls| ==> all[i] == calls[i];
    assert all[|calls|] == Check(key, now, limit);
    WindowCountsAdmitted(map[], calls, key, t);
  }

  /** The bound is attained: `limit` calls at the end of a fresh window and `limit` more at the
      start of the next all fall into one second. */
  lemma {:induction false} TwoWindowsAttained<K>(key: K, limit: nat)
    ensures var calls := Repeat(Check(key, SECOND - 1, limit), limit) + Repeat(Check(key, SECOND, limit), limit);
      && Monotone(calls) && Limited(calls, key, limit) && Admitted(map[], calls, key, 1) == 2 * limit
  {
    var early, late := Repeat(Check(key, SECOND - 1, limit), limit), Repeat(Check(key, SECOND, limit), limit);
    if limit > 0 {
      AdmitAll(map[], key, SECOND - 1, limit, limit, late, 1);
      var m := ApplyAll(map[], early);
      assert WindowOf(m, key) == Window(0, limit);
      var first := Check(key, SECOND, limit);
      var m' := Apply(m, first);
      assert late == [first] + late[1..] && late[1..] == Repeat(first, limit - 1);
      AdmitAll(m', key, SECOND, limit, limit - 1, [], 1);
      assert late[1..] + [] == late[1..];
    }
  }

  function Repeat<K>(c: Call<K>, n: nat): seq<Call<K>> {
    seq(n, _ => c)
  }

  function ApplyAll<K>(m: map<K, Window>, calls: seq<Call<K>>): map<K, Window>
    decreases calls
  {
    if calls == [] then m else ApplyAll(Apply(m, calls[0]), calls[1..])
  }

  /** Calls within the open window and within its limit are all admitted. */
  lemma {:induction false} AdmitAll<K>(m: map<K, Window>, key: K, now: int, limit: nat, n: nat,
                                       rest: seq<Call<K>>, t: int)
    requires now - WindowOf(m, key).start < SECOND && WindowOf(m, key).count + n <= limit
    requires t <= now < t + SECOND
    ensures var calls := Repeat(Check(key, now, limit), n);
      && Admitted(m, calls + rest, key, t) == n + Admitted(ApplyAll(m, calls), rest, key, t)
      && WindowOf(ApplyAll(m, calls), key) == Window(WindowOf(m, key).start, WindowOf(m, key).count + n)
    decreases n
  {
    var c := Check(key, now, limit);
    var calls := Repeat(c, n);
    if n == 0 {
      assert calls + rest == rest;
    } else {
      assert calls[1..] == Repeat(c, n - 1);
      assert (calls + rest)[1..] == calls[1..] + rest;
      AdmitAll(Apply(m, c), key, now, limit, n - 1, rest, t);
    }
  }

  // ---- The limiter itself ----------------------------------------------------------------------

  datatype Message = Message(session: nat, now: int, age: nat, guest: bool)

  function ConnectionCalls(cfg: Config, messages: seq<Message>): (calls: seq<Call<nat>>)
    ensures |calls| == |messages|
  {
    seq(|messages|, i requires 0 <= i < |messages| =>
      Check(messages[i].session, messages[i].now, EffectiveLimit(cfg, messages[i].age, messages[i].guest)))
  }

  predicate InOrder(messages: seq<Message>) {
    forall i, j :: 0 <= i < j < |messages| ==> messages[i].now <= messages[j].now
  }

  /** Every message of the session is checked against a limit of at most `most`. */
  predicate UpTo(cfg: Config, messages: seq<Message>, session: nat, most: nat) {
    forall i :: 0 <= i < |messages| && messages[i].session == session ==>
      EffectiveLimit(cfg, messages[i].age, messages[i].guest) <= most
  }

  /** For ordered maxima no limit is above the larger of the member and guest maxima. */
  lemma {:induction false} OrderedUpTo(cfg: Config, messages: seq<Message>, session: nat)
    requires Ordered(cfg)
    ensures UpTo(cfg, messages, session, Larger(cfg.maxPerSecond, cfg.guestMaxPerSecond))
  {
    forall i | 0 <= i < |messages|
      ensures EffectiveLimit(cfg, messages[i].age, messages[i].guest) <= Larger(cfg.maxPerSecond, cfg.guestMaxPerSecond)
    {
      WarmupWithin(cfg, messages[i].age);
    }
  }

  function Larger(x: nat, y: nat): nat { if x >= y then x else y }

  /** Messages accepted from one connection in any one second, for every interleaving of connections: twice
      the largest limit in force, which for ordered maxima is at most the larger of the two. */
  lemma {:induction false} ConnectionBound(cfg: Config, messages: seq<Message>, session: nat, t: int, most: nat)
    requires InOrder(messages)
    ensures UpTo(cfg, messages, session, most) ==>
      Admitted(map[], ConnectionCalls(cfg, messages), session, t) <= 2 * most
    ensures Ordered(cfg) ==>
      Admitted(map[], ConnectionCalls(cfg, messages), session, t) <= 2 * Larger(cfg.maxPerSecond, cfg.guestMaxPerSecond)
    ensures (forall i :: 0 <= i < |messages| && messages[i].session == session ==> messages[i].guest) ==>
      Admitted(map[], ConnectionCalls(cfg, messages), session, t) <= 2 * cfg.guestMaxPerSecond
  {
    if forall i :: 0 <= i < |messages| && messages[i].session == session ==> messages[i].guest {
      WindowBound(ConnectionCalls(cfg, messages), session, t, cfg.guestMaxPerSecond);
    }
    if UpTo(cfg, messages, session, most) {
      WindowBound(ConnectionCalls(cfg, messages), session, t, most);
    }
    if Ordered(cfg) {
      OrderedUpTo(cfg, messages, session);
      WindowBound(ConnectionCalls(cfg, messages), session, t, Larger(cfg.maxPerSecond, cfg.guestMaxPerSecond));
    }
  }

  /** A message is refused only when as many messages of its connection as its limit says were accepted in
      the second before it: the guest maximum for a guest, the member maximum after the warm-up, and at
      least the warm-up maximum during it. */
  lemma {:induction false} ConnectionRefused(cfg: Config, messages: seq<Message>, m: Message)
    requires InOrder(messages + [m]) && forall i :: 0 <= i < |messages| ==> 0 <= messages[i].now
    requires 0 <= m.now
    requires var w := WindowOf(ApplyAll(map[], ConnectionCalls(cfg, messages)), m.session);
             !WindowStep(w, m.now, EffectiveLimit(cfg, m.age, m.guest)).1
    ensures var accepted := Admitted(map[], ConnectionCalls(cfg, messages), m.session, m.now - SECOND + 1);
      && (m.guest ==> accepted >= cfg.guestMaxPerSecond)
      && (!m.guest && m.age >= cfg.warmupSeconds * SECOND ==> accepted >= cfg.maxPerSecond)
      && (!m.guest && Ordered(cfg) ==> accepted >= cfg.warmupMaxPerSecond)
  {
    var calls := ConnectionCalls(cfg, messages);
    var limit := EffectiveLimit(cfg, m.age, m.guest);
    var all := calls + [Check(m.session, m.now, limit)];
    assert forall i :: 0 <= i < |all| ==> all[i].Check? && all[i].now == (messages + [m])[i].now;
    RefusedOnlyWhenFull(calls, m.session, m.now, limit);
    if !m.guest && Ordered(cfg) {
      WarmupWithin(cfg, m.age);
    }
  }

  /** Twice the connection limit, in 64-bit unsigned arithmetic. */
  function UserLimit(cfg: Config): nat {
    (cfg.maxPerSecond * 2) % TWO_TO_THE_64
  }

  /** Messages accepted from one user, over all of the user's connections, in any one second. */
  lemma {:induction false} UserBound(cfg: Config, calls: seq<Call<string>>, user: string, t: int)
    requires Monotone(calls)
    requires forall i :: 0 <= i < |calls| ==> calls[i].Check? && calls[i].limit == UserLimit(cfg)
    ensures Admitted(map[], calls, user, t) <= 4 * cfg.maxPerSecond
  {
    assert UserLimit(cfg) <= cfg.maxPerSecond * 2;
    WindowBound(calls, user, t, cfg.maxPerSecond * 2);
  }

  /** A user is refused only after twice the connection limit was accepted in the second before, if twice
      the limit is a machine word. */
  lemma {:induction false} UserRefused(cfg: Config, calls: seq<Call<string>>, user: string, now: int)
    requires Monotone(calls + [Check(user, now, UserLimit(cfg))])
    requires AllFrom(calls + [Check(user, now, UserLimit(cfg))], 0)
    requires !WindowStep(WindowOf(ApplyAll(map[], calls), user), now, UserLimit(cfg)).1
    ensures 2 * cfg.maxPerSecond < TWO_TO_THE_64 ==>
      Admitted(map[], calls, user, now - SECOND + 1) >= 2 * cfg.maxPerSecond
  {
    RefusedOnlyWhenFull(calls, user, now, UserLimit(cfg));
    Word(cfg.maxPerSecond * 2);
  }

  // ---- Login lockout ---------------------------------------------------------------------------

  datatype Login = Login(start: int, until: int, failures: nat)

  /** A duration in whole seconds, rounded toward zero. */
  function WholeSeconds(d: int): int {
    if d >= 0 then d / SECOND else -(-d / SECOND)
  }

  function LoginOf(m: map<string, Login>, k: string): Login {
    if k in m then m[k] else Login(0, 0, 0)
  }

  predicate Blocked(l: Login, now: int) { l.until > now }

  /** What a check that finds no block does to an entry: an expired window starts over. */
  function Refresh(cfg: Config, l: Login, now: int): Login {
    if WholeSeconds(now - l.start) >= cfg.loginBlockSeconds then Login(now, l.until, 0) else l
  }

  function Fail(cfg: Config, l: Login, now: int): Login {
    var failures := l.failures + 1;
    Login(l.start, if failures >= cfg.loginMaxAttempts then now + cfg.loginBlockSeconds * SECOND else l.until, failures)
  }

  datatype Logins = Logins(ips: map<string, Login>, users: map<string, Login>)

  datatype LoginEvent = Attempt(ip: string, user: string, now: int) | Failure(ip: string, user: string, now: int)

  predicate Allowed(s: Logins, e: LoginEvent) {
    e.Attempt? && !Blocked(LoginOf(s.ips, e.ip), e.now) && !Blocked(LoginOf(s.users, e.user), e.now)
  }

  function LoginStep(cfg: Config, s: Logins, e: LoginEvent): Logins {
    var ip, user := LoginOf(s.ips, e.ip), LoginOf(s.users, e.user);
    if e.Failure? then
      Logins(s.ips[e.ip := Fail(cfg, ip, e.now)], s.users[e.user := Fail(cfg, user, e.now)])
    else if Blocked(ip, e.now) then Logins(s.ips[e.ip := ip], s.users)
    else if Blocked(user, e.now) then
      Logins(s.ips[e.ip := Refresh(cfg, ip, e.now)], s.users[e.user := user])
    else
      Logins(s.ips[e.ip := Refresh(cfg, ip, e.now)], s.users[e.user := Refresh(cfg, user, e.now)])
  }

  function LoginRun(cfg: Config, s: Logins, events: seq<LoginEvent>): Logins
    decreases events
  {
    if events == [] then s else LoginRun(cfg, LoginStep(cfg, s, events[0]), events[1..])
  }

  const NO_LOGINS := Logins(map[], map[])

  predicate LoginsInOrder(events: seq<LoginEvent>, from: int) {
    && (forall i :: 0 <= i < |events| ==> from <= events[i].now)
    && forall i, j :: 0 <= i < j < |events| ==> events[i].now <= events[j].now
  }

  /** A full counter is blocked at least until the window it was filled in has run out. */
  predicate EntrySound(cfg: Config, l: Login, now: int) {
    && l.start <= now
    && (l.failures >= cfg.loginMaxAttempts ==> l.until >= l.start + cfg.loginBlockSeconds * SECOND)
  }

  ghost predicate Sound(cfg: Config, s: Logins, now: int) {
    && (forall k :: k in s.ips ==> EntrySound(cfg, s.ips[k], now))
    && (forall k :: k in s.users ==> EntrySound(cfg, s.users[k], now))
  }

  lemma {:induction false} EntryStep(cfg: Config, l: Login, before: int, now: int)
    requires cfg.loginMaxAttempts > 0 && EntrySound(cfg, l, before) && before <= now
    ensures EntrySound(cfg, l, now)
    ensures EntrySound(cfg, Refresh(cfg, l, now), now) && EntrySound(cfg, Fail(cfg, l, now), now)
    ensures !Blocked(l, now) ==> Refresh(cfg, l, now).failures < cfg.loginMaxAttempts
  {
  }

  lemma {:induction false} SoundStep(cfg: Config, s: Logins, e: LoginEvent, before: int)
    requires cfg.loginMaxAttempts > 0 && Sound(cfg, s, before) && 0 <= before <= e.now
    ensures Sound(cfg, LoginStep(cfg, s, e), e.now)
  {
    EntryStep(cfg, LoginOf(s.ips, e.ip), before, e.now);
    EntryStep(cfg, LoginOf(s.users, e.user), before, e.now);
  }

  lemma {:induction false} SoundRun(cfg: Config, s: Logins, events: seq<LoginEvent>, from: int)
    requires cfg.loginMaxAttempts > 0 && 0 <= from && Sound(cfg, s, from) && LoginsInOrder(events, from)
    ensures Sound(cfg, LoginRun(cfg, s, events), if events == [] then from else events[|events| - 1].now)
    decreases events
  {
    if events != [] {
      SoundStep(cfg, s, events[0], from);
      SoundRun(cfg, LoginStep(cfg, s, events[0]), events[1..], events[0].now);
    }
  }

  /** After any run, an attempt that is allowed leaves both counters below the maximum, provided the
      maximum is positive. */
  lemma {:induction false} AllowedBelowMaximum(cfg: Config, events: seq<LoginEvent>, e: LoginEvent)
    requires LoginsInOrder(events + [e], 0) && Allowed(LoginRun(cfg, NO_LOGINS, events), e)
    ensures var after := LoginStep(cfg, LoginRun(cfg, NO_LOGINS, events), e);
            (after.ips[e.ip].failures < cfg.loginMaxAttempts && after.users[e.user].failures < cfg.loginMaxAttempts)
            <==> cfg.loginMaxAttempts > 0
  {
    if cfg.loginMaxAttempts > 0 {
      var s := LoginRun(cfg, NO_LOGINS, events);
      var last := if events == [] then 0 else events[|events| - 1].now;
      assert forall i :: 0 <= i < |events| ==> (events + [e])[i] == events[i];
      assert (events + [e])[|events|] == e;
      SoundRun(cfg, NO_LOGINS, events, 0);
      EntryStep(cfg, LoginOf(s.ips, e.ip), last, e.now);
      EntryStep(cfg, LoginOf(s.users, e.user), last, e.now);
    }
  }

  /** After any run, an expired block is cleared by the next attempt that gets to look at it: always
      for the address, and for the user unless the address itself is blocked. */
  lemma {:induction false} ExpiredBlockCleared(cfg: Config, events: seq<LoginEvent>, e: LoginEvent)
    requires cfg.loginMaxAttempts > 0 && LoginsInOrder(events + [e], 0) && e.Attempt?
    ensures var s := LoginRun(cfg, NO_LOGINS, events);
      var after := LoginStep(cfg, s, e);
      var ip, user := LoginOf(s.ips, e.ip), LoginOf(s.users, e.user);
      && (!Blocked(ip, e.now) && ip.failures >= cfg.loginMaxAttempts ==>
            after.ips[e.ip] == Login(e.now, ip.until, 0))
      && (!Blocked(ip, e.now) && !Blocked(user, e.now) && user.failures >= cfg.loginMaxAttempts ==>
            after.users[e.user] == Login(e.now, user.until, 0))
  {
    var s := LoginRun(cfg, NO_LOGINS, events);
    var last := if events == [] then 0 else events[|events| - 1].now;
    assert forall i :: 0 <= i < |events| ==> (events + [e])[i] == events[i];
    assert (events + [e])[|events|] == e;
    SoundRun(cfg, NO_LOGINS, events, 0);
    EntryStep(cfg, LoginOf(s.ips, e.ip), last, e.now);
    EntryStep(cfg, LoginOf(s.users, e.user), last, e.now);
  }

  lemma {:induction false} BlockKept(cfg: Config, s: Logins, events: seq<LoginEvent>, from: int, until: int,
                                     ip: string, user: string)
    requires LoginsInOrder(events, from) && until <= from + cfg.loginBlockSeconds * SECOND
    ensures until <= LoginOf(s.ips, ip).until ==> until <= LoginOf(LoginRun(cfg, s, events).ips, ip).until
    ensures until <= LoginOf(s.users, user).until ==> until <= LoginOf(LoginRun(cfg, s, events).users, user).until
    decreases events
  {
    if events != [] {
      BlockKept(cfg, LoginStep(cfg, s, events[0]), events[1..], from, until, ip, user);
    }
  }

  /** A failure that fills a counter locks it: whatever happens afterwards, no attempt from that
      address, and none for that user, is allowed before the block window has passed. */
  lemma {:induction false} LockoutHolds(cfg: Config, s: Logins, f: LoginEvent, later: seq<LoginEvent>, e: LoginEvent)
    requires f.Failure? && e.Attempt? && LoginsInOrder(later + [e], f.now)
    requires e.now < f.now + cfg.loginBlockSeconds * SECOND
    requires (e.ip == f.ip && LoginStep(cfg, s, f).ips[f.ip].failures >= cfg.loginMaxAttempts) ||
             (e.user == f.user && LoginStep(cfg, s, f).users[f.user].failures >= cfg.loginMaxAttempts)
    ensures !Allowed(LoginRun(cfg, LoginStep(cfg, s, f), later), e)
  {
    assert forall i :: 0 <= i < |later| ==> (later + [e])[i] == later[i];
    BlockKept(cfg, LoginStep(cfg, s, f), later, f.now, f.now + cfg.loginBlockSeconds * SECOND, f.ip, f.user);
  }

  /** What a counter is kept for. */
  datatype Subject = Address(name: string) | Account(name: string)

  function EntryOf(s: Logins, k: Subject): Login {
    if k.Address? then LoginOf(s.ips, k.name) else LoginOf(s.users, k.name)
  }

  predicate Concerns(e: LoginEvent, k: Subject) {
    if k.Address? then e.ip == k.name else e.user == k.name
  }

  function FailureCount(events: seq<LoginEvent>, k: Subject): nat {
    if events == [] then 0
    else
      var last := events[|events| - 1];
      FailureCount(events[..|events| - 1], k) + if last.Failure? && Concerns(last, k) then 1 else 0
  }

  lemma {:induction false} RunAppend(cfg: Config, s: Logins, events: seq<LoginEvent>, e: LoginEvent)
    ensures LoginRun(cfg, s, events + [e]) == LoginStep(cfg, LoginRun(cfg, s, events), e)
    decreases events
  {
    if events != [] {
      assert (events + [e])[1..] == events[1..] + [e];
      RunAppend(cfg, LoginStep(cfg, s, events[0]), events[1..], e);
    }
  }

  /** An event touches only the counters of its own address and user. An attempt never raises a counter nor
      moves a block; one that is refused for its address changes nothing, and one that is allowed starts
      a counter over when its window has run out. A failure counts once. */
  lemma {:induction false} EntryAfter(cfg: Config, s: Logins, e: LoginEvent, k: Subject)
    ensures var l, l' := EntryOf(s, k), EntryOf(LoginStep(cfg, s, e), k);
      && (!Concerns(e, k) ==> l' == l)
      && (e.Attempt? ==> l'.until == l.until && (l'.failures == 0 || l' == l))
      && (e.Attempt? && EntryOf(s, Address(e.ip)).until > e.now ==> l' == l)
      && (e.Attempt? && EntryOf(s, Account(e.user)).until > e.now && k.Account? ==> l' == l)
      && (Allowed(s, e) && Concerns(e, k) && e.now >= l.start + cfg.loginBlockSeconds * SECOND ==>
            l' == Login(e.now, l.until, 0))
      && (e.Failure? && Concerns(e, k) ==>
            && l'.failures == l.failures + 1 && l'.start == l.start
            && (l'.until == l.until || l'.until == e.now + cfg.loginBlockSeconds * SECOND)
            && (l'.until != l.until ==> l'.failures >= cfg.loginMaxAttempts))
  {
  }

  /** The window of a counter has not run out at `now`. */
  predicate Open(cfg: Config, l: Login, now: int) {
    l.start <= now < l.start + cfg.loginBlockSeconds * SECOND
  }

  lemma {:induction false} OpenStep(cfg: Config, s: Logins, e: LoginEvent, k: Subject)
    requires Open(cfg, EntryOf(s, k), e.now)
    ensures var l, l' := EntryOf(s, k), EntryOf(LoginStep(cfg, s, e), k);
      if e.Failure? && Concerns(e, k) then
        && l'.start == l.start && l'.failures == l.failures + 1
        && l'.until == if l'.failures >= cfg.loginMaxAttempts then e.now + cfg.loginBlockSeconds * SECOND else l.until
      else l' == l
  {
  }

  /** As long as its window is open a counter counts every failure, and once it is full the block reaches
      beyond the window. */
  lemma {:induction false} OpenCounts(cfg: Config, s: Logins, events: seq<LoginEvent>, k: Subject)
    requires forall i :: 0 <= i < |events| ==> Open(cfg, EntryOf(s, k), events[i].now)
    ensures var l, l' := EntryOf(s, k), EntryOf(LoginRun(cfg, s, events), k);
      && l'.start == l.start && l'.failures == l.failures + FailureCount(events, k)
      && (FailureCount(events, k) > 0 && l'.failures >= cfg.loginMaxAttempts ==>
            l'.until >= l.start + cfg.loginBlockSeconds * SECOND)
  {
    if events != [] {
      var n := |events| - 1;
      var before, last := events[..n], events[n];
      assert events == before + [last];
      OpenCounts(cfg, s, before, k);
      RunAppend(cfg, s, before, last);
      OpenStep(cfg, LoginRun(cfg, s, before), last, k);
    }
  }

  /** From any state: as many failures as are missing to the maximum, in one window, lock the address or the
      user out for the rest of the window. */
  lemma {:induction false} FailuresLock(cfg: Config, s: Logins, events: seq<LoginEvent>, e: LoginEvent, k: Subject)
    requires e.Attempt? && Concerns(e, k) && Open(cfg, EntryOf(s, k), e.now)
    requires forall i :: 0 <= i < |events| ==> Open(cfg, EntryOf(s, k), events[i].now)
    requires FailureCount(events, k) > 0 && EntryOf(s, k).failures + FailureCount(events, k) >= cfg.loginMaxAttempts
    ensures !Allowed(LoginRun(cfg, s, events), e)
  {
    OpenCounts(cfg, s, events, k);
  }

  /** The failure at `i` of a run brought the subject's failures to the maximum and blocks it until `until`. */
  predicate BlockedBy(cfg: Config, events: seq<LoginEvent>, k: Subject, until: int, i: int) {
    && 0 <= i < |events| && events[i].Failure? && Concerns(events[i], k)
    && until == events[i].now + cfg.loginBlockSeconds * SECOND
    && FailureCount(events[..i + 1], k) >= cfg.loginMaxAttempts
  }

  lemma {:induction false} BlockJustified(cfg: Config, events: seq<LoginEvent>, k: Subject)
    ensures var l := EntryOf(LoginRun(cfg, NO_LOGINS, events), k);
      && l.failures <= FailureCount(events, k)
      && (l.until == 0 || exists i :: BlockedBy(cfg, events, k, l.until, i))
  {
    if events != [] {
      var n := |events| - 1;
      var before, last := events[..n], events[n];
      assert events == before + [last] && events[..n + 1] == events;
      BlockJustified(cfg, before, k);
      RunAppend(cfg, NO_LOGINS, before, last);
      var s := LoginRun(cfg, NO_LOGINS, before);
      EntryAfter(cfg, s, last, k);
      var l, l' := EntryOf(s, k), EntryOf(LoginRun(cfg, NO_LOGINS, events), k);
      if l'.until != l.until {
        assert BlockedBy(cfg, events, k, l'.until, n);
      } else if l.until != 0 {
        var i :| BlockedBy(cfg, before, k, l.until, i);
        assert before[..i + 1] == events[..i + 1];
        assert BlockedBy(cfg, events, k, l'.until, i);
      }
    }
  }

  /** After any run, an attempt is refused only because of a failure for its address or its user that
      is less than a block window old and was at least the maximum-th of them. */
  lemma {:induction false} RefusedForFailures(cfg: Config, events: seq<LoginEvent>, e: LoginEvent)
    requires e.Attempt? && e.now >= 0 && !Allowed(LoginRun(cfg, NO_LOGINS, events), e)
    ensures exists k, i, until :: Concerns(e, k) && e.now < until && BlockedBy(cfg, events, k, until, i)
  {
    var s := LoginRun(cfg, NO_LOGINS, events);
    var k := if Blocked(LoginOf(s.ips, e.ip), e.now) then Address(e.ip) else Account(e.user);
    BlockJustified(cfg, events, k);
    var i :| BlockedBy(cfg, events, k, EntryOf(s, k).until, i);
  }

  lemma {:induction false} FailureCountGrows(events: seq<LoginEvent>, k: Subject, n: nat)
    requires n <= |events|
    ensures FailureCount(events[..n], k) <= FailureCount(events, k)
  {
    if n < |events| {
      var before := events[..|events| - 1];
      assert events[..n] == before[..n];
      FailureCountGrows(before, k, n);
    } else {
      assert events[..n] == events;
    }
  }

  /** Fewer failures than the maximum, for the address and for the user, leave an attempt allowed. */
  lemma {:induction false} FewFailuresAllowed(cfg: Config, events: seq<LoginEvent>, e: LoginEvent)
    requires e.Attempt? && e.now >= 0
    requires forall k :: Concerns(e, k) ==> FailureCount(events, k) < cfg.loginMaxAttempts
    ensures Allowed(LoginRun(cfg, NO_LOGINS, events), e)
  {
    if !Allowed(LoginRun(cfg, NO_LOGINS, events), e) {
      RefusedForFailures(cfg, events, e);
      var k, i, until :| Concerns(e, k) && e.now < until && BlockedBy(cfg, events, k, until, i);
      FailureCountGrows(events, k, i + 1);
      assert false;
    }
  }

  // ---- The object ------------------------------------------------------------------------------

  /** One limiter behind its mutex; `now` is the clock reading of the call. */
  class Limiter {
    const config: Config
    var connections: map<nat, Window>
    var users: map<string, Window>
    var loginIps: map<string, Login>
    var loginUsers: map<string, Login>

    constructor (config: Config)
      ensures this.config == config
      ensures connections == map[] && users == map[] && Lockout() == NO_LOGINS
    {
      this.config := config;
      connections, users, loginIps, loginUsers := map[], map[], map[], map[];
    }

    ghost function Lockout(): Logins
      reads this
    {
      Logins(loginIps, loginUsers)
    }

    method CheckConnection(session: nat, now: int, age: nat, guest: bool) returns (allowed: bool)
      modifies this`connections
      ensures connections == Apply(old(connections), Check(session, now, EffectiveLimit(config, age, guest)))
      ensures allowed == WindowStep(WindowOf(old(connections), session), now, EffectiveLimit(config, age, guest)).1
    {
      var state := WindowOf(connections, session);
      if now - state.start >= SECOND {
        state := Window(now, 0);
      }
      var limit := config.maxPerSecond;
      if guest {
        limit := config.guestMaxPerSecond;
      } else if age < config.warmupSeconds * SECOND {
        limit := WarmupLimit(config, age / SECOND);
      }
      allowed := state.count < limit;
      if allowed {
        state := Window(state.start, state.count + 1);
      }
      connections := connections[session := state];
    }

    method CheckUser(user: string, now: int) returns (allowed: bool)
      modifies this`users
      ensures users == Apply(old(users), Check(user, now, UserLimit(config)))
      ensures allowed == WindowStep(WindowOf(old(users), user), now, UserLimit(config)).1
    {
      var state := WindowOf(users, user);
      if now - state.start >= SECOND {
        state := Window(now, 0);
      }
      allowed := state.count < UserLimit(config);
      if allowed {
        state := Window(state.start, state.count + 1);
      }
      users := users[user := state];
    }

    method CleanupSession(session: nat)
      modifies this`connections
      ensures connections == Apply(old(connections), Forget(session))
    {
      connections := connections - {session};
    }

    method CheckLoginAttempt(ip: string, user: string, now: int) returns (allowed: bool)
      modifies this`loginIps, this`loginUsers
      ensures allowed == Allowed(old(Lockout()), Attempt(ip, user, now))
      ensures Lockout() == LoginStep(config, old(Lockout()), Attempt(ip, user, now))
    {
      var ipState := LoginOf(loginIps, ip);
      if ipState.until > now {
        loginIps := loginIps[ip := ipState];
        return false;
      }
      if WholeSeconds(now - ipState.start) >= config.loginBlockSeconds {
        ipState := Login(now, ipState.until, 0);
      }
      loginIps := loginIps[ip := ipState];
      var userState := LoginOf(loginUsers, user);
      if userState.until > now {
        loginUsers := loginUsers[user := userState];
        return false;
      }
      if WholeSeconds(now - userState.start) >= config.loginBlockSeconds {
        userState := Login(now, userState.until, 0);
      }
      loginUsers := loginUsers[user := userState];
      return true;
    }

    method RecordLoginFailure(ip: string, user: string, now: int)
      modifies this`loginIps, this`loginUsers
      ensures Lockout() == LoginStep(config, old(Lockout()), Failure(ip, user, now))
    {
      var ipState := LoginOf(loginIps, ip);
      ipState := ipState.(failures := ipState.failures + 1);
      if ipState.failures >= config.loginMaxAttempts {
        ipState := ipState.(until := now + config.loginBlockSeconds * SECOND);
      }
      loginIps := loginIps[ip := ipState];
      var userState := LoginOf(loginUsers, user);
      userState := userState.(failures := userState.failures + 1);
      if userState.failures >= config.loginMaxAttempts {
        userState := userState.(until := now + config.loginBlockSeconds * SECOND);
      }
      loginUsers := loginUsers[user := userState];
    }
  }
}
