/** The token buckets of libevent, with the integer arithmetic of the source. */
module TokenBucket {

  /** One more than INT_MAX, and the range of the 32-bit tick counter. */
  const INT_RANGE: nat := 0x8000_0000
  const TICK_RANGE: nat := 0x1_0000_0000

  /** A configuration for a machine whose `size_t` counts up to `word`; `half` is half of that. */
  datatype Config = Config(readRate: nat, readMaximum: nat, writeRate: nat, writeMaximum: nat,
                           msecPerTick: nat, half: nat) {
    function Word(): nat {
      2 * half
    }

    /** The rates that `ev_token_bucket_cfg_new` accepts; EV_RATE_LIMIT_MAX is `half - 1`. */
    predicate Valid() {
      && 1 <= readRate <= readMaximum < half && 1 <= writeRate <= writeMaximum < half
    }
  }

  datatype NewConfig = Refused | Accepted(cfg: Config)

  /** A tick length in milliseconds, as it is stored: the lower 20 bits of the microseconds, 32 bits in all. */
  function MsecPerTick(sec: nat, usec: nat): nat {
    (sec * 1000 + usec % 0x10_0000 / 1000) % TICK_RANGE
  }

  /** `ev_token_bucket_cfg_new`; without a tick length it is one second. */
  function CfgNew(readRate: nat, readBurst: nat, writeRate: nat, writeBurst: nat, tick: seq<(nat, nat)>, half: nat,
                  memory: bool): NewConfig
    requires |tick| <= 1
  {
    var (sec, usec) := if tick == [] then (1, 0) else tick[0];
    if readRate > readBurst || writeRate > writeBurst || readRate < 1 || writeRate < 1 then Refused
    else if readRate >= half || writeRate >= half || readBurst >= half || writeBurst >= half then Refused
    else if !memory then Refused
    else Accepted(Config(readRate, readBurst, writeRate, writeBurst, MsecPerTick(sec, usec), half))
  }

  /** A tick length of `m` times the range of the counter, in milliseconds. */
  predicate FullRounds(sec: nat, usec: nat, m: nat) {
    sec * 1000 + usec % 0x10_0000 / 1000 == m * TICK_RANGE
  }

  lemma StoredAsZero(sec: nat, usec: nat)
    ensures MsecPerTick(sec, usec) == 0 <==> exists m: nat :: FullRounds(sec, usec, m)
  {
    var msec := sec * 1000 + usec % 0x10_0000 / 1000;
    if msec % TICK_RANGE == 0 {
      assert FullRounds(sec, usec, msec / TICK_RANGE);
    }
  }

  lemma ShortTicks(sec: nat, usec: nat)
    requires sec * 1000 + 1000 <= TICK_RANGE && usec < 1_000_000
    ensures MsecPerTick(sec, usec) == 0 <==> sec == 0 && usec < 1000
  {
    assert usec % 0x10_0000 == usec;
  }

  /** A configuration is refused for its rates alone, and one that is accepted is valid. But any tick length
      is accepted, and one that is stored as zero makes `ev_token_bucket_get_tick` divide by zero: exactly
      those of so many times 2^32 milliseconds, which up to 49 days are those under a millisecond. */
  lemma CfgNewAccepts(readRate: nat, readBurst: nat, writeRate: nat, writeBurst: nat, sec: nat, usec: nat, half: nat)
    ensures var r := CfgNew(readRate, readBurst, writeRate, writeBurst, [(sec, usec)], half, true);
      && (r.Accepted? <==> Config(readRate, readBurst, writeRate, writeBurst, 1, half).Valid())
      && (r.Accepted? ==> r.cfg.Valid())
      && (r.Accepted? ==> (r.cfg.msecPerTick == 0 <==> exists m: nat :: FullRounds(sec, usec, m)))
      && (r.Accepted? && sec * 1000 + 1000 <= TICK_RANGE && usec < 1_000_000 ==>
            (r.cfg.msecPerTick == 0 <==> sec == 0 && usec < 1000))
  {
    StoredAsZero(sec, usec);
    if sec * 1000 + 1000 <= TICK_RANGE && usec < 1_000_000 {
      ShortTicks(sec, usec);
    }
  }

  /** `x` as a signed integer of the machine. */
  function Signed(x: int, half: nat): (r: int)
    requires half > 0
    ensures 0 - half <= r < half
  {
    (x + half) % (2 * half) - half
  }

  /** One direction of `ev_token_bucket_update` after `n` ticks: the subtraction and the product are
      unsigned, the sum is stored as a signed number. */
  function Refill(limit: int, rate: nat, maximum: nat, n: nat, half: nat): int
    requires n > 0 && half > 0
  {
    if (maximum - limit) % (2 * half) / n < rate then maximum else Signed(limit + n * rate % (2 * half), half)
  }

  function Min(a: int, b: int): int {
    if a < b then a else b
  }

  // ---------- Refilling is what the naive formula says ----------

  /** Dividing first tells whether the product would be too much. */
  lemma DivideFirst(a: nat, n: nat, rate: nat)
    requires n > 0
    ensures a / n < rate <==> a < n * rate
  {
    var q := a / n;
    assert a == n * q + a % n;
    if q < rate {
      assert n * (q + 1) <= n * rate;
    } else {
      assert n * rate <= n * q;
    }
  }

  lemma ModSmall(a: nat, w: nat)
    requires a < w
    ensures a % w == a
  {
  }

  lemma ModOnce(a: int, w: nat)
    requires 0 <= a + w && a < 0 && w > 0
    ensures a % w == a + w
  {
  }

  /** The refilled limit is the smaller of the maximum and `limit + n * rate` exactly when the limit was
      not above the maximum, or so many bytes are due that the wrapped subtraction does not notice. */
  lemma RefillIsMin(limit: int, rate: nat, maximum: nat, n: nat, half: nat)
    requires n > 0 && half > 0 && 0 <= limit + half < 2 * half && maximum < half && 1 <= rate
    ensures Refill(limit, rate, maximum, n, half) == Min(maximum, limit + n * rate)
        <==> limit <= maximum || n * rate >= 2 * half + maximum - limit
  {
    var w, due := 2 * half, n * rate;
    assert due >= 1;
    if limit <= maximum {
      ModSmall(maximum - limit, w);
      DivideFirst(maximum - limit, n, rate);
      if due <= maximum - limit {
        ModSmall(due, w);
        ModSmall(limit + due + half, w);
      }
    } else {
      ModOnce(maximum - limit, w);
      DivideFirst(w + maximum - limit, n, rate);
      if due <= w + maximum - limit {
        if due == w + maximum - limit {
          ModSmall(due, w);
          SignedOnce(maximum, half);
        } else {
          ModSmall(due, w);
          SignedOff(limit + due, maximum, half);
        }
      }
    }
  }

  lemma SignedOnce(x: int, half: nat)
    requires 0 <= x < half
    ensures Signed(2 * half + x, half) == x
  {
  }

  lemma Shift(a: nat, w: nat)
    requires w > 0
    ensures (a + w) % w == a % w
  {
    assert a + w == w * (a / w + 1) + a % w;
    Unique(a + w, w, a / w + 1, a % w);
  }

  lemma Unique(a: nat, w: nat, q: nat, r: nat)
    requires w > 0 && a == w * q + r && r < w
    ensures a % w == r
  {
    var q' := a / w;
    assert a == w * q' + a % w;
    if q' > q {
      Times(w, q + 1, q');
      assert false;
    } else if q' < q {
      Times(w, q' + 1, q);
      assert false;
    }
  }

  lemma Times(w: nat, a: nat, b: nat)
    requires a <= b
    ensures w * a <= w * b
  {
  }

  /** Between the maximum and one turn above it nothing else is stored as the maximum. */
  lemma SignedOff(x: int, maximum: nat, half: nat)
    requires half > 0 && maximum < half && maximum < x < 2 * half + maximum
    ensures Signed(x, half) != maximum
  {
    if x + half < 2 * half {
      ModSmall(x + half, 2 * half);
    } else if x + half < 4 * half {
      Shift(x - half, 2 * half);
      ModSmall(x - half, 2 * half);
    }
  }

  // ---------- Buckets ----------

  datatype Bucket = Bucket(readLimit: int, writeLimit: int, lastUpdated: nat)

  /** The number of ticks from `from` to `to` in 32 bits. */
  function Ticks(from: nat, to: nat): nat {
    (to - from) % TICK_RANGE
  }

  /** `ev_token_bucket_init`. */
  function Init(b: Bucket, cfg: Config, tick: nat, reinitialize: bool): Bucket {
    if reinitialize then
      Bucket(Min(b.readLimit, cfg.readMaximum), Min(b.writeLimit, cfg.writeMaximum), b.lastUpdated)
    else
      Bucket(cfg.readRate, cfg.writeRate, tick)
  }

  /** `ev_token_bucket_update`. */
  function Update(b: Bucket, cfg: Config, tick: nat): Bucket
    requires cfg.half > 0
  {
    var n := Ticks(b.lastUpdated, tick);
    if n == 0 || n >= INT_RANGE then b
    else Bucket(Refill(b.readLimit, cfg.readRate, cfg.readMaximum, n, cfg.half),
                Refill(b.writeLimit, cfg.writeRate, cfg.writeMaximum, n, cfg.half), tick)
  }

  /** The limits are machine integers and not above the maxima. */
  predicate Within(b: Bucket, cfg: Config) {
    && cfg.Valid() && b.lastUpdated < TICK_RANGE
    && 0 <= b.readLimit + cfg.half && b.readLimit <= cfg.readMaximum
    && 0 <= b.writeLimit + cfg.half && b.writeLimit <= cfg.writeMaximum
  }

  /** `bytes` more after `n` ticks, up to the maximum. */
  function Topped(limit: int, rate: nat, maximum: nat, n: nat): int {
    Min(maximum, limit + n * rate)
  }

  lemma InitWithin(b: Bucket, cfg: Config, tick: nat, reinitialize: bool)
    requires cfg.Valid() && tick < TICK_RANGE
    requires reinitialize ==> b.lastUpdated < TICK_RANGE && 0 <= b.readLimit + cfg.half && 0 <= b.writeLimit + cfg.half
    ensures var b' := Init(b, cfg, tick, reinitialize);
            && Within(b', cfg)
            && (reinitialize ==> b'.lastUpdated == b.lastUpdated && forall write :: Clipped(b, b', cfg, write))
            && (!reinitialize ==> b'.lastUpdated == tick && forall write :: Limit(b', write) == Rate(cfg, write))
  {
  }

  /** The limit is the greatest that is neither above the one before nor above the maximum. */
  predicate Clipped(b: Bucket, b': Bucket, cfg: Config, write: bool) {
    var maximum := if write then cfg.writeMaximum else cfg.readMaximum;
    && Limit(b', write) <= Limit(b, write) && Limit(b', write) <= maximum
    && (Limit(b', write) == Limit(b, write) || Limit(b', write) == maximum)
  }

  lemma RefillTops(limit: int, rate: nat, maximum: nat, n: nat, half: nat)
    requires n > 0 && 0 <= limit + half && limit <= maximum < half && 1 <= rate
    ensures Refill(limit, rate, maximum, n, half) == Topped(limit, rate, maximum, n)
    ensures limit <= Topped(limit, rate, maximum, n) <= maximum
  {
    RefillIsMin(limit, rate, maximum, n, half);
    assert n * rate >= 0;
  }

  lemma ToppedNot(limit: int, rate: nat, maximum: nat)
    requires limit <= maximum
    ensures Topped(limit, rate, maximum, 0) == limit
  {
  }

  /** An update adds `rate` per tick, up to the maximum, and keeps the limits in their bounds. */
  lemma UpdateTops(b: Bucket, cfg: Config, tick: nat)
    requires Within(b, cfg) && tick < TICK_RANGE
    ensures Ticks(b.lastUpdated, tick) < INT_RANGE ==>
      var n, u := Ticks(b.lastUpdated, tick), Update(b, cfg, tick);
      && u.readLimit == Topped(b.readLimit, cfg.readRate, cfg.readMaximum, n)
      && u.writeLimit == Topped(b.writeLimit, cfg.writeRate, cfg.writeMaximum, n) && u.lastUpdated == tick
    ensures Ticks(b.lastUpdated, tick) >= INT_RANGE ==> Update(b, cfg, tick) == b
    ensures Within(Update(b, cfg, tick), cfg)
  {
    var n := Ticks(b.lastUpdated, tick);
    if n == 0 {
      SameTick(b.lastUpdated, tick);
      ToppedNot(b.readLimit, cfg.readRate, cfg.readMaximum);
      ToppedNot(b.writeLimit, cfg.writeRate, cfg.writeMaximum);
    } else if n < INT_RANGE {
      RefillTops(b.readLimit, cfg.readRate, cfg.readMaximum, n, cfg.half);
      RefillTops(b.writeLimit, cfg.writeRate, cfg.writeMaximum, n, cfg.half);
    }
  }

  lemma SameTick(a: nat, b: nat)
    requires a < TICK_RANGE && b < TICK_RANGE && Ticks(a, b) == 0
    ensures a == b
  {
  }

  lemma TicksAdd(a: nat, b: nat, c: nat)
    requires a < TICK_RANGE && b < TICK_RANGE && c < TICK_RANGE && Ticks(a, b) + Ticks(b, c) < TICK_RANGE
    ensures Ticks(a, c) == Ticks(a, b) + Ticks(b, c)
  {
  }

  lemma ToppedTwice(limit: int, rate: nat, maximum: nat, m: nat, n: nat)
    ensures Topped(Topped(limit, rate, maximum, m), rate, maximum, n) == Topped(limit, rate, maximum, m + n)
  {
  }

  /** Two updates do what one does, over the wrap-around of the tick counter too. */
  lemma UpdateTwice(b: Bucket, cfg: Config, t: nat, u: nat)
    requires Within(b, cfg) && t < TICK_RANGE && u < TICK_RANGE
    requires Ticks(b.lastUpdated, t) + Ticks(t, u) < INT_RANGE
    ensures Update(Update(b, cfg, t), cfg, u) == Update(b, cfg, u)
  {
    var m, n := Ticks(b.lastUpdated, t), Ticks(t, u);
    TicksAdd(b.lastUpdated, t, u);
    UpdateTops(b, cfg, t);
    UpdateTops(b, cfg, u);
    UpdateTops(Update(b, cfg, t), cfg, u);
    ToppedTwice(b.readLimit, cfg.readRate, cfg.readMaximum, m, n);
    ToppedTwice(b.writeLimit, cfg.writeRate, cfg.writeMaximum, m, n);
  }

  // ---------- Limits above the maximum ----------

  /** A refill turns a positive limit into one that is not exactly when the limit was above the maximum
      and the sum does not fit a signed integer. */
  lemma RefillDries(limit: int, rate: nat, maximum: nat, n: nat, half: nat)
    requires n > 0 && 0 < limit < half && 0 < maximum < half && 1 <= rate
    ensures Refill(limit, rate, maximum, n, half) <= 0 <==> maximum < limit && half <= limit + n * rate <= 2 * half
  {
    var w, due := 2 * half, n * rate;
    assert due >= 1;
    if limit <= maximum {
      RefillIsMin(limit, rate, maximum, n, half);
    } else {
      ModOnce(maximum - limit, w);
      DivideFirst(w + maximum - limit, n, rate);
      if due <= w + maximum - limit {
        ModSmall(due, w);
        if limit + due < half {
          ModSmall(limit + due + half, w);
        } else {
          Shift(limit + due - half, w);
          ModSmall(limit + due - half, w);
        }
      }
    }
  }

  /** So a bucket that was filled by hand above its maximum can run dry by a refill: 30 MB per tick,
      100 ticks, in 32 bits. */
  lemma FilledByHand()
    ensures Refill(40_000_001, 30_000_000, 40_000_000, 100, INT_RANGE) <= 0
  {
  }

  // ---------- Ticks ----------

  /** The tick in which the time falls, before it is cut to 32 bits. */
  function RealTick(sec: nat, usec: nat, cfg: Config): nat
    requires cfg.msecPerTick > 0
  {
    (sec * 1000 + usec / 1000) / cfg.msecPerTick
  }

  /** The time, in microseconds, lies in that tick: they follow each other from the epoch on, all of one length. */
  lemma InTick(sec: nat, usec: nat, cfg: Config)
    requires cfg.msecPerTick > 0
    ensures var t, length := RealTick(sec, usec, cfg), cfg.msecPerTick * 1000;
            t * length <= sec * 1_000_000 + usec < (t + 1) * length
  {
    var msec, m := sec * 1000 + usec / 1000, cfg.msecPerTick;
    var t := msec / m;
    assert msec == t * m + msec % m;
    assert t * (m * 1000) == t * m * 1000 && (t + 1) * (m * 1000) == (t * m + m) * 1000;
  }

  /** `ev_token_bucket_get_tick`. */
  function GetTick(sec: nat, usec: nat, cfg: Config): nat
    requires cfg.msecPerTick > 0
  {
    RealTick(sec, usec, cfg) % TICK_RANGE
  }

  /** The subtraction in 32 bits never counts more ticks than passed. */
  lemma TicksAtMost(a: nat, b: nat)
    requires a <= b
    ensures Ticks(a % TICK_RANGE, b % TICK_RANGE) <= b - a
  {
  }

  /** A bucket filled at one time under one tick length and read later under another counts the ticks that
      passed exactly when both lengths number the earlier time alike. */
  lemma OtherTickLength(cfg: Config, cfg': Config, sec0: nat, usec0: nat, sec: nat, usec: nat)
    requires cfg.msecPerTick > 0 && cfg'.msecPerTick > 0
    requires RealTick(sec0, usec0, cfg') <= RealTick(sec, usec, cfg') < RealTick(sec0, usec0, cfg') + TICK_RANGE
    ensures Ticks(GetTick(sec0, usec0, cfg), GetTick(sec, usec, cfg'))
         == RealTick(sec, usec, cfg') - RealTick(sec0, usec0, cfg')
        <==> GetTick(sec0, usec0, cfg) == GetTick(sec0, usec0, cfg')
  {
    TicksCount(GetTick(sec0, usec0, cfg), RealTick(sec0, usec0, cfg'), RealTick(sec, usec, cfg'));
  }

  lemma TicksCount(x: nat, a: nat, b: nat)
    requires x < TICK_RANGE && a <= b < a + TICK_RANGE
    ensures Ticks(x, b % TICK_RANGE) == b - a <==> x == a % TICK_RANGE
  {
  }

  /** After 1000 seconds the change from ticks of 1 ms to ticks of 1 s is not counted right, and looks like
      time running backwards for a minute and more. */
  lemma LongerTicks(b: Bucket, cfg: Config, cfg': Config)
    requires cfg.Valid() && cfg'.Valid() && cfg.msecPerTick == 1 && cfg'.msecPerTick == 1000
    requires b.lastUpdated == GetTick(1000, 0, cfg)
    ensures Ticks(b.lastUpdated, GetTick(1060, 0, cfg')) != 60
    ensures Ticks(b.lastUpdated, GetTick(1060, 0, cfg')) >= INT_RANGE
    ensures Update(b, cfg', GetTick(1060, 0, cfg')) == b
  {
    OtherTickLength(cfg, cfg', 1000, 0, 1060, 0);
  }

  // ---------- What a bucket lets through ----------

  function Limit(b: Bucket, write: bool): int {
    if write then b.writeLimit else b.readLimit
  }

  function Rate(cfg: Config, write: bool): nat {
    if write then cfg.writeRate else cfg.readRate
  }

  /** `_bufferevent_get_rlim_max` without a group, after the update. */
  function Granted(b: Bucket, write: bool): (r: nat)
    ensures r >= Limit(b, write) && (r == Limit(b, write) || r == 0)
  {
    if Limit(b, write) < 0 then 0 else Limit(b, write)
  }

  function Spent(b: Bucket, write: bool, bytes: int): Bucket {
    if write then b.(writeLimit := b.writeLimit - bytes) else b.(readLimit := b.readLimit - bytes)
  }

  /** The clock reaches tick `at` and the bucket is updated; or bytes pass in one direction. */
  datatype Step = Tick(at: nat) | Pass(write: bool, bytes: nat)

  function After(b: Bucket, cfg: Config, step: Step): Bucket
    requires cfg.half > 0
  {
    match step
    case Tick(at) => Update(b, cfg, at % TICK_RANGE)
    case Pass(write, bytes) => Spent(b, write, bytes)
  }

  /** Time does not go back, and no more passes than was granted. */
  ghost predicate Legal(b: Bucket, cfg: Config, steps: seq<Step>, now: nat)
    requires cfg.half > 0
    decreases |steps|
  {
    steps == [] || (
      && (match steps[0] case Tick(at) => now <= at case Pass(write, bytes) => bytes <= Granted(b, write))
      && Legal(After(b, cfg, steps[0]), cfg, steps[1..], Clock(steps[0], now)))
  }

  function Clock(step: Step, now: nat): nat {
    if step.Tick? then step.at else now
  }

  /** The time after the steps. */
  function EndTime(steps: seq<Step>, now: nat): nat {
    if steps == [] then now else EndTime(steps[1..], Clock(steps[0], now))
  }

  /** The bytes that pass in one direction. */
  function Total(steps: seq<Step>, write: bool): nat {
    if steps == [] then 0
    else (if steps[0].Pass? && steps[0].write == write then steps[0].bytes else 0) + Total(steps[1..], write)
  }

  function Max(a: int, b: int): int {
    if a < b then b else a
  }

  /** What is in the bucket and `rate` for every tick from `last` to `end`. */
  function Budget(b: Bucket, cfg: Config, write: bool, last: nat, end: nat): int
    requires last <= end
  {
    Limit(b, write) + Rate(cfg, write) * (end - last)
  }

  lemma BudgetTick(b: Bucket, cfg: Config, write: bool, last: nat, at: nat, end: nat)
    requires Within(b, cfg) && b.lastUpdated == last % TICK_RANGE && last <= at <= end
    requires Update(b, cfg, at % TICK_RANGE).lastUpdated == at % TICK_RANGE
    ensures Budget(Update(b, cfg, at % TICK_RANGE), cfg, write, at, end) <= Budget(b, cfg, write, last, end)
  {
    var n, rate := Ticks(last % TICK_RANGE, at % TICK_RANGE), Rate(cfg, write);
    var b' := Update(b, cfg, at % TICK_RANGE);
    UpdateTops(b, cfg, at % TICK_RANGE);
    TicksAtMost(last, at);
    assert Limit(b', write) <= Limit(b, write) + n * rate;
    Times(rate, n, at - last);
    assert rate * (end - last) == rate * (at - last) + rate * (end - at);
  }

  lemma BudgetPass(b: Bucket, cfg: Config, write: bool, last: nat, end: nat, step: Step)
    requires step.Pass? && step.bytes <= Granted(b, step.write) && last <= end && cfg.half > 0
    ensures var spent := if step.write == write then step.bytes else 0;
      && Budget(After(b, cfg, step), cfg, write, last, end) == Budget(b, cfg, write, last, end) - spent
      && spent <= Max(0, Budget(b, cfg, write, last, end))
  {
  }

  lemma {:induction false} ClockRuns(b: Bucket, cfg: Config, steps: seq<Step>, now: nat)
    requires cfg.half > 0 && Legal(b, cfg, steps, now)
    ensures now <= EndTime(steps, now)
    decreases |steps|
  {
    if steps != [] {
      ClockRuns(After(b, cfg, steps[0]), cfg, steps[1..], Clock(steps[0], now));
    }
  }

  /** Over any run, no matter how often the tick counter wraps around, no more passes than was in the
      bucket and `rate` for every tick since. */
  lemma {:induction false} PassBound(b: Bucket, cfg: Config, steps: seq<Step>, last: nat, now: nat, write: bool)
    requires Within(b, cfg) && b.lastUpdated == last % TICK_RANGE && last <= now && Legal(b, cfg, steps, now)
    ensures now <= EndTime(steps, now)
    ensures Total(steps, write) <= Max(0, Budget(b, cfg, write, last, EndTime(steps, now)))
    decreases |steps|
  {
    ClockRuns(b, cfg, steps, now);
    if steps == [] {
    } else if steps[0].Tick? {
      var at := steps[0].at;
      var b' := Update(b, cfg, at % TICK_RANGE);
      UpdateTops(b, cfg, at % TICK_RANGE);
      ClockRuns(b', cfg, steps[1..], at);
      if b'.lastUpdated == at % TICK_RANGE {
        PassBound(b', cfg, steps[1..], at, at, write);
        BudgetTick(b, cfg, write, last, at, EndTime(steps, now));
      } else {
        PassBound(b', cfg, steps[1..], last, at, write);
      }
    } else {
      PassBound(After(b, cfg, steps[0]), cfg, steps[1..], last, now, write);
      BudgetPass(b, cfg, write, last, EndTime(steps, now), steps[0]);
    }
  }
}
