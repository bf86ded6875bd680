/** A bufferevent under a rate limit of its own: what suspends it, what lets it go on, and the timer
    that refills its bucket. */
module RateLimit {
  import opened TokenBucket

  /** The bits of `read_suspended` and `write_suspended`. */
  datatype Reason = Watermark | Bandwidth | BandwidthGroup | NameLookup | FilterRead

  /** A pointer to a configuration; pointers are told apart by `id`. */
  datatype ConfigRef = NoConfig | ConfigRef(id: nat, config: Config)

  class Bufferevent {
    var enabledRead: bool
    var enabledWrite: bool
    var readSuspended: set<Reason>
    var writeSuspended: set<Reason>
    /** Whether the backend reads and writes. */
    var readOn: bool
    var writeOn: bool
    /** Whether `rate_limiting` has been allocated, and its contents. */
    var limited: bool
    var cfg: ConfigRef
    var bucket: Bucket
    /** The refill timer is pending; its callback is running; it could not be added for lack of memory. */
    var armed: bool
    ghost var running: bool
    ghost var failed: bool

    constructor ()
      ensures Valid() && cfg == NoConfig && readSuspended == {} && writeSuspended == {} && !armed && !running && !failed
    {
      enabledRead, enabledWrite, readSuspended, writeSuspended, readOn, writeOn := false, false, {}, {}, false, false;
      limited, cfg, bucket, armed, running, failed := false, NoConfig, Bucket(0, 0, 0), false, false, false;
    }

    predicate Suspended(write: bool, why: Reason)
      reads this`readSuspended, this`writeSuspended
    {
      why in if write then writeSuspended else readSuspended
    }

    /** The backend works in a direction exactly when that is enabled and nothing suspends it. */
    ghost predicate BackendOk()
      reads this`enabledRead, this`enabledWrite, this`readSuspended, this`writeSuspended, this`readOn, this`writeOn
    {
      (readOn <==> enabledRead && readSuspended == {}) && (writeOn <==> enabledWrite && writeSuspended == {})
    }

    /** Whoever is suspended for bandwidth will be looked at again. */
    ghost predicate Watched()
      reads this`readSuspended, this`writeSuspended, this`cfg, this`armed, this`running, this`failed
    {
      Bandwidth in readSuspended || Bandwidth in writeSuspended ==> cfg.ConfigRef? && (armed || running || failed)
    }

    /** Whoever has used up the bandwidth is suspended. */
    ghost predicate Throttled()
      reads this`readSuspended, this`writeSuspended, this`cfg, this`bucket
    {
      cfg.ConfigRef? ==>
        && (bucket.readLimit <= 0 ==> Bandwidth in readSuspended)
        && (bucket.writeLimit <= 0 ==> Bandwidth in writeSuspended)
    }

    /** The numbers are machine integers. */
    ghost predicate Ranged()
      reads this`cfg, this`bucket, this`limited
    {
      cfg.ConfigRef? ==> limited && cfg.config.Valid() && cfg.config.msecPerTick > 0 && Machine(bucket, cfg.config)
    }

    ghost predicate Valid()
      reads this
    {
      BackendOk() && Watched() && Throttled() && Ranged()
    }

    /** `bufferevent_suspend_read` and `bufferevent_suspend_write`. */
    method Suspend(write: bool, why: Reason)
      requires BackendOk()
      modifies this`readSuspended, this`writeSuspended, this`readOn, this`writeOn
      ensures BackendOk()
      ensures readSuspended == old(readSuspended) + (if write then {} else {why})
      ensures writeSuspended == old(writeSuspended) + (if write then {why} else {})
    {
      if write {
        if writeSuspended == {} {
          writeOn := false;
        }
        writeSuspended := writeSuspended + {why};
      } else {
        if readSuspended == {} {
          readOn := false;
        }
        readSuspended := readSuspended + {why};
      }
    }

    /** `bufferevent_unsuspend_read` and `bufferevent_unsuspend_write`. */
    method Unsuspend(write: bool, why: Reason)
      requires BackendOk()
      modifies this`readSuspended, this`writeSuspended, this`readOn, this`writeOn
      ensures BackendOk()
      ensures readSuspended == old(readSuspended) - (if write then {} else {why})
      ensures writeSuspended == old(writeSuspended) - (if write then {why} else {})
    {
      if write {
        writeSuspended := writeSuspended - {why};
        if writeSuspended == {} && enabledWrite {
          writeOn := true;
        }
      } else {
        readSuspended := readSuspended - {why};
        if readSuspended == {} && enabledRead {
          readOn := true;
        }
      }
    }

    /** `bufferevent_enable` and `bufferevent_disable`. */
    method Enable(read: bool, write: bool)
      requires Valid()
      modifies this`enabledRead, this`enabledWrite, this`readOn, this`writeOn
      ensures Valid() && enabledRead == (old(enabledRead) || read) && enabledWrite == (old(enabledWrite) || write)
    {
      enabledRead, enabledWrite := enabledRead || read, enabledWrite || write;
      if read && readSuspended == {} {
        readOn := true;
      }
      if write && writeSuspended == {} {
        writeOn := true;
      }
    }

    method Disable(read: bool, write: bool)
      requires Valid()
      modifies this`enabledRead, this`enabledWrite, this`readOn, this`writeOn
      ensures Valid() && enabledRead == (old(enabledRead) && !read) && enabledWrite == (old(enabledWrite) && !write)
    {
      enabledRead, enabledWrite := enabledRead && !read, enabledWrite && !write;
      readOn, writeOn := readOn && !read, writeOn && !write;
    }

    /** `event_add` for the refill timer; it fails exactly when the timer is not pending and memory lacks. */
    method Arm(memory: bool) returns (ok: bool)
      modifies this`armed, this`failed
      ensures ok == armed == (old(armed) || memory) && failed == !ok
    {
      if !armed {
        armed := memory;
      }
      ok := armed;
      failed := !ok;
    }

    /** A direction is suspended for bandwidth. */
    predicate Waits()
      reads this`readSuspended, this`writeSuspended
    {
      Bandwidth in readSuspended || Bandwidth in writeSuspended
    }

    /** Nobody is stranded: whoever waits for bandwidth has the timer pending, or its callback running. */
    ghost predicate Guarded()
      reads this`readSuspended, this`writeSuspended, this`armed, this`running
    {
      Waits() ==> armed || running
    }

    /** `event_del` for the refill timer. */
    method Disarm()
      modifies this`armed
      ensures !armed
    {
      armed := false;
    }

    /** Suspends one direction for bandwidth and sees to the timer. */
    method Stop(write: bool, memory: bool) returns (ok: bool)
      requires BackendOk() && Watched() && cfg.ConfigRef?
      modifies this`readSuspended, this`writeSuspended, this`readOn, this`writeOn, this`armed, this`failed
      ensures BackendOk() && Watched() && ok == armed == (old(armed) || memory)
      ensures readSuspended == old(readSuspended) + (if write then {} else {Bandwidth})
      ensures writeSuspended == old(writeSuspended) + (if write then {Bandwidth} else {})
    {
      Suspend(write, Bandwidth);
      ok := Arm(memory);
    }

    /** Lets one direction go on and takes the timer off if the other does not need it. */
    method Resume(write: bool)
      requires BackendOk() && Watched()
      modifies this`readSuspended, this`writeSuspended, this`readOn, this`writeOn, this`armed
      ensures BackendOk() && Watched() && armed == (old(armed) && Suspended(!write, Bandwidth))
      ensures readSuspended == old(readSuspended) - (if write then {} else {Bandwidth})
      ensures writeSuspended == old(writeSuspended) - (if write then {Bandwidth} else {})
    {
      if !Suspended(!write, Bandwidth) {
        Disarm();
      }
      Unsuspend(write, Bandwidth);
    }

    /** `_bufferevent_decrement_read_buckets` and its twin: `bytes` have passed. Afterwards the direction
        is suspended for bandwidth exactly when its limit is used up. */
    method Decrement(write: bool, bytes: int, memory: bool) returns (r: int)
      requires Valid() && (cfg.ConfigRef? ==> Machine(Spent(bucket, write, bytes), cfg.config))
      modifies this`bucket, this`readSuspended, this`writeSuspended, this`readOn, this`writeOn, this`armed, this`failed
      ensures Valid() && bucket == if cfg.ConfigRef? then Spent(old(bucket), write, bytes) else old(bucket)
      ensures cfg.ConfigRef? ==> (Suspended(write, Bandwidth) <==> Limit(bucket, write) <= 0)
      ensures OnlyBandwidth(old(readSuspended), readSuspended, !write)
      ensures OnlyBandwidth(old(writeSuspended), writeSuspended, write)
      ensures armed == if cfg.NoConfig? then old(armed)
                       else if Limit(bucket, write) <= 0 then old(armed) || memory
                       else old(armed) && (old(Suspended(write, Bandwidth)) ==> Suspended(!write, Bandwidth))
      ensures r == if cfg.ConfigRef? && Limit(bucket, write) <= 0 && !armed then -1 else 0
      ensures memory && old(Guarded()) ==> Guarded()
    {
      r := 0;
      if cfg.ConfigRef? {
        bucket := Spent(bucket, write, bytes);
        if Limit(bucket, write) <= 0 {
          var ok := Stop(write, memory);
          r := if ok then 0 else -1;
        } else if Suspended(write, Bandwidth) {
          Resume(write);
        }
      }
    }

    /** `bufferevent_decrement_read_limit` and its twin, where `decr` may be negative: the bit changes
        exactly when the limit crosses zero. */
    method DecrementLimit(write: bool, decr: int, memory: bool) returns (r: int)
      requires Valid() && cfg.ConfigRef? && Machine(Spent(bucket, write, decr), cfg.config)
      modifies this`bucket, this`readSuspended, this`writeSuspended, this`readOn, this`writeOn, this`armed, this`failed
      ensures Valid() && bucket == Spent(old(bucket), write, decr)
      ensures Suspended(write, Bandwidth) <==>
                Limit(bucket, write) <= 0 || (Limit(old(bucket), write) > 0 && old(Suspended(write, Bandwidth)))
      ensures OnlyBandwidth(old(readSuspended), readSuspended, !write)
      ensures OnlyBandwidth(old(writeSuspended), writeSuspended, write)
      ensures armed == if Limit(old(bucket), write) > 0 && Limit(bucket, write) <= 0 then old(armed) || memory
                       else old(armed) && (Limit(old(bucket), write) <= 0 && Limit(bucket, write) > 0 ==>
                                             Suspended(!write, Bandwidth))
      ensures r == if Limit(old(bucket), write) > 0 && Limit(bucket, write) <= 0 && !armed then -1 else 0
      ensures memory && old(Guarded()) ==> Guarded()
    {
      r := 0;
      var was := Limit(bucket, write);
      bucket := Spent(bucket, write, decr);
      if was > 0 && Limit(bucket, write) <= 0 {
        var ok := Stop(write, memory);
        r := if ok then 0 else -1;
      } else if was <= 0 && Limit(bucket, write) > 0 {
        Resume(write);
      }
    }

    /** `bufferevent_update_buckets`. Whoever had bandwidth left still has, unless the refill dries the
        bucket. */
    method UpdateBuckets(sec: nat, usec: nat)
      requires Valid() && cfg.ConfigRef?
      modifies this`bucket
      ensures BackendOk() && Watched() && Ranged()
      ensures bucket == Update(old(bucket), cfg.config, GetTick(sec, usec, cfg.config))
      ensures Throttled() <==>
              forall write ::
                Suspended(write, Bandwidth) || !Dries(old(bucket), cfg.config, GetTick(sec, usec, cfg.config), write)
    {
      var tick := GetTick(sec, usec, cfg.config);
      UpdateMachine(bucket, cfg.config, tick);
      if bucket.readLimit > 0 {
        UpdateDries(bucket, cfg.config, tick, false);
      }
      if bucket.writeLimit > 0 {
        UpdateDries(bucket, cfg.config, tick, true);
      }
      if tick != bucket.lastUpdated {
        bucket := Update(bucket, cfg.config, tick);
      }
    }

    /** `_bufferevent_get_rlim_max` for a bufferevent without a group. */
    method GetMax(write: bool, sec: nat, usec: nat) returns (most: nat)
      requires Valid()
      modifies this`bucket
      ensures BackendOk() && Watched() && Ranged()
      ensures cfg.ConfigRef? ==>
                && bucket == Update(old(bucket), cfg.config, GetTick(sec, usec, cfg.config))
                && most == Granted(bucket, write)
      ensures cfg.NoConfig? ==> bucket == old(bucket) && most == MAX_EVER
      ensures cfg.ConfigRef? && NeitherDries(old(bucket), cfg.config, GetTick(sec, usec, cfg.config)) ==> Valid()
    {
      most := MAX_EVER;
      if limited && cfg.ConfigRef? {
        UpdateBuckets(sec, usec);
        most := Granted(bucket, write);
      }
    }

    /** The refill timer expires and its callback is about to run. */
    method TimerFires()
      requires Valid() && armed
      modifies this`armed, this`running
      ensures Valid() && !armed && running
    {
      armed, running := false, true;
    }

    /** One direction in `_bev_refill_callback`. */
    method Reconsider(write: bool) returns (again: bool)
      requires BackendOk()
      modifies this`readSuspended, this`writeSuspended, this`readOn, this`writeOn
      ensures BackendOk() && (again <==> old(Suspended(write, Bandwidth)) && Limit(bucket, write) <= 0)
      ensures readSuspended == old(readSuspended) - (if !write && bucket.readLimit > 0 then {Bandwidth} else {})
      ensures writeSuspended == old(writeSuspended) - (if write && bucket.writeLimit > 0 then {Bandwidth} else {})
    {
      again := false;
      if Suspended(write, Bandwidth) {
        if Limit(bucket, write) > 0 {
          Unsuspend(write, Bandwidth);
        } else {
          again := true;
        }
      }
    }

    /** The second half of `_bev_refill_callback`: looks at both directions and adds the timer again if
        one has to wait. */
    method Review(memory: bool)
      requires BackendOk() && cfg.ConfigRef?
      modifies this`readSuspended, this`writeSuspended, this`readOn, this`writeOn, this`armed, this`failed
      ensures BackendOk() && armed == (old(armed) || (Waits() && memory)) && (Waits() ==> armed || failed)
      ensures readSuspended == old(readSuspended) - (if bucket.readLimit > 0 then {Bandwidth} else {})
      ensures writeSuspended == old(writeSuspended) - (if bucket.writeLimit > 0 then {Bandwidth} else {})
    {
      var againRead := Reconsider(false);
      var againWrite := Reconsider(true);
      if againRead || againWrite {
        var _ := Arm(memory);
      }
    }

    /** `_bev_refill_callback`: afterwards no direction with bandwidth left is suspended for it, and if one
        is suspended the timer is pending again. */
    method RefillCallback(sec: nat, usec: nat, memory: bool)
      requires Valid() && running
      modifies this`bucket, this`readSuspended, this`writeSuspended, this`readOn, this`writeOn, this`armed
      modifies this`failed, this`running
      ensures BackendOk() && Watched() && Ranged() && !running
      ensures armed == (old(armed) || (cfg.ConfigRef? && Waits() && memory)) && (memory ==> Guarded())
      ensures cfg.ConfigRef? ==> bucket == Update(old(bucket), cfg.config, GetTick(sec, usec, cfg.config))
      ensures cfg.ConfigRef? ==> forall write :: Limit(bucket, write) > 0 ==> !Suspended(write, Bandwidth)
      ensures cfg.ConfigRef? && NeitherDries(old(bucket), cfg.config, GetTick(sec, usec, cfg.config)) ==> Valid()
      ensures OnlyBandwidth(old(readSuspended), readSuspended, true)
      ensures OnlyBandwidth(old(writeSuspended), writeSuspended, true)
    {
      if !limited || cfg.NoConfig? {
        running := false;
        return;
      }
      UpdateBuckets(sec, usec);
      Review(memory);
      running := false;
    }

    /** `bufferevent_set_rate_limit`; `room` says whether `rate_limiting` can be allocated, `memory` whether the
        timer can be added. */
    method SetRateLimit(anew: ConfigRef, sec: nat, usec: nat, room: bool, memory: bool) returns (r: int)
      requires Valid()
      requires anew.ConfigRef? ==> anew.config.Valid() && anew.config.msecPerTick > 0
      requires anew.ConfigRef? && cfg.ConfigRef? ==>
                 anew.config.half == cfg.config.half && (anew.id == cfg.id ==> anew == cfg)
      modifies this`limited, this`cfg, this`bucket, this`readSuspended, this`writeSuspended, this`readOn, this`writeOn
      modifies this`armed, this`failed
      ensures Valid() && r == (if anew.ConfigRef? && !old(limited) && !room then -1 else 0)
      ensures cfg == if r == 0 then anew else old(cfg)
      ensures memory && old(Guarded()) ==> Guarded()
      ensures r == 0 && anew.ConfigRef? && anew != old(cfg) ==>
                armed == ((old(armed) && old(cfg).NoConfig?) || (Waits() && memory))
      ensures anew.NoConfig? ==> Bandwidth !in readSuspended && Bandwidth !in writeSuspended
      ensures OnlyBandwidth(old(readSuspended), readSuspended, true)
      ensures OnlyBandwidth(old(writeSuspended), writeSuspended, true)
      ensures r == 0 && anew.ConfigRef? && anew != old(cfg) ==>
        && bucket == Init(old(bucket), anew.config, GetTick(sec, usec, anew.config), old(cfg).ConfigRef?)
        && forall write :: Suspended(write, Bandwidth) <==> Limit(bucket, write) <= 0
    {
      if anew.NoConfig? {
        if limited {
          cfg := NoConfig;
          Unsuspend(false, Bandwidth);
          Unsuspend(true, Bandwidth);
          Disarm();
        }
        return 0;
      }
      if limited && cfg.ConfigRef? && cfg.id == anew.id {
        return 0;
      }
      if !limited {
        if !room {
          return -1;
        }
        limited := true;
      }
      var reinit := cfg.ConfigRef?;
      cfg := anew;
      bucket := Init(bucket, cfg.config, GetTick(sec, usec, cfg.config), reinit);
      if reinit {
        Disarm();
      }
      var stopRead := Settle(false);
      var stopWrite := Settle(true);
      if stopRead || stopWrite {
        var _ := Arm(memory);
      }
      r := 0;
    }

    /** Suspends or lets go on one direction according to its limit. */
    method Settle(write: bool) returns (stop: bool)
      requires BackendOk()
      modifies this`readSuspended, this`writeSuspended, this`readOn, this`writeOn
      ensures BackendOk() && (stop <==> Limit(bucket, write) <= 0) && (stop <==> Suspended(write, Bandwidth))
      ensures OnlyBandwidth(old(readSuspended), readSuspended, !write)
      ensures OnlyBandwidth(old(writeSuspended), writeSuspended, write)
    {
      stop := Limit(bucket, write) <= 0;
      if stop {
        Suspend(write, Bandwidth);
      } else {
        Unsuspend(write, Bandwidth);
      }
    }
  }

  /** Of the reasons only the bandwidth changed, and only if `may`. */
  ghost predicate OnlyBandwidth(was: set<Reason>, now: set<Reason>, may: bool) {
    if may then now - {Bandwidth} == was - {Bandwidth} else now == was
  }

  lemma FirstTick(cfg: Config)
    requires cfg.msecPerTick == 1000
    ensures GetTick(0, 0, cfg) == 0 && GetTick(1, 0, cfg) == 1
  {
  }

  lemma DriesFromMore(cfg: Config, b: Bucket)
    requires cfg == Config(0x4000_0000, 0x4000_0000, 0x4000_0000, 0x4000_0000, 1000, INT_RANGE)
    requires b == Bucket(0x4000_0001, 0x4000_0000, 0)
    ensures Dries(b, cfg, 1, false) && !Dries(b, cfg, 1, true) && Machine(b, cfg)
  {
    assert Ticks(0, 1) == 1;
  }

  /** An update can leave a bufferevent without bandwidth and yet not suspended: one that has been given a
      byte more than its maximum, a tick later. */
  method LimitDries() returns (b: Bufferevent)
    ensures b.cfg.ConfigRef? && b.bucket.readLimit <= 0 && !b.Suspended(false, Bandwidth) && !b.Throttled()
  {
    b := new Bufferevent();
    var rate := 0x4000_0000;
    var cfg := ConfigRef(0, Config(rate, rate, rate, rate, 1000, INT_RANGE));
    FirstTick(cfg.config);
    DriesFromMore(cfg.config, Bucket(rate + 1, rate, 0));
    UpdateDries(Bucket(rate + 1, rate, 0), cfg.config, 1, false);
    var _ := b.SetRateLimit(cfg, 0, 0, true, true);
    var _ := b.DecrementLimit(false, -1, true);
    b.UpdateBuckets(1, 0);
  }

  /** MAX_TO_READ_EVER and MAX_TO_WRITE_EVER. */
  const MAX_EVER: nat := 16384

  function Maximum(cfg: Config, write: bool): nat {
    if write then cfg.writeMaximum else cfg.readMaximum
  }

  /** An update at `tick` turns a positive limit into one that is not; by `UpdateDries` that takes a limit
      above the maximum and a sum that does not fit. */
  predicate Dries(b: Bucket, cfg: Config, tick: nat, write: bool) {
    var n := Ticks(b.lastUpdated, tick);
    && 0 < n < INT_RANGE && Limit(b, write) > Maximum(cfg, write)
    && cfg.half <= Limit(b, write) + n * Rate(cfg, write) <= 2 * cfg.half
  }

  predicate NeitherDries(b: Bucket, cfg: Config, tick: nat) {
    forall write :: !Dries(b, cfg, tick, write)
  }

  lemma UpdateDries(b: Bucket, cfg: Config, tick: nat, write: bool)
    requires cfg.Valid() && Machine(b, cfg) && Limit(b, write) > 0
    ensures Limit(Update(b, cfg, tick), write) <= 0 <==> Dries(b, cfg, tick, write)
  {
    var n := Ticks(b.lastUpdated, tick);
    if 0 < n < INT_RANGE {
      RefillDries(Limit(b, write), Rate(cfg, write), Maximum(cfg, write), n, cfg.half);
    }
  }

  lemma UpdateMachine(b: Bucket, cfg: Config, tick: nat)
    requires cfg.Valid() && Machine(b, cfg) && tick < TICK_RANGE
    ensures Machine(Update(b, cfg, tick), cfg) && (tick == b.lastUpdated ==> Update(b, cfg, tick) == b)
  {
  }

  /** The limits and the tick are machine integers. */
  predicate Machine(b: Bucket, cfg: Config) {
    && b.lastUpdated < TICK_RANGE
    && 0 <= b.readLimit + cfg.half < 2 * cfg.half && 0 <= b.writeLimit + cfg.half < 2 * cfg.half
  }
}
