/**
 The plugin's process-wide statics and the code that updates them in place:
 the body of the `Actor::tick` hook, its expiry sweep, the `reservedSlots`
 clamp of `enable`, and the stats accessors. Each method is proved to leave
 the fields exactly as the pure model in `Optimizer` prescribes.
 */
module Runtime {
  import opened CppInt
  import opened Optimizer
  import OptimizerLemmas

  class Controller {
    var config: Config
    var stats: Stats
    var lastTickId: u64
    var processedThisTick: int
    var lastDebugTick: u64
    var lastCleanupTick: u64
    var actorStates: map<i64, ActorState>

    /** The statics the hook owns, as one value. */
    function Snapshot(): Globals
      reads this
    {
      Globals(lastTickId, processedThisTick, lastDebugTick, lastCleanupTick, actorStates, stats)
    }

    ghost predicate Valid()
      reads this
    {
      WithinQuota(config, Snapshot())
    }

    /** Zero-initialised statics with the configuration `load` produced. */
    constructor (cfg: Config)
      ensures config == cfg && Snapshot() == INITIAL && Valid()
    {
      config := cfg;
      stats := ZERO_STATS;
      lastTickId := 0;
      processedThisTick := 0;
      lastDebugTick := 0;
      lastCleanupTick := 0;
      actorStates := map[];
    }

    method GetStats() returns (s: Stats)
      ensures s == stats
    {
      s := stats;
    }

    method ResetStats()
      modifies this
      ensures stats == ZERO_STATS
      ensures Snapshot() == old(Snapshot()).(stats := ZERO_STATS) && config == old(config)
      ensures Valid() <==> old(Valid())
    {
      stats := ZERO_STATS;
    }

    /**
     The clamp in `enable`: a `reservedSlots` that is not below `maxPerTick`
     becomes `maxPerTick / 2`. The quota ceiling is unaffected, so the
     invariant survives even if it runs while the hook is live.
     */
    method Enable()
      requires Valid()
      modifies this
      ensures config == Optimizer.Enable(old(config))
      ensures Snapshot() == old(Snapshot())
      ensures QuotaCeiling(config) == QuotaCeiling(old(config))
      ensures Valid()
    {
      if config.reservedSlots >= config.maxPerTick {
        config := config.(reservedSlots := HalfTowardZero(config.maxPerTick));
      }
    }

    /**
     The expiry sweep: walks the table and erases, in place, every entry idle
     for more than `cooldownTicks * expiryMultiplier` ticks.
     */
    method Sweep(currentTick: u64)
      modifies this
      ensures actorStates == Prune(old(actorStates), currentTick, ExpiryAge(config))
      ensures forall k :: k in actorStates ==> Idle(actorStates[k], currentTick) <= ExpiryAge(config)
      ensures Snapshot() == old(Snapshot()).(actorStates := actorStates) && config == old(config)
    {
      var expiry := ExpiryAge(config);
      ghost var before := actorStates;
      var unvisited := actorStates.Keys;
      while unvisited != {}
        invariant unvisited <= actorStates.Keys <= before.Keys
        invariant forall k :: k in actorStates ==> actorStates[k] == before[k]
        invariant forall k :: k in before && k !in unvisited ==>
                    (k in actorStates <==> !Expired(before[k], currentTick, expiry))
        invariant Snapshot() == old(Snapshot()).(actorStates := actorStates) && config == old(config)
        decreases unvisited
      {
        var k :| k in unvisited;
        if SubU64(currentTick, actorStates[k].lastAiTick) > expiry {
          actorStates := actorStates - {k};
        }
        unvisited := unvisited - {k};
      }
      assert actorStates == Prune(before, currentTick, expiry);
    }

    /**
     One intercepted `Actor::tick` of actor `uid` at tick `currentTick`.
     The host calls (`isPlayer()`, the level's tick id, the unique id) arrive
     as parameters; a `Bypass` or `Admitted` result means the original update
     runs.
     */
    method Tick(uid: i64, isPlayer: bool, currentTick: u64) returns (d: Decision)
      requires Valid()
      modifies this
      ensures Outcome(Snapshot(), d) == Hook(config, old(Snapshot()), uid, isPlayer, currentTick)
      ensures config == old(config)
      ensures Valid()
    {
      OptimizerLemmas.HookKeepsQuota(config, Snapshot(), uid, isPlayer, currentTick);
      if !config.enabled || isPlayer {
        return Bypass;
      }
      if currentTick != lastTickId {
        RollOver(currentTick);
      }
      d := Gate(uid, currentTick);
    }

    /**
     The work of the first call that sees a new tick id: reset the per-tick
     count, sweep on schedule, stamp the debug timestamp on schedule (the
     debug line itself is not modelled).
     */
    method RollOver(currentTick: u64)
      modifies this
      ensures Snapshot() == Rollover(config, old(Snapshot()), currentTick)
      ensures config == old(config)
    {
      lastTickId := currentTick;
      processedThisTick := 0;
      var cleanupInterval := CleanupInterval(config);
      if SubU64(currentTick, lastCleanupTick) >= cleanupInterval {
        lastCleanupTick := currentTick;
        Sweep(currentTick);
      }
      if config.debug {
        var debugInterval := DebugInterval(config);
        if SubU64(currentTick, lastDebugTick) >= debugInterval {
          lastDebugTick := currentTick;
        }
      }
    }

    /**
     Everything after the rollover: look up or insert the actor's entry, then
     the cooldown gate, priority classification, quota gate and admission.
     */
    method Gate(uid: i64, currentTick: u64) returns (d: Decision)
      modifies this
      ensures Outcome(Snapshot(), d) == Decide(config, old(Snapshot()), uid, currentTick)
      ensures config == old(config)
    {
      ghost var g1 := Snapshot();
      var inserted := uid !in actorStates;
      if inserted {
        actorStates := actorStates[uid := FRESH];
      }
      var state := actorStates[uid];
      ghost var table := actorStates;

      // cooldown gate
      if !inserted && SubU64(currentTick, state.lastAiTick) < CastU64(config.cooldownTicks) {
        stats := stats.(totalCooldownSkipped := stats.totalCooldownSkipped + 1);
        return CooldownSkipped;
      }

      // priority classification and quota gate
      var isWaiting := IsWaiting(state);
      var isPrioritized := IsPrioritized(config, state, currentTick);
      var effectiveLimit := EffectiveLimit(config, isPrioritized);
      if processedThisTick >= effectiveLimit {
        if !isWaiting {
          actorStates := actorStates[uid := state.(pendingSince := currentTick)];
        } else {
          assert actorStates == actorStates[uid := state];
        }
        stats := stats.(totalThrottleSkipped := stats.totalThrottleSkipped + 1);
        return ThrottleSkipped;
      }

      // admission; the original update runs between the state change and the count
      processedThisTick := processedThisTick + 1;
      if isPrioritized {
        stats := stats.(totalPrioritized := stats.totalPrioritized + 1);
      }
      actorStates := actorStates[uid := state.(pendingSince := 0, lastAiTick := currentTick)];
      stats := stats.(totalProcessed := stats.totalProcessed + 1);
      assert actorStates == table[uid := ActorState(currentTick, 0)];
      return Admitted(isPrioritized);
    }
  }
}
