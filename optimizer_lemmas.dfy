/**
 What one intercepted call does to the statics, gate by gate.

 Throughout, `Epoch(cfg, g, now)` is the state after the rollover step and
 `Entry(...)` the actor's entry as the gates see it (the fresh `ActorState{}`
 on first sighting).
 */
module OptimizerLemmas {
  import opened CppInt
  import opened Optimizer

  /** The entry the gates work on: the stored one, or `ActorState{}` when just inserted. */
  function Entry(g: Globals, uid: i64): ActorState {
    if uid in g.actorStates then g.actorStates[uid] else FRESH
  }

  /** A disabled plugin or a player: the update runs and no static changes. */
  lemma BypassLeavesStateAlone(cfg: Config, g: Globals, uid: i64, isPlayer: bool, now: u64)
    requires !cfg.enabled || isPlayer
    ensures Hook(cfg, g, uid, isPlayer, now) == Outcome(g, Bypass)
  {
  }

  /**
   The first call with a new tick id moves `lastTickId` to it and restarts the
   per-tick count; only that call's own admission can be counted on top.
   */
  lemma NewTickRollsOver(cfg: Config, g: Globals, uid: i64, now: u64)
    requires cfg.enabled && now != g.lastTickId
    ensures Epoch(cfg, g, now).processedThisTick == 0
    ensures var o := Hook(cfg, g, uid, false, now);
      && o.globals.lastTickId == now
      && o.globals.processedThisTick == (if o.decision.Admitted? then 1 else 0)
  {
  }

  /**
   A further call within the same tick does no rollover work: the sweep and
   debug timestamps stay, no entry is reclaimed, and the count only grows by
   this call's own admission.
   */
  lemma SameTickNoRollover(cfg: Config, g: Globals, uid: i64, isPlayer: bool, now: u64)
    requires now == g.lastTickId
    ensures var o := Hook(cfg, g, uid, isPlayer, now);
      && o.globals.lastTickId == g.lastTickId
      && o.globals.lastCleanupTick == g.lastCleanupTick
      && o.globals.lastDebugTick == g.lastDebugTick
      && g.actorStates.Keys <= o.globals.actorStates.Keys
      && o.globals.processedThisTick == g.processedThisTick + (if o.decision.Admitted? then 1 else 0)
  {
  }

  /**
   The expiry sweep runs exactly when `cleanupIntervalSeconds * 20` ticks have
   passed since the last one, stamps `lastCleanupTick`, drops every entry idle
   for more than `cooldownTicks * expiryMultiplier` and keeps every other
   entry as it was. Without a sweep the table is untouched.
   */
  lemma RolloverSweepsOnSchedule(cfg: Config, g: Globals, now: u64)
    ensures var r := Rollover(cfg, g, now);
      && r.lastTickId == now
      && r.processedThisTick == 0
      && r.stats == g.stats
      && r.lastCleanupTick == (if SweepDue(cfg, g, now) then now else g.lastCleanupTick)
      && r.lastDebugTick == (if DebugDue(cfg, g, now) then now else g.lastDebugTick)
      && (!SweepDue(cfg, g, now) ==> r.actorStates == g.actorStates)
      && (SweepDue(cfg, g, now) ==>
            && r.actorStates.Keys <= g.actorStates.Keys
            && (forall k :: k in r.actorStates ==> Idle(r.actorStates[k], now) <= ExpiryAge(cfg))
            && (forall k :: k in g.actorStates && Idle(g.actorStates[k], now) <= ExpiryAge(cfg) ==>
                  k in r.actorStates && r.actorStates[k] == g.actorStates[k]))
  {
  }

  /**
   Cooldown gate: the call is cooldown-skipped exactly when the actor already
   had an entry whose last AI run is fewer than `cooldownTicks` ago. A skip
   bumps `totalCooldownSkipped` and changes nothing else; a first sighting is
   never cooldown-skipped.
   */
  lemma CooldownGate(cfg: Config, g: Globals, uid: i64, now: u64)
    requires cfg.enabled
    ensures var g1 := Epoch(cfg, g, now);
      var o := Hook(cfg, g, uid, false, now);
      && (o.decision == CooldownSkipped <==>
            uid in g1.actorStates && Idle(g1.actorStates[uid], now) < CastU64(cfg.cooldownTicks))
      && (uid !in g1.actorStates ==> o.decision != CooldownSkipped)
      && (o.decision == CooldownSkipped ==>
            o.globals == g1.(stats := g1.stats.(totalCooldownSkipped := g1.stats.totalCooldownSkipped + 1)))
  {
  }

  /**
   Quota gate: a call that passes the cooldown gate is throttled exactly when
   the tick's count has reached the limit of its lane. The throttle starts the
   wait clock only if it was not running (so a throttle at tick 0 leaves the
   actor "not waiting"), bumps `totalThrottleSkipped`, and leaves the count,
   `lastAiTick` and every other entry alone.
   */
  lemma ThrottleGate(cfg: Config, g: Globals, uid: i64, now: u64)
    requires cfg.enabled
    ensures var g1 := Epoch(cfg, g, now);
      var e := Entry(g1, uid);
      var o := Hook(cfg, g, uid, false, now);
      && (o.decision == ThrottleSkipped <==>
            && o.decision != CooldownSkipped
            && g1.processedThisTick >= EffectiveLimit(cfg, IsPrioritized(cfg, e, now)))
      && (o.decision == ThrottleSkipped ==>
            && o.globals.actorStates == g1.actorStates[uid := ActorState(e.lastAiTick, if e.pendingSince == 0 then now else e.pendingSince)]
            && o.globals.processedThisTick == g1.processedThisTick
            && o.globals.stats == g1.stats.(totalThrottleSkipped := g1.stats.totalThrottleSkipped + 1)
            && o.globals.lastTickId == g1.lastTickId)
  {
  }

  /**
   Admission: the lane is the priority lane exactly when the actor is
   prioritized; the count goes up by one and stays below the lane's limit
   before the call (so a normal actor needs `count < maxPerTick -
   reservedSlots`); the entry becomes `{lastAiTick: now, pendingSince: 0}`
   and no other entry changes; `totalProcessed` goes up by one and
   `totalPrioritized` by one exactly for a priority admission.
   */
  lemma AdmissionEffects(cfg: Config, g: Globals, uid: i64, now: u64)
    requires cfg.enabled
    ensures var g1 := Epoch(cfg, g, now);
      var o := Hook(cfg, g, uid, false, now);
      o.decision.Admitted? ==>
        && o.decision.prioritized == IsPrioritized(cfg, Entry(g1, uid), now)
        && g1.processedThisTick < EffectiveLimit(cfg, o.decision.prioritized)
        && (!o.decision.prioritized ==> g1.processedThisTick < cfg.maxPerTick - cfg.reservedSlots)
        && o.globals.processedThisTick == g1.processedThisTick + 1
        && o.globals.actorStates == g1.actorStates[uid := ActorState(now, 0)]
        && o.globals.stats.totalProcessed == g1.stats.totalProcessed + 1
        && o.globals.stats.totalPrioritized ==
             g1.stats.totalPrioritized + (if o.decision.prioritized then 1 else 0)
        && o.globals.stats.totalCooldownSkipped == g1.stats.totalCooldownSkipped
        && o.globals.stats.totalThrottleSkipped == g1.stats.totalThrottleSkipped
  {
  }

  /** With `priorityAfterTicks` not positive nobody is ever prioritized. */
  lemma PriorityLaneOff(cfg: Config, g: Globals, uid: i64, isPlayer: bool, now: u64)
    requires cfg.priorityAfterTicks <= 0
    ensures var o := Hook(cfg, g, uid, isPlayer, now);
      && o.decision != Admitted(true)
      && o.globals.stats.totalPrioritized == g.stats.totalPrioritized
  {
  }

  /** The per-tick count never leaves `[0, QuotaCeiling]`. */
  lemma HookKeepsQuota(cfg: Config, g: Globals, uid: i64, isPlayer: bool, now: u64)
    requires WithinQuota(cfg, g)
    ensures WithinQuota(cfg, Hook(cfg, g, uid, isPlayer, now).globals)
  {
  }

  /**
   Counters only grow: every non-bypass call adds exactly one to
   processed + cooldown-skipped + throttle-skipped.
   */
  lemma HookCountsEachCallOnce(cfg: Config, g: Globals, uid: i64, isPlayer: bool, now: u64)
    ensures var o := Hook(cfg, g, uid, isPlayer, now);
      && StatsLe(g.stats, o.globals.stats)
      && Calls(o.globals.stats) == Calls(g.stats) + (if o.decision == Bypass then 0 else 1)
  {
  }

  /**
   No other actor's entry changes; one can only disappear, and only when a
   sweep found it idle for longer than the expiry age.
   */
  lemma OtherEntriesOnlyReclaimed(cfg: Config, g: Globals, uid: i64, isPlayer: bool, now: u64, k: i64)
    requires k != uid
    ensures var t := Hook(cfg, g, uid, isPlayer, now).globals.actorStates;
      && (k in t ==> k in g.actorStates && t[k] == g.actorStates[k])
      && (k in g.actorStates && k !in t ==>
            && now != g.lastTickId
            && SweepDue(cfg, g, now)
            && Expired(g.actorStates[k], now, ExpiryAge(cfg)))
  {
  }

  /**
   With a tick counter that does not go backwards, every stored timestamp
   stays at or below the last tick id, so no uint64 subtraction wraps.
   */
  lemma HookKeepsOrder(cfg: Config, g: Globals, uid: i64, isPlayer: bool, now: u64)
    requires Ordered(g) && g.lastTickId <= now
    ensures Ordered(Hook(cfg, g, uid, isPlayer, now).globals)
  {
    if cfg.enabled && !isPlayer {
      var g1 := Epoch(cfg, g, now);
      EpochKeepsOrder(cfg, g, now);
      DecideKeepsOrder(cfg, g1, uid, now);
    }
  }

  lemma EpochKeepsOrder(cfg: Config, g: Globals, now: u64)
    requires Ordered(g) && g.lastTickId <= now
    ensures Ordered(Epoch(cfg, g, now)) && Epoch(cfg, g, now).lastTickId == now
  {
    if now != g.lastTickId {
      var r := Rollover(cfg, g, now);
      forall k | k in r.actorStates
        ensures r.actorStates[k].lastAiTick <= now && r.actorStates[k].pendingSince <= now
      {
        assert k in g.actorStates && r.actorStates[k] == g.actorStates[k];
      }
    }
  }

  lemma DecideKeepsOrder(cfg: Config, g: Globals, uid: i64, now: u64)
    requires Ordered(g) && g.lastTickId == now
    ensures Ordered(Decide(cfg, g, uid, now).globals)
  {
    var t := Decide(cfg, g, uid, now).globals.actorStates;
    forall k | k in t
      ensures t[k].lastAiTick <= now && t[k].pendingSince <= now
    {
      if k != uid {
        assert k in g.actorStates && t[k] == g.actorStates[k];
      }
    }
  }

  /**
   A negative `reservedSlots` gets past the `enable` clamp and widens the
   normal lane: with `maxPerTick = 4` the fifth actor of a tick is admitted.
   */
  lemma NegativeReserveExceedsMaxPerTick()
    ensures var cfg := Enable(Config(true, false, 0, 4, -1, 0, 1, 1, 1));
      var g := INITIAL.(lastTickId := 7, processedThisTick := 4);
      var o := Hook(cfg, g, 42, false, 7);
      && cfg.reservedSlots == -1
      && o.decision == Admitted(false)
      && o.globals.processedThisTick == 5 > cfg.maxPerTick
  {
  }
}
