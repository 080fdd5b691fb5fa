/**
 The AI admission controller of the mob AI optimizer, as a pure model.

 Every non-player actor tick passes through `Hook`: it first handles a tick
 rollover (reset the per-tick counter, and on schedule sweep expired entries
 from the actor table and stamp the debug timestamp), then looks up or inserts
 the actor's entry, and finally decides between a cooldown skip, a throttle
 skip and an admission. The process-wide state the hook owns is one
 `Globals` value; `Runtime.Controller` holds the same state in fields and is
 proved to update them exactly as `Hook` says.
 */
module Optimizer {
  import opened CppInt

  /** One second of game time, in ticks. */
  const TICKS_PER_SECOND: u64 := 20

  /** The tunables the hook and `enable` read. */
  datatype Config = Config(
    enabled: bool,
    debug: bool,
    cooldownTicks: i32,
    maxPerTick: i32,
    reservedSlots: i32,
    priorityAfterTicks: i32,
    cleanupIntervalSeconds: i32,
    expiryMultiplier: i32,
    debugLogIntervalSeconds: i32)

  /** Per-actor bookkeeping; `pendingSince == 0` means "not waiting". */
  datatype ActorState = ActorState(lastAiTick: u64, pendingSince: u64)

  /** `ActorState{}`: the entry inserted on first sighting. */
  const FRESH: ActorState := ActorState(0, 0)

  /** The four `gStats` counters. */
  datatype Stats = Stats(
    totalProcessed: nat,
    totalCooldownSkipped: nat,
    totalThrottleSkipped: nat,
    totalPrioritized: nat)

  const ZERO_STATS: Stats := Stats(0, 0, 0, 0)

  /** The file-level statics the hook reads and writes. */
  datatype Globals = Globals(
    lastTickId: u64,
    processedThisTick: int,
    lastDebugTick: u64,
    lastCleanupTick: u64,
    actorStates: map<i64, ActorState>,
    stats: Stats)

  /** The statics as the program starts: all zero, empty table. */
  const INITIAL: Globals := Globals(0, 0, 0, 0, map[], ZERO_STATS)

  /**
   What the hook does with one call. `Bypass` and `Admitted` run the original
   update (`origin`); the two skips return `true` without running it.
   */
  datatype Decision = Bypass | Admitted(prioritized: bool) | CooldownSkipped | ThrottleSkipped
  {
    predicate CallsOrigin() {
      Bypass? || Admitted?
    }
  }

  datatype Outcome = Outcome(globals: Globals, decision: Decision)

  // ---------------------------------------------------------------------
  // Derived quantities
  // ---------------------------------------------------------------------

  /** Ticks between expiry sweeps: `cleanupIntervalSeconds * 20` in uint64. */
  function CleanupInterval(cfg: Config): u64 {
    MulU64(CastU64(cfg.cleanupIntervalSeconds), TICKS_PER_SECOND)
  }

  /** Idle age beyond which an entry is reclaimed: `cooldownTicks * expiryMultiplier` in uint64. */
  function ExpiryAge(cfg: Config): u64 {
    MulU64(CastU64(cfg.cooldownTicks), CastU64(cfg.expiryMultiplier))
  }

  /** Ticks between debug lines: `debugLogIntervalSeconds * 20` in uint64. */
  function DebugInterval(cfg: Config): u64 {
    MulU64(CastU64(cfg.debugLogIntervalSeconds), TICKS_PER_SECOND)
  }

  /** Ticks since the actor last ran its AI (uint64 subtraction). */
  function Idle(e: ActorState, now: u64): u64 {
    SubU64(now, e.lastAiTick)
  }

  predicate Expired(e: ActorState, now: u64, expiry: u64) {
    Idle(e, now) > expiry
  }

  predicate IsWaiting(e: ActorState) {
    e.pendingSince > 0
  }

  /**
   An actor enters the priority lane once it has been waiting (throttled
   since its last admission) for at least `priorityAfterTicks`; a
   non-positive `priorityAfterTicks` switches the lane off.
   */
  predicate IsPrioritized(cfg: Config, e: ActorState, now: u64)
  {
    && IsWaiting(e)
    && cfg.priorityAfterTicks > 0
    && SubU64(now, e.pendingSince) >= CastU64(cfg.priorityAfterTicks)
  }

  /** Admissions available to actors outside the priority lane. */
  function NormalLimit(cfg: Config): int {
    cfg.maxPerTick - cfg.reservedSlots
  }

  function Max(a: int, b: int): int {
    if a < b then b else a
  }

  /**
   The admission limit an actor is held to: the whole `maxPerTick` for a
   prioritized actor, the normal lane otherwise.
   */
  function EffectiveLimit(cfg: Config, prioritized: bool): (r: int)
    ensures r <= Max(cfg.maxPerTick, NormalLimit(cfg))
    ensures 0 <= cfg.reservedSlots ==> r <= cfg.maxPerTick
    ensures prioritized ==> r == cfg.maxPerTick
    ensures !prioritized ==> r == cfg.maxPerTick - cfg.reservedSlots
  {
    if prioritized then cfg.maxPerTick else NormalLimit(cfg)
  }

  /**
   The most admissions one tick can count. With a non-negative
   `reservedSlots` (what `enable` leaves behind whenever it started
   non-negative) this is `maxPerTick`, or 0 when `maxPerTick` is not positive.
   */
  function QuotaCeiling(cfg: Config): (r: nat)
    ensures 0 <= cfg.reservedSlots ==> r == Max(0, cfg.maxPerTick)
    ensures forall p: bool :: EffectiveLimit(cfg, p) <= r
  {
    Max(0, Max(cfg.maxPerTick, NormalLimit(cfg)))
  }

  /** The hook's invariant: the per-tick counter stays within the quota. */
  ghost predicate WithinQuota(cfg: Config, g: Globals) {
    0 <= g.processedThisTick <= QuotaCeiling(cfg)
  }

  /** Sum of the three per-call counters: every non-bypass call bumps exactly one. */
  function Calls(s: Stats): nat {
    s.totalProcessed + s.totalCooldownSkipped + s.totalThrottleSkipped
  }

  /** No counter of `b` is below the same counter of `a`. */
  predicate StatsLe(a: Stats, b: Stats) {
    && a.totalProcessed <= b.totalProcessed
    && a.totalCooldownSkipped <= b.totalCooldownSkipped
    && a.totalThrottleSkipped <= b.totalThrottleSkipped
    && a.totalPrioritized <= b.totalPrioritized
  }

  /**
   Every timestamp the statics hold is at most the last tick id seen. Under a
   host tick counter that never decreases this always holds, and then every
   uint64 subtraction the hook does is an ordinary difference.
   */
  ghost predicate Ordered(g: Globals) {
    && g.lastCleanupTick <= g.lastTickId
    && g.lastDebugTick <= g.lastTickId
    && forall k :: k in g.actorStates ==>
         g.actorStates[k].lastAiTick <= g.lastTickId && g.actorStates[k].pendingSince <= g.lastTickId
  }

  // ---------------------------------------------------------------------
  // The hook
  // ---------------------------------------------------------------------

  /**
   The table after the expiry sweep: exactly the entries idle no longer than
   `expiry`, each unchanged.
   */
  function Prune(table: map<i64, ActorState>, now: u64, expiry: u64): (r: map<i64, ActorState>)
    ensures r.Keys <= table.Keys
    ensures forall k :: k in r ==> r[k] == table[k] && !Expired(r[k], now, expiry)
    ensures forall k :: k in table && !Expired(table[k], now, expiry) ==> k in r
  {
    map k | k in table && !Expired(table[k], now, expiry) :: table[k]
  }

  predicate SweepDue(cfg: Config, g: Globals, now: u64) {
    SubU64(now, g.lastCleanupTick) >= CleanupInterval(cfg)
  }

  predicate DebugDue(cfg: Config, g: Globals, now: u64) {
    cfg.debug && SubU64(now, g.lastDebugTick) >= DebugInterval(cfg)
  }

  /** The work done on the first call that sees a new tick id. */
  function Rollover(cfg: Config, g: Globals, now: u64): Globals
  {
    var g1 := g.(lastTickId := now, processedThisTick := 0);
    var g2 :=
      if SweepDue(cfg, g, now)
      then g1.(lastCleanupTick := now, actorStates := Prune(g.actorStates, now, ExpiryAge(cfg)))
      else g1;
    if DebugDue(cfg, g, now) then g2.(lastDebugTick := now) else g2
  }

  /** The rollover, done only when the tick id changed. */
  function Epoch(cfg: Config, g: Globals, now: u64): Globals {
    if now != g.lastTickId then Rollover(cfg, g, now) else g
  }

  /** Cooldown gate, priority classification, quota gate and admission. */
  function Decide(cfg: Config, g: Globals, uid: i64, now: u64): Outcome
  {
    var inserted := uid !in g.actorStates;
    var table := if inserted then g.actorStates[uid := FRESH] else g.actorStates;
    var e := table[uid];
    if !inserted && Idle(e, now) < CastU64(cfg.cooldownTicks) then
      Outcome(g.(stats := g.stats.(totalCooldownSkipped := g.stats.totalCooldownSkipped + 1)),
              CooldownSkipped)
    else
      var prioritized := IsPrioritized(cfg, e, now);
      if g.processedThisTick >= EffectiveLimit(cfg, prioritized) then
        var e' := if IsWaiting(e) then e else e.(pendingSince := now);
        Outcome(g.(actorStates := table[uid := e'],
                   stats := g.stats.(totalThrottleSkipped := g.stats.totalThrottleSkipped + 1)),
                ThrottleSkipped)
      else
        Outcome(g.(processedThisTick := g.processedThisTick + 1,
                   actorStates := table[uid := ActorState(now, 0)],
                   stats := g.stats.(totalProcessed := g.stats.totalProcessed + 1,
                                     totalPrioritized := g.stats.totalPrioritized + if prioritized then 1 else 0)),
                Admitted(prioritized))
  }

  /** One intercepted `Actor::tick` of the actor `uid` at tick `now`. */
  function Hook(cfg: Config, g: Globals, uid: i64, isPlayer: bool, now: u64): (o: Outcome)
    ensures o.decision == Bypass <==> (!cfg.enabled || isPlayer)
  {
    if !cfg.enabled || isPlayer then Outcome(g, Bypass)
    else Decide(cfg, Epoch(cfg, g, now), uid, now)
  }

  // ---------------------------------------------------------------------
  // enable() and the stats accessors
  // ---------------------------------------------------------------------

  /**
   The `reservedSlots` clamp in `enable`: a reserve that would leave the
   normal lane empty becomes half of `maxPerTick`.
   */
  function ClampReserved(maxPerTick: i32, reservedSlots: i32): (r: i32)
    ensures reservedSlots < maxPerTick ==> r == reservedSlots
    ensures 1 <= maxPerTick ==> r < maxPerTick && maxPerTick - r >= 1
    ensures 0 <= reservedSlots && 0 <= maxPerTick ==> 0 <= r <= reservedSlots
    // otherwise `maxPerTick / 2`, rounded toward zero
    ensures 0 <= maxPerTick <= reservedSlots ==> maxPerTick - 1 <= 2 * r <= maxPerTick
    ensures maxPerTick < 0 && maxPerTick <= reservedSlots ==> maxPerTick <= 2 * r <= maxPerTick + 1
  {
    if reservedSlots >= maxPerTick then HalfTowardZero(maxPerTick) else reservedSlots
  }

  function Enable(cfg: Config): (c: Config)
    ensures c == cfg.(reservedSlots := c.reservedSlots)
    ensures 1 <= cfg.maxPerTick && 0 <= cfg.reservedSlots ==> 0 <= c.reservedSlots < c.maxPerTick
    ensures 1 <= cfg.maxPerTick ==> NormalLimit(c) >= 1
    ensures cfg.reservedSlots < cfg.maxPerTick ==> c == cfg
  {
    cfg.(reservedSlots := ClampReserved(cfg.maxPerTick, cfg.reservedSlots))
  }
}
