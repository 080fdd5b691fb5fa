# MobAIOptimizer admission controller, in Dafny

This project models the AI admission controller of the MobAIOptimizer server
plugin. The plugin hooks `Actor::tick`. On every call for a non-player actor it
decides whether the original update runs or is skipped, so that only a bounded
number of actors run their AI in each game tick.

The controller keeps these process-wide statics:
- `lastTickId` and `processedThisTick`: the tick being counted and the
  admissions counted for it.
- `lastCleanupTick` and `lastDebugTick`: the times of the last expiry sweep and
  the last debug line.
- `actorStates`: a table from actor unique id to
  `ActorState{lastAiTick, pendingSince}`.
- Four `gStats` counters.

One call runs four steps in order:
1. **Tick rollover.** On the first call that sees a new tick id, reset the
   count, and on schedule sweep out entries idle for more than
   `cooldownTicks * expiryMultiplier`.
2. **Cooldown gate.** An actor seen before whose AI ran fewer than
   `cooldownTicks` ago is skipped. A first sighting is exempt. An actor
   throttled on its first sighting keeps the `lastAiTick = 0` of its fresh
   entry, so while the tick id is still below `cooldownTicks` its next call is
   cooldown-skipped even though its AI never ran
   (`Scenarios.ThrottledNewcomerCoolsDown`).
3. **Quota gate.** An actor is throttled once the tick's count reaches its
   lane's limit: `maxPerTick - reservedSlots` for the normal lane, all of
   `maxPerTick` for an actor that has waited at least `priorityAfterTicks`.
4. **Admission.** The count goes up, the entry is reset to
   `{lastAiTick: now, pendingSince: 0}`, and the original update runs.

`enable` clamps a `reservedSlots` that would leave the normal lane empty to
`maxPerTick / 2`.

Layout:
- `cpp_int.dfy` (`CppInt`): the C++ integer semantics the code relies on.
  This covers `std::uint64_t` subtraction and multiplication, which wrap
  modulo 2^64, the `static_cast` of an `int` to `std::uint64_t`, and `int`
  division by two, which truncates toward zero.
- `optimizer.dfy` (`Optimizer`): the pure model. It holds the configuration,
  the per-actor state, the statics as one `Globals` value, and the hook as the
  function `Hook`. `Hook` is `Epoch` (the rollover) followed by `Decide` (the
  gates). The file also holds the `enable` clamp.
- `optimizer_lemmas.dfy` (`OptimizerLemmas`): what one call does, gate by gate.
- `optimizer_trace.dfy` (`OptimizerTrace`): properties of a sequence of calls.
  These are the per-tick quota and the normal-lane reservation, exact counting
  of admissions, at most one rollover per tick, and the spacing between two
  admissions of one actor.
- `runtime.dfy` (`Runtime`): the statics as fields of class `Controller`.
  The hook body, the in-place sweep loop, `enable` and the stats accessors are
  methods that update those fields. Each is proved to produce exactly the state
  the pure model prescribes.
- `scenarios.dfy` (`Scenarios`): concrete runs, including a 5-tick cooldown,
  a quota of 2, a throttle at tick 0 and a throttled newcomer.

Tick differences are wrapping uint64 subtractions, exactly as in the C++. The
hook therefore needs no precondition on the order of ticks. The lemmas that
want plain differences assume a tick counter that never goes backwards
(`Ordered`, `TicksBetween`).

The `enable` clamp only guards the upper end of `reservedSlots`. A negative
`reservedSlots` passes through unchanged and makes the normal lane wider than
`maxPerTick`. `OptimizerLemmas.NegativeReserveExceedsMaxPerTick` shows a fifth
admission in a tick with `maxPerTick = 4`. The quota bound is therefore stated
against `QuotaCeiling`, which is `max(0, maxPerTick - reservedSlots,
maxPerTick)`. With `reservedSlots >= 0` this is exactly `maxPerTick` (or 0
when `maxPerTick` is not positive).

## Model

| member | source | states |
|---|---|---|
| `CppInt.SubU64` | src/Optimizer.cpp:115-117 | the unsigned tick difference is the unique u64 that, added to the older tick, gives the newer one modulo 2^64; it is the plain difference when the ticks are in order |
| `CppInt.CastU64` | src/Optimizer.cpp:77-79 | `static_cast<std::uint64_t>` keeps the value modulo 2^64, so a non-negative `int` is unchanged and a negative one becomes a huge u64 |
| `CppInt.MulU64` | src/Optimizer.cpp:71-72 | uint64 multiplication keeps the product modulo 2^64, and equals the true product whenever that fits in 64 bits |
| `CppInt.HalfTowardZero` | src/Optimizer.cpp:190 | C++ `maxPerTick / 2` rounds toward zero: for `x >= 0` it is floor(x/2), for `x < 0` it is ceil(x/2) |
| `Optimizer.EffectiveLimit` | src/Optimizer.cpp:132-135 | a prioritized actor is held to all of `maxPerTick`, a normal actor to `maxPerTick - reservedSlots`; no lane's limit exceeds `maxPerTick` when `reservedSlots >= 0` |
| `Optimizer.QuotaCeiling` | src/Optimizer.cpp:134-137 | bounds every lane's limit; equals `max(0, maxPerTick)` when `reservedSlots >= 0` |
| `Optimizer.Prune` | src/Optimizer.cpp:81-86 | the table after the sweep holds exactly the entries idle for no longer than the expiry age, each unchanged |
| `Optimizer.Hook` | src/Optimizer.cpp:58-60 | the call bypasses the controller exactly when the plugin is disabled or the actor is a player |
| `Optimizer.ClampReserved` | src/Optimizer.cpp:184-191 | a reserve already below `maxPerTick` is kept; with `maxPerTick >= 1` the result is below `maxPerTick`, so the normal lane has at least one slot; a non-negative reserve stays non-negative and never grows; a reserve at or above `maxPerTick` becomes `maxPerTick / 2` rounded toward zero |
| `Optimizer.Enable` | src/Optimizer.cpp:182-191 | only `reservedSlots` changes; with `maxPerTick >= 1` and `reservedSlots >= 0` afterwards `0 <= reservedSlots < maxPerTick` and `normalLimit >= 1`; a configuration already satisfying `reservedSlots < maxPerTick` is untouched |
| `OptimizerLemmas.BypassLeavesStateAlone` | src/Optimizer.cpp:58-60 | a disabled plugin or a player forwards and no static changes: no rollover, no insert, no stats |
| `OptimizerLemmas.NewTickRollsOver` | src/Optimizer.cpp:66-68 | the first call with a new tick id sets `lastTickId` to it and restarts the count at 0; only the call's own admission is counted on top |
| `OptimizerLemmas.SameTickNoRollover` | src/Optimizer.cpp:66-107 | a call in the same tick leaves the sweep and debug timestamps alone, reclaims no entry, and changes the count only by its own admission |
| `OptimizerLemmas.RolloverSweepsOnSchedule` | src/Optimizer.cpp:70-95 | the sweep runs exactly when `cleanupIntervalSeconds*20` ticks have passed and then stamps `lastCleanupTick`; afterwards every entry is idle for at most `cooldownTicks*expiryMultiplier`, and every entry that met this before is still present and unchanged; the debug timestamp moves only when debug is on and due |
| `OptimizerLemmas.CooldownGate` | src/Optimizer.cpp:109-121 | a call is cooldown-skipped if and only if the actor already had an entry whose last AI run is fewer than `cooldownTicks` ago; a first sighting never is; a skip only bumps `totalCooldownSkipped` |
| `OptimizerLemmas.ThrottleGate` | src/Optimizer.cpp:137-143 | a call past the cooldown gate is throttled if and only if the count has reached its lane's limit; `pendingSince` is set to now only if it was 0, `lastAiTick`, the count and other entries stay, `totalThrottleSkipped` goes up by one |
| `OptimizerLemmas.AdmissionEffects` | src/Optimizer.cpp:124-156 | an admission is a priority one exactly when the actor is prioritized; a normal admission needs `count < maxPerTick - reservedSlots`; the count and `totalProcessed` go up by one, `totalPrioritized` by one exactly for a priority admission; the entry becomes `{now, 0}` and no other entry changes |
| `OptimizerLemmas.PriorityLaneOff` | src/Optimizer.cpp:124-129 | with `priorityAfterTicks <= 0` no call is ever admitted through the priority lane and `totalPrioritized` never moves |
| `OptimizerLemmas.HookKeepsQuota` | src/Optimizer.cpp:134-146 | the per-tick count stays within `[0, QuotaCeiling]` across every call |
| `OptimizerLemmas.HookCountsEachCallOnce` | src/Optimizer.cpp:114-156 | counters never decrease, and each non-bypass call adds exactly one to processed + cooldown-skipped + throttle-skipped |
| `OptimizerLemmas.OtherEntriesOnlyReclaimed` | src/Optimizer.cpp:81-153 | a call never changes another actor's entry; such an entry disappears only in a due sweep at a new tick that found it expired |
| `OptimizerLemmas.HookKeepsOrder` | src/Optimizer.cpp:62-153 | with a non-decreasing tick, every stored timestamp (including each nonzero `pendingSince`) stays at or below `lastTickId`, so no tick subtraction wraps |
| `OptimizerLemmas.NegativeReserveExceedsMaxPerTick` | src/Optimizer.cpp:184-191 | the clamp lets `reservedSlots = -1` through, and a fifth normal admission then happens in one tick with `maxPerTick = 4` |
| `OptimizerTrace.QuotaPerTick` | src/Optimizer.cpp:132-146 | within one tick the admitted calls number at most `QuotaCeiling` (`maxPerTick` when `reservedSlots >= 0`), and those through the normal lane at most `maxPerTick - reservedSlots` |
| `OptimizerTrace.RunKeepsQuota` | src/Optimizer.cpp:137-146 | the quota invariant holds after any sequence of calls |
| `OptimizerTrace.RunCountsAdmissions` | src/Optimizer.cpp:146-156 | over any sequence of calls no counter decreases and `totalProcessed` grows by exactly the number of admissions |
| `OptimizerTrace.RolloverOncePerTick` | src/Optimizer.cpp:66-107 | any number of calls within a tick already rolled over leave `lastTickId`, the sweep and debug timestamps unchanged and reclaim no entry |
| `OptimizerTrace.CooldownSpacing` | src/Optimizer.cpp:77-121 | with ticks that never go backwards, two successive admissions of one actor are at least `cooldownTicks` apart, unless more than the expiry age separates them (the entry was reclaimed and the actor came back as a first sighting) |
| `OptimizerTrace.CooldownSpacingPlain` | src/Optimizer.cpp:77-121 | with `cooldownTicks >= 0` and `expiryMultiplier >= 1`, successive admissions of one actor are always at least `cooldownTicks` apart |
| `OptimizerTrace.ExpiryCoversCooldown` | src/Optimizer.cpp:77-79 | with `cooldownTicks >= 0` and `expiryMultiplier >= 1` the uint64 product does not wrap: the expiry age is exactly `cooldownTicks * expiryMultiplier`, and it is at least the cooldown |
| `Scenarios.CooldownOfFiveTicks` | src/Optimizer.cpp:114-121 | one actor at ticks 100, 101, 104, 105 with a 5-tick cooldown is admitted, skipped, skipped, admitted |
| `Scenarios.QuotaOfTwo` | src/Optimizer.cpp:134-143 | three actors in one tick with `maxPerTick = 2`: two are admitted, the third is throttled with `pendingSince = 50` |
| `Scenarios.ThrottleAtTickZero` | src/Optimizer.cpp:124-143 | a throttle at tick 0 stores `pendingSince = 0`, so the actor is not waiting and is throttled again at tick 4 |
| `Scenarios.ThrottleAtTickOne` | src/Optimizer.cpp:124-152 | the same schedule one tick later starts the wait clock at 1, and at tick 4 the actor is admitted through the priority lane |
| `Scenarios.ThrottledNewcomerCoolsDown` | src/Optimizer.cpp:109-142 | an actor throttled on its first sighting keeps `lastAiTick = 0`, so with a 300-tick cooldown its next call at tick 6 is cooldown-skipped although its AI never ran |
| `Runtime.Controller.constructor` | src/Optimizer.cpp:23-33 | the statics start at zero with an empty table and the quota invariant holds |
| `Runtime.Controller.GetStats` | src/Optimizer.cpp:46 | returns the current counters |
| `Runtime.Controller.ResetStats` | src/Optimizer.cpp:47 | zeroes all four counters and changes nothing else |
| `Runtime.Controller.Enable` | src/Optimizer.cpp:182-191 | overwrites `reservedSlots` in place as the clamp says, leaves every other static alone and keeps the quota ceiling, so the invariant holds |
| `Runtime.Controller.Sweep` | src/Optimizer.cpp:81-86 | erasing in place while walking the table leaves exactly the entries that are not expired; every entry left is idle for at most the expiry age |
| `Runtime.Controller.RollOver` | src/Optimizer.cpp:66-107 | updates the statics in place exactly as the rollover of the pure model |
| `Runtime.Controller.Gate` | src/Optimizer.cpp:109-157 | emplace, cooldown gate, priority and quota gate and admission update the statics in place exactly as `Decide`, and return its decision |
| `Runtime.Controller.Tick` | src/Optimizer.cpp:57-158 | one hooked call leaves the statics exactly as `Hook` prescribes, returns its decision, and keeps the quota invariant |

## Left out

- Hook plumbing is not modelled. This covers the `LL_TYPE_INSTANCE_HOOK` macro, `registerHooks`/`unregisterHooks` and `LL_REGISTER_MOD`. It is foreign ABI interposition.
- Host calls become inputs. `isPlayer()`, the level's tick id and `getOrCreateUniqueID()` are parameters of `Tick`. Calling `origin(region)` is represented by the `Bypass`/`Admitted` decisions, and its return value is not modelled.
- If `origin` throws, the C++ has already updated the entry but has not counted `totalProcessed`. The model assumes `origin` returns.
- Logging is not modelled: the logger, the debug line, and the lines in `enable`/`disable`. The `lastDebugTick` stamp that gates the debug line is kept.
- `PluginImpl::load` is file I/O and is not modelled; `Controller`'s constructor takes the loaded configuration as a parameter.
- `getConfig()` and `PluginImpl::getInstance()` are accessors to singletons. The `Controller` object plays their role.
- `disable` only unregisters the hook and logs the stats, so it is not modelled.
- The push limiter is not part of this model. Its code (zero-vector suppression, per-actor push cap, server-tick reset) is not in `src/Optimizer.cpp`.
- `src/Optimizer.h` contributes only declarations, and they disagree with the `.cpp`. Its `Config` lacks most of the fields the hook reads, and it declares variables the `.cpp` never defines. The `Config` here follows the fields the `.cpp` uses.
- The `Stats` struct is not defined in either file. Its four counters are modelled as unbounded naturals.
- Signed 32-bit overflow is not modelled. This covers `maxPerTick - reservedSlots` and `++processedThisTick`, where overflow would be undefined behaviour in C++. Both are computed as mathematical integers.
- `ActorState&` is a reference into the table. The model keeps entries as values in a map field that the methods reassign. Nothing else holds such a reference, so nothing is lost.
- Concurrency is not modelled. The host calls the hook from the main thread only, so a single sequential caller is modelled.
- The starvation bound across ticks (an actor waiting `priorityAfterTicks` is admitted within a bounded number of further ticks) is not stated. Only the classification and the lane limits of each call are.
- The memory bound after an idle period is stated only as the state right after a sweep (`RolloverSweepsOnSchedule`, `Runtime.Controller.Sweep`). It is not stated over an idle trace.
