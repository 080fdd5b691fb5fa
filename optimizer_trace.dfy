/**
 Properties of a sequence of intercepted calls: the per-tick quota and the
 normal-lane reservation, exact counting of admissions, the rollover being
 done once per tick, and the spacing between two admissions of one actor.
 */
module OptimizerTrace {
  import opened CppInt
  import opened Optimizer
  import opened OptimizerLemmas

  /** One intercepted `Actor::tick`: the actor's unique id, whether it is a player, and the tick id. */
  datatype Call = Call(uid: i64, isPlayer: bool, tick: u64)

  datatype Trace = Trace(globals: Globals, decisions: seq<Decision>)

  /** The hook applied to each call in turn; `decisions[i]` is the fate of `calls[i]`. */
  function Run(cfg: Config, g: Globals, calls: seq<Call>): (t: Trace)
    ensures |t.decisions| == |calls|
    decreases |calls|
  {
    if calls == [] then Trace(g, [])
    else
      var o := Hook(cfg, g, calls[0].uid, calls[0].isPlayer, calls[0].tick);
      var rest := Run(cfg, o.globals, calls[1..]);
      Trace(rest.globals, [o.decision] + rest.decisions)
  }

  function CountAdmitted(ds: seq<Decision>): nat {
    if ds == [] then 0 else (if ds[0].Admitted? then 1 else 0) + CountAdmitted(ds[1..])
  }

  /** Admissions through the normal lane. */
  function CountNormal(ds: seq<Decision>): nat {
    if ds == [] then 0 else (if ds[0] == Admitted(false) then 1 else 0) + CountNormal(ds[1..])
  }

  /** Every call carries the tick id `t`. */
  ghost predicate AllAt(calls: seq<Call>, t: u64) {
    forall i :: 0 <= i < |calls| ==> calls[i].tick == t
  }

  /** Tick ids never go backwards, start at or after `lo` and end at or before `hi`. */
  ghost predicate TicksBetween(lo: int, calls: seq<Call>, hi: int) {
    && (forall i :: 0 <= i < |calls| ==> lo <= calls[i].tick <= hi)
    && (forall i, j :: 0 <= i < j < |calls| ==> calls[i].tick <= calls[j].tick)
  }

  /** The admissions counted so far for tick `t`: the counter if it belongs to `t`, none otherwise. */
  function CountedFor(g: Globals, t: u64): int {
    if g.lastTickId == t then g.processedThisTick else 0
  }

  // ---------------------------------------------------------------------
  // Quota within one tick
  // ---------------------------------------------------------------------

  lemma HookCountsFor(cfg: Config, g: Globals, c: Call)
    ensures var o := Hook(cfg, g, c.uid, c.isPlayer, c.tick);
      && CountedFor(o.globals, c.tick) == CountedFor(g, c.tick) + (if o.decision.Admitted? then 1 else 0)
      && (o.decision == Admitted(false) ==> CountedFor(g, c.tick) < NormalLimit(cfg))
  {
  }

  /**
   Generalised form of `QuotaPerTick`: `k` normal admissions already counted
   for the tick on entry.
   */
  lemma {:induction false} TickCounts(cfg: Config, g: Globals, calls: seq<Call>, t: u64, k: nat)
    requires AllAt(calls, t)
    requires k <= CountedFor(g, t) && (k > 0 ==> k <= NormalLimit(cfg))
    ensures var r := Run(cfg, g, calls);
      && CountedFor(r.globals, t) == CountedFor(g, t) + CountAdmitted(r.decisions)
      && k + CountNormal(r.decisions) <= CountedFor(r.globals, t)
      && (k + CountNormal(r.decisions) > 0 ==> k + CountNormal(r.decisions) <= NormalLimit(cfg))
    decreases |calls|
  {
    if calls != [] {
      var c := calls[0];
      var o := Hook(cfg, g, c.uid, c.isPlayer, c.tick);
      HookCountsFor(cfg, g, c);
      var k' := k + if o.decision == Admitted(false) then 1 else 0;
      TickCounts(cfg, o.globals, calls[1..], t, k');
    }
  }

  /**
   Within one tick, the calls admitted number at most the quota ceiling
   (`maxPerTick` when `reservedSlots >= 0`), and those admitted through the
   normal lane at most `maxPerTick - reservedSlots`.
   */
  lemma QuotaPerTick(cfg: Config, g: Globals, calls: seq<Call>, t: u64)
    requires WithinQuota(cfg, g)
    requires AllAt(calls, t)
    ensures var ds := Run(cfg, g, calls).decisions;
      && CountAdmitted(ds) <= QuotaCeiling(cfg)
      && (0 <= cfg.reservedSlots ==> CountAdmitted(ds) <= Max(0, cfg.maxPerTick))
      && CountNormal(ds) <= Max(0, cfg.maxPerTick - cfg.reservedSlots)
  {
    TickCounts(cfg, g, calls, t, 0);
    RunKeepsQuota(cfg, g, calls);
  }

  lemma {:induction false} RunKeepsQuota(cfg: Config, g: Globals, calls: seq<Call>)
    requires WithinQuota(cfg, g)
    ensures WithinQuota(cfg, Run(cfg, g, calls).globals)
    decreases |calls|
  {
    if calls != [] {
      var c := calls[0];
      HookKeepsQuota(cfg, g, c.uid, c.isPlayer, c.tick);
      RunKeepsQuota(cfg, Hook(cfg, g, c.uid, c.isPlayer, c.tick).globals, calls[1..]);
    }
  }

  // ---------------------------------------------------------------------
  // Counters
  // ---------------------------------------------------------------------

  /**
   Over any run the counters only grow, and `totalProcessed` grows by exactly
   the number of admissions.
   */
  lemma {:induction false} RunCountsAdmissions(cfg: Config, g: Globals, calls: seq<Call>)
    ensures var r := Run(cfg, g, calls);
      && StatsLe(g.stats, r.globals.stats)
      && r.globals.stats.totalProcessed == g.stats.totalProcessed + CountAdmitted(r.decisions)
    decreases |calls|
  {
    if calls != [] {
      var c := calls[0];
      HookCountsEachCallOnce(cfg, g, c.uid, c.isPlayer, c.tick);
      var o := Hook(cfg, g, c.uid, c.isPlayer, c.tick);
      RunCountsAdmissions(cfg, o.globals, calls[1..]);
    }
  }

  // ---------------------------------------------------------------------
  // Rollover at most once per tick
  // ---------------------------------------------------------------------

  /**
   Once the rollover for tick `t` is done, further calls at `t` leave the
   sweep and debug timestamps alone and reclaim no entry.
   */
  lemma {:induction false} RolloverOncePerTick(cfg: Config, g: Globals, calls: seq<Call>, t: u64)
    requires g.lastTickId == t && AllAt(calls, t)
    ensures var r := Run(cfg, g, calls).globals;
      && r.lastTickId == t
      && r.lastCleanupTick == g.lastCleanupTick
      && r.lastDebugTick == g.lastDebugTick
      && g.actorStates.Keys <= r.actorStates.Keys
    decreases |calls|
  {
    if calls != [] {
      var c := calls[0];
      SameTickNoRollover(cfg, g, c.uid, c.isPlayer, c.tick);
      RolloverOncePerTick(cfg, Hook(cfg, g, c.uid, c.isPlayer, c.tick).globals, calls[1..], t);
    }
  }

  // ---------------------------------------------------------------------
  // Cooldown spacing
  // ---------------------------------------------------------------------

  /**
   What the table can say about an actor whose AI last ran at `t1`, as long
   as it is not admitted again: either its entry still records `t1`, or more
   than the expiry age has passed since `t1` (the entry was reclaimed, and
   any re-inserted entry has never run).
   */
  ghost predicate Remembers(g: Globals, uid: i64, t1: u64, expiry: u64) {
    || (uid in g.actorStates && g.actorStates[uid].lastAiTick == t1)
    || (g.lastTickId - t1 > expiry && (uid in g.actorStates ==> g.actorStates[uid].lastAiTick == 0))
  }

  lemma HookRemembers(cfg: Config, g: Globals, c: Call, uid: i64, t1: u64)
    requires Ordered(g) && g.lastTickId <= c.tick && t1 <= g.lastTickId
    requires Remembers(g, uid, t1, ExpiryAge(cfg))
    requires var o := Hook(cfg, g, c.uid, c.isPlayer, c.tick);
      c.uid == uid ==> !o.decision.Admitted?
    ensures var o := Hook(cfg, g, c.uid, c.isPlayer, c.tick);
      && Remembers(o.globals, uid, t1, ExpiryAge(cfg))
      && Ordered(o.globals)
      && g.lastTickId <= o.globals.lastTickId <= c.tick
  {
    var o := Hook(cfg, g, c.uid, c.isPlayer, c.tick);
    HookKeepsOrder(cfg, g, c.uid, c.isPlayer, c.tick);
    if cfg.enabled && !c.isPlayer {
      var g1 := Epoch(cfg, g, c.tick);
      EpochKeepsOrder(cfg, g, c.tick);
      assert Remembers(g1, uid, t1, ExpiryAge(cfg)) by {
        if uid in g.actorStates && g.actorStates[uid].lastAiTick == t1 && uid !in g1.actorStates {
          assert Expired(g.actorStates[uid], c.tick, ExpiryAge(cfg));
        }
      }
      if c.uid != uid {
        OtherEntriesOnlyReclaimed(cfg, g1, c.uid, false, c.tick, uid);
        assert Epoch(cfg, g1, c.tick) == g1;
      }
    }
  }

  lemma {:induction false} RunRemembers(cfg: Config, g: Globals, calls: seq<Call>, uid: i64, t1: u64, hi: u64)
    requires Ordered(g) && t1 <= g.lastTickId <= hi
    requires TicksBetween(g.lastTickId, calls, hi)
    requires Remembers(g, uid, t1, ExpiryAge(cfg))
    requires var ds := Run(cfg, g, calls).decisions;
      forall i :: 0 <= i < |calls| && calls[i].uid == uid ==> !ds[i].Admitted?
    ensures var r := Run(cfg, g, calls).globals;
      Remembers(r, uid, t1, ExpiryAge(cfg)) && Ordered(r) && t1 <= r.lastTickId <= hi
    decreases |calls|
  {
    if calls != [] {
      var c := calls[0];
      var o := Hook(cfg, g, c.uid, c.isPlayer, c.tick);
      var ds := Run(cfg, g, calls).decisions;
      assert ds[0] == o.decision;
      HookRemembers(cfg, g, c, uid, t1);
      var rest := calls[1..];
      assert forall i :: 0 <= i < |rest| ==> rest[i] == calls[i + 1];
      assert TicksBetween(o.globals.lastTickId, rest, hi);
      RunRemembers(cfg, o.globals, rest, uid, t1, hi);
    }
  }

  /**
   Two successive admissions of one actor, the first at `t1` (so its entry
   records `lastAiTick == t1`) and the next at `t2`, are at least
   `cooldownTicks` apart, unless more than the expiry age separates them (the
   entry was reclaimed in between and the actor came back as a first
   sighting). Ticks are assumed not to go backwards.
   */
  lemma CooldownSpacing(cfg: Config, g: Globals, calls: seq<Call>, uid: i64, t2: u64)
    requires Ordered(g) && uid in g.actorStates
    requires g.lastTickId <= t2 && TicksBetween(g.lastTickId, calls, t2)
    requires var ds := Run(cfg, g, calls).decisions;
      forall i :: 0 <= i < |calls| && calls[i].uid == uid ==> !ds[i].Admitted?
    requires Hook(cfg, Run(cfg, g, calls).globals, uid, false, t2).decision.Admitted?
    ensures var t1 := g.actorStates[uid].lastAiTick;
      t2 - t1 >= CastU64(cfg.cooldownTicks) || t2 - t1 > ExpiryAge(cfg)
  {
    var t1 := g.actorStates[uid].lastAiTick;
    var mid := Run(cfg, g, calls).globals;
    RunRemembers(cfg, g, calls, uid, t1, t2);
    var g1 := Epoch(cfg, mid, t2);
    if uid in mid.actorStates && mid.actorStates[uid].lastAiTick == t1 {
      if uid in g1.actorStates {
        assert g1.actorStates[uid] == mid.actorStates[uid];
        CooldownGate(cfg, mid, uid, t2);
      } else {
        assert Expired(mid.actorStates[uid], t2, ExpiryAge(cfg));
      }
    }
  }

  /**
   With a non-negative cooldown and an expiry multiplier of at least one, the
   reclaim exception cannot shorten the gap: successive admissions are always
   at least `cooldownTicks` apart.
   */
  lemma CooldownSpacingPlain(cfg: Config, g: Globals, calls: seq<Call>, uid: i64, t2: u64)
    requires Ordered(g) && uid in g.actorStates
    requires 0 <= cfg.cooldownTicks && 1 <= cfg.expiryMultiplier
    requires g.lastTickId <= t2 && TicksBetween(g.lastTickId, calls, t2)
    requires var ds := Run(cfg, g, calls).decisions;
      forall i :: 0 <= i < |calls| && calls[i].uid == uid ==> !ds[i].Admitted?
    requires Hook(cfg, Run(cfg, g, calls).globals, uid, false, t2).decision.Admitted?
    ensures t2 - g.actorStates[uid].lastAiTick >= cfg.cooldownTicks
  {
    CooldownSpacing(cfg, g, calls, uid, t2);
    ExpiryCoversCooldown(cfg);
  }

  /**
   With both factors sane the uint64 product does not wrap, so the expiry age
   is the true product, and it is at least the cooldown.
   */
  lemma ExpiryCoversCooldown(cfg: Config)
    requires 0 <= cfg.cooldownTicks && 1 <= cfg.expiryMultiplier
    ensures ExpiryAge(cfg) == cfg.cooldownTicks * cfg.expiryMultiplier
    ensures ExpiryAge(cfg) >= cfg.cooldownTicks
  {
    ProductOfInts(cfg.cooldownTicks, cfg.expiryMultiplier);
  }

  /** The product of two non-negative `int`s, the second positive, fits in 64 bits and is at least the first. */
  lemma ProductOfInts(c: nat, m: nat)
    requires c < 0x8000_0000 && 1 <= m < 0x8000_0000
    ensures c <= c * m < TWO_64
  {
    MulGrows(c, m - 1);
    MulLess(c, 0x8000_0000, m);
    MulLess(m, 0x8000_0000, 0x8000_0000);
  }

  lemma MulGrows(c: nat, k: nat)
    ensures c * (k + 1) == c * k + c && c * k >= 0
  {
  }

  lemma MulLess(a: nat, b: nat, m: nat)
    requires a <= b
    ensures a * m <= b * m
  {
    MulGrows(m, b - a);
    assert b * m == a * m + (b - a) * m;
  }
}
