/**
 Concrete runs of the hook: a cooldown of 5 ticks, a quota of 2 per tick,
 and the throttle at tick 0 that leaves an actor "not waiting".
 */
module Scenarios {
  import opened CppInt
  import opened Optimizer
  import opened OptimizerTrace

  function Plain(maxPerTick: i32, reservedSlots: i32, cooldownTicks: i32, priorityAfterTicks: i32): Config {
    Config(true, false, cooldownTicks, maxPerTick, reservedSlots, priorityAfterTicks, 1, 1, 1)
  }

  /** One actor seen at ticks 100, 101, 104 and 105 with a 5-tick cooldown: admitted, skipped, skipped, admitted. */
  lemma CooldownOfFiveTicks()
    ensures var cfg := Plain(10, 0, 5, 0);
      var r := Run(cfg, INITIAL, [Call(7, false, 100), Call(7, false, 101), Call(7, false, 104), Call(7, false, 105)]);
      && r.decisions == [Admitted(false), CooldownSkipped, CooldownSkipped, Admitted(false)]
      && r.globals.actorStates[7] == ActorState(105, 0)
      && r.globals.stats == Stats(2, 2, 0, 0)
  {
  }

  /** Three actors at tick 50 with a quota of 2: the third is throttled and starts waiting at 50. */
  lemma QuotaOfTwo()
    ensures var cfg := Plain(2, 0, 0, 0);
      var r := Run(cfg, INITIAL, [Call(1, false, 50), Call(2, false, 50), Call(3, false, 50)]);
      && r.decisions == [Admitted(false), Admitted(false), ThrottleSkipped]
      && r.globals.actorStates[3] == ActorState(0, 50)
      && r.globals.processedThisTick == 2
  {
  }

  /**
   A throttle at tick 0 records `pendingSince == 0`, which reads as "not
   waiting", so the actor never reaches the priority lane from it: with a
   normal lane of 1 and a reserved slot, actor 2 throttled at tick 0 is
   throttled again at tick 4 (compare `ThrottleAtTickOne`).
   */
  lemma ThrottleAtTickZero()
    ensures var cfg := Plain(2, 1, 0, 1);
      var r := Run(cfg, INITIAL, [Call(1, false, 0), Call(2, false, 0), Call(1, false, 4), Call(2, false, 4)]);
      && r.decisions == [Admitted(false), ThrottleSkipped, Admitted(false), ThrottleSkipped]
      && r.globals.actorStates[2] == ActorState(0, 4)
  {
    var cfg := Plain(2, 1, 0, 1);
    // tick 0: actor 1 takes the one normal slot, actor 2 is throttled with pendingSince 0
    var g1 := INITIAL.(processedThisTick := 1, actorStates := map[1 := ActorState(0, 0)], stats := Stats(1, 0, 0, 0));
    assert Epoch(cfg, INITIAL, 0) == INITIAL;
    assert Decide(cfg, INITIAL, 1, 0) == Outcome(g1, Admitted(false));
    assert Hook(cfg, INITIAL, 1, false, 0) == Outcome(g1, Admitted(false));
    var g2 := g1.(actorStates := g1.actorStates[2 := ActorState(0, 0)], stats := Stats(1, 0, 1, 0));
    assert Epoch(cfg, g1, 0) == g1;
    assert Decide(cfg, g1, 2, 0) == Outcome(g2, ThrottleSkipped);
    assert Hook(cfg, g1, 2, false, 0) == Outcome(g2, ThrottleSkipped);
    // tick 4: actor 2 is still not waiting, so it competes for the normal slot again
    var e3 := g2.(lastTickId := 4, processedThisTick := 0);
    var g3 := e3.(processedThisTick := 1, actorStates := g2.actorStates[1 := ActorState(4, 0)], stats := Stats(2, 0, 1, 0));
    assert CleanupInterval(cfg) == 20;
    assert Epoch(cfg, g2, 4) == e3;
    assert Decide(cfg, e3, 1, 4) == Outcome(g3, Admitted(false));
    assert Hook(cfg, g2, 1, false, 4) == Outcome(g3, Admitted(false));
    var g4 := g3.(actorStates := g3.actorStates[2 := ActorState(0, 4)], stats := Stats(2, 0, 2, 0));
    assert Epoch(cfg, g3, 4) == g3;
    assert Decide(cfg, g3, 2, 4) == Outcome(g4, ThrottleSkipped);
    assert Hook(cfg, g3, 2, false, 4) == Outcome(g4, ThrottleSkipped);
    assert Run(cfg, g3, [Call(2, false, 4)]) == Trace(g4, [ThrottleSkipped]);
    assert Run(cfg, g2, [Call(1, false, 4), Call(2, false, 4)]) == Trace(g4, [Admitted(false), ThrottleSkipped]);
    assert Run(cfg, g1, [Call(2, false, 0), Call(1, false, 4), Call(2, false, 4)])
        == Trace(g4, [ThrottleSkipped, Admitted(false), ThrottleSkipped]);
  }

  /**
   The schedule of `ThrottleAtTickZero` one tick later: actor 2 starts waiting
   at tick 1 and at tick 4 is admitted through the reserved slot.
   */
  lemma ThrottleAtTickOne()
    ensures var cfg := Plain(2, 1, 0, 1);
      var r := Run(cfg, INITIAL, [Call(1, false, 1), Call(2, false, 1), Call(1, false, 4), Call(2, false, 4)]);
      && r.decisions == [Admitted(false), ThrottleSkipped, Admitted(false), Admitted(true)]
      && r.globals.actorStates[2] == ActorState(4, 0)
  {
  }

  /**
   An actor throttled on its first sighting keeps the `lastAiTick == 0` of its
   fresh entry, so while the tick id is below `cooldownTicks` its next call is
   cooldown-skipped although its AI never ran.
   */
  lemma ThrottledNewcomerCoolsDown()
    ensures var cfg := Plain(1, 0, 300, 0);
      var r := Run(cfg, INITIAL, [Call(1, false, 5), Call(2, false, 5), Call(2, false, 6)]);
      && r.decisions == [Admitted(false), ThrottleSkipped, CooldownSkipped]
      && r.globals.actorStates[2] == ActorState(0, 5)
  {
  }
}
