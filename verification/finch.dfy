/** `galapagos/biotope/GalapagosFinch.java`: a finch with hitpoints, an age
    and the behaviour it delegates its decisions to. */
module Finches {

  import opened Actions
  import Behaviors
  import CheaterBehavior

  datatype FinchStatus = Alive | DeadTicks | DeadAge

  function Min(a: int, b: int): int
  {
    if a <= b then a else b
  }

  class GalapagosFinch {
    var hitpoints: int
    const maxHitpoints: int
    var age: int
    const maxAge: int
    const behavior: Behaviors.Behavior

    constructor (hitpoints: int, maxHitpoints: int, maxAge: int, behavior: Behaviors.Behavior)
      ensures this.hitpoints == hitpoints && this.maxHitpoints == maxHitpoints
      ensures age == 0 && this.maxAge == maxAge && this.behavior == behavior
    {
      this.hitpoints := hitpoints;
      this.maxHitpoints := maxHitpoints;
      this.age := 0;
      this.maxAge := maxAge;
      this.behavior := behavior;
    }

    /** `age`: the years lived so far, 0 for a new finch. */
    function Age(): (a: int)
      reads this
      ensures a == age
    {
      age
    }

    /** `hitpoints`: the current hitpoints, at most the maximum once changed. */
    function Hitpoints(): (h: int)
      reads this
      ensures h == hitpoints
    {
      hitpoints
    }

    /** `status`: death by ticks (no hitpoints left) takes precedence over
        death by age. */
    function Status(): (s: FinchStatus)
      reads this
      ensures s == DeadTicks <==> hitpoints <= 0
      ensures s == DeadAge <==> 0 < hitpoints && maxAge <= age
      ensures s == Alive <==> 0 < hitpoints && age < maxAge
    {
      if hitpoints <= 0 then DeadTicks
      else if age >= maxAge then DeadAge
      else Alive
    }

    /** `changeHitpoints`: adds `change`, clamped from above at the maximum
        but not from below. */
    method ChangeHitpoints(change: int)
      modifies this`hitpoints
      ensures hitpoints == Min(maxHitpoints, old(hitpoints) + change)
      ensures hitpoints <= maxHitpoints
    {
      hitpoints := hitpoints + change;
      if hitpoints > maxHitpoints {
        hitpoints := maxHitpoints;
      }
    }

    /** `makeOlder`: one year older, nothing else changes. */
    method MakeOlder()
      modifies this`age
      ensures age == old(age) + 1
    {
      age := age + 1;
    }

    /** `decide`: exactly what the finch's behaviour decides, with the same effect on it. */
    method Decide(opponent: FinchId) returns (a: Action)
      modifies Behaviors.Repr(behavior)
      ensures Behaviors.Decided(behavior, opponent, a)
    {
      a := Behaviors.Decide(behavior, opponent);
    }

    /** `response`: forwarded unchanged to the finch's behaviour. */
    method Response(opponent: FinchId, action: Action)
      modifies Behaviors.Repr(behavior)
      ensures Behaviors.Responded(behavior, opponent, action)
    {
      Behaviors.Response(behavior, opponent, action);
    }
  }

  /** The life of a finch with 5 of at most 10 hitpoints and a maximal age
      of 2: alive when new, one year old after one `makeOlder`, dead of age
      after the second; `changeHitpoints(0)` keeps 5, `changeHitpoints(12)`
      clamps to 10, and after `changeHitpoints(-10)` it is dead by ticks
      although its age has also run out. */
  method LifecycleScenario() returns (fresh0: FinchStatus, age1: int, aged2: FinchStatus, kept: int, clamped: int, ticked: FinchStatus)
    ensures fresh0 == Alive && age1 == 1 && aged2 == DeadAge
    ensures kept == 5 && clamped == 10 && ticked == DeadTicks
  {
    var f := new GalapagosFinch(5, 10, 2, Behaviors.Cheat(CheaterBehavior.Cheater));
    fresh0 := f.Status();
    f.MakeOlder();
    age1 := f.Age();
    f.MakeOlder();
    aged2 := f.Status();
    f.ChangeHitpoints(0);
    kept := f.Hitpoints();
    f.ChangeHitpoints(12);
    clamped := f.Hitpoints();
    f.ChangeHitpoints(-10);
    ticked := f.Status();
  }
}
