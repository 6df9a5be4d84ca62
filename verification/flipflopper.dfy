/** `galapagos/FlipFlopper.java`: a behaviour that alternates between the two
    actions, whoever it meets. */
module FlipFlopperBehavior {

  import opened Actions

  /** The other action. */
  function Flip(a: Action): (b: Action)
    ensures b != a
  {
    match a
    case Cleaning => Ignoring
    case Ignoring => Cleaning
  }

  class FlipFlopper {
    /** The action returned by the latest `decide`. */
    var last: Action

    constructor ()
      ensures last == Ignoring
    {
      last := Ignoring;
    }

    /** Flips `last` and returns the new value; the opponent plays no part. */
    method Decide(opponent: FinchId) returns (a: Action)
      modifies this
      ensures a == Flip(old(last)) && last == a
    {
      match last {
        case Cleaning =>
          last := Ignoring;
        case Ignoring =>
          last := Cleaning;
      }
      a := last;
    }

    /** The reaction of the met finch is ignored. */
    method Response(opponent: FinchId, action: Action)
      ensures unchanged(this)
    {
    }
  }

  /** Two decisions in a row differ, and leave the flip-flopper as it was. */
  method DecideTwice(f: FlipFlopper, first: FinchId, second: FinchId) returns (a1: Action, a2: Action)
    modifies f
    ensures a1 != a2 && a1 == Flip(old(f.last)) && f.last == old(f.last)
  {
    a1 := f.Decide(first);
    a2 := f.Decide(second);
  }

  /** From a fresh flip-flopper the decisions are CLEANING, IGNORING, CLEANING,
      whoever the opponents are. */
  method FreshDecisions(o1: FinchId, o2: FinchId, o3: FinchId) returns (a1: Action, a2: Action, a3: Action)
    ensures a1 == Cleaning && a2 == Ignoring && a3 == Cleaning
  {
    var f := new FlipFlopper();
    a1 := f.Decide(o1);
    a2 := f.Decide(o2);
    a3 := f.Decide(o3);
  }
}
