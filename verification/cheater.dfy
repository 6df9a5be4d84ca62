/** `galapagos/Cheater.java`: a stateless behaviour that never cleans. */
module CheaterBehavior {

  import opened Actions

  /** A cheater has no fields: every instance behaves the same. */
  datatype Cheater = Cheater {

    /** Never cleans the other finch, whoever it is. */
    function Decide(opponent: FinchId): (a: Action)
      ensures a != Cleaning
    {
      Ignoring
    }

    /** The reaction of the met finch is ignored: a cheater has nothing to
        update, so what it decides next is what it decided before. */
    method Response(opponent: FinchId, action: Action)
      ensures forall o :: Decide(o) == Ignoring
    {
    }

    /** `clone`: a new cheater; having no fields, it equals this one, and
        it keeps the name and every decision. */
    function Clone(): (c: Cheater)
      ensures c.Name() == Name()
      ensures forall o :: c.Decide(o) == Decide(o)
    {
      Cheater
    }

    /** `toString`. */
    function Name(): (n: string)
      ensures n == "Cheater"
    {
      "Cheater"
    }
  }

  /** A whole meeting: whatever the met finch did, the cheater's next
      decision, against anyone, is still to ignore. */
  method ReactThenDecide(c: Cheater, opponent: FinchId, reaction: Action, next: FinchId) returns (a: Action)
    ensures a == Ignoring && a == c.Decide(next)
  {
    c.Response(opponent, reaction);
    a := c.Decide(next);
  }

  /** A cheater answers the same to every opponent, however often it is asked. */
  lemma SameForEveryone(c: Cheater, opponents: seq<FinchId>)
    ensures forall i, j :: 0 <= i < |opponents| && 0 <= j < |opponents| ==>
      c.Decide(opponents[i]) == c.Decide(opponents[j]) == Ignoring
  {
  }
}
