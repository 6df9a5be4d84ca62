/** `galapagos/behaviors/Analyzer.java`: a behaviour that remembers, per
    opponent, what it did and how the opponent reacted, scores the two actions
    from that history and picks the better one, deferring to a fallback
    behaviour on a tie or when it has no memory of the opponent.

    The memory store (`recall`, `registerAction`, `registerReaction`) belongs
    to the base class `AnalyzingBehavior`, and the fallback is a `Predictor`;
    neither is part of this model. The memory is modelled as a map from
    opponent to its history plus the pending action per opponent; the
    fallback as a policy `fallback(opponent, calls)` that sees the opponent
    and every call this analyzer has made on it so far. */
module AnalyzerBehavior {

  import opened Actions
  import opened Wrappers

  /** Payoffs of the four outcomes. */
  const HelpedGotHelpValue := 1
  const HelpedDidntGetHelpValue := -2
  const DidntHelpGotHelpValue := 3
  const DidntHelpDidntGetHelpValue := -1

  /** A call the analyzer makes on its fallback behaviour. */
  datatype FallbackCall = DecideCall(opponent: FinchId) | ResponseCall(opponent: FinchId, action: Action)

  /** How many meetings in `h` went `(action, reaction)`. */
  function Count(h: seq<Interaction>, action: Action, reaction: Action): nat
  {
    if h == [] then 0
    else Count(h[..|h| - 1], action, reaction) + if h[|h| - 1] == Interaction(action, reaction) then 1 else 0
  }

  /** The cleaning score one meeting contributes. */
  function CleaningValue(i: Interaction): int
  {
    if i.action != Cleaning then 0
    else if i.reaction == Cleaning then HelpedGotHelpValue
    else HelpedDidntGetHelpValue
  }

  /** The ignoring score one meeting contributes. */
  function IgnoringValue(i: Interaction): int
  {
    if i.action != Ignoring then 0
    else if i.reaction == Cleaning then DidntHelpGotHelpValue
    else DidntHelpDidntGetHelpValue
  }

  /** `cleaningGoodness` after the scoring loop has seen `h`. */
  function CleaningGoodness(h: seq<Interaction>): int
  {
    if h == [] then 0 else CleaningGoodness(h[..|h| - 1]) + CleaningValue(h[|h| - 1])
  }

  /** `ignoringGoodness` after the scoring loop has seen `h`. */
  function IgnoringGoodness(h: seq<Interaction>): int
  {
    if h == [] then 0 else IgnoringGoodness(h[..|h| - 1]) + IgnoringValue(h[|h| - 1])
  }

  /** The cleaning score is +1 per help returned and -2 per help not returned. */
  lemma {:induction false} CleaningGoodnessCounts(h: seq<Interaction>)
    ensures CleaningGoodness(h) ==
      HelpedGotHelpValue * Count(h, Cleaning, Cleaning) + HelpedDidntGetHelpValue * Count(h, Cleaning, Ignoring)
  {
    if h != [] {
      CleaningGoodnessCounts(h[..|h| - 1]);
    }
  }

  /** The ignoring score is +3 per help received without helping and -1 per
      meeting where neither helped. */
  lemma {:induction false} IgnoringGoodnessCounts(h: seq<Interaction>)
    ensures IgnoringGoodness(h) ==
      DidntHelpGotHelpValue * Count(h, Ignoring, Cleaning) + DidntHelpDidntGetHelpValue * Count(h, Ignoring, Ignoring)
  {
    if h != [] {
      IgnoringGoodnessCounts(h[..|h| - 1]);
    }
  }

  /** Two helps returned and one not returned score 0 for cleaning; one help
      received and one meeting with no help score 2 for ignoring; a history
      holding both scores each action on its own meetings. */
  lemma ScoreExamples()
    ensures CleaningGoodness([Interaction(Cleaning, Cleaning), Interaction(Cleaning, Cleaning), Interaction(Cleaning, Ignoring)]) == 0
    ensures IgnoringGoodness([Interaction(Ignoring, Cleaning), Interaction(Ignoring, Ignoring)]) == 2
    ensures
      var h := [Interaction(Cleaning, Cleaning), Interaction(Ignoring, Cleaning), Interaction(Cleaning, Cleaning),
                Interaction(Ignoring, Ignoring), Interaction(Cleaning, Ignoring)];
      CleaningGoodness(h) == 0 && IgnoringGoodness(h) == 2
  {
    var c1 := [Interaction(Cleaning, Cleaning)];
    var c2 := c1 + [Interaction(Cleaning, Cleaning)];
    var c3 := c2 + [Interaction(Cleaning, Ignoring)];
    assert c1[..0] == [] && c2[..1] == c1 && c3[..2] == c2;
    var i1 := [Interaction(Ignoring, Cleaning)];
    var i2 := i1 + [Interaction(Ignoring, Ignoring)];
    assert i1[..0] == [] && i2[..1] == i1;
    var h1 := [Interaction(Cleaning, Cleaning)];
    var h2 := h1 + [Interaction(Ignoring, Cleaning)];
    var h3 := h2 + [Interaction(Cleaning, Cleaning)];
    var h4 := h3 + [Interaction(Ignoring, Ignoring)];
    var h5 := h4 + [Interaction(Cleaning, Ignoring)];
    assert h1[..0] == [] && h2[..1] == h1 && h3[..2] == h2 && h4[..3] == h3 && h5[..4] == h4;
    assert CleaningGoodness(c3) == 0 && IgnoringGoodness(i2) == 2;
    assert CleaningGoodness(h2) == 1 && IgnoringGoodness(h2) == 3;
    assert CleaningGoodness(h4) == 2 && IgnoringGoodness(h4) == 2;
    assert CleaningGoodness(h5) == 0 && IgnoringGoodness(h5) == 2;
    assert h5 == [Interaction(Cleaning, Cleaning), Interaction(Ignoring, Cleaning), Interaction(Cleaning, Cleaning),
                  Interaction(Ignoring, Ignoring), Interaction(Cleaning, Ignoring)];
  }

  /** On the mixed history of `ScoreExamples` ignoring scores 2 against
      cleaning's 0, so an analyzer remembering it ignores that opponent
      without consulting the fallback's answer. */
  lemma MixedHistoryVerdict(a: Analyzer, opponent: FinchId)
    requires opponent in a.memory
    requires a.memory[opponent] == [Interaction(Cleaning, Cleaning), Interaction(Ignoring, Cleaning), Interaction(Cleaning, Cleaning),
                                    Interaction(Ignoring, Ignoring), Interaction(Cleaning, Ignoring)]
    ensures a.Verdict(opponent) == Ignoring
  {
    ScoreExamples();
  }

  class Analyzer {
    /** The fallback behaviour's policy, a stand-in for the `Predictor`. */
    const fallback: (FinchId, seq<FallbackCall>) -> Action
    /** Every call made on the fallback so far, oldest first. */
    var calls: seq<FallbackCall>
    /** Per opponent, the remembered meetings in the order they happened. */
    var memory: map<FinchId, seq<Interaction>>
    /** Per opponent, the action most recently decided towards it. */
    var pending: map<FinchId, Action>

    constructor (fallback: (FinchId, seq<FallbackCall>) -> Action)
      ensures this.fallback == fallback && calls == [] && memory == map[] && pending == map[]
    {
      this.fallback := fallback;
      calls, memory, pending := [], map[], map[];
    }

    /** `recall`: the history for `opponent`, or nothing if it was never met. */
    function Recall(opponent: FinchId): Option<seq<Interaction>>
      reads this
    {
      if opponent in memory then Some(memory[opponent]) else None
    }

    /** The history for `opponent`, empty if it was never met. */
    function History(opponent: FinchId): seq<Interaction>
      reads this
    {
      if opponent in memory then memory[opponent] else []
    }

    /** The action `decide` takes towards `opponent` in the current state:
        the fallback's answer, unless the opponent is remembered and one of
        the two count-weighted scores is strictly larger. */
    function Verdict(opponent: FinchId): (choice: Action)
      reads this
      ensures opponent !in memory ==> choice == fallback(opponent, calls)
      ensures opponent in memory ==>
        var h := memory[opponent];
        var cleaning := Count(h, Cleaning, Cleaning) - 2 * Count(h, Cleaning, Ignoring);
        var ignoring := 3 * Count(h, Ignoring, Cleaning) - Count(h, Ignoring, Ignoring);
        && (cleaning == ignoring ==> choice == fallback(opponent, calls))
        && (cleaning != ignoring ==> (choice == Cleaning <==> cleaning > ignoring))
    {
      var fallbackChoice := fallback(opponent, calls);
      match Recall(opponent)
      case None => fallbackChoice
      case Some(h) =>
        CleaningGoodnessCounts(h);
        IgnoringGoodnessCounts(h);
        var cleaning, ignoring := CleaningGoodness(h), IgnoringGoodness(h);
        if cleaning != ignoring then (if cleaning > ignoring then Cleaning else Ignoring)
        else fallbackChoice
    }

    /** What one `decide` towards `opponent` returning `choice` does: the
        verdict is returned, the fallback is asked exactly once, the choice is
        registered as pending and the history is untouched. */
    twostate predicate Decided(opponent: FinchId, choice: Action)
      reads this
    {
      && choice == old(Verdict(opponent))
      && calls == old(calls) + [DecideCall(opponent)]
      && pending == old(pending)[opponent := choice]
      && memory == old(memory)
    }

    /** What one `response` does: the reaction is paired with the pending
        action in the history, and the same event is forwarded to the fallback. */
    twostate predicate Responded(opponent: FinchId, reaction: Action)
      reads this
    {
      && memory == (if opponent in old(pending)
                    then old(memory)[opponent := old(History(opponent)) + [Interaction(old(pending)[opponent], reaction)]]
                    else old(memory))
      && calls == old(calls) + [ResponseCall(opponent, reaction)]
      && pending == old(pending)
    }

    method Decide(opponent: FinchId) returns (choice: Action)
      modifies this
      ensures Decided(opponent, choice)
    {
      var analysis := Recall(opponent);
      choice := fallback(opponent, calls);
      calls := calls + [DecideCall(opponent)];
      if analysis.Some? {
        var h := analysis.value;
        var cleaningGoodness, ignoringGoodness := 0, 0;
        var k := 0;
        while k < |h|
          invariant 0 <= k <= |h|
          invariant cleaningGoodness == CleaningGoodness(h[..k])
          invariant ignoringGoodness == IgnoringGoodness(h[..k])
        {
          var action, reaction := h[k].action, h[k].reaction;
          if action == Cleaning {
            if reaction == Cleaning {
              cleaningGoodness := cleaningGoodness + HelpedGotHelpValue;
            } else if reaction == Ignoring {
              cleaningGoodness := cleaningGoodness + HelpedDidntGetHelpValue;
            }
          } else if action == Ignoring {
            if reaction == Cleaning {
              ignoringGoodness := ignoringGoodness + DidntHelpGotHelpValue;
            }
            if reaction == Ignoring {
              ignoringGoodness := ignoringGoodness + DidntHelpDidntGetHelpValue;
            }
          }
          assert h[..k + 1][..k] == h[..k];
          k := k + 1;
        }
        assert h[..k] == h;
        if cleaningGoodness != ignoringGoodness {
          choice := if cleaningGoodness > ignoringGoodness then Cleaning else Ignoring;
        }
      }
      RegisterAction(opponent, choice);
    }

    method Response(opponent: FinchId, action: Action)
      modifies this
      ensures Responded(opponent, action)
    {
      RegisterReaction(opponent, action);
      calls := calls + [ResponseCall(opponent, action)];
    }

    /** `registerAction`: remember the action just decided towards `opponent`. */
    method RegisterAction(opponent: FinchId, action: Action)
      modifies this`pending
      ensures pending == old(pending)[opponent := action]
    {
      pending := pending[opponent := action];
    }

    /** `registerReaction`: append the pending action and the reaction to the
        opponent's history (nothing is recorded if no action is pending). */
    method RegisterReaction(opponent: FinchId, reaction: Action)
      modifies this`memory
      ensures opponent in pending ==>
        memory == old(memory)[opponent := old(History(opponent)) + [Interaction(pending[opponent], reaction)]]
      ensures opponent !in pending ==> memory == old(memory)
    {
      if opponent in pending {
        memory := memory[opponent := History(opponent) + [Interaction(pending[opponent], reaction)]];
      }
    }

    /** `clone`: a new analyzer with a new fallback of the same kind and no memory. */
    method Clone() returns (c: Analyzer)
      ensures fresh(c) && c.fallback == fallback
      ensures c.calls == [] && c.memory == map[] && c.pending == map[]
      ensures c.Name() == Name() && c.Equals(this)
    {
      c := new Analyzer(fallback);
    }

    /** `equals`: every analyzer equals every other analyzer. */
    predicate Equals(other: object)
      ensures Equals(other) <==> other is Analyzer
    {
      other is Analyzer
    }

    /** `toString`: the same name for every analyzer, whatever it remembers. */
    function Name(): (n: string)
      ensures n == "Analyzer"
    {
      "Analyzer"
    }
  }

  /** A decision followed by the opponent's reaction appends exactly that
      pair to the opponent's history: the action registered is the one returned. */
  method DecideThenRespond(a: Analyzer, opponent: FinchId, reaction: Action) returns (choice: Action)
    modifies a
    ensures choice == old(a.Verdict(opponent))
    ensures a.memory == old(a.memory)[opponent := old(a.History(opponent)) + [Interaction(choice, reaction)]]
    ensures a.calls == old(a.calls) + [DecideCall(opponent), ResponseCall(opponent, reaction)]
  {
    choice := a.Decide(opponent);
    a.Response(opponent, reaction);
  }
}
