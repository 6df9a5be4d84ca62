/** The `Behavior` interface the finch delegates to, closed over the three
    behaviours modelled here. Nothing here keeps two finches from holding
    the same behaviour object; in the program they get separate instances
    only because every caller passes a fresh clone. */
module Behaviors {

  import opened Actions
  import opened CheaterBehavior
  import opened FlipFlopperBehavior
  import opened AnalyzerBehavior

  datatype Behavior =
    | Cheat(cheater: Cheater)
    | FlipFlop(flipper: FlipFlopper)
    | Analyze(analyzer: Analyzer)

  /** The objects whose fields a call on the behaviour may change. */
  function Repr(b: Behavior): set<object>
  {
    match b
    case Cheat(_) => {}
    case FlipFlop(f) => {f}
    case Analyze(a) => {a}
  }

  /** What `decide(opponent)` returns in the current state. */
  function Verdict(b: Behavior, opponent: FinchId): Action
    reads Repr(b)
  {
    match b
    case Cheat(c) => c.Decide(opponent)
    case FlipFlop(f) => Flip(f.last)
    case Analyze(a) => a.Verdict(opponent)
  }

  /** The effect of one `decide(opponent)` that returned `answer`. */
  twostate predicate Decided(b: Behavior, opponent: FinchId, answer: Action)
    reads Repr(b)
  {
    && answer == old(Verdict(b, opponent))
    && match b
       case Cheat(_) => true
       case FlipFlop(f) => f.last == answer
       case Analyze(a) => a.Decided(opponent, answer)
  }

  /** The effect of one `response(opponent, action)`. */
  twostate predicate Responded(b: Behavior, opponent: FinchId, action: Action)
    reads Repr(b)
  {
    match b
    case Cheat(_) => true
    case FlipFlop(f) => unchanged(f)
    case Analyze(a) => a.Responded(opponent, action)
  }

  /** Dynamic dispatch of `decide`. */
  method Decide(b: Behavior, opponent: FinchId) returns (answer: Action)
    modifies Repr(b)
    ensures Decided(b, opponent, answer)
  {
    match b
    case Cheat(c) =>
      answer := c.Decide(opponent);
    case FlipFlop(f) =>
      answer := f.Decide(opponent);
    case Analyze(a) =>
      answer := a.Decide(opponent);
  }

  /** Dynamic dispatch of `response`. */
  method Response(b: Behavior, opponent: FinchId, action: Action)
    modifies Repr(b)
    ensures Responded(b, opponent, action)
  {
    match b
    case Cheat(c) =>
      c.Response(opponent, action);
    case FlipFlop(f) =>
      f.Response(opponent, action);
    case Analyze(a) =>
      a.Response(opponent, action);
  }
}
