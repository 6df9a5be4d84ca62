/** The optional value the Java code expresses with `null`. */
module Wrappers {

  datatype Option<+T> = None | Some(value: T)
}

/** The vocabulary shared by every behaviour and by the finch: the two actions a
    finch can take towards the finch it meets, and how a met finch is named. */
module Actions {

  /** `Action.CLEANING` and `Action.IGNORING`. */
  datatype Action = Cleaning | Ignoring

  /** A stable handle standing for the identity of the finch that was met
      (the Java code passes the `Finch` reference itself). */
  type FinchId = nat

  /** One remembered meeting: what this finch did, and how the other finch reacted. */
  datatype Interaction = Interaction(action: Action, reaction: Action)
}
