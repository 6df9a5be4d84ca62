# Galapagos finch simulator: verified model of the core

The Galapagos simulator places finches on a torus-shaped world. When two
neighbouring finches meet, each one decides whether to clean the other
(CLEANING) or not (IGNORING). How it decides depends on its behaviour. This
project is a Dafny model of the sequential core of the Java program, with
proofs of what that code promises.

- **`Torus`** (`world.dfy`) models `World` and its inner class `Place`:
  - the x-major grid of places;
  - `getAt`/`setAt`;
  - the recursive wraps `wrappedX`/`wrappedY`;
  - the filled and empty neighbour lists, built by the nested loops and then shuffled;
  - the plain and the random iterator.

  `Collections.shuffle` is modelled as Java's own swap loop. The random draws are a parameter, so any draws give a permutation.
- **`Finches`** (`finch.dfy`) models `GalapagosFinch`:
  - hitpoints with an upper clamp only;
  - an age that goes up one at a time;
  - a three-way status in which death by ticks takes precedence over death by age;
  - `decide`/`response`, passed on to the finch's behaviour.
- **`CheaterBehavior`**, **`FlipFlopperBehavior`** and **`AnalyzerBehavior`** model the three behaviours:
  - `Cheater` is a stateless value;
  - `FlipFlopper` is a class with its `last` field;
  - `Analyzer` is a class whose scoring loop is proved against the recursive score functions `CleaningGoodness`/`IgnoringGoodness`. The scores are then characterised by the counts of the four outcomes.
- **`Behaviors`** (`behaviors.dfy`) is the `Behavior` interface, closed over the three behaviours above. `decide`/`response` are dispatched by a `match`.
- **`Creation`** (`frame.dfy`) is the logic of `GalapagosFrame` that is not graphical:
  - the three checks that gate `createBiotope`, joined with the non-short-circuit `&`;
  - the collection of the selected behaviours' clones;
  - the name-deduplicating behaviour list and colour map;
  - `colorByBehavior`;
  - the mouse handler's pixel-to-cell placement.
- `Wrappers` and `Actions` (`common.dfy`) hold `Option`, `Action`, the opponent handle `FinchId` and the `(action, reaction)` pair `Interaction`.

`width` and `height` of a world are `const` fields, so they cannot change after construction. The Java `null` element is `None`.

Behaviour of the code worth knowing:
- **Storage order.** It is x-major: place `(x, y)` is at index `x * height + y` and the x loop is the outer one. The documentation of `iterator` (World.java:180) says "row by row" instead.
- **Neighbour lists.** The filter excludes only the place itself, by identity. On a world narrower or shorter than 3, the wrapped neighbours coincide, so the lists can hold one place several times. The model therefore uses sequences and multisets. The exact count of 8 neighbours is proved only for worlds at least 3 by 3.
- **`getAt`.** Its only guards are `assert`s on the upper bounds, and Java runs with assertions disabled by default. Without them it indexes `x * height + y` directly. An out-of-range `(x, y)` names the place stored at that index when the index lies in `[0, width*height)`: `getAt(1, -1)` is `(0, height-1)`, and `getAt(0, height)` is `(1, 0)` on a world at least 2 wide. Any other index throws `IndexOutOfBoundsException`, whether it is negative (`getAt(0, -1)`) or past the end (`getAt(width, 0)`).
- **No behaviour selected.** `createBiotope` does not reject an empty selection of behaviours: with none selected, `checkStartFinches` compares against 0.

## Model

| member | source | states |
|---|---|---|
| Torus.Place.constructor | galapagos/World.java:59-62 | a new place has the given coordinates and no element |
| Torus.Place.GetElement | galapagos/World.java:70-72 | the element at the place, `None` for an empty place |
| Torus.Place.SetElement | galapagos/World.java:77-79 | the place's element becomes the given one, and `getElement` then returns it |
| Torus.Shuffle | galapagos/World.java:139 | the shuffled list has the same length and the same elements with the same multiplicities (a permutation), for any valid random draws |
| Torus.Select | galapagos/World.java:133-137 | the neighbour filter keeps, in order, only places of the input that are not the place itself and are occupied (filled) or empty (not filled) |
| Torus.Others | galapagos/World.java:136 | the positions other than the place itself: exactly the members of the input different from it |
| Torus.SelectPartition | galapagos/World.java:131-159 | the filled and the empty selections together are exactly the positions other than the place, as multisets |
| Torus.World.constructor | galapagos/World.java:20-28 | exactly `width*height` fresh, empty places, the place at index `x*height+y` having coordinates `(x, y)`; the random order starts as the storage order |
| Torus.World.GetAt | galapagos/World.java:165-169 | for in-range `(x, y)` the result is the place at index `x*height+y`, and its coordinates are `(x, y)` |
| Torus.World.SetAt | galapagos/World.java:174-176 | the place at `(x, y)` holds the new value and every other place keeps its element; coordinates are constant |
| Torus.World.WrappedX | galapagos/World.java:108-111 | for a positive width the recursion terminates and the result lies in `[0, width)` |
| Torus.World.WrappedY | galapagos/World.java:120-123 | for a positive height the recursion terminates and the result lies in `[0, height)` |
| Torus.World.WrappedXIsRemainder | galapagos/World.java:108-111 | the wrapped x is the Euclidean remainder of x by the width, hence congruent to x |
| Torus.World.WrappedYIsRemainder | galapagos/World.java:120-123 | the wrapped y is the Euclidean remainder of y by the height, hence congruent to y |
| Torus.World.WrapEdges | galapagos/World.java:108-123 | one step off an edge wraps to the opposite edge: -1 to `width-1` and `width` to 0 (likewise for y) |
| Torus.World.Neighbourhood | galapagos/World.java:133-135 | the loops visit nine positions, all of them places of the world |
| Torus.World.CollectNeighbours | galapagos/World.java:132-138 | the nested x/y loop builds exactly the filtered neighbourhood in visiting order |
| Torus.World.FilledNeighbours | galapagos/World.java:131-141 | the list is a permutation of the filtered neighbourhood, so it holds only occupied places of the world other than the place itself |
| Torus.World.EmptyNeighbours | galapagos/World.java:149-159 | the list is a permutation of the filtered neighbourhood, so it holds only empty places of the world other than the place itself |
| Torus.World.NeighbourhoodDistinct | galapagos/World.java:133-135 | on a world at least 3 by 3 the nine visited places are pairwise distinct, and one of them is the place itself |
| Torus.World.NeighbourCount | galapagos/World.java:131-159 | filled and empty neighbours together are exactly the wrapped neighbours other than the place; on a world at least 3 by 3 their lengths sum to 8 |
| Torus.World.Iterator | galapagos/World.java:182-184 | every place exactly once, the `i`th being the place whose index `x*height+y` is `i` |
| Torus.World.RandomIterator | galapagos/World.java:192-195 | the stored random order is reshuffled and returned; it is a permutation of all `width*height` places |
| FlipFlopperBehavior.Flip | galapagos/FlipFlopper.java:9-16 | the toggle always yields the other action |
| FlipFlopperBehavior.FlipFlopper.constructor | galapagos/FlipFlopper.java:4 | a new flip-flopper starts with `last == IGNORING` |
| FlipFlopperBehavior.FlipFlopper.Decide | galapagos/FlipFlopper.java:8-19 | returns the flipped `last` and stores it; the opponent plays no part |
| FlipFlopperBehavior.FlipFlopper.Response | galapagos/FlipFlopper.java:24-26 | changes nothing |
| FlipFlopperBehavior.DecideTwice | galapagos/FlipFlopper.java:8-19 | two consecutive decisions differ, and the state is back where it started |
| FlipFlopperBehavior.FreshDecisions | galapagos/FlipFlopper.java:4-19 | from a fresh instance the decisions are CLEANING, IGNORING, CLEANING, whoever the opponents are |
| CheaterBehavior.Cheater.Decide | galapagos/Cheater.java:8-11 | never CLEANING, for any opponent |
| CheaterBehavior.Cheater.Response | galapagos/Cheater.java:16-19 | the reaction is ignored: a cheater has no state to update, and it still ignores every opponent |
| CheaterBehavior.Cheater.Clone | galapagos/Cheater.java:21-23 | the clone has the same name and the same decision for every opponent |
| CheaterBehavior.Cheater.Name | galapagos/Cheater.java:25-27 | the name is `"Cheater"` |
| CheaterBehavior.ReactThenDecide | galapagos/Cheater.java:8-19 | `response` changes nothing: after any reaction of any finch, the next decision is still IGNORING |
| CheaterBehavior.SameForEveryone | galapagos/Cheater.java:8-11 | every decision over any sequence of opponents is the same IGNORING |
| AnalyzerBehavior.CleaningGoodnessCounts | galapagos/behaviors/Analyzer.java:50-54 | the cleaning score is `1·#(CLEANING,CLEANING) − 2·#(CLEANING,IGNORING)` over the history |
| AnalyzerBehavior.IgnoringGoodnessCounts | galapagos/behaviors/Analyzer.java:55-59 | the ignoring score is `3·#(IGNORING,CLEANING) − 1·#(IGNORING,IGNORING)` over the history |
| AnalyzerBehavior.ScoreExamples | galapagos/behaviors/Analyzer.java:44-61 | worked scores: two returned helps and one unreturned score 0; one help received and one mutual ignore score 2; mixed in one history each score counts only its own meetings |
| AnalyzerBehavior.MixedHistoryVerdict | galapagos/behaviors/Analyzer.java:44-65 | on the mixed history of the worked scores (ignoring 2, cleaning 0) the analyzer ignores that opponent, whatever the fallback says |
| AnalyzerBehavior.Analyzer.constructor | galapagos/behaviors/Analyzer.java:28-30 | a new analyzer has its fallback, no memory, nothing pending and no fallback calls |
| AnalyzerBehavior.Analyzer.Verdict | galapagos/behaviors/Analyzer.java:38-65 | with no memory of the opponent, or equal scores (an empty history included), the fallback's answer; otherwise CLEANING iff the cleaning score is strictly greater |
| AnalyzerBehavior.Analyzer.Decide | galapagos/behaviors/Analyzer.java:38-69 | the scoring loop returns the verdict; the fallback is asked exactly once; the returned action is registered as pending; the history is untouched |
| AnalyzerBehavior.Analyzer.Response | galapagos/behaviors/Analyzer.java:32-36 | the reaction is paired with the pending action in the opponent's history, then the same event is forwarded to the fallback |
| AnalyzerBehavior.Analyzer.RegisterAction | galapagos/behaviors/Analyzer.java:67 | the action becomes the pending action for that opponent and nothing else changes |
| AnalyzerBehavior.Analyzer.RegisterReaction | galapagos/behaviors/Analyzer.java:33 | the pair (pending action, reaction) is appended to that opponent's history |
| AnalyzerBehavior.Analyzer.Clone | galapagos/behaviors/Analyzer.java:70-72 | a fresh analyzer with a fallback of the same kind and empty memory; it has the same name and equals the original |
| AnalyzerBehavior.Analyzer.Equals | galapagos/behaviors/Analyzer.java:79-81 | true iff the other object is an analyzer, whatever either remembers |
| AnalyzerBehavior.Analyzer.Name | galapagos/behaviors/Analyzer.java:75-77 | the name is `"Analyzer"` for every analyzer |
| AnalyzerBehavior.DecideThenRespond | galapagos/behaviors/Analyzer.java:32-69 | a decision followed by the reaction appends exactly (returned action, reaction) to the opponent's history |
| Behaviors.Decide | galapagos/biotope/GalapagosFinch.java:30 | the dispatched call returns what the behaviour decides in its current state, with that behaviour's own effect |
| Behaviors.Response | galapagos/biotope/GalapagosFinch.java:76 | the dispatched call has exactly the behaviour's own `response` effect |
| Finches.GalapagosFinch.constructor | galapagos/biotope/GalapagosFinch.java:18-24 | a new finch has age 0 and the given hitpoints, maxima and behaviour |
| Finches.GalapagosFinch.Age | galapagos/biotope/GalapagosFinch.java:61-63 | the finch's current age: 0 when new, one more after each `makeOlder` |
| Finches.GalapagosFinch.Hitpoints | galapagos/biotope/GalapagosFinch.java:68-70 | the finch's current hitpoints, as last set by the constructor or `changeHitpoints` |
| Finches.GalapagosFinch.Status | galapagos/biotope/GalapagosFinch.java:36-40 | DEAD_TICKS iff hitpoints ≤ 0, whatever the age; DEAD_AGE iff hitpoints > 0 and age ≥ maxAge; ALIVE otherwise |
| Finches.GalapagosFinch.ChangeHitpoints | galapagos/biotope/GalapagosFinch.java:45-49 | hitpoints become `min(maxHitpoints, hitpoints + change)`, with no lower clamp, so they never exceed the maximum |
| Finches.GalapagosFinch.MakeOlder | galapagos/biotope/GalapagosFinch.java:54-56 | age goes up by exactly one; nothing else is modified |
| Finches.GalapagosFinch.Decide | galapagos/biotope/GalapagosFinch.java:29-31 | returns exactly what the finch's fixed behaviour decides, with the same effect on it |
| Finches.GalapagosFinch.Response | galapagos/biotope/GalapagosFinch.java:75-77 | forwards the reaction to the behaviour, with exactly its effect |
| Finches.LifecycleScenario | galapagos/tests/GalapagosFinchTest.java:8-34 | finch (5, 10, 2): ALIVE, age 1, then DEAD_AGE; hitpoints stay 5 and clamp to 10; after −10 it is DEAD_TICKS although its age has also run out |
| Creation.CheckStartFinches | galapagos/GalapagosFrame.java:505-515 | true iff `finchesPerBehavior · numberOfBehaviors ≤ width · height`, the world having a place for every initial finch |
| Creation.CheckAge | galapagos/GalapagosFrame.java:517-526 | true iff `minMaxAge ≤ maxMaxAge` |
| Creation.CheckHitpoints | galapagos/GalapagosFrame.java:528-537 | true iff `initialHitpoints ≤ maxHitpoints` |
| Creation.Accepted | galapagos/GalapagosFrame.java:451-452 | a biotope is built iff there is room for every initial finch, the age range is not empty and the initial hitpoints are within the maximum |
| Creation.FewerBehaviorsStillFit | galapagos/GalapagosFrame.java:505-506 | with a non-negative number of finches per behaviour, selecting fewer behaviours never makes the room check fail |
| Creation.Warnings | galapagos/GalapagosFrame.java:451-452 | no warning iff all three checks hold; each check's dialog appears iff that check fails, every failing check being evaluated |
| Creation.WarningExamples | galapagos/GalapagosFrame.java:505-537 | a 1×1 world refuses one finch each of two behaviours but accepts one; settings failing every check show all three dialogs |
| Creation.Dedup | galapagos/GalapagosFrame.java:250-263 | kept behaviours have distinct names; the colour map's keys are exactly those names; every entry's name is a key; every kept behaviour comes from an entry |
| Creation.DedupFirstWins | galapagos/GalapagosFrame.java:258-261 | a name's colour is the colour of the first entry with that name |
| Creation.DedupKeepsFirst | galapagos/GalapagosFrame.java:256-260 | the behaviour kept under a name is the first entry's behaviour with that name; later entries with that name are skipped |
| Creation.SelectedClones | galapagos/GalapagosFrame.java:447-449 | one clone per selected checkbox, each the clone of a selected behaviour |
| Creation.SelectedClonesInOrder | galapagos/GalapagosFrame.java:447-449 | the clone of every selected behaviour is in the list, at the position counting the selected behaviours before it: all selected behaviours are cloned, in list order |
| Creation.AllTicked | galapagos/GalapagosFrame.java:388-390 | the checkboxes all start selected: `n` of them, all ticked |
| Creation.DefaultsAccepted | galapagos/GalapagosFrame.java:344-379 | with the spinners' initial values (100×100 world, 30 finches per behaviour, hitpoints 5 of 10, ages 10 to 20) every check passes exactly when there are at most 333 behaviours |
| Creation.AllSelectedClonesAll | galapagos/GalapagosFrame.java:388-390 | with every checkbox selected, as they start, the list is the clone of every behaviour in list order |
| Creation.Frame.constructor | galapagos/GalapagosFrame.java:46-82 | the frame starts with the deduplicated list and map and a pixel size of 5, then creates a first biotope from the initial spinner values with every behaviour selected: with at most 333 behaviours it holds a clone of every behaviour in list order, otherwise none is created; no behaviour is selected and no finch placed |
| Creation.Frame.CreateDefaultBiotope | galapagos/GalapagosFrame.java:81-82 | the constructor's `createBiotope` call with the initial spinner values and all checkboxes selected, with the outcome stated above |
| Creation.Frame.MakeBehaviorListAndColorMap | galapagos/GalapagosFrame.java:250-263 | Java's loop builds exactly the deduplicated list and map |
| Creation.Frame.ColorByBehavior | galapagos/GalapagosFrame.java:235-243 | the mapped colour when the behaviour's name is a key, and the error case otherwise |
| Creation.Frame.CreateFinchBehaviors | galapagos/GalapagosFrame.java:445-449 | the loop over the checkboxes yields the clones of the selected behaviours, in list order |
| Creation.Frame.CreateBiotope | galapagos/GalapagosFrame.java:435-482 | a new biotope with these settings and clones, and a cleared selection and no placed finches, exactly when no warning is shown; otherwise biotope, selection and placed finches are unchanged |
| Creation.Frame.SelectBehavior | galapagos/GalapagosFrame.java:469-475 | the selection becomes the chosen behaviour of the current biotope |
| Creation.Frame.Placement | galapagos/GalapagosFrame.java:55-70 | a finch is placed iff a behaviour is selected, the pixel is non-negative and its cell is inside the biotope; the cell is the one containing the pixel, and the finch gets a clone of the selected behaviour |
| Creation.Frame.MousePressed | galapagos/GalapagosFrame.java:59-70 | a press or drag makes at most the one `putFinch` call that the placement describes |
| Creation.KeptBehaviorsHaveColors | galapagos/GalapagosFrame.java:235-243 | `colorByBehavior` finds a colour for every behaviour in the frame's list |
| Creation.DrawnClonesHaveColors | galapagos/GalapagosFrame.java:223 | when cloning keeps a behaviour's name, drawing never fails: every finch behaviour given to the biotope and every placed finch's behaviour has a colour |
| Creation.Frame.FinchBehaviorOrigin | galapagos/GalapagosFrame.java:447-449 | every finch behaviour of the biotope is the clone of a listed behaviour |
| Creation.Frame.PutOrigin | galapagos/GalapagosFrame.java:55 | every placed finch carries a clone of the clone of a listed behaviour |

## Left out

- The Swing user interface is not modelled:
  - layout, buttons, spinners, rendering and `update`;
  - the `JOptionPane` dialogs, which appear only as `Warning` values.
- Observers, `addObserver` and `doNotifyObservers` are callback fan-out.
- `breedingProbability` is floating point. It is read by `createBiotope` but is not part of `Settings`.
- `Biotope` itself is not modelled: the round algorithm, `putFinch`, the controller, the logger and the statistics. A created biotope is represented by what `createBiotope` passes to it. A placed finch is represented by the logged `putFinch` call. The cell bound in the mouse handler is taken to be the biotope's configured width and height.
- `AnalyzingBehavior` (`recall`, `registerAction`, `registerReaction`) and `Predictor` are not part of this model. The model makes these assumptions about them:
  - the memory is a map from opponent to its history, plus the pending action per opponent;
  - a reaction with no pending action records nothing;
  - the fallback is a deterministic function of the opponent and of every call made on it so far.
- `Samaritan` and the other behaviours are not part of this model. The finch test's `Samaritan` is replaced by a `Cheater`, which does not affect the lifecycle it checks.
- `Finches.LifecycleScenario`: does not model the finch test's `toString` assertion for the `Samaritan`.
- Opponents are identified by a `FinchId` handle rather than a `Finch` reference.
- Randomness is not modelled. The draws of `Collections.shuffle` are a parameter, so the model proves a permutation for every possible sequence of draws.
- Java `int` overflow is not modelled: `width * height`, `age++` and hitpoint sums use mathematical integers.
- `Torus.World.GetAt`: requires `0 <= x < width` and `0 <= y < height`. With assertions disabled (Java's default), an out-of-range `(x, y)` names the place stored at index `x*height+y` when that index lies in `[0, width*height)`, and throws `IndexOutOfBoundsException` for any other index, negative or past the end; the model does not describe either outcome. Inside the file, callers pass wrapped coordinates.
- `Torus.World.constructor`: requires both dimensions to be non-negative. Java only needs a non-negative product for `new ArrayList(width * height)`. It also builds `World(-1, -1)` and `World(0, -5)`, worlds with no places and a negative dimension. It throws `IllegalArgumentException` when the product is negative, that is, when one dimension is negative and the other positive. The frame's width and height spinners have a minimum of 1 (GalapagosFrame.java:344-345).
- `Torus.World.RandomIterator`: returns a snapshot of the shuffled order. Java returns a live iterator over `shuffledArray`, and `Collections.shuffle` reorders that list in place through `set`, which does not invalidate iterators. A later `randomIterator()` call therefore changes what an earlier, unfinished iterator still yields; the model does not capture that.
- `Torus.World.WrappedX` and `Torus.World.WrappedY`: require a positive width or height. With width 0, Java recurses without end for a negative x and throws `ArithmeticException` at `x % width` otherwise; a negative width is not modelled either. They are only called on a `Place`, and a place exists only when both dimensions are at least 1.
- `Creation.DrawnClonesHaveColors`: assumes that cloning a listed behaviour (once or twice) keeps its name. Java relies on `clone` and `toString` agreeing; the behaviours of this model have constant names.
- `FlipFlopper` has no `clone` or `toString` in the source, so none is modelled.
- `Analyzer.hashCode` is not modelled. Neither are `description` nor the frame's `getNumberOfRounds`/`getTimerInterval` spinner reads.
- `Creation.Frame`: `Behavior.clone` is the pure function `cloneOf`, so two clones of one behaviour are the same value. In Java every `clone` call returns a new object (`new Cheater()`, `new Analyzer()`), so each finch of a biotope and each placed finch gets its own behaviour instance. The frame model does not capture that identity or the absence of sharing; only `AnalyzerBehavior.Analyzer.Clone` states freshness.
- `Creation.Frame.ColorByBehavior`: colours are assumed non-null. Java throws when an entry of the behaviour-to-colour map has a `null` colour, even though its name is a key; the model then returns that colour.
- The spinners themselves are not modelled: the constructor uses their initial values (`Creation.DefaultSettings`), and `Creation.Frame.CreateBiotope` can be called with any settings.
