/** The non-graphical logic of `galapagos/GalapagosFrame.java`: the checks
    that gate the creation of a biotope, the list of behaviours with
    distinct names and their colours, and the placement of a finch where
    the mouse is pressed. The frame is generic over the behaviour type `B`
    and the colour type `C`; `nameOf` stands for `Behavior.toString` and
    `cloneOf` for `Behavior.clone`. */
module Creation {

  import opened Wrappers

  /** `checkStartFinches`: the world has a place for every initial finch. */
  function CheckStartFinches(width: int, height: int, finchesPerBehavior: int, numberOfBehaviors: int): (ok: bool)
    ensures ok <==> finchesPerBehavior * numberOfBehaviors <= width * height
  {
    width * height >= finchesPerBehavior * numberOfBehaviors
  }

  /** `checkAge`: the range of maximal ages is not empty. */
  function CheckAge(minMaxAge: int, maxMaxAge: int): (ok: bool)
    ensures ok <==> minMaxAge <= maxMaxAge
  {
    minMaxAge <= maxMaxAge
  }

  /** `checkHitpoints`: a new finch starts within its maximum. */
  function CheckHitpoints(maxHitpoints: int, initialHitpoints: int): (ok: bool)
    ensures ok <==> initialHitpoints <= maxHitpoints
  {
    initialHitpoints <= maxHitpoints
  }

  /** The warning dialog each failing check shows. */
  datatype Warning = NotEnoughRoom | AgeRangeEmpty | TooManyHitpoints

  /** The integer values read from the creation dialog's spinners. */
  datatype Settings = Settings(
    width: int, height: int,
    maxHitpoints: int, initialHitpoints: int, hitpointsPerRound: int,
    minMaxAge: int, maxMaxAge: int,
    finchesPerBehavior: int)

  /** The condition under which `createBiotope` builds a biotope. */
  function Accepted(s: Settings, numberOfBehaviors: int): (ok: bool)
    ensures ok <==>
      && s.finchesPerBehavior * numberOfBehaviors <= s.width * s.height
      && s.minMaxAge <= s.maxMaxAge
      && s.initialHitpoints <= s.maxHitpoints
  {
    && CheckStartFinches(s.width, s.height, s.finchesPerBehavior, numberOfBehaviors)
    && CheckAge(s.minMaxAge, s.maxMaxAge)
    && CheckHitpoints(s.maxHitpoints, s.initialHitpoints)
  }

  /** Deselecting behaviours never turns enough room into too little: the
      room check only gets easier with fewer behaviours. */
  lemma {:induction false} FewerBehaviorsStillFit(width: int, height: int, finchesPerBehavior: int, n: int, fewer: int)
    requires 0 <= finchesPerBehavior && fewer <= n
    requires CheckStartFinches(width, height, finchesPerBehavior, n)
    ensures CheckStartFinches(width, height, finchesPerBehavior, fewer)
  {
    assert finchesPerBehavior * fewer <= finchesPerBehavior * n by {
      assert finchesPerBehavior * n - finchesPerBehavior * fewer == finchesPerBehavior * (n - fewer);
    }
  }

  /** The dialogs shown by one `createBiotope`, in order. The checks are
      joined with the non-short-circuit `&`, so every failing check shows
      its dialog, not only the first. */
  function Warnings(s: Settings, numberOfBehaviors: int): (w: seq<Warning>)
    ensures w == [] <==> Accepted(s, numberOfBehaviors)
    ensures NotEnoughRoom in w <==> !CheckStartFinches(s.width, s.height, s.finchesPerBehavior, numberOfBehaviors)
    ensures AgeRangeEmpty in w <==> !CheckAge(s.minMaxAge, s.maxMaxAge)
    ensures TooManyHitpoints in w <==> !CheckHitpoints(s.maxHitpoints, s.initialHitpoints)
    ensures |w| <= 3
  {
    (if CheckStartFinches(s.width, s.height, s.finchesPerBehavior, numberOfBehaviors) then [] else [NotEnoughRoom])
    + (if CheckAge(s.minMaxAge, s.maxMaxAge) then [] else [AgeRangeEmpty])
    + (if CheckHitpoints(s.maxHitpoints, s.initialHitpoints) then [] else [TooManyHitpoints])
  }

  /** A 1 x 1 world has no room for one finch of each of two behaviours,
      and settings that fail every check show all three dialogs. */
  lemma WarningExamples()
    ensures Warnings(Settings(1, 1, 10, 5, 1, 3, 5, 1), 2) == [NotEnoughRoom]
    ensures Warnings(Settings(1, 1, 10, 5, 1, 3, 5, 1), 1) == []
    ensures Warnings(Settings(2, 2, 4, 5, 1, 6, 5, 3), 2) == [NotEnoughRoom, AgeRangeEmpty, TooManyHitpoints]
  {
  }

  /** What `createBiotope` hands to the new biotope (the biotope itself is
      not part of this model). */
  datatype BiotopeSetup<B> = BiotopeSetup(settings: Settings, finchBehaviors: seq<B>)

  /** A call of `biotope.putFinch(x, y, behavior)`. */
  datatype Put<B> = Put(x: int, y: int, behavior: B)

  /** Behaviours with pairwise distinct names, and a colour map whose keys
      are exactly those names. */
  ghost predicate Catalogue<B, C>(kept: seq<B>, colors: map<string, C>, nameOf: B -> string)
  {
    && (forall i, j :: 0 <= i < j < |kept| ==> nameOf(kept[i]) != nameOf(kept[j]))
    && (forall i :: 0 <= i < |kept| ==> nameOf(kept[i]) in colors)
    && (forall k :: k in colors ==> exists i :: 0 <= i < |kept| && nameOf(kept[i]) == k)
  }

  /** The behaviour list and colour map built from the entries of the
      behaviour-to-colour map, in iteration order: an entry is kept only if
      no earlier entry had the same name. */
  function Dedup<B, C>(entries: seq<(B, C)>, nameOf: B -> string): (r: (seq<B>, map<string, C>))
    ensures Catalogue(r.0, r.1, nameOf)
    ensures forall j :: 0 <= j < |entries| ==> nameOf(entries[j].0) in r.1
    ensures forall i :: 0 <= i < |r.0| ==> exists j :: 0 <= j < |entries| && entries[j].0 == r.0[i]
    ensures |r.0| <= |entries|
  {
    if |entries| == 0 then ([], map[])
    else
      var prefix := entries[..|entries| - 1];
      var prev := Dedup(prefix, nameOf);
      var entry := entries[|entries| - 1];
      assert forall j :: 0 <= j < |prefix| ==> prefix[j] == entries[j];
      if nameOf(entry.0) in prev.1 then prev
      else
        AppendToCatalogue(prev.0, prev.1, nameOf, entry.0, entry.1);
        (prev.0 + [entry.0], prev.1[nameOf(entry.0) := entry.1])
  }

  /** A behaviour with a new name extends a catalogue. */
  lemma AppendToCatalogue<B, C>(kept: seq<B>, colors: map<string, C>, nameOf: B -> string, b: B, c: C)
    requires Catalogue(kept, colors, nameOf) && nameOf(b) !in colors
    ensures Catalogue(kept + [b], colors[nameOf(b) := c], nameOf)
  {
    var kept' := kept + [b];
    assert forall i :: 0 <= i < |kept| ==> kept'[i] == kept[i];
    assert kept'[|kept|] == b;
  }

  /** The colour of a name is the colour of the first entry with that name. */
  lemma {:induction false} DedupFirstWins<B, C>(entries: seq<(B, C)>, nameOf: B -> string, j: int)
    requires 0 <= j < |entries|
    requires forall i :: 0 <= i < j ==> nameOf(entries[i].0) != nameOf(entries[j].0)
    ensures Dedup(entries, nameOf).1[nameOf(entries[j].0)] == entries[j].1
    decreases |entries|
  {
    var prefix := entries[..|entries| - 1];
    if j < |entries| - 1 {
      assert prefix[j] == entries[j];
      assert forall i :: 0 <= i < j ==> prefix[i] == entries[i];
      DedupFirstWins(prefix, nameOf, j);
    } else {
      var prev := Dedup(prefix, nameOf);
      if nameOf(entries[j].0) in prev.1 {
        assert false;
      }
    }
  }

  /** The behaviour kept under a name is the first entry with that name:
      a later entry is added only if its name is still absent. */
  lemma {:induction false} DedupKeepsFirst<B, C>(entries: seq<(B, C)>, nameOf: B -> string, j: int, i: int)
    requires 0 <= j < |entries|
    requires forall i :: 0 <= i < j ==> nameOf(entries[i].0) != nameOf(entries[j].0)
    requires 0 <= i < |Dedup(entries, nameOf).0| && nameOf(Dedup(entries, nameOf).0[i]) == nameOf(entries[j].0)
    ensures Dedup(entries, nameOf).0[i] == entries[j].0
    decreases |entries|
  {
    var prefix := entries[..|entries| - 1];
    var last := entries[|entries| - 1];
    var prev := Dedup(prefix, nameOf);
    var name := nameOf(entries[j].0);
    if j == |entries| - 1 {
      if name in prev.1 {
        NameInDedupComesEarlier(prefix, nameOf, name);
        assert false;
      }
      assert Dedup(entries, nameOf).0 == prev.0 + [last.0];
    } else {
      assert prefix[j] == entries[j];
      assert name in prev.1;
      if nameOf(last.0) !in prev.1 {
        assert Dedup(entries, nameOf).0 == prev.0 + [last.0];
        assert i < |prev.0|;
      }
      assert Dedup(entries, nameOf).0[i] == prev.0[i];
      DedupKeepsFirstInPrefix(entries, nameOf, j, i);
    }
  }

  /** The recursive step of `DedupKeepsFirst`: the entry and the kept
      behaviour both lie in the prefix without the last entry. */
  lemma {:induction false} DedupKeepsFirstInPrefix<B, C>(entries: seq<(B, C)>, nameOf: B -> string, j: int, i: int)
    requires 0 <= j < |entries| - 1
    requires forall i :: 0 <= i < j ==> nameOf(entries[i].0) != nameOf(entries[j].0)
    requires 0 <= i < |Dedup(entries[..|entries| - 1], nameOf).0|
    requires nameOf(Dedup(entries[..|entries| - 1], nameOf).0[i]) == nameOf(entries[j].0)
    ensures Dedup(entries[..|entries| - 1], nameOf).0[i] == entries[j].0
    decreases |entries|, 0
  {
    var prefix := entries[..|entries| - 1];
    assert prefix[j] == entries[j];
    assert forall k :: 0 <= k < j ==> prefix[k] == entries[k];
    DedupKeepsFirst(prefix, nameOf, j, i);
  }

  /** A name that is a key of the colour map belongs to some entry. */
  lemma {:induction false} NameInDedupComesEarlier<B, C>(entries: seq<(B, C)>, nameOf: B -> string, name: string)
    requires name in Dedup(entries, nameOf).1
    ensures exists k :: 0 <= k < |entries| && nameOf(entries[k].0) == name
  {
    var kept := Dedup(entries, nameOf).0;
    var i :| 0 <= i < |kept| && nameOf(kept[i]) == name;
    var k :| 0 <= k < |entries| && entries[k].0 == kept[i];
  }

  /** Clones of the behaviours whose checkbox is selected, in list order. */
  function SelectedClones<B>(behaviors: seq<B>, selected: seq<bool>, cloneOf: B -> B): (r: seq<B>)
    requires |selected| == |behaviors|
    ensures |r| == multiset(selected)[true]
    ensures forall k :: 0 <= k < |r| ==> exists i :: 0 <= i < |behaviors| && selected[i] && r[k] == cloneOf(behaviors[i])
  {
    if |behaviors| == 0 then []
    else
      var n := |behaviors| - 1;
      assert selected == selected[..n] + [selected[n]];
      var prev := SelectedClones(behaviors[..n], selected[..n], cloneOf);
      if selected[n] then prev + [cloneOf(behaviors[n])] else prev
  }

  /** The clone of the `i`th behaviour, if selected, sits at the position
      given by the number of selected behaviours before it: together with
      the length, every selected behaviour is cloned once, in list order. */
  lemma {:induction false} SelectedClonesInOrder<B>(behaviors: seq<B>, selected: seq<bool>, cloneOf: B -> B, i: int)
    requires |selected| == |behaviors| && 0 <= i < |behaviors| && selected[i]
    ensures multiset(selected[..i])[true] < |SelectedClones(behaviors, selected, cloneOf)|
    ensures SelectedClones(behaviors, selected, cloneOf)[multiset(selected[..i])[true]] == cloneOf(behaviors[i])
  {
    var n := |behaviors| - 1;
    var prev := SelectedClones(behaviors[..n], selected[..n], cloneOf);
    var r := SelectedClones(behaviors, selected, cloneOf);
    assert selected == selected[..n] + [selected[n]];
    if i == n {
      assert r == prev + [cloneOf(behaviors[n])];
    } else {
      assert selected[..n][..i] == selected[..i];
      SelectedClonesInOrder(behaviors[..n], selected[..n], cloneOf, i);
      assert r[..|prev|] == prev;
    }
  }

  /** `n` ticked checkboxes, as the creation dialog starts. */
  function AllTicked(n: nat): (selected: seq<bool>)
    ensures |selected| == n && multiset(selected)[true] == n
    ensures forall i :: 0 <= i < n ==> selected[i]
  {
    if n == 0 then [] else AllTicked(n - 1) + [true]
  }

  /** The values the creation dialog's spinners start with. */
  const DefaultSettings := Settings(100, 100, 10, 5, 3, 10, 20, 30)

  /** The default settings are accepted exactly when a 100 x 100 world has
      room for 30 finches of every behaviour. */
  lemma DefaultsAccepted(numberOfBehaviors: int)
    ensures Accepted(DefaultSettings, numberOfBehaviors) <==> numberOfBehaviors <= 333
    ensures Warnings(DefaultSettings, numberOfBehaviors) == [] <==> numberOfBehaviors <= 333
  {
  }

  /** With every checkbox selected, as when the dialog opens, every
      behaviour is cloned in list order. */
  lemma {:induction false} AllSelectedClonesAll<B>(behaviors: seq<B>, selected: seq<bool>, cloneOf: B -> B)
    requires |selected| == |behaviors|
    requires forall i :: 0 <= i < |selected| ==> selected[i]
    ensures SelectedClones(behaviors, selected, cloneOf) == seq(|behaviors|, i requires 0 <= i < |behaviors| => cloneOf(behaviors[i]))
  {
    if |behaviors| > 0 {
      var n := |behaviors| - 1;
      AllSelectedClonesAll(behaviors[..n], selected[..n], cloneOf);
    }
  }

  /** Every element of `bs` is the clone of a behaviour in the list. */
  ghost predicate Cloned<B>(bs: seq<B>, behaviors: seq<B>, cloneOf: B -> B)
  {
    forall k :: 0 <= k < |bs| ==> exists j :: 0 <= j < |behaviors| && bs[k] == cloneOf(behaviors[j])
  }

  /** Every put finch carries a clone of the clone of a behaviour in the list. */
  ghost predicate Placed<B>(ps: seq<Put<B>>, behaviors: seq<B>, cloneOf: B -> B)
  {
    forall k :: 0 <= k < |ps| ==> exists j :: 0 <= j < |behaviors| && ps[k].behavior == cloneOf(cloneOf(behaviors[j]))
  }

  class Frame<B, C> {
    const nameOf: B -> string
    const cloneOf: B -> B
    const pixelSize: int
    var behaviors: seq<B>
    var colorMap: map<string, C>
    /** The biotope last created, if any. */
    var biotope: Option<BiotopeSetup<B>>
    var selectedBehavior: Option<B>
    /** The `putFinch` calls the mouse handler made on the current biotope;
        a new biotope starts with none. */
    var puts: seq<Put<B>>

    ghost predicate Valid()
      reads this
    {
      && pixelSize == 5
      && Catalogue(behaviors, colorMap, nameOf)
      && (selectedBehavior.Some? ==> biotope.Some? && selectedBehavior.value in biotope.value.finchBehaviors)
      && (biotope.Some? ==> Cloned(biotope.value.finchBehaviors, behaviors, cloneOf))
      && Placed(puts, behaviors, cloneOf)
    }

    /** The listed behaviour whose clone the `k`th finch behaviour is. */
    lemma FinchBehaviorOrigin(k: int) returns (j: int)
      requires Valid() && biotope.Some? && 0 <= k < |biotope.value.finchBehaviors|
      ensures 0 <= j < |behaviors| && biotope.value.finchBehaviors[k] == cloneOf(behaviors[j])
    {
      var bs := biotope.value.finchBehaviors;
      assert Cloned(bs, behaviors, cloneOf);
      j :| 0 <= j < |behaviors| && bs[k] == cloneOf(behaviors[j]);
    }

    /** The listed behaviour whose clone's clone the `k`th placed finch carries. */
    lemma PutOrigin(k: int) returns (j: int)
      requires Valid() && 0 <= k < |puts|
      ensures 0 <= j < |behaviors| && puts[k].behavior == cloneOf(cloneOf(behaviors[j]))
    {
      assert Placed(puts, behaviors, cloneOf);
      j :| 0 <= j < |behaviors| && puts[k].behavior == cloneOf(cloneOf(behaviors[j]));
    }

    /** The frame builds its behaviour list and colour map, then creates a
        first biotope from the dialog's default settings with every
        behaviour selected; that succeeds unless there are more than 333
        behaviours. */
    constructor (entries: seq<(B, C)>, nameOf: B -> string, cloneOf: B -> B)
      ensures Valid()
      ensures this.nameOf == nameOf && this.cloneOf == cloneOf
      ensures (behaviors, colorMap) == Dedup(entries, nameOf)
      ensures |behaviors| <= 333 ==>
        && biotope.Some? && biotope.value.settings == DefaultSettings
        && |biotope.value.finchBehaviors| == |behaviors|
        && forall i :: 0 <= i < |behaviors| ==> biotope.value.finchBehaviors[i] == cloneOf(behaviors[i])
      ensures |behaviors| > 333 ==> biotope == None
      ensures selectedBehavior == None && puts == []
    {
      this.nameOf := nameOf;
      this.cloneOf := cloneOf;
      pixelSize := 5;
      biotope := None;
      selectedBehavior := None;
      puts := [];
      new;
      MakeBehaviorListAndColorMap(entries);
      CreateDefaultBiotope();
    }

    /** The constructor's final `createBiotope` call, with the spinners'
        initial values and every checkbox selected. */
    method CreateDefaultBiotope()
      requires Valid() && biotope == None && selectedBehavior == None && puts == []
      modifies this`biotope, this`selectedBehavior, this`puts
      ensures Valid() && selectedBehavior == None && puts == []
      ensures |behaviors| <= 333 ==>
        && biotope.Some? && biotope.value.settings == DefaultSettings
        && |biotope.value.finchBehaviors| == |behaviors|
        && forall i :: 0 <= i < |behaviors| ==> biotope.value.finchBehaviors[i] == cloneOf(behaviors[i])
      ensures |behaviors| > 333 ==> biotope == None
    {
      var all := AllTicked(|behaviors|);
      var warnings := CreateBiotope(DefaultSettings, all);
      DefaultsAccepted(|behaviors|);
      if |behaviors| <= 333 {
        AllSelectedClonesAll(behaviors, all, cloneOf);
      }
    }

    /** `makeBehaviorListAndColorMap`: Java's loop over the entries. */
    method MakeBehaviorListAndColorMap(entries: seq<(B, C)>)
      modifies this`behaviors, this`colorMap
      ensures (behaviors, colorMap) == Dedup(entries, nameOf)
    {
      behaviors := [];
      colorMap := map[];
      for k := 0 to |entries|
        invariant (behaviors, colorMap) == Dedup(entries[..k], nameOf)
      {
        assert entries[..k + 1][..k] == entries[..k];
        var current := entries[k].0;
        if nameOf(current) !in colorMap {
          behaviors := behaviors + [current];
          colorMap := colorMap[nameOf(current) := entries[k].1];
        }
      }
      assert entries[..|entries|] == entries;
    }

    /** `colorByBehavior`: the colour mapped to the behaviour's name;
        `None` where Java throws an `Error`. */
    function ColorByBehavior(b: B): (c: Option<C>)
      reads this
      ensures c.Some? <==> nameOf(b) in colorMap
      ensures c.Some? ==> c.value == colorMap[nameOf(b)]
    {
      if nameOf(b) in colorMap then Some(colorMap[nameOf(b)]) else None
    }

    /** The finch behaviours `createBiotope` collects: Java's loop over the
        checkboxes, one per behaviour. */
    method CreateFinchBehaviors(selected: seq<bool>) returns (finchBehaviors: seq<B>)
      requires |selected| == |behaviors|
      ensures finchBehaviors == SelectedClones(behaviors, selected, cloneOf)
    {
      finchBehaviors := [];
      for i := 0 to |behaviors|
        invariant finchBehaviors == SelectedClones(behaviors[..i], selected[..i], cloneOf)
      {
        assert behaviors[..i + 1][..i] == behaviors[..i];
        assert selected[..i + 1][..i] == selected[..i];
        if selected[i] {
          finchBehaviors := finchBehaviors + [cloneOf(behaviors[i])];
        }
      }
      assert behaviors[..|behaviors|] == behaviors;
      assert selected[..|selected|] == selected;
    }

    /** `createBiotope`: the biotope is replaced, and the selection
        cleared, exactly when all three checks hold. */
    method CreateBiotope(s: Settings, selected: seq<bool>) returns (warnings: seq<Warning>)
      requires Valid() && |selected| == |behaviors|
      modifies this`biotope, this`selectedBehavior, this`puts
      ensures Valid()
      ensures warnings == Warnings(s, multiset(selected)[true])
      ensures warnings == [] ==>
        biotope == Some(BiotopeSetup(s, SelectedClones(behaviors, selected, cloneOf))) && selectedBehavior == None && puts == []
      ensures warnings != [] ==> biotope == old(biotope) && selectedBehavior == old(selectedBehavior) && puts == old(puts)
    {
      var finchBehaviors := CreateFinchBehaviors(selected);
      warnings := Warnings(s, |finchBehaviors|);
      if warnings == [] {
        biotope := Some(BiotopeSetup(s, finchBehaviors));
        selectedBehavior := None;
        puts := [];
      }
    }

    /** The radio button of the `i`th finch behaviour of the current biotope. */
    method SelectBehavior(i: int)
      requires Valid() && biotope.Some? && 0 <= i < |biotope.value.finchBehaviors|
      modifies this`selectedBehavior
      ensures Valid()
      ensures selectedBehavior == Some(biotope.value.finchBehaviors[i])
    {
      selectedBehavior := Some(biotope.value.finchBehaviors[i]);
    }

    /** Where a press or drag at pixel `(ex, ey)` puts a finch, if anywhere:
        only with a behaviour selected, only at non-negative pixels, and
        only in a cell inside the biotope. */
    function Placement(ex: int, ey: int): (r: Option<Put<B>>)
      reads this
      requires Valid()
      ensures r.Some? <==>
        && 0 <= ex && 0 <= ey && selectedBehavior.Some?
        && ex / pixelSize < biotope.value.settings.width && ey / pixelSize < biotope.value.settings.height
      ensures r.Some? ==>
        && r.value.x * pixelSize <= ex < (r.value.x + 1) * pixelSize
        && r.value.y * pixelSize <= ey < (r.value.y + 1) * pixelSize
        && 0 <= r.value.x < biotope.value.settings.width
        && 0 <= r.value.y < biotope.value.settings.height
        && r.value.behavior == cloneOf(selectedBehavior.value)
    {
      if 0 <= ex && 0 <= ey && selectedBehavior.Some? then
        var x := ex / pixelSize;
        var y := ey / pixelSize;
        if x < biotope.value.settings.width && y < biotope.value.settings.height then
          Some(Put(x, y, cloneOf(selectedBehavior.value)))
        else None
      else None
    }

    /** `mousePressed` / `mouseDragged`: at most one `putFinch`, as placed. */
    method MousePressed(ex: int, ey: int)
      requires Valid()
      modifies this`puts
      ensures Valid()
      ensures puts == old(puts) + (if Placement(ex, ey).Some? then [Placement(ex, ey).value] else [])
    {
      if ex >= 0 && ey >= 0 && selectedBehavior.Some? {
        var x := ex / pixelSize;
        var y := ey / pixelSize;
        if x < biotope.value.settings.width && y < biotope.value.settings.height {
          ghost var k :| 0 <= k < |biotope.value.finchBehaviors| && biotope.value.finchBehaviors[k] == selectedBehavior.value;
          ghost var j :| 0 <= j < |behaviors| && biotope.value.finchBehaviors[k] == cloneOf(behaviors[j]);
          puts := puts + [Put(x, y, cloneOf(selectedBehavior.value))];
          assert puts[|puts| - 1].behavior == cloneOf(cloneOf(behaviors[j]));
        }
      }
    }
  }

  /** Every behaviour in the frame's list has a colour, so drawing a finch
      whose behaviour is one of them never fails. */
  lemma KeptBehaviorsHaveColors<B, C>(f: Frame<B, C>, b: B)
    requires f.Valid() && b in f.behaviors
    ensures f.ColorByBehavior(b).Some?
  {
  }

  /** Finches carry clones, not the listed behaviours themselves (a biotope
      gets clones, and `putFinch` a clone of such a clone). As long as
      cloning keeps a behaviour's name (true of every behaviour in this
      model: their names are constants), every finch behaviour handed to a
      biotope and every finch placed by the mouse has a colour. */
  lemma DrawnClonesHaveColors<B, C>(f: Frame<B, C>)
    requires f.Valid()
    requires forall j :: 0 <= j < |f.behaviors| ==> f.nameOf(f.cloneOf(f.behaviors[j])) == f.nameOf(f.behaviors[j])
    requires forall j :: 0 <= j < |f.behaviors| ==> f.nameOf(f.cloneOf(f.cloneOf(f.behaviors[j]))) == f.nameOf(f.behaviors[j])
    ensures f.biotope.Some? ==>
      forall k :: 0 <= k < |f.biotope.value.finchBehaviors| ==> f.ColorByBehavior(f.biotope.value.finchBehaviors[k]).Some?
    ensures forall k :: 0 <= k < |f.puts| ==> f.ColorByBehavior(f.puts[k].behavior).Some?
  {
    if f.biotope.Some? {
      forall k | 0 <= k < |f.biotope.value.finchBehaviors|
        ensures f.ColorByBehavior(f.biotope.value.finchBehaviors[k]).Some?
      {
        var j := f.FinchBehaviorOrigin(k);
        assert f.nameOf(f.behaviors[j]) in f.colorMap;
      }
    }
    forall k | 0 <= k < |f.puts|
      ensures f.ColorByBehavior(f.puts[k].behavior).Some?
    {
      var j := f.PutOrigin(k);
      assert f.nameOf(f.behaviors[j]) in f.colorMap;
    }
  }
}
