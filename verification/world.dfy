/** The torus world of `galapagos/World.java`: a fixed `width * height` grid of
    places, each holding at most one element, whose neighbourhoods wrap around
    the edges. */
module Torus {

  import opened Wrappers

  /** A position in the world. Its coordinates never change; its element is
      `None` when the place is empty (the Java code uses `null`). */
  class Place<T> {
    const xPosition: int
    const yPosition: int
    var element: Option<T>

    constructor (x: int, y: int)
      ensures xPosition == x && yPosition == y && element == None
    {
      xPosition, yPosition := x, y;
      element := None;
    }

    /** The element at the place; `None` where Java returns `null`. */
    function GetElement(): (e: Option<T>)
      reads this
      ensures e == element
    {
      element
    }

    method SetElement(e: Option<T>)
      modifies this
      ensures element == e && GetElement() == e
    {
      element := e;
    }
  }

  /** `draw(i)` is the number `Random.nextInt(i)` hands to one shuffle when
      it asks for a position below `i`. */
  ghost predicate ValidDraws(draw: nat -> nat)
  {
    forall i: nat :: 0 < i ==> draw(i) < i
  }

  /** `Collections.shuffle`: from the last position down to the second, swap
      the element there with one at a drawn position at or before it. The
      random draws are a parameter; any draws give a permutation. */
  method Shuffle<X>(s: seq<X>, draw: nat -> nat) returns (r: seq<X>)
    requires ValidDraws(draw)
    ensures |r| == |s| && multiset(r) == multiset(s)
  {
    r := s;
    var i := |r|;
    while i > 1
      invariant 0 <= i <= |s| == |r|
      invariant multiset(r) == multiset(s)
    {
      var j := draw(i);
      r := r[i - 1 := r[j]][j := r[i - 1]];
      i := i - 1;
    }
  }

  /** The places of `s`, in order, that are not `self` and are occupied
      (`filled`) or empty (`!filled`): the filter in the neighbour loops. */
  function Select<T>(s: seq<Place<T>>, self: Place<T>, filled: bool): (r: seq<Place<T>>)
    reads s
    ensures |r| <= |s|
    ensures forall q :: q in r ==> q in s && q != self && q.element.Some? == filled
  {
    if s == [] then []
    else
      var last := s[|s| - 1];
      Select(s[..|s| - 1], self, filled) + if last != self && last.element.Some? == filled then [last] else []
  }

  /** The elements of `s`, in order, other than `self`. */
  function Others<X(==)>(s: seq<X>, self: X): (r: seq<X>)
    ensures forall q :: q in r ==> q in s && q != self
    ensures forall q :: q in s && q != self ==> q in r
  {
    if s == [] then []
    else Others(s[..|s| - 1], self) + if s[|s| - 1] != self then [s[|s| - 1]] else []
  }

  ghost predicate Distinct<X>(s: seq<X>)
  {
    forall i, j :: 0 <= i < j < |s| ==> s[i] != s[j]
  }

  /** Whatever the occupancy, the occupied and the empty selections together
      are exactly the places of `s` other than `self`. */
  lemma {:induction false} SelectPartition<T>(s: seq<Place<T>>, self: Place<T>)
    ensures multiset(Select(s, self, true)) + multiset(Select(s, self, false)) == multiset(Others(s, self))
  {
    if s != [] {
      SelectPartition(s[..|s| - 1], self);
    }
  }

  /** Extending the list by one place extends the selection by that place
      exactly when the filter keeps it. */
  lemma SelectStep<T>(s: seq<Place<T>>, k: int, self: Place<T>, filled: bool)
    requires 0 <= k < |s|
    ensures Select(s[..k + 1], self, filled) ==
      Select(s[..k], self, filled) + if s[k] != self && s[k].element.Some? == filled then [s[k]] else []
  {
    assert s[..k + 1][..k] == s[..k];
  }

  lemma {:induction false} OthersAbsent<X>(s: seq<X>, self: X)
    requires self !in s
    ensures Others(s, self) == s
  {
    if s != [] {
      OthersAbsent(s[..|s| - 1], self);
      assert s[..|s| - 1] + [s[|s| - 1]] == s;
    }
  }

  /** Removing a value that occurs once from a sequence without repetitions
      shortens it by one. */
  lemma {:induction false} OthersOfDistinct<X>(s: seq<X>, self: X)
    requires Distinct(s) && self in s
    ensures |Others(s, self)| == |s| - 1
  {
    var n := |s|;
    if s[n - 1] == self {
      assert self !in s[..n - 1];
      OthersAbsent(s[..n - 1], self);
    } else {
      assert self in s[..n - 1];
      OthersOfDistinct(s[..n - 1], self);
    }
  }

  class World<T> {
    const width: int
    const height: int
    /** Every place, in storage order (`array` in the Java code). */
    const places: seq<Place<T>>
    /** The same places in the order of the last random iteration (`shuffledArray`). */
    var shuffled: seq<Place<T>>

    /** Storage is x-major: place `(x, y)` sits at index `x * height + y`. */
    function Index(x: int, y: int): int
    {
      x * height + y
    }

    predicate InRange(x: int, y: int)
    {
      0 <= x < width && 0 <= y < height
    }

    /** One place per coordinate pair, stored at its index. */
    ghost predicate Layout()
    {
      && 0 <= width && 0 <= height
      && |places| == width * height
      && forall i :: 0 <= i < |places| ==>
           InRange(places[i].xPosition, places[i].yPosition) &&
           Index(places[i].xPosition, places[i].yPosition) == i
    }

    ghost predicate Valid()
      reads this
    {
      Layout() && multiset(shuffled) == multiset(places)
    }

    constructor (worldWidth: int, worldHeight: int)
      requires 0 <= worldWidth && 0 <= worldHeight
      ensures width == worldWidth && height == worldHeight
      ensures Valid() && shuffled == places
      ensures forall q :: q in places ==> fresh(q) && q.element == None
    {
      width, height := worldWidth, worldHeight;
      var ps: seq<Place<T>> := [];
      var x := 0;
      while x < worldWidth
        invariant 0 <= x <= worldWidth
        invariant |ps| == x * worldHeight
        invariant forall i :: 0 <= i < |ps| ==>
          && fresh(ps[i]) && ps[i].element == None
          && 0 <= ps[i].xPosition < x && 0 <= ps[i].yPosition < worldHeight
          && ps[i].xPosition * worldHeight + ps[i].yPosition == i
      {
        var y := 0;
        while y < worldHeight
          invariant 0 <= y <= worldHeight
          invariant |ps| == x * worldHeight + y
          invariant forall i :: 0 <= i < |ps| ==>
            && fresh(ps[i]) && ps[i].element == None
            && 0 <= ps[i].xPosition <= x && 0 <= ps[i].yPosition < worldHeight
            && ps[i].xPosition * worldHeight + ps[i].yPosition == i
        {
          var p := new Place(x, y);
          ps := ps + [p];
          y := y + 1;
        }
        assert |ps| == (x + 1) * worldHeight;
        x := x + 1;
      }
      places := ps;
      shuffled := ps;
    }

    lemma IndexBounds(x: int, y: int)
      requires 0 <= height && InRange(x, y)
      ensures 0 <= Index(x, y) < width * height
    {
      MulMonotone(0, x, height);
      MulMonotone(x + 1, width, height);
    }

    lemma IndexInjective(x: int, y: int, x': int, y': int)
      requires 0 <= height && InRange(x, y) && InRange(x', y')
      requires Index(x, y) == Index(x', y')
      ensures x == x' && y == y'
    {
      if x < x' {
        MulMonotone(x + 1, x', height);
      } else if x' < x {
        MulMonotone(x' + 1, x, height);
      }
    }

    lemma PlaceInRange(p: Place<T>)
      requires Layout() && p in places
      ensures InRange(p.xPosition, p.yPosition) && width > 0 && height > 0
    {
      var i :| 0 <= i < |places| && places[i] == p;
    }

    /** `getAt`: the place stored at `x * height + y` carries the coordinates `(x, y)`. */
    function GetAt(x: int, y: int): (p: Place<T>)
      requires Layout() && InRange(x, y)
      ensures 0 <= Index(x, y) < |places| && p == places[Index(x, y)]
      ensures p.xPosition == x && p.yPosition == y
    {
      IndexBounds(x, y);
      var i := Index(x, y);
      IndexInjective(places[i].xPosition, places[i].yPosition, x, y);
      places[i]
    }

    /** `setAt`: stores `value` in the place at `(x, y)` and in no other place. */
    method SetAt(x: int, y: int, value: Option<T>)
      requires Layout() && InRange(x, y)
      modifies GetAt(x, y)
      ensures GetAt(x, y).element == value
      ensures forall q :: q in places && q != GetAt(x, y) ==> q.element == old(q.element)
    {
      GetAt(x, y).element := value;
    }

    /** `wrappedX`: an x coordinate wrapped into `[0, width)`. */
    function WrappedX(x: int): (r: int)
      requires width > 0
      ensures 0 <= r < width
      decreases if x < 0 then -x else 0
    {
      if x < 0 then WrappedX(width + x) else x % width
    }

    /** `wrappedY`: a y coordinate wrapped into `[0, height)`. */
    function WrappedY(y: int): (r: int)
      requires height > 0
      ensures 0 <= r < height
      decreases if y < 0 then -y else 0
    {
      if y < 0 then WrappedY(height + y) else y % height
    }

    /** The recursive wrap is the Euclidean remainder, so the wrapped x
        coordinate is congruent to the original one modulo the width. */
    lemma {:induction false} WrappedXIsRemainder(x: int)
      requires width > 0
      ensures WrappedX(x) == x % width
      decreases if x < 0 then -x else 0
    {
      if x < 0 {
        ModShift(x, width);
        WrappedXIsRemainder(width + x);
      }
    }

    /** Likewise for y, modulo the height. */
    lemma {:induction false} WrappedYIsRemainder(y: int)
      requires height > 0
      ensures WrappedY(y) == y % height
      decreases if y < 0 then -y else 0
    {
      if y < 0 {
        ModShift(y, height);
        WrappedYIsRemainder(height + y);
      }
    }

    /** One step off either edge lands on the opposite edge. */
    lemma WrapEdges()
      requires width > 0 && height > 0
      ensures WrappedX(-1) == width - 1 && WrappedX(width) == 0
      ensures WrappedY(-1) == height - 1 && WrappedY(height) == 0
    {
      ModUnique(width - 1, width, 0, width - 1);
      ModUnique(width, width, 1, 0);
      ModUnique(height - 1, height, 0, height - 1);
      ModUnique(height, height, 1, 0);
    }

    /** The nine places the neighbour loops visit, in loop order: x offset
        outer, y offset inner, both from -1 to +1. */
    function Neighbourhood(p: Place<T>): (ring: seq<Place<T>>)
      requires Layout() && p in places
      ensures |ring| == 9
      ensures forall k :: 0 <= k < 9 ==> ring[k] in places
    {
      PlaceInRange(p);
      seq(9, k requires 0 <= k < 9 =>
        GetAt(WrappedX(p.xPosition - 1 + k / 3), WrappedY(p.yPosition - 1 + k % 3)))
    }

    /** The common loop of `filledNeighbours` and `emptyNeighbours`, before the shuffle. */
    method CollectNeighbours(p: Place<T>, filled: bool) returns (list: seq<Place<T>>)
      requires Layout() && p in places
      ensures list == Select(Neighbourhood(p), p, filled)
    {
      PlaceInRange(p);
      list := [];
      var x := p.xPosition - 1;
      while x <= p.xPosition + 1
        invariant p.xPosition - 1 <= x <= p.xPosition + 2
        invariant list == Select(Neighbourhood(p)[..3 * (x - p.xPosition + 1)], p, filled)
      {
        var y := p.yPosition - 1;
        while y <= p.yPosition + 1
          invariant p.yPosition - 1 <= y <= p.yPosition + 2
          invariant list == Select(Neighbourhood(p)[..3 * (x - p.xPosition + 1) + (y - p.yPosition + 1)], p, filled)
        {
          var q := GetAt(WrappedX(x), WrappedY(y));
          CollectStep(p, x, y, filled);
          if q != p && q.element.Some? == filled {
            list := list + [q];
          }
          y := y + 1;
        }
        x := x + 1;
      }
      assert Neighbourhood(p)[..9] == Neighbourhood(p);
    }

    /** One step of the neighbour loops: visiting `(x, y)` extends the
        selection over the neighbourhood by the place there, if it passes. */
    lemma CollectStep(p: Place<T>, x: int, y: int, filled: bool)
      requires Layout() && p in places
      requires p.xPosition - 1 <= x <= p.xPosition + 1 && p.yPosition - 1 <= y <= p.yPosition + 1
      ensures width > 0 && height > 0
      ensures
        var k := 3 * (x - p.xPosition + 1) + (y - p.yPosition + 1);
        var q := GetAt(WrappedX(x), WrappedY(y));
        Select(Neighbourhood(p)[..k + 1], p, filled) ==
          Select(Neighbourhood(p)[..k], p, filled) + if q != p && q.element.Some? == filled then [q] else []
    {
      PlaceInRange(p);
      var a, b := x - p.xPosition + 1, y - p.yPosition + 1;
      var k := 3 * a + b;
      assert k / 3 == a && k % 3 == b;
      SelectStep(Neighbourhood(p), k, p, filled);
    }

    /** `filledNeighbours`: a shuffled list of the occupied places among the
        wrapped 3x3 neighbourhood, the place itself left out. */
    method FilledNeighbours(p: Place<T>, draw: nat -> nat) returns (list: seq<Place<T>>)
      requires Layout() && p in places && ValidDraws(draw)
      ensures multiset(list) == multiset(Select(Neighbourhood(p), p, true))
      ensures forall q :: q in list ==> q in places && q != p && q.element.Some?
    {
      var unshuffled := CollectNeighbours(p, true);
      list := Shuffle(unshuffled, draw);
      forall q | q in list
        ensures q in unshuffled
      {
        assert multiset(list)[q] > 0;
      }
    }

    /** `emptyNeighbours`: a shuffled list of the empty places among the
        wrapped 3x3 neighbourhood, the place itself left out. */
    method EmptyNeighbours(p: Place<T>, draw: nat -> nat) returns (list: seq<Place<T>>)
      requires Layout() && p in places && ValidDraws(draw)
      ensures multiset(list) == multiset(Select(Neighbourhood(p), p, false))
      ensures forall q :: q in list ==> q in places && q != p && q.element == None
    {
      var unshuffled := CollectNeighbours(p, false);
      list := Shuffle(unshuffled, draw);
      forall q | q in list
        ensures q in unshuffled
      {
        assert multiset(list)[q] > 0;
      }
    }

    /** On a world at least 3 wide and 3 high, the nine wrapped positions
        are nine different places, the middle one being the place itself. */
    lemma NeighbourhoodDistinct(p: Place<T>)
      requires Layout() && p in places && width >= 3 && height >= 3
      ensures Distinct(Neighbourhood(p)) && p in Neighbourhood(p)
    {
      PlaceInRange(p);
      var ring := Neighbourhood(p);
      forall k | 0 <= k < 9
        ensures ring[k].xPosition == WrapNear(p.xPosition - 1 + k / 3, width)
        ensures ring[k].yPosition == WrapNear(p.yPosition - 1 + k % 3, height)
      {
        WrappedXIsRemainder(p.xPosition - 1 + k / 3);
        WrappedYIsRemainder(p.yPosition - 1 + k % 3);
        ModNear(p.xPosition - 1 + k / 3, width);
        ModNear(p.yPosition - 1 + k % 3, height);
      }
      assert ring[4] == GetAt(p.xPosition, p.yPosition) == p by {
        var i :| 0 <= i < |places| && places[i] == p;
      }
    }

    /** Together the filled and the empty neighbours are every wrapped
        neighbour position other than the place itself; on a world at least
        3 by 3 there are eight of them. */
    lemma NeighbourCount(p: Place<T>)
      requires Layout() && p in places
      ensures multiset(Select(Neighbourhood(p), p, true)) + multiset(Select(Neighbourhood(p), p, false))
              == multiset(Others(Neighbourhood(p), p))
      ensures width >= 3 && height >= 3 ==>
        |Select(Neighbourhood(p), p, true)| + |Select(Neighbourhood(p), p, false)| == 8
    {
      var ring := Neighbourhood(p);
      SelectPartition(ring, p);
      if width >= 3 && height >= 3 {
        NeighbourhoodDistinct(p);
        OthersOfDistinct(ring, p);
        assert |multiset(Others(ring, p))| == 8;
      }
    }

    /** `iterator`: every place exactly once, in storage order, which is
        x-major (all of column 0 first). */
    method Iterator() returns (order: seq<Place<T>>)
      requires Layout()
      ensures |order| == width * height
      ensures forall i :: 0 <= i < |order| ==>
        InRange(order[i].xPosition, order[i].yPosition) &&
        order[i].xPosition * height + order[i].yPosition == i
      ensures forall x, y :: InRange(x, y) ==> GetAt(x, y) in order
      ensures Distinct(order)
    {
      order := places;
    }

    /** `randomIterator`: reshuffles the stored random order and hands out a
        snapshot of it, a permutation of all places. */
    method RandomIterator(draw: nat -> nat) returns (order: seq<Place<T>>)
      requires Valid() && ValidDraws(draw)
      modifies this
      ensures Valid() && order == shuffled
      ensures multiset(order) == multiset(places) && |order| == width * height
    {
      shuffled := Shuffle(shuffled, draw);
      order := shuffled;
      assert |multiset(order)| == |multiset(places)|;
    }
  }

  /** The wrap of a coordinate at most one width off the grid. */
  function WrapNear(v: int, n: int): int
  {
    if v < 0 then v + n else if v < n then v else v - n
  }

  lemma ModNear(v: int, n: int)
    requires 0 < n && -n <= v < 2 * n
    ensures v % n == WrapNear(v, n)
  {
    if v < 0 {
      ModUnique(v, n, -1, v + n);
    } else if v < n {
      ModUnique(v, n, 0, v);
    } else {
      ModUnique(v, n, 1, v - n);
    }
  }

  lemma MulMonotone(a: int, b: int, n: int)
    requires a <= b && 0 <= n
    ensures a * n <= b * n
  {
    assert b * n - a * n == (b - a) * n;
  }

  lemma MulAtLeast(k: int, n: int)
    requires 1 <= k && 0 < n
    ensures k * n >= n
  {
  }

  /** Euclidean division is unique: a remainder in `[0, n)` is the remainder. */
  lemma ModUnique(a: int, n: int, q: int, m: int)
    requires 0 < n && a == q * n + m && 0 <= m < n
    ensures a % n == m
  {
    var q', m' := a / n, a % n;
    assert a == q' * n + m';
    var d := q - q';
    assert d * n == q * n - q' * n;
    assert d * n == m' - m;
    if d > 0 {
      MulAtLeast(d, n);
    } else if d < 0 {
      MulAtLeast(-d, n);
    }
  }

  lemma ModShift(x: int, n: int)
    requires 0 < n
    ensures (x + n) % n == x % n
  {
    assert x == (x / n) * n + x % n;
    assert x + n == (x / n + 1) * n + x % n;
    ModUnique(x + n, n, x / n + 1, x % n);
  }
}
