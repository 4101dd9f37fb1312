/**
 * Destination dispatch (`destinationDispatch` in Elevator.java): persons
 * are grouped by destination floor, and the groups are served one after
 * the other in ascending floor order, each keeping list order.  Capacity
 * only decides who `pickUpPerson` accepts; every member of a group is
 * visited and dropped off.
 */
module DestinationGroups {
  import opened Moves
  import opened Passengers
  import opened Rounds

  /** Strictly ascending, hence without repeated floors. */
  predicate Increasing(s: seq<int>)
  {
    forall i, j | 0 <= i < j < |s| :: s[i] < s[j]
  }

  /** Adds `x` to an ascending list unless it is already there. */
  function Insert(s: seq<int>, x: int): (r: seq<int>)
    requires Increasing(s)
    ensures Increasing(r)
    ensures forall y :: y in r <==> y in s || y == x
  {
    if s == [] then [x]
    else if x < s[0] then [x] + s
    else if x == s[0] then s
    else
      var t := Insert(s[1..], x);
      assert forall k | 0 <= k < |s| - 1 :: s[0] < s[1..][k];
      assert forall y | y in t :: s[0] < y;
      var r := [s[0]] + t;
      assert Increasing(r) by {
        forall i, j | 0 <= i < j < |r| ensures r[i] < r[j] {
          assert r[j] == t[j - 1] && t[j - 1] in t;
          if i > 0 {
            assert r[i] == t[i - 1];
          }
        }
      }
      r
  }

  /** The keys of the grouping map in ascending order: the distinct destinations. */
  function DestinationFloors(waiting: seq<Person>): (r: seq<int>)
    ensures Increasing(r)
    ensures forall d :: d in r <==> d in Destinations(waiting)
  {
    if waiting == [] then []
    else
      var front := waiting[..|waiting| - 1];
      assert forall d :: d in Destinations(waiting) <==>
        d in Destinations(front) || d == waiting[|waiting| - 1].destination by {
        assert Destinations(waiting) == Destinations(front) + [waiting[|waiting| - 1].destination];
      }
      Insert(DestinationFloors(front), waiting[|waiting| - 1].destination)
  }

  /** The group of destination `d`: its members in list order. */
  function Group(waiting: seq<Person>, d: int): (r: seq<Person>)
    ensures forall p | p in r :: p in waiting && p.destination == d
    ensures r == [] <==> d !in Destinations(waiting)
  {
    if waiting == [] then []
    else
      var front, last := waiting[..|waiting| - 1], waiting[|waiting| - 1];
      assert Destinations(waiting) == Destinations(front) + [last.destination];
      var r := Group(front, d) + (if last.destination == d then [last] else []);
      assert r != [] ==> r[0] in r;
      r
  }

  /** Adding a person to the list adds them at the end of their own group only. */
  lemma GroupAppend(front: seq<Person>, p: Person, d: int)
    ensures Destinations(front + [p]) == Destinations(front) + [p.destination]
    ensures Group(front + [p], d) == Group(front, d) + (if p.destination == d then [p] else [])
  {
    assert (front + [p])[..|front|] == front;
  }

  /** The grouping map holds, under each destination of `s`, its group, and nothing else. */
  ghost predicate Grouped(groups: map<int, seq<Person>>, s: seq<Person>)
  {
    && (forall d :: d in groups <==> d in Destinations(s))
    && (forall d | d in groups :: groups[d] == Group(s, d))
  }

  /** `computeIfAbsent(destination, ...).add(p)` keeps the map grouped. */
  lemma GroupedAppend(groups: map<int, seq<Person>>, s: seq<Person>, p: Person)
    requires Grouped(groups, s)
    ensures Grouped(groups[p.destination := (if p.destination in groups then groups[p.destination] else []) + [p]], s + [p])
  {
    GroupedLookup(groups, s, p.destination);
    GroupedKeys(groups, s, p, Group(s, p.destination) + [p]);
    GroupedValues(groups, s, p);
  }

  /** A destination missing from the map has an empty group. */
  lemma GroupedLookup(groups: map<int, seq<Person>>, s: seq<Person>, d: int)
    requires Grouped(groups, s)
    ensures (if d in groups then groups[d] else []) == Group(s, d)
  {
  }

  lemma GroupedKeys(groups: map<int, seq<Person>>, s: seq<Person>, p: Person, v: seq<Person>)
    requires forall e :: e in groups <==> e in Destinations(s)
    ensures forall e :: e in groups[p.destination := v] <==> e in Destinations(s + [p])
  {
    GroupAppend(s, p, p.destination);
  }

  lemma GroupedValues(groups: map<int, seq<Person>>, s: seq<Person>, p: Person)
    requires forall e | e in groups :: groups[e] == Group(s, e)
    ensures var next := groups[p.destination := Group(s, p.destination) + [p]];
            forall e | e in next :: next[e] == Group(s + [p], e)
  {
    forall e ensures Group(s + [p], e) == Group(s, e) + (if p.destination == e then [p] else []) {
      GroupAppend(s, p, e);
    }
  }

  /** The groups of the given floors, in the order of the floors. */
  function Groups(waiting: seq<Person>, floors: seq<int>): (r: seq<seq<Person>>)
    ensures |r| == |floors|
    ensures forall i | 0 <= i < |floors| :: r[i] == Group(waiting, floors[i])
  {
    if floors == [] then []
    else Groups(waiting, floors[..|floors| - 1]) + [Group(waiting, floors[|floors| - 1])]
  }

  /** The serving loop takes one more floor's group. */
  lemma GroupsStep(waiting: seq<Person>, floors: seq<int>, j: nat)
    requires j < |floors|
    ensures Groups(waiting, floors[..j + 1]) == Groups(waiting, floors[..j]) + [Group(waiting, floors[j])]
  {
    assert floors[..j + 1][..j] == floors[..j];
  }

  /** The rounds of a destination-dispatch run: one per distinct destination. */
  function DestinationRounds(waiting: seq<Person>): seq<seq<Person>>
  {
    Groups(waiting, DestinationFloors(waiting))
  }

  /** Groups are served in ascending destination order. */
  lemma Ascending(waiting: seq<Person>)
    ensures forall i, j | 0 <= i < j < |DestinationRounds(waiting)| ::
              forall p, q | p in DestinationRounds(waiting)[i] && q in DestinationRounds(waiting)[j] ::
                p.destination < q.destination
  {
  }

  /** A non-empty set of floors has a lowest one. */
  lemma LowestExists(floors: set<int>)
    requires floors != {}
    ensures exists m :: m in floors && forall x | x in floors :: m <= x
    decreases |floors|
  {
    if forall z :: z !in floors {
      assert false;
    }
    var y :| y in floors;
    var rest := floors - {y};
    if rest == {} {
      assert floors == {y};
    } else {
      LowestExists(rest);
      var m :| m in rest && forall x | x in rest :: m <= x;
      var low := if y < m then y else m;
      forall x | x in floors ensures low <= x {
        if x != y {
          assert x in rest;
        }
      }
      assert low in floors;
    }
  }

  /**
   * `floors.sort(Comparator.naturalOrder())` applied to the keys of the
   * grouping map: repeatedly takes the lowest key not yet taken.
   */
  method SortFloors(keys: set<int>) returns (floors: seq<int>)
    ensures Increasing(floors)
    ensures forall x :: x in floors <==> x in keys
  {
    floors := [];
    var remaining := keys;
    while remaining != {}
      invariant Increasing(floors)
      invariant forall x :: x in keys <==> x in floors || x in remaining
      invariant forall x, y | x in floors && y in remaining :: x < y
      invariant forall x | x in floors :: x !in remaining
      decreases remaining
    {
      LowestExists(remaining);
      var m :| m in remaining && forall x | x in remaining :: m <= x;
      assert forall i | 0 <= i < |floors| :: floors[i] in floors;
      floors := floors + [m];
      remaining := remaining - {m};
    }
  }

  /** Two ascending lists with the same elements are equal: sorting the keys has one outcome. */
  lemma {:induction false} SortedUnique(a: seq<int>, b: seq<int>)
    requires Increasing(a) && Increasing(b)
    requires forall x :: x in a <==> x in b
    ensures a == b
  {
    assert a != [] ==> a[0] in a;
    assert b != [] ==> b[0] in b;
    if a != [] && b != [] {
      HeadIsLeast(a, b[0]);
      HeadIsLeast(b, a[0]);
      forall x ensures x in a[1..] <==> x in b[1..] {
        if x in a[1..] {
          TailMembers(a, b, x);
        }
        if x in b[1..] {
          TailMembers(b, a, x);
        }
      }
      SortedUnique(a[1..], b[1..]);
      assert a == [a[0]] + a[1..] && b == [b[0]] + b[1..];
    }
  }

  /** The first floor of an ascending list is its lowest. */
  lemma HeadIsLeast(a: seq<int>, x: int)
    requires Increasing(a) && x in a
    ensures a[0] <= x
  {
  }

  /** Past their common first floor, two ascending lists with the same floors share the rest. */
  lemma TailMembers(a: seq<int>, b: seq<int>, x: int)
    requires Increasing(a) && Increasing(b)
    requires forall y :: y in a <==> y in b
    requires a != [] && b != [] && a[0] == b[0] && x in a[1..]
    ensures x in b[1..]
  {
    var k :| 0 <= k < |a| - 1 && a[1..][k] == x;
    assert a[k + 1] == x && x in a;
    var m :| 0 <= m < |b| && b[m] == x;
    assert m != 0;
    assert b[1..][m - 1] == x;
  }

  /**
   * The sorted keys of a grouping map are the destination floors, and each
   * key looks up its group.
   */
  lemma SortedKeys(groups: map<int, seq<Person>>, waiting: seq<Person>, floors: seq<int>)
    requires Grouped(groups, waiting)
    requires Increasing(floors) && forall x :: x in floors <==> x in groups
    ensures floors == DestinationFloors(waiting)
    ensures forall j | 0 <= j < |floors| :: floors[j] in groups && groups[floors[j]] == Group(waiting, floors[j])
  {
    SortedUnique(floors, DestinationFloors(waiting));
  }

  /** The persons whose destination is one of `floors`, in list order. */
  function OnFloors(waiting: seq<Person>, floors: seq<int>): seq<Person>
  {
    if waiting == [] then []
    else
      var last := waiting[|waiting| - 1];
      OnFloors(waiting[..|waiting| - 1], floors) + (if last.destination in floors then [last] else [])
  }

  lemma {:induction false} OnOneMoreFloor(waiting: seq<Person>, floors: seq<int>, d: int)
    requires d !in floors
    ensures multiset(OnFloors(waiting, floors + [d]))
            == multiset(OnFloors(waiting, floors)) + multiset(Group(waiting, d))
  {
    if waiting != [] {
      var last := waiting[|waiting| - 1];
      OnOneMoreFloor(waiting[..|waiting| - 1], floors, d);
      assert last.destination in floors + [d] <==> last.destination in floors || last.destination == d;
    }
  }

  lemma {:induction false} OnAllFloors(waiting: seq<Person>, floors: seq<int>)
    requires forall i | 0 <= i < |waiting| :: waiting[i].destination in floors
    ensures OnFloors(waiting, floors) == waiting
  {
    if waiting != [] {
      OnAllFloors(waiting[..|waiting| - 1], floors);
    }
  }

  lemma {:induction false} GroupsServe(waiting: seq<Person>, floors: seq<int>)
    requires Increasing(floors)
    ensures multiset(Concat(Groups(waiting, floors))) == multiset(OnFloors(waiting, floors))
  {
    if floors == [] {
      OnNoFloor(waiting);
    } else {
      var front, d := floors[..|floors| - 1], floors[|floors| - 1];
      GroupsServe(waiting, front);
      assert d !in front by {
        forall i | 0 <= i < |front| ensures front[i] != d {
          assert floors[i] < floors[|floors| - 1];
        }
      }
      OnOneMoreFloor(waiting, front, d);
      assert front + [d] == floors;
      Step(Groups(waiting, front), Group(waiting, d), 0);
    }
  }

  lemma {:induction false} OnNoFloor(waiting: seq<Person>)
    ensures OnFloors(waiting, []) == []
  {
    if waiting != [] {
      OnNoFloor(waiting[..|waiting| - 1]);
    }
  }

  /** Every person is served exactly once, in the group of their destination. */
  lemma DestinationServesEach(waiting: seq<Person>)
    ensures multiset(Concat(DestinationRounds(waiting))) == multiset(waiting)
  {
    var floors := DestinationFloors(waiting);
    GroupsServe(waiting, floors);
    OnAllFloors(waiting, floors);
  }

  /** One stop at most per origin and one for the shared destination of a group. */
  lemma GroupStops(from: int, waiting: seq<Person>, d: int)
    ensures Stops(from, RoundMoves(Group(waiting, d))) <= |Group(waiting, d)| + 1
  {
    var g := Group(waiting, d);
    Append(from, Origins(g), Destinations(g));
    StopsBounds(from, Origins(g));
    SameFloorOnce(Land(from, Origins(g)), Destinations(g), d);
  }

  lemma {:induction false} GroupsStops(from: int, waiting: seq<Person>, floors: seq<int>)
    ensures Stops(from, Trace(Groups(waiting, floors))) <= |Concat(Groups(waiting, floors))| + |floors|
  {
    if floors != [] {
      var front, d := floors[..|floors| - 1], floors[|floors| - 1];
      var rs := Groups(waiting, front);
      GroupsStops(from, waiting, front);
      Step(rs, Group(waiting, d), 0);
      Append(from, Trace(rs), RoundMoves(Group(waiting, d)));
      GroupStops(Land(from, Trace(rs)), waiting, d);
    }
  }

  /**
   * Only the first move to a group's destination is a stop: a run counts at
   * most one stop per person plus one per distinct destination.
   */
  lemma DestinationStops(from: int, waiting: seq<Person>)
    ensures Stops(from, Trace(DestinationRounds(waiting)))
            <= |waiting| + |DestinationFloors(waiting)|
  {
    GroupsStops(from, waiting, DestinationFloors(waiting));
    DestinationServesEach(waiting);
    assert |multiset(Concat(DestinationRounds(waiting)))| == |multiset(waiting)|;
  }

  /** On a non-empty list the car ends on the highest destination floor. */
  lemma DestinationEnd(from: int, waiting: seq<Person>)
    requires waiting != []
    ensures forall p | p in waiting :: p.destination <= Land(from, Trace(DestinationRounds(waiting)))
    ensures Land(from, Trace(DestinationRounds(waiting))) in Destinations(waiting)
  {
    var floors := DestinationFloors(waiting);
    var dests := Destinations(waiting);
    assert dests[0] in dests;
    var d := floors[|floors| - 1];
    assert d in floors;
    GroupsEnd(from, waiting, floors);
    forall p | p in waiting ensures p.destination <= d {
      var i :| 0 <= i < |waiting| && waiting[i] == p;
      assert dests[i] == p.destination;
      assert p.destination in dests;
      HighestLast(floors, p.destination);
    }
  }

  lemma HighestLast(s: seq<int>, x: int)
    requires Increasing(s) && x in s
    ensures x <= s[|s| - 1]
  {
  }

  /** Serving the groups of some floors ends on the last of them. */
  lemma GroupsEnd(from: int, waiting: seq<Person>, floors: seq<int>)
    requires floors != [] && floors[|floors| - 1] in Destinations(waiting)
    ensures Land(from, Trace(Groups(waiting, floors))) == floors[|floors| - 1]
  {
    var front, d := floors[..|floors| - 1], floors[|floors| - 1];
    var rs, g := Groups(waiting, front), Group(waiting, d);
    assert Groups(waiting, floors) == rs + [g];
    Step(rs, g, 0);
    Append(from, Trace(rs), RoundMoves(g));
    RoundEnd(Land(from, Trace(rs)), g);
    assert g[|g| - 1] in g;
  }
}
