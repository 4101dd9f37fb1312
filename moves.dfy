/**
 * What a sequence of `moveToFloor` calls costs.
 *
 * A run of the elevator is described by the floors passed to `moveToFloor`,
 * in call order (the "targets").  A call to the floor the car is already on
 * is not a stop and travels no distance; every other call is one stop and
 * travels the absolute difference of the two floors.
 */
module Moves {

  function Abs(x: int): nat
  {
    if x < 0 then -x else x
  }

  /** The floor the car is on after visiting `targets` from floor `from`. */
  function Land(from: int, targets: seq<int>): int
    decreases |targets|
  {
    if targets == [] then from else Land(targets[0], targets[1..])
  }

  /** The number of counted stops (moves to a different floor). */
  function Stops(from: int, targets: seq<int>): nat
    decreases |targets|
  {
    if targets == [] then 0
    else (if targets[0] == from then 0 else 1) + Stops(targets[0], targets[1..])
  }

  /** The number of floors travelled. */
  function Travel(from: int, targets: seq<int>): nat
    decreases |targets|
  {
    if targets == [] then 0
    else Abs(targets[0] - from) + Travel(targets[0], targets[1..])
  }

  /** Every call to `moveToFloor` leaves the car on the floor it was given. */
  lemma {:induction false} LandIsLastTarget(from: int, targets: seq<int>)
    requires targets != []
    ensures Land(from, targets) == targets[|targets| - 1]
    decreases |targets|
  {
    if |targets| > 1 {
      LandIsLastTarget(targets[0], targets[1..]);
    }
  }

  /** Costs of two consecutive stretches of moves add up. */
  lemma {:induction false} Append(from: int, a: seq<int>, b: seq<int>)
    ensures Land(from, a + b) == Land(Land(from, a), b)
    ensures Stops(from, a + b) == Stops(from, a) + Stops(Land(from, a), b)
    ensures Travel(from, a + b) == Travel(from, a) + Travel(Land(from, a), b)
    decreases |a|
  {
    if a != [] {
      assert (a + b)[0] == a[0];
      assert (a + b)[1..] == a[1..] + b;
      Append(a[0], a[1..], b);
    } else {
      assert a + b == b;
    }
  }

  /** One more move appended to a run: the step `moveToFloor` takes. */
  lemma MoveOnce(from: int, targets: seq<int>, floor: int)
    ensures Land(from, targets + [floor]) == floor
    ensures Stops(from, targets + [floor])
            == Stops(from, targets) + (if floor == Land(from, targets) then 0 else 1)
    ensures Travel(from, targets + [floor])
            == Travel(from, targets) + Abs(floor - Land(from, targets))
  {
    Append(from, targets, [floor]);
    assert [floor][1..] == [];
  }

  /** At most one stop per call, and every counted stop travels at least one floor. */
  lemma {:induction false} StopsBounds(from: int, targets: seq<int>)
    ensures Stops(from, targets) <= |targets|
    ensures Stops(from, targets) <= Travel(from, targets)
    decreases |targets|
  {
    if targets != [] {
      StopsBounds(targets[0], targets[1..]);
    }
  }

  /** Moving repeatedly to one floor counts at most one stop. */
  lemma {:induction false} SameFloorOnce(from: int, targets: seq<int>, floor: int)
    requires forall i | 0 <= i < |targets| :: targets[i] == floor
    ensures Stops(from, targets) <= 1
    ensures from == floor ==> Stops(from, targets) == 0
    decreases |targets|
  {
    if targets != [] {
      SameFloorOnce(targets[0], targets[1..], floor);
    }
  }
}
