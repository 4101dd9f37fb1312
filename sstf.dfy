/**
 * Shortest-seek-time-first selection (`sstf` and `findClosestPerson` in
 * Elevator.java), as functions of the queue and of the floor the car is on
 * when a round starts.
 */
module ShortestSeek {
  import opened Moves
  import opened Passengers
  import opened Queues
  import opened Rounds

  /** How far the car is from a person's origin. */
  function Distance(p: Person, floor: int): nat
  {
    Abs(p.origin - floor)
  }

  /**
   * The position `findClosestPerson` settles on: it scans the list in order
   * and replaces its candidate only on a strictly smaller distance, so the
   * result is the FIRST person at minimal distance.
   */
  function ClosestIndex(queue: seq<Person>, floor: int): (i: nat)
    requires queue != []
    ensures i < |queue|
  {
    if |queue| == 1 then 0
    else
      var k := ClosestIndex(queue[..|queue| - 1], floor);
      if Distance(queue[|queue| - 1], floor) < Distance(queue[k], floor) then |queue| - 1 else k
  }

  /** Nobody is closer than the chosen person, and everybody before them is farther. */
  lemma {:induction false} ClosestIndexMinimal(queue: seq<Person>, floor: int)
    requires queue != []
    ensures forall j | 0 <= j < |queue| ::
              Distance(queue[ClosestIndex(queue, floor)], floor) <= Distance(queue[j], floor)
    ensures forall j | 0 <= j < ClosestIndex(queue, floor) ::
              Distance(queue[j], floor) > Distance(queue[ClosestIndex(queue, floor)], floor)
  {
    if |queue| > 1 {
      var front := queue[..|queue| - 1];
      ClosestIndexMinimal(front, floor);
      var k := ClosestIndex(front, floor);
      assert forall j | 0 <= j < |front| :: front[j] == queue[j];
    }
  }

  /**
   * `queue.remove(closest)` removes the chosen position itself: nobody
   * before it is the same person, since everybody before it is farther away.
   */
  lemma RemoveClosest(queue: seq<Person>, floor: int)
    requires queue != []
    ensures var k := ClosestIndex(queue, floor);
            RemoveFirst(queue, queue[k]) == queue[..k] + queue[k + 1..]
  {
    ClosestIndexMinimal(queue, floor);
    var k := ClosestIndex(queue, floor);
    assert queue[k] !in queue[..k] by {
      forall j | 0 <= j < k ensures queue[..k][j] != queue[k] {
        assert Distance(queue[j], floor) > Distance(queue[k], floor);
      }
    }
    RemoveFirstAt(queue, k);
  }

  /**
   * The selection loop of one SSTF round: up to `room` more times, take the
   * closest person from the car's floor (which does not change while
   * selecting), append it to `picked` and remove it from the queue.
   * Answers the selection and the queue left over.
   */
  function Pick(picked: seq<Person>, queue: seq<Person>, floor: int, room: nat): (seq<Person>, seq<Person>)
    decreases room
  {
    if room == 0 || queue == [] then (picked, queue)
    else
      var k := ClosestIndex(queue, floor);
      Pick(picked + [queue[k]], queue[..k] + queue[k + 1..], floor, room - 1)
  }

  /** One selection step takes the closest person out of the queue with `List.remove`. */
  lemma PickStep(picked: seq<Person>, queue: seq<Person>, floor: int, room: nat)
    requires room > 0 && queue != []
    ensures var k := ClosestIndex(queue, floor);
            Pick(picked, queue, floor, room) == Pick(picked + [queue[k]], RemoveFirst(queue, queue[k]), floor, room - 1)
  {
    RemoveClosest(queue, floor);
  }

  /**
   * Selection moves persons from the queue to the selection, never losing
   * or duplicating one, and selects as many as there is room for.
   */
  lemma {:induction false} PickSplits(picked: seq<Person>, queue: seq<Person>, floor: int, room: nat)
    ensures |Pick(picked, queue, floor, room).0| == |picked| + (if room < |queue| then room else |queue|)
    ensures |Pick(picked, queue, floor, room).0| + |Pick(picked, queue, floor, room).1| == |picked| + |queue|
    ensures multiset(Pick(picked, queue, floor, room).0) + multiset(Pick(picked, queue, floor, room).1)
            == multiset(picked) + multiset(queue)
    decreases room
  {
    if room != 0 && queue != [] {
      var k := ClosestIndex(queue, floor);
      PickSplits(picked + [queue[k]], queue[..k] + queue[k + 1..], floor, room - 1);
      assert queue == queue[..k] + [queue[k]] + queue[k + 1..];
    }
  }

  /** Selecting only appends: what was picked before stays at the front. */
  lemma {:induction false} PickKeeps(picked: seq<Person>, queue: seq<Person>, floor: int, room: nat)
    ensures |picked| <= |Pick(picked, queue, floor, room).0|
    ensures Pick(picked, queue, floor, room).0[..|picked|] == picked
    decreases room
  {
    if room != 0 && queue != [] {
      var k := ClosestIndex(queue, floor);
      PickKeeps(picked + [queue[k]], queue[..k] + queue[k + 1..], floor, room - 1);
      assert (picked + [queue[k]])[..|picked|] == picked;
    }
  }

  /**
   * The rounds of an SSTF run from `floor` with `seats` places per trip:
   * every round picks `min(seats, |queue|)` persons chosen from the floor the
   * previous round ended on.
   */
  function SstfRounds(queue: seq<Person>, floor: int, seats: nat): seq<seq<Person>>
    requires seats >= 1
    decreases |queue|
  {
    if queue == [] then []
    else
      PickSplits([], queue, floor, seats);
      var (batch, rest) := Pick([], queue, floor, seats);
      [batch] + SstfRounds(rest, Land(floor, RoundMoves(batch)), seats)
  }

  /** One SSTF round, and the rounds after it from where it ends. */
  lemma SstfStep(queue: seq<Person>, floor: int, seats: nat)
    requires seats >= 1 && queue != []
    ensures |Pick([], queue, floor, seats).1| < |queue|
    ensures SstfRounds(queue, floor, seats)
            == [Pick([], queue, floor, seats).0]
               + SstfRounds(Pick([], queue, floor, seats).1,
                            Land(floor, RoundMoves(Pick([], queue, floor, seats).0)), seats)
  {
    PickSplits([], queue, floor, seats);
  }

  /** The first person picked is the first closest one, and every pick leaves the queue. */
  lemma PickFirst(queue: seq<Person>, floor: int, room: nat)
    requires room >= 1 && queue != []
    ensures |Pick([], queue, floor, room).0| >= 1
    ensures Pick([], queue, floor, room).0[0] == queue[ClosestIndex(queue, floor)]
    ensures forall j | 0 <= j < |queue| ::
              Distance(Pick([], queue, floor, room).0[0], floor) <= Distance(queue[j], floor)
  {
    var k := ClosestIndex(queue, floor);
    var r := Pick([queue[k]], queue[..k] + queue[k + 1..], floor, room - 1);
    assert [] + [queue[k]] == [queue[k]];
    assert Pick([], queue, floor, room) == r;
    PickKeeps([queue[k]], queue[..k] + queue[k + 1..], floor, room - 1);
    assert r.0[..1] == [queue[k]];
    assert r.0[0] == r.0[..1][0];
    ClosestIndexMinimal(queue, floor);
  }

  /** Each person leaves the SSTF queue exactly once, in some round. */
  lemma {:induction false} SstfServesEach(queue: seq<Person>, floor: int, seats: nat)
    requires seats >= 1
    ensures multiset(Concat(SstfRounds(queue, floor, seats))) == multiset(queue)
    decreases |queue|
  {
    if queue != [] {
      PickSplits([], queue, floor, seats);
      var (batch, rest) := Pick([], queue, floor, seats);
      var next := Land(floor, RoundMoves(batch));
      var later := SstfRounds(rest, next, seats);
      assert SstfRounds(queue, floor, seats) == [batch] + later;
      SstfServesEach(rest, next, seats);
      Split([batch], later, seats);
      assert Concat([batch]) == batch by {
        assert [batch][..0] == [];
      }
    }
  }

  /**
   * No SSTF batch is larger than the car, so every person picked in a
   * round boards: the persons accepted on board are all persons served.
   */
  lemma {:induction false} SstfBoardsEveryone(queue: seq<Person>, floor: int, seats: nat)
    requires seats >= 1
    ensures Boarded(SstfRounds(queue, floor, seats), seats) == Concat(SstfRounds(queue, floor, seats))
    decreases |queue|
  {
    if queue != [] {
      PickSplits([], queue, floor, seats);
      var (batch, rest) := Pick([], queue, floor, seats);
      var next := Land(floor, RoundMoves(batch));
      SstfBoardsEveryone(rest, next, seats);
      Split([batch], SstfRounds(rest, next, seats), seats);
      assert [batch][..0] == [];
      assert Admitted(batch, seats) == batch;
    }
  }
}
