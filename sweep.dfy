/**
 * SCAN and LOOK (`scan` and `look` in Elevator.java), as functions of the
 * queue, the floor a round starts on and the direction of travel.
 *
 * Each round collects EVERY queued person whose origin lies ahead of the
 * car (at or above it when moving up, at or below it when moving down).
 * The collection runs while the car is empty, so the weight check inside
 * it never refuses anyone; refusals happen later, in `pickUpPerson`.
 */
module Sweep {
  import opened Moves
  import opened Passengers
  import opened Queues
  import opened Rounds

  /** A person waits ahead of the car in the direction of travel. */
  predicate Ahead(p: Person, floor: int, up: bool)
  {
    if up then p.origin >= floor else p.origin <= floor
  }

  /** The persons collected in a round, in queue order. */
  function Matching(queue: seq<Person>, floor: int, up: bool): (r: seq<Person>)
    ensures forall p | p in r :: p in queue && Ahead(p, floor, up)
    ensures forall p | p in queue && Ahead(p, floor, up) :: p in r
  {
    if queue == [] then []
    else (if Ahead(queue[0], floor, up) then [queue[0]] else []) + Matching(queue[1..], floor, up)
  }

  /** Collecting from two stretches of the queue collects from each, in order. */
  lemma {:induction false} MatchingConcat(a: seq<Person>, b: seq<Person>, floor: int, up: bool)
    ensures Matching(a + b, floor, up) == Matching(a, floor, up) + Matching(b, floor, up)
  {
    if a == [] {
      assert a + b == b;
    } else {
      assert (a + b)[1..] == a[1..] + b;
      MatchingConcat(a[1..], b, floor, up);
    }
  }

  /** The collection loop looks at one more queued person. */
  lemma MatchingStep(queue: seq<Person>, i: nat, floor: int, up: bool)
    requires i < |queue|
    ensures Matching(queue[..i + 1], floor, up)
            == Matching(queue[..i], floor, up) + (if Ahead(queue[i], floor, up) then [queue[i]] else [])
  {
    assert queue[..i + 1] == queue[..i] + [queue[i]];
    MatchingConcat(queue[..i], [queue[i]], floor, up);
  }

  /** The persons left in the queue after a round, in queue order. */
  function Behind(queue: seq<Person>, floor: int, up: bool): (r: seq<Person>)
    ensures forall p | p in r :: p in queue && !Ahead(p, floor, up)
  {
    if queue == [] then []
    else (if Ahead(queue[0], floor, up) then [] else [queue[0]]) + Behind(queue[1..], floor, up)
  }

  /** Collecting splits the queue: nothing is lost and nothing is duplicated. */
  lemma {:induction false} Partition(queue: seq<Person>, floor: int, up: bool)
    ensures multiset(Matching(queue, floor, up)) + multiset(Behind(queue, floor, up)) == multiset(queue)
    ensures |Matching(queue, floor, up)| + |Behind(queue, floor, up)| == |queue|
  {
    if queue != [] {
      var head, tail := queue[0], queue[1..];
      var m, b := Matching(tail, floor, up), Behind(tail, floor, up);
      Partition(tail, floor, up);
      assert queue == [head] + tail;
      assert multiset(queue) == multiset{head} + multiset(tail);
      if Ahead(head, floor, up) {
        assert Matching(queue, floor, up) == [head] + m;
        assert multiset([head] + m) == multiset{head} + multiset(m);
        assert Behind(queue, floor, up) == b;
      } else {
        assert Matching(queue, floor, up) == m;
        assert Behind(queue, floor, up) == [head] + b;
        assert multiset([head] + b) == multiset{head} + multiset(b);
      }
    }
  }

  /** A round that collects nobody leaves the queue as it was. */
  lemma {:induction false} NothingCollected(queue: seq<Person>, floor: int, up: bool)
    requires Matching(queue, floor, up) == []
    ensures Behind(queue, floor, up) == queue
  {
    if queue != [] {
      assert queue[0] in queue;
      assert !Ahead(queue[0], floor, up);
      assert Matching(queue[1..], floor, up) == [];
      NothingCollected(queue[1..], floor, up);
      assert queue == [queue[0]] + queue[1..];
    }
  }

  /** Every waiting person is ahead in one direction or the other. */
  lemma Reversible(queue: seq<Person>, floor: int, up: bool)
    requires queue != [] && Matching(queue, floor, up) == []
    ensures Matching(queue, floor, !up) != []
  {
    assert queue[0] in queue;
  }

  /**
   * Removing the collected persons one by one with `List.remove` leaves
   * exactly the persons behind the car.
   */
  lemma {:induction false} RemoveCollected(queue: seq<Person>, floor: int, up: bool)
    ensures Without(queue, Matching(queue, floor, up)) == Behind(queue, floor, up)
  {
    WithoutAhead(queue, Matching(queue, floor, up), floor, up);
  }

  lemma {:induction false} WithoutAhead(queue: seq<Person>, xs: seq<Person>, floor: int, up: bool)
    requires forall p | p in queue :: p in xs <==> Ahead(p, floor, up)
    ensures Without(queue, xs) == Behind(queue, floor, up)
  {
    if queue != [] {
      assert queue[0] in queue;
      forall p | p in queue[1..] ensures p in queue {
      }
      WithoutAhead(queue[1..], xs, floor, up);
    }
  }

  function Measure(queue: seq<Person>, floor: int, up: bool): nat
  {
    if Matching(queue, floor, up) == [] then 1 else 0
  }

  /**
   * The rounds of a SCAN run.  After a round, SCAN reverses when nobody
   * left in the queue is ahead of the floor the round ended on.  Rounds
   * that collect nobody move the car nowhere and are not listed.
   */
  function ScanRounds(queue: seq<Person>, floor: int, up: bool): seq<seq<Person>>
    decreases |queue|, Measure(queue, floor, up)
  {
    if queue == [] then []
    else
      var batch := Matching(queue, floor, up);
      var rest := Behind(queue, floor, up);
      var next := Land(floor, RoundMoves(batch));
      Partition(queue, floor, up);
      if batch == [] then
        NothingCollected(queue, floor, up);
        Reversible(queue, floor, up);
        ScanRounds(rest, next, !up)
      else
        [batch] + ScanRounds(rest, next, if Matching(rest, next, up) != [] then up else !up)
  }

  /**
   * The rounds of a LOOK run.  LOOK reverses only after a round that
   * collected nobody.
   */
  function LookRounds(queue: seq<Person>, floor: int, up: bool): seq<seq<Person>>
    decreases |queue|, Measure(queue, floor, up)
  {
    if queue == [] then []
    else
      var batch := Matching(queue, floor, up);
      var rest := Behind(queue, floor, up);
      var next := Land(floor, RoundMoves(batch));
      Partition(queue, floor, up);
      if batch == [] then
        NothingCollected(queue, floor, up);
        Reversible(queue, floor, up);
        LookRounds(rest, next, !up)
      else
        [batch] + LookRounds(rest, next, up)
  }

  /** `anyMatch` over the queue asks whether a round from here would collect anybody. */
  lemma AnyAhead(queue: seq<Person>, floor: int, up: bool)
    ensures (exists p | p in queue :: Ahead(p, floor, up)) <==> Matching(queue, floor, up) != []
  {
    var m := Matching(queue, floor, up);
    if m != [] {
      assert m[0] in m;
    }
  }

  /**
   * One SCAN round.  When it collects nobody, the run goes on from the same
   * floor in the other direction, where somebody is waiting; otherwise the
   * round is listed, the queue shrinks, and the run goes on from the floor
   * the round ended on.
   */
  lemma ScanStep(queue: seq<Person>, floor: int, up: bool)
    requires queue != []
    ensures var batch := Matching(queue, floor, up);
            batch == [] ==>
              && Behind(queue, floor, up) == queue
              && Matching(queue, floor, !up) != []
              && ScanRounds(queue, floor, up) == ScanRounds(queue, floor, !up)
    ensures var batch, rest := Matching(queue, floor, up), Behind(queue, floor, up);
            var next := Land(floor, RoundMoves(batch));
            batch != [] ==>
              && |rest| < |queue|
              && ScanRounds(queue, floor, up)
                 == [batch] + ScanRounds(rest, next, if Matching(rest, next, up) != [] then up else !up)
  {
    Partition(queue, floor, up);
    if Matching(queue, floor, up) == [] {
      NothingCollected(queue, floor, up);
      Reversible(queue, floor, up);
    }
  }

  /** One LOOK round: as for SCAN, except that a round that collected somebody keeps the direction. */
  lemma LookStep(queue: seq<Person>, floor: int, up: bool)
    requires queue != []
    ensures var batch := Matching(queue, floor, up);
            batch == [] ==>
              && Behind(queue, floor, up) == queue
              && Matching(queue, floor, !up) != []
              && LookRounds(queue, floor, up) == LookRounds(queue, floor, !up)
    ensures var batch, rest := Matching(queue, floor, up), Behind(queue, floor, up);
            batch != [] ==>
              && |rest| < |queue|
              && LookRounds(queue, floor, up) == [batch] + LookRounds(rest, Land(floor, RoundMoves(batch)), up)
  {
    Partition(queue, floor, up);
    if Matching(queue, floor, up) == [] {
      NothingCollected(queue, floor, up);
      Reversible(queue, floor, up);
    }
  }

  /**
   * SCAN and LOOK serve the same batches in the same order: where SCAN
   * reverses right after a round, LOOK runs one empty round first and
   * then reverses on the same floor.  So they make the same moves and end
   * with the same stops, distance and floor.
   */
  lemma {:induction false} ScanIsLook(queue: seq<Person>, floor: int, up: bool)
    ensures ScanRounds(queue, floor, up) == LookRounds(queue, floor, up)
    decreases |queue|, Measure(queue, floor, up)
  {
    if queue != [] {
      var batch := Matching(queue, floor, up);
      var rest := Behind(queue, floor, up);
      var next := Land(floor, RoundMoves(batch));
      Partition(queue, floor, up);
      if batch == [] {
        NothingCollected(queue, floor, up);
        Reversible(queue, floor, up);
        ScanIsLook(rest, next, !up);
      } else if Matching(rest, next, up) != [] || rest == [] {
        ScanIsLook(rest, next, up);
      } else {
        NothingCollected(rest, next, up);
        Reversible(rest, next, up);
        ScanIsLook(rest, next, !up);
        assert LookRounds(rest, next, up) == LookRounds(rest, next, !up);
      }
    }
  }

  /** Each person leaves the SCAN queue exactly once, in some round. */
  lemma {:induction false} ScanServesEach(queue: seq<Person>, floor: int, up: bool)
    ensures multiset(Concat(ScanRounds(queue, floor, up))) == multiset(queue)
    decreases |queue|, Measure(queue, floor, up)
  {
    if queue != [] {
      ScanStep(queue, floor, up);
      var batch := Matching(queue, floor, up);
      if batch == [] {
        ScanServesEach(queue, floor, !up);
      } else {
        var rest := Behind(queue, floor, up);
        var next := Land(floor, RoundMoves(batch));
        var up' := if Matching(rest, next, up) != [] then up else !up;
        Partition(queue, floor, up);
        ScanServesEach(rest, next, up');
        SplitConcat([batch], ScanRounds(rest, next, up'));
        assert [batch][..0] == [];
      }
    }
  }

  /** A queue without repeated persons keeps that property after a round. */
  lemma BehindDistinct(queue: seq<Person>, floor: int, up: bool)
    requires Distinct(queue)
    ensures Distinct(Behind(queue, floor, up))
  {
    Partition(queue, floor, up);
    var rest := Behind(queue, floor, up);
    forall x ensures multiset(rest)[x] <= 1 {
      assert multiset(rest)[x] <= multiset(queue)[x];
    }
  }
}
