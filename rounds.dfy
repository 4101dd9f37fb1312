/**
 * Rounds of a dispatch run.
 *
 * Every policy of the elevator works in rounds: it collects a batch of
 * waiting persons (`toPickUp`, or a destination group), moves to the origin
 * of each of them in batch order calling `pickUpPerson`, then moves to the
 * destination of each of them in batch order calling `dropOffPerson`.
 * A run is therefore described by its list of batches.
 */
module Rounds {
  import opened Moves
  import opened Passengers
  import opened Queues

  /** The `moveToFloor` targets of one round. */
  function RoundMoves(batch: seq<Person>): (r: seq<int>)
    ensures |r| == 2 * |batch|
  {
    Origins(batch) + Destinations(batch)
  }

  /** The `moveToFloor` targets of a whole run. */
  function Trace(rounds: seq<seq<Person>>): seq<int>
  {
    if rounds == [] then []
    else Trace(rounds[..|rounds| - 1]) + RoundMoves(rounds[|rounds| - 1])
  }

  /** The persons served by a run, in the order their rounds were served. */
  function Concat(rounds: seq<seq<Person>>): seq<Person>
  {
    if rounds == [] then []
    else Concat(rounds[..|rounds| - 1]) + rounds[|rounds| - 1]
  }

  /**
   * The persons `pickUpPerson` accepts in a round that starts with an empty
   * car: the first `seats` of the batch; the others are refused for weight.
   */
  function Admitted(batch: seq<Person>, seats: int): (r: seq<Person>)
    ensures |r| <= |batch| && |r| <= if seats < 0 then 0 else seats
    ensures r == batch[..|r|]
    ensures seats >= |batch| ==> r == batch
  {
    if seats < 0 then [] else if seats < |batch| then batch[..seats] else batch
  }

  /**
   * `pickUpPerson` on the next person of the batch: there is room exactly
   * while fewer than `seats` persons came before, and then the person boards.
   */
  lemma AdmittedStep(batch: seq<Person>, i: nat, seats: int)
    requires i < |batch|
    ensures |Admitted(batch[..i], seats)| < seats <==> i < seats
    ensures Admitted(batch[..i + 1], seats) == Admitted(batch[..i], seats) + (if i < seats then [batch[i]] else [])
  {
    assert batch[..i + 1][..i] == batch[..i];
    if 0 <= seats <= i {
      assert batch[..i + 1][..seats] == batch[..i][..seats];
    }
  }

  /** The persons of `aboard` still in the car after the first `i` drop-offs of the round. */
  function StillAboard(aboard: seq<Person>, i: nat): (r: seq<Person>)
    ensures i >= |aboard| ==> r == []
  {
    if i < |aboard| then aboard[i..] else []
  }

  /**
   * `dropOffPerson` on the next person of the batch: the admitted persons
   * leave in boarding order, and a refused person's removal changes nothing.
   */
  lemma DropOffStep(batch: seq<Person>, i: nat, seats: int)
    requires i < |batch|
    ensures RemoveFirst(StillAboard(Admitted(batch, seats), i), batch[i]) == StillAboard(Admitted(batch, seats), i + 1)
  {
    var aboard := Admitted(batch, seats);
    if i < |aboard| {
      assert aboard[i] == batch[i];
      assert aboard[i..][1..] == aboard[i + 1..];
    }
  }

  /** The persons accepted on board during a whole run, in boarding order. */
  function Boarded(rounds: seq<seq<Person>>, seats: int): seq<Person>
  {
    if rounds == [] then []
    else Boarded(rounds[..|rounds| - 1], seats) + Admitted(rounds[|rounds| - 1], seats)
  }

  /** Moving the next round from the rounds to come to the rounds done. */
  lemma Regroup(done: seq<seq<Person>>, batch: seq<Person>, later: seq<seq<Person>>)
    ensures done + ([batch] + later) == (done + [batch]) + later
  {
  }

  /** One more round appended to a run. */
  lemma Step(rounds: seq<seq<Person>>, batch: seq<Person>, seats: int)
    ensures Trace(rounds + [batch]) == Trace(rounds) + RoundMoves(batch)
    ensures Concat(rounds + [batch]) == Concat(rounds) + batch
    ensures Boarded(rounds + [batch], seats) == Boarded(rounds, seats) + Admitted(batch, seats)
  {
    assert (rounds + [batch])[..|rounds|] == rounds;
  }

  /** Splitting a run in two splits its moves and its served persons. */
  lemma Split(a: seq<seq<Person>>, b: seq<seq<Person>>, seats: int)
    ensures Trace(a + b) == Trace(a) + Trace(b)
    ensures Concat(a + b) == Concat(a) + Concat(b)
    ensures Boarded(a + b, seats) == Boarded(a, seats) + Boarded(b, seats)
  {
    SplitTrace(a, b);
    SplitConcat(a, b);
    SplitBoarded(a, b, seats);
  }

  lemma {:induction false} SplitTrace(a: seq<seq<Person>>, b: seq<seq<Person>>)
    ensures Trace(a + b) == Trace(a) + Trace(b)
    decreases |b|
  {
    if b == [] {
      assert a + b == a;
    } else {
      var front, last := b[..|b| - 1], b[|b| - 1];
      assert (a + b)[..|a + b| - 1] == a + front;
      assert (a + b)[|a + b| - 1] == last;
      SplitTrace(a, front);
      calc {
        Trace(a + b);
        Trace(a + front) + RoundMoves(last);
        (Trace(a) + Trace(front)) + RoundMoves(last);
        Trace(a) + (Trace(front) + RoundMoves(last));
        Trace(a) + Trace(b);
      }
    }
  }

  lemma {:induction false} SplitConcat(a: seq<seq<Person>>, b: seq<seq<Person>>)
    ensures Concat(a + b) == Concat(a) + Concat(b)
    decreases |b|
  {
    if b == [] {
      assert a + b == a;
    } else {
      var front, last := b[..|b| - 1], b[|b| - 1];
      assert (a + b)[..|a + b| - 1] == a + front;
      SplitConcat(a, front);
    }
  }

  lemma {:induction false} SplitBoarded(a: seq<seq<Person>>, b: seq<seq<Person>>, seats: int)
    ensures Boarded(a + b, seats) == Boarded(a, seats) + Boarded(b, seats)
    decreases |b|
  {
    if b == [] {
      assert a + b == a;
    } else {
      var front, last := b[..|b| - 1], b[|b| - 1];
      assert (a + b)[..|a + b| - 1] == a + front;
      SplitBoarded(a, front, seats);
    }
  }

  /** Two moves per served person: one to the origin, one to the destination. */
  lemma {:induction false} TraceLength(rounds: seq<seq<Person>>)
    ensures |Trace(rounds)| == 2 * |Concat(rounds)|
  {
    if rounds != [] {
      TraceLength(rounds[..|rounds| - 1]);
    }
  }

  /**
   * A run that serves every waiting person exactly once counts at most two
   * stops per person, and travels at least one floor per stop.
   */
  lemma RunBounds(from: int, rounds: seq<seq<Person>>, waiting: seq<Person>)
    requires multiset(Concat(rounds)) == multiset(waiting)
    ensures Stops(from, Trace(rounds)) <= 2 * |waiting|
    ensures Stops(from, Trace(rounds)) <= Travel(from, Trace(rounds))
  {
    TraceLength(rounds);
    StopsBounds(from, Trace(rounds));
    assert |multiset(Concat(rounds))| == |Concat(rounds)|;
  }

  /** A round ends on the destination of the last person of its batch. */
  lemma RoundEnd(from: int, batch: seq<Person>)
    requires batch != []
    ensures Land(from, RoundMoves(batch)) == batch[|batch| - 1].destination
  {
    LandIsLastTarget(from, RoundMoves(batch));
  }
}
