/**
 * The elevator (Elevator.java): one mutable state shared by the
 * movement and boarding primitives, the five dispatch policies and the
 * evaluation around them.
 *
 * Two ghost fields record what happened since the last `Reset`: `trace`,
 * the floors passed to `MoveToFloor`, and `boarded`, the persons
 * `PickUpPerson` accepted.  `Tracks()` says that the floor and both
 * counters are what those moves produce; every policy ends in that
 * state, with its trace and boardings given by the functions of the
 * `Strategies` module.
 */
module Dispatch {
  import opened Moves
  import opened Passengers
  import opened Queues
  import opened Rounds
  import opened ShortestSeek
  import opened Sweep
  import opened DestinationGroups
  import opened Strategies

  datatype Option<T> = None | Some(value: T)

  class Elevator {
    const startingFloor: int
    var currentFloor: int
    var passengers: seq<Person>
    const maxCapacityWeight: int
    var totalStops: int
    var totalFloorsTraveled: int

    ghost var trace: seq<int>
    ghost var boarded: seq<Person>

    /** The floor and the counters are those of the moves made since the last reset. */
    ghost predicate Tracks()
      reads this
    {
      && currentFloor == Land(startingFloor, trace)
      && totalStops == Stops(startingFloor, trace)
      && totalFloorsTraveled == Travel(startingFloor, trace)
    }

    constructor (maxCapacityWeight: int, startingFloor: int)
      ensures this.maxCapacityWeight == maxCapacityWeight && this.startingFloor == startingFloor
      ensures currentFloor == startingFloor && passengers == []
      ensures totalStops == 0 && totalFloorsTraveled == 0
      ensures trace == [] && boarded == [] && Tracks()
    {
      this.maxCapacityWeight := maxCapacityWeight;
      this.startingFloor := startingFloor;
      currentFloor := startingFloor;
      passengers := [];
      totalStops := 0;
      totalFloorsTraveled := 0;
      trace := [];
      boarded := [];
    }

    /** The one-argument constructor: the car starts on floor 0. */
    constructor OnGroundFloor(maxCapacityWeight: int)
      ensures this.maxCapacityWeight == maxCapacityWeight && startingFloor == 0
      ensures currentFloor == 0 && passengers == []
      ensures totalStops == 0 && totalFloorsTraveled == 0
      ensures trace == [] && boarded == [] && Tracks()
    {
      this.maxCapacityWeight := maxCapacityWeight;
      startingFloor := 0;
      currentFloor := 0;
      passengers := [];
      totalStops := 0;
      totalFloorsTraveled := 0;
      trace := [];
      boarded := [];
    }

    /**
     * Moving to another floor counts one stop and the distance; moving to
     * the current floor changes nothing.
     */
    method MoveToFloor(floor: int)
      modifies this`currentFloor, this`totalStops, this`totalFloorsTraveled, this`trace
      ensures currentFloor == floor
      ensures floor != old(currentFloor) ==>
                totalStops == old(totalStops) + 1
                && totalFloorsTraveled == old(totalFloorsTraveled) + Abs(floor - old(currentFloor))
      ensures floor == old(currentFloor) ==>
                totalStops == old(totalStops) && totalFloorsTraveled == old(totalFloorsTraveled)
      ensures trace == old(trace) + [floor]
      ensures old(Tracks()) ==> Tracks()
    {
      MoveOnce(startingFloor, trace, floor);
      if currentFloor != floor {
        totalFloorsTraveled := totalFloorsTraveled + Abs(floor - currentFloor);
        currentFloor := floor;
        totalStops := totalStops + 1;
      }
      trace := trace + [floor];
    }

    /** One more 180 lb person fits under the weight limit. */
    predicate CanTakeMorePassengers()
      reads this
      ensures CanTakeMorePassengers() <==> |passengers| < Seats(maxCapacityWeight)
    {
      SeatsMeaning(maxCapacityWeight, |passengers|);
      |passengers| * PersonWeight + PersonWeight <= maxCapacityWeight
    }

    /** Boards `person` if the weight limit allows; otherwise refuses and changes nothing. */
    method PickUpPerson(person: Person)
      modifies this`passengers, this`boarded
      ensures old(CanTakeMorePassengers()) ==>
                passengers == old(passengers) + [person] && boarded == old(boarded) + [person]
      ensures !old(CanTakeMorePassengers()) ==>
                passengers == old(passengers) && boarded == old(boarded)
      ensures |passengers| * PersonWeight <= maxCapacityWeight
              || passengers == old(passengers)
    {
      if CanTakeMorePassengers() {
        passengers := passengers + [person];
        boarded := boarded + [person];
      }
    }

    /** `passengers.remove(person)`: removes the person if aboard, otherwise a no-op. */
    method DropOffPerson(person: Person)
      modifies this`passengers
      ensures passengers == RemoveFirst(old(passengers), person)
    {
      passengers := RemoveFirst(passengers, person);
    }

    method Reset()
      modifies this`currentFloor, this`passengers, this`totalStops, this`totalFloorsTraveled
      modifies this`trace, this`boarded
      ensures currentFloor == startingFloor && passengers == []
      ensures totalStops == 0 && totalFloorsTraveled == 0
      ensures trace == [] && boarded == [] && Tracks()
    {
      currentFloor := startingFloor;
      passengers := [];
      totalStops := 0;
      totalFloorsTraveled := 0;
      trace := [];
      boarded := [];
    }

    /** One pass of the pickup loop: go to the person's origin and board them if they fit. */
    method MoveAndPickUp(person: Person)
      requires Tracks()
      modifies this`currentFloor, this`totalStops, this`totalFloorsTraveled, this`trace
      modifies this`passengers, this`boarded
      ensures Tracks() && trace == old(trace) + [person.origin]
      ensures var joins := if |old(passengers)| < Seats(maxCapacityWeight) then [person] else [];
              passengers == old(passengers) + joins && boarded == old(boarded) + joins
    {
      MoveToFloor(person.origin);
      PickUpPerson(person);
    }

    /** The loop `for (person : toPickUp) { moveToFloor(origin); pickUpPerson(person); }` on an empty car. */
    method PickUpAll(batch: seq<Person>)
      requires Tracks() && passengers == []
      modifies this`currentFloor, this`totalStops, this`totalFloorsTraveled, this`trace
      modifies this`passengers, this`boarded
      ensures Tracks()
      ensures trace == old(trace) + Origins(batch)
      ensures passengers == Admitted(batch, Seats(maxCapacityWeight))
      ensures boarded == old(boarded) + Admitted(batch, Seats(maxCapacityWeight))
    {
      var seats := Seats(maxCapacityWeight);
      for i := 0 to |batch|
        invariant Tracks()
        invariant trace == old(trace) + Origins(batch[..i])
        invariant passengers == Admitted(batch[..i], seats)
        invariant boarded == old(boarded) + passengers
      {
        FloorsStep(batch, i);
        AdmittedStep(batch, i, seats);
        MoveAndPickUp(batch[i]);
        assert trace == old(trace) + (Origins(batch[..i]) + [batch[i].origin]);
      }
      assert batch[..|batch|] == batch;
    }

    /** The loop `for (person : toPickUp) { moveToFloor(destination); dropOffPerson(person); }`. */
    method DropOffAll(batch: seq<Person>)
      requires Tracks() && passengers == Admitted(batch, Seats(maxCapacityWeight))
      modifies this`currentFloor, this`totalStops, this`totalFloorsTraveled, this`trace
      modifies this`passengers
      ensures Tracks()
      ensures trace == old(trace) + Destinations(batch)
      ensures passengers == []
    {
      var seats := Seats(maxCapacityWeight);
      for i := 0 to |batch|
        invariant Tracks()
        invariant trace == old(trace) + Destinations(batch[..i])
        invariant passengers == StillAboard(Admitted(batch, seats), i)
      {
        FloorsStep(batch, i);
        DropOffStep(batch, i, seats);
        MoveToFloor(batch[i].destination);
        assert trace == old(trace) + (Destinations(batch[..i]) + [batch[i].destination]);
        DropOffPerson(batch[i]);
      }
      assert batch[..|batch|] == batch;
    }

    /** One round: visit every origin of the batch, then every destination. */
    method ServeRound(batch: seq<Person>)
      requires Tracks() && passengers == []
      modifies this`currentFloor, this`totalStops, this`totalFloorsTraveled, this`trace
      modifies this`passengers, this`boarded
      ensures Tracks() && passengers == []
      ensures trace == old(trace) + RoundMoves(batch)
      ensures boarded == old(boarded) + Admitted(batch, Seats(maxCapacityWeight))
      ensures currentFloor == Land(old(currentFloor), RoundMoves(batch))
    {
      PickUpAll(batch);
      DropOffAll(batch);
      Append(startingFloor, old(trace), RoundMoves(batch));
    }

    /**
     * `findClosestPerson`: nothing for an empty list, otherwise the first
     * person whose origin is nearest the current floor.
     */
    method FindClosestPerson(people: seq<Person>) returns (closest: Option<Person>)
      ensures closest.None? <==> people == []
      ensures closest.Some? ==> closest.value == people[ClosestIndex(people, currentFloor)]
      ensures closest.Some? ==>
                && closest.value in people
                && forall p | p in people :: Distance(closest.value, currentFloor) <= Distance(p, currentFloor)
    {
      closest := None;
      var minDistance := 0;
      for i := 0 to |people|
        invariant closest.None? <==> i == 0
        invariant i > 0 ==> closest == Some(people[ClosestIndex(people[..i], currentFloor)])
        invariant i > 0 ==> minDistance == Distance(closest.value, currentFloor)
      {
        assert people[..i + 1][..i] == people[..i];
        var distance := Distance(people[i], currentFloor);
        if closest.None? || distance < minDistance {
          minDistance := distance;
          closest := Some(people[i]);
        }
      }
      assert people[..|people|] == people;
      if closest.Some? {
        ClosestIndexMinimal(people, currentFloor);
        forall p | p in people ensures Distance(closest.value, currentFloor) <= Distance(p, currentFloor) {
          var j :| 0 <= j < |people| && people[j] == p;
        }
      }
    }

    /**
     * `fcfs`: while people wait, collect from the queue front as long as the
     * car has room, pick them all up in list order, drop them all off in
     * list order, and remove them from the queue.
     */
    method Fcfs(waiting: seq<Person>)
      requires maxCapacityWeight >= PersonWeight && Distinct(waiting)
      modifies this`currentFloor, this`totalStops, this`totalFloorsTraveled, this`trace
      modifies this`passengers, this`boarded
      ensures Tracks() && passengers == []
      ensures trace == Trace(FcfsRounds(waiting))
      ensures boarded == Boarded(FcfsRounds(waiting), Seats(maxCapacityWeight))
    {
      Reset();
      var queue := waiting;
      ghost var done: seq<seq<Person>> := [];
      while queue != []
        invariant Tracks() && passengers == []
        invariant Distinct(queue)
        invariant done + FcfsRounds(queue) == FcfsRounds(waiting)
        invariant trace == Trace(done) && boarded == Boarded(done, Seats(maxCapacityWeight))
        decreases |queue|
      {
        var toPickUp := CollectInOrder(queue);
        ServeRound(toPickUp);
        Step(done, toPickUp, Seats(maxCapacityWeight));
        done := done + [toPickUp];
        WithoutCovered(queue, toPickUp);
        queue := RemoveEach(queue, toPickUp);
      }
    }

    /**
     * The collection loop of `fcfs`: queued persons in order while the car
     * has room.  The car is empty here, so everybody is collected.
     */
    method CollectInOrder(queue: seq<Person>) returns (toPickUp: seq<Person>)
      requires maxCapacityWeight >= PersonWeight && passengers == []
      ensures toPickUp == queue
    {
      toPickUp := [];
      var i := 0;
      while i < |queue|
        invariant 0 <= i <= |queue| && toPickUp == queue[..i]
      {
        if !CanTakeMorePassengers() {
          break;
        }
        toPickUp := toPickUp + [queue[i]];
        i := i + 1;
      }
      assert queue[..|queue|] == queue;
    }

    /**
     * The selection loop of one `sstf` round: up to `seats` times, take the
     * person closest to the current floor and remove them from the queue.
     * Answers the selection and the queue left over.
     */
    method SelectClosest(queue: seq<Person>, seats: nat) returns (toPickUp: seq<Person>, rest: seq<Person>)
      ensures toPickUp == Pick([], queue, currentFloor, seats).0
      ensures rest == Pick([], queue, currentFloor, seats).1
    {
      toPickUp, rest := [], queue;
      ghost var room: nat := seats;
      while |toPickUp| < seats
        invariant room == seats - |toPickUp|
        invariant Pick(toPickUp, rest, currentFloor, room) == Pick([], queue, currentFloor, seats)
        decreases room
      {
        var closest := FindClosestPerson(rest);
        if closest.None? {
          break;
        }
        PickStep(toPickUp, rest, currentFloor, room);
        toPickUp := toPickUp + [closest.value];
        rest := RemoveFirst(rest, closest.value);
        room := room - 1;
      }
    }

    /**
     * `sstf`: each round selects, up to the car's capacity, the person
     * closest to the floor the round starts on, removing each from the
     * queue; then picks them up and drops them off in selection order.
     */
    method Sstf(waiting: seq<Person>)
      requires maxCapacityWeight >= PersonWeight
      modifies this`currentFloor, this`totalStops, this`totalFloorsTraveled, this`trace
      modifies this`passengers, this`boarded
      ensures Tracks() && passengers == []
      ensures trace == Trace(SstfRounds(waiting, startingFloor, Seats(maxCapacityWeight)))
      ensures boarded == Boarded(SstfRounds(waiting, startingFloor, Seats(maxCapacityWeight)), Seats(maxCapacityWeight))
    {
      Reset();
      var seats := maxCapacityWeight / PersonWeight;
      var queue := waiting;
      ghost var done: seq<seq<Person>> := [];
      while queue != []
        invariant Tracks() && passengers == []
        invariant done + SstfRounds(queue, currentFloor, seats) == SstfRounds(waiting, startingFloor, seats)
        invariant trace == Trace(done) && boarded == Boarded(done, seats)
        decreases |queue|
      {
        SstfStep(queue, currentFloor, seats);
        var toPickUp;
        toPickUp, queue := SelectClosest(queue, seats);
        ghost var later := SstfRounds(queue, Land(currentFloor, RoundMoves(toPickUp)), seats);
        ServeRound(toPickUp);
        Step(done, toPickUp, seats);
        Regroup(done, toPickUp, later);
        done := done + [toPickUp];
      }
      assert done + [] == done;
    }

    /**
     * The collection loop of `scan` and `look`: every queued person ahead
     * of the car, provided the car has room (it is empty here).
     */
    method CollectAhead(queue: seq<Person>, up: bool) returns (toPickUp: seq<Person>)
      requires maxCapacityWeight >= PersonWeight && passengers == []
      ensures toPickUp == Matching(queue, currentFloor, up)
    {
      toPickUp := [];
      for i := 0 to |queue|
        invariant toPickUp == Matching(queue[..i], currentFloor, up)
      {
        MatchingStep(queue, i, currentFloor, up);
        if Ahead(queue[i], currentFloor, up) {
          if CanTakeMorePassengers() {
            toPickUp := toPickUp + [queue[i]];
          }
        }
      }
      assert queue[..|queue|] == queue;
    }

    /**
     * One round of `scan` or `look`: collect everyone ahead of the car,
     * serve them, and remove them from the queue.
     */
    method SweepRound(queue: seq<Person>, up: bool) returns (toPickUp: seq<Person>, rest: seq<Person>)
      requires maxCapacityWeight >= PersonWeight && Tracks() && passengers == [] && Distinct(queue)
      modifies this`currentFloor, this`totalStops, this`totalFloorsTraveled, this`trace
      modifies this`passengers, this`boarded
      ensures toPickUp == Matching(queue, old(currentFloor), up)
      ensures rest == Behind(queue, old(currentFloor), up) && Distinct(rest)
      ensures Tracks() && passengers == []
      ensures trace == old(trace) + RoundMoves(toPickUp)
      ensures boarded == old(boarded) + Admitted(toPickUp, Seats(maxCapacityWeight))
      ensures currentFloor == Land(old(currentFloor), RoundMoves(toPickUp))
    {
      toPickUp := CollectAhead(queue, up);
      RemoveCollected(queue, currentFloor, up);
      BehindDistinct(queue, currentFloor, up);
      ServeRound(toPickUp);
      rest := RemoveEach(queue, toPickUp);
    }

    /**
     * `scan`: each round collects everyone ahead of the car, serves them,
     * and reverses when nobody left in the queue is ahead of the floor the
     * round ended on.
     */
    method Scan(waiting: seq<Person>, initialDirection: bool)
      requires maxCapacityWeight >= PersonWeight && Distinct(waiting)
      modifies this`currentFloor, this`totalStops, this`totalFloorsTraveled, this`trace
      modifies this`passengers, this`boarded
      ensures Tracks() && passengers == []
      ensures trace == Trace(ScanRounds(waiting, startingFloor, initialDirection))
      ensures boarded == Boarded(ScanRounds(waiting, startingFloor, initialDirection), Seats(maxCapacityWeight))
    {
      Reset();
      var queue := waiting;
      var movingUp := initialDirection;
      ghost var done: seq<seq<Person>> := [];
      while queue != []
        invariant Tracks() && passengers == []
        invariant Distinct(queue)
        invariant done + ScanRounds(queue, currentFloor, movingUp) == ScanRounds(waiting, startingFloor, initialDirection)
        invariant trace == Trace(done) && boarded == Boarded(done, Seats(maxCapacityWeight))
        decreases |queue|, Measure(queue, currentFloor, movingUp)
      {
        ScanStep(queue, currentFloor, movingUp);
        var toPickUp;
        toPickUp, queue := SweepRound(queue, movingUp);
        var hasMatchingFloors := exists p | p in queue :: Ahead(p, currentFloor, movingUp);
        AnyAhead(queue, currentFloor, movingUp);
        if !hasMatchingFloors {
          movingUp := !movingUp;
        }
        if toPickUp != [] {
          ghost var later := ScanRounds(queue, currentFloor, movingUp);
          Step(done, toPickUp, Seats(maxCapacityWeight));
          Regroup(done, toPickUp, later);
          done := done + [toPickUp];
        }
      }
      assert done + [] == done;
    }

    /**
     * `look`: like `scan`, but reverses only after a round that collected
     * nobody.
     */
    method Look(waiting: seq<Person>, initialDirection: bool)
      requires maxCapacityWeight >= PersonWeight && Distinct(waiting)
      modifies this`currentFloor, this`totalStops, this`totalFloorsTraveled, this`trace
      modifies this`passengers, this`boarded
      ensures Tracks() && passengers == []
      ensures trace == Trace(LookRounds(waiting, startingFloor, initialDirection))
      ensures boarded == Boarded(LookRounds(waiting, startingFloor, initialDirection), Seats(maxCapacityWeight))
    {
      Reset();
      var queue := waiting;
      var movingUp := initialDirection;
      ghost var done: seq<seq<Person>> := [];
      while queue != []
        invariant Tracks() && passengers == []
        invariant Distinct(queue)
        invariant done + LookRounds(queue, currentFloor, movingUp) == LookRounds(waiting, startingFloor, initialDirection)
        invariant trace == Trace(done) && boarded == Boarded(done, Seats(maxCapacityWeight))
        decreases |queue|, Measure(queue, currentFloor, movingUp)
      {
        LookStep(queue, currentFloor, movingUp);
        var toPickUp;
        toPickUp, queue := SweepRound(queue, movingUp);
        if toPickUp == [] {
          movingUp := !movingUp;
        } else {
          ghost var later := LookRounds(queue, currentFloor, movingUp);
          Step(done, toPickUp, Seats(maxCapacityWeight));
          Regroup(done, toPickUp, later);
          done := done + [toPickUp];
        }
      }
      assert done + [] == done;
    }

    /**
     * The grouping loop of `destinationDispatch`: `computeIfAbsent(...).add(person)`
     * for every waiting person, in list order.
     */
    method GroupByDestination(waiting: seq<Person>) returns (destinations: map<int, seq<Person>>)
      ensures Grouped(destinations, waiting)
    {
      destinations := map[];
      for i := 0 to |waiting|
        invariant Grouped(destinations, waiting[..i])
      {
        var person := waiting[i];
        assert waiting[..i + 1] == waiting[..i] + [person];
        GroupedAppend(destinations, waiting[..i], person);
        var group := if person.destination in destinations then destinations[person.destination] else [];
        destinations := destinations[person.destination := group + [person]];
      }
      assert waiting[..|waiting|] == waiting;
    }

    /**
     * `destinationDispatch`: groups the waiting persons by destination
     * floor, then serves the groups in ascending floor order.
     */
    method DestinationDispatch(waiting: seq<Person>)
      modifies this`currentFloor, this`totalStops, this`totalFloorsTraveled, this`trace
      modifies this`passengers, this`boarded
      ensures Tracks() && passengers == []
      ensures trace == Trace(DestinationRounds(waiting))
      ensures boarded == Boarded(DestinationRounds(waiting), Seats(maxCapacityWeight))
    {
      Reset();
      var destinations := GroupByDestination(waiting);
      var floors := SortFloors(destinations.Keys);
      SortedKeys(destinations, waiting, floors);
      ghost var done: seq<seq<Person>> := [];
      for j := 0 to |floors|
        invariant Tracks() && passengers == []
        invariant done == Groups(waiting, floors[..j])
        invariant trace == Trace(done) && boarded == Boarded(done, Seats(maxCapacityWeight))
      {
        GroupsStep(waiting, floors, j);
        var group := destinations[floors[j]];
        ServeRound(group);
        Step(done, group, Seats(maxCapacityWeight));
        done := done + [group];
      }
      assert floors[..|floors|] == floors;
    }

    /**
     * `executeStrategy`: zeroes both counters and runs the policy named by
     * `strategy`, ignoring letter case; an unknown name runs FCFS.  SCAN
     * and LOOK start moving up.
     */
    method ExecuteStrategy(waiting: seq<Person>, strategy: string)
      requires maxCapacityWeight >= PersonWeight && UniqueIds(waiting)
      modifies this`currentFloor, this`totalStops, this`totalFloorsTraveled, this`trace
      modifies this`passengers, this`boarded
      ensures Tracks() && passengers == []
      ensures trace == StrategyTrace(ParseStrategy(strategy), startingFloor, maxCapacityWeight, waiting)
      ensures boarded == Boarded(StrategyRounds(ParseStrategy(strategy), startingFloor, maxCapacityWeight, waiting),
                                 Seats(maxCapacityWeight))
      ensures totalStops == StrategyStops(ParseStrategy(strategy), startingFloor, maxCapacityWeight, waiting)
      ensures totalFloorsTraveled == StrategyTravel(ParseStrategy(strategy), startingFloor, maxCapacityWeight, waiting)
    {
      totalStops := 0;
      totalFloorsTraveled := 0;
      UniqueIdsDistinct(waiting);
      match Lower(strategy) {
        case "fcfs" =>
          ParseName(Strategy.Fcfs, strategy);
          Fcfs(waiting);
        case "sstf" =>
          ParseName(Strategy.Sstf, strategy);
          Sstf(waiting);
        case "scan" =>
          ParseName(Strategy.Scan, strategy);
          Scan(waiting, true);
        case "look" =>
          ParseName(Strategy.Look, strategy);
          Look(waiting, true);
        case "destination" =>
          ParseName(Strategy.Destination, strategy);
          DestinationDispatch(waiting);
        case _ =>
          UnknownIsFcfs(strategy);
          Fcfs(waiting);
      }
    }

    /**
     * `simulateStrategy`: runs a policy and answers its stop count, then puts
     * both counters back as they were.  The car is left empty, on whatever
     * floor the run ended.
     */
    method SimulateStrategy(waiting: seq<Person>, strategy: string) returns (flights: int)
      requires maxCapacityWeight >= PersonWeight && UniqueIds(waiting)
      modifies this`currentFloor, this`totalStops, this`totalFloorsTraveled, this`trace
      modifies this`passengers, this`boarded
      ensures flights == StrategyStops(ParseStrategy(strategy), startingFloor, maxCapacityWeight, waiting)
      ensures totalStops == old(totalStops) && totalFloorsTraveled == old(totalFloorsTraveled)
      ensures passengers == []
    {
      var originalTotalStops := totalStops;
      var originalTotalFloorsTraveled := totalFloorsTraveled;
      ExecuteStrategy(waiting, strategy);
      flights := totalStops;
      totalStops := originalTotalStops;
      totalFloorsTraveled := originalTotalFloorsTraveled;
    }

    /**
     * `rankStrategies`: runs every policy in turn and records its stops and
     * floors travelled under its name.  The car is left as the last run
     * (destination dispatch) left it.
     */
    method RankStrategies(waiting: seq<Person>) returns (results: map<string, (int, int)>)
      requires maxCapacityWeight >= PersonWeight && UniqueIds(waiting)
      modifies this`currentFloor, this`totalStops, this`totalFloorsTraveled, this`trace
      modifies this`passengers, this`boarded
      ensures forall s: Strategy ::
                && Name(s) in results
                && results[Name(s)] == (StrategyStops(s, startingFloor, maxCapacityWeight, waiting),
                                        StrategyTravel(s, startingFloor, maxCapacityWeight, waiting))
      ensures forall name | name in results :: name == Name(ParseStrategy(name))
    {
      results := map[];
      for i := 0 to |AllStrategies|
        invariant results == RankTable(AllStrategies[..i], startingFloor, maxCapacityWeight, waiting)
      {
        var strategy := Name(AllStrategies[i]);
        ExecuteStrategy(waiting, strategy);
        NameRoundTrip(AllStrategies[i]);
        assert AllStrategies[..i + 1][..i] == AllStrategies[..i];
        results := results[strategy := (totalStops, totalFloorsTraveled)];
      }
      assert AllStrategies[..|AllStrategies|] == AllStrategies;
      RankTableEntries(AllStrategies, startingFloor, maxCapacityWeight, waiting);
      forall s: Strategy ensures Name(s) in results && ParseStrategy(Name(s)) == s {
        EveryStrategyListed(s);
        NameRoundTrip(s);
      }
    }
  }
}
