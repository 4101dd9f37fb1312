# Elevator dispatch, modelled in Dafny

A model of a small elevator simulator. One car serves a list of waiting
persons. Each person has an id, the floor they wait on and the floor they
want to reach. The car serves them under one of five dispatch policies:

- first come, first served (FCFS);
- shortest seek time first (SSTF);
- SCAN;
- LOOK;
- destination dispatch.

The car counts two things: stops (moves to a different floor) and the floors
it travels. The driver runs every policy on the same list, reports the one
with the fewest stops, runs the policy the user picked and says whether that
was a good choice.

## How the model is organised

- `Moves` (moves.dfy): what a sequence of `moveToFloor` calls costs. The car
  lands on the last target; a move to the current floor is not a stop; the
  distance is the sum of absolute differences.
- `Passengers` (person.dfy): the `Person` record as a datatype.
- `Queues` (queues.dfy): `List.remove` on the working queue.
- `Rounds` (rounds.dfy): a run as a list of rounds. Each round moves to every
  origin of a batch in order, boarding while the car has room, then to every
  destination in order.
- `ShortestSeek` (sstf.dfy), `Sweep` (sweep.dfy) and `DestinationGroups`
  (destination.dfy): the rounds each policy serves, as functions of the
  waiting list.
- `Strategies` (strategies.dfy): policy names, selection by
  `String.toLowerCase` with the FCFS fallback, and whole-run results.
- `Dispatch` (elevator.dfy): the `Elevator` class with the source's fields
  and methods.
  - Ghost field `trace` records the floors passed to `moveToFloor` since
    the last reset.
  - Ghost field `boarded` records the persons accepted on board.
  - `Tracks()` says the floor and both counters follow from `trace`.
  - Every policy method is proved to make exactly the moves of its run
    function.
- `Client` (client.dfy): building the waiting list from the accepted input,
  `findMostEfficientStrategy`, `provideFeedback` and the body of `main`.
  `main` accepts a policy name with `String.equalsIgnoreCase`, which compares
  characters through `Character.toUpperCase` and then `Character.toLowerCase`
  (`Fold`). `executeStrategy` instead switches on `String.toLowerCase`. The
  two agree on every name without a long s, a dotless i or a dotted capital
  I (`Plain`), and not otherwise (see "Findings").

Two facts of the source shape the model:

- A round always starts with an empty car, because every round drops off
  everyone it picked up. So the weight check in the collection loops of
  FCFS, SCAN and LOOK never refuses anyone. Those policies collect every
  eligible person in one round. Persons beyond the car's capacity are
  refused by `pickUpPerson`, yet still removed from the queue, so they are
  never carried (`Strategies.FcfsRun`, `Rounds.Admitted`).
- SSTF collects at most `maxCapacityWeight / 180` persons per round, so
  everyone it collects is carried (`ShortestSeek.SstfBoardsEveryone`).

With a capacity under 180 lb, the FCFS, SSTF, SCAN and LOOK loops never
finish. The model therefore requires a capacity of at least 180 lb for
those policies. The driver always uses 2200 lb.

## Model

| member | source | states |
|---|---|---|
| Moves.LandIsLastTarget | Elevator.java:31 | after at least one call the car is on the last floor requested |
| Moves.Append | Elevator.java:27-36 | landing floor, stops and distance of two consecutive stretches of moves compose |
| Moves.MoveOnce | Elevator.java:27-36 | one more call adds a stop and its distance exactly when the floor differs from the current one |
| Moves.StopsBounds | Elevator.java:28-32 | at most one stop per call, and every stop travels at least one floor |
| Moves.SameFloorOnce | Elevator.java:28-35 | repeated calls to one floor count at most one stop, and none if the car is already there |
| Passengers.Origins | Person.java:16-18 | the floors a list of persons waits on, position by position |
| Passengers.Destinations | Person.java:20-22 | the floors a list of persons wants to reach, position by position |
| Passengers.FloorsStep | Elevator.java:157-165 | a loop over one more person of a list visits one more origin, or destination, at the end |
| Passengers.UniqueIdsDistinct | Client.java:31-46 | a list with unique ids has no repeated entry, so removal by value is removal by identity |
| Queues.RemoveFirst | Elevator.java:62 | `List.remove`: one occurrence fewer when present, the list unchanged when absent |
| Queues.RemoveFirstAt | Elevator.java:183 | removing the first entry equal to the one at position k removes position k |
| Queues.RemoveFirstAfter | Elevator.java:183 | `List.remove(x)` on a list where `x` first occurs after a stretch without it removes that occurrence and keeps the rest in order |
| Queues.WithoutNothing | Elevator.java:166 | removing nobody leaves the queue as it was |
| Queues.WithoutSubset | Elevator.java:166 | a removed person is gone, and removing them again changes nothing |
| Queues.RemoveFirstWithout | Elevator.java:166 | on a list without repeats, successive `remove` calls leave the entries not removed, in order |
| Queues.RemoveEach | Elevator.java:163-167 | the removal loop leaves exactly the queue minus the batch |
| Queues.WithoutMembers | Elevator.java:166 | what is left was queued and was not removed, and nothing new appears |
| Queues.WithoutCovered | Elevator.java:144-167 | removing every queued person empties the queue, which ends the FCFS loop |
| Rounds.RoundMoves | Elevator.java:156-165 | a round makes two moves per person in its batch |
| Rounds.Admitted | Elevator.java:44-51 | starting empty, `pickUpPerson` accepts the first `seats` persons of a batch and all of them when they fit |
| Rounds.AdmittedStep | Elevator.java:44-51 | on an empty car, the next person of a batch finds room exactly when fewer than `seats` persons came before, and then boards at the end |
| Rounds.DropOffStep | Elevator.java:61-64 | `passengers.remove(person)` on the next person of the batch removes the next boarder, and a refused person's removal changes nothing |
| Rounds.Step | Elevator.java:144-168 | one more round adds its moves, its persons and its admitted persons to the run |
| Rounds.Split | Elevator.java:144-168 | a run split in two splits its moves, its persons and its boarded persons |
| Rounds.SplitTrace | Elevator.java:144-168 | the moves of two runs in sequence are the moves of each |
| Rounds.SplitConcat | Elevator.java:144-168 | the persons served by two runs in sequence are those of each |
| Rounds.SplitBoarded | Elevator.java:144-168 | the persons boarded by two runs in sequence are those of each |
| Rounds.TraceLength | Elevator.java:156-165 | a run makes two moves per served person |
| Rounds.RunBounds | Elevator.java:27-36 | a run serving each waiting person once counts at most two stops per person and no more stops than floors travelled |
| Rounds.RoundEnd | Elevator.java:163-165 | a round ends on the destination of its last person |
| ShortestSeek.ClosestIndex | Elevator.java:297-310 | `findClosestPerson` picks a position of the non-empty list (see ClosestIndexMinimal) |
| ShortestSeek.ClosestIndexMinimal | Elevator.java:301-306 | the chosen person is nearest to the car, and every earlier person is strictly farther: ties go to the first |
| ShortestSeek.RemoveClosest | Elevator.java:179-183 | `queue.remove(closest)` removes exactly the chosen position |
| ShortestSeek.PickStep | Elevator.java:178-183 | one pass of the collection loop moves the closest person from the queue to the selection and leaves room for one fewer |
| ShortestSeek.PickSplits | Elevator.java:177-184 | collection takes as many persons as there are seats or queued persons, whichever is fewer, and splits the queue without loss |
| ShortestSeek.PickKeeps | Elevator.java:182 | collection only appends to what was already collected |
| ShortestSeek.SstfStep | Elevator.java:176-195 | each SSTF round shrinks the queue, and the run is that round followed by the run from where it ended |
| ShortestSeek.PickFirst | Elevator.java:179-182 | the first person collected in a round is the one nearest to the car, ties to the first queued |
| ShortestSeek.SstfServesEach | Elevator.java:172-196 | SSTF serves each waiting person exactly once |
| ShortestSeek.SstfBoardsEveryone | Elevator.java:178 | no SSTF batch exceeds the seats, so every person served is carried |
| Sweep.Matching | Elevator.java:206-213 | the persons collected are exactly the queued persons ahead of the car in the direction of travel |
| Sweep.MatchingConcat | Elevator.java:206-213 | collecting from two stretches of the queue collects from the first, then from the second |
| Sweep.MatchingStep | Elevator.java:206-213 | the collection loop looking at one more queued person adds that person exactly when they are ahead of the car |
| Sweep.Behind | Elevator.java:215-219 | what stays queued is behind the car |
| Sweep.Partition | Elevator.java:206-219 | collected and remaining persons split the queue without loss |
| Sweep.NothingCollected | Elevator.java:206-219 | a round collecting nobody leaves the queue as it was |
| Sweep.Reversible | Elevator.java:229-231 | when nobody is ahead, somebody is ahead in the other direction |
| Sweep.RemoveCollected | Elevator.java:215-219 | removing the collected persons leaves exactly those behind |
| Sweep.WithoutAhead | Elevator.java:218 | removing the persons ahead from the queue leaves those behind |
| Sweep.AnyAhead | Elevator.java:227-228 | `anyMatch` holds exactly when a round from the current floor would collect someone |
| Sweep.ScanStep | Elevator.java:203-232 | one SCAN round: an empty round reverses on the same floor; otherwise the queue shrinks and the run goes on, reversing when nobody is left ahead |
| Sweep.LookStep | Elevator.java:241-267 | one LOOK round: reverses only after a round that collected nobody |
| Sweep.ScanIsLook | Elevator.java:198-268 | SCAN and LOOK serve the same batches in the same order |
| Sweep.ScanServesEach | Elevator.java:198-233 | SCAN serves each waiting person exactly once |
| Sweep.BehindDistinct | Elevator.java:200 | a queue without repeats keeps that property after a round |
| DestinationGroups.Insert | Elevator.java:279-280 | inserting into an ascending list of floors keeps it ascending and adds exactly the new floor |
| DestinationGroups.DestinationFloors | Elevator.java:279-280 | the sorted key list: ascending, holding exactly the destinations |
| DestinationGroups.Group | Elevator.java:275-277 | a group holds persons of the list bound for that floor, and is empty exactly when nobody is |
| DestinationGroups.GroupAppend | Elevator.java:276 | adding a person adds them to the end of their own group only |
| DestinationGroups.GroupedAppend | Elevator.java:276 | `computeIfAbsent(...).add(person)` keeps the map equal to the grouping of the persons seen |
| DestinationGroups.GroupedLookup | Elevator.java:276 | `computeIfAbsent` on a grouped map finds the group of the destination, and an empty list for a destination not yet seen |
| DestinationGroups.GroupedKeys | Elevator.java:276 | after adding a person, the map's keys are exactly the destinations seen so far |
| DestinationGroups.GroupedValues | Elevator.java:276 | after adding a person to their destination's list, every list is the group of its destination among the persons seen |
| DestinationGroups.Groups | Elevator.java:282-283 | one group per floor, in floor order |
| DestinationGroups.GroupsStep | Elevator.java:282-283 | the serving loop over one more floor serves that floor's group after the others |
| DestinationGroups.Ascending | Elevator.java:280-282 | groups are served in ascending destination order |
| DestinationGroups.LowestExists | Elevator.java:280 | a non-empty set of floors has a lowest one |
| DestinationGroups.SortFloors | Elevator.java:279-280 | sorting the key set gives an ascending list of exactly the keys |
| DestinationGroups.SortedUnique | Elevator.java:279-280 | two ascending lists with the same members are equal, so the sort has one result |
| DestinationGroups.HeadIsLeast | Elevator.java:280 | the first floor of an ascending list is its lowest |
| DestinationGroups.TailMembers | Elevator.java:279-280 | two ascending lists with the same floors and the same first floor have the same floors after it |
| DestinationGroups.SortedKeys | Elevator.java:279-283 | the sorted keys are the destination floors, and each looks up its group |
| DestinationGroups.OnOneMoreFloor | Elevator.java:282-294 | serving one more floor adds exactly the persons bound for it |
| DestinationGroups.OnAllFloors | Elevator.java:282-294 | serving every destination floor covers the whole list |
| DestinationGroups.GroupsServe | Elevator.java:282-294 | the groups of distinct floors hold each person bound for them once |
| DestinationGroups.OnNoFloor | Elevator.java:282 | serving no floor serves nobody |
| DestinationGroups.DestinationServesEach | Elevator.java:271-295 | destination dispatch serves each waiting person exactly once |
| DestinationGroups.GroupStops | Elevator.java:290-293 | dropping off a group counts at most one stop |
| DestinationGroups.GroupsStops | Elevator.java:282-294 | stops are bounded by persons served plus floors served |
| DestinationGroups.DestinationStops | Elevator.java:271-295 | a run counts at most one stop per person plus one per distinct destination |
| DestinationGroups.DestinationEnd | Elevator.java:282-294 | the car ends on the highest destination floor |
| DestinationGroups.HighestLast | Elevator.java:280 | every floor of an ascending list is at most its last |
| DestinationGroups.GroupsEnd | Elevator.java:290-293 | the run ends on the last floor served |
| Strategies.SeatsMeaning | Elevator.java:39-42 | the weight test is the same as fewer persons aboard than `maxCapacityWeight / 180` |
| Strategies.Lower | Elevator.java:113 | `String.toLowerCase` leaves no ASCII capital, and lengthens the name exactly when it holds a dotted capital I |
| Strategies.LowerAppend | Elevator.java:113 | lower-casing a concatenation lower-cases each part |
| Strategies.LowerStringFixed | Elevator.java:113 | the lower case of one lower-cased character is itself |
| Strategies.LowerOfLetters | Elevator.java:113 | a name of ASCII small letters is its own lower case |
| Strategies.NameLetters | Elevator.java:114-126 | the five policy names are spelled in ASCII small letters only |
| Strategies.LowerIdempotent | Elevator.java:113 | lower-casing twice changes nothing more |
| Strategies.ParseName | Elevator.java:113-128 | every policy is selected by its name in any letter case |
| Strategies.UnknownIsFcfs | Elevator.java:129-131 | a name that is none of the five runs FCFS |
| Strategies.ParseIgnoresCase | Elevator.java:113 | selection ignores letter case |
| Strategies.LowerName | Elevator.java:114-126 | the five names are already lower case |
| Strategies.NameRoundTrip | Elevator.java:113-128 | a policy's own name selects that policy |
| Strategies.EveryStrategyListed | Elevator.java:92 | the list of policies tried names all five |
| Strategies.RankTableEntries | Elevator.java:94-97 | after running some policies, the result map has an entry for each, and each entry holds the stops and distance of the policy its key names |
| Strategies.FcfsRun | Elevator.java:140-169 | FCFS visits every origin in list order, then every destination, and carries only the first persons that fit |
| Strategies.ServesEach | Elevator.java:109-132 | every policy serves each waiting person exactly once |
| Strategies.RunCost | Elevator.java:109-132 | every policy counts at most two stops per person, and no more stops than floors travelled |
| Strategies.ScanMatchesLook | Elevator.java:120-125 | SCAN and LOOK make the same moves, so they end with the same counters and floor |
| Strategies.NobodyWaiting | Elevator.java:109-132 | with nobody waiting, every policy completes without moving |
| Dispatch.Elevator.constructor | Elevator.java:18-25 | the car starts on the given floor, empty, with both counters at zero |
| Dispatch.Elevator.OnGroundFloor | Elevator.java:13-15 | the one-argument constructor starts on floor 0 |
| Dispatch.Elevator.MoveToFloor | Elevator.java:27-36 | the car is on the floor afterwards; a different floor adds one stop and the distance, the same floor adds nothing |
| Dispatch.Elevator.CanTakeMorePassengers | Elevator.java:39-42 | holds exactly when fewer persons are aboard than fit |
| Dispatch.Elevator.PickUpPerson | Elevator.java:44-51 | appends the person when there is room and changes nothing otherwise; the load never exceeds the capacity |
| Dispatch.Elevator.DropOffPerson | Elevator.java:61-64 | removes the person's first occurrence from the passengers |
| Dispatch.Elevator.Reset | Elevator.java:66-71 | back on the starting floor, empty, counters at zero |
| Dispatch.Elevator.PickUpAll | Elevator.java:157-160 | visits each origin of the batch in order and boards the persons that fit |
| Dispatch.Elevator.MoveAndPickUp | Elevator.java:157-160 | one pickup step: the car moves to the person's origin and the person boards exactly when a seat is free |
| Dispatch.Elevator.DropOffAll | Elevator.java:163-166 | visits each destination of the batch in order and leaves the car empty |
| Dispatch.Elevator.ServeRound | Elevator.java:156-167 | one round makes the batch's moves, boards the admitted persons and ends where those moves end |
| Dispatch.Elevator.FindClosestPerson | Elevator.java:297-310 | null exactly for an empty list; otherwise a listed person nearest to the car, the first such |
| Dispatch.Elevator.Fcfs | Elevator.java:140-169 | makes exactly the moves and boardings of the FCFS run from the starting floor |
| Dispatch.Elevator.CollectInOrder | Elevator.java:145-154 | an empty car has room, so the collection loop takes the whole queue in order |
| Dispatch.Elevator.SelectClosest | Elevator.java:177-184 | the collection loop takes the persons and leaves the queue the SSTF round specifies |
| Dispatch.Elevator.Sstf | Elevator.java:172-196 | makes exactly the moves and boardings of the SSTF run |
| Dispatch.Elevator.CollectAhead | Elevator.java:204-213 | collects exactly the queued persons ahead of the car, in queue order |
| Dispatch.Elevator.SweepRound | Elevator.java:204-224 | one SCAN or LOOK round collects the persons ahead, leaves exactly those behind in the queue, and makes the round's moves and boardings with the car ending empty |
| Dispatch.Elevator.Scan | Elevator.java:198-233 | makes exactly the moves and boardings of the SCAN run |
| Dispatch.Elevator.Look | Elevator.java:236-268 | makes exactly the moves and boardings of the LOOK run |
| Dispatch.Elevator.GroupByDestination | Elevator.java:273-277 | the map sends each destination to the persons bound there, in list order |
| Dispatch.Elevator.DestinationDispatch | Elevator.java:271-295 | makes exactly the moves and boardings of the destination-dispatch run |
| Dispatch.Elevator.ExecuteStrategy | Elevator.java:109-137 | runs the selected policy from a reset car; the counters end at that run's stops and distance |
| Dispatch.Elevator.SimulateStrategy | Elevator.java:73-88 | answers the selected policy's stop count and puts both counters back |
| Dispatch.Elevator.RankStrategies | Elevator.java:90-106 | records under each policy's name its run's stops and distance, and nothing else |
| Client.Arrivals | Client.java:30-48 | the waiting list holds one person per answer |
| Client.ArrivalsShape | Client.java:30-48 | ids count up from 1, origins are floors of the building in ascending order, each destination is one typed for that floor |
| Client.ArrivalsValid | Client.java:33-47 | accepted answers give unique ids and destinations within the building, different from the origin |
| Client.CollectWaiting | Client.java:30-48 | the nested input loops build exactly that waiting list |
| Client.FlightsTableEntries | Client.java:73-79 | the stop-count map has an entry for each policy run, and each entry holds the stops of the policy its key names |
| Client.Fewest | Client.java:81-85 | a least-stops policy of the list, as a witness for the minimum search (ties are left open, see Left out) |
| Client.FewestIsLeast | Client.java:81-85 | no policy run has fewer stops than that witness |
| Client.FindMostEfficientStrategy | Client.java:72-91 | answers one of the five names, whose policy has no more stops than any other; the car's counters are unchanged |
| Client.SameLetterFold | Client.java:53-57 | two characters pass `equalsIgnoreCase`'s test against an ASCII small letter exactly when the first folds to it |
| Client.EqualsNameFolded | Client.java:53-57 | a name equals a policy's name ignoring case exactly when its fold is that name |
| Client.MatchesOneName | Client.java:53-57 | a name matches at most one policy's name ignoring case |
| Client.KnownNameFolds | Client.java:52-60 | an accepted name folds to the name of the policy it matches |
| Client.PlainLower | Elevator.java:113 | without long s, dotless i or dotted capital I, `toLowerCase` gives the fold |
| Client.NonPlainLower | Elevator.java:113-131 | with any of those three characters, `toLowerCase` gives none of the five names |
| Client.KnownNameSelects | Client.java:52-64 | an accepted name without those characters runs the policy it matched; with one of them it runs the FCFS fallback |
| Client.FoldLower | Client.java:66 | without a dotted capital I, lower-casing first does not change the fold |
| Client.OnlyDestinationHasI | Client.java:53-57 | of the five names only "destination" holds an i |
| Client.DottedMeansDestination | Client.java:53-57 | an accepted name with a dotted capital I matched "destination", and its lower case is longer than eleven characters |
| Client.GoodChoiceUndotted | Client.java:94-97 | without a dotted capital I the feedback is positive exactly when the matched policy is the best |
| Client.GoodChoiceDotted | Client.java:94-98 | with a dotted capital I the feedback is never positive |
| Client.GoodChoiceMeansSamePolicy | Client.java:94-101 | the feedback on the lower-cased name is positive exactly when it has no dotted capital I and the policy it matched is the best |
| Client.LongScanRunsFcfs | Client.java:53-66 | "ſcan" is accepted as SCAN, runs FCFS, and is judged as SCAN |
| Client.IntendedPolicy | Client.java:53-57 | the one policy whose name the accepted name equals, ignoring case |
| Client.IntendedPolicyAgrees | Client.java:52-66 | on plain names the folded switch and `executeStrategy` agree, and positive feedback names the policy it matched |
| Client.Simulation | Client.java:28-66 | the reported best policy has the fewest stops; the feedback is positive exactly when the name has no dotted capital I and matched the best policy; the chosen run's stops and distance are reported |

## Left out

- Console output (`System.out.println`) and the narration of each move are not modelled.
- Console input (`Scanner`) and the re-prompting loops of `main` are not modelled. `Client.Simulation` takes the accepted answers as parameters and requires what those loops guarantee.
- The introductory text of `main` (`introPartOne`, `introPartTwo`) is not modelled.
- The getters of `Person` and `Elevator` are not modelled. The datatype fields and class fields are read directly.
- Dispatch.Elevator.RankStrategies: does not state the car's state after the last run, and does not model the printing of the results sorted by stops.
- Dispatch.Elevator.SimulateStrategy: does not state the floor the car is left on or the moves it made. Only the stop count, the restored counters and the empty car are stated.
- Client.FindMostEfficientStrategy: the source breaks ties by `HashMap` iteration order, which Java does not specify. The model picks any name with the fewest stops.
- Java `int` overflow of the counters and of `Math.abs`, and the `Integer.MAX_VALUE` start of the minimum search, are not modelled. Integers are unbounded, and no distance reaches that sentinel.
- A capacity under 180 lb makes FCFS, SSTF, SCAN and LOOK loop forever. This is stated as a precondition of those methods.
- `toLowerCase` and `equalsIgnoreCase` are modelled on the ASCII letters and on the characters whose case mappings meet them: long s (U+017F), dotless i (U+0131), dotted capital I (U+0130) and the Kelvin sign (U+212A). Every other character is treated as caseless, which changes no comparison with the five ASCII policy names.
- Client.Simulation: models a default locale that is not Turkish or Azeri. In those locales `toLowerCase` maps "I" to a dotless i, so an accepted "DESTINATION" would run FCFS too.
- Client.KnownNameSelects: assumes the same non-Turkish default locale as `Client.Simulation`.
- Client.GoodChoiceMeansSamePolicy: assumes the same non-Turkish default locale as `Client.Simulation`.
- The queue removals of FCFS, SCAN and LOOK are modelled after each round's moves rather than interleaved with them. The removals do not affect the moves.
- `Person` has no `equals`, so Java removes by identity. The model removes by value and requires unique ids (which `main` guarantees), proving that no two list entries are then equal.
- The SSTF queue removal is modelled by position. It is proved equal to `List.remove` of the chosen person.

## Findings

| source | as written | input that shows it | evidently intended | confidence | as-written member | corrected member |
|---|---|---|---|---|---|---|
| Client.java:53-66 | `main` accepts a name by `equalsIgnoreCase`, but `executeStrategy` selects by `toLowerCase`, and the two disagree on long s, dotless i and dotted capital I | "ſcan" (long s) is accepted as SCAN, lower-cases to "ſcan", runs FCFS, and is judged as SCAN by the feedback | run the policy the accepted name matched | not executed | Client.LongScanRunsFcfs | Client.IntendedPolicy |
