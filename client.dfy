/**
 * The driver (Client.java): the waiting list built from the answers typed
 * in, the comparison of the five policies, and the feedback on the
 * policy the user picked.  Reading from the console is replaced by the
 * answers themselves, already accepted by the re-prompting loops.
 */
module Client {
  import opened Moves
  import opened Passengers
  import opened Strategies
  import opened Dispatch

  /** The car the simulation uses, in pounds. */
  const Capacity: int := 2200

  /** How many persons the answers describe in total. */
  function Count(answers: seq<seq<int>>): nat
  {
    if answers == [] then 0 else Count(answers[..|answers| - 1]) + |answers[|answers| - 1]|
  }

  /** The persons waiting on floor `floor`, numbered on from `firstId`. */
  function FloorArrivals(destinations: seq<int>, floor: int, firstId: int): (r: seq<Person>)
    ensures |r| == |destinations|
    ensures forall j | 0 <= j < |r| :: r[j] == Person(firstId + j, floor, destinations[j])
  {
    seq(|destinations|, j requires 0 <= j < |destinations| => Person(firstId + j, floor, destinations[j]))
  }

  /**
   * The waiting list the input loops of `main` build: floor by floor, in
   * the order the destinations were typed, with ids 1, 2, 3, ...
   */
  function Arrivals(answers: seq<seq<int>>): (r: seq<Person>)
    ensures |r| == Count(answers)
  {
    if answers == [] then []
    else
      var n := |answers| - 1;
      Arrivals(answers[..n]) + FloorArrivals(answers[n], n, Count(answers[..n]) + 1)
  }

  /** Ids count up from 1 in list order, every person waits on a floor of the building, floors ascend. */
  lemma {:induction false} ArrivalsShape(answers: seq<seq<int>>)
    ensures forall k | 0 <= k < |Arrivals(answers)| :: Arrivals(answers)[k].id == k + 1
    ensures forall k | 0 <= k < |Arrivals(answers)| :: 0 <= Arrivals(answers)[k].origin < |answers|
    ensures forall k, l | 0 <= k <= l < |Arrivals(answers)| ::
              Arrivals(answers)[k].origin <= Arrivals(answers)[l].origin
    ensures forall k | 0 <= k < |Arrivals(answers)| ::
              Arrivals(answers)[k].destination in answers[Arrivals(answers)[k].origin]
  {
    if answers != [] {
      var n := |answers| - 1;
      var front := answers[..n];
      ArrivalsShape(front);
      var r, a, b := Arrivals(answers), Arrivals(front), FloorArrivals(answers[n], n, Count(front) + 1);
      assert r == a + b;
      forall k | 0 <= k < |r|
        ensures r[k].id == k + 1 && 0 <= r[k].origin <= n
        ensures r[k].destination in answers[r[k].origin]
      {
        if k < |a| {
          assert r[k] == a[k];
          assert front[a[k].origin] == answers[a[k].origin];
        } else {
          assert r[k] == b[k - |a|];
          assert answers[n][k - |a|] in answers[n];
        }
      }
    }
  }

  /** The destinations accepted by `main`: a floor of the building other than the person's own. */
  predicate ValidAnswers(numFloors: int, answers: seq<seq<int>>)
  {
    && |answers| == numFloors
    && forall i, j | 0 <= i < |answers| && 0 <= j < |answers[i]| ::
         0 <= answers[i][j] < numFloors && answers[i][j] != i
  }

  /** What a waiting list built by `main` satisfies. */
  predicate ValidWaiting(numFloors: int, waiting: seq<Person>)
  {
    && UniqueIds(waiting)
    && forall k | 0 <= k < |waiting| ::
         && 0 <= waiting[k].origin < numFloors
         && 0 <= waiting[k].destination < numFloors
         && waiting[k].destination != waiting[k].origin
  }

  /** Accepted answers make a valid waiting list. */
  lemma ArrivalsValid(numFloors: int, answers: seq<seq<int>>)
    requires ValidAnswers(numFloors, answers)
    ensures ValidWaiting(numFloors, Arrivals(answers))
  {
    ArrivalsShape(answers);
    var r := Arrivals(answers);
    forall k | 0 <= k < |r|
      ensures 0 <= r[k].destination < numFloors && r[k].destination != r[k].origin
    {
      var i := r[k].origin;
      var j :| 0 <= j < |answers[i]| && answers[i][j] == r[k].destination;
    }
  }

  /**
   * The nested input loops of `main`: for every floor, for every person
   * waiting there, a `Person` with the next id.
   */
  method CollectWaiting(answers: seq<seq<int>>) returns (waitingPeople: seq<Person>)
    ensures waitingPeople == Arrivals(answers)
  {
    waitingPeople := [];
    var personId := 1;
    for i := 0 to |answers|
      invariant waitingPeople == Arrivals(answers[..i])
      invariant personId == Count(answers[..i]) + 1
    {
      assert answers[..i + 1][..i] == answers[..i];
      for j := 0 to |answers[i]|
        invariant waitingPeople == Arrivals(answers[..i]) + FloorArrivals(answers[i][..j], i, Count(answers[..i]) + 1)
        invariant personId == Count(answers[..i]) + j + 1
      {
        assert FloorArrivals(answers[i][..j + 1], i, Count(answers[..i]) + 1)
               == FloorArrivals(answers[i][..j], i, Count(answers[..i]) + 1) + [Person(personId, i, answers[i][j])];
        waitingPeople := waitingPeople + [Person(personId, i, answers[i][j])];
        personId := personId + 1;
      }
      assert answers[i][..|answers[i]|] == answers[i];
    }
    assert answers[..|answers|] == answers;
  }

  /** The `flightsCount` map after the policies `ss` were simulated: each name to its stop count. */
  function FlightsTable(ss: seq<Strategy>, startingFloor: int, maxCapacityWeight: int, waiting: seq<Person>)
    : map<string, int>
    requires maxCapacityWeight >= PersonWeight
  {
    if ss == [] then map[]
    else
      var s := ss[|ss| - 1];
      FlightsTable(ss[..|ss| - 1], startingFloor, maxCapacityWeight, waiting)
        [Name(s) := StrategyStops(s, startingFloor, maxCapacityWeight, waiting)]
  }

  /** Every policy simulated has an entry, and every entry is a policy's name with its stop count. */
  lemma {:induction false} FlightsTableEntries(ss: seq<Strategy>, startingFloor: int, maxCapacityWeight: int,
                                               waiting: seq<Person>)
    requires maxCapacityWeight >= PersonWeight
    ensures forall s | s in ss :: Name(s) in FlightsTable(ss, startingFloor, maxCapacityWeight, waiting)
    ensures forall name | name in FlightsTable(ss, startingFloor, maxCapacityWeight, waiting) ::
              && name == Name(ParseStrategy(name))
              && FlightsTable(ss, startingFloor, maxCapacityWeight, waiting)[name]
                 == StrategyStops(ParseStrategy(name), startingFloor, maxCapacityWeight, waiting)
  {
    if ss != [] {
      var front, last := ss[..|ss| - 1], ss[|ss| - 1];
      FlightsTableEntries(front, startingFloor, maxCapacityWeight, waiting);
      NameRoundTrip(last);
      forall s | s in ss ensures Name(s) in FlightsTable(ss, startingFloor, maxCapacityWeight, waiting) {
        if s != last {
          assert s in front;
        }
      }
    }
  }

  /**
   * A least-stops policy of `ss`: a witness for the minimum search, which
   * settles ties in `HashMap` order instead (see README, "Left out").
   */
  function Fewest(ss: seq<Strategy>, startingFloor: int, maxCapacityWeight: int, waiting: seq<Person>): (r: Strategy)
    requires ss != [] && maxCapacityWeight >= PersonWeight
    ensures r in ss
  {
    if |ss| == 1 then ss[0]
    else
      var best := Fewest(ss[..|ss| - 1], startingFloor, maxCapacityWeight, waiting);
      var last := ss[|ss| - 1];
      if StrategyStops(last, startingFloor, maxCapacityWeight, waiting)
         < StrategyStops(best, startingFloor, maxCapacityWeight, waiting)
      then last
      else best
  }

  /** No policy of `ss` has fewer stops than `Fewest`. */
  lemma {:induction false} FewestIsLeast(ss: seq<Strategy>, startingFloor: int, maxCapacityWeight: int,
                                         waiting: seq<Person>)
    requires ss != [] && maxCapacityWeight >= PersonWeight
    ensures forall s | s in ss ::
              StrategyStops(Fewest(ss, startingFloor, maxCapacityWeight, waiting), startingFloor, maxCapacityWeight, waiting)
              <= StrategyStops(s, startingFloor, maxCapacityWeight, waiting)
  {
    if |ss| > 1 {
      var front, last := ss[..|ss| - 1], ss[|ss| - 1];
      FewestIsLeast(front, startingFloor, maxCapacityWeight, waiting);
      var best := Fewest(front, startingFloor, maxCapacityWeight, waiting);
      forall s | s in ss
        ensures StrategyStops(Fewest(ss, startingFloor, maxCapacityWeight, waiting), startingFloor, maxCapacityWeight, waiting)
                <= StrategyStops(s, startingFloor, maxCapacityWeight, waiting)
      {
        if s != last {
          assert s in front;
        }
      }
    }
  }

  /**
   * `findMostEfficientStrategy`: simulates every policy and answers the name
   * of one with the fewest stops.  Among policies tied for the fewest, the
   * choice follows `HashMap` iteration order, which the model leaves open.
   */
  method FindMostEfficientStrategy(elevator: Elevator, waitingPeople: seq<Person>) returns (mostEfficient: string)
    requires elevator.maxCapacityWeight >= PersonWeight && UniqueIds(waitingPeople)
    modifies elevator
    ensures mostEfficient == Name(ParseStrategy(mostEfficient))
    ensures forall s: Strategy ::
              StrategyStops(ParseStrategy(mostEfficient), elevator.startingFloor, elevator.maxCapacityWeight, waitingPeople)
              <= StrategyStops(s, elevator.startingFloor, elevator.maxCapacityWeight, waitingPeople)
    ensures elevator.totalStops == old(elevator.totalStops)
    ensures elevator.totalFloorsTraveled == old(elevator.totalFloorsTraveled)
  {
    var flightsCount: map<string, int> := map[];
    for i := 0 to |AllStrategies|
      invariant flightsCount
                == FlightsTable(AllStrategies[..i], elevator.startingFloor, elevator.maxCapacityWeight, waitingPeople)
      invariant elevator.totalStops == old(elevator.totalStops)
      invariant elevator.totalFloorsTraveled == old(elevator.totalFloorsTraveled)
    {
      var strategy := Name(AllStrategies[i]);
      var flights := elevator.SimulateStrategy(waitingPeople, strategy);
      NameRoundTrip(AllStrategies[i]);
      assert AllStrategies[..i + 1][..i] == AllStrategies[..i];
      flightsCount := flightsCount[strategy := flights];
    }
    assert AllStrategies[..|AllStrategies|] == AllStrategies;
    FlightsTableEntries(AllStrategies, elevator.startingFloor, elevator.maxCapacityWeight, waitingPeople);
    FewestIsLeast(AllStrategies, elevator.startingFloor, elevator.maxCapacityWeight, waitingPeople);
    ghost var best := Fewest(AllStrategies, elevator.startingFloor, elevator.maxCapacityWeight, waitingPeople);
    NameRoundTrip(best);
    forall name | name in flightsCount ensures flightsCount[Name(best)] <= flightsCount[name] {
      EveryStrategyListed(ParseStrategy(name));
    }
    mostEfficient :| mostEfficient in flightsCount
                     && forall name | name in flightsCount :: flightsCount[mostEfficient] <= flightsCount[name];
    forall s: Strategy
      ensures StrategyStops(ParseStrategy(mostEfficient), elevator.startingFloor, elevator.maxCapacityWeight, waitingPeople)
              <= StrategyStops(s, elevator.startingFloor, elevator.maxCapacityWeight, waitingPeople)
    {
      EveryStrategyListed(s);
      NameRoundTrip(s);
    }
  }

  /**
   * `Character.toUpperCase` on the characters whose upper case is an ASCII
   * letter: 'a'..'z', the long s and the dotless i.  Every other character
   * is left as it is (see README, "Left out").
   */
  function UpperChar(c: char): char
  {
    if 'a' <= c <= 'z' then (c as int - 32) as char
    else if c == LongS then 'S'
    else if c == DotlessI then 'I'
    else c
  }

  /** The test `String.equalsIgnoreCase` applies to two characters at the same position. */
  predicate SameLetter(c: char, d: char)
  {
    c == d || UpperChar(c) == UpperChar(d) || LowerChar(UpperChar(c)) == LowerChar(UpperChar(d))
  }

  /** `String.equalsIgnoreCase`. */
  predicate EqualsIgnoreCase(a: string, b: string)
  {
    |a| == |b| && forall i | 0 <= i < |a| :: SameLetter(a[i], b[i])
  }

  /** The letter a character stands for under `equalsIgnoreCase`. */
  function Fold(c: char): char
  {
    LowerChar(UpperChar(c))
  }

  function Folded(s: string): seq<char>
  {
    seq(|s|, i requires 0 <= i < |s| => Fold(s[i]))
  }

  /** A character matches a lower-case ASCII letter exactly when it folds to that letter. */
  lemma SameLetterFold(c: char, x: char)
    requires 'a' <= x <= 'z'
    ensures SameLetter(c, x) <==> Fold(c) == x
  {
  }

  /** A string matches a policy's name, ignoring case, exactly when it folds to that name. */
  lemma EqualsNameFolded(a: string, s: Strategy)
    ensures EqualsIgnoreCase(a, Name(s)) <==> Folded(a) == Name(s)
  {
    NameLetters(s);
    if |a| == |Name(s)| {
      forall i | 0 <= i < |a| ensures SameLetter(a[i], Name(s)[i]) <==> Folded(a)[i] == Name(s)[i] {
        SameLetterFold(a[i], Name(s)[i]);
      }
    }
  }

  /** The loop condition of `main`: the typed name equals one of the five, ignoring case. */
  predicate KnownName(strategy: string)
  {
    || EqualsIgnoreCase(strategy, "fcfs")
    || EqualsIgnoreCase(strategy, "sstf")
    || EqualsIgnoreCase(strategy, "scan")
    || EqualsIgnoreCase(strategy, "look")
    || EqualsIgnoreCase(strategy, "destination")
  }

  /** A name that matches two policies' names, ignoring case, names one policy. */
  lemma MatchesOneName(strategy: string, s: Strategy, t: Strategy)
    requires EqualsIgnoreCase(strategy, Name(s)) && EqualsIgnoreCase(strategy, Name(t))
    ensures s == t
  {
    EqualsNameFolded(strategy, s);
    EqualsNameFolded(strategy, t);
    NameRoundTrip(s);
    NameRoundTrip(t);
  }

  /** A name `main` accepts folds to the name of the policy it matches. */
  lemma KnownNameFolds(strategy: string)
    requires KnownName(strategy)
    ensures EqualsIgnoreCase(strategy, Name(ParseStrategy(Folded(strategy))))
  {
    var s: Strategy :| EqualsIgnoreCase(strategy, Name(s)) by {
      assert Name(Strategy.Fcfs) == "fcfs" && Name(Strategy.Sstf) == "sstf" && Name(Strategy.Scan) == "scan";
      assert Name(Strategy.Look) == "look" && Name(Strategy.Destination) == "destination";
    }
    EqualsNameFolded(strategy, s);
    NameRoundTrip(s);
  }

  /**
   * The typed name holds none of the characters on which `equalsIgnoreCase`
   * and `toLowerCase` disagree: the long s and the dotless i fold to 's' and
   * 'i' but lower-case to themselves, and the dotted capital I folds to 'i'
   * but lower-cases to two characters.
   */
  predicate Plain(s: string)
  {
    LongS !in s && DotlessI !in s && DottedCapitalI !in s
  }

  /** Without those characters, lower-casing gives the folded letters. */
  lemma {:induction false} PlainLower(s: string)
    requires Plain(s)
    ensures Lower(s) == Folded(s)
  {
    if s != [] {
      assert s == [s[0]] + s[1..];
      PlainLower(s[1..]);
      assert Folded(s) == [Fold(s[0])] + Folded(s[1..]);
    }
  }

  /** With one of them, the lower case is none of the five names. */
  lemma NonPlainLower(s: string)
    requires !Plain(s)
    ensures forall t: Strategy :: Lower(s) != Name(t)
  {
    var i :| 0 <= i < |s| && s[i] in {LongS, DotlessI, DottedCapitalI};
    assert s == s[..i] + ([s[i]] + s[i + 1..]);
    LowerAppend(s[..i], [s[i]] + s[i + 1..]);
    LowerAppend([s[i]], s[i + 1..]);
    assert Lower([s[i]]) == LowerString(s[i]);
    var odd := if s[i] == DottedCapitalI then CombiningDot else s[i];
    assert odd in LowerString(s[i]);
    assert odd in Lower(s);
    forall t: Strategy ensures Lower(s) != Name(t) {
      NameLetters(t);
    }
  }

  /**
   * What `executeStrategy` runs for a name `main` accepted: the policy typed
   * when the name is plain, and otherwise the FCFS fallback, because
   * `toLowerCase` then yields none of the five names.
   */
  lemma KnownNameSelects(strategy: string)
    requires KnownName(strategy)
    ensures Plain(strategy) ==> ParseStrategy(strategy) == IntendedPolicy(strategy)
    ensures !Plain(strategy) ==> ParseStrategy(strategy) == Strategy.Fcfs
  {
    var s := IntendedPolicy(strategy);
    if Plain(strategy) {
      PlainLower(strategy);
      EqualsNameFolded(strategy, s);
      ParseName(s, strategy);
    } else {
      NonPlainLower(strategy);
      UnknownIsFcfs(strategy);
    }
  }

  /** `provideFeedback`: the user chose well when the names are equal ignoring case. */
  predicate GoodChoice(selectedStrategy: string, mostEfficient: string)
  {
    EqualsIgnoreCase(selectedStrategy, mostEfficient)
  }

  /** Folding forgets lower-casing, for a name without a dotted capital I. */
  lemma {:induction false} FoldLower(s: string)
    requires DottedCapitalI !in s
    ensures Folded(Lower(s)) == Folded(s)
  {
    if s != [] {
      assert s == [s[0]] + s[1..];
      FoldLower(s[1..]);
      assert Folded(Lower(s)) == [Fold(s[0])] + Folded(Lower(s[1..]));
      assert Folded(s) == [Fold(s[0])] + Folded(s[1..]);
    }
  }

  /** Only "destination" has an 'i'. */
  lemma OnlyDestinationHasI(t: Strategy)
    requires 'i' in Name(t)
    ensures t == Strategy.Destination
  {
  }

  /**
   * For a name `main` accepted, `provideFeedback(strategy.toLowerCase(), best)`
   * says "Good choice!" exactly when the typed policy is the best one and the
   * name has no dotted capital I (whose lower case is one character longer).
   */
  lemma GoodChoiceMeansSamePolicy(strategy: string, best: Strategy)
    requires KnownName(strategy)
    ensures GoodChoice(Lower(strategy), Name(best))
            <==> DottedCapitalI !in strategy && IntendedPolicy(strategy) == best
  {
    if DottedCapitalI !in strategy {
      GoodChoiceUndotted(strategy, best);
    } else {
      GoodChoiceDotted(strategy, best);
    }
  }

  /** Without a dotted capital I, lower-casing keeps the folded name. */
  lemma GoodChoiceUndotted(strategy: string, best: Strategy)
    requires KnownName(strategy) && DottedCapitalI !in strategy
    ensures GoodChoice(Lower(strategy), Name(best)) <==> IntendedPolicy(strategy) == best
  {
    EqualsNameFolded(Lower(strategy), best);
    FoldLower(strategy);
    EqualsNameFolded(strategy, best);
  }

  /**
   * With a dotted capital I the name can only be "destination", whose lower
   * case grows past eleven characters and matches nothing.
   */
  lemma GoodChoiceDotted(strategy: string, best: Strategy)
    requires KnownName(strategy) && DottedCapitalI in strategy
    ensures !GoodChoice(Lower(strategy), Name(best))
  {
    DottedMeansDestination(strategy, IntendedPolicy(strategy));
  }

  /** Only "destination" has an 'i' that a dotted capital I can match. */
  lemma DottedMeansDestination(strategy: string, t: Strategy)
    requires EqualsIgnoreCase(strategy, Name(t)) && DottedCapitalI in strategy
    ensures t == Strategy.Destination && |strategy| == 11 && |Lower(strategy)| > 11
  {
    var i :| 0 <= i < |strategy| && strategy[i] == DottedCapitalI;
    assert SameLetter(strategy[i], Name(t)[i]);
    OnlyDestinationHasI(t);
  }

  /**
   * The policy `main` evidently means to run: the one whose name it
   * accepted, found by switching on the folded name instead of the lower case.
   */
  function IntendedPolicy(strategy: string): (r: Strategy)
    requires KnownName(strategy)
    ensures EqualsIgnoreCase(strategy, Name(r))
    ensures forall s: Strategy :: EqualsIgnoreCase(strategy, Name(s)) ==> s == r
  {
    KnownNameFolds(strategy);
    var r := ParseStrategy(Folded(strategy));
    assert forall s: Strategy :: EqualsIgnoreCase(strategy, Name(s)) ==> s == r by {
      forall s: Strategy | EqualsIgnoreCase(strategy, Name(s)) ensures s == r {
        MatchesOneName(strategy, s, r);
      }
    }
    r
  }

  /**
   * `main` accepts "ſcan" (long s) as SCAN, and lower-cases it to "ſcan",
   * which `executeStrategy` does not know: FCFS runs, yet the feedback
   * judges the choice as SCAN.
   */
  lemma LongScanRunsFcfs()
    ensures KnownName([LongS] + "can") && IntendedPolicy([LongS] + "can") == Strategy.Scan
    ensures ParseStrategy([LongS] + "can") == Strategy.Fcfs
    ensures GoodChoice(Lower([LongS] + "can"), Name(Strategy.Scan))
  {
    var typed := [LongS] + "can";
    assert typed[0] == LongS && typed[1] == 'c' && typed[2] == 'a' && typed[3] == 'n';
    assert Folded(typed) == "scan";
    EqualsNameFolded(typed, Strategy.Scan);
    assert KnownName(typed);
    KnownNameSelects(typed);
    GoodChoiceMeansSamePolicy(typed, Strategy.Scan);
  }

  /**
   * Switching on the folded name agrees with `executeStrategy` on every plain
   * name, and the feedback then always speaks of the policy that ran.
   */
  lemma IntendedPolicyAgrees(strategy: string, best: Strategy)
    requires KnownName(strategy)
    ensures Plain(strategy) ==> IntendedPolicy(strategy) == ParseStrategy(strategy)
    ensures GoodChoice(Lower(strategy), Name(best)) ==> IntendedPolicy(strategy) == best
  {
    KnownNameSelects(strategy);
    GoodChoiceMeansSamePolicy(strategy, best);
  }

  /** The inputs `main` accepts before it starts the simulation. */
  predicate ValidInput(numFloors: int, startingFloor: int, answers: seq<seq<int>>, strategy: string)
  {
    && numFloors > 0
    && 0 <= startingFloor < numFloors
    && ValidAnswers(numFloors, answers)
    && KnownName(strategy)
  }

  /**
   * `main` after the input is read: a 2200 lb car on the starting floor,
   * the waiting list, the most efficient policy, the chosen policy's run,
   * and the feedback.
   */
  method Simulation(numFloors: int, startingFloor: int, answers: seq<seq<int>>, strategy: string)
    returns (mostEfficient: string, goodChoice: bool, totalStops: int, totalFloorsTraveled: int)
    requires ValidInput(numFloors, startingFloor, answers, strategy)
    ensures goodChoice <==> DottedCapitalI !in strategy && IntendedPolicy(strategy) == ParseStrategy(mostEfficient)
    ensures forall s: Strategy ::
              StrategyStops(ParseStrategy(mostEfficient), startingFloor, Capacity, Arrivals(answers))
              <= StrategyStops(s, startingFloor, Capacity, Arrivals(answers))
    ensures totalStops == StrategyStops(ParseStrategy(strategy), startingFloor, Capacity, Arrivals(answers))
    ensures totalFloorsTraveled == StrategyTravel(ParseStrategy(strategy), startingFloor, Capacity, Arrivals(answers))
  {
    var elevator := new Elevator(Capacity, startingFloor);
    var waitingPeople := CollectWaiting(answers);
    ArrivalsValid(numFloors, answers);
    mostEfficient := FindMostEfficientStrategy(elevator, waitingPeople);
    elevator.ExecuteStrategy(waitingPeople, strategy);
    goodChoice := GoodChoice(Lower(strategy), mostEfficient);
    GoodChoiceMeansSamePolicy(strategy, ParseStrategy(mostEfficient));
    totalStops := elevator.totalStops;
    totalFloorsTraveled := elevator.totalFloorsTraveled;
  }
}
