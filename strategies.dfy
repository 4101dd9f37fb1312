/**
 * The five dispatch policies side by side: their names, how a name is
 * matched (`executeStrategy`), and what a whole run of each one does,
 * starting from a freshly reset elevator.
 */
module Strategies {
  import opened Moves
  import opened Passengers
  import opened Rounds
  import opened ShortestSeek
  import opened Sweep
  import opened DestinationGroups

  datatype Strategy = Fcfs | Sstf | Scan | Look | Destination

  /** The weight every person is counted at, in pounds. */
  const PersonWeight: int := 180

  /**
   * How many persons fit in the car.  `pickUpPerson` accepts a person when
   * `size * 180 + 180 <= maxCapacityWeight`, that is when `size < Seats(cap)`
   * (floor division; equal to Java's truncating division for the
   * non-negative capacities of interest).
   */
  function Seats(maxCapacityWeight: int): int
  {
    maxCapacityWeight / PersonWeight
  }

  lemma SeatsMeaning(maxCapacityWeight: int, aboard: nat)
    ensures aboard * PersonWeight + PersonWeight <= maxCapacityWeight <==> aboard < Seats(maxCapacityWeight)
  {
  }

  /** Latin small letter long s, whose upper case is 'S'. */
  const LongS: char := '\U{017F}'

  /** Latin small letter dotless i, whose upper case is 'I'. */
  const DotlessI: char := '\U{0131}'

  /** Latin capital letter I with dot above, whose lower case is 'i'. */
  const DottedCapitalI: char := '\U{0130}'

  /** The Kelvin sign, whose lower case is 'k'. */
  const KelvinSign: char := '\U{212A}'

  /** Combining dot above, which `String.toLowerCase` writes after the 'i' of a dotted capital I. */
  const CombiningDot: char := '\U{0307}'

  /**
   * `Character.toLowerCase` on the characters whose lower case is an ASCII
   * letter: 'A'..'Z', the Kelvin sign and the dotted capital I.  Every other
   * character is left as it is (see README, "Left out").
   */
  function LowerChar(c: char): char
  {
    if 'A' <= c <= 'Z' then (c as int + 32) as char
    else if c == KelvinSign then 'k'
    else if c == DottedCapitalI then 'i'
    else c
  }

  /**
   * `String.toLowerCase` on one character, in a locale other than Turkish
   * or Azeri: a dotted capital I becomes 'i' followed by a combining dot.
   */
  function LowerString(c: char): string
  {
    if c == DottedCapitalI then ['i', CombiningDot] else [LowerChar(c)]
  }

  /**
   * `String.toLowerCase`: no ASCII capital letter is left, and every
   * character gives one character except a dotted capital I, which gives two.
   */
  function Lower(s: string): (r: string)
    ensures forall c | c in r :: !('A' <= c <= 'Z')
    ensures |r| >= |s|
    ensures |r| == |s| <==> DottedCapitalI !in s
  {
    if s == [] then []
    else
      assert s == [s[0]] + s[1..];
      LowerString(s[0]) + Lower(s[1..])
  }

  /** Lower-casing two pieces lower-cases each. */
  lemma {:induction false} LowerAppend(a: string, b: string)
    ensures Lower(a + b) == Lower(a) + Lower(b)
  {
    if a == [] {
      assert a + b == b;
    } else {
      assert (a + b)[0] == a[0] && (a + b)[1..] == a[1..] + b;
      LowerAppend(a[1..], b);
      assert Lower(a + b) == LowerString(a[0]) + (Lower(a[1..]) + Lower(b));
    }
  }

  /** What `String.toLowerCase` writes for one character is already lower case. */
  lemma LowerStringFixed(c: char)
    ensures Lower(LowerString(c)) == LowerString(c)
  {
    var t := LowerString(c);
    if |t| == 2 {
      assert t[1..][1..] == [];
    } else {
      assert t[1..] == [];
    }
  }

  /** Lower-casing twice changes nothing more. */
  lemma {:induction false} LowerIdempotent(s: string)
    ensures Lower(Lower(s)) == Lower(s)
  {
    if s != [] {
      LowerIdempotent(s[1..]);
      LowerAppend(LowerString(s[0]), Lower(s[1..]));
      LowerStringFixed(s[0]);
    }
  }

  /** A string of lower-case ASCII letters is its own lower case. */
  lemma {:induction false} LowerOfLetters(s: string)
    requires forall i | 0 <= i < |s| :: 'a' <= s[i] <= 'z'
    ensures Lower(s) == s
  {
    if s != [] {
      LowerOfLetters(s[1..]);
      assert s == [s[0]] + s[1..];
    }
  }

  /** The name `executeStrategy` matches (after lower-casing) for each policy. */
  function Name(s: Strategy): string
  {
    match s
    case Fcfs => "fcfs"
    case Sstf => "sstf"
    case Scan => "scan"
    case Look => "look"
    case Destination => "destination"
  }

  /** The `switch` of `executeStrategy`: case-insensitive, unknown names fall back to FCFS. */
  function ParseStrategy(name: string): Strategy
  {
    var n := Lower(name);
    if n == "sstf" then Sstf
    else if n == "scan" then Scan
    else if n == "look" then Look
    else if n == "destination" then Destination
    else Fcfs
  }

  /** Every policy is reached by its own name, in any letter case. */
  lemma ParseName(s: Strategy, name: string)
    requires Lower(name) == Name(s)
    ensures ParseStrategy(name) == s
  {
  }

  /** A name that is none of the five runs FCFS. */
  lemma UnknownIsFcfs(name: string)
    requires forall s: Strategy :: Lower(name) != Name(s)
    ensures ParseStrategy(name) == Fcfs
  {
    assert Lower(name) != Name(Sstf) && Lower(name) != Name(Scan) && Lower(name) != Name(Look);
    assert Lower(name) != Name(Destination);
  }

  /** Matching ignores letter case. */
  lemma ParseIgnoresCase(name: string)
    ensures ParseStrategy(Lower(name)) == ParseStrategy(name)
  {
    LowerIdempotent(name);
  }

  /** The five names are written in lower-case ASCII letters. */
  lemma NameLetters(s: Strategy)
    ensures forall i | 0 <= i < |Name(s)| :: 'a' <= Name(s)[i] <= 'z'
  {
  }

  lemma LowerName(s: Strategy)
    ensures Lower(Name(s)) == Name(s)
  {
    NameLetters(s);
    LowerOfLetters(Name(s));
  }

  /** A policy's own name selects that policy. */
  lemma NameRoundTrip(s: Strategy)
    ensures ParseStrategy(Name(s)) == s
  {
    LowerName(s);
    ParseName(s, Name(s));
  }

  /** The policies in the order `rankStrategies` and `findMostEfficientStrategy` try them. */
  const AllStrategies: seq<Strategy> := [Fcfs, Sstf, Scan, Look, Destination]

  lemma EveryStrategyListed(s: Strategy)
    ensures s in AllStrategies
  {
  }

  /** What `rankStrategies` records after running the policies `ss`: each name to its stops and distance. */
  function RankTable(ss: seq<Strategy>, startingFloor: int, maxCapacityWeight: int, waiting: seq<Person>)
    : map<string, (int, int)>
    requires maxCapacityWeight >= PersonWeight
  {
    if ss == [] then map[]
    else
      var s := ss[|ss| - 1];
      RankTable(ss[..|ss| - 1], startingFloor, maxCapacityWeight, waiting)
        [Name(s) := (StrategyStops(s, startingFloor, maxCapacityWeight, waiting),
                     StrategyTravel(s, startingFloor, maxCapacityWeight, waiting))]
  }

  /** Every policy run has an entry, and every entry is a policy's name with its run's stops and distance. */
  lemma {:induction false} RankTableEntries(ss: seq<Strategy>, startingFloor: int, maxCapacityWeight: int,
                                            waiting: seq<Person>)
    requires maxCapacityWeight >= PersonWeight
    ensures forall s | s in ss :: Name(s) in RankTable(ss, startingFloor, maxCapacityWeight, waiting)
    ensures forall name | name in RankTable(ss, startingFloor, maxCapacityWeight, waiting) ::
              && name == Name(ParseStrategy(name))
              && RankTable(ss, startingFloor, maxCapacityWeight, waiting)[name]
                 == (StrategyStops(ParseStrategy(name), startingFloor, maxCapacityWeight, waiting),
                     StrategyTravel(ParseStrategy(name), startingFloor, maxCapacityWeight, waiting))
  {
    if ss != [] {
      var front, last := ss[..|ss| - 1], ss[|ss| - 1];
      RankTableEntries(front, startingFloor, maxCapacityWeight, waiting);
      NameRoundTrip(last);
      forall s | s in ss ensures Name(s) in RankTable(ss, startingFloor, maxCapacityWeight, waiting) {
        if s != last {
          assert s in front;
        }
      }
    }
  }

  /** FCFS collects the whole queue in its first round (see the elevator). */
  function FcfsRounds(waiting: seq<Person>): seq<seq<Person>>
  {
    if waiting == [] then [] else [waiting]
  }

  /**
   * The rounds a run of `s` serves, starting from `startingFloor` with an
   * empty car.  SCAN and LOOK start moving up.
   */
  function StrategyRounds(s: Strategy, startingFloor: int, maxCapacityWeight: int, waiting: seq<Person>)
    : seq<seq<Person>>
    requires maxCapacityWeight >= PersonWeight
  {
    match s
    case Fcfs => FcfsRounds(waiting)
    case Sstf => SstfRounds(waiting, startingFloor, Seats(maxCapacityWeight))
    case Scan => ScanRounds(waiting, startingFloor, true)
    case Look => LookRounds(waiting, startingFloor, true)
    case Destination => DestinationRounds(waiting)
  }

  /** The floors passed to `moveToFloor` by a run of `s`. */
  function StrategyTrace(s: Strategy, startingFloor: int, maxCapacityWeight: int, waiting: seq<Person>)
    : seq<int>
    requires maxCapacityWeight >= PersonWeight
  {
    Trace(StrategyRounds(s, startingFloor, maxCapacityWeight, waiting))
  }

  /** The `totalStops` a run of `s` ends with. */
  function StrategyStops(s: Strategy, startingFloor: int, maxCapacityWeight: int, waiting: seq<Person>): nat
    requires maxCapacityWeight >= PersonWeight
  {
    Stops(startingFloor, StrategyTrace(s, startingFloor, maxCapacityWeight, waiting))
  }

  /** The `totalFloorsTraveled` a run of `s` ends with. */
  function StrategyTravel(s: Strategy, startingFloor: int, maxCapacityWeight: int, waiting: seq<Person>): nat
    requires maxCapacityWeight >= PersonWeight
  {
    Travel(startingFloor, StrategyTrace(s, startingFloor, maxCapacityWeight, waiting))
  }

  /**
   * FCFS visits every origin in list order, then every destination in list
   * order, and boards only as many persons as fit: the collection loop asks
   * an empty car whether it has room, so nobody is held back for a later
   * trip, and those refused at pickup are still dropped from the queue.
   */
  lemma FcfsRun(startingFloor: int, maxCapacityWeight: int, waiting: seq<Person>)
    requires maxCapacityWeight >= PersonWeight
    ensures StrategyTrace(Fcfs, startingFloor, maxCapacityWeight, waiting) == Origins(waiting) + Destinations(waiting)
    ensures Boarded(StrategyRounds(Fcfs, startingFloor, maxCapacityWeight, waiting), Seats(maxCapacityWeight))
            == Admitted(waiting, Seats(maxCapacityWeight))
  {
    if waiting != [] {
      assert [waiting][..0] == [];
    }
  }

  /** Every policy serves each waiting person exactly once. */
  lemma ServesEach(s: Strategy, startingFloor: int, maxCapacityWeight: int, waiting: seq<Person>)
    requires maxCapacityWeight >= PersonWeight
    ensures multiset(Concat(StrategyRounds(s, startingFloor, maxCapacityWeight, waiting))) == multiset(waiting)
  {
    match s
    case Fcfs =>
      if waiting != [] {
        assert [waiting][..0] == [];
      }
    case Sstf => SstfServesEach(waiting, startingFloor, Seats(maxCapacityWeight));
    case Scan => ScanServesEach(waiting, startingFloor, true);
    case Look =>
      ScanIsLook(waiting, startingFloor, true);
      ScanServesEach(waiting, startingFloor, true);
    case Destination => DestinationServesEach(waiting);
  }

  /**
   * Whatever the policy, a run counts at most two stops per person and
   * travels at least one floor per stop.
   */
  lemma RunCost(s: Strategy, startingFloor: int, maxCapacityWeight: int, waiting: seq<Person>)
    requires maxCapacityWeight >= PersonWeight
    ensures StrategyStops(s, startingFloor, maxCapacityWeight, waiting) <= 2 * |waiting|
    ensures StrategyStops(s, startingFloor, maxCapacityWeight, waiting)
            <= Travel(startingFloor, StrategyTrace(s, startingFloor, maxCapacityWeight, waiting))
  {
    ServesEach(s, startingFloor, maxCapacityWeight, waiting);
    RunBounds(startingFloor, StrategyRounds(s, startingFloor, maxCapacityWeight, waiting), waiting);
  }

  /** SCAN and LOOK make the same moves, so they end with the same counters and floor. */
  lemma ScanMatchesLook(startingFloor: int, maxCapacityWeight: int, waiting: seq<Person>)
    requires maxCapacityWeight >= PersonWeight
    ensures StrategyTrace(Scan, startingFloor, maxCapacityWeight, waiting)
            == StrategyTrace(Look, startingFloor, maxCapacityWeight, waiting)
  {
    ScanIsLook(waiting, startingFloor, true);
  }

  /** With nobody waiting, every policy completes at once with no stop. */
  lemma NobodyWaiting(s: Strategy, startingFloor: int, maxCapacityWeight: int)
    requires maxCapacityWeight >= PersonWeight
    ensures StrategyTrace(s, startingFloor, maxCapacityWeight, []) == []
  {
  }
}
