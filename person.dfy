/**
 * A waiting passenger (Person.java).
 *
 * The Java class has three private fields that only its constructor assigns
 * and three getters that return them, so a passenger is a value: a datatype.
 * `origin` is the field the Java class calls `currentFloor` (the floor the
 * person waits on, returned by `getCurrentFloor`).  The class places no
 * constraint on its floors; validity is the caller's business (see the
 * `Client` module).
 */
module Passengers {

  datatype Person = Person(id: int, origin: int, destination: int)

  /** The origin floors of `s`, in list order. */
  function Origins(s: seq<Person>): (r: seq<int>)
    ensures |r| == |s|
    ensures forall i | 0 <= i < |s| :: r[i] == s[i].origin
  {
    if s == [] then [] else Origins(s[..|s| - 1]) + [s[|s| - 1].origin]
  }

  /** The destination floors of `s`, in list order. */
  function Destinations(s: seq<Person>): (r: seq<int>)
    ensures |r| == |s|
    ensures forall i | 0 <= i < |s| :: r[i] == s[i].destination
  {
    if s == [] then [] else Destinations(s[..|s| - 1]) + [s[|s| - 1].destination]
  }

  /** The loops over a list visit one more person's origin and destination. */
  lemma FloorsStep(s: seq<Person>, i: nat)
    requires i < |s|
    ensures Origins(s[..i + 1]) == Origins(s[..i]) + [s[i].origin]
    ensures Destinations(s[..i + 1]) == Destinations(s[..i]) + [s[i].destination]
  {
    assert s[..i + 1][..i] == s[..i];
  }

  /** No two list entries carry the same id. */
  predicate UniqueIds(s: seq<Person>)
  {
    forall i, j | 0 <= i < j < |s| :: s[i].id != s[j].id
  }

  /** No value occurs twice in `s`. */
  ghost predicate Distinct(s: seq<Person>)
  {
    forall x :: multiset(s)[x] <= 1
  }

  /**
   * Person does not override `equals`, so `List.remove` in the elevator
   * removes by identity.  With unique ids, value equality is identity:
   * no two entries of the list are equal.
   */
  lemma {:induction false} UniqueIdsDistinct(s: seq<Person>)
    requires UniqueIds(s)
    ensures Distinct(s)
  {
    if s != [] {
      var rest := s[1..];
      assert s == [s[0]] + rest;
      assert UniqueIds(rest) by {
        forall i, j | 0 <= i < j < |rest| ensures rest[i].id != rest[j].id {
          assert rest[i] == s[i + 1] && rest[j] == s[j + 1];
        }
      }
      UniqueIdsDistinct(rest);
      assert s[0] !in rest by {
        forall k | 0 <= k < |rest| ensures rest[k] != s[0] {
          assert rest[k] == s[k + 1];
        }
      }
      assert multiset(s) == multiset{s[0]} + multiset(rest);
    }
  }
}
