/**
 * The working queue of a dispatch policy: an `ArrayList` copy of the
 * waiting list from which served persons are removed with `List.remove`.
 */
module Queues {
  import opened Passengers

  /** `List.remove(x)`: drops the first occurrence of `x`; no change when `x` is absent. */
  function RemoveFirst(s: seq<Person>, x: Person): (r: seq<Person>)
    ensures x in s ==> multiset(r) == multiset(s) - multiset{x} && |r| == |s| - 1
    ensures x !in s ==> r == s
  {
    if s == [] then []
    else
      assert s == [s[0]] + s[1..];
      if s[0] == x then s[1..] else [s[0]] + RemoveFirst(s[1..], x)
  }

  /** Removing an entry with no equal entry before it removes that very position. */
  lemma {:induction false} RemoveFirstAt(s: seq<Person>, k: nat)
    requires k < |s| && s[k] !in s[..k]
    ensures RemoveFirst(s, s[k]) == s[..k] + s[k + 1..]
  {
    assert s == s[..k] + ([s[k]] + s[k + 1..]);
    RemoveFirstAfter(s[..k], s[k], s[k + 1..]);
  }

  lemma {:induction false} RemoveFirstAfter(a: seq<Person>, x: Person, b: seq<Person>)
    requires x !in a
    ensures RemoveFirst(a + ([x] + b), x) == a + b
  {
    if a != [] {
      var s := a + ([x] + b);
      assert s[0] == a[0] && s[1..] == a[1..] + ([x] + b);
      assert a[0] != x by {
        assert a[0] in a;
      }
      assert x !in a[1..] by {
        assert a == [a[0]] + a[1..];
      }
      RemoveFirstAfter(a[1..], x, b);
      calc {
        RemoveFirst(s, x);
        [a[0]] + RemoveFirst(s[1..], x);
        [a[0]] + (a[1..] + b);
        { assert a == [a[0]] + a[1..]; }
        a + b;
      }
    }
  }

  /** The entries of `s` that do not occur in `xs`, in order. */
  function Without(s: seq<Person>, xs: seq<Person>): seq<Person>
  {
    if s == [] then []
    else (if s[0] in xs then [] else [s[0]]) + Without(s[1..], xs)
  }

  lemma {:induction false} WithoutNothing(s: seq<Person>)
    ensures Without(s, []) == s
  {
    if s != [] {
      WithoutNothing(s[1..]);
      assert s == [s[0]] + s[1..];
    }
  }

  lemma {:induction false} WithoutSubset(s: seq<Person>, xs: seq<Person>, y: Person)
    requires y !in s || y in xs
    ensures y !in Without(s, xs)
    ensures Without(s, xs + [y]) == Without(s, xs)
  {
    if s != [] {
      WithoutSubset(s[1..], xs, y);
      assert s[0] in xs + [y] <==> s[0] in xs;
    }
  }

  /**
   * Removing the persons of `xs` one after the other from a list without
   * repeated entries leaves exactly the entries not in `xs`, whatever order
   * they are removed in.
   */
  lemma {:induction false} RemoveFirstWithout(s: seq<Person>, xs: seq<Person>, y: Person)
    requires Distinct(s)
    ensures RemoveFirst(Without(s, xs), y) == Without(s, xs + [y])
  {
    if s != [] {
      var rest := s[1..];
      assert s == [s[0]] + rest;
      assert multiset(s) == multiset{s[0]} + multiset(rest);
      assert Distinct(rest) by {
        forall x ensures multiset(rest)[x] <= 1 {
          assert multiset(rest)[x] <= multiset(s)[x];
        }
      }
      assert multiset(s)[s[0]] == 1 + multiset(rest)[s[0]];
      if s[0] == y {
        WithoutSubset(rest, xs, y);
        if y in xs {
          WithoutSubset(rest, xs, y);
          assert Without(s, xs) == Without(rest, xs);
        } else {
          assert Without(s, xs) == [y] + Without(rest, xs);
        }
      } else {
        RemoveFirstWithout(rest, xs, y);
        assert s[0] in xs + [y] <==> s[0] in xs;
        if s[0] !in xs {
          assert Without(s, xs) == [s[0]] + Without(rest, xs);
          assert Without(s, xs + [y]) == [s[0]] + Without(rest, xs + [y]);
        } else {
          assert Without(s, xs) == Without(rest, xs);
          assert Without(s, xs + [y]) == Without(rest, xs + [y]);
        }
      }
    }
  }

  /**
   * The loops that call `queue.remove(person)` for every person of a batch.
   * On a queue without repeated entries the result is the queue minus the batch.
   */
  method RemoveEach(queue: seq<Person>, batch: seq<Person>) returns (rest: seq<Person>)
    requires Distinct(queue)
    ensures rest == Without(queue, batch)
    ensures forall x | x in rest :: x in queue && x !in batch
  {
    rest := queue;
    WithoutNothing(queue);
    for i := 0 to |batch|
      invariant rest == Without(queue, batch[..i])
    {
      RemoveFirstWithout(queue, batch[..i], batch[i]);
      assert batch[..i] + [batch[i]] == batch[..i + 1];
      rest := RemoveFirst(rest, batch[i]);
    }
    assert batch[..|batch|] == batch;
    WithoutMembers(queue, batch);
  }

  lemma {:induction false} WithoutMembers(s: seq<Person>, xs: seq<Person>)
    ensures forall x | x in Without(s, xs) :: x in s && x !in xs
    ensures multiset(Without(s, xs)) <= multiset(s)
  {
    if s != [] {
      WithoutMembers(s[1..], xs);
      assert s == [s[0]] + s[1..];
    }
  }

  /** Removing every queued person empties the queue. */
  lemma {:induction false} WithoutCovered(s: seq<Person>, xs: seq<Person>)
    requires forall x | x in s :: x in xs
    ensures Without(s, xs) == []
  {
    if s != [] {
      assert s[0] in s;
      WithoutCovered(s[1..], xs);
    }
  }
}
