/**
 Vocabulary shared by every component: optional values, results that carry an
 error, and a few facts about sequences of sequences and order-keeping filters.
 */
module Common {

  datatype Option<+T> = None | Some(value: T)

  datatype Result<+T, +E> = Ok(value: T) | Err(error: E)

  /** The two workflows of the platform. */
  datatype WorkflowKind = Supplier | Invoice

  /** All parts, one after the other. */
  function Flatten<T>(parts: seq<seq<T>>): seq<T> {
    if parts == [] then [] else parts[0] + Flatten(parts[1..])
  }

  lemma {:induction false} FlattenAppend<T>(a: seq<seq<T>>, b: seq<seq<T>>)
    ensures Flatten(a + b) == Flatten(a) + Flatten(b)
  {
    if a == [] {
      assert a + b == b;
    } else {
      assert (a + b)[1..] == a[1..] + b;
      FlattenAppend(a[1..], b);
      assert a[0] + (Flatten(a[1..]) + Flatten(b)) == (a[0] + Flatten(a[1..])) + Flatten(b);
    }
  }

  lemma FlattenSingle<T>(part: seq<T>)
    ensures Flatten([part]) == part
  {
    assert Flatten([part]) == part + Flatten([part][1..]);
  }

  /** The elements of `s` as a set. */
  function Elements<T(==)>(s: seq<T>): set<T> {
    set x | x in s
  }

  /** The elements of `s` that belong to `wanted`, in the order of `s`. */
  function Keep<T(==, !new)>(s: seq<T>, wanted: set<T>): (kept: seq<T>)
    ensures forall x :: x in kept <==> x in s && x in wanted
  {
    if s == [] then []
    else if s[0] in wanted then [s[0]] + Keep(s[1..], wanted)
    else Keep(s[1..], wanted)
  }

  lemma {:induction false} KeepKeep<T(!new)>(s: seq<T>, a: set<T>, b: set<T>)
    ensures Keep(Keep(s, a), b) == Keep(s, a * b)
  {
    if s != [] {
      KeepKeep(s[1..], a, b);
      if s[0] in a {
        assert Keep(s, a)[1..] == Keep(s[1..], a);
      }
    }
  }

  /** A filter is determined by which elements of the sequence it wants. */
  lemma {:induction false} KeepAgree<T(!new)>(s: seq<T>, a: set<T>, b: set<T>)
    requires forall x :: x in s ==> (x in a <==> x in b)
    ensures Keep(s, a) == Keep(s, b)
  {
    if s != [] {
      KeepAgree(s[1..], a, b);
    }
  }

  lemma {:induction false} KeepAll<T(!new)>(s: seq<T>, a: set<T>)
    requires forall x :: x in s ==> x in a
    ensures Keep(s, a) == s
  {
    if s != [] {
      KeepAll(s[1..], a);
    }
  }

  lemma {:induction false} KeepNone<T(!new)>(s: seq<T>, a: set<T>)
    requires forall x :: x in s ==> x !in a
    ensures Keep(s, a) == []
  {
    if s != [] {
      KeepNone(s[1..], a);
    }
  }

  /** Filtering for two disjoint sets loses and duplicates nothing. */
  lemma {:induction false} KeepDisjointUnion<T(!new)>(s: seq<T>, a: set<T>, b: set<T>)
    requires a !! b
    ensures multiset(Keep(s, a + b)) == multiset(Keep(s, a)) + multiset(Keep(s, b))
  {
    if s != [] {
      KeepDisjointUnion(s[1..], a, b);
    }
  }

  /** A sequence longer than the set it draws from repeats an element. */
  lemma {:induction false} Pigeonhole<T>(p: seq<T>, pool: set<T>) returns (i: nat, j: nat)
    requires forall x :: x in p ==> x in pool
    requires |p| > |pool|
    ensures i < j < |p| && p[i] == p[j]
  {
    if p[0] in p[1..] {
      j :| 1 <= j < |p| && p[1..][j - 1] == p[0];
      i := 0;
    } else {
      var i', j' := Pigeonhole(p[1..], pool - {p[0]});
      i, j := i' + 1, j' + 1;
    }
  }
}
