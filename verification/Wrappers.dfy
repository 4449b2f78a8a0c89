/** Failure values shared by every model in this project. */
module Wrappers {
  datatype Option<+T> = None | Some(value: T)

  datatype Result<+T, +E> = Ok(value: T) | Err(error: E)

  /** Largest value of the unsigned 32-bit action and fragment identities. */
  const U32_MAX: nat := 0xFFFF_FFFF

  /** Largest value of the unsigned 64-bit counters and quantities. */
  const U64_MAX: nat := 0xFFFF_FFFF_FFFF_FFFF

  /** The elements of a sequence, forgetting order and repetition. */
  function Elements<T(!new)>(s: seq<T>): (r: set<T>)
    ensures forall x: T :: x in r <==> x in s
  {
    set x | x in s
  }

  ghost predicate Distinct<T>(s: seq<T>) {
    forall i, j :: 0 <= i < j < |s| ==> s[i] != s[j]
  }

  lemma {:induction false} DistinctCardinality<T(!new)>(s: seq<T>)
    requires Distinct(s)
    ensures |Elements(s)| == |s|
  {
    if s == [] {
    } else {
      var last := s[|s| - 1];
      DistinctCardinality(s[..|s| - 1]);
      assert Elements(s) == Elements(s[..|s| - 1]) + {last} by {
        assert s == s[..|s| - 1] + [last];
      }
    }
  }

  /** Counting elements detects repetition. */
  lemma {:induction false} DistinctIffCounted<T(!new)>(s: seq<T>)
    ensures Distinct(s) <==> |Elements(s)| == |s|
  {
    if Distinct(s) {
      DistinctCardinality(s);
    } else {
      RepeatedShrinks(s);
    }
  }

  lemma {:induction false} ElementsBounded<T(!new)>(s: seq<T>)
    ensures |Elements(s)| <= |s|
  {
    if s != [] {
      ElementsBounded(s[1..]);
      assert Elements(s) == Elements(s[1..]) + {s[0]} by {
        assert s == [s[0]] + s[1..];
      }
    }
  }

  lemma RepeatedShrinks<T(!new)>(s: seq<T>)
    requires !Distinct(s)
    ensures |Elements(s)| < |s|
  {
    var i, j :| 0 <= i < j < |s| && s[i] == s[j];
    var rest := s[..j] + s[j + 1..];
    assert rest[i] == s[i];
    forall x: T | x in s ensures x in rest {
      var m :| 0 <= m < |s| && s[m] == x;
      assert m < j ==> rest[m] == x;
      assert m > j ==> rest[m - 1] == x;
    }
    assert Elements(s) == Elements(rest);
    ElementsBounded(rest);
  }

  /** A subset with as many elements as its superset is that superset. */
  lemma {:induction false} FullSubset<T>(a: set<T>, b: set<T>)
    requires a <= b && |a| >= |b|
    ensures a == b
  {
    SubsetCardinality(a, b);
    if x :| x in b && x !in a {
      SubsetCardinality(a, b - {x});
    }
  }

  lemma {:induction false} SubsetCardinality<T>(a: set<T>, b: set<T>)
    requires a <= b
    ensures |a| <= |b|
    decreases b
  {
    if a == {} {
    } else {
      var x :| x in a;
      SubsetCardinality(a - {x}, b - {x});
    }
  }
}
