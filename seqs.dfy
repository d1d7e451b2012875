/** Facts about sequences and finite sets that the walker's proofs share. */
module Seqs {

  /** No element occurs twice in `s`. */
  ghost predicate NoDup<T>(s: seq<T>) {
    forall i, j :: 0 <= i < j < |s| ==> s[i] != s[j]
  }

  /** Joining two duplicate-free sequences with no element in common gives a duplicate-free sequence. */
  lemma NoDupAppend<T>(a: seq<T>, b: seq<T>)
    requires NoDup(a) && NoDup(b)
    requires forall x :: x in a ==> x !in b
    ensures NoDup(a + b)
  {
    forall i, j | 0 <= i < j < |a + b|
      ensures (a + b)[i] != (a + b)[j]
    {
      if j < |a| {
      } else if i >= |a| {
        assert (a + b)[i] == b[i - |a|] && (a + b)[j] == b[j - |a|];
      } else {
        assert (a + b)[i] in a && (a + b)[j] in b;
      }
    }
  }

  /** A duplicate-free sequence is no longer than any set that holds all its elements. */
  lemma {:induction false} NoDupBound<T>(s: seq<T>, u: set<T>)
    requires NoDup(s)
    requires forall x :: x in s ==> x in u
    ensures |s| <= |u|
  {
    if s != [] {
      var x := s[|s| - 1];
      var init := s[..|s| - 1];
      assert forall y :: y in init ==> y in s && y != x by {
        forall y | y in init ensures y in s && y != x {
          var k :| 0 <= k < |init| && init[k] == y;
          assert s[k] == y;
        }
      }
      NoDupBound(init, u - {x});
    }
  }

  /** Removing more elements leaves no more behind. */
  lemma {:induction false} DiffShrinks<T>(u: set<T>, small: set<T>, big: set<T>)
    requires small <= big
    ensures |u - big| <= |u - small|
  {
    SubsetCard(u - big, u - small);
  }

  /** Removing one more element of `u` leaves strictly fewer behind. */
  lemma DiffDrops<T>(u: set<T>, h: set<T>, x: T)
    requires x in u && x !in h
    ensures |u - (h + {x})| < |u - h|
  {
    assert u - h == (u - (h + {x})) + {x};
  }

  /** A subset is no larger than its superset. */
  lemma {:induction false} SubsetCard<T>(a: set<T>, b: set<T>)
    requires a <= b
    ensures |a| <= |b|
    decreases |b|
  {
    if a != {} {
      var x :| x in a;
      SubsetCard(a - {x}, b - {x});
    }
  }

  /** Regrouping an appended string: what is appended in pieces equals what is appended at once. */
  lemma AppendAssoc<T>(a: seq<T>, b: seq<T>, c: seq<T>, d: seq<T>)
    ensures a + (b + c + d) == a + b + c + d
  {
  }

  lemma AppendAssoc2<T>(a: seq<T>, b: seq<T>, c: seq<T>)
    ensures a + (b + c) == a + b + c
  {
  }

  /** Regrouping a nested append of five pieces. */
  lemma Regroup<T>(a: seq<T>, b: seq<T>, c: seq<T>, d: seq<T>, e: seq<T>)
    ensures a + (b + (c + d)) + e == a + b + c + d + e
  {
  }
}
