/**
 * The "seen set" idiom of the configuration validators: walking a list, an
 * element is reported when it was seen before, then it is added to the set.
 */
module Uniqueness {
  predicate NoDuplicates<T(==)>(s: seq<T>)
  {
    forall i, j :: 0 <= i < j < |s| ==> s[i] != s[j]
  }

  /** Every element that occurs earlier in the list, in list order (one entry per repeated occurrence). */
  function Duplicates<T(==)>(s: seq<T>): seq<T>
  {
    if |s| == 0 then []
    else Duplicates(s[..|s| - 1]) + (if s[|s| - 1] in s[..|s| - 1] then [s[|s| - 1]] else [])
  }

  /** The walk with a set of seen elements computes exactly `Duplicates`. */
  method CollectDuplicates<T(==)>(s: seq<T>) returns (dups: seq<T>)
    ensures dups == Duplicates(s)
  {
    var seen: set<T> := {};
    dups := [];
    var i := 0;
    while i < |s|
      invariant 0 <= i <= |s|
      invariant seen == set k | 0 <= k < i :: s[k]
      invariant dups == Duplicates(s[..i])
    {
      assert s[..i + 1][..i] == s[..i];
      if s[i] in seen {
        dups := dups + [s[i]];
      } else {
        seen := seen + {s[i]};
      }
      i := i + 1;
    }
    assert s[..i] == s;
  }

  /** Nothing is reported exactly when no element occurs twice. */
  lemma {:induction false} DuplicatesEmptyIff<T>(s: seq<T>)
    ensures Duplicates(s) == [] <==> NoDuplicates(s)
  {
    if |s| > 0 {
      var init := s[..|s| - 1];
      DuplicatesEmptyIff(init);
      if NoDuplicates(s) {
        assert NoDuplicates(init) by {
          forall i, j | 0 <= i < j < |init| ensures init[i] != init[j] {
            assert init[i] == s[i] && init[j] == s[j];
          }
        }
      } else {
        var i, j :| 0 <= i < j < |s| && s[i] == s[j];
        if j == |s| - 1 {
          assert init[i] == s[|s| - 1];
        } else {
          assert init[i] == init[j];
        }
      }
    }
  }

  /** An element is reported exactly when it occurs at least twice. */
  lemma {:induction false} InDuplicatesIff<T>(s: seq<T>, x: T)
    ensures x in Duplicates(s) <==> multiset(s)[x] >= 2
  {
    if |s| > 0 {
      var init := s[..|s| - 1];
      assert s == init + [s[|s| - 1]];
      InDuplicatesIff(init, x);
      assert multiset(s) == multiset(init) + multiset{s[|s| - 1]};
      if x == s[|s| - 1] {
        assert x in init <==> multiset(init)[x] >= 1;
      }
    }
  }

  /** Registering `x` in a list of keys: appended unless already there, so a re-registered key keeps its place. */
  function AppendIfAbsent<T(==)>(s: seq<T>, x: T): (r: seq<T>)
    ensures x in r && s <= r
    ensures x in s ==> r == s
    ensures x !in s ==> r == s + [x]
  {
    if x in s then s else s + [x]
  }

  lemma AppendIfAbsentKeepsNoDuplicates<T>(s: seq<T>, x: T)
    requires NoDuplicates(s)
    ensures NoDuplicates(AppendIfAbsent(s, x))
  {
  }

  /** The list with every occurrence of `x` dropped, the others in their order. */
  function Without<T(==)>(s: seq<T>, x: T): (r: seq<T>)
    ensures |r| <= |s|
    ensures forall i :: 0 <= i < |r| ==> r[i] in s && r[i] != x
    ensures forall i :: 0 <= i < |s| && s[i] != x ==> s[i] in r
    ensures x !in s ==> r == s
  {
    if |s| == 0 then []
    else Without(s[..|s| - 1], x) + (if s[|s| - 1] == x then [] else [s[|s| - 1]])
  }

  /** Dropping `x` keeps exactly the other elements, keeps a list duplicate-free, and is a no-op when `x` is absent. */
  lemma {:induction false} WithoutProperties<T>(s: seq<T>, x: T)
    ensures forall y :: y in Without(s, x) <==> y in s && y != x
    ensures NoDuplicates(s) ==> NoDuplicates(Without(s, x))
    ensures x !in s ==> Without(s, x) == s
  {
    if |s| > 0 {
      var init := s[..|s| - 1];
      WithoutProperties(init, x);
      assert s == init + [s[|s| - 1]];
      if NoDuplicates(s) {
        assert NoDuplicates(init) by {
          forall i, j | 0 <= i < j < |init| ensures init[i] != init[j] {
            assert init[i] == s[i] && init[j] == s[j];
          }
        }
        assert s[|s| - 1] !in init by {
          forall i | 0 <= i < |init| ensures init[i] != s[|s| - 1] {
            assert init[i] == s[i];
          }
        }
      }
    }
  }

  /** In a duplicate-free list, dropping the element at `i` splices it out. */
  lemma {:induction false} WithoutSplices<T>(s: seq<T>, i: nat)
    requires NoDuplicates(s) && i < |s|
    ensures Without(s, s[i]) == s[..i] + s[i + 1..]
    decreases |s|
  {
    var init := s[..|s| - 1];
    var last := s[|s| - 1];
    assert NoDuplicates(init) by {
      forall a, b | 0 <= a < b < |init| ensures init[a] != init[b] {
        assert init[a] == s[a] && init[b] == s[b];
      }
    }
    if i == |s| - 1 {
      assert last !in init by {
        forall k | 0 <= k < |init| ensures init[k] != last {
          assert init[k] == s[k];
        }
      }
      WithoutProperties(init, last);
      assert s[..i] == init;
    } else {
      assert init[i] == s[i];
      WithoutSplices(init, i);
      assert last != s[i];
      assert s[..i] + s[i + 1..] == init[..i] + init[i + 1..] + [last];
    }
  }

  /** A list without repetitions has as many distinct elements as entries. */
  lemma {:induction false} DistinctCardinality<T>(s: seq<T>)
    requires NoDuplicates(s)
    ensures |(set x | x in s)| == |s|
  {
    if |s| > 0 {
      var init := s[..|s| - 1];
      assert NoDuplicates(init) by {
        forall i, j | 0 <= i < j < |init| ensures init[i] != init[j] {
          assert init[i] == s[i] && init[j] == s[j];
        }
      }
      DistinctCardinality(init);
      assert s == init + [s[|s| - 1]];
      assert (set x | x in s) == (set x | x in init) + {s[|s| - 1]};
      assert s[|s| - 1] !in (set x | x in init);
    }
  }

  /** A subset is no larger, and one of the same size is the whole set. */
  lemma {:induction false} SubsetCardinality<T>(a: set<T>, b: set<T>)
    requires a <= b
    ensures |a| <= |b|
    ensures |a| == |b| ==> a == b
  {
    if a != {} {
      var x :| x in a;
      SubsetCardinality(a - {x}, b - {x});
      assert a == (a - {x}) + {x};
      assert b == (b - {x}) + {x};
    }
  }
}
