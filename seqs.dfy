/** Row selection in storage order (`WHERE` without `ORDER BY`) and
    uniqueness of a key over a sequence of rows. */
module Seqs {

  /** The rows of `s` that satisfy `keep`, in their original order. */
  function Filter<T(!new)>(s: seq<T>, keep: T -> bool): (r: seq<T>)
    ensures |r| <= |s|
    ensures forall i :: 0 <= i < |r| ==> keep(r[i])
    ensures forall x :: x in r <==> x in s && keep(x)
  {
    if s == [] then []
    else
      assert s == s[..|s| - 1] + [s[|s| - 1]];
      Filter(s[..|s| - 1], keep) + (if keep(s[|s| - 1]) then [s[|s| - 1]] else [])
  }

  lemma {:induction false} FilterAppend<T(!new)>(a: seq<T>, b: seq<T>, keep: T -> bool)
    ensures Filter(a + b, keep) == Filter(a, keep) + Filter(b, keep)
  {
    if b == [] {
      assert a + b == a;
    } else {
      var b' := b[..|b| - 1];
      var x := b[|b| - 1];
      var tail := if keep(x) then [x] else [];
      assert (a + b)[..|a + b| - 1] == a + b';
      assert (a + b)[|a + b| - 1] == x;
      assert Filter(a + b, keep) == Filter(a + b', keep) + tail;
      assert Filter(b, keep) == Filter(b', keep) + tail;
      FilterAppend(a, b', keep);
    }
  }

  /** Selecting with a test every row passes keeps every row. */
  lemma {:induction false} FilterKeepsAll<T(!new)>(s: seq<T>, keep: T -> bool)
    requires forall i :: 0 <= i < |s| ==> keep(s[i])
    ensures Filter(s, keep) == s
  {
    if s != [] {
      var init := s[..|s| - 1];
      assert s == init + [s[|s| - 1]];
      assert forall i :: 0 <= i < |init| ==> keep(init[i]) by {
        forall i | 0 <= i < |init| ensures keep(init[i]) {
          assert init[i] == s[i];
        }
      }
      FilterKeepsAll(init, keep);
      assert Filter(s, keep) == Filter(init, keep) + [s[|s| - 1]];
    }
  }

  /** Selecting with a test no row passes keeps nothing. */
  lemma {:induction false} FilterDropsAll<T(!new)>(s: seq<T>, keep: T -> bool)
    requires forall i :: 0 <= i < |s| ==> !keep(s[i])
    ensures Filter(s, keep) == []
  {
    if s != [] {
      FilterDropsAll(s[..|s| - 1], keep);
    }
  }

  /** Selecting from a prefix ending in a passing row whose earlier rows all
      fail gives just that row. */
  lemma FilterUpTo<T(!new)>(s: seq<T>, keep: T -> bool, j: int)
    requires 0 <= j < |s| && keep(s[j])
    requires forall i :: 0 <= i < j ==> !keep(s[i])
    ensures Filter(s[..j + 1], keep) == [s[j]]
  {
    var p := s[..j + 1];
    assert p[..|p| - 1] == s[..j];
    assert p[|p| - 1] == s[j];
    FilterDropsAll(s[..j], keep);
  }

  /** The first selected row is the first row that passes the test. */
  lemma FilterFirst<T(!new)>(s: seq<T>, keep: T -> bool, j: int)
    requires 0 <= j < |s| && keep(s[j])
    requires forall i :: 0 <= i < j ==> !keep(s[i])
    ensures Filter(s, keep) == [s[j]] + Filter(s[j + 1..], keep)
  {
    var p, q := s[..j + 1], s[j + 1..];
    assert s == p + q;
    assert Filter(s, keep) == Filter(p, keep) + Filter(q, keep) by {
      FilterAppend(p, q, keep);
    }
    assert Filter(p, keep) == [s[j]] by {
      FilterUpTo(s, keep, j);
    }
  }

  /** Exactly one passing row: it is the whole selection. */
  lemma FilterSingle<T(!new)>(s: seq<T>, keep: T -> bool, j: int)
    requires 0 <= j < |s| && keep(s[j])
    requires forall i :: 0 <= i < |s| && i != j ==> !keep(s[i])
    ensures Filter(s, keep) == [s[j]]
  {
    var rest := s[j + 1..];
    assert forall i :: 0 <= i < |rest| ==> !keep(rest[i]) by {
      forall i | 0 <= i < |rest| ensures !keep(rest[i]) {
        assert rest[i] == s[j + 1 + i];
      }
    }
    FilterDropsAll(rest, keep);
    FilterFirst(s, keep, j);
    assert [s[j]] + [] == [s[j]];
  }

  /** Selection keeps storage order: of two passing rows, the earlier one
      is selected at an earlier place. */
  lemma FilterKeepsOrder<T(!new)>(s: seq<T>, keep: T -> bool, i: int, j: int)
    requires 0 <= i < j < |s| && keep(s[i]) && keep(s[j])
    ensures exists p, q :: 0 <= p < q < |Filter(s, keep)| && Filter(s, keep)[p] == s[i] && Filter(s, keep)[q] == s[j]
  {
    var a, b := s[..j], s[j..];
    assert s == a + b;
    FilterAppend(a, b, keep);
    var fa := Filter(a, keep);
    assert s[i] in fa by {
      assert a[i] == s[i];
    }
    var p :| 0 <= p < |fa| && fa[p] == s[i];
    assert Filter(b, keep) == [s[j]] + Filter(b[1..], keep) by {
      FilterFirst(b, keep, 0);
    }
    var f := Filter(s, keep);
    assert f == fa + Filter(b, keep);
    assert f[p] == s[i] && f[|fa|] == s[j];
  }

  /** Two passing rows at different places: at least two are selected. */
  lemma FilterTwo<T(!new)>(s: seq<T>, keep: T -> bool, i: int, j: int)
    requires 0 <= i < j < |s| && keep(s[i]) && keep(s[j])
    ensures |Filter(s, keep)| >= 2
  {
    assert s == s[..j] + s[j..];
    FilterAppend(s[..j], s[j..], keep);
    assert s[..j][i] == s[i] && s[j..][0] == s[j];
    assert s[i] in Filter(s[..j], keep);
    assert s[j] in Filter(s[j..], keep);
  }

  /** Two tests that agree on every row select the same rows. */
  lemma {:induction false} FilterSameTest<T(!new)>(s: seq<T>, keep: T -> bool, keep': T -> bool)
    requires forall i :: 0 <= i < |s| ==> keep(s[i]) == keep'(s[i])
    ensures Filter(s, keep) == Filter(s, keep')
  {
    if s != [] {
      FilterSameTest(s[..|s| - 1], keep, keep');
    }
  }

  /** A sequence without repeated elements has as many elements as the
      set of them. */
  lemma {:induction false} NoRepeatsCount<T>(s: seq<T>)
    requires forall i, j :: 0 <= i < j < |s| ==> s[i] != s[j]
    ensures |set x | x in s| == |s|
  {
    if s != [] {
      var init := s[..|s| - 1];
      NoRepeatsCount(init);
      assert (set x | x in s) == (set x | x in init) + {s[|s| - 1]};
      assert s[|s| - 1] !in init;
    }
  }

  /** No two rows of `s` share a key. */
  predicate DistinctBy<T>(s: seq<T>, key: T -> string)
  {
    forall i, j :: 0 <= i < j < |s| ==> key(s[i]) != key(s[j])
  }

  function KeySet<T>(s: seq<T>, key: T -> string): (r: set<string>)
    ensures forall i :: 0 <= i < |s| ==> key(s[i]) in r
    ensures forall k :: k in r ==> exists i :: 0 <= i < |s| && key(s[i]) == k
  {
    set i | 0 <= i < |s| :: key(s[i])
  }

  lemma {:induction false} FilterKeepsDistinct<T(!new)>(s: seq<T>, keep: T -> bool, key: T -> string)
    requires DistinctBy(s, key)
    ensures DistinctBy(Filter(s, keep), key)
  {
    if s != [] {
      var init := s[..|s| - 1];
      var last := s[|s| - 1];
      FilterKeepsDistinct(init, keep, key);
      var f := Filter(init, keep);
      if keep(last) {
        var r := f + [last];
        assert Filter(s, keep) == r;
        forall i, j | 0 <= i < j < |r| ensures key(r[i]) != key(r[j]) {
          if j == |f| {
            assert r[i] in init;
            var k :| 0 <= k < |init| && init[k] == r[i];
            assert s[k] == r[i];
          } else {
            assert r[i] == f[i] && r[j] == f[j];
          }
        }
      } else {
        assert Filter(s, keep) == f;
      }
    }
  }

  /** Dropping the rows with key `k0` drops exactly `k0` from the keys. */
  lemma KeySetFilterOut<T(!new)>(s: seq<T>, keep: T -> bool, key: T -> string, k0: string)
    requires forall x :: keep(x) <==> key(x) != k0
    ensures KeySet(Filter(s, keep), key) == KeySet(s, key) - {k0}
  {
    var f := Filter(s, keep);
    forall k | k in KeySet(s, key) - {k0} ensures k in KeySet(f, key) {
      var i :| 0 <= i < |s| && key(s[i]) == k;
      assert s[i] in f;
      var j :| 0 <= j < |f| && f[j] == s[i];
    }
    forall k | k in KeySet(f, key) ensures k in KeySet(s, key) - {k0} {
      var j :| 0 <= j < |f| && key(f[j]) == k;
      assert f[j] in s;
      var i :| 0 <= i < |s| && s[i] == f[j];
    }
  }

  lemma KeySetSnoc<T>(s: seq<T>, x: T, key: T -> string)
    ensures KeySet(s + [x], key) == KeySet(s, key) + {key(x)}
  {
    var r := s + [x];
    forall k | k in KeySet(r, key) ensures k in KeySet(s, key) + {key(x)} {
      var i :| 0 <= i < |r| && key(r[i]) == k;
      if i < |s| { assert r[i] == s[i]; }
    }
    forall k | k in KeySet(s, key) ensures k in KeySet(r, key) {
      var i :| 0 <= i < |s| && key(s[i]) == k;
      assert r[i] == s[i];
    }
    assert key(r[|s|]) == key(x);
  }

  lemma DistinctSnoc<T>(s: seq<T>, x: T, key: T -> string)
    requires DistinctBy(s, key) && key(x) !in KeySet(s, key)
    ensures DistinctBy(s + [x], key)
    ensures KeySet(s + [x], key) == KeySet(s, key) + {key(x)}
  {
    KeySetSnoc(s, x, key);
  }
}
