/** `ORDER BY key [DESC]` over rows held in storage order. SQLite does not
    promise an order among rows with equal keys; the model sorts stably,
    so equal keys keep their storage order. */
module Sorting {
  import opened Text

  /** Row with key `ka` may be listed before a row with key `kb`. */
  predicate InOrder(ka: string, kb: string, descending: bool)
  {
    if descending then LexLe(kb, ka) else LexLe(ka, kb)
  }

  lemma InOrderTotal(ka: string, kb: string, descending: bool)
    ensures InOrder(ka, kb, descending) || InOrder(kb, ka, descending)
  {
    LexLeTotal(ka, kb);
  }

  lemma InOrderTransitive(ka: string, kb: string, kc: string, descending: bool)
    requires InOrder(ka, kb, descending) && InOrder(kb, kc, descending)
    ensures InOrder(ka, kc, descending)
  {
    if descending {
      LexLeTransitive(kc, kb, ka);
    } else {
      LexLeTransitive(ka, kb, kc);
    }
  }

  predicate Sorted<T(==)>(s: seq<T>, key: T -> string, descending: bool)
  {
    forall i, j :: 0 <= i < j < |s| ==> InOrder(key(s[i]), key(s[j]), descending)
  }

  /** Every row of `s` may be listed before a row with key `k`. */
  predicate AllBefore<T(==)>(s: seq<T>, key: T -> string, k: string, descending: bool)
  {
    forall y :: y in s ==> InOrder(key(y), k, descending)
  }

  lemma SortedSnoc<T>(s: seq<T>, x: T, key: T -> string, descending: bool)
    requires Sorted(s, key, descending) && AllBefore(s, key, key(x), descending)
    ensures Sorted(s + [x], key, descending)
  {
    var r := s + [x];
    forall i, j | 0 <= i < j < |r| ensures InOrder(key(r[i]), key(r[j]), descending) {
      if j < |s| {
        assert r[i] == s[i] && r[j] == s[j];
      } else {
        assert r[i] in s;
      }
    }
  }

  /** In a sorted sequence every row may precede the last one. */
  lemma SortedPrefixBeforeLast<T>(s: seq<T>, key: T -> string, descending: bool)
    requires Sorted(s, key, descending) && |s| > 0
    ensures AllBefore(s[..|s| - 1], key, key(s[|s| - 1]), descending)
  {
    forall y | y in s[..|s| - 1] ensures InOrder(key(y), key(s[|s| - 1]), descending) {
      var i :| 0 <= i < |s| - 1 && s[i] == y;
    }
  }

  lemma AllBeforeTransitive<T>(s: seq<T>, key: T -> string, k: string, k': string, descending: bool)
    requires AllBefore(s, key, k, descending) && InOrder(k, k', descending)
    ensures AllBefore(s, key, k', descending)
  {
    forall y | y in s ensures InOrder(key(y), k', descending) {
      InOrderTransitive(key(y), k, k', descending);
    }
  }

  lemma AllBeforeInsert<T>(s: seq<T>, x: T, r: seq<T>, key: T -> string, k: string, descending: bool)
    requires multiset(r) == multiset(s) + multiset{x}
    requires AllBefore(s, key, k, descending) && InOrder(key(x), k, descending)
    ensures AllBefore(r, key, k, descending)
  {
    forall y | y in r ensures InOrder(key(y), k, descending) {
      assert y in multiset(r);
      if y != x {
        assert y in multiset(s);
      }
    }
  }

  /** Places `x` after every row of the sorted `s` that may precede it. */
  function InsertStable<T(==)>(s: seq<T>, x: T, key: T -> string, descending: bool): (r: seq<T>)
    requires Sorted(s, key, descending)
    ensures Sorted(r, key, descending)
    ensures multiset(r) == multiset(s) + multiset{x}
    ensures |r| == |s| + 1
  {
    if s == [] then [x]
    else
      var last := s[|s| - 1];
      var init := s[..|s| - 1];
      assert s == init + [last];
      SortedPrefixBeforeLast(s, key, descending);
      if InOrder(key(last), key(x), descending) then
        AllBeforeTransitive(init, key, key(last), key(x), descending);
        assert AllBefore(s, key, key(x), descending);
        SortedSnoc(s, x, key, descending);
        s + [x]
      else
        InOrderTotal(key(last), key(x), descending);
        var r' := InsertStable(init, x, key, descending);
        AllBeforeInsert(init, x, r', key, key(last), descending);
        SortedSnoc(r', last, key, descending);
        r' + [last]
  }

  /** The rows of `s` ordered by `key`, ascending or descending. */
  function Sort<T(==)>(s: seq<T>, key: T -> string, descending: bool): (r: seq<T>)
    ensures Sorted(r, key, descending)
    ensures multiset(r) == multiset(s)
    ensures |r| == |s|
  {
    if s == [] then []
    else
      assert s == s[..|s| - 1] + [s[|s| - 1]];
      InsertStable(Sort(s[..|s| - 1], key, descending), s[|s| - 1], key, descending)
  }

  /** Sorting never loses or invents a row. */
  lemma SortSameElements<T>(s: seq<T>, key: T -> string, descending: bool)
    ensures forall x :: x in Sort(s, key, descending) <==> x in s
  {
    var r := Sort(s, key, descending);
    forall x ensures x in r <==> x in s {
      assert x in r <==> x in multiset(r);
      assert x in s <==> x in multiset(s);
    }
  }
}
