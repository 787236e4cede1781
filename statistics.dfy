/** The statistics service (code/services.py, `StatisticsService`):
    income and expense totals over a date range, per account, and totals
    grouped by category. Amounts are summed exactly in cents. */
module Statistics {
  import opened Wrappers
  import opened Text
  import opened Models
  import opened Seqs
  import opened Services

  datatype Totals = Totals(income: Money, expense: Money, balance: Money)

  /** `date BETWEEN start AND end`, compared as text. */
  predicate InRange(d: Date, start: Date, end: Date)
  {
    LexLe(start, d) && LexLe(d, end)
  }

  /** `if account_id:` — an absent or empty account id selects every
      account. */
  predicate AccountMatches(r: StoredRecord, accountId: Option<string>)
  {
    accountId.None? || accountId.value == "" || r.accountId == accountId
  }

  predicate InSummary(r: StoredRecord, start: Date, end: Date, accountId: Option<string>)
  {
    InRange(r.date, start, end) && AccountMatches(r, accountId)
  }

  /** The rows the summary and per-category queries aggregate. */
  function Selected(rs: seq<StoredRecord>, start: Date, end: Date, accountId: Option<string>): (s: seq<StoredRecord>)
    ensures forall x :: x in s <==> x in rs && InSummary(x, start, end, accountId)
  {
    Filter(rs, (x: StoredRecord) => InSummary(x, start, end, accountId))
  }

  /** `SUM(amount)` over the rows of type `t`. */
  function Total(rs: seq<StoredRecord>, t: RecordType): Money
  {
    if rs == [] then 0
    else Total(rs[..|rs| - 1], t) + (if rs[|rs| - 1].rtype == t then rs[|rs| - 1].amount else 0)
  }

  /** `SUM(amount)` over every row. */
  function Grand(rs: seq<StoredRecord>): Money
  {
    if rs == [] then 0 else Grand(rs[..|rs| - 1]) + rs[|rs| - 1].amount
  }

  lemma {:induction false} TotalAppend(a: seq<StoredRecord>, b: seq<StoredRecord>, t: RecordType)
    ensures Total(a + b, t) == Total(a, t) + Total(b, t)
  {
    if b == [] {
      assert a + b == a;
    } else {
      assert (a + b)[..|a + b| - 1] == a + b[..|b| - 1];
      TotalAppend(a, b[..|b| - 1], t);
    }
  }

  /** Every row is either income or expense, so the two totals add up to
      the sum of all amounts. */
  lemma {:induction false} TotalsPartition(rs: seq<StoredRecord>)
    ensures Total(rs, Income) + Total(rs, Expense) == Grand(rs)
  {
    if rs != [] {
      TotalsPartition(rs[..|rs| - 1]);
    }
  }

  /** The dictionary built from the grouped rows: both keys start at
      zero and the balance is income minus expense. */
  function TotalsOf(rs: seq<StoredRecord>): (s: Totals)
    ensures s.balance == s.income - s.expense
    ensures s.income + s.expense == Grand(rs)
    ensures rs == [] ==> s == Totals(0, 0, 0)
  {
    TotalsPartition(rs);
    Totals(Total(rs, Income), Total(rs, Expense), Total(rs, Income) - Total(rs, Expense))
  }

  /** `summary(start, end, account_id)`. */
  function Summary(rs: seq<StoredRecord>, start: Date, end: Date, accountId: Option<string>): (s: Totals)
    ensures s.balance == s.income - s.expense
    ensures s.income + s.expense == Grand(Selected(rs, start, end, accountId))
  {
    TotalsOf(Selected(rs, start, end, accountId))
  }

  /** `account_summary(account_id)`: every date, exactly that account. */
  function AccountSummary(rs: seq<StoredRecord>, accountId: string): (s: Totals)
    ensures s.balance == s.income - s.expense
    ensures s.income + s.expense == Grand(Filter(rs, (x: StoredRecord) => x.accountId == Some(accountId)))
  {
    TotalsOf(Filter(rs, (x: StoredRecord) => x.accountId == Some(accountId)))
  }

  /** What one more counted row adds to the totals. */
  function Shift(s: Totals, r: StoredRecord): Totals
  {
    if r.rtype == Income then Totals(s.income + r.amount, s.expense, s.balance + r.amount)
    else Totals(s.income, s.expense + r.amount, s.balance - r.amount)
  }

  lemma TotalsOfSnoc(a: seq<StoredRecord>, r: StoredRecord)
    ensures TotalsOf(a + [r]) == Shift(TotalsOf(a), r)
  {
    assert (a + [r])[..|a + [r]| - 1] == a;
  }

  /** Adding a record moves the summary by exactly its amount when it is
      in the range and account, and leaves it alone otherwise. */
  lemma SummaryAfterAdd(rs: seq<StoredRecord>, r: StoredRecord, start: Date, end: Date, accountId: Option<string>)
    ensures Summary(rs + [r], start, end, accountId) ==
      if InSummary(r, start, end, accountId) then Shift(Summary(rs, start, end, accountId), r)
      else Summary(rs, start, end, accountId)
  {
    var keep := (x: StoredRecord) => InSummary(x, start, end, accountId);
    FilterAppend(rs, [r], keep);
    var a := Filter(rs, keep);
    assert [r][..0] == [];
    if keep(r) {
      assert Filter([r], keep) == [r];
      TotalsOfSnoc(a, r);
    } else {
      assert Filter([r], keep) == [];
      assert a + [] == a;
    }
  }

  /** A range whose end sorts before its start counts nothing. */
  lemma EmptyRangeCountsNothing(rs: seq<StoredRecord>, start: Date, end: Date, accountId: Option<string>)
    requires LexLe(end, start) && end != start
    ensures Summary(rs, start, end, accountId) == Totals(0, 0, 0)
  {
    var s := Selected(rs, start, end, accountId);
    if s != [] {
      var x := s[0];
      assert x in s;
      LexLeTransitive(start, x.date, end);
      LexLeAntisymmetric(start, end);
    }
  }

  /** A row with an empty stored date is never inside a range with a
      non-empty start, so it never counts in a summary. */
  lemma EmptyDateNeverCounted(rs: seq<StoredRecord>, r: StoredRecord, start: Date, end: Date, accountId: Option<string>)
    requires r.date == "" && start != ""
    ensures Summary(rs + [r], start, end, accountId) == Summary(rs, start, end, accountId)
  {
    SummaryAfterAdd(rs, r, start, end, accountId);
  }

  /** An empty account id means the same as no account id. */
  lemma EmptyAccountMeansAll(rs: seq<StoredRecord>, start: Date, end: Date)
    ensures Summary(rs, start, end, Some("")) == Summary(rs, start, end, None)
  {
    FilterSameTest(rs, (x: StoredRecord) => InSummary(x, start, end, Some("")),
                       (x: StoredRecord) => InSummary(x, start, end, None));
  }

  /** After an account is force-deleted its records are gone, so its
      all-time summary is zero. */
  lemma ForcedDeleteClearsAccount(rs: seq<StoredRecord>, accountId: string)
    ensures AccountSummary(DropAccountRecords(rs, accountId), accountId) == Totals(0, 0, 0)
  {
  }

  /** An income of 100.00 and an expense of 12.50 in range give a balance
      of 87.50. */
  lemma IncomeAndExpenseScenario(income: StoredRecord, expense: StoredRecord, start: Date, end: Date)
    requires income.rtype == Income && income.amount == 10000
    requires expense.rtype == Expense && expense.amount == 1250
    requires InRange(income.date, start, end) && InRange(expense.date, start, end)
    ensures Summary([income, expense], start, end, None) == Totals(10000, 1250, 8750)
  {
    assert InSummary(income, start, end, None) && InSummary(expense, start, end, None);
    var s0 := Summary([], start, end, None);
    assert s0 == Totals(0, 0, 0);
    SummaryAfterAdd([], income, start, end, None);
    assert [] + [income] == [income];
    var s1 := Summary([income], start, end, None);
    assert s1 == Shift(s0, income) == Totals(10000, 0, 10000);
    SummaryAfterAdd([income], expense, start, end, None);
    assert [income] + [expense] == [income, expense];
    assert Summary([income, expense], start, end, None) == Shift(s1, expense);
  }

  // ----- totals by category -----

  /** `r["category_id"] or "uncategorized"`. */
  function BucketKey(c: Option<string>): string
  {
    if c.Some? && c.value != "" then c.value else "uncategorized"
  }

  /** The sum of the amounts filed under bucket `k`. */
  function BucketTotal(rs: seq<StoredRecord>, k: string): Money
  {
    if rs == [] then 0
    else BucketTotal(rs[..|rs| - 1], k) + (if BucketKey(rs[|rs| - 1].categoryId) == k then rs[|rs| - 1].amount else 0)
  }

  function BucketKeys(rs: seq<StoredRecord>): set<string>
  {
    set x | x in rs :: BucketKey(x.categoryId)
  }

  /** `by_category` as intended: one entry per bucket that has a counted
      row, holding the sum of every amount in it (income and expense
      alike). */
  function ByCategory(rs: seq<StoredRecord>, start: Date, end: Date, accountId: Option<string>): (m: map<string, Money>)
    ensures forall k :: k in m <==> exists x :: x in rs && InSummary(x, start, end, accountId) && BucketKey(x.categoryId) == k
    ensures forall k :: k in m ==> m[k] == BucketTotal(Selected(rs, start, end, accountId), k)
  {
    var s := Selected(rs, start, end, accountId);
    map k | k in BucketKeys(s) :: BucketTotal(s, k)
  }

  /** Sum of `m` over the keys listed in `ks`. */
  function SumOver(m: map<string, Money>, ks: seq<string>): Money
    requires forall i :: 0 <= i < |ks| ==> ks[i] in m
  {
    if ks == [] then 0 else SumOver(m, ks[..|ks| - 1]) + m[ks[|ks| - 1]]
  }

  /** Sum of the bucket totals over the keys listed in `ks`. */
  function SumBuckets(rs: seq<StoredRecord>, ks: seq<string>): Money
  {
    if ks == [] then 0 else SumBuckets(rs, ks[..|ks| - 1]) + BucketTotal(rs, ks[|ks| - 1])
  }

  predicate NoRepeats(ks: seq<string>)
  {
    forall i, j :: 0 <= i < j < |ks| ==> ks[i] != ks[j]
  }

  /** A bucket list that holds `k` once adds a row filed under `k` once. */
  lemma {:induction false} SumBucketsSnoc(rs: seq<StoredRecord>, x: StoredRecord, ks: seq<string>)
    requires NoRepeats(ks)
    ensures SumBuckets(rs + [x], ks) ==
      SumBuckets(rs, ks) + (if BucketKey(x.categoryId) in ks then x.amount else 0)
  {
    if ks != [] {
      var init := ks[..|ks| - 1];
      assert (rs + [x])[..|rs + [x]| - 1] == rs;
      SumBucketsSnoc(rs, x, init);
      assert BucketKey(x.categoryId) in ks <==> BucketKey(x.categoryId) in init || BucketKey(x.categoryId) == ks[|ks| - 1];
      if BucketKey(x.categoryId) == ks[|ks| - 1] {
        assert BucketKey(x.categoryId) !in init;
      }
    }
  }

  /** Buckets listed once each and covering every row split the grand
      total without loss or double counting. */
  lemma {:induction false} SumBucketsIsGrand(rs: seq<StoredRecord>, ks: seq<string>)
    requires NoRepeats(ks)
    requires forall x :: x in rs ==> BucketKey(x.categoryId) in ks
    ensures SumBuckets(rs, ks) == Grand(rs)
  {
    if rs == [] {
      SumBucketsEmpty(ks);
    } else {
      var init := rs[..|rs| - 1];
      var x := rs[|rs| - 1];
      assert init + [x] == rs;
      SumBucketsIsGrand(init, ks);
      SumBucketsSnoc(init, x, ks);
    }
  }

  lemma {:induction false} SumBucketsEmpty(ks: seq<string>)
    ensures SumBuckets([], ks) == 0
  {
    if ks != [] {
      SumBucketsEmpty(ks[..|ks| - 1]);
    }
  }

  lemma {:induction false} SumOverBuckets(rs: seq<StoredRecord>, start: Date, end: Date, accountId: Option<string>, ks: seq<string>)
    requires forall i :: 0 <= i < |ks| ==> ks[i] in ByCategory(rs, start, end, accountId)
    ensures SumOver(ByCategory(rs, start, end, accountId), ks) == SumBuckets(Selected(rs, start, end, accountId), ks)
  {
    if ks != [] {
      SumOverBuckets(rs, start, end, accountId, ks[..|ks| - 1]);
    }
  }

  /** The per-category totals add up to the sum of every counted amount:
      summing the entries of the result, each key once, loses nothing. */
  lemma ByCategoryAddsUp(rs: seq<StoredRecord>, start: Date, end: Date, accountId: Option<string>, ks: seq<string>)
    requires NoRepeats(ks)
    requires forall k :: k in ks <==> k in ByCategory(rs, start, end, accountId)
    ensures forall i :: 0 <= i < |ks| ==> ks[i] in ByCategory(rs, start, end, accountId)
    ensures SumOver(ByCategory(rs, start, end, accountId), ks) == Grand(Selected(rs, start, end, accountId))
  {
    var s := Selected(rs, start, end, accountId);
    assert forall i :: 0 <= i < |ks| ==> ks[i] in ks;
    forall x | x in s ensures BucketKey(x.categoryId) in ks {
      assert x in rs && InSummary(x, start, end, accountId);
    }
    SumOverBuckets(rs, start, end, accountId, ks);
    SumBucketsIsGrand(s, ks);
  }

  // ----- `by_category` as written -----

  /** `SUM(amount)` over one `GROUP BY category_id` group: the rows whose
      stored category is exactly `g` (NULL and empty text are different
      groups). */
  function GroupTotal(rs: seq<StoredRecord>, g: Option<string>): Money
  {
    if rs == [] then 0
    else GroupTotal(rs[..|rs| - 1], g) + (if rs[|rs| - 1].categoryId == g then rs[|rs| - 1].amount else 0)
  }

  /** The loop over the grouped rows: each group's total is assigned to
      its bucket key, a later group overwriting an earlier one. */
  function AssignGroups(rs: seq<StoredRecord>, groups: seq<Option<string>>): map<string, Money>
  {
    if groups == [] then map[]
    else
      var g := groups[|groups| - 1];
      AssignGroups(rs, groups[..|groups| - 1])[BucketKey(g) := GroupTotal(rs, g)]
  }

  /** `groups` lists every stored category value of `rs` once: the rows
      `GROUP BY category_id` returns, in the order it returns them. */
  predicate IsGrouping(rs: seq<StoredRecord>, groups: seq<Option<string>>)
  {
    && (forall i, j :: 0 <= i < j < |groups| ==> groups[i] != groups[j])
    && (forall g :: g in groups ==> exists x :: x in rs && x.categoryId == g)
    && (forall x :: x in rs ==> x.categoryId in groups)
  }

  /** `by_category` as written, for a given order of the groups. */
  function ByCategoryAsWritten(rs: seq<StoredRecord>, start: Date, end: Date, accountId: Option<string>,
                               groups: seq<Option<string>>): (m: map<string, Money>)
    requires IsGrouping(Selected(rs, start, end, accountId), groups)
    ensures forall g :: g in groups ==> BucketKey(g) in m
  {
    AssignGroupsKeys(Selected(rs, start, end, accountId), groups);
    AssignGroups(Selected(rs, start, end, accountId), groups)
  }

  lemma {:induction false} AssignGroupsKeys(rs: seq<StoredRecord>, groups: seq<Option<string>>)
    ensures forall g :: g in groups ==> BucketKey(g) in AssignGroups(rs, groups)
  {
    if groups != [] {
      AssignGroupsKeys(rs, groups[..|groups| - 1]);
      assert groups == groups[..|groups| - 1] + [groups[|groups| - 1]];
    }
  }

  /** Stored categories that never collide under `or "uncategorized"`. */
  predicate NoBucketCollision(c: Option<string>)
  {
    c != Some("") && c != Some("uncategorized")
  }

  lemma BucketKeyInjective(a: Option<string>, b: Option<string>)
    requires NoBucketCollision(a) && NoBucketCollision(b)
    ensures BucketKey(a) == BucketKey(b) <==> a == b
  {
  }

  /** Without collisions a bucket holds exactly one group. */
  lemma {:induction false} BucketIsGroup(rs: seq<StoredRecord>, g: Option<string>)
    requires NoBucketCollision(g)
    requires forall i :: 0 <= i < |rs| ==> NoBucketCollision(rs[i].categoryId)
    ensures BucketTotal(rs, BucketKey(g)) == GroupTotal(rs, g)
  {
    if rs != [] {
      BucketIsGroup(rs[..|rs| - 1], g);
      BucketKeyInjective(rs[|rs| - 1].categoryId, g);
    }
  }

  /** Without collisions every group keeps its own entry. */
  lemma {:induction false} AssignGroupsValue(rs: seq<StoredRecord>, groups: seq<Option<string>>, g: Option<string>)
    requires forall i :: 0 <= i < |groups| ==> NoBucketCollision(groups[i])
    requires forall i, j :: 0 <= i < j < |groups| ==> groups[i] != groups[j]
    requires g in groups
    ensures BucketKey(g) in AssignGroups(rs, groups)
    ensures AssignGroups(rs, groups)[BucketKey(g)] == GroupTotal(rs, g)
  {
    var init := groups[..|groups| - 1];
    var last := groups[|groups| - 1];
    if g != last {
      assert g in init by {
        var i :| 0 <= i < |groups| && groups[i] == g;
        assert i < |groups| - 1;
        assert init[i] == g;
      }
      var i :| 0 <= i < |init| && init[i] == g;
      assert groups[i] == g;
      BucketKeyInjective(g, last);
      AssignGroupsValue(rs, init, g);
    }
  }

  lemma SelectedNoCollision(rs: seq<StoredRecord>, start: Date, end: Date, accountId: Option<string>)
    requires forall i :: 0 <= i < |rs| ==> NoBucketCollision(rs[i].categoryId)
    ensures forall i :: 0 <= i < |Selected(rs, start, end, accountId)| ==>
      NoBucketCollision(Selected(rs, start, end, accountId)[i].categoryId)
  {
    var s := Selected(rs, start, end, accountId);
    forall i | 0 <= i < |s| ensures NoBucketCollision(s[i].categoryId) {
      assert s[i] in rs;
      var j :| 0 <= j < |rs| && rs[j] == s[i];
    }
  }

  lemma GroupsNoCollision(s: seq<StoredRecord>, groups: seq<Option<string>>)
    requires IsGrouping(s, groups)
    requires forall i :: 0 <= i < |s| ==> NoBucketCollision(s[i].categoryId)
    ensures forall i :: 0 <= i < |groups| ==> NoBucketCollision(groups[i])
  {
    forall i | 0 <= i < |groups| ensures NoBucketCollision(groups[i]) {
      assert groups[i] in groups;
      var x :| x in s && x.categoryId == groups[i];
      var j :| 0 <= j < |s| && s[j] == x;
    }
  }

  /** Without collisions the fold gives each bucket its full total. */
  lemma AssignGroupsIntended(s: seq<StoredRecord>, groups: seq<Option<string>>)
    requires IsGrouping(s, groups)
    requires forall i :: 0 <= i < |s| ==> NoBucketCollision(s[i].categoryId)
    ensures AssignGroups(s, groups).Keys == BucketKeys(s)
    ensures forall k :: k in AssignGroups(s, groups) ==> AssignGroups(s, groups)[k] == BucketTotal(s, k)
  {
    var w := AssignGroups(s, groups);
    GroupsNoCollision(s, groups);
    forall k | k in w ensures k in BucketKeys(s) && w[k] == BucketTotal(s, k) {
      var g := AssignedFrom(s, groups, k);
      var x :| x in s && x.categoryId == g;
      AssignGroupsValue(s, groups, g);
      var j :| 0 <= j < |s| && s[j] == x;
      BucketIsGroup(s, g);
    }
    forall k | k in BucketKeys(s) ensures k in w {
      var x :| x in s && BucketKey(x.categoryId) == k;
      AssignGroupsKeys(s, groups);
    }
  }

  /** When no counted row is filed under empty text or under the literal
      bucket name, the code as written gives the intended result. */
  lemma AsWrittenAgreesWithoutCollision(rs: seq<StoredRecord>, start: Date, end: Date, accountId: Option<string>,
                                        groups: seq<Option<string>>)
    requires IsGrouping(Selected(rs, start, end, accountId), groups)
    requires forall i :: 0 <= i < |rs| ==> NoBucketCollision(rs[i].categoryId)
    ensures ByCategoryAsWritten(rs, start, end, accountId, groups) == ByCategory(rs, start, end, accountId)
  {
    SelectedNoCollision(rs, start, end, accountId);
    AssignGroupsIntended(Selected(rs, start, end, accountId), groups);
  }

  /** Every entry of the fold comes from one of the groups. */
  lemma {:induction false} AssignedFrom(rs: seq<StoredRecord>, groups: seq<Option<string>>, k: string) returns (g: Option<string>)
    requires k in AssignGroups(rs, groups)
    ensures g in groups && BucketKey(g) == k
  {
    var init := groups[..|groups| - 1];
    var last := groups[|groups| - 1];
    if BucketKey(last) == k {
      g := last;
    } else {
      g := AssignedFrom(rs, init, k);
      assert g in groups by {
        var i :| 0 <= i < |init| && init[i] == g;
        assert groups[i] == g;
      }
    }
  }

  /** The fold over two groups filed under the same bucket keeps the
      second group's total. */
  lemma AssignTwoSameBucket(rs: seq<StoredRecord>, g0: Option<string>, g1: Option<string>)
    requires BucketKey(g0) == BucketKey(g1)
    ensures AssignGroups(rs, [g0, g1]) == map[BucketKey(g1) := GroupTotal(rs, g1)]
  {
    var k := BucketKey(g1);
    assert [g0, g1][..1] == [g0];
    assert [g0][..0] == [];
    assert AssignGroups(rs, [g0]) == AssignGroups(rs, [])[k := GroupTotal(rs, g0)];
    assert AssignGroups(rs, [g0, g1]) == AssignGroups(rs, [g0])[k := GroupTotal(rs, g1)];
  }

  /** Two rows with different stored categories form exactly two groups. */
  lemma TwoGroups(s: seq<StoredRecord>, groups: seq<Option<string>>)
    requires |s| == 2 && s[0].categoryId != s[1].categoryId
    requires IsGrouping(s, groups)
    ensures groups == [s[0].categoryId, s[1].categoryId] || groups == [s[1].categoryId, s[0].categoryId]
  {
    var c0, c1 := s[0].categoryId, s[1].categoryId;
    assert s[0] in s && s[1] in s;
    assert c0 in groups && c1 in groups;
    assert forall g :: g in groups ==> g == c0 || g == c1 by {
      forall g | g in groups ensures g == c0 || g == c1 {
        var x :| x in s && x.categoryId == g;
      }
    }
    var i :| 0 <= i < |groups| && groups[i] == c0;
    var j :| 0 <= j < |groups| && groups[j] == c1;
    NoRepeatsCount(groups);
    assert (set g | g in groups) == {c0, c1};
    if i == 0 {
      assert groups == [c0, c1];
    } else {
      assert groups == [c1, c0];
    }
  }

  lemma TwoRowTotals(a: StoredRecord, b: StoredRecord)
    requires a.categoryId == None && b.categoryId == Some("")
    ensures GroupTotal([a, b], None) == a.amount
    ensures GroupTotal([a, b], Some("")) == b.amount
    ensures BucketTotal([a, b], "uncategorized") == a.amount + b.amount
  {
    assert [a, b][..1] == [a] && [a][..0] == [];
    assert GroupTotal([a], None) == GroupTotal([], None) + a.amount;
    assert GroupTotal([a, b], None) == GroupTotal([a], None);
    assert GroupTotal([a], Some("")) == GroupTotal([], Some(""));
    assert GroupTotal([a, b], Some("")) == GroupTotal([a], Some("")) + b.amount;
    assert BucketTotal([a], "uncategorized") == BucketTotal([], "uncategorized") + a.amount;
    assert BucketTotal([a, b], "uncategorized") == BucketTotal([a], "uncategorized") + b.amount;
  }

  /** A row without a category and one with an empty category, both
      counted: the loop keeps only one group's total under
      "uncategorized", whichever order the groups come in, while the two
      amounts together belong there. */
  lemma UncategorizedOverwritten(a: StoredRecord, b: StoredRecord, start: Date, end: Date,
                                 groups: seq<Option<string>>)
    requires a.categoryId == None && a.amount == 10000
    requires b.categoryId == Some("") && b.amount == 1250
    requires InRange(a.date, start, end) && InRange(b.date, start, end)
    requires IsGrouping(Selected([a, b], start, end, None), groups)
    ensures ByCategory([a, b], start, end, None)["uncategorized"] == 11250
    ensures ByCategoryAsWritten([a, b], start, end, None, groups)["uncategorized"] != 11250
  {
    var s := SelectedBoth(a, b, start, end);
    BothCounted(a, b, start, end);
    AssignedUncategorized(a, b, groups);
    assert ByCategoryAsWritten([a, b], start, end, None, groups) == AssignGroups(s, groups);
  }

  /** Both rows lie in the range, so both are selected, in order. */
  lemma SelectedBoth(a: StoredRecord, b: StoredRecord, start: Date, end: Date) returns (s: seq<StoredRecord>)
    requires InRange(a.date, start, end) && InRange(b.date, start, end)
    ensures s == Selected([a, b], start, end, None) && s == [a, b]
  {
    s := Selected([a, b], start, end, None);
    FilterKeepsAll([a, b], (x: StoredRecord) => InSummary(x, start, end, None));
  }

  /** The corrected grouping files both amounts under "uncategorized". */
  lemma BothCounted(a: StoredRecord, b: StoredRecord, start: Date, end: Date)
    requires a.categoryId == None && a.amount == 10000
    requires b.categoryId == Some("") && b.amount == 1250
    requires InRange(a.date, start, end) && InRange(b.date, start, end)
    ensures "uncategorized" in ByCategory([a, b], start, end, None)
    ensures ByCategory([a, b], start, end, None)["uncategorized"] == 11250
  {
    var s := SelectedBoth(a, b, start, end);
    TwoRowTotals(a, b);
    assert "uncategorized" in BucketKeys(s) by { assert a in s; }
  }

  /** The per-group loop keeps one of the two amounts, not their sum. */
  lemma AssignedUncategorized(a: StoredRecord, b: StoredRecord, groups: seq<Option<string>>)
    requires a.categoryId == None && a.amount == 10000
    requires b.categoryId == Some("") && b.amount == 1250
    requires IsGrouping([a, b], groups)
    ensures "uncategorized" in AssignGroups([a, b], groups)
    ensures AssignGroups([a, b], groups)["uncategorized"] != 11250
  {
    TwoRowTotals(a, b);
    TwoGroups([a, b], groups);
    AssignTwoSameBucket([a, b], groups[0], groups[1]);
  }
}
