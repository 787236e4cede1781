/** The record filters the program assembles as SQL `WHERE` clauses:
    `SearchService.search` and the export row selection (code/services.py),
    and the same condition language the `showrecords` command uses. */
module Query {
  import opened Wrappers
  import opened Text
  import opened Models
  import opened Seqs
  import opened Sorting
  import opened Services

  /** One `AND`-ed condition of a `WHERE` clause. */
  datatype Cond =
    | AccountIs(account: string)       // account_id = ?
    | CategoryIs(category: string)     // category_id = ?
    | DateBetween(start: Date, end: Date)  // date BETWEEN ? AND ?
    | DateFrom(start: Date)            // date >= ?
    | DateUntil(end: Date)             // date <= ?
    | Mentions(text: string)           // note LIKE %text% OR tags LIKE %text%

  /** `note LIKE '%q%' OR tags LIKE '%q%'`, read as plain substring tests
      on the note and on each tag; a NULL note never matches. */
  predicate MentionsText(r: StoredRecord, q: string)
  {
    (r.note.Some? && Contains(r.note.value, q))
    || exists i :: 0 <= i < |r.tags| && Contains(r.tags[i], q)
  }

  predicate Holds(c: Cond, r: StoredRecord)
  {
    match c
    case AccountIs(a) => r.accountId == Some(a)
    case CategoryIs(k) => r.categoryId == Some(k)
    case DateBetween(s, e) => LexLe(s, r.date) && LexLe(r.date, e)
    case DateFrom(s) => LexLe(s, r.date)
    case DateUntil(e) => LexLe(r.date, e)
    case Mentions(q) => MentionsText(r, q)
  }

  /** A row passes `WHERE 1=1 AND c1 AND c2 ...`. */
  predicate HoldsAll(cs: seq<Cond>, r: StoredRecord)
  {
    forall i :: 0 <= i < |cs| ==> Holds(cs[i], r)
  }

  lemma HoldsAllSnoc(cs: seq<Cond>, c: Cond, r: StoredRecord)
    ensures HoldsAll(cs + [c], r) <==> HoldsAll(cs, r) && Holds(c, r)
  {
    if HoldsAll(cs, r) && Holds(c, r) {
      forall i | 0 <= i < |cs + [c]| ensures Holds((cs + [c])[i], r) {
        if i < |cs| { assert (cs + [c])[i] == cs[i]; }
      }
    }
    if HoldsAll(cs + [c], r) {
      forall i | 0 <= i < |cs| ensures Holds(cs[i], r) {
        assert (cs + [c])[i] == cs[i];
      }
      assert (cs + [c])[|cs|] == c;
    }
  }

  /** `if start and end`: a date range only when both ends are given. */
  predicate RangePart(r: StoredRecord, start: Option<Date>, end: Option<Date>)
  {
    start.Some? && end.Some? ==> LexLe(start.value, r.date) && LexLe(r.date, end.value)
  }

  /** `if category`: an empty category filters nothing. */
  predicate CategoryPart(r: StoredRecord, category: Option<string>)
  {
    category.Some? && category.value != "" ==> r.categoryId == category
  }

  /** `if query`: an empty text filters nothing. */
  predicate TextPart(r: StoredRecord, query: string)
  {
    query != "" ==> MentionsText(r, query)
  }

  /** What `search(query, start, end, category)` selects. */
  predicate SearchMatches(r: StoredRecord, query: string, start: Option<Date>, end: Option<Date>,
                          category: Option<string>)
  {
    RangePart(r, start, end) && CategoryPart(r, category) && TextPart(r, query)
  }

  /** The `sql += ...` steps of `search`. */
  method SearchConditions(query: string, start: Option<Date>, end: Option<Date>, category: Option<string>)
    returns (conds: seq<Cond>)
    ensures forall r :: HoldsAll(conds, r) <==> SearchMatches(r, query, start, end, category)
    ensures |conds| <= 3
  {
    conds := [];
    if start.Some? && end.Some? {
      var c := DateBetween(start.value, end.value);
      forall r ensures HoldsAll(conds + [c], r) <==> HoldsAll(conds, r) && Holds(c, r) {
        HoldsAllSnoc(conds, c, r);
      }
      conds := conds + [c];
    }
    assert forall r :: HoldsAll(conds, r) <==> RangePart(r, start, end);
    if category.Some? && category.value != "" {
      var c := CategoryIs(category.value);
      forall r ensures HoldsAll(conds + [c], r) <==> HoldsAll(conds, r) && Holds(c, r) {
        HoldsAllSnoc(conds, c, r);
      }
      conds := conds + [c];
    }
    assert forall r :: HoldsAll(conds, r) <==> RangePart(r, start, end) && CategoryPart(r, category);
    if query != "" {
      var c := Mentions(query);
      forall r ensures HoldsAll(conds + [c], r) <==> HoldsAll(conds, r) && Holds(c, r) {
        HoldsAllSnoc(conds, c, r);
      }
      conds := conds + [c];
    }
  }

  /** The rows a list of conditions selects, `ORDER BY date DESC`. */
  function SelectNewestFirst(rs: seq<StoredRecord>, conds: seq<Cond>): (out: seq<StoredRecord>)
    ensures Sorted(out, RecordDate, true)
    ensures forall x :: x in out <==> x in rs && HoldsAll(conds, x)
    ensures multiset(out) == multiset(Filter(rs, (x: StoredRecord) => HoldsAll(conds, x)))
  {
    var picked := Filter(rs, (x: StoredRecord) => HoldsAll(conds, x));
    SortSameElements(picked, RecordDate, true);
    Sort(picked, RecordDate, true)
  }

  /** The stored rows `search`'s WHERE clause selects, in storage order. */
  function Matching(rs: seq<StoredRecord>, query: string, start: Option<Date>, end: Option<Date>,
                    category: Option<string>): (picked: seq<StoredRecord>)
    ensures forall x :: x in picked <==> x in rs && SearchMatches(x, query, start, end, category)
  {
    Filter(rs, (x: StoredRecord) => SearchMatches(x, query, start, end, category))
  }

  /** `search` reads back exactly the rows its step-by-step conditions
      select, in `ORDER BY date DESC` order, and raises exactly when one
      of them has an empty date. */
  lemma SearchUsesConditions(rs: seq<StoredRecord>, conds: seq<Cond>, query: string, start: Option<Date>,
                             end: Option<Date>, category: Option<string>)
    requires forall r :: HoldsAll(conds, r) <==> SearchMatches(r, query, start, end, category)
    ensures var sel := SelectNewestFirst(rs, conds);
      var out := Search(rs, query, start, end, category);
      && (out.Returned? <==> forall i :: 0 <= i < |sel| ==> sel[i].date != "")
      && (out.Returned? ==> |out.value| == |sel| && forall i :: 0 <= i < |sel| ==> out.value[i] == SearchResult(sel[i]))
  {
    var sel := SelectionAgrees(rs, conds, query, start, end, category);
    if forall i :: 0 <= i < |sel| ==> sel[i].date != "" {
      assert Search(rs, query, start, end, category) == Returned(SearchResults(sel));
    } else {
      assert Search(rs, query, start, end, category) == Raised("ValueError");
    }
  }

  /** Conditions that hold exactly where `search`'s filter does select
      the same sorted rows. */
  lemma SelectionAgrees(rs: seq<StoredRecord>, conds: seq<Cond>, query: string, start: Option<Date>,
                        end: Option<Date>, category: Option<string>) returns (sel: seq<StoredRecord>)
    requires forall r :: HoldsAll(conds, r) <==> SearchMatches(r, query, start, end, category)
    ensures sel == SelectNewestFirst(rs, conds)
    ensures sel == Sort(Matching(rs, query, start, end, category), RecordDate, true)
  {
    var byConds := (x: StoredRecord) => HoldsAll(conds, x);
    var bySearch := (x: StoredRecord) => SearchMatches(x, query, start, end, category);
    FilterSameTest(rs, byConds, bySearch);
    sel := SelectNewestFirst(rs, conds);
  }

  /** `search`'s result: every selected row read back without its account
      (the constructor call leaves it out), newest first; `date.fromisoformat`
      of an empty stored date raises. */
  function Search(rs: seq<StoredRecord>, query: string, start: Option<Date>, end: Option<Date>,
                  category: Option<string>): (out: Outcome<seq<Record>>)
    ensures out.Returned? <==>
      forall x :: x in rs && SearchMatches(x, query, start, end, category) ==> x.date != ""
    ensures out.Returned? ==> |out.value| == |Matching(rs, query, start, end, category)|
    ensures out.Returned? ==> forall i :: 0 <= i < |out.value| ==>
      exists x :: x in rs && SearchMatches(x, query, start, end, category) && out.value[i] == SearchResult(x)
    ensures out.Returned? ==> forall x :: x in rs && SearchMatches(x, query, start, end, category) ==>
      SearchResult(x) in out.value
    ensures out.Returned? ==> forall i :: 0 <= i < |out.value| ==>
      out.value[i].accountId.None? && out.value[i].date.Some? && out.value[i].date.value != ""
    ensures out.Returned? ==> forall i, j :: 0 <= i < j < |out.value| ==>
      LexLe(out.value[j].date.value, out.value[i].date.value)
  {
    var picked := Matching(rs, query, start, end, category);
    var sorted := Sort(picked, RecordDate, true);
    if exists i :: 0 <= i < |sorted| && sorted[i].date == "" then
      EmptyDateSelected(rs, query, start, end, category, sorted);
      Raised("ValueError")
    else
      var out := SearchResults(sorted);
      ResultsOfSelection(rs, query, start, end, category, sorted, out);
      Returned(out)
  }

  /** A selected row with an empty date comes from `rs` and matches. */
  lemma EmptyDateSelected(rs: seq<StoredRecord>, query: string, start: Option<Date>, end: Option<Date>,
                          category: Option<string>, sorted: seq<StoredRecord>)
    requires sorted == Sort(Matching(rs, query, start, end, category), RecordDate, true)
    requires exists i :: 0 <= i < |sorted| && sorted[i].date == ""
    ensures exists x :: x in rs && SearchMatches(x, query, start, end, category) && x.date == ""
  {
    SortSameElements(Matching(rs, query, start, end, category), RecordDate, true);
    var i :| 0 <= i < |sorted| && sorted[i].date == "";
    assert sorted[i] in sorted;
  }

  /** The results built from the sorted selection are exactly the selected
      rows read back, one per selected row. */
  lemma ResultsOfSelection(rs: seq<StoredRecord>, query: string, start: Option<Date>, end: Option<Date>,
                           category: Option<string>, sorted: seq<StoredRecord>, out: seq<Record>)
    requires sorted == Sort(Matching(rs, query, start, end, category), RecordDate, true)
    requires |out| == |sorted| && forall i :: 0 <= i < |out| ==> out[i] == SearchResult(sorted[i])
    requires forall i :: 0 <= i < |sorted| ==> sorted[i].date != ""
    ensures forall x :: x in rs && SearchMatches(x, query, start, end, category) ==> x.date != ""
    ensures |out| == |Matching(rs, query, start, end, category)|
    ensures forall i :: 0 <= i < |out| ==>
      exists x :: x in rs && SearchMatches(x, query, start, end, category) && out[i] == SearchResult(x)
    ensures forall x :: x in rs && SearchMatches(x, query, start, end, category) ==> SearchResult(x) in out
  {
    SortSameElements(Matching(rs, query, start, end, category), RecordDate, true);
    forall i | 0 <= i < |out|
      ensures exists x :: x in rs && SearchMatches(x, query, start, end, category) && out[i] == SearchResult(x)
    {
      var x := sorted[i];
      assert x in sorted;
      assert x in rs && SearchMatches(x, query, start, end, category) && out[i] == SearchResult(x);
    }
    forall x | x in rs && SearchMatches(x, query, start, end, category)
      ensures x.date != "" && SearchResult(x) in out
    {
      var i :| 0 <= i < |sorted| && sorted[i] == x;
      assert out[i] == SearchResult(x);
    }
  }

  /** The records `search` builds from the sorted rows, in that order. */
  function SearchResults(sorted: seq<StoredRecord>): (out: seq<Record>)
    requires Sorted(sorted, RecordDate, true)
    requires forall i :: 0 <= i < |sorted| ==> sorted[i].date != ""
    ensures |out| == |sorted|
    ensures forall i :: 0 <= i < |out| ==>
      out[i].accountId.None? && out[i].date.Some? && out[i].date.value != ""
    ensures forall i, j :: 0 <= i < j < |out| ==> LexLe(out[j].date.value, out[i].date.value)
    ensures forall i :: 0 <= i < |out| ==> out[i] == SearchResult(sorted[i])
  {
    var out := seq(|sorted|, i requires 0 <= i < |sorted| => SearchResult(sorted[i]));
    assert forall i, j :: 0 <= i < j < |out| ==> InOrder(RecordDate(sorted[i]), RecordDate(sorted[j]), true);
    out
  }

  /** One `Record(...)` built by `search`. */
  function SearchResult(s: StoredRecord): (r: Record)
    ensures r.id == s.id && r.amount == s.amount && r.rtype == s.rtype && r.date == Some(s.date)
    ensures r.categoryId == s.categoryId && r.note == s.note && r.accountId.None?
    ensures r.tags == s.tags && r.attachments == s.attachments
  {
    Record(s.id, s.amount, s.rtype, Some(s.date), s.categoryId, s.tags, s.note, s.attachments, None)
  }

  /** A search with no text, no category and no complete date range lists
      every record (when none has an empty date). */
  lemma UnfilteredSearchListsAll(rs: seq<StoredRecord>, start: Option<Date>, end: Option<Date>)
    requires start.None? || end.None?
    requires forall i :: 0 <= i < |rs| ==> rs[i].date != ""
    ensures Search(rs, "", start, end, None).Returned?
    ensures |Search(rs, "", start, end, None).value| == |rs|
  {
    var keep := (x: StoredRecord) => SearchMatches(x, "", start, end, None);
    FilterKeepsAll(rs, keep);
  }

  /** `export_to_csv` / `export_records_to_csv` row selection: every
      record in storage order, or only those dated in the range when both
      ends are given. */
  function ExportSelection(rs: seq<StoredRecord>, start: Option<Date>, end: Option<Date>): (out: seq<StoredRecord>)
    ensures start.None? || end.None? ==> out == rs
    ensures start.Some? && end.Some? ==>
      forall x :: x in out <==> x in rs && LexLe(start.value, x.date) && LexLe(x.date, end.value)
  {
    if start.Some? && end.Some? then
      Filter(rs, (x: StoredRecord) => Holds(DateBetween(start.value, end.value), x))
    else rs
  }

  /** Exporting a range selects exactly what `search` selects with that
      range and no other filter. */
  lemma ExportMatchesSearchRange(rs: seq<StoredRecord>, start: Date, end: Date)
    ensures forall x :: x in ExportSelection(rs, Some(start), Some(end)) <==>
      x in rs && SearchMatches(x, "", Some(start), Some(end), None)
  {
  }
}
