/** The decision rules of the interactive command line (code/cli.py):
    reading a record type, choosing a category when adding a record,
    resolving an account from typed text, the `showrecords` filter and the
    guard of `delcat`. Each answer the user types is a parameter. Running
    out of answers stops a retry loop with no choice; this stands in for
    end of input, which the source does not catch there. */
module Cli {
  import opened Wrappers
  import opened Text
  import opened Models
  import opened Seqs
  import opened Sorting
  import opened Services
  import opened Query

  /** The name of the built-in category. */
  const OtherName: string := "其他"

  // ----- `_ask_type` -----

  /** One answer to the type prompt: stripped and lower-cased, then read
      by its first letter; None asks again. */
  function TypeAnswer(s: string): (r: Option<RecordType>)
    ensures var t := Lower(Strip(s));
      && (r == Some(Income) <==> |t| > 0 && t[0] == 'i')
      && (r == Some(Expense) <==> |t| > 0 && t[0] == 'e')
  {
    var t := Lower(Strip(s));
    if t == "" then None
    else if t[0] == 'i' then Some(Income)
    else if t[0] == 'e' then Some(Expense)
    else None
  }

  /** Typing a type's stored value ("income", "expense") selects that
      type. */
  lemma TypeAnswerReadsStoredValue(t: RecordType)
    ensures TypeAnswer(TypeValue(t)) == Some(t)
  {
    var v := TypeValue(t);
    assert !IsSpace(v[0]) && !IsSpace(v[|v| - 1]);
    assert TrimStart(v) == v;
    assert TrimEnd(v) == v;
  }

  // ----- retry loops: the first answer that decides -----

  /** No element before the `i`-th decides (`f` gives None for each). */
  predicate NoneBefore<T, U>(xs: seq<T>, f: T -> Option<U>, i: int)
    requires 0 <= i <= |xs|
  {
    forall j :: 0 <= j < i ==> f(xs[j]).None?
  }

  /** Past an undecided first element, the rest start afresh. */
  lemma NoneBeforeShift<T, U>(xs: seq<T>, f: T -> Option<U>, i: int)
    requires 0 < i <= |xs| && NoneBefore(xs, f, i)
    ensures NoneBefore(xs[1..], f, i - 1)
    ensures i < |xs| ==> xs[1..][i - 1] == xs[i]
  {
    var rest := xs[1..];
    forall j | 0 <= j < i - 1 ensures f(rest[j]).None? {
      assert rest[j] == xs[j + 1];
    }
  }

  /** After an undecided first element, a result that agrees with the first
      deciding element of the rest agrees with the first of all. */
  lemma FirstHitShift<T, U>(xs: seq<T>, f: T -> Option<U>, r: Option<U>)
    requires xs != [] && f(xs[0]).None?
    requires r.Some? ==> exists i :: 0 <= i < |xs[1..]| && f(xs[1..][i]) == r
    requires r.None? ==> forall i :: 0 <= i < |xs[1..]| ==> f(xs[1..][i]).None?
    requires forall i :: (0 <= i < |xs[1..]| && NoneBefore(xs[1..], f, i) && f(xs[1..][i]).Some?) ==>
      r == f(xs[1..][i])
    ensures r.Some? ==> exists i :: 0 <= i < |xs| && f(xs[i]) == r
    ensures r.None? ==> forall i :: 0 <= i < |xs| ==> f(xs[i]).None?
    ensures forall i :: (0 <= i < |xs| && NoneBefore(xs, f, i) && f(xs[i]).Some?) ==> r == f(xs[i])
  {
    if r.Some? {
      var i :| 0 <= i < |xs[1..]| && f(xs[1..][i]) == r;
      assert xs[i + 1] == xs[1..][i];
    } else {
      forall i | 0 < i < |xs| ensures f(xs[i]).None? {
        assert xs[i] == xs[1..][i - 1];
      }
    }
    forall i | 0 <= i < |xs| && NoneBefore(xs, f, i) && f(xs[i]).Some? ensures r == f(xs[i]) {
      if i > 0 {
        NoneBeforeShift(xs, f, i);
      }
    }
  }

  /** The same for a result that is the decided value itself. */
  lemma FirstValueShift<T, U>(xs: seq<T>, f: T -> Option<U>, r: U)
    requires xs != [] && f(xs[0]).None?
    requires forall i :: (0 <= i < |xs[1..]| && NoneBefore(xs[1..], f, i) && f(xs[1..][i]).Some?) ==>
      r == f(xs[1..][i]).value
    ensures forall i :: (0 <= i < |xs| && NoneBefore(xs, f, i) && f(xs[i]).Some?) ==> r == f(xs[i]).value
  {
    forall i | 0 <= i < |xs| && NoneBefore(xs, f, i) && f(xs[i]).Some? ensures r == f(xs[i]).value {
      if i > 0 {
        NoneBeforeShift(xs, f, i);
      }
    }
  }

  /** The first answer that names a type, if any. */
  function FirstType(answers: seq<string>): (r: Option<RecordType>)
    ensures r.Some? ==> exists i :: 0 <= i < |answers| && TypeAnswer(answers[i]) == r
    ensures r.None? ==> forall i :: 0 <= i < |answers| ==> TypeAnswer(answers[i]).None?
    ensures forall i :: (0 <= i < |answers| && NoneBefore(answers, TypeAnswer, i) && TypeAnswer(answers[i]).Some?) ==>
      r == TypeAnswer(answers[i])
  {
    if answers == [] then None
    else if TypeAnswer(answers[0]).Some? then TypeAnswer(answers[0])
    else
      var r := FirstType(answers[1..]);
      FirstHitShift(answers, TypeAnswer, r);
      r
  }

  /** `_ask_type`: asks until an answer names a type. */
  method AskType(answers: seq<string>) returns (t: Option<RecordType>)
    ensures t == FirstType(answers)
  {
    var i := 0;
    while i < |answers|
      invariant 0 <= i <= |answers|
      invariant FirstType(answers[i..]) == FirstType(answers)
    {
      assert answers[i..][1..] == answers[i + 1..];
      var s := TypeAnswer(answers[i]);
      if s.Some? {
        return s;
      }
      i := i + 1;
    }
    return None;
  }

  // ----- the `add` command's category -----

  /** The typed category index (already stripped): a 1-based position in
      the listed categories; empty, non-numeric or out-of-range input
      leaves the record without a category. */
  function PickCategory(cats: seq<Category>, sel: string): (r: Option<string>)
    ensures sel == "" ==> r.None?
    ensures r.Some? <==> ParseInt(sel).Some? && 1 <= ParseInt(sel).value <= |cats|
    ensures r.Some? ==> r.value == cats[ParseInt(sel).value - 1].id
  {
    if sel == "" then None
    else
      match ParseInt(sel)
      case None => None
      case Some(idx) => if 1 <= idx <= |cats| then Some(cats[idx - 1].id) else None
  }

  /** The `add` command's category step: with categories defined, the
      answer picks one of the listed categories (or none); with none
      defined, a category named `其他` is created and used. */
  method ChooseCategory(store: Store, sel: string, freshId: string) returns (cat: Option<string>)
    requires store.Valid()
    modifies store
    ensures store.Valid()
    ensures old(store.categories) != [] ==>
      && cat == PickCategory(ListCategories(old(store.categories)), Strip(sel))
      && store.categories == old(store.categories)
    ensures old(store.categories) == [] ==>
      && cat == Some(freshId)
      && store.categories == [NewCategory(freshId, OtherName)]
    ensures store.records == old(store.records) && store.accounts == old(store.accounts)
    ensures store.budgets == old(store.budgets) && store.notifications == old(store.notifications)
  {
    var available := ListCategories(store.categories);
    assert |available| == |multiset(available)| == |multiset(store.categories)| == |store.categories|;
    if available != [] {
      cat := PickCategory(available, Strip(sel));
    } else {
      var other := NewCategory(freshId, OtherName);
      var ok := store.AddCategory(other);
      cat := Some(other.id);
    }
  }

  // ----- the account resolver of `showrecords` -----

  datatype Step = Cancel | Chosen(accountId: string) | Retry

  /** Accounts whose name equals the answer, ignoring case. */
  function ExactMatches(accs: seq<Account>, sel: string): seq<Account>
  {
    Filter(accs, (a: Account) => Lower(a.name) == Lower(sel))
  }

  /** Accounts whose name contains the answer, ignoring case. */
  function PartialMatches(accs: seq<Account>, sel: string): seq<Account>
  {
    Filter(accs, (a: Account) => Contains(Lower(a.name), Lower(sel)))
  }

  /** One answer (already stripped): empty cancels; all digits is only
      ever an index; otherwise the first exact name match, else the only
      partial match; anything else asks again. */
  function ResolveStep(accs: seq<Account>, sel: string): (s: Step)
    ensures sel == "" <==> s == Cancel
    ensures s.Chosen? ==> exists i :: 0 <= i < |accs| && accs[i].id == s.accountId
    ensures IsDigits(sel) ==>
      s == if 1 <= DigitsValue(sel) <= |accs| then Chosen(accs[DigitsValue(sel) - 1].id) else Retry
  {
    if sel == "" then Cancel
    else if IsDigits(sel) then
      var idx := DigitsValue(sel);
      if 1 <= idx <= |accs| then Chosen(accs[idx - 1].id) else Retry
    else
      var exact := ExactMatches(accs, sel);
      if exact != [] then
        assert exact[0] in exact;
        Chosen(exact[0].id)
      else
        var partial := PartialMatches(accs, sel);
        if |partial| == 1 then
          assert partial[0] in partial;
          Chosen(partial[0].id)
        else Retry
  }

  /** A name typed in any case selects the first account with that name,
      even when later accounts share it. */
  lemma ExactNameSelectsFirst(accs: seq<Account>, sel: string, j: int)
    requires sel != "" && !IsDigits(sel)
    requires 0 <= j < |accs| && Lower(accs[j].name) == Lower(sel)
    requires forall i :: 0 <= i < j ==> Lower(accs[i].name) != Lower(sel)
    ensures ResolveStep(accs, sel) == Chosen(accs[j].id)
  {
    FilterFirst(accs, (a: Account) => Lower(a.name) == Lower(sel), j);
  }

  /** With no exact match, a part of exactly one account's name selects it. */
  lemma UniquePartSelects(accs: seq<Account>, sel: string, j: int)
    requires sel != "" && !IsDigits(sel)
    requires forall i :: 0 <= i < |accs| ==> Lower(accs[i].name) != Lower(sel)
    requires 0 <= j < |accs| && Contains(Lower(accs[j].name), Lower(sel))
    requires forall i :: 0 <= i < |accs| && i != j ==> !Contains(Lower(accs[i].name), Lower(sel))
    ensures ResolveStep(accs, sel) == Chosen(accs[j].id)
  {
    FilterDropsAll(accs, (a: Account) => Lower(a.name) == Lower(sel));
    FilterSingle(accs, (a: Account) => Contains(Lower(a.name), Lower(sel)), j);
  }

  /** With no exact match, a part shared by two accounts selects nothing. */
  lemma AmbiguousPartAsksAgain(accs: seq<Account>, sel: string, i: int, j: int)
    requires sel != "" && !IsDigits(sel)
    requires forall k :: 0 <= k < |accs| ==> Lower(accs[k].name) != Lower(sel)
    requires 0 <= i < j < |accs|
    requires Contains(Lower(accs[i].name), Lower(sel)) && Contains(Lower(accs[j].name), Lower(sel))
    ensures ResolveStep(accs, sel) == Retry
  {
    FilterDropsAll(accs, (a: Account) => Lower(a.name) == Lower(sel));
    FilterTwo(accs, (a: Account) => Contains(Lower(a.name), Lower(sel)), i, j);
  }

  /** What one answer decides: nothing when it asks again, otherwise the
      choice it makes (None when it cancels). */
  function Decided(accs: seq<Account>, s: string): (d: Option<Option<string>>)
    ensures d.None? <==> ResolveStep(accs, Strip(s)) == Retry
    ensures d == Some(None) <==> ResolveStep(accs, Strip(s)) == Cancel
  {
    match ResolveStep(accs, Strip(s))
    case Retry => None
    case Cancel => Some(None)
    case Chosen(id) => Some(Some(id))
  }

  function DecidedBy(accs: seq<Account>): string -> Option<Option<string>>
  {
    (s: string) => Decided(accs, s)
  }

  /** A first answer that does not ask again is the first deciding one. */
  lemma FirstAnswerDecides(accs: seq<Account>, answers: seq<string>)
    requires answers != [] && DecidedBy(accs)(answers[0]).Some?
    ensures forall i ::
      (0 <= i < |answers| && NoneBefore(answers, DecidedBy(accs), i) && DecidedBy(accs)(answers[i]).Some?) ==>
      i == 0
    ensures !NoneBefore(answers, DecidedBy(accs), |answers|)
  {
  }

  /** The account the answers resolve to, asking again on `Retry`: the
      first answer that does not ask again decides, by choosing or by
      cancelling, and running out of answers chooses nothing. */
  function ResolveFrom(accs: seq<Account>, answers: seq<string>): (r: Option<string>)
    ensures r.Some? ==> exists i :: 0 <= i < |accs| && accs[i].id == r.value
    ensures answers != [] && Strip(answers[0]) == "" ==> r.None?
    ensures forall i ::
      (0 <= i < |answers| && NoneBefore(answers, DecidedBy(accs), i) && DecidedBy(accs)(answers[i]).Some?) ==>
      r == DecidedBy(accs)(answers[i]).value
    ensures NoneBefore(answers, DecidedBy(accs), |answers|) ==> r.None?
  {
    if answers == [] then None
    else
      match ResolveStep(accs, Strip(answers[0]))
      case Cancel =>
        FirstAnswerDecides(accs, answers);
        None
      case Chosen(id) =>
        FirstAnswerDecides(accs, answers);
        Some(id)
      case Retry =>
        var r := ResolveFrom(accs, answers[1..]);
        assert DecidedBy(accs)(answers[0]).None?;
        FirstValueShift(answers, DecidedBy(accs), r);
        if NoneBefore(answers, DecidedBy(accs), |answers|) then
          NoneBeforeShift(answers, DecidedBy(accs), |answers|);
          r
        else r
  }

  /** The `while True` loop that reads answers until one resolves or
      cancels. */
  method ResolveAccount(accs: seq<Account>, answers: seq<string>) returns (choice: Option<string>)
    ensures choice == ResolveFrom(accs, answers)
  {
    var i := 0;
    while i < |answers|
      invariant 0 <= i <= |answers|
      invariant ResolveFrom(accs, answers[i..]) == ResolveFrom(accs, answers)
    {
      assert answers[i..][1..] == answers[i + 1..];
      var step := ResolveStep(accs, Strip(answers[i]));
      match step
      case Cancel => return None;
      case Chosen(id) => return Some(id);
      case Retry => i := i + 1;
    }
    return None;
  }

  // ----- the `showrecords` filter -----

  /** The date part of the filter: an inclusive range, a lower bound, an
      upper bound, or nothing. */
  predicate ShowDateMatches(d: Date, start: Option<Date>, end: Option<Date>)
  {
    match (start, end)
    case (Some(s), Some(e)) => LexLe(s, d) && LexLe(d, e)
    case (Some(s), None) => LexLe(s, d)
    case (None, Some(e)) => LexLe(d, e)
    case (None, None) => true
  }

  /** What `showrecords` lists: the chosen account always, the chosen
      category when there is a non-empty one, and the date part. */
  predicate ShowMatches(r: StoredRecord, account: string, category: Option<string>,
                        start: Option<Date>, end: Option<Date>)
  {
    && r.accountId == Some(account)
    && (category.Some? && category.value != "" ==> r.categoryId == category)
    && ShowDateMatches(r.date, start, end)
  }

  /** The `sql += ...` steps of `showrecords`. */
  method ShowConditions(account: string, category: Option<string>, start: Option<Date>, end: Option<Date>)
    returns (conds: seq<Cond>)
    ensures forall r :: HoldsAll(conds, r) <==> ShowMatches(r, account, category, start, end)
    ensures 1 <= |conds| <= 3
  {
    conds := [AccountIs(account)];
    assert forall r :: HoldsAll(conds, r) <==> r.accountId == Some(account) by {
      forall r ensures HoldsAll(conds, r) <==> r.accountId == Some(account) {
        HoldsAllSnoc([], AccountIs(account), r);
      }
    }
    if category.Some? && category.value != "" {
      var c := CategoryIs(category.value);
      forall r ensures HoldsAll(conds + [c], r) <==> HoldsAll(conds, r) && Holds(c, r) {
        HoldsAllSnoc(conds, c, r);
      }
      conds := conds + [c];
    }
    ghost var before := conds;
    assert forall r :: HoldsAll(before, r) <==>
      r.accountId == Some(account) && (category.Some? && category.value != "" ==> r.categoryId == category);
    var dateCond: Option<Cond> := None;
    if start.Some? && end.Some? {
      dateCond := Some(DateBetween(start.value, end.value));
    } else if start.Some? {
      dateCond := Some(DateFrom(start.value));
    } else if end.Some? {
      dateCond := Some(DateUntil(end.value));
    }
    if dateCond.Some? {
      var c := dateCond.value;
      forall r ensures HoldsAll(conds + [c], r) <==> HoldsAll(conds, r) && Holds(c, r) {
        HoldsAllSnoc(conds, c, r);
      }
      conds := conds + [c];
    }
  }

  /** `showrecords` after the account step: nothing is listed when no
      account was chosen (or its id is empty); otherwise the matching
      records, newest first. */
  function ShowRecords(rs: seq<StoredRecord>, choice: Option<string>, category: Option<string>,
                       start: Option<Date>, end: Option<Date>): (out: Option<seq<StoredRecord>>)
    ensures out.Some? <==> choice.Some? && choice.value != ""
    ensures out.Some? ==> Sorted(out.value, RecordDate, true)
    ensures out.Some? ==> forall x :: x in out.value <==> x in rs && ShowMatches(x, choice.value, category, start, end)
    ensures out.Some? ==>
      multiset(out.value) == multiset(Filter(rs, (x: StoredRecord) => ShowMatches(x, choice.value, category, start, end)))
  {
    if choice.None? || choice.value == "" then None
    else
      var picked := Filter(rs, (x: StoredRecord) => ShowMatches(x, choice.value, category, start, end));
      SortSameElements(picked, RecordDate, true);
      Some(Sort(picked, RecordDate, true))
  }

  /** Without category and dates, `showrecords` lists exactly the records
      the account summary adds up. */
  lemma ShowAllOfAccount(rs: seq<StoredRecord>, account: string)
    requires account != ""
    ensures ShowRecords(rs, Some(account), None, None, None).Some?
    ensures multiset(ShowRecords(rs, Some(account), None, None, None).value)
      == multiset(Filter(rs, (x: StoredRecord) => x.accountId == Some(account)))
  {
    FilterSameTest(rs, (x: StoredRecord) => ShowMatches(x, account, None, None, None),
                       (x: StoredRecord) => x.accountId == Some(account));
  }

  // ----- `delcat` -----

  datatype DelCatOutcome = NoCategories | InvalidChoice | Protected | Aborted | Deleted(ok: bool)

  /** The category a `delcat` answer (already stripped) picks from the list. */
  function DelCatPick(cats: seq<Category>, sel: string): (r: Option<Category>)
    ensures r.Some? <==> ParseInt(sel).Some? && 1 <= ParseInt(sel).value <= |cats|
    ensures r.Some? ==> r.value == cats[ParseInt(sel).value - 1] && r.value in cats
  {
    match ParseInt(sel)
    case None => None
    case Some(idx) => if 1 <= idx <= |cats| then Some(cats[idx - 1]) else None
  }

  /** `delcat`: the category `其他` is never deleted, whatever the
      answers; otherwise the force question is asked only when records
      use the category, and nothing happens without confirmation. */
  method DelCat(store: Store, sel: string, forceAnswer: bool, confirmed: bool) returns (out: DelCatOutcome)
    requires store.Valid()
    modifies store
    ensures store.Valid()
    ensures var cats := ListCategories(old(store.categories));
      var pick := DelCatPick(cats, Strip(sel));
      && (cats == [] ==> out == NoCategories)
      && (cats != [] && pick.None? ==> out == InvalidChoice)
      && (pick.Some? && pick.value.name == OtherName ==> out == Protected)
      && (pick.Some? && pick.value.name != OtherName && !confirmed ==> out == Aborted)
      && (!out.Deleted? ==>
            && store.records == old(store.records) && store.categories == old(store.categories))
      && (pick.Some? && pick.value.name != OtherName && confirmed ==>
            var id := pick.value.id;
            var used := UsesCategory(old(store.records), id);
            && out.Deleted?
            && (used && !forceAnswer ==>
                  !out.ok && store.records == old(store.records) && store.categories == old(store.categories))
            && (!used || forceAnswer ==>
                  && out.ok == (id in KeySet(old(store.categories), CategoryId))
                  && store.categories == DropCategory(old(store.categories), id)
                  && store.records == (if used then Detach(old(store.records), id) else old(store.records))))
    ensures store.accounts == old(store.accounts) && store.budgets == old(store.budgets)
    ensures store.notifications == old(store.notifications)
  {
    var cats := ListCategories(store.categories);
    if cats == [] {
      return NoCategories;
    }
    var pick := DelCatPick(cats, Strip(sel));
    if pick.None? {
      return InvalidChoice;
    }
    var cat := pick.value;
    if cat.name == OtherName {
      return Protected;
    }
    var force := UsesCategory(store.records, cat.id) && forceAnswer;
    if !confirmed {
      return Aborted;
    }
    var ok := store.DeleteCategory(cat.id, force);
    out := Deleted(ok);
  }
}
