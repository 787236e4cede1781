/** The repository and service layer (code/services.py): records,
    categories, accounts, budgets and notifications held in the store,
    with the reads that turn stored rows back into entities. The current
    day used for missing dates is a parameter (`date.today()`). */
module Services {
  import opened Wrappers
  import opened Text
  import opened Models
  import opened Seqs
  import opened Sorting

  /** A row of the `records` table. `date` is NOT NULL but may be empty
      text (rows that came in through CSV import); category and account may
      be NULL or empty text. */
  datatype StoredRecord = StoredRecord(
    id: string,
    amount: Money,
    rtype: RecordType,
    date: Date,
    categoryId: Option<string>,
    accountId: Option<string>,
    tags: seq<string>,
    note: Option<string>,
    attachments: seq<string>)

  function RecordId(r: StoredRecord): string { r.id }
  function RecordDate(r: StoredRecord): string { r.date }
  function CategoryId(c: Category): string { c.id }
  function CategoryName(c: Category): string { c.name }
  function AccountId(a: Account): string { a.id }
  function AccountName(a: Account): string { a.name }
  function BudgetId(b: Budget): string { b.id }
  function NotificationId(n: Notification): string { n.id }
  function NotificationTime(n: Notification): string { n.timestamp }

  /** `(record.date or date.today()).isoformat()`: what the writes store. */
  function StoredDate(d: Option<Date>, today: Date): Date
  {
    if d.Some? then d.value else today
  }

  /** The row `add_record` inserts for `r`. */
  function ToStored(r: Record, today: Date): StoredRecord
  {
    StoredRecord(r.id, r.amount, r.rtype, StoredDate(r.date, today), r.categoryId,
                 r.accountId, r.tags, r.note, r.attachments)
  }

  /** An empty stored date reads back as the current day. */
  function ReadDate(d: Date, today: Date): Date
  {
    if d == "" then today else d
  }

  /** An empty or NULL reference both read back as absent. */
  function NonEmpty(o: Option<string>): (r: Option<string>)
    ensures r != Some("")
    ensures r.Some? ==> r == o
  {
    if o.Some? && o.value != "" then o else None
  }

  /** The entity `get_record` builds from a stored row (references kept
      as stored). */
  function Hydrate(s: StoredRecord, today: Date): Record
  {
    Record(s.id, s.amount, s.rtype, Some(ReadDate(s.date, today)), s.categoryId,
           s.tags, s.note, s.attachments, s.accountId)
  }

  /** The entity `list_records` builds: empty references read as absent. */
  function HydrateListed(s: StoredRecord, today: Date): Record
  {
    Record(s.id, s.amount, s.rtype, Some(ReadDate(s.date, today)), NonEmpty(s.categoryId),
           s.tags, s.note, s.attachments, NonEmpty(s.accountId))
  }

  /** `SELECT * FROM records WHERE record_id=?`, first row. */
  function Find(rs: seq<StoredRecord>, id: string): (r: Option<StoredRecord>)
    ensures r.Some? <==> id in KeySet(rs, RecordId)
    ensures r.Some? ==> r.value in rs && r.value.id == id
  {
    if rs == [] then None
    else if rs[0].id == id then Some(rs[0])
    else
      var r := Find(rs[1..], id);
      assert id in KeySet(rs[1..], RecordId) ==> id in KeySet(rs, RecordId) by {
        if id in KeySet(rs[1..], RecordId) {
          var i :| 0 <= i < |rs[1..]| && RecordId(rs[1..][i]) == id;
          assert RecordId(rs[i + 1]) == id;
        }
      }
      assert id in KeySet(rs, RecordId) ==> id in KeySet(rs[1..], RecordId) by {
        if id in KeySet(rs, RecordId) {
          var i :| 0 <= i < |rs| && RecordId(rs[i]) == id;
          assert i > 0;
          assert rs[1..][i - 1] == rs[i];
        }
      }
      r
  }

  /** `get_record` as it is meant to work: absent when no row has the id;
      otherwise the stored row with an empty date read as today. */
  function GetRecord(rs: seq<StoredRecord>, id: string, today: Date): (r: Option<Record>)
    ensures r.Some? <==> id in KeySet(rs, RecordId)
    ensures r.Some? ==> r.value.id == id && r.value.date.Some?
    ensures r.Some? && today != "" ==> r.value.date.value != ""
  {
    match Find(rs, id)
    case None => None
    case Some(s) => Some(Hydrate(s, today))
  }

  /** The outcome of a Python call that may raise. */
  datatype Outcome<T> = Returned(value: T) | Raised(error: string)

  /** `get_record` as written: a found row is read with `r.get(...)`,
      which `sqlite3.Row` does not provide, so every hit raises. */
  function GetRecordAsWritten(rs: seq<StoredRecord>, id: string, today: Date): (r: Outcome<Option<Record>>)
    ensures id !in KeySet(rs, RecordId) ==> r == Returned(None)
    ensures id in KeySet(rs, RecordId) ==> r == Raised("AttributeError")
  {
    match Find(rs, id)
    case None => Returned(None)
    case Some(_) => Raised("AttributeError")
  }

  /** `UPDATE records SET ... WHERE record_id=?`: every field but the
      account is replaced on the matching rows. */
  function UpdateRows(rs: seq<StoredRecord>, r: Record, today: Date): (u: seq<StoredRecord>)
    ensures |u| == |rs|
    ensures forall i :: 0 <= i < |rs| ==> u[i].id == rs[i].id
    ensures forall i :: 0 <= i < |rs| && rs[i].id != r.id ==> u[i] == rs[i]
    ensures forall i :: 0 <= i < |rs| && rs[i].id == r.id ==>
      u[i] == ToStored(r, today).(accountId := rs[i].accountId)
  {
    seq(|rs|, i requires 0 <= i < |rs| =>
      if rs[i].id == r.id then ToStored(r, today).(accountId := rs[i].accountId) else rs[i])
  }

  /** `DELETE FROM records WHERE record_id=?`. */
  function DeleteRows(rs: seq<StoredRecord>, id: string): (u: seq<StoredRecord>)
    ensures forall x :: x in u <==> x in rs && x.id != id
    ensures id !in KeySet(u, RecordId)
  {
    Filter(rs, (x: StoredRecord) => x.id != id)
  }

  /** `SELECT 1 FROM records WHERE category_id=? LIMIT 1` finds a row. */
  predicate UsesCategory(rs: seq<StoredRecord>, categoryId: string)
  {
    exists i :: 0 <= i < |rs| && rs[i].categoryId == Some(categoryId)
  }

  /** `SELECT 1 FROM records WHERE account_id=? LIMIT 1` finds a row. */
  predicate UsesAccount(rs: seq<StoredRecord>, accountId: string)
  {
    exists i :: 0 <= i < |rs| && rs[i].accountId == Some(accountId)
  }

  /** `UPDATE records SET category_id = NULL WHERE category_id = ?`. */
  function Detach(rs: seq<StoredRecord>, categoryId: string): (u: seq<StoredRecord>)
    ensures |u| == |rs|
    ensures !UsesCategory(u, categoryId)
    ensures forall i :: 0 <= i < |rs| ==> u[i].(categoryId := rs[i].categoryId) == rs[i]
    ensures forall i :: 0 <= i < |rs| && rs[i].categoryId != Some(categoryId) ==> u[i] == rs[i]
    ensures forall i :: 0 <= i < |rs| && rs[i].categoryId == Some(categoryId) ==>
      u[i] == rs[i].(categoryId := None)
  {
    seq(|rs|, i requires 0 <= i < |rs| =>
      if rs[i].categoryId == Some(categoryId) then rs[i].(categoryId := None) else rs[i])
  }

  /** `DELETE FROM records WHERE account_id=?`. */
  function DropAccountRecords(rs: seq<StoredRecord>, accountId: string): (u: seq<StoredRecord>)
    ensures !UsesAccount(u, accountId)
    ensures forall x :: x in u <==> x in rs && x.accountId != Some(accountId)
  {
    Filter(rs, (x: StoredRecord) => x.accountId != Some(accountId))
  }

  /** `DELETE FROM categories WHERE category_id=?`. */
  function DropCategory(cs: seq<Category>, id: string): (u: seq<Category>)
    ensures forall c :: c in u <==> c in cs && c.id != id
  {
    Filter(cs, (c: Category) => c.id != id)
  }

  /** `DELETE FROM accounts WHERE account_id=?`. */
  function DropAccount(accs: seq<Account>, id: string): (u: seq<Account>)
    ensures forall a :: a in u <==> a in accs && a.id != id
  {
    Filter(accs, (a: Account) => a.id != id)
  }

  /** `INSERT OR REPLACE INTO budgets`: the row with the same id, if any,
      is removed and the new row goes last. */
  function ReplaceBudget(bs: seq<Budget>, b: Budget): (u: seq<Budget>)
    ensures |u| > 0 && u[|u| - 1] == b
    ensures forall x :: x in u <==> x == b || (x in bs && x.id != b.id)
    ensures forall i :: 0 <= i < |u| - 1 ==> u[i].id != b.id
  {
    Filter(bs, (x: Budget) => x.id != b.id) + [b]
  }

  /** `LIMIT limit OFFSET offset`: a negative limit means no limit and a
      negative offset counts as zero. */
  function Window<T>(s: seq<T>, limit: int, offset: int): (w: seq<T>)
    ensures limit >= 0 ==> |w| <= limit
    ensures forall i :: 0 <= i < |w| ==> Max0(offset) + i < |s| && w[i] == s[Max0(offset) + i]
    ensures (limit < 0 || Max0(offset) + limit >= |s|) ==> |w| == Max0(|s| - Max0(offset))
    ensures limit >= 0 && Max0(offset) + limit < |s| ==> |w| == limit
  {
    var start := Max0(offset);
    if start >= |s| then []
    else if limit < 0 || start + limit >= |s| then s[start..]
    else s[start..start + limit]
  }

  function Max0(n: int): nat
  {
    if n < 0 then 0 else n
  }

  /** `SELECT * FROM records ORDER BY date DESC LIMIT ? OFFSET ?`. */
  function Page(rs: seq<StoredRecord>, limit: int, offset: int): seq<StoredRecord>
  {
    Window(Sort(rs, RecordDate, true), limit, offset)
  }

  /** `list_records`: one page, newest first, read back with empty
      references as absent. */
  function ListRecords(rs: seq<StoredRecord>, limit: int, offset: int, today: Date): (out: seq<Record>)
    ensures |out| == |Page(rs, limit, offset)|
    ensures limit >= 0 ==> |out| <= limit
    ensures forall i :: 0 <= i < |out| ==> out[i].categoryId != Some("") && out[i].accountId != Some("")
    ensures forall i :: 0 <= i < |out| ==> var s := Page(rs, limit, offset)[i];
      && out[i].id == s.id && out[i].amount == s.amount && out[i].rtype == s.rtype
      && out[i].tags == s.tags && out[i].note == s.note && out[i].attachments == s.attachments
      && out[i].date == Some(if s.date == "" then today else s.date)
      && out[i].categoryId == (if s.categoryId == Some("") then None else s.categoryId)
      && out[i].accountId == (if s.accountId == Some("") then None else s.accountId)
  {
    var page := Page(rs, limit, offset);
    seq(|page|, i requires 0 <= i < |page| => HydrateListed(page[i], today))
  }

  /** `list_categories`: every category, ordered by name. */
  function ListCategories(cs: seq<Category>): (r: seq<Category>)
    ensures Sorted(r, CategoryName, false)
    ensures multiset(r) == multiset(cs)
  {
    Sort(cs, CategoryName, false)
  }

  /** `list_accounts`: every account, ordered by name. */
  function ListAccounts(accs: seq<Account>): (r: seq<Account>)
    ensures Sorted(r, AccountName, false)
    ensures multiset(r) == multiset(accs)
  {
    Sort(accs, AccountName, false)
  }

  /** `list_notifications`: every notification, latest first. */
  function ListNotifications(ns: seq<Notification>): (r: seq<Notification>)
    ensures Sorted(r, NotificationTime, true)
    ensures multiset(r) == multiset(ns)
  {
    Sort(ns, NotificationTime, true)
  }

  /** A row with an id not yet taken is what a lookup of that id finds
      after it is appended; other lookups are unaffected. */
  lemma {:induction false} FindAppend(rs: seq<StoredRecord>, x: StoredRecord, id: string)
    ensures Find(rs + [x], id) == if id in KeySet(rs, RecordId) then Find(rs, id)
                                 else if x.id == id then Some(x) else None
  {
    if rs == [] {
      assert rs + [x] == [x];
    } else {
      assert (rs + [x])[1..] == rs[1..] + [x];
      FindAppend(rs[1..], x, id);
    }
  }

  /** With unique ids a lookup finds the one row carrying the id. */
  lemma FindUnique(rs: seq<StoredRecord>, x: StoredRecord)
    requires DistinctBy(rs, RecordId) && x in rs
    ensures Find(rs, x.id) == Some(x)
  {
    var i :| 0 <= i < |rs| && rs[i] == x;
    assert x.id in KeySet(rs, RecordId);
    var y := Find(rs, x.id).value;
    var j :| 0 <= j < |rs| && rs[j] == y;
    assert RecordId(rs[i]) == RecordId(rs[j]);
  }

  /** With unique ids, `get_record` of a stored row gives back every
      field as stored, except that an empty date reads as today. */
  lemma GetReadsStoredRow(rs: seq<StoredRecord>, x: StoredRecord, today: Date)
    requires DistinctBy(rs, RecordId) && x in rs
    ensures GetRecord(rs, x.id, today) == Some(Record(
      x.id, x.amount, x.rtype, Some(if x.date == "" then today else x.date),
      x.categoryId, x.tags, x.note, x.attachments, x.accountId))
  {
    FindUnique(rs, x);
  }

  /** A record added without a date reads back with the day it was added;
      one added with a date reads back with that date; every other field
      reads back as given. */
  lemma GetAfterAdd(rs: seq<StoredRecord>, r: Record, addDay: Date, readDay: Date)
    requires r.id !in KeySet(rs, RecordId)
    requires addDay != "" && (r.date.Some? ==> r.date.value != "")
    ensures GetRecord(rs + [ToStored(r, addDay)], r.id, readDay)
      == Some(r.(date := Some(if r.date.Some? then r.date.value else addDay)))
  {
    FindAppend(rs, ToStored(r, addDay), r.id);
  }

  /** Adding a record changes no lookup of another id. */
  lemma GetOtherAfterAdd(rs: seq<StoredRecord>, r: Record, addDay: Date, id: string, readDay: Date)
    requires id != r.id
    ensures GetRecord(rs + [ToStored(r, addDay)], id, readDay) == GetRecord(rs, id, readDay)
  {
    FindAppend(rs, ToStored(r, addDay), id);
  }

  /** A deleted id is gone and every other record still reads the same. */
  lemma GetAfterDelete(rs: seq<StoredRecord>, id: string, other: string, today: Date)
    requires DistinctBy(rs, RecordId)
    ensures GetRecord(DeleteRows(rs, id), id, today) == None
    ensures other != id ==> GetRecord(DeleteRows(rs, id), other, today) == GetRecord(rs, other, today)
  {
    var u := DeleteRows(rs, id);
    if other != id {
      FilterKeepsDistinct(rs, (x: StoredRecord) => x.id != id, RecordId);
      match Find(rs, other)
      case None =>
        if other in KeySet(u, RecordId) {
          var x := Find(u, other).value;
          assert x in rs;
          FindUnique(rs, x);
        }
      case Some(x) =>
        assert x in u;
        FindUnique(u, x);
    }
  }

  /** Deleting an id no row has leaves the table as it was. */
  lemma DeleteMissing(rs: seq<StoredRecord>, id: string)
    requires id !in KeySet(rs, RecordId)
    ensures DeleteRows(rs, id) == rs
  {
    forall i | 0 <= i < |rs| ensures rs[i].id != id {
      assert RecordId(rs[i]) in KeySet(rs, RecordId);
    }
    FilterKeepsAll(rs, (x: StoredRecord) => x.id != id);
  }

  /** An update changes no id, so ids stay unique. */
  lemma UpdateKeepsIds(rs: seq<StoredRecord>, r: Record, today: Date)
    requires DistinctBy(rs, RecordId)
    ensures DistinctBy(UpdateRows(rs, r, today), RecordId)
  {
    var u := UpdateRows(rs, r, today);
    forall j, k | 0 <= j < k < |u| ensures RecordId(u[j]) != RecordId(u[k]) {
      assert RecordId(u[j]) == RecordId(rs[j]) && RecordId(u[k]) == RecordId(rs[k]);
    }
  }

  /** An update reads back as the new record, except that the account
      stays the one stored before. */
  lemma GetAfterUpdate(rs: seq<StoredRecord>, r: Record, updateDay: Date, readDay: Date)
    requires DistinctBy(rs, RecordId) && r.id in KeySet(rs, RecordId)
    requires updateDay != "" && (r.date.Some? ==> r.date.value != "")
    ensures GetRecord(UpdateRows(rs, r, updateDay), r.id, readDay) == Some(r.(
      date := Some(if r.date.Some? then r.date.value else updateDay),
      accountId := GetRecord(rs, r.id, readDay).value.accountId))
  {
    var u := UpdateRows(rs, r, updateDay);
    var i :| 0 <= i < |rs| && RecordId(rs[i]) == r.id;
    assert rs[i] in rs;
    FindUnique(rs, rs[i]);
    UpdateKeepsIds(rs, r, updateDay);
    assert u[i] in u;
    FindUnique(u, u[i]);
  }

  /** Updating an id no row has leaves the table as it was. */
  lemma UpdateMissing(rs: seq<StoredRecord>, r: Record, today: Date)
    requires r.id !in KeySet(rs, RecordId)
    ensures UpdateRows(rs, r, today) == rs
  {
    var u := UpdateRows(rs, r, today);
    forall i | 0 <= i < |rs| ensures u[i] == rs[i] {
      assert RecordId(rs[i]) in KeySet(rs, RecordId);
    }
  }

  /** A page is a run of consecutive rows of the date-ordered table, so it
      is itself newest first. */
  lemma PageNewestFirst(rs: seq<StoredRecord>, limit: int, offset: int)
    ensures Sorted(Page(rs, limit, offset), RecordDate, true)
  {
    var sorted := Sort(rs, RecordDate, true);
    var p := Page(rs, limit, offset);
    forall i, j | 0 <= i < j < |p| ensures InOrder(RecordDate(p[i]), RecordDate(p[j]), true) {
      assert p[i] == sorted[Max0(offset) + i] && p[j] == sorted[Max0(offset) + j];
    }
  }

  /** Without a binding limit and from offset zero, a page holds every
      stored row. */
  lemma PageWhole(rs: seq<StoredRecord>, limit: int, offset: int)
    requires limit < 0 || limit >= |rs|
    requires offset <= 0
    ensures Page(rs, limit, offset) == Sort(rs, RecordDate, true)
    ensures multiset(Page(rs, limit, offset)) == multiset(rs)
  {
  }

  /** When no stored date is empty, the listed records come newest first. */
  lemma ListRecordsNewestFirst(rs: seq<StoredRecord>, limit: int, offset: int, today: Date)
    requires forall i :: 0 <= i < |rs| ==> rs[i].date != ""
    ensures var out := ListRecords(rs, limit, offset, today);
      forall i, j :: 0 <= i < j < |out| ==> LexLe(out[j].date.value, out[i].date.value)
  {
    var p := Page(rs, limit, offset);
    PageNewestFirst(rs, limit, offset);
    SortSameElements(rs, RecordDate, true);
    forall k | 0 <= k < |p| ensures p[k].date != "" {
      var sorted := Sort(rs, RecordDate, true);
      assert p[k] == sorted[Max0(offset) + k];
      assert p[k] in rs;
    }
  }

  /** Without a binding limit and from offset zero, every stored record
      is listed. */
  lemma ListRecordsShowsAll(rs: seq<StoredRecord>, limit: int, offset: int, today: Date)
    requires limit < 0 || limit >= |rs|
    requires offset <= 0
    ensures |ListRecords(rs, limit, offset, today)| == |rs|
    ensures forall x :: x in rs ==> exists i :: 0 <= i < |rs| && ListRecords(rs, limit, offset, today)[i].id == x.id
  {
    var out := ListRecords(rs, limit, offset, today);
    var p := Page(rs, limit, offset);
    PageWhole(rs, limit, offset);
    SortSameElements(rs, RecordDate, true);
    forall x | x in rs ensures exists i :: 0 <= i < |rs| && out[i].id == x.id {
      assert x in p;
      var i :| 0 <= i < |p| && p[i] == x;
      assert out[i].id == x.id;
    }
  }

  /** The default page (`limit=100, offset=0`) of a table of at most 100
      rows lists every stored record. */
  lemma ListRecordsDefaultShowsAll(rs: seq<StoredRecord>, today: Date)
    requires |rs| <= 100
    ensures |ListRecords(rs, 100, 0, today)| == |rs|
    ensures forall x :: x in rs ==> exists i :: 0 <= i < |rs| && ListRecords(rs, 100, 0, today)[i].id == x.id
  {
    ListRecordsShowsAll(rs, 100, 0, today);
  }

  /** Setting the same budget twice is the same as setting it once. */
  lemma ReplaceBudgetIdempotent(bs: seq<Budget>, b: Budget)
    ensures ReplaceBudget(ReplaceBudget(bs, b), b) == ReplaceBudget(bs, b)
  {
    var keep := (x: Budget) => x.id != b.id;
    var rest := Filter(bs, keep);
    FilterAppend(rest, [b], keep);
    FilterKeepsAll(rest, keep);
    assert Filter([b], keep) == [];
  }

  /** A budget set over existing ones leaves one budget per id, the new
      one among them. */
  lemma ReplaceBudgetKeepsIdsUnique(bs: seq<Budget>, b: Budget)
    requires DistinctBy(bs, BudgetId)
    ensures DistinctBy(ReplaceBudget(bs, b), BudgetId)
    ensures KeySet(ReplaceBudget(bs, b), BudgetId) == KeySet(bs, BudgetId) + {b.id}
  {
    var keep := (x: Budget) => x.id != b.id;
    var rest := Filter(bs, keep);
    FilterKeepsDistinct(bs, keep, BudgetId);
    KeySetFilterOut(bs, keep, BudgetId, b.id);
    DistinctSnoc(rest, b, BudgetId);
  }

  /** The five tables the services read and write. Every table keeps its
      primary key unique (`Valid`). */
  class Store {
    var records: seq<StoredRecord>
    var categories: seq<Category>
    var accounts: seq<Account>
    var budgets: seq<Budget>
    var notifications: seq<Notification>

    ghost predicate Valid()
      reads this
    {
      && DistinctBy(records, RecordId)
      && DistinctBy(categories, CategoryId)
      && DistinctBy(accounts, AccountId)
      && DistinctBy(budgets, BudgetId)
      && DistinctBy(notifications, NotificationId)
    }

    /** A freshly created database: every table empty. */
    constructor ()
      ensures Valid()
      ensures records == [] && categories == [] && accounts == [] && budgets == [] && notifications == []
    {
      records, categories, accounts, budgets, notifications := [], [], [], [], [];
    }

    /** `INSERT INTO records(...)`: fails (`ok` false, nothing written)
        when the primary key is already taken. */
    method InsertRecord(x: StoredRecord) returns (ok: bool)
      requires Valid()
      modifies this
      ensures Valid()
      ensures ok <==> x.id !in KeySet(old(records), RecordId)
      ensures records == if ok then old(records) + [x] else old(records)
      ensures categories == old(categories) && accounts == old(accounts)
      ensures budgets == old(budgets) && notifications == old(notifications)
    {
      ok := x.id !in KeySet(records, RecordId);
      if ok {
        DistinctSnoc(records, x, RecordId);
        records := records + [x];
      }
    }

    /** `add_record`: stores the record with its date, or today when it
        has none. */
    method AddRecord(r: Record, today: Date) returns (ok: bool)
      requires Valid()
      modifies this
      ensures Valid()
      ensures ok <==> r.id !in KeySet(old(records), RecordId)
      ensures records == if ok then old(records) + [ToStored(r, today)] else old(records)
      ensures categories == old(categories) && accounts == old(accounts)
      ensures budgets == old(budgets) && notifications == old(notifications)
    {
      ok := InsertRecord(ToStored(r, today));
    }

    /** `update_record`: reports whether a row had the id. */
    method UpdateRecord(r: Record, today: Date) returns (found: bool)
      requires Valid()
      modifies this
      ensures Valid()
      ensures found <==> r.id in KeySet(old(records), RecordId)
      ensures records == UpdateRows(old(records), r, today)
      ensures categories == old(categories) && accounts == old(accounts)
      ensures budgets == old(budgets) && notifications == old(notifications)
    {
      found := r.id in KeySet(records, RecordId);
      records := UpdateRows(records, r, today);
    }

    /** `delete_record`: reports whether a row had the id. */
    method DeleteRecord(id: string) returns (found: bool)
      requires Valid()
      modifies this
      ensures Valid()
      ensures found <==> id in KeySet(old(records), RecordId)
      ensures records == DeleteRows(old(records), id)
      ensures categories == old(categories) && accounts == old(accounts)
      ensures budgets == old(budgets) && notifications == old(notifications)
    {
      found := id in KeySet(records, RecordId);
      FilterKeepsDistinct(records, (x: StoredRecord) => x.id != id, RecordId);
      records := DeleteRows(records, id);
    }

    /** `add_category`. */
    method AddCategory(c: Category) returns (ok: bool)
      requires Valid()
      modifies this
      ensures Valid()
      ensures ok <==> c.id !in KeySet(old(categories), CategoryId)
      ensures categories == if ok then old(categories) + [c] else old(categories)
      ensures records == old(records) && accounts == old(accounts)
      ensures budgets == old(budgets) && notifications == old(notifications)
    {
      ok := c.id !in KeySet(categories, CategoryId);
      if ok {
        DistinctSnoc(categories, c, CategoryId);
        categories := categories + [c];
      }
    }

    /** `delete_category`: refused while records use the category unless
        forced; forcing detaches those records first. `removed` is whether a
        category row was deleted. */
    method DeleteCategory(id: string, force: bool) returns (removed: bool)
      requires Valid()
      modifies this
      ensures Valid()
      ensures UsesCategory(old(records), id) && !force ==>
        !removed && records == old(records) && categories == old(categories)
      ensures !UsesCategory(old(records), id) || force ==>
        && removed == (id in KeySet(old(categories), CategoryId))
        && categories == DropCategory(old(categories), id)
        && records == (if force then Detach(old(records), id) else old(records))
      ensures accounts == old(accounts) && budgets == old(budgets) && notifications == old(notifications)
    {
      if UsesCategory(records, id) && !force {
        return false;
      }
      if force {
        records := Detach(records, id);
        assert forall i :: 0 <= i < |records| ==> RecordId(records[i]) == RecordId(old(records)[i]);
      }
      removed := id in KeySet(categories, CategoryId);
      FilterKeepsDistinct(categories, (c: Category) => c.id != id, CategoryId);
      categories := DropCategory(categories, id);
    }

    /** `add_account`. */
    method AddAccount(a: Account) returns (ok: bool)
      requires Valid()
      modifies this
      ensures Valid()
      ensures ok <==> a.id !in KeySet(old(accounts), AccountId)
      ensures accounts == if ok then old(accounts) + [a] else old(accounts)
      ensures records == old(records) && categories == old(categories)
      ensures budgets == old(budgets) && notifications == old(notifications)
    {
      ok := a.id !in KeySet(accounts, AccountId);
      if ok {
        DistinctSnoc(accounts, a, AccountId);
        accounts := accounts + [a];
      }
    }

    /** `delete_account`: refused while records use the account unless
        forced; forcing deletes those records first. */
    method DeleteAccount(id: string, force: bool) returns (removed: bool)
      requires Valid()
      modifies this
      ensures Valid()
      ensures UsesAccount(old(records), id) && !force ==>
        !removed && records == old(records) && accounts == old(accounts)
      ensures !UsesAccount(old(records), id) || force ==>
        && removed == (id in KeySet(old(accounts), AccountId))
        && accounts == DropAccount(old(accounts), id)
        && records == (if force then DropAccountRecords(old(records), id) else old(records))
      ensures categories == old(categories) && budgets == old(budgets) && notifications == old(notifications)
    {
      if UsesAccount(records, id) && !force {
        return false;
      }
      if force {
        FilterKeepsDistinct(records, (x: StoredRecord) => x.accountId != Some(id), RecordId);
        records := DropAccountRecords(records, id);
      }
      removed := id in KeySet(accounts, AccountId);
      FilterKeepsDistinct(accounts, (a: Account) => a.id != id, AccountId);
      accounts := DropAccount(accounts, id);
    }

    /** `set_budget`: insert, or replace the budget with the same id. */
    method SetBudget(b: Budget)
      requires Valid()
      modifies this
      ensures Valid()
      ensures budgets == ReplaceBudget(old(budgets), b)
      ensures records == old(records) && categories == old(categories)
      ensures accounts == old(accounts) && notifications == old(notifications)
    {
      var keep := (x: Budget) => x.id != b.id;
      FilterKeepsDistinct(budgets, keep, BudgetId);
      var rest := Filter(budgets, keep);
      assert b.id !in KeySet(rest, BudgetId);
      DistinctSnoc(rest, b, BudgetId);
      budgets := rest + [b];
    }

    /** `send_notification`. */
    method SendNotification(n: Notification) returns (ok: bool)
      requires Valid()
      modifies this
      ensures Valid()
      ensures ok <==> n.id !in KeySet(old(notifications), NotificationId)
      ensures notifications == if ok then old(notifications) + [n] else old(notifications)
      ensures records == old(records) && categories == old(categories)
      ensures accounts == old(accounts) && budgets == old(budgets)
    {
      ok := n.id !in KeySet(notifications, NotificationId);
      if ok {
        DistinctSnoc(notifications, n, NotificationId);
        notifications := notifications + [n];
      }
    }
  }
}
