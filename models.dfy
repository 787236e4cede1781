/** The entities of the bookkeeping tool (code/models.py). Amounts and
    balances are integer cents instead of Python floats; dates and
    timestamps are their ISO text, as the store keeps them. */
module Models {
  import opened Wrappers

  /** ISO `YYYY-MM-DD` text. */
  type Date = string

  /** An amount in cents. */
  type Money = int

  /** Whether a record is money coming in or going out; the amount itself
      is never signed. */
  datatype RecordType = Income | Expense

  /** The `.value` of the enum member, which is what the store keeps in
      the `type` column and what the statistics use as keys. */
  function TypeValue(t: RecordType): (s: string)
    ensures s == "income" || s == "expense"
    ensures TypeFromValue(s) == Some(t)
  {
    match t
    case Income => "income"
    case Expense => "expense"
  }

  /** `RecordType(s)`: the member whose value is `s`, if there is one. */
  function TypeFromValue(s: string): (r: Option<RecordType>)
    ensures r.Some? <==> (s == "income" || s == "expense")
  {
    if s == "income" then Some(Income)
    else if s == "expense" then Some(Expense)
    else None
  }

  /** Exactly two members, told apart by their stored values. */
  lemma TypeValueInjective(a: RecordType, b: RecordType)
    ensures TypeValue(a) == TypeValue(b) <==> a == b
  {
  }

  datatype Category = Category(id: string, name: string, icon: Option<string>, color: Option<string>)

  /** `Category(category_id=..., name=...)` with the declared defaults. */
  function NewCategory(id: string, name: string): (c: Category)
    ensures c.id == id && c.name == name
    ensures c.icon.None? && c.color.None?
  {
    Category(id, name, None, None)
  }

  /** `kind` is the source's free-form `type` field; `balance` is kept but
      never recomputed. */
  datatype Account = Account(id: string, name: string, kind: Option<string>, balance: Money, currency: string)

  /** `Account(account_id=..., name=...)` with the declared defaults. */
  function NewAccount(id: string, name: string): (a: Account)
    ensures a.id == id && a.name == name
    ensures a.kind.None? && a.balance == 0 && a.currency == "CNY"
  {
    Account(id, name, None, 0, "CNY")
  }

  datatype Budget = Budget(id: string, categoryId: Option<string>, limit: Money, period: string)

  /** `kind` is the source's free-form `type` tag; the timestamp is ISO text. */
  datatype Notification = Notification(id: string, kind: string, message: string, timestamp: string)

  /** `Notification(...)` without a timestamp: the source takes the clock
      (`datetime.utcnow`); here the caller passes the current time in. */
  function NewNotification(id: string, kind: string, message: string, now: string): (n: Notification)
    ensures n.id == id && n.kind == kind && n.message == message && n.timestamp == now
  {
    Notification(id, kind, message, now)
  }

  /** A record as the program holds it. `date` is an Option because the
      services treat a missing date (`record.date or date.today()`). */
  datatype Record = Record(
    id: string,
    amount: Money,
    rtype: RecordType,
    date: Option<Date>,
    categoryId: Option<string>,
    tags: seq<string>,
    note: Option<string>,
    attachments: seq<string>,
    accountId: Option<string>)

  /** `Record(record_id, amount, type, date)` with the declared defaults
      of the remaining fields. */
  function NewRecord(id: string, amount: Money, rtype: RecordType, date: Option<Date>): (r: Record)
    ensures r.id == id && r.amount == amount && r.rtype == rtype && r.date == date
    ensures r.categoryId.None? && r.tags == [] && r.note.None? && r.attachments == [] && r.accountId.None?
  {
    Record(id, amount, rtype, date, None, [], None, [], None)
  }

  /** `Record.create`: `freshId` stands for the generated `uuid4()`; absent
      tag and attachment lists become empty lists, given ones are kept. */
  function Create(
    freshId: string, amount: Money, rtype: RecordType, date: Option<Date>,
    categoryId: Option<string>, tags: Option<seq<string>>, note: Option<string>,
    attachments: Option<seq<string>>, accountId: Option<string>): (r: Record)
    ensures r.id == freshId
    ensures r.amount == amount && r.rtype == rtype && r.date == date
    ensures r.categoryId == categoryId && r.note == note && r.accountId == accountId
    ensures tags.None? ==> r.tags == []
    ensures tags.Some? ==> r.tags == tags.value
    ensures attachments.None? ==> r.attachments == []
    ensures attachments.Some? ==> r.attachments == attachments.value
  {
    Record(freshId, amount, rtype, date, categoryId, tags.GetOr([]), note, attachments.GetOr([]), accountId)
  }
}
