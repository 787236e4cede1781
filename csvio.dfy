/** CSV export and import of records (code/export_import.py). Rows are
    taken as already parsed cells: the amount as cents, the type as a
    record type, tags and attachments as lists. */
module ExportImport {
  import opened Wrappers
  import opened Models
  import opened Seqs
  import opened Services
  import opened Query

  /** One CSV line, in the header's column order
      record_id, amount, type, date, category_id, tags, note, attachments.
      There is no account column. A NULL cell is written as empty text. */
  datatype CsvRow = CsvRow(
    id: string,
    amount: Money,
    rtype: RecordType,
    date: Date,
    categoryId: string,
    tags: seq<string>,
    note: string,
    attachments: seq<string>)

  /** The line `writer.writerow` produces for a stored record. */
  function ToCsv(r: StoredRecord): (row: CsvRow)
    ensures row.id == r.id && row.amount == r.amount && row.rtype == r.rtype && row.date == r.date
    ensures row.categoryId == r.categoryId.GetOr("") && row.note == r.note.GetOr("")
    ensures row.tags == r.tags && row.attachments == r.attachments
  {
    CsvRow(r.id, r.amount, r.rtype, r.date, r.categoryId.GetOr(""), r.tags, r.note.GetOr(""), r.attachments)
  }

  /** `export_to_csv(start, end)`: one line per selected record, in
      storage order. */
  function Export(rs: seq<StoredRecord>, start: Option<Date>, end: Option<Date>): (rows: seq<CsvRow>)
    ensures |rows| == |ExportSelection(rs, start, end)|
    ensures forall i :: 0 <= i < |rows| ==> rows[i] == ToCsv(ExportSelection(rs, start, end)[i])
  {
    var sel := ExportSelection(rs, start, end);
    seq(|sel|, i requires 0 <= i < |sel| => ToCsv(sel[i]))
  }

  /** The row `import_from_csv` inserts: cells as read, the account left
      NULL because the insert does not name that column. */
  function FromCsv(row: CsvRow): (r: StoredRecord)
    ensures r.id == row.id && r.amount == row.amount && r.rtype == row.rtype && r.date == row.date
    ensures r.categoryId == Some(row.categoryId) && r.note == Some(row.note) && r.accountId.None?
    ensures r.tags == row.tags && r.attachments == row.attachments
  {
    StoredRecord(row.id, row.amount, row.rtype, row.date, Some(row.categoryId), None, row.tags,
                 Some(row.note), row.attachments)
  }

  /** The table after importing `rows` in file order into `rs`: a row whose
      id is already stored, by an earlier line too, is skipped. */
  function ImportAll(rs: seq<StoredRecord>, rows: seq<CsvRow>): seq<StoredRecord>
    decreases |rows|
  {
    if rows == [] then rs
    else if rows[0].id in KeySet(rs, RecordId) then ImportAll(rs, rows[1..])
    else ImportAll(rs + [FromCsv(rows[0])], rows[1..])
  }

  /** How many lines of `rows` are inserted when importing into `rs`. */
  function ImportCount(rs: seq<StoredRecord>, rows: seq<CsvRow>): nat
    decreases |rows|
  {
    if rows == [] then 0
    else if rows[0].id in KeySet(rs, RecordId) then ImportCount(rs, rows[1..])
    else 1 + ImportCount(rs + [FromCsv(rows[0])], rows[1..])
  }

  /** `import_from_csv`: checks each line's id against the table, inserts
      the new ones and counts them. */
  method ImportFromCsv(store: Store, rows: seq<CsvRow>) returns (added: nat)
    requires store.Valid()
    modifies store
    ensures store.Valid()
    ensures store.records == ImportAll(old(store.records), rows)
    ensures added == ImportCount(old(store.records), rows)
    ensures store.categories == old(store.categories) && store.accounts == old(store.accounts)
    ensures store.budgets == old(store.budgets) && store.notifications == old(store.notifications)
  {
    added := 0;
    var i := 0;
    while i < |rows|
      invariant 0 <= i <= |rows|
      invariant store.Valid()
      invariant ImportAll(store.records, rows[i..]) == ImportAll(old(store.records), rows)
      invariant added + ImportCount(store.records, rows[i..]) == ImportCount(old(store.records), rows)
      invariant store.categories == old(store.categories) && store.accounts == old(store.accounts)
      invariant store.budgets == old(store.budgets) && store.notifications == old(store.notifications)
    {
      assert rows[i..][1..] == rows[i + 1..];
      var exist := rows[i].id in KeySet(store.records, RecordId);
      if !exist {
        var ok := store.InsertRecord(FromCsv(rows[i]));
        added := added + 1;
      }
      i := i + 1;
    }
  }

  /** Import appends: the rows already stored stay first and unchanged,
      one new row is added per counted line, and every new row has no
      account. */
  lemma {:induction false} ImportAppends(rs: seq<StoredRecord>, rows: seq<CsvRow>)
    ensures |ImportAll(rs, rows)| == |rs| + ImportCount(rs, rows)
    ensures ImportAll(rs, rows)[..|rs|] == rs
    ensures forall i :: |rs| <= i < |ImportAll(rs, rows)| ==> ImportAll(rs, rows)[i].accountId.None?
    decreases |rows|
  {
    if rows != [] {
      var rs' := ImportGrowth(rs, rows);
      var tail := rows[1..];
      ImportAppends(rs', tail);
      var out := ImportAll(rs', tail);
      assert out[..|rs|] == rs by {
        assert out[..|rs|] == out[..|rs'|][..|rs|];
      }
      forall i | |rs| <= i < |out| ensures out[i].accountId.None? {
        if i < |rs'| {
          assert out[i] == out[..|rs'|][i] == rs'[i];
        }
      }
    }
  }

  /** One step of the import seen from the table's length: either nothing
      is added, or the line's converted row is appended and counted. */
  lemma ImportGrowth(rs: seq<StoredRecord>, rows: seq<CsvRow>) returns (rs': seq<StoredRecord>)
    requires rows != []
    ensures ImportAll(rs, rows) == ImportAll(rs', rows[1..])
    ensures ImportCount(rs, rows) == |rs'| - |rs| + ImportCount(rs', rows[1..])
    ensures rs' == rs || rs' == rs + [FromCsv(rows[0])]
  {
    if rows[0].id in KeySet(rs, RecordId) {
      rs' := rs;
    } else {
      rs' := rs + [FromCsv(rows[0])];
    }
  }

  /** One step of the import: the line is added unless its id is known,
      and either way its id is stored afterwards. */
  lemma ImportStep(rs: seq<StoredRecord>, rows: seq<CsvRow>) returns (rs': seq<StoredRecord>)
    requires rows != []
    ensures ImportAll(rs, rows) == ImportAll(rs', rows[1..])
    ensures KeySet(rs', RecordId) == KeySet(rs, RecordId) + {rows[0].id}
  {
    if rows[0].id in KeySet(rs, RecordId) {
      rs' := rs;
    } else {
      rs' := rs + [FromCsv(rows[0])];
      KeySetSnoc(rs, FromCsv(rows[0]), RecordId);
    }
  }

  /** After an import every line's id is stored. */
  lemma {:induction false} ImportCoversIds(rs: seq<StoredRecord>, rows: seq<CsvRow>)
    ensures KeySet(rs, RecordId) <= KeySet(ImportAll(rs, rows), RecordId)
    ensures forall i :: 0 <= i < |rows| ==> rows[i].id in KeySet(ImportAll(rs, rows), RecordId)
    decreases |rows|
  {
    if rows != [] {
      var rs' := ImportStep(rs, rows);
      var tail := rows[1..];
      ImportCoversIds(rs', tail);
      var keys := KeySet(ImportAll(rs', tail), RecordId);
      assert KeySet(rs', RecordId) <= keys;
      forall i | 0 <= i < |rows| ensures rows[i].id in keys {
        if i > 0 {
          assert tail[i - 1] == rows[i];
        }
      }
    }
  }

  /** Lines whose ids are all stored already import nothing. */
  lemma {:induction false} ImportKnownIsNoOp(rs: seq<StoredRecord>, rows: seq<CsvRow>)
    requires forall i :: 0 <= i < |rows| ==> rows[i].id in KeySet(rs, RecordId)
    ensures ImportAll(rs, rows) == rs
    ensures ImportCount(rs, rows) == 0
    decreases |rows|
  {
    if rows != [] {
      assert rows[0].id in KeySet(rs, RecordId);
      forall i | 0 <= i < |rows[1..]| ensures rows[1..][i].id in KeySet(rs, RecordId) {
        assert rows[1..][i] == rows[i + 1];
      }
      ImportKnownIsNoOp(rs, rows[1..]);
    }
  }

  /** Importing the same file again right away inserts nothing and
      changes nothing. */
  lemma ReimportAddsNothing(rs: seq<StoredRecord>, rows: seq<CsvRow>)
    ensures ImportCount(ImportAll(rs, rows), rows) == 0
    ensures ImportAll(ImportAll(rs, rows), rows) == ImportAll(rs, rows)
  {
    ImportCoversIds(rs, rows);
    ImportKnownIsNoOp(ImportAll(rs, rows), rows);
  }

  /** Exporting every record and importing the file into an empty table
      gives back the same ids, amounts, types, dates, tags and attachments
      in the same order; references come back as text (a NULL category or
      note as empty text) and the account is lost. */
  lemma ExportImportRoundTrip(rs: seq<StoredRecord>)
    requires DistinctBy(rs, RecordId)
    ensures var back := ImportAll([], Export(rs, None, None));
      && |back| == |rs|
      && forall i :: 0 <= i < |rs| ==>
        && back[i].id == rs[i].id && back[i].amount == rs[i].amount
        && back[i].rtype == rs[i].rtype && back[i].date == rs[i].date
        && back[i].tags == rs[i].tags && back[i].attachments == rs[i].attachments
        && back[i].categoryId == Some(rs[i].categoryId.GetOr(""))
        && back[i].note == Some(rs[i].note.GetOr(""))
        && back[i].accountId.None?
  {
    var rows := ExportAllDistinct(rs);
    var back := ImportAll([], rows);
    ImportIntoEmpty(rows);
    forall i | 0 <= i < |rs| ensures back[i] == FromCsv(ToCsv(rs[i])) {
      assert back[i] == FromCsv(rows[i]);
    }
  }

  /** Exporting everything writes one line per row, in order, and distinct
      ids give distinct line ids. */
  lemma ExportAllDistinct(rs: seq<StoredRecord>) returns (rows: seq<CsvRow>)
    requires DistinctBy(rs, RecordId)
    ensures rows == Export(rs, None, None)
    ensures |rows| == |rs| && forall i :: 0 <= i < |rows| ==> rows[i] == ToCsv(rs[i])
    ensures DistinctLineIds(rows)
  {
    rows := Export(rs, None, None);
    assert |rows| == |rs| && forall i :: 0 <= i < |rows| ==> rows[i] == ToCsv(rs[i]);
    forall i, j | 0 <= i < j < |rows| ensures rows[i].id != rows[j].id {
      assert RecordId(rs[i]) != RecordId(rs[j]);
    }
  }

  /** Lines with distinct ids imported into an empty table are all added. */
  lemma ImportIntoEmpty(rows: seq<CsvRow>)
    requires DistinctLineIds(rows)
    ensures ImportAll([], rows) == Converted(rows)
  {
    assert AllNew([], rows) by {
      assert KeySet([], RecordId) == {};
    }
    ImportDistinct([], rows);
    assert [] + Converted(rows) == Converted(rows);
  }

  /** Every line turned into the row the import would insert. */
  function Converted(rows: seq<CsvRow>): (out: seq<StoredRecord>)
    ensures |out| == |rows|
    ensures forall i :: 0 <= i < |rows| ==> out[i] == FromCsv(rows[i])
  {
    if rows == [] then [] else [FromCsv(rows[0])] + Converted(rows[1..])
  }

  /** After appending a row with a new id, the other new ids stay new. */
  lemma StillFresh(rs: seq<StoredRecord>, rows: seq<CsvRow>)
    requires |rows| > 0 && DistinctLineIds(rows) && AllNew(rs, rows)
    ensures AllNew(rs + [FromCsv(rows[0])], rows[1..])
  {
    KeySetSnoc(rs, FromCsv(rows[0]), RecordId);
    forall i | 0 <= i < |rows[1..]| ensures rows[1..][i].id !in KeySet(rs + [FromCsv(rows[0])], RecordId) {
      assert rows[1..][i] == rows[i + 1];
      assert rows[0].id != rows[i + 1].id;
    }
  }

  predicate DistinctLineIds(rows: seq<CsvRow>)
  {
    forall i, j :: 0 <= i < j < |rows| ==> rows[i].id != rows[j].id
  }

  predicate AllNew(rs: seq<StoredRecord>, rows: seq<CsvRow>)
  {
    forall i :: 0 <= i < |rows| ==> rows[i].id !in KeySet(rs, RecordId)
  }

  lemma DistinctLineIdsTail(rows: seq<CsvRow>)
    requires |rows| > 0 && DistinctLineIds(rows)
    ensures DistinctLineIds(rows[1..])
  {
    forall i, j | 0 <= i < j < |rows[1..]| ensures rows[1..][i].id != rows[1..][j].id {
      assert rows[1..][i] == rows[i + 1] && rows[1..][j] == rows[j + 1];
    }
  }

  lemma ImportNewLine(rs: seq<StoredRecord>, rows: seq<CsvRow>)
    requires rows != [] && rows[0].id !in KeySet(rs, RecordId)
    ensures ImportAll(rs, rows) == ImportAll(rs + [FromCsv(rows[0])], rows[1..])
  {
  }

  /** Lines with distinct ids, none of them stored, are all imported, in
      order. */
  lemma {:induction false} ImportDistinct(rs: seq<StoredRecord>, rows: seq<CsvRow>)
    requires DistinctLineIds(rows) && AllNew(rs, rows)
    ensures ImportAll(rs, rows) == rs + Converted(rows)
    decreases |rows|
  {
    if rows != [] {
      var rs' := rs + [FromCsv(rows[0])];
      assert DistinctLineIds(rows[1..]) && AllNew(rs', rows[1..]) by {
        StillFresh(rs, rows);
        DistinctLineIdsTail(rows);
      }
      ImportDistinct(rs', rows[1..]);
      assert ImportAll(rs, rows) == ImportAll(rs', rows[1..]) by {
        assert rows[0].id !in KeySet(rs, RecordId);
        ImportNewLine(rs, rows);
      }
      ConvertedCons(rs, rows);
    }
  }

  lemma ConvertedCons(rs: seq<StoredRecord>, rows: seq<CsvRow>)
    requires rows != []
    ensures rs + [FromCsv(rows[0])] + Converted(rows[1..]) == rs + Converted(rows)
  {
  }

  /** Importing keeps the ids of the table unique. */
  lemma {:induction false} ImportFresh(rs: seq<StoredRecord>, rows: seq<CsvRow>)
    requires DistinctBy(rs, RecordId)
    ensures DistinctBy(ImportAll(rs, rows), RecordId)
    decreases |rows|
  {
    if rows != [] {
      if rows[0].id in KeySet(rs, RecordId) {
        ImportFresh(rs, rows[1..]);
      } else {
        DistinctSnoc(rs, FromCsv(rows[0]), RecordId);
        ImportFresh(rs + [FromCsv(rows[0])], rows[1..]);
      }
    }
  }
}
