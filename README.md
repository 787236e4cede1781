# Bookkeeping store — a Dafny model

This project models the core of a small personal bookkeeping tool. The tool keeps income and
expense records, categories, accounts, budgets and notifications in an SQLite file.

The model covers these parts:

- **The entities** (`Models`, `code/models.py`): record types, the dataclasses with their
  declared defaults, and `Record.create`.
- **The storage gateway** (`Schema`, `code/db.py`):
  - the five tables of `DB_SCHEMA`, with their primary keys, NOT NULL columns and defaults;
  - `_init_schema`: idempotent `CREATE TABLE IF NOT EXISTS`, then the additive `account_id`
    migration, whose failure is swallowed;
  - the constraints every `INSERT` must pass.
- **The service layer** (`Services`, `code/services.py`): a `Store` class that holds the five
  tables as sequences, in storage order.
  - The record repository: add, update, delete, get and paged list.
  - Guarded deletion of categories and accounts.
  - The budget upsert and notifications.
  - Listings, which are `ORDER BY` queries.
- **Statistics** (`Statistics`): `summary`, `account_summary` and `by_category`, as pure
  functions over the record rows.
- **Search** (`Query`): `search` and the row selection of `export_records_to_csv`.
- **CSV export and import** (`ExportImport`, `code/export_import.py`): over already-parsed
  lines. The import loop is a method on the store.
- **Command-line rules** (`Cli`, `code/cli.py`): the decision rules of the prompt loop.
  - Reading a record type.
  - The `add` command's category step.
  - The account resolver and the record filter of `showrecords`.
  - The guard of `delcat`.

Modelling conventions:

- **Amounts** are integer cents.
- **Dates and timestamps** are their ISO text. They are compared with SQLite's BINARY collation
  (`Text.LexLe`), under which `YYYY-MM-DD` text orders chronologically.
- **`ORDER BY`** is a stable sort (`Sorting.Sort`). SQLite leaves the order of equal keys
  unspecified; the model keeps storage order for them.
- **`LIMIT` / `OFFSET`**: a negative `LIMIT` means no limit, and a negative `OFFSET` counts as
  zero, as in SQLite.
- **Nondeterministic inputs become parameters**: today's date (`date.today()`), fresh ids
  (`uuid4()`), the current time (`datetime.utcnow()`), and every answer typed at a prompt.
- **Failed `INSERT`s**: an `INSERT` that would violate a primary key (`IntegrityError` in
  the source) returns `ok == false` and writes nothing.
- **Storage invariant**: every table of the store keeps its ids unique (`Store.Valid`).

Modules:

- `wrappers.dfy` and `seqs.dfy` are generic helpers.
- `text.dfy` holds the collation and the Python string operations the CLI uses.
- `sorting.dfy` holds the sort.
- Each remaining file follows one source file:
  - `models.dfy`, `schema.dfy`, `store.dfy`, `statistics.dfy` and `query.dfy` (the last two
    both from services.py);
  - `csvio.dfy` and `cli.dfy`.

## Model

| member | source | states |
|---|---|---|
| Models.TypeValue | code/models.py:8-10 | A type is stored as "income" or "expense", and reading that text back gives the same type. |
| Models.TypeFromValue | code/models.py:8-10 | `RecordType(s)` succeeds exactly for "income" and "expense". |
| Models.TypeValueInjective | code/models.py:8-10 | The two members have different stored values, so the values the summary uses as keys tell them apart. |
| Models.NewCategory | code/models.py:13-18 | A category built from id and name has no icon and no colour. |
| Models.NewAccount | code/models.py:21-27 | An account built from id and name has no type, balance 0 and currency "CNY". |
| Models.NewNotification | code/models.py:38-43 | A notification carries the given id, type and message, stamped with the current time (a parameter). |
| Models.NewRecord | code/models.py:46-69 | A record built from the four required fields has no category, no tags, no note, no attachments and no account. |
| Models.Create | code/models.py:71-88 | The record carries the fresh id and copies amount, type, date, category, note and account. Absent tag or attachment lists become empty; given lists are kept as they are. |
| Schema.SchemaNames | code/db.py:7-54 | `DB_SCHEMA` creates exactly the tables categories, budgets, records, notifications and accounts. |
| Schema.CreateAllPresent | code/db.py:64-68 | Running `CREATE TABLE IF NOT EXISTS` for tables that already exist changes nothing. |
| Schema.CreateAllAbsent | code/db.py:64-68 | Creating tables none of which exists gives each one its declared columns and no rows. |
| Schema.RecordsDeclaresAccountId | code/db.py:24-35 | The declared records table already has `account_id`. |
| Schema.InitFresh | code/db.py:64-78 | On a new file, initialisation creates the five tables empty and exactly as declared, with `account_id` present, whether or not the ALTER would fail. |
| Schema.InitIdempotent | code/db.py:64-78 | Initialising a second time leaves every table and row as the first initialisation left it. The exception is a first ALTER that failed and a second that succeeds. |
| Schema.InitPreservesData | code/db.py:64-78 | Initialisation never drops a table or a row, and changes no table other than records. It only appends to the columns of records. |
| Schema.MigrationAddsAccountColumn | code/db.py:69-75 | A legacy records table without `account_id` gains that column at the end. Every existing row keeps its cells and gets NULL for the new column. |
| Schema.MigrationFailureSwallowed | code/db.py:76-78 | When the ALTER fails, initialisation still completes with all five tables, and the records table is left exactly as it was. |
| Schema.DefaultOf | code/db.py:7-54 | The default of a column is the one declared with its first declaration, and NULL for a column not declared. |
| Schema.Complete | code/db.py:7-54 | An inserted row has exactly the declared columns: the given cells as given, and the declared default for each omitted column. |
| Schema.Insert | code/db.py:93-97 | An INSERT succeeds iff it names only declared columns, leaves no NOT NULL column NULL and repeats no primary key. On success it appends the completed row; on failure the table is unchanged. |
| Schema.DuplicateKeyFails | code/db.py:10-47 | Inserting a row whose non-NULL primary key equals a stored row's key fails. |
| Schema.RecordNeedsDate | code/db.py:29 | A record row with no date, or a NULL date, is refused. |
| Schema.AccountsColumns | code/db.py:45-53 | In the accounts table, only `name` is NOT NULL and only `account_id` is the primary key. The defaults are NULL type, balance 0 and currency 'CNY'. |
| Schema.AccountRowDefaults | code/db.py:50-51 | An account row given only id and name is completed with NULL type, balance 0 and currency 'CNY'. |
| Schema.AccountInsertAccepted | code/db.py:45-53 | Inserting an account with only a new id and a name is accepted. |
| Schema.AccountDefaults | code/db.py:45-53 | That insert appends one row holding the id, the name, NULL type, balance 0 and 'CNY'. |
| Schema.Database.Open | code/db.py:57-62 | Opening a file leaves its tables as `_init_schema` of the existing tables defines them. |
| Schema.Database.InitSchema | code/db.py:64-78 | The loop over `DB_SCHEMA`, then the conditional ALTER, produces the initialised tables of the old state. |
| Schema.Database.InsertInto | code/db.py:93-97 | An insert into a missing table reports the error and changes nothing. Otherwise the table becomes the result of `Insert`, and every other table is unchanged. |
| Sorting.Sort | code/services.py:71 | `ORDER BY` gives an ordered permutation of the rows. |
| Services.GetRecord | code/services.py:51-68 | A lookup finds something iff some row has the id. A found record has that id and always has a date, which is non-empty when today is. |
| Services.GetRecordAsWritten | code/services.py:51-68 | As written, a missing id gives None and every existing id raises `AttributeError` at line 67. |
| Services.GetReadsStoredRow | code/services.py:51-68 | With unique ids, `get_record` of a stored row returns every field as stored. An empty stored date reads as today. |
| Services.GetAfterAdd | code/services.py:30-37 | A record added without a date reads back with the day it was added; one added with a date reads back with that date. All other fields read back as given. |
| Services.GetOtherAfterAdd | code/services.py:30-37 | Adding a record changes no lookup of any other id. |
| Services.GetAfterDelete | code/services.py:47-49 | After a delete, the id reads as None and every other id reads as before. |
| Services.DeleteMissing | code/services.py:47-49 | Deleting an id that no row has leaves the table unchanged. |
| Services.UpdateRows | code/services.py:39-45 | An update changes only the rows with the id. Those rows get the new amount, type, date, category, tags, note and attachments, and keep their account. |
| Services.UpdateKeepsIds | code/services.py:39-45 | An update keeps the record ids unique. |
| Services.GetAfterUpdate | code/services.py:39-45 | An updated record reads back as the new record, with today for a missing date, except that its account stays the stored one. |
| Services.UpdateMissing | code/services.py:39-45 | Updating an id that no row has leaves the table unchanged. |
| Services.DeleteRows | code/services.py:47-49 | A delete keeps exactly the rows with another id. |
| Services.Detach | code/services.py:110 | A forced category delete sets the category to NULL on exactly the rows that used it. Nothing else in any row changes, and no row uses the category afterwards. |
| Services.DropAccountRecords | code/services.py:138 | A forced account delete removes exactly the rows of that account. |
| Services.DropCategory | code/services.py:111 | Deleting a category keeps exactly the other categories. |
| Services.DropAccount | code/services.py:139 | Deleting an account keeps exactly the other accounts. |
| Services.ReplaceBudget | code/services.py:148-150 | After the upsert the new budget is last and is the only one with its id. Every budget with another id is still present. |
| Services.ReplaceBudgetIdempotent | code/services.py:148-150 | Setting the same budget twice is the same as setting it once. |
| Services.ReplaceBudgetKeepsIdsUnique | code/services.py:148-150 | The upsert keeps budget ids unique and adds exactly the new id. |
| Services.Window | code/services.py:71 | A page has at most `limit` rows (none when the limit is negative). It is the run of consecutive rows starting at the clamped offset, of the expected length. |
| Services.PageNewestFirst | code/services.py:71 | A page of records is in date-descending order. |
| Services.PageWhole | code/services.py:71 | With no binding limit and offset 0, the page is the whole date-ordered table. |
| Services.ListRecords | code/services.py:70-87 | Each listed record carries the stored fields of the row at its position on the page. An empty date reads as today, and an empty category or account reads as None. |
| Services.ListRecordsNewestFirst | code/services.py:70-87 | When no stored date is empty, the listed records come newest first. |
| Services.ListRecordsShowsAll | code/services.py:70-87 | With no binding limit and offset 0, every stored record is listed once. |
| Services.ListRecordsDefaultShowsAll | code/services.py:70 | The default page (limit 100, offset 0) lists every record of a table with at most 100 records. |
| Services.ListCategories | code/services.py:98-100 | Lists every category ordered by name. |
| Services.ListAccounts | code/services.py:123-128 | Lists every account ordered by name. |
| Services.ListNotifications | code/services.py:165-170 | Lists every notification, latest timestamp first. |
| Services.Store.constructor | code/db.py:57-62 | A new store has every table empty. |
| Services.Store.InsertRecord | code/db.py:93-97 | The raw record insert appends the row iff its id is new. Otherwise nothing changes. Ids stay unique. |
| Services.Store.AddRecord | code/services.py:30-37 | The record is appended, with today's date if it has none, iff its id is new. No other table changes. |
| Services.Store.UpdateRecord | code/services.py:39-45 | Returns true iff a row had the id. The records become the updated rows and no other table changes. |
| Services.Store.DeleteRecord | code/services.py:47-49 | Returns true iff a row had the id. Exactly the rows with that id are removed. |
| Services.Store.AddCategory | code/services.py:94-96 | The category is appended iff its id is new. |
| Services.Store.DeleteCategory | code/services.py:102-112 | A category in use without force is refused: false, nothing changes. Otherwise the category is removed, used records are detached only when forced, and the result is whether a category row was removed. |
| Services.Store.AddAccount | code/services.py:119-121 | The account is appended iff its id is new. |
| Services.Store.DeleteAccount | code/services.py:130-140 | An account in use without force is refused: false, nothing changes. Otherwise the account is removed, its records are deleted only when forced, and the result is whether an account row was removed. |
| Services.Store.SetBudget | code/services.py:148-150 | The budgets become the upsert of the old ones; nothing else changes. |
| Services.Store.SendNotification | code/services.py:161-163 | The notification is appended iff its id is new. |
| Statistics.Selected | code/services.py:186-191 | The summary counts exactly the rows dated within the inclusive range and, when an account id is given and non-empty, of that account. |
| Statistics.TotalsPartition | code/services.py:192-195 | Income plus expense is the sum of every amount, because every row has exactly one of the two types. |
| Statistics.TotalsOf | code/services.py:192-196 | The balance is income minus expense, income plus expense is the total of the rows, and no rows give all zeros. |
| Statistics.Summary | code/services.py:186-197 | The balance is income minus expense, and income plus expense is the total of the selected rows. |
| Statistics.AccountSummary | code/services.py:199-207 | The same totals over every date of exactly that account. |
| Statistics.SummaryAfterAdd | code/services.py:186-197 | Adding a record moves the summary by exactly its amount, under its type, when it is within the range and account. Otherwise the summary is unchanged. |
| Statistics.EmptyRangeCountsNothing | code/services.py:186-197 | A range whose end sorts before its start gives all zeros. |
| Statistics.EmptyDateNeverCounted | code/services.py:186-197 | A row with an empty stored date is never counted in a range with a non-empty start. |
| Statistics.EmptyAccountMeansAll | code/services.py:188 | An empty account id selects the same rows as no account id. |
| Statistics.ForcedDeleteClearsAccount | code/services.py:199-207 | After a forced account delete, the account's summary is all zeros. |
| Statistics.IncomeAndExpenseScenario | code/services.py:186-197 | An income of 100.00 and an expense of 12.50 within the range give a balance of 87.50. |
| Statistics.ByCategory | code/services.py:209-218 | One entry per bucket that a counted row falls in, with NULL and empty categories filed as "uncategorized". Each entry is the sum of that bucket's amounts. |
| Statistics.ByCategoryAddsUp | code/services.py:209-218 | The bucket totals add up to the total of the counted rows. |
| Statistics.ByCategoryAsWritten | code/services.py:209-218 | As written, every `GROUP BY` group writes an entry under its key, whatever the order of the groups. |
| Statistics.BucketIsGroup | code/services.py:217 | When no category is empty text or the literal "uncategorized", a bucket holds exactly one `GROUP BY` group. |
| Statistics.AssignGroupsIntended | code/services.py:216-217 | Without such collisions, the loop over the groups gives each bucket its full total. |
| Statistics.AsWrittenAgreesWithoutCollision | code/services.py:209-218 | Without such collisions, the code as written equals the intended per-category totals. |
| Statistics.UncategorizedOverwritten | code/services.py:217 | A row without a category (100.00) and one with an empty category (12.50) give "uncategorized" the sum 112.50 as intended, but a different value as written, in either group order. |
| Query.SearchConditions | code/services.py:228-239 | The conditions appended step by step hold for a row iff it matches `search`'s filter. That filter is: both dates give a range; a non-empty category is matched; a non-empty text is searched in the note and the tags. |
| Query.SelectNewestFirst | code/services.py:240-241 | The rows the conditions select, each as often as it is stored, newest first. |
| Query.Matching | code/services.py:228-239 | The rows kept are exactly the stored rows that match `search`'s filter. |
| Query.Search | code/services.py:226-254 | `search` raises `ValueError` iff a selected row has an empty date. Otherwise it returns one result per matching row, newest first: every result comes from a matching row, every matching row yields a result, and each has a non-empty date and no account. |
| Query.SearchResult | code/services.py:244-253 | A search result copies id, amount, type, date, category, note, tags and attachments from the row and leaves the account out. |
| Query.SearchUsesConditions | code/services.py:228-254 | The query built from the appended conditions, ordered newest first, is what `search` returns: it raises iff that selection holds an empty date, and otherwise returns one result per selected row in that order. |
| Query.UnfilteredSearchListsAll | code/services.py:226-254 | With no text, no category and no complete range, every record is found. |
| Query.ExportSelection | code/export_import.py:21-26 | Export selects every record unless both ends are given. In that case it selects exactly the records dated within the inclusive range. |
| Query.ExportMatchesSearchRange | code/services.py:257-264 | Exporting a range selects exactly what `search` with that range and no other filter selects. |
| ExportImport.ToCsv | code/export_import.py:29-31 | A CSV line has the fixed columns id, amount, type, date, category, tags, note and attachments, taken from the row. A NULL category or note is written as empty text, and the account is not written. |
| ExportImport.Export | code/export_import.py:19-31 | One line per selected record, in selection order. |
| ExportImport.FromCsv | code/export_import.py:45-46 | An imported row takes every cell as read and has no account. |
| ExportImport.ImportFromCsv | code/export_import.py:34-48 | The loop of existence checks and inserts turns the table into the import of the lines and returns the number of lines inserted. Ids stay unique and no other table changes. |
| ExportImport.ImportAppends | code/export_import.py:45-47 | Import only appends: the stored rows stay first and unchanged, and every appended row has no account. The count is the number of rows appended. |
| ExportImport.ImportCoversIds | code/export_import.py:40-46 | After an import, every line's id is stored, and so is every id stored before. |
| ExportImport.ImportKnownIsNoOp | code/export_import.py:41-43 | Lines whose ids are all stored import nothing and leave the table unchanged. This includes ids inserted earlier in the same file. |
| ExportImport.ReimportAddsNothing | code/export_import.py:40-43 | Importing the same file again right away inserts 0 rows and leaves the table unchanged. |
| ExportImport.ImportDistinct | code/export_import.py:39-47 | Lines with distinct ids, none of them stored, are all inserted in file order. |
| ExportImport.ImportFresh | code/export_import.py:41-46 | Import keeps record ids unique. |
| ExportImport.ExportImportRoundTrip | code/export_import.py:19-48 | Exporting everything and importing into an empty table gives back the same ids, amounts, types, dates, tags and attachments in the same order. NULL category and note come back as empty text, and the account is lost. |
| Cli.TypeAnswer | code/cli.py:27-37 | After stripping and lower-casing, an answer starting with 'i' is income and one starting with 'e' is expense. Anything else asks again. |
| Cli.TypeAnswerReadsStoredValue | code/cli.py:27-37 | Typing "income" or "expense" selects that type. |
| Cli.FirstType | code/cli.py:27-37 | The type is that of the first answer that names one. No type means no answer named one. |
| Cli.AskType | code/cli.py:27-37 | The retry loop returns the type of the first answer that names one. |
| Cli.PickCategory | code/cli.py:131-140 | An empty answer picks nothing. A 1-based index within the list picks that category's id. Anything else leaves the category unset. |
| Cli.ChooseCategory | code/cli.py:124-147 | With categories defined, the answer picks from the name-ordered list and nothing is stored. With none defined, a category named 其他 is created and used. |
| Cli.ResolveStep | code/cli.py:206-236 | An empty answer cancels. An all-digit answer selects the account at that 1-based index, or asks again if out of range, and is never tried as a name. Any chosen id belongs to a listed account. |
| Cli.ExactNameSelectsFirst | code/cli.py:220-223 | A name equal to an account's name, ignoring case, selects the first such account. |
| Cli.UniquePartSelects | code/cli.py:225-228 | Failing an exact match, text contained in exactly one account name, ignoring case, selects that account. |
| Cli.AmbiguousPartAsksAgain | code/cli.py:229-233 | Failing an exact match, text contained in two account names asks again. |
| Cli.ResolveFrom | code/cli.py:202-236 | The result is what the first answer that does not ask again decides: cancel selects none, a choice selects that listed account. If every answer asks again, none is selected. |
| Cli.ResolveAccount | code/cli.py:202-236 | The retry loop resolves the answers to the account `ResolveFrom` defines. |
| Cli.ShowConditions | code/cli.py:272-287 | The conditions appended step by step hold for a row iff it matches the `showrecords` filter. The filter always tests the account, tests the category only when one was chosen, and applies the dates as given: range, lower bound, upper bound or no test. |
| Cli.ShowRecords | code/cli.py:238-289 | Nothing is listed without an account choice. Otherwise exactly the matching records are listed, each as often as it is stored, newest first. |
| Cli.ShowAllOfAccount | code/cli.py:272-289 | With no category and no dates, exactly the account's records are listed. |
| Cli.DelCatPick | code/cli.py:393-402 | The answer picks the category at that 1-based index when it is in range, and nothing otherwise. |
| Cli.DelCat | code/cli.py:385-419 | The category 其他 is refused before any count or delete, whatever the answers. Without confirmation nothing changes. Otherwise the category is deleted through `delete_category`, forced only when records use it and the user typed YES. |

## Left out

- Floating-point amounts and balances: amounts are integer cents, and `Account.balance` is stored but never recomputed.
- JSON encoding of tags and attachments: they are sequences of strings throughout.
- SQLite's `LIKE` in `search`: `Query.MentionsText` tests plain, case-sensitive substrings of the note and of each tag. It ignores ASCII case folding, `%`/`_` wildcards inside the query, and matches across the JSON text of the tag list. It also ignores that `json.dumps` (code/services.py:36) writes a non-ASCII tag such as 餐饮 as `\u9910\u996e` and escapes `"` and `\` in a tag, so the source's `LIKE` never finds such a tag by its own text while `Query.MentionsText` does.
- access to a missing or NULL column of a row: the stored row always has every column. A NULL `date` cannot be stored, and an empty one is modelled.
- The connection, cursors, commits, and `backup` / `restore` file copies in code/db.py: I/O.
- `date.today()`, `uuid4()` and `datetime.utcnow()`: parameters.
- Python's `str.lower` and `str.isdigit` beyond ASCII, and `int()` beyond an optional sign and ASCII digits (underscores, Unicode digits): `Text.Lower`, `Text.IsDigits` and `Text.ParseInt` model the ASCII part.
- `date.fromisoformat` of malformed stored text: only the empty date (which raises in `search`) is modelled. Other text is taken to be a valid date.
- `RecordType(r["type"])` of a stored type other than "income"/"expense": the record type is a two-member datatype, so CSV lines carry an already-parsed type.
- CSV quoting and parsing, and `float(row['amount'])` on import: `ExportImport` works on already-parsed lines.
- The shadowed first `summary` (code/services.py:177-184): only the second definition is live.
- `list_budgets` (code/services.py:152-154): a `SELECT` without `ORDER BY` in storage order, which is the `budgets` field itself.
- The conditional `Account` import (code/services.py:16-20): a Python packaging matter, outside the model.
- `utils.parse_date` and `format_currency`: thin wrappers over datetime and float formatting. Dates reach the model as ISO text.
- The prompts, printing and retry messages of `run_cli`, the `list`/`stats`/other commands, and `reset`. Only the rules listed above are modelled, with each typed answer as a parameter.
- End of input inside a retry loop: `input()` there (code/cli.py:29, 206 and 393) raises `EOFError`, which only the command prompt catches (code/cli.py:67-71), so `run_cli` ends with a traceback. The model instead ends the loop with no choice when the answers run out.
- Atomicity: `delete_category` and `delete_account` run two statements, each committed on its own. The model runs them in sequence without failure in between.
- Concurrency: there is none in the source.
- SQLite's unspecified order among rows with equal sort keys: modelled as a stable sort that keeps storage order.
- Services.GetRecord: models the corrected `get_record` (see Findings), not the code as written. `Services.GetRecordAsWritten` models the code as written.
- Statistics.UncategorizedOverwritten: states the discrepancy for one concrete pair of rows rather than for every table with both kinds of uncategorized rows.

## Findings

| source | as written | input that shows it | evidently intended | confidence | as-written member | corrected member |
|---|---|---|---|---|---|---|
| code/services.py:67 | `account_id=r.get("account_id")` calls `.get` on an `sqlite3.Row`, which has no such method, so every lookup that finds a row raises `AttributeError` | any `get_record` of a stored id, e.g. right after `add_record` | read the row's `account_id` like the other columns, so a stored record reads back as stored | not executed | Services.GetRecordAsWritten | Services.GetRecord, Services.GetAfterAdd, Services.GetReadsStoredRow |
| code/services.py:216-217 | `out[r["category_id"] or "uncategorized"] = r["total"]` assigns instead of adding, so the NULL group and the `''` group overwrite each other under "uncategorized" | one record without a category (100.00) and one with category `''` (12.50) in range. `''` is what importing exported NULLs stores. | "uncategorized" holds 112.50, and the bucket totals add up to the counted total | not executed | Statistics.ByCategoryAsWritten, Statistics.UncategorizedOverwritten | Statistics.ByCategory, Statistics.ByCategoryAddsUp |
