# Contacts sheet ⇄ SQLite reconciler

`sync.py` runs one reconciliation pass between a Google Sheets worksheet of
contacts and a local SQLite table `contacts`. Each contact has an integer
`id`, seven text fields (first, middle and last name, organization, mobile,
clean phone, home) and an `updated_at` timestamp. The pass goes like this:

1. Recreate the local table.
2. Take a snapshot of the sheet and of the table.
3. **Sheet → table.** Rows without a digit id are skipped. Unknown ids are
   inserted. Known ids are overwritten only when the sheet's timestamp, or
   "now" when it is missing, is strictly newer than a present local
   timestamp. Every insert or update writes "now" into that row's
   `updated_at` cell on the sheet. Finally, local ids the sheet no longer has
   are deleted.
4. **Table → sheet**, against the original sheet snapshot. Local ids that
   the snapshot lacks are appended. Rows whose local timestamp is strictly
   newer are overwritten in columns B to I. In this call order the append
   never happens; see below.

The model has four modules:

- `Records` (records.dfy): the data of both stores. A local row is
  `LocalRow`. A sheet row is `SheetRow`, whose id cell is either an integer
  (`Num`) or other text (`Other`). Timestamps are whole minutes, and
  `None` stands for a timestamp that does not parse.
- `Reconcile` (reconcile.dfy): each direction and the whole pass as
  functions of the two stores.
- `Sync` (stores.dfy): class `Stores`. Its fields are the local table
  (`map<int, LocalRow>`) and the live sheet (`seq<SheetRow>`, where data row
  i is sheet row i + 2). Its methods are the script's routines, with the
  script's loops. Each method is proved to compute the matching `Reconcile`
  function.
- `Properties` (properties.dfy): what the pass guarantees, proved about
  those functions.

A routine that raises in the script becomes an outcome with
`completed == false`, holding the state the raise leaves behind. There are
four such raises:

- A sheet without data rows gives a frame with no `updated_at` column, so
  parsing that column raises (sync.py:56). `init_db` has already dropped
  the table by then (sync.py:196-197), and nothing else is written.
- A non-integer id makes the id-set conversion fail (sync.py:154). This
  happens after the loop and before the commit. The table keeps its
  snapshot, but the stamps already written to the sheet stay.
- A repeated snapshot id makes the id index fail (sync.py:169). Nothing has
  been written at that point.
- A local row without a timestamp that matches a sheet row makes the
  comparison raise (sync.py:181). The loop stops there, and earlier sheet
  writes stay.

Facts about the code that are easy to miss:

- Changes to the table are committed once, after the deletions
  (sync.py:162), not row by row.
- The sheet is stamped with "now" (sync.py:71), while the table keeps the
  sheet's earlier timestamp (sync.py:103, 119, 146). So after a pass the
  two `updated_at` values of a copied row differ whenever the sheet's
  timestamp was older than the stamp and the stamp was accepted. Such a row
  does not settle: without the table being recreated, the next pass would
  find the stamped sheet row newer and update and stamp it again
  (`RunDoesNotSettle`). With it, every run re-inserts and re-stamps every
  digit-id row (`ShippedRun`).
- The append branch of the table-to-sheet direction (sync.py:175-180)
  never fires in `main`'s call order. By then the deletions
  (sync.py:154-160) have removed every local id that is not an integer id
  of the sheet snapshot, so every remaining id is found in that snapshot.
  A record that only the table has is therefore deleted, never pushed
  (`PassNeverAppends`, `LocalOnlyDropped`).
- `init_db` drops the table on every run (sync.py:34), so the shipped
  script always starts from an empty table. `ShippedRun` states what one
  run then does.

## Model

| member | source | states |
|---|---|---|
| `Records.PhysicalRow` | sync.py:74 | a data row sits on a sheet row below the header (row 2 or later), as the enumeration from 2 places it (and `index[0] + 2` at line 182) |
| `Records.Newer` | sync.py:126 | the strict comparison is false against a missing timestamp (NaT) and between equal timestamps (also at line 181) |
| `Records.IsDigitId` | sync.py:99 | an id passes the digit test exactly when it is an integer whose decimal text, with its sign, is non-empty and all digits, which is exactly the non-negative integers |
| `Records.DecimalTextDigits` | sync.py:99 | the decimal text of an integer, as `str` renders it, is all digits exactly when the integer is non-negative: a negative one starts with a minus sign |
| `Records.SheetIds` | sync.py:154 | the converted id set holds exactly the integer ids some sheet row carries |
| `Records.HasNonIntegerId` | sync.py:154 | when no id cell fails the conversion, every row's id is an integer and lands in the converted id set |
| `Records.DistinctIds` | sync.py:169 | an id index without repeats: implies no repeated integer id, and each id cell identifies a single row |
| `Reconcile.FirstMatch` | sync.py:74-79 | the position found is the first row whose id cell equals the id; None exactly when no row has it |
| `Reconcile.StampRows` | sync.py:69-89 | a stamp keeps the sheet's length and never touches an id or any of columns B to H |
| `Reconcile.StampTarget` | sync.py:74-79 | a target cell exists exactly when some records row has the id; it is column 9 of the first such row, at position + 2 (`PullLoopRemoteAt`, `StampsOnSheet` describe the write) |
| `Reconcile.Decide` | sync.py:99-152 | a row is skipped exactly when its id is not digits; otherwise it acts on its own id; an insert happens exactly for an id the snapshot lacks; a write carries the row's fields and its timestamp or "now" (`InsertRemoteOnly`, `StrictLastWriteWins` give the update condition) |
| `Reconcile.PullStep` | sync.py:98-152 | one row keeps the sheet's length, stamps at most its own id, and does nothing when its id is not digits (`PullLoopLocalAt`, `PullLoopStampsAt`, `PullLoopRemoteAt` give the loop's effect) |
| `Reconcile.PullLoop` | sync.py:98-152 | the sheet-to-table loop keeps the live sheet's length and every row's id and fields; only timestamps can change |
| `Reconcile.Ascending` | sync.py:63 | the local ids in the order the full-table select returns them: every id exactly once, strictly increasing |
| `Reconcile.RemoteToLocal` | sync.py:94-163 | the direction keeps the sheet's length; it completes exactly when every id is an integer, and otherwise leaves the table as it was (`DeleteBySetDifference`, `StampOncePerWrite`, `StampsOnSheet` give the rest) |
| `Reconcile.PushStep` | sync.py:171-190 | one local row never shortens the sheet (`PushLoopRowAt`, `PushLoopAppends`, `PushLoopCompletes` give the loop's effect) |
| `Reconcile.LocalToRemote` | sync.py:168-190 | the direction never shortens the sheet, and a repeated snapshot id fails it before any write (`NeverDeletesRemoteRows`, `AppendsMissingIds`, `OverwritesOnlyWhenNewer`, `LocalToRemoteCompletes` give the rest) |
| `Reconcile.RunPass` | sync.py:197-203 | the pass never shortens the sheet; a sheet without data rows fails it with nothing written; a non-integer id fails it with the table unchanged (`PassNeverAppends`, `NoWriteBack`, `ShippedRun` give the rest) |
| `Reconcile.PushLoop` | sync.py:171-190 | the table-to-sheet loop never shortens the sheet |
| `Sync.Stores.Reset` | sync.py:30-49 | recreating the table leaves it empty and does not touch the sheet |
| `Sync.Stores.FindRow` | sync.py:74-79 | the linear search stops at the first row with the id, or reports that none has it |
| `Sync.Stores.StampTimestamp` | sync.py:69-89 | writes "now" into column I of the first matching row of the records snapshot, at sheet row position + 2; writes nothing when no row matches or the write is rejected; the table is unchanged |
| `Sync.Stores.SyncToLocal` | sync.py:94-163 | the new table, the new sheet, the ids stamped and whether it completes are exactly what `Reconcile.RemoteToLocal` gives for the entry state |
| `Sync.Stores.SyncToSheet` | sync.py:168-190 | the new sheet and whether it completes are exactly what `Reconcile.LocalToRemote` gives; the table is unchanged |
| `Sync.Stores.Pass` | sync.py:197-203 | both snapshots are taken before either direction runs, and a sheet without data rows fails before either runs; the outcome is `Reconcile.RunPass` of the entry state |
| `Sync.Stores.Run` | sync.py:195-203 | a run is a pass from an empty table over the current sheet |
| `Properties.WellFormedRows` | sync.py:99-100 | a row is kept exactly when it is a sheet row with a digit id; nothing is added |
| `Properties.WellFormedRowsAppend` | sync.py:98-100 | the filter distributes over concatenation, so kept rows stay in order with their repeats |
| `Properties.WellFormedRowsSingle` | sync.py:99-100 | a single row is kept exactly when its id is a run of digits |
| `Properties.Missing` | sync.py:175-180 | every row to append carries a local id absent from the snapshot, with that id's local fields and timestamp |
| `Properties.MalformedRowsIgnored` | sync.py:98-100 | rows whose id is not a run of digits have no effect: the loop gives the same table, sheet and stamps when they are removed |
| `Properties.PullLoopLocalAt` | sync.py:98-152 | after the loop, an id is in the table exactly when it was before or its first sheet row wrote it; its row is the written one, otherwise the old one |
| `Properties.PullLoopStampsAt` | sync.py:122 | the loop adds exactly one stamp for each id it writes and none for any other id |
| `Properties.PullLoopRemoteAt` | sync.py:74-89 | after the loop, a sheet row has "now" in its timestamp cell exactly when it is the first records row of a written id whose stamp was accepted; otherwise it is unchanged |
| `Properties.InsertRemoteOnly` | sync.py:103-120 | an id only the sheet has ends up in the table with the sheet's fields and the sheet's timestamp, or "now" when that is missing |
| `Properties.StrictLastWriteWins` | sync.py:124-152 | an id both stores have gets the sheet's row exactly when the sheet's timestamp, or "now" when it is missing, is strictly newer than a present local timestamp; otherwise, and whenever the local timestamp is missing, the local row stays as it was |
| `Properties.DeleteBySetDifference` | sync.py:153-160 | a local id survives exactly when the sheet still has it; a new id appears only from a digit row of the sheet |
| `Properties.StampOncePerWrite` | sync.py:122 | an id is stamped once if a sheet row with it is inserted or updated, and never otherwise |
| `Properties.StampsOnSheet` | sync.py:69-89 | in the script's call order, exactly the rows that were inserted or updated, and whose stamp was accepted, get "now" in column I; every other cell stays |
| `Properties.PushLoopFrozen` | sync.py:175-180 | rows past the end of the snapshot are never rewritten by the table-to-sheet loop |
| `Properties.PushLoopKeepsRows` | sync.py:171-190 | no sheet row is removed or moved by the table-to-sheet loop |
| `Properties.PushLoopRowAt` | sync.py:181-190 | a snapshot row is rewritten only when the local row with its id is strictly newer; when the loop completes, each such row gets the local columns B to I |
| `Properties.PushLoopAppends` | sync.py:175-180 | the appended rows are always a prefix of the missing local rows in key order, and all of them when the loop completes |
| `Properties.PushLoopCompletes` | sync.py:181 | the loop completes exactly when no local row without a timestamp is matched in the snapshot |
| `Properties.MissingComplete` | sync.py:175-180 | every key that the snapshot lacks is among the rows to append |
| `Properties.MissingSorted` | sync.py:171-180 | for keys in increasing order, the rows to append have strictly increasing ids |
| `Properties.MissingEmpty` | sync.py:175 | nothing is appended when every local id is in the snapshot |
| `Properties.NeverDeletesRemoteRows` | sync.py:168-190 | the table-to-sheet direction keeps every sheet row, in place and with its id |
| `Properties.AppendsMissingIds` | sync.py:175-180 | the ids missing from the snapshot are appended after the existing rows, in key order, with local data; a partial run has appended a prefix of them |
| `Properties.AppendsEveryMissingId` | sync.py:171-180 | when the direction completes, every local id absent from the snapshot has been appended, and the appended rows come in increasing id order |
| `Properties.OverwritesOnlyWhenNewer` | sync.py:181-190 | a sheet row is overwritten only when its local counterpart is strictly newer, and every such row is overwritten when the direction completes |
| `Properties.LocalToRemoteCompletes` | sync.py:169-181 | the direction fails exactly on a repeated snapshot id, or on a matched local row without a timestamp |
| `Properties.PushLeavesRow` | sync.py:175-190 | a snapshot row whose local counterpart is not strictly newer is neither rewritten nor appended a second time |
| `Properties.NoWriteBack` | sync.py:197-203 | a sheet row just copied into the table is neither overwritten nor appended again by the same pass |
| `Properties.PushIsNoop` | sync.py:171-190 | when every local row is matched and not newer than its sheet row, the table-to-sheet direction writes nothing |
| `Properties.PullFromEmpty` | sync.py:98-122 | from an empty table every digit-id row is inserted and, unless rejected, stamped |
| `Properties.ShippedRun` | sync.py:195-203 | a run of the script copies the sheet's digit-id rows into the recreated table, stamps each of them, and writes nothing else to the sheet; for a sheet of distinct integer ids it fails exactly when the sheet has no data rows |
| `Properties.RunDoesNotSettle` | sync.py:71-126 | after a run, a copied row with an older timestamp whose stamp was accepted is decided as an update again by the next pass |
| `Properties.PullLoopKeysFromSheet` | sync.py:98-152 | every id the sheet-to-table loop leaves in the table was there before or is the id of some sheet row |
| `Properties.PulledKeysMatched` | sync.py:153-160 | after a completed sheet-to-table direction, every local id is found in the sheet |
| `Properties.PassNeverAppends` | sync.py:197-203 | for any stores, the pass keeps the sheet's length and every row's id: nothing is appended |
| `Properties.LocalOnlyDropped` | sync.py:153-190 | a record only the table has is gone from the table after the pass, and no sheet row carries its id |

## Left out

- Credentials, client setup and environment configuration (sync.py:10-25) are I/O and are not modelled.
- The table's column definitions in `init_db` are not modelled. Only the drop-and-recreate is, as `Reset`.
- Parsing timestamps through pandas is not modelled. A timestamp is a whole number of minutes, or None for NaT.
- The clock is a `now` parameter. The stamp's truncation to the minute and the ISO formatting (sync.py:71) are not modelled, and neither is the sub-minute `datetime.now()` used for a missing sheet timestamp (sync.py:103). Each pass uses one `now` value.
- A1 notation and the sheet API calls are not modelled. A stamp is a `Cell(row, 9)`, and an overwrite replaces columns B to I of a row together.
- Sleeps and console output (sync.py:84-89, 121, 149, 152, 160, 205-207) are not modelled.
- A failing stamp write is the `rejected` set of ids whose write is refused. The script catches and prints those failures (sync.py:82-87).
- Other failures of the sheet service or of SQLite are not modelled. This covers the per-cell updates at sync.py:183-190 failing part way.
- Id cells holding a digit string are not distinguished from other text. Every id the sheet client does not deliver as an integer is `Other` text.
- A float id cell in a column otherwise made of numbers is modelled as `Other`, so the model aborts at the id-set conversion. In the script pandas makes the whole id column float, so no row passes the digit test (sync.py:99), and `astype(int)` truncates instead of raising (sync.py:154).
- Ids are unbounded integers. The table's `id INTEGER PRIMARY KEY` holds a signed 64-bit value, so in the script an insert of an id of 2^63 or more raises (sync.py:107-120). The model inserts it.
- The order of the full-table select is taken to be ascending id.
- `Sync.Stores.SyncToLocal`: requires that no digit id the table lacks appears on two sheet rows. In the script such a repeat makes the second insert break the primary key and raise, which the model does not capture. Repeated known ids, and repeated ids that are not digits, are covered: each row is compared with the snapshot, and every newer row overwrites and stamps again.
- `Sync.Stores.Pass`: has the same requirement, on the sheet it reads and the table it starts from.
- `Sync.Stores.Run`: has the same requirement; since the table is recreated empty, no digit id may repeat on the sheet.
- The header row is taken to be the nine columns id, the seven fields, and `updated_at`, in that order. The script locates the stamp column by its header name (sync.py:76), while the table-to-sheet direction writes columns B to I by letter (sync.py:183-190).
