# Documents and Distributions state containers, in Dafny

This project models three parts of a React dashboard:

- **The Documents view** (`DocumentsSection.jsx`). It keeps:
  - the live document list;
  - a trash list;
  - the selected document;
  - two checkbox selections, one for documents and one for trash;
  - an undo/redo log of snapshots.

  Its handlers move documents between the list and the trash, delete them for good, and add uploaded files. Each handler first pushes a snapshot with `commit`.
- **The App component's `filteredDocs` pipeline** (`App.jsx`). It applies a type filter, then a case-insensitive search over name, owner and tags, then one of four sort orders.
- **The Distributions view** (`DistributionsSection.jsx`). Its filtered table is built in three steps:
  1. keep rows inside a timeframe window whose type and status match;
  2. sort by date;
  3. filter by a search query.

  The table is then paged eight rows at a time. The view also has a row selection, "mark paid" with undo/redo, a recurring-payout generator, CSV and iCalendar exports, and a download list capped at twelve entries.

Each view is modelled twice:

- **As values.** `DocumentsModel` and `DistributionsModel` give one function per handler, from the state before to the state after. The lemmas about the handlers are stated on these functions.
- **As a class.** `DocumentsView.DocumentsSection` and `DistributionsView.DistributionsSection` have one field per piece of React state. Their methods update those fields in the order the handlers call the setters, and every method is proved equal to its value-level function.

The two loops of the source are module-level methods with loop invariants:

- `DocumentsView.SplitTrash` is the partition loop of `restoreSelected`.
- `DistributionsView.GenerateRows` is the month loop of `generateNext`.

The other modules:

| module | contents |
|---|---|
| `Text` | JavaScript string operations used by the handlers: `trim`, ASCII `toLowerCase`, `includes`, `padStart(2, "0")`, `String(n)`, `split('.').pop()` |
| `Calendar` | dates, month arithmetic and the `YYYY-MM-DD` text |
| `Sorting` | a stable insertion sort, standing in for `Array.prototype.sort`, which is stable |
| `History` | the undo/redo log both views share |
| `DocQuery` | the App pipeline |
| `DistRows`, `DistQuery`, `DistExport` | the rows, the filtered and paged table, and the two export texts |

Four places where the code does something one might not expect, modelled as the code does it:

- `onDeleteSelected` puts the deleted documents at the front of the trash in the order they had in the list. A restored document keeps its `deletedAt` stamp.
- Both exports join their lines with the empty string: there are no line breaks between CSV records or iCalendar lines, and CSV fields are not quoted. `DistExport.CsvRecordFields` and `DistExport.CsvCommaCount` show that records stay separable by counting only when no field holds a comma.
- `generateNext` uses a 12-month window for both frequencies. So "Monthly" gives 12 rows, and every other frequency gives 4 rows three months apart.
- `applySnapshot` tests the saved selected id for truthiness, so a selected id of `0` does not come back after undo or redo. `DocumentsModel.Resolve` and `DistributionsModel.ResolveRow` keep this.

## Model

| member | source | states |
|---|---|---|
| DocumentsModel.FindById | src/components/Documents/DocumentsSection.jsx:83 | `find` by id: a result is in the list with that id; there is none exactly when no element has the id |
| DocumentsModel.FindByIdFirst | src/components/Documents/DocumentsSection.jsx:83 | `find` returns the first element carrying the id |
| DocumentsModel.Resolve | src/components/Documents/DocumentsSection.jsx:20-21 | the selection restored by `applySnapshot` is a document of the snapshot with the saved id; it is absent exactly when no id was saved, the id is 0, or no document has it |
| DocumentsModel.CommitPushesSnapshot | src/components/Documents/DocumentsSection.jsx:16-37 | `commit` appends one snapshot of the lists and selected id and keeps the older ones; the snapshot has an id exactly when a document is selected; the redo list is cleared and the lists are untouched |
| DocumentsModel.ApplySnapshotEffect | src/components/Documents/DocumentsSection.jsx:17-24 | after `applySnapshot` both lists are the snapshot's; the selection is the snapshot document with the saved id, or none when it cannot be found; both checkbox sets are empty; the log is unchanged |
| DocumentsModel.UndoEffect | src/components/Documents/DocumentsSection.jsx:39-46 | with an empty past, undo changes nothing; otherwise it pops the last snapshot, restores its lists and selection, and pushes the current snapshot on the redo list |
| DocumentsModel.RedoEffect | src/components/Documents/DocumentsSection.jsx:48-55 | with an empty future, redo changes nothing; otherwise it pops the last redo snapshot, restores its lists and re-resolves its selection, clears both checkbox sets, and pushes the current snapshot on the past |
| DocumentsModel.SnapshotOfApplied | src/components/Documents/DocumentsSection.jsx:16-24 | applying a snapshot and taking one again gives it back exactly when its selected id can be resolved |
| DocumentsModel.UndoThenRedo | src/components/Documents/DocumentsSection.jsx:39-55 | redo after undo restores the lists, the snapshot and the whole log |
| DocumentsModel.RedoThenUndo | src/components/Documents/DocumentsSection.jsx:39-55 | undo after redo restores the lists, the snapshot and the whole log |
| DocumentsModel.UndoAfterCommit | src/components/Documents/DocumentsSection.jsx:32-46 | undoing right after a committed change brings back the lists from before it |
| DocumentsModel.DeleteOneMoves | src/components/Documents/DocumentsSection.jsx:80-90 | `deleteOne` keeps in the list exactly the documents with another id; a found document goes to the front of the trash stamped with `deletedAt` and otherwise unchanged; an unknown id moves nothing; the id leaves the ticked set; a selected document with that id is deselected and any other selection kept; one snapshot is pushed |
| DocumentsModel.DeleteOneKeepsOrder | src/components/Documents/DocumentsSection.jsx:80-90 | with unique ids, deleting the k-th document removes exactly that position and prepends its stamped copy to the trash |
| DocumentsModel.DeleteOneConserves | src/components/Documents/DocumentsSection.jsx:80-90 | `deleteOne` neither loses nor copies an id across list and trash, and keeps ids unique |
| DocumentsModel.OnDeleteSelectedMoves | src/components/Documents/DocumentsSection.jsx:92-103 | with no ticks, nothing changes and no snapshot is pushed; otherwise the list becomes the unticked documents in order, the ticked ones, stamped and in list order, go in front of the trash, the ticks are cleared, a ticked selected document is deselected and an unticked one kept, and one snapshot is pushed |
| DocumentsModel.OnDeleteSelectedConserves | src/components/Documents/DocumentsSection.jsx:92-103 | bulk delete keeps the multiset of ids over list and trash, and keeps ids unique |
| DocumentsModel.RestoreOneMoves | src/components/Documents/DocumentsSection.jsx:105-114 | `restoreOne` drops exactly the items with that id from the trash and puts the found record, unchanged, in front of the list; an unknown id moves nothing |
| DocumentsModel.RestoreOneKeepsOrder | src/components/Documents/DocumentsSection.jsx:105-114 | with unique ids, restoring the k-th trash item removes exactly that position from the trash, keeping the others in order, and puts the item at the head of the list |
| DocumentsModel.RestoreOneConserves | src/components/Documents/DocumentsSection.jsx:105-114 | `restoreOne` keeps the multiset of ids over list and trash, and keeps ids unique |
| DocumentsModel.RestoreSelectedMoves | src/components/Documents/DocumentsSection.jsx:116-127 | with no ticks, nothing changes and no snapshot is pushed; otherwise the ticked trash items, in trash order, go in front of the list, the trash becomes the unticked items in their order, the ticks are cleared, and one snapshot is pushed |
| DocumentsModel.RestoreSelectedConserves | src/components/Documents/DocumentsSection.jsx:116-127 | bulk restore keeps the multiset of ids over list and trash, and keeps ids unique |
| DocumentsModel.DeleteThenRestore | src/components/Documents/DocumentsSection.jsx:80-114 | deleting the k-th document and restoring it leaves the trash as before and the stamped document at the head of the list |
| DocumentsModel.PurgeTouchesOnlyTrash | src/components/Documents/DocumentsSection.jsx:129-144 | the three permanent deletes change neither the list nor the document selection; emptying gives an empty trash; with an empty trash or no ticks they change nothing |
| DocumentsModel.PurgeRemoves | src/components/Documents/DocumentsSection.jsx:129-142 | deleting one item for good keeps exactly the trash items with another id and unticks the id; deleting the ticked items keeps exactly the unticked ones, in order, and clears the ticks |
| DocumentsModel.PurgeOneKeepsOrder | src/components/Documents/DocumentsSection.jsx:129-134 | with unique ids, deleting the k-th trash item for good removes exactly that position and keeps the others in order |
| DocumentsModel.PurgeOneKeepsValid | src/components/Documents/DocumentsSection.jsx:129-134 | deleting one trash item for good keeps ids unique |
| DocumentsModel.PurgeSelectedKeepsValid | src/components/Documents/DocumentsSection.jsx:136-142 | deleting the ticked trash items for good keeps ids unique |
| DocumentsModel.EmptyTrashKeepsValid | src/components/Documents/DocumentsSection.jsx:144 | emptying the trash keeps ids unique |
| DocumentsModel.ExtToType | src/components/Documents/DocumentsSection.jsx:176-183 | the type is always one of PDF, XLSX, DOCX, PPTX |
| DocumentsModel.ExtToTypeByLastSegment | src/components/Documents/DocumentsSection.jsx:177 | only the lower-cased text after the last dot decides the type |
| DocumentsModel.ExtToTypeIgnoresCase | src/components/Documents/DocumentsSection.jsx:177-181 | "Deck.PPT" is a PPTX |
| DocumentsModel.ExtToTypeUsesLastDot | src/components/Documents/DocumentsSection.jsx:177-180 | "a.pdf.docx" is a DOCX |
| DocumentsModel.ExtToTypeDefaultsToPdf | src/components/Documents/DocumentsSection.jsx:177-182 | every extension whose lower-cased form is outside the table (pdf, xls, xlsx, doc, docx, ppt, pptx) gives PDF |
| DocumentsModel.ExtToTypeNoDot | src/components/Documents/DocumentsSection.jsx:177 | a name with no dot is read whole as its extension |
| DocumentsModel.OnFilesAddedPrepends | src/components/Documents/DocumentsSection.jsx:169-174 | no files changes nothing; otherwise one new record per file goes in front of the list, in file order, with id clock+i, the file's name, its type from the extension, owner "You", tag "Uploaded", status "Draft", today's date and no deletion stamp, after one snapshot |
| DocumentsView.SplitTrash | src/components/Documents/DocumentsSection.jsx:120-121 | the loop splits the trash into the ticked items and the rest, each in trash order, and together they hold every id once |
| DocumentsView.DocumentsSection.constructor | src/components/Documents/DocumentsSection.jsx:6-11 | the view mounts with the given documents, an empty trash, no selection and an empty log |
| DocumentsView.DocumentsSection.Commit | src/components/Documents/DocumentsSection.jsx:32-37 | the fields become `DocumentsModel.Commit` of the old state |
| DocumentsView.DocumentsSection.ApplySnapshot | src/components/Documents/DocumentsSection.jsx:17-24 | the fields become `DocumentsModel.ApplySnapshot` of the old state |
| DocumentsView.DocumentsSection.Undo | src/components/Documents/DocumentsSection.jsx:39-46 | the fields become `DocumentsModel.Undo` of the old state |
| DocumentsView.DocumentsSection.Redo | src/components/Documents/DocumentsSection.jsx:48-55 | the fields become `DocumentsModel.Redo` of the old state |
| DocumentsView.DocumentsSection.ToggleId | src/components/Documents/DocumentsSection.jsx:70 | the id is added to or removed from the ticked set |
| DocumentsView.DocumentsSection.OnSelectAll | src/components/Documents/DocumentsSection.jsx:71-73 | the ticked set becomes the ids of the rows on screen, or empty |
| DocumentsView.DocumentsSection.ToggleTrashId | src/components/Documents/DocumentsSection.jsx:75 | the id is added to or removed from the ticked trash set |
| DocumentsView.DocumentsSection.OnSelectAllTrash | src/components/Documents/DocumentsSection.jsx:76-78 | the ticked trash set becomes every trash id, or empty |
| DocumentsView.DocumentsSection.DeleteOne | src/components/Documents/DocumentsSection.jsx:80-90 | the fields become `DocumentsModel.DeleteOne` of the old state, and unique ids stay unique |
| DocumentsView.DocumentsSection.OnDeleteSelected | src/components/Documents/DocumentsSection.jsx:92-103 | the fields become `DocumentsModel.OnDeleteSelected` of the old state, and unique ids stay unique |
| DocumentsView.DocumentsSection.RestoreOne | src/components/Documents/DocumentsSection.jsx:105-114 | the fields become `DocumentsModel.RestoreOne` of the old state, and unique ids stay unique |
| DocumentsView.DocumentsSection.RestoreSelected | src/components/Documents/DocumentsSection.jsx:116-127 | the fields become `DocumentsModel.RestoreSelected` of the old state, and unique ids stay unique |
| DocumentsView.DocumentsSection.DeletePermanentOne | src/components/Documents/DocumentsSection.jsx:129-134 | the fields become `DocumentsModel.DeletePermanentOne` of the old state, and unique ids stay unique |
| DocumentsView.DocumentsSection.DeletePermanentSelected | src/components/Documents/DocumentsSection.jsx:136-142 | the fields become `DocumentsModel.DeletePermanentSelected` of the old state, and unique ids stay unique |
| DocumentsView.DocumentsSection.EmptyTrash | src/components/Documents/DocumentsSection.jsx:144 | the fields become `DocumentsModel.EmptyTrash` of the old state, and unique ids stay unique |
| DocumentsView.DocumentsSection.OnFilesAdded | src/components/Documents/DocumentsSection.jsx:169-174 | the fields become `DocumentsModel.OnFilesAdded` of the old state |
| History.UndoThenRedo | src/components/Documents/DocumentsSection.jsx:39-55 | on the log alone, redo undoes an undo: the same log and the same current snapshot come back |
| History.RedoThenUndo | src/components/Documents/DocumentsSection.jsx:39-55 | on the log alone, undo undoes a redo |
| History.RecordAllPushes | src/components/Documents/DocumentsSection.jsx:32-34 | a run of commits appends its snapshots in order and clears the redo list |
| History.UndoTimesPops | src/components/Documents/DocumentsSection.jsx:39-46 | undoing n times pops the last n snapshots and stacks the states they replace on the redo list in reverse |
| History.UndoAllCommits | src/components/Documents/DocumentsSection.jsx:32-46 | undoing as many times as there were commits returns to the snapshot taken before the first one |
| Sorting.Insert | src/App.jsx:37 | insertion adds exactly the one element |
| Sorting.StableSort | src/App.jsx:37-43 | the sort is a permutation of its input |
| Sorting.StableSortSorted | src/App.jsx:37-43 | under a total preorder the result is sorted and a permutation |
| Sorting.SortedUnchanged | src/App.jsx:42 | a list already in order, in particular under the comparator that answers 0, is left as it is |
| Sorting.StableSortIsStable | src/App.jsx:37-43 | elements the comparator cannot tell apart keep their relative order |
| DocQuery.OfType | src/App.jsx:27 | the type filter returns a sub-multiset of its input |
| DocQuery.OfTypeMembers | src/App.jsx:27 | a document passes the type filter exactly when the type is "All" or equals its own |
| DocQuery.OfTypeAppend | src/App.jsx:27 | the type filter keeps the order of what it keeps: it distributes over concatenation |
| DocQuery.MatchingMembers | src/App.jsx:31-35 | a document passes the search exactly when its lower-cased name, owner or some tag contains the query |
| DocQuery.MatchingAppend | src/App.jsx:28-36 | the search keeps the order of what it keeps: it distributes over concatenation |
| DocQuery.QueryEmpty | src/App.jsx:29-30 | the query is empty exactly when the search box holds only white space |
| DocQuery.BlankSearchKeepsAll | src/App.jsx:30 | a blank search keeps every document in order |
| DocQuery.SearchKeepsMatches | src/App.jsx:28-36 | a non-blank search keeps exactly the documents where the trimmed, lower-cased query occurs at some position of the name or owner, or in some tag |
| DocQuery.MatchingAllKeepsOrder | src/App.jsx:28-36 | when every document matches, the search returns the list unchanged |
| DocQuery.OrderForOrders | src/App.jsx:37-43 | each of the five comparators is a total preorder |
| DocQuery.FilteredFromDocs | src/App.jsx:26-43 | every listed document is from `docs` and has the chosen type, unless that is "All" |
| DocQuery.FilteredIsPermutation | src/App.jsx:26-43 | the listed documents are a permutation of the filtered ones and a sub-multiset of `docs` |
| DocQuery.FilteredNewestFirst | src/App.jsx:38 | `updated_desc` lists newer documents first |
| DocQuery.FilteredOldestFirst | src/App.jsx:39 | `updated_asc` lists older documents first |
| DocQuery.FilteredByNameAsc | src/App.jsx:40 | `name_asc` orders names ascending |
| DocQuery.FilteredByNameDesc | src/App.jsx:41 | `name_desc` orders names descending |
| DocQuery.FilteredUnsortedKeepsOrder | src/App.jsx:42 | any other `sortBy` keeps the filtered order |
| DocQuery.FilteredIsStable | src/App.jsx:37-43 | documents equal under the chosen order keep their relative order |
| DistRows.MarkIds | src/components/Distributions/DistributionsSection.jsx:182-183 | same length; each row whose id is in the set becomes Paid, every other row is unchanged |
| DistRows.MarkIdsEffect | src/components/Distributions/DistributionsSection.jsx:182-183 | marking changes only the status field, to "Paid" for marked rows |
| DistRows.MarkIdsIdempotent | src/components/Distributions/DistributionsSection.jsx:182-183 | marking the same ids twice is the same as once |
| DistRows.MarkIdsCompose | src/components/Distributions/DistributionsSection.jsx:182-183 | marking a then b is marking their union |
| DistRows.MarkIdsNone | src/components/Distributions/DistributionsSection.jsx:183 | marking no ids changes nothing |
| DistRows.PushDownloadBounded | src/components/Distributions/DistributionsSection.jsx:188 | the new entry comes first, older entries follow in order, and at most twelve are kept |
| DistQuery.InWindow | src/components/Distributions/DistributionsSection.jsx:83-90 | the window filter returns a sub-multiset of the data |
| DistQuery.InWindowMembers | src/components/Distributions/DistributionsSection.jsx:84-90 | a row passes exactly when its date is in the window and its type and status match or are "All" |
| DistQuery.BaseMembers | src/components/Distributions/DistributionsSection.jsx:77-91 | the base rows are the data rows from the window start (inclusive) to next 1 January (exclusive) whose type and status pass |
| DistQuery.TwelveMonthWindow | src/components/Distributions/DistributionsSection.jsx:80 | the "12M" window starts on the 1st of the month after this month a year ago, rolling into January of this year in December |
| DistQuery.DateAscOrders | src/components/Distributions/DistributionsSection.jsx:91 | date order is a total preorder |
| DistQuery.RowMatching | src/components/Distributions/DistributionsSection.jsx:94-100 | the query filter returns a sub-multiset of its input |
| DistQuery.RowMatchingMembers | src/components/Distributions/DistributionsSection.jsx:94-100 | a row passes exactly when its lower-cased type or status, its date text or its amount text contains the query |
| DistQuery.RowMatchingAppend | src/components/Distributions/DistributionsSection.jsx:94-100 | the query filter keeps the order, and every copy, of what it keeps: it distributes over concatenation |
| DistQuery.RowMatchingSorted | src/components/Distributions/DistributionsSection.jsx:91-100 | filtering keeps date order |
| DistQuery.FilteredSorted | src/components/Distributions/DistributionsSection.jsx:76-101 | base and filtered rows are in date order |
| DistQuery.BlankQueryKeepsBase | src/components/Distributions/DistributionsSection.jsx:92 | a blank query returns the base rows |
| DistQuery.QueryKeepsMatches | src/components/Distributions/DistributionsSection.jsx:93-100 | a non-blank query keeps exactly the base rows matching the trimmed, lower-cased query, as the order-preserving query filter of the base; that query is non-empty |
| DistQuery.FilteredRowsPass | src/components/Distributions/DistributionsSection.jsx:76-101 | every filtered row is from the data, within the window, and has the chosen type and status |
| DistQuery.SliceIndex | src/components/Distributions/DistributionsSection.jsx:107 | `slice` bounds are clamped into the list |
| DistQuery.PageCountIsCeiling | src/components/Distributions/DistributionsSection.jsx:103 | the page count is at least 1 and is the ceiling of rows / 8 |
| DistQuery.PageCountExample | src/components/Distributions/DistributionsSection.jsx:103-107 | 25 rows make 4 pages, the last showing only the 25th row |
| DistQuery.ClampPageInRange | src/components/Distributions/DistributionsSection.jsx:104 | the page effect brings the page to at most the count, keeps it at least 1, and leaves an in-range page alone |
| DistQuery.VisibleIsPage | src/components/Distributions/DistributionsSection.jsx:107 | page p shows rows (p-1)*8 up to p*8, cut at the end, or nothing past the end |
| DistQuery.VisibleAtMostPageSize | src/components/Distributions/DistributionsSection.jsx:107 | at most eight rows are visible, for any page |
| DistQuery.VisibleNonEmpty | src/components/Distributions/DistributionsSection.jsx:103-107 | an in-range page of a non-empty table shows at least one row |
| DistQuery.RowOnItsPage | src/components/Distributions/DistributionsSection.jsx:103-107 | row k is shown on page k/8+1, at position k mod 8 |
| DistExport.Scheduled | src/components/Distributions/DistributionsSection.jsx:207 | the scheduled subset is no longer than the filtered rows |
| DistExport.ScheduledMembers | src/components/Distributions/DistributionsSection.jsx:207 | a row is in it exactly when it is filtered and "Scheduled" |
| DistExport.CsvRecordFields | src/components/Distributions/DistributionsSection.jsx:201-202 | a record of comma-free fields holds exactly three commas |
| DistExport.CsvCommaCount | src/components/Distributions/DistributionsSection.jsx:201-202 | the body of n such rows holds exactly 3n commas |
| DistExport.CsvBodyAppend | src/components/Distributions/DistributionsSection.jsx:201-202 | the body of two row lists is the concatenation of their bodies |
| DistExport.CsvTextShape | src/components/Distributions/DistributionsSection.jsx:199-202 | the file starts with the header; an empty array gives the header alone; a missing argument means `filtered` |
| DistExport.CsvTextAppend | src/components/Distributions/DistributionsSection.jsx:199-202 | exporting a + b is exporting a followed by the records of b |
| DistExport.IcsSelectionFallback | src/components/Distributions/DistributionsSection.jsx:207 | a non-empty argument is used as given; a missing or empty one falls back to exactly the scheduled filtered rows |
| DistExport.EventsAppend | src/components/Distributions/DistributionsSection.jsx:209 | the events of two row lists are the events of each, in order |
| DistExport.IcsTextFramed | src/components/Distributions/DistributionsSection.jsx:209 | the calendar starts with BEGIN:VCALENDAR then VERSION:2.0 and ends with END:VCALENDAR |
| DistExport.EventFramed | src/components/Distributions/DistributionsSection.jsx:208 | each event starts with BEGIN:VEVENT and ends with END:VEVENT |
| DistExport.DtStartIsDateWithoutDashes | src/components/Distributions/DistributionsSection.jsx:208 | the DTSTART value is the row's date text with its dashes removed |
| Calendar.CompactIsDateWithoutDashes | src/components/Distributions/DistributionsSection.jsx:208 | `${y}${m}${d}` is the `YYYY-MM-DD` text without its dashes |
| Calendar.MonthStart | src/components/Distributions/DistributionsSection.jsx:224-225 | `setMonth` past December carries into the year: month index k gives a valid first of a month with that index |
| Calendar.LaterMonthIsLater | src/components/Distributions/DistributionsSection.jsx:223-225 | a later month index is a later date |
| Calendar.DaysInMonth | src/components/Distributions/DistributionsSection.jsx:226 | day 0 of the next month is between 28 and 31, and at least 30 outside February |
| DistributionsModel.FindRow | src/components/Distributions/DistributionsSection.jsx:134 | `find` by id: a result has that id and is in the rows; there is none exactly when no row has the id |
| DistributionsModel.FindRowFirst | src/components/Distributions/DistributionsSection.jsx:134 | `find` returns the first row carrying the id |
| DistributionsModel.ResolveRowFinds | src/components/Distributions/DistributionsSection.jsx:134 | the restored selection is the row with the saved id, absent exactly when no id was saved, it is 0, or no row has it |
| DistributionsModel.CommitPushesSnapshot | src/components/Distributions/DistributionsSection.jsx:131-147 | `commit` appends one snapshot of the data and selected id, clears the redo list, and leaves data and page alone |
| DistributionsModel.UndoEffect | src/components/Distributions/DistributionsSection.jsx:148-155 | with an empty past, undo changes nothing; otherwise it pops the last snapshot, restores its data and selection, clears the ticks, and pushes the current snapshot on the redo list |
| DistributionsModel.RedoEffect | src/components/Distributions/DistributionsSection.jsx:156-163 | with an empty future, redo changes nothing; otherwise it pops the last redo snapshot, restores its data and re-resolves its selection, clears the ticks, and pushes the current snapshot on the past |
| DistributionsModel.UndoThenRedo | src/components/Distributions/DistributionsSection.jsx:148-163 | redo after undo restores the data, the snapshot and the whole log |
| DistributionsModel.RedoThenUndo | src/components/Distributions/DistributionsSection.jsx:148-163 | undo after redo restores the data, the snapshot and the whole log |
| DistributionsModel.MarkPaidEffect | src/components/Distributions/DistributionsSection.jsx:182 | `markPaid` sets to Paid exactly the rows with that id, after one snapshot; doing it twice gives the same data |
| DistributionsModel.BulkMarkPaidEffect | src/components/Distributions/DistributionsSection.jsx:183 | with no ticks, nothing happens; otherwise the ticked rows become Paid, the ticks are cleared, and one snapshot is pushed |
| DistributionsModel.BulkMarkPaidIdempotent | src/components/Distributions/DistributionsSection.jsx:183 | marking the same ids again changes nothing |
| DistributionsModel.SettleInRange | src/components/Distributions/DistributionsSection.jsx:103-104 | after the page effect the page is within 1 and the page count; an in-range page is left alone |
| DistributionsModel.ControlsResetPage | src/components/Distributions/DistributionsSection.jsx:105 | changing timeframe, type, status or query puts the table back on page 1, which is in range |
| DistributionsModel.PageButtonsStayInRange | src/components/Distributions/DistributionsSection.jsx:103-107 | Prev and Next keep the page in range and move by one where they can |
| DistributionsModel.MarkPaidKeepsPage | src/components/Distributions/DistributionsSection.jsx:182 | the page stays in range after `markPaid` |
| DistributionsModel.BulkMarkPaidKeepsPage | src/components/Distributions/DistributionsSection.jsx:183 | the page stays in range after `bulkMarkPaid` |
| DistributionsModel.GenerateNextKeepsPage | src/components/Distributions/DistributionsSection.jsx:217-230 | the page stays in range after `generateNext` |
| DistributionsModel.UndoRedoKeepPage | src/components/Distributions/DistributionsSection.jsx:148-163 | the page stays in range after undo and redo |
| DistributionsModel.ScheduleShape | src/components/Distributions/DistributionsSection.jsx:217-228 | 12 monthly rows or 4 quarterly rows; row k has id clock+k+1, status Scheduled, the chosen type and amount, falls k (or 3k) months after this month, and its day is the requested day capped at the month's length |
| DistributionsModel.ScheduleIncreasing | src/components/Distributions/DistributionsSection.jsx:217-228 | generated rows have strictly increasing dates and ids |
| DistributionsModel.ScheduleClampsDay | src/components/Distributions/DistributionsSection.jsx:226 | day 31 monthly from 15 January 2025 gives January 31, February 28, March 31 |
| DistributionsModel.ScheduleCrossesYear | src/components/Distributions/DistributionsSection.jsx:218-226 | day 30 quarterly from November 2025 gives 4 rows, including 28 February 2026 and 30 August 2026 |
| DistributionsModel.GenerateNextAppends | src/components/Distributions/DistributionsSection.jsx:229 | the old data stays as a prefix, the schedule follows, and one snapshot is pushed |
| DistributionsModel.DownloadsBounded | src/components/Distributions/DistributionsSection.jsx:186-212 | each export puts its entry (name, MIME type) first, the older entries follow in their order, at most twelve are kept, and data and log are left alone; clearing empties the list |
| DistributionsModel.TickedMembers | src/components/Distributions/DistributionsSection.jsx:213 | the ticked subset holds exactly the rows with a ticked id |
| DistributionsModel.BulkExportRows | src/components/Distributions/DistributionsSection.jsx:213 | bulk export writes exactly the visible rows that are ticked |
| DistributionsView.GenerateRows | src/components/Distributions/DistributionsSection.jsx:217-228 | the loop produces exactly the schedule |
| DistributionsView.DistributionsSection.constructor | src/components/Distributions/DistributionsSection.jsx:56-67 | the view mounts on YTD, All, All, an empty query and page 1, with an empty log and no downloads; the page is in range |
| DistributionsView.DistributionsSection.SyncPage | src/components/Distributions/DistributionsSection.jsx:104 | the fields become `DistributionsModel.Settle` of the old state |
| DistributionsView.DistributionsSection.Commit | src/components/Distributions/DistributionsSection.jsx:142-147 | the fields become `DistributionsModel.Commit` of the old state |
| DistributionsView.DistributionsSection.ApplySnapshot | src/components/Distributions/DistributionsSection.jsx:132-136 | the fields become `DistributionsModel.ApplySnapshot` of the old state |
| DistributionsView.DistributionsSection.Undo | src/components/Distributions/DistributionsSection.jsx:148-155 | the fields become `DistributionsModel.Undo` of the old state; an in-range page stays in range |
| DistributionsView.DistributionsSection.Redo | src/components/Distributions/DistributionsSection.jsx:156-163 | the fields become `DistributionsModel.Redo` of the old state; an in-range page stays in range |
| DistributionsView.DistributionsSection.SetTimeframe | src/components/Distributions/DistributionsSection.jsx:242 | a new timeframe is stored and the page goes back to 1, which is what the reset effect at line 105 does |
| DistributionsView.DistributionsSection.SetType | src/components/Distributions/DistributionsSection.jsx:245 | a new type is stored and the page goes back to 1, which is what the reset effect at line 105 does |
| DistributionsView.DistributionsSection.SetStatus | src/components/Distributions/DistributionsSection.jsx:248 | a new status is stored and the page goes back to 1, which is what the reset effect at line 105 does |
| DistributionsView.DistributionsSection.SetQuery | src/components/Distributions/DistributionsSection.jsx:254 | a new query is stored and the page goes back to 1, which is what the reset effect at line 105 does |
| DistributionsView.DistributionsSection.PrevPage | src/components/Distributions/DistributionsSection.jsx:371 | the page goes down by one, not below 1 |
| DistributionsView.DistributionsSection.NextPage | src/components/Distributions/DistributionsSection.jsx:372 | the page goes up by one, not past the count |
| DistributionsView.DistributionsSection.SelectRow | src/components/Distributions/DistributionsSection.jsx:350 | the clicked row becomes the selection |
| DistributionsView.DistributionsSection.ToggleId | src/components/Distributions/DistributionsSection.jsx:179 | the id is added to or removed from the ticked set |
| DistributionsView.DistributionsSection.OnSelectAll | src/components/Distributions/DistributionsSection.jsx:177-180 | the ticked set becomes the ids of the visible rows, or empty |
| DistributionsView.DistributionsSection.MarkPaid | src/components/Distributions/DistributionsSection.jsx:182 | the fields become `DistributionsModel.MarkPaid` of the old state; an in-range page stays in range |
| DistributionsView.DistributionsSection.BulkMarkPaid | src/components/Distributions/DistributionsSection.jsx:183 | the fields become `DistributionsModel.BulkMarkPaid` of the old state; an in-range page stays in range |
| DistributionsView.DistributionsSection.GenerateNext | src/components/Distributions/DistributionsSection.jsx:217-230 | the fields become `DistributionsModel.GenerateNext` of the old state; an in-range page stays in range |
| DistributionsView.DistributionsSection.ClearDownloads | src/components/Distributions/DistributionsSection.jsx:192 | the download list is emptied |
| DistributionsView.DistributionsSection.ExportCsv | src/components/Distributions/DistributionsSection.jsx:199-205 | returns the CSV of the given rows or of `filtered`, and pushes a `distributions.csv` entry |
| DistributionsView.DistributionsSection.ExportIcs | src/components/Distributions/DistributionsSection.jsx:206-212 | returns the calendar of the selection, and pushes a `distributions.ics` entry |
| DistributionsView.DistributionsSection.BulkExportCsv | src/components/Distributions/DistributionsSection.jsx:213 | exports the ticked visible rows as CSV |
| Text.TrimEmpty | src/App.jsx:29 | `trim()` gives the empty text exactly when the text is all white space |
| Text.ContainsIff | src/App.jsx:32 | `includes` holds exactly when the query occurs at some position |
| Text.NatToString | src/components/Distributions/DistributionsSection.jsx:227 | `String(n)` is a non-empty run of digits, one digit exactly below 10 |
| Text.Pad2Digits | src/components/Distributions/DistributionsSection.jsx:227 | `padStart(2, "0")` of a non-negative number is all digits, at least two of them |
| Text.AfterLastSegment | src/components/Documents/DocumentsSection.jsx:177 | `split('.').pop()` is the part after the last dot, holding no dot |
| Text.StrLeTotal | src/App.jsx:40-41 | the name order relates any two names |
| Text.StrLeTransitive | src/App.jsx:40-41 | the name order is transitive |

## Left out

- Rendering, icons, charts and CSS classes, plus the `viewMode`, `showTrash`, `showEditor` and `darkMode` toggles: these only change what is drawn.
- Toasts and their timers (`showToastMsg`, `showToast`): they are presentation with timers. The label passed to `commit` is dropped.
- The Ctrl/Cmd-Z keyboard listeners: they are event wiring that calls the modelled `undo` and `redo`.
- The derived `allSelected` and `allTrashSelected` flags: they only drive the header checkbox.
- `downloadOne`, `onDownloadSelected`, `onShareSelected`, `downloadStatement` and `bulkDownloadStatements`: these are anchor clicks, JSON blobs and alerts on the browser. The download entry each pushes has the shape `DistRows.PushDownload` models.
- Blob and object-URL creation, the automatic anchor click in `pushDownload`, and `URL.revokeObjectURL` in `clearDownloads`: object URLs and the clock enter as parameters (`url`, `createdAt`).
- `Date.now()`, `new Date()` and `toISOString()` enter as parameters: `clock`, `now`, `today`.
- The totals, monthly and breakdown figures: these are floating-point sums for charts.
- `prettySize(f.size)`, `String(r.amount)` and `toFixed(2)`: these are number formatting. Each is modelled as a text supplied with the record (`FileInfo.size`, `Amount.text`, `Amount.fixed2`).
- The OverviewSection component and the shared formatting helpers (`formatDate`): they are not part of this model.
- Time zones: the source parses `YYYY-MM-DD` as UTC midnight and compares it with local-time window bounds. The model compares calendar dates and takes `getUTC*` to give back the stored date.
- DistQuery.RowMatches: `toLowerCase` is modelled for ASCII letters only.
- DocQuery.Query: the same ASCII-only `toLowerCase` stands for the search box's lower-casing, and DocQuery.Matches uses it for names, owners and tags.
- DocumentsModel.ExtToType: the extension is lower-cased with the same ASCII-only `toLowerCase`.
- DocumentsModel.OnFilesAdded: the source calls `Date.now()` again for each file and gives it the id `Date.now() + i`, so ids can skip when the clock ticks in between. The model reads the clock once and uses `clock + i`.
- DocumentsModel.OnDeleteSelected: the source calls `new Date().toISOString()` once per moved document, so the stamps can differ by a tick. The model stamps all of them with one `now`.
- DocQuery.NameAsc: `localeCompare` is modelled as character-code order (`StrLe`), a total preorder rather than the locale's collation.
- DistributionsModel.GenerateNext: for a day below 1 or a non-numeric day the source builds an invalid or shifted date. The model keeps the day as `min(recDay, last)` and does not model JavaScript's rollover of such dates.
- DistributionsModel.Schedule: `new Date(y, m, d)` reads years 0 to 99 as 1900 to 1999. The model treats every year as written.
- DistributionsView.DistributionsSection.Undo: it promises an in-range page only when the page was in range before, because the source's page effect runs after the render.
- The React scheduling of setter calls: each handler is modelled as its setters applied in order on the latest state, which is what the functional updaters compute.
