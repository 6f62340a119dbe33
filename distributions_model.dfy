/**
 * The Distributions view's state container as values: the rows, the filter
 * controls, the page, the row selection, the undo/redo log and the download
 * center. `today` is the date the view was loaded on, which fixes the
 * current year and month for the date window and the generator. Each
 * handler is a function from the state before to the state after, followed
 * by the page effects the component runs once it has re-rendered.
 * DistributionsView.DistributionsSection performs the same steps in place.
 */
module DistributionsModel {
  import opened Wrappers
  import opened Calendar
  import opened DistRows
  import opened DistQuery
  import opened DistExport
  import History

  /** What `snapshot()` records: the rows and the id of the selected row. */
  datatype Snapshot = Snapshot(data: seq<Row>, selectedId: Option<nat>)

  datatype DistState = DistState(
    today: Date, data: seq<Row>,
    timeframe: string, rowType: string, status: string, q: string,
    page: int, selected: Option<Row>, selectedIds: set<nat>,
    history: History.Log<Snapshot>, downloads: seq<Download>)

  /** The view as it mounts on `today` with the seed rows. */
  function Init(today: Date, seed: seq<Row>): DistState {
    DistState(today, seed, "YTD", "All", "All", "", 1, None, {}, History.Log([], []), [])
  }

  function FilteredOf(st: DistState): seq<Row> {
    Filtered(st.data, st.today, st.timeframe, st.rowType, st.status, st.q)
  }

  function PageCountOf(st: DistState): int {
    PageCount(|FilteredOf(st)|)
  }

  function VisibleOf(st: DistState): seq<Row> {
    Visible(FilteredOf(st), st.page)
  }

  /** The page the table shows exists: between one and the page count. */
  predicate PageInRange(st: DistState) {
    1 <= st.page <= PageCountOf(st)
  }

  /** The clamp effect that runs after every change of the rows. */
  function Settle(st: DistState): DistState {
    st.(page := ClampPage(st.page, |FilteredOf(st)|))
  }

  // ------------------------------------------------------------------
  // Snapshots and the log

  /** `data.find((r) => r.id === id)`. */
  function FindRow(rows: seq<Row>, id: nat): (r: Option<Row>)
    ensures r.Some? ==> r.value in rows && r.value.id == id
    ensures r.None? <==> forall k :: 0 <= k < |rows| ==> rows[k].id != id
  {
    if rows == [] then None
    else if rows[0].id == id then Some(rows[0])
    else FindRow(rows[1..], id)
  }

  /** `find` returns the first row carrying the id. */
  lemma {:induction false} FindRowFirst(rows: seq<Row>, id: nat, k: nat)
    requires k < |rows| && rows[k].id == id
    requires forall j :: 0 <= j < k ==> rows[j].id != id
    ensures FindRow(rows, id) == Some(rows[k])
  {
    if k > 0 {
      assert rows[0].id != id;
      assert forall j :: 0 <= j < k - 1 ==> rows[1..][j] == rows[j + 1];
      FindRowFirst(rows[1..], id, k - 1);
    }
  }

  function TakeSnapshot(st: DistState): Snapshot {
    Snapshot(st.data, if st.selected.Some? then Some(st.selected.value.id) else None)
  }

  /** `s.selectedId ? s.data.find(...) : null`; an id of 0 reads as no selection. */
  function ResolveRow(rows: seq<Row>, sid: Option<nat>): Option<Row> {
    if sid.Some? && sid.value != 0 then FindRow(rows, sid.value) else None
  }

  /** `applySnapshot(s)`: rows replaced, selection looked up again, checkboxes cleared. */
  function ApplySnapshot(st: DistState, snap: Snapshot): DistState {
    st.(data := snap.data, selected := ResolveRow(snap.data, snap.selectedId), selectedIds := {})
  }

  /** The log half of `commit(label, fn)`. */
  function Commit(st: DistState): DistState {
    st.(history := History.Record(st.history, TakeSnapshot(st)))
  }

  function Undo(st: DistState): DistState {
    match History.Undo(st.history, TakeSnapshot(st))
    case None => st
    case Some(step) => Settle(ApplySnapshot(st.(history := step.log), step.restore))
  }

  function Redo(st: DistState): DistState {
    match History.Redo(st.history, TakeSnapshot(st))
    case None => st
    case Some(step) => Settle(ApplySnapshot(st.(history := step.log), step.restore))
  }

  // ------------------------------------------------------------------
  // Controls

  /** Changing the date window; the page effect puts the table back on page one. */
  function SetTimeframe(st: DistState, timeframe: string): DistState {
    if timeframe == st.timeframe then st else st.(timeframe := timeframe, page := 1)
  }

  function SetType(st: DistState, rowType: string): DistState {
    if rowType == st.rowType then st else st.(rowType := rowType, page := 1)
  }

  function SetStatus(st: DistState, status: string): DistState {
    if status == st.status then st else st.(status := status, page := 1)
  }

  function SetQuery(st: DistState, q: string): DistState {
    if q == st.q then st else st.(q := q, page := 1)
  }

  /** The previous-page button: `Math.max(1, p - 1)`. */
  function PrevPage(st: DistState): DistState {
    st.(page := if st.page - 1 < 1 then 1 else st.page - 1)
  }

  /** The next-page button: `Math.min(pageCount, p + 1)`. */
  function NextPage(st: DistState): DistState {
    st.(page := if st.page + 1 > PageCountOf(st) then PageCountOf(st) else st.page + 1)
  }

  /** A click on a row opens it in the details panel. */
  function SelectRow(st: DistState, r: Row): DistState {
    st.(selected := Some(r))
  }

  function ToggleId(st: DistState, id: nat, checked: bool): DistState {
    st.(selectedIds := if checked then st.selectedIds + {id} else st.selectedIds - {id})
  }

  /** `onSelectAll(checked)` over the rows of the current page. */
  function OnSelectAll(st: DistState, checked: bool): DistState {
    st.(selectedIds := if checked then (set r | r in VisibleOf(st) :: r.id) else {})
  }

  // ------------------------------------------------------------------
  // Updates of the rows

  /** `markPaid(row)`. */
  function MarkPaid(st: DistState, row: Row): DistState {
    Settle(Commit(st).(data := MarkIds(st.data, {row.id})))
  }

  /** `bulkMarkPaid()`; nothing happens when no box is ticked. */
  function BulkMarkPaid(st: DistState): DistState {
    if st.selectedIds == {} then st
    else Settle(Commit(st).(data := MarkIds(st.data, st.selectedIds), selectedIds := {}))
  }

  /** The step of the generator in months: one for "Monthly", three otherwise. */
  function StepOf(recFreq: string): nat {
    if recFreq == "Monthly" then 1 else 3
  }

  /** How many steps fit in the twelve-month window. */
  function CountOf(recFreq: string): nat {
    if recFreq == "Monthly" then 12 else 4
  }

  /** The date `i` months after the first of the current month, its day clamped to the month's length. */
  function PayDate(today: Date, i: int, recDay: int): Date {
    var m := MonthStart(MonthIndex(today) + i);
    var last := DaysInMonth(m.year, m.month);
    Date(m.year, m.month, if recDay < last then recDay else last)
  }

  /** The `k`-th row `generateNext` schedules; `clock` stands for `Date.now()`. */
  function ScheduleRow(today: Date, recFreq: string, recDay: int, recType: string, amount: Amount, clock: nat, k: nat): Row {
    Row(clock + k + 1, PayDate(today, k * StepOf(recFreq), recDay), amount, recType, "Scheduled")
  }

  function Schedule(today: Date, recFreq: string, recDay: int, recType: string, amount: Amount, clock: nat): seq<Row> {
    seq(CountOf(recFreq), k requires 0 <= k < CountOf(recFreq) => ScheduleRow(today, recFreq, recDay, recType, amount, clock, k))
  }

  /** `generateNext()`: the scheduled rows go after the existing ones in one commit. */
  function GenerateNext(st: DistState, recFreq: string, recDay: int, recType: string, amount: Amount, clock: nat): DistState {
    Settle(Commit(st).(data := st.data + Schedule(st.today, recFreq, recDay, recType, amount, clock)))
  }

  // ------------------------------------------------------------------
  // Downloads and exports

  function AddDownload(st: DistState, entry: Download): DistState {
    st.(downloads := PushDownload(st.downloads, entry))
  }

  /** `clearDownloads()`. */
  function ClearDownloads(st: DistState): DistState {
    st.(downloads := [])
  }

  /** `exportCSV(rows)`: the file `CsvText(rows, FilteredOf(st))` is offered under `url`. */
  function ExportCsv(st: DistState, rows: Option<seq<Row>>, url: string, createdAt: string): DistState {
    AddDownload(st, Download("distributions.csv", url, "text/csv", createdAt))
  }

  /** `exportICS(rows)`: the file `IcsText(rows, FilteredOf(st))` is offered under `url`. */
  function ExportIcs(st: DistState, rows: Option<seq<Row>>, url: string, createdAt: string): DistState {
    AddDownload(st, Download("distributions.ics", url, "text/calendar", createdAt))
  }

  /** `visible.filter((r) => selectedIds.has(r.id))`, what the bulk exports write. */
  function Ticked(rows: seq<Row>, ids: set<nat>): seq<Row> {
    if rows == [] then [] else (if rows[0].id in ids then [rows[0]] else []) + Ticked(rows[1..], ids)
  }

  // ------------------------------------------------------------------
  // What the handlers promise

  /** `commit`: one snapshot of the rows and the selected id is pushed and the redo branch is dropped. */
  lemma CommitPushesSnapshot(st: DistState)
    ensures Commit(st).history.past == st.history.past + [Snapshot(st.data, TakeSnapshot(st).selectedId)]
    ensures TakeSnapshot(st).selectedId.Some? <==> st.selected.Some?
    ensures Commit(st).history.future == []
    ensures Commit(st).data == st.data && Commit(st).page == st.page
  {
  }

  /** `undo`: no-op on an empty past; otherwise one snapshot moves from `past` to the live rows and the live one goes on `future`. */
  lemma UndoEffect(st: DistState)
    ensures |st.history.past| == 0 ==> Undo(st) == st
    ensures |st.history.past| > 0 ==>
      var prev := st.history.past[|st.history.past| - 1];
      && Undo(st).history.past == st.history.past[..|st.history.past| - 1]
      && Undo(st).history.future == st.history.future + [TakeSnapshot(st)]
      && Undo(st).data == prev.data
      && Undo(st).selected == ResolveRow(prev.data, prev.selectedId)
      && Undo(st).selectedIds == {}
  {
  }

  /** `redo`, the mirror image. */
  lemma RedoEffect(st: DistState)
    ensures |st.history.future| == 0 ==> Redo(st) == st
    ensures |st.history.future| > 0 ==>
      var next := st.history.future[|st.history.future| - 1];
      && Redo(st).history.future == st.history.future[..|st.history.future| - 1]
      && Redo(st).history.past == st.history.past + [TakeSnapshot(st)]
      && Redo(st).data == next.data
      && Redo(st).selected == ResolveRow(next.data, next.selectedId)
      && Redo(st).selectedIds == {}
  {
  }

  /** A restored selection is the row of the snapshot's rows carrying the saved id. */
  lemma ResolveRowFinds(rows: seq<Row>, sid: Option<nat>)
    ensures ResolveRow(rows, sid).Some? ==> ResolveRow(rows, sid).value in rows && sid == Some(ResolveRow(rows, sid).value.id)
    ensures ResolveRow(rows, sid).None? <==>
      sid.None? || sid.value == 0 || forall k :: 0 <= k < |rows| ==> rows[k].id != sid.value
  {
  }

  /** Undo followed by redo, with no commit between them, gives back the rows, the selected id and the log. */
  lemma UndoThenRedo(st: DistState)
    requires |st.history.past| > 0
    requires var prev := st.history.past[|st.history.past| - 1];
      prev.selectedId.Some? ==> prev.selectedId.value != 0 && FindRow(prev.data, prev.selectedId.value).Some?
    requires st.selected.Some? ==> st.selected.value.id != 0 && FindRow(st.data, st.selected.value.id).Some?
    ensures Redo(Undo(st)).data == st.data
    ensures TakeSnapshot(Redo(Undo(st))) == TakeSnapshot(st)
    ensures Redo(Undo(st)).history == st.history
  {
    var cur := TakeSnapshot(st);
    History.UndoThenRedo(st.history, cur);
    var step := History.Undo(st.history, cur).value;
    var u := Undo(st);
    assert TakeSnapshot(u) == step.restore;
    assert History.Redo(u.history, TakeSnapshot(u)) == Some(History.Step(st.history, cur));
  }

  /** Redo followed by undo likewise gives back the rows, the selected id and the log. */
  lemma RedoThenUndo(st: DistState)
    requires |st.history.future| > 0
    requires var next := st.history.future[|st.history.future| - 1];
      next.selectedId.Some? ==> next.selectedId.value != 0 && FindRow(next.data, next.selectedId.value).Some?
    requires st.selected.Some? ==> st.selected.value.id != 0 && FindRow(st.data, st.selected.value.id).Some?
    ensures Undo(Redo(st)).data == st.data
    ensures TakeSnapshot(Undo(Redo(st))) == TakeSnapshot(st)
    ensures Undo(Redo(st)).history == st.history
  {
    var cur := TakeSnapshot(st);
    History.RedoThenUndo(st.history, cur);
    var step := History.Redo(st.history, cur).value;
    var r := Redo(st);
    assert TakeSnapshot(r) == step.restore;
  }

  /** Marking paid changes only statuses, only of the chosen rows, and pushes one snapshot. */
  lemma MarkPaidEffect(st: DistState, row: Row)
    ensures |MarkPaid(st, row).data| == |st.data|
    ensures forall k :: 0 <= k < |st.data| ==>
      MarkPaid(st, row).data[k] == if st.data[k].id == row.id then Paid(st.data[k]) else st.data[k]
    ensures MarkPaid(st, row).history.past == st.history.past + [TakeSnapshot(st)]
    ensures MarkPaid(MarkPaid(st, row), row).data == MarkPaid(st, row).data
  {
    MarkIdsIdempotent(st.data, {row.id});
  }

  lemma BulkMarkPaidEffect(st: DistState)
    ensures st.selectedIds == {} ==> BulkMarkPaid(st) == st
    ensures st.selectedIds != {} ==>
      && BulkMarkPaid(st).data == MarkIds(st.data, st.selectedIds)
      && BulkMarkPaid(st).selectedIds == {}
      && BulkMarkPaid(st).history.past == st.history.past + [TakeSnapshot(st)]
      && BulkMarkPaid(st).history.future == []
  {
  }

  /** After a bulk mark, marking the same rows again changes no row. */
  lemma BulkMarkPaidIdempotent(st: DistState, ids: set<nat>)
    requires st.selectedIds == ids && ids != {}
    ensures MarkIds(BulkMarkPaid(st).data, ids) == BulkMarkPaid(st).data
  {
    MarkIdsIdempotent(st.data, ids);
  }

  /** The clamp effect leaves a page from one on in range. */
  lemma SettleInRange(st: DistState)
    requires st.page >= 1
    ensures PageInRange(Settle(st))
    ensures PageInRange(st) ==> Settle(st) == st
  {
    PageCountIsCeiling(|FilteredOf(st)|);
  }

  /** A change of the window, a filter or the query puts the table on page one, which always exists. */
  lemma ControlsResetPage(st: DistState, value: string)
    ensures value != st.timeframe ==> SetTimeframe(st, value).page == 1 && PageInRange(SetTimeframe(st, value))
    ensures value != st.rowType ==> SetType(st, value).page == 1 && PageInRange(SetType(st, value))
    ensures value != st.status ==> SetStatus(st, value).page == 1 && PageInRange(SetStatus(st, value))
    ensures value != st.q ==> SetQuery(st, value).page == 1 && PageInRange(SetQuery(st, value))
  {
    PageCountIsCeiling(|FilteredOf(SetTimeframe(st, value))|);
    PageCountIsCeiling(|FilteredOf(SetType(st, value))|);
    PageCountIsCeiling(|FilteredOf(SetStatus(st, value))|);
    PageCountIsCeiling(|FilteredOf(SetQuery(st, value))|);
  }

  /** The page buttons never leave the range of pages. */
  lemma PageButtonsStayInRange(st: DistState)
    requires PageInRange(st)
    ensures PageInRange(PrevPage(st)) && PageInRange(NextPage(st))
    ensures st.page > 1 ==> PrevPage(st).page == st.page - 1
    ensures st.page < PageCountOf(st) ==> NextPage(st).page == st.page + 1
  {
  }

  /** Every handler that changes the rows ends with the page in range: marking one row paid, */
  lemma MarkPaidKeepsPage(st: DistState, row: Row)
    requires PageInRange(st)
    ensures PageInRange(MarkPaid(st, row))
  {
    SettleInRange(Commit(st).(data := MarkIds(st.data, {row.id})));
  }

  /** marking the ticked rows paid, */
  lemma BulkMarkPaidKeepsPage(st: DistState)
    requires PageInRange(st)
    ensures PageInRange(BulkMarkPaid(st))
  {
    SettleInRange(Commit(st).(data := MarkIds(st.data, st.selectedIds), selectedIds := {}));
  }

  /** scheduling rows, */
  lemma GenerateNextKeepsPage(st: DistState, recFreq: string, recDay: int, recType: string, amount: Amount, clock: nat)
    requires PageInRange(st)
    ensures PageInRange(GenerateNext(st, recFreq, recDay, recType, amount, clock))
  {
    SettleInRange(Commit(st).(data := st.data + Schedule(st.today, recFreq, recDay, recType, amount, clock)));
  }

  /** and undo and redo. */
  lemma UndoRedoKeepPage(st: DistState)
    requires PageInRange(st)
    ensures PageInRange(Undo(st)) && PageInRange(Redo(st))
  {
    var cur := TakeSnapshot(st);
    if |st.history.past| > 0 {
      var step := History.Undo(st.history, cur).value;
      SettleInRange(ApplySnapshot(st.(history := step.log), step.restore));
    }
    if |st.history.future| > 0 {
      var step := History.Redo(st.history, cur).value;
      SettleInRange(ApplySnapshot(st.(history := step.log), step.restore));
    }
  }

  /** The generator's rows: twelve monthly or four quarterly, from the current month, ids counting up from the clock. */
  lemma ScheduleShape(today: Date, recFreq: string, recDay: int, recType: string, amount: Amount, clock: nat)
    ensures var rows := Schedule(today, recFreq, recDay, recType, amount, clock);
      && |rows| == (if recFreq == "Monthly" then 12 else 4)
      && forall k :: 0 <= k < |rows| ==>
           && rows[k].id == clock + k + 1
           && rows[k].status == "Scheduled" && rows[k].rowType == recType && rows[k].amount == amount
           && MonthIndex(rows[k].date) == MonthIndex(today) + k * (if recFreq == "Monthly" then 1 else 3)
           && 1 <= rows[k].date.month <= 12
           && rows[k].date.day == (if recDay < DaysInMonth(rows[k].date.year, rows[k].date.month)
                                   then recDay else DaysInMonth(rows[k].date.year, rows[k].date.month))
  {
  }

  /** The scheduled dates strictly increase, and so do the ids. */
  lemma ScheduleIncreasing(today: Date, recFreq: string, recDay: int, recType: string, amount: Amount, clock: nat)
    ensures var rows := Schedule(today, recFreq, recDay, recType, amount, clock);
      forall i, j :: 0 <= i < j < |rows| ==> Before(rows[i].date, rows[j].date) && rows[i].id < rows[j].id
  {
    var rows := Schedule(today, recFreq, recDay, recType, amount, clock);
    forall i, j | 0 <= i < j < |rows| ensures Before(rows[i].date, rows[j].date) {
      var s := StepOf(recFreq);
      assert i * s < j * s;
      LaterMonthIsLater(rows[i].date, rows[j].date);
    }
  }

  /** For example, day 31 asked in January 2025: January 31, then February 28, then March 31. */
  lemma ScheduleClampsDay(amount: Amount)
    ensures var rows := Schedule(Date(2025, 1, 15), "Monthly", 31, "Cash", amount, 0);
      rows[0].date == Date(2025, 1, 31) && rows[1].date == Date(2025, 2, 28) && rows[2].date == Date(2025, 3, 31)
  {
    var today := Date(2025, 1, 15);
    assert MonthIndex(today) == 24300;
    assert MonthStart(24300) == Date(2025, 1, 1);
    assert MonthStart(24301) == Date(2025, 2, 1);
    assert MonthStart(24302) == Date(2025, 3, 1);
    assert !IsLeapYear(2025);
  }

  /** Quarterly from November 2025 crosses into the next year: February 28 and August 30 of 2026. */
  lemma ScheduleCrossesYear(amount: Amount)
    ensures var rows := Schedule(Date(2025, 11, 2), "Quarterly", 30, "Cash", amount, 0);
      |rows| == 4 && rows[1].date == Date(2026, 2, 28) && rows[3].date == Date(2026, 8, 30)
  {
    var today := Date(2025, 11, 2);
    assert MonthIndex(today) == 24310;
    assert MonthStart(24313) == Date(2026, 2, 1);
    assert MonthStart(24319) == Date(2026, 8, 1);
    assert !IsLeapYear(2026);
  }

  /** `generateNext` appends the scheduled rows after the existing ones and pushes one snapshot. */
  lemma GenerateNextAppends(st: DistState, recFreq: string, recDay: int, recType: string, amount: Amount, clock: nat)
    ensures var r := GenerateNext(st, recFreq, recDay, recType, amount, clock);
      && r.data[..|st.data|] == st.data
      && r.data[|st.data|..] == Schedule(st.today, recFreq, recDay, recType, amount, clock)
      && r.history.past == st.history.past + [TakeSnapshot(st)]
      && r.history.future == []
  {
    var r := GenerateNext(st, recFreq, recDay, recType, amount, clock);
    assert r.data == st.data + Schedule(st.today, recFreq, recDay, recType, amount, clock);
  }

  /** The download center keeps the newest twelve files, newest first; clearing empties it. */
  lemma DownloadsBounded(st: DistState, rows: Option<seq<Row>>, url: string, createdAt: string)
    ensures var r := ExportCsv(st, rows, url, createdAt);
      && |r.downloads| <= MaxDownloads
      && r.downloads[0] == Download("distributions.csv", url, "text/csv", createdAt)
      && r.downloads[1..] == st.downloads[..|r.downloads| - 1]
    ensures var r := ExportIcs(st, rows, url, createdAt);
      && |r.downloads| <= MaxDownloads
      && r.downloads[0] == Download("distributions.ics", url, "text/calendar", createdAt)
      && r.downloads[1..] == st.downloads[..|r.downloads| - 1]
    ensures ClearDownloads(st).downloads == []
    ensures ExportCsv(st, rows, url, createdAt).data == st.data && ExportCsv(st, rows, url, createdAt).history == st.history
    ensures ExportIcs(st, rows, url, createdAt).data == st.data && ExportIcs(st, rows, url, createdAt).history == st.history
  {
    PushDownloadBounded(st.downloads, Download("distributions.csv", url, "text/csv", createdAt));
    PushDownloadBounded(st.downloads, Download("distributions.ics", url, "text/calendar", createdAt));
  }

  lemma {:induction false} TickedMembers(rows: seq<Row>, ids: set<nat>, r: Row)
    ensures r in Ticked(rows, ids) <==> r in rows && r.id in ids
  {
    if rows != [] {
      TickedMembers(rows[1..], ids, r);
      assert rows == [rows[0]] + rows[1..];
    }
  }

  /** The bulk exports write exactly the ticked rows of the current page. */
  lemma BulkExportRows(st: DistState, r: Row)
    ensures r in Ticked(VisibleOf(st), st.selectedIds) <==> r in VisibleOf(st) && r.id in st.selectedIds
  {
    TickedMembers(VisibleOf(st), st.selectedIds, r);
  }
}
