/**
 * The Distributions view as the component runs it: its state fields are
 * updated step by step by the handlers, and the page effect runs after each
 * of them. Each method is specified by the value-level handler of the same
 * name in DistributionsModel; `generateNext` keeps its counting loop.
 */
module DistributionsView {
  import opened Wrappers
  import opened Calendar
  import opened DistRows
  import opened DistQuery
  import opened DistExport
  import opened DistributionsModel
  import History

  /**
   * The loop of `generateNext`: from the first of the current month, one row
   * every `step` months while fewer than twelve months are covered, each with
   * the next id after `clock`.
   */
  method GenerateRows(today: Date, recFreq: string, recDay: int, recType: string, amount: Amount, clock: nat)
    returns (rows: seq<Row>)
    ensures rows == Schedule(today, recFreq, recDay, recType, amount, clock)
  {
    var months := 12;
    var step := if recFreq == "Monthly" then 1 else 3;
    var start := MonthIndex(Date(today.year, today.month, 1));
    var idSeed := clock;
    rows := [];
    var i := 0;
    while i < months
      invariant step == StepOf(recFreq)
      invariant step == 1 ==> i == |rows|
      invariant step == 3 ==> i == 3 * |rows|
      invariant |rows| <= CountOf(recFreq)
      invariant idSeed == clock + |rows|
      invariant forall k :: 0 <= k < |rows| ==> rows[k] == ScheduleRow(today, recFreq, recDay, recType, amount, clock, k)
      decreases months - i
    {
      var dt := MonthStart(start + i);
      var last := DaysInMonth(dt.year, dt.month);
      var day := if recDay < last then recDay else last;
      idSeed := idSeed + 1;
      rows := rows + [Row(idSeed, Date(dt.year, dt.month, day), amount, recType, "Scheduled")];
      i := i + step;
    }
  }

  class DistributionsSection {
    const today: Date
    var data: seq<Row>
    var timeframe: string
    var rowType: string
    var status: string
    var q: string
    var page: int
    var selected: Option<Row>
    var selectedIds: set<nat>
    var historyPast: seq<Snapshot>
    var historyFuture: seq<Snapshot>
    var downloads: seq<Download>

    /** The fields read as one value. */
    function State(): DistState
      reads this
    {
      DistState(today, data, timeframe, rowType, status, q, page, selected, selectedIds,
                History.Log(historyPast, historyFuture), downloads)
    }

    /** The view mounts on `today` with the seed rows. */
    constructor (today: Date, seed: seq<Row>)
      ensures State() == Init(today, seed)
      ensures PageInRange(State())
    {
      this.today := today;
      data := seed;
      timeframe := "YTD";
      rowType := "All";
      status := "All";
      q := "";
      page := 1;
      selected := None;
      selectedIds := {};
      historyPast := [];
      historyFuture := [];
      downloads := [];
      new;
      PageCountIsCeiling(|FilteredOf(State())|);
    }

    /** The page effect: a page past the last one is pulled back. */
    method SyncPage()
      modifies this
      ensures State() == Settle(old(State()))
    {
      var count := PageCount(|Filtered(data, today, timeframe, rowType, status, q)|);
      if page > count {
        page := count;
      }
    }

    method Commit()
      modifies this
      ensures State() == DistributionsModel.Commit(old(State()))
    {
      historyPast := historyPast + [TakeSnapshot(State())];
      historyFuture := [];
    }

    method ApplySnapshot(snap: Snapshot)
      modifies this
      ensures State() == DistributionsModel.ApplySnapshot(old(State()), snap)
    {
      data := snap.data;
      selected := ResolveRow(snap.data, snap.selectedId);
      selectedIds := {};
    }

    method Undo()
      modifies this
      ensures State() == DistributionsModel.Undo(old(State()))
      ensures PageInRange(old(State())) ==> PageInRange(State())
    {
      ghost var st := State();
      if |historyPast| == 0 {
        return;
      }
      var curr := TakeSnapshot(State());
      var prev := historyPast[|historyPast| - 1];
      historyPast := historyPast[..|historyPast| - 1];
      historyFuture := historyFuture + [curr];
      ApplySnapshot(prev);
      SyncPage();
      if PageInRange(st) {
        UndoRedoKeepPage(st);
      }
    }

    method Redo()
      modifies this
      ensures State() == DistributionsModel.Redo(old(State()))
      ensures PageInRange(old(State())) ==> PageInRange(State())
    {
      ghost var st := State();
      if |historyFuture| == 0 {
        return;
      }
      var curr := TakeSnapshot(State());
      var next := historyFuture[|historyFuture| - 1];
      historyFuture := historyFuture[..|historyFuture| - 1];
      historyPast := historyPast + [curr];
      ApplySnapshot(next);
      SyncPage();
      if PageInRange(st) {
        UndoRedoKeepPage(st);
      }
    }

    method SetTimeframe(value: string)
      modifies this
      ensures State() == DistributionsModel.SetTimeframe(old(State()), value)
    {
      if value != timeframe {
        timeframe := value;
        page := 1;
      }
    }

    method SetType(value: string)
      modifies this
      ensures State() == DistributionsModel.SetType(old(State()), value)
    {
      if value != rowType {
        rowType := value;
        page := 1;
      }
    }

    method SetStatus(value: string)
      modifies this
      ensures State() == DistributionsModel.SetStatus(old(State()), value)
    {
      if value != status {
        status := value;
        page := 1;
      }
    }

    method SetQuery(value: string)
      modifies this
      ensures State() == DistributionsModel.SetQuery(old(State()), value)
    {
      if value != q {
        q := value;
        page := 1;
      }
    }

    method PrevPage()
      modifies this
      ensures State() == DistributionsModel.PrevPage(old(State()))
    {
      page := if page - 1 < 1 then 1 else page - 1;
    }

    method NextPage()
      modifies this
      ensures State() == DistributionsModel.NextPage(old(State()))
    {
      var count := PageCount(|Filtered(data, today, timeframe, rowType, status, q)|);
      page := if page + 1 > count then count else page + 1;
    }

    method SelectRow(r: Row)
      modifies this
      ensures State() == DistributionsModel.SelectRow(old(State()), r)
    {
      selected := Some(r);
    }

    method ToggleId(id: nat, checked: bool)
      modifies this
      ensures State() == DistributionsModel.ToggleId(old(State()), id, checked)
    {
      if checked {
        selectedIds := selectedIds + {id};
      } else {
        selectedIds := selectedIds - {id};
      }
    }

    method OnSelectAll(checked: bool)
      modifies this
      ensures State() == DistributionsModel.OnSelectAll(old(State()), checked)
    {
      if checked {
        var visible := Visible(Filtered(data, today, timeframe, rowType, status, q), page);
        selectedIds := set r | r in visible :: r.id;
      } else {
        selectedIds := {};
      }
    }

    method MarkPaid(row: Row)
      modifies this
      ensures State() == DistributionsModel.MarkPaid(old(State()), row)
      ensures PageInRange(old(State())) ==> PageInRange(State())
    {
      ghost var st := State();
      Commit();
      data := MarkIds(data, {row.id});
      SyncPage();
      if PageInRange(st) {
        MarkPaidKeepsPage(st, row);
      }
    }

    method BulkMarkPaid()
      modifies this
      ensures State() == DistributionsModel.BulkMarkPaid(old(State()))
      ensures PageInRange(old(State())) ==> PageInRange(State())
    {
      if selectedIds == {} {
        return;
      }
      ghost var st := State();
      Commit();
      data := MarkIds(data, selectedIds);
      selectedIds := {};
      assert State() == DistributionsModel.Commit(st).(data := MarkIds(st.data, st.selectedIds), selectedIds := {});
      SyncPage();
      if PageInRange(st) {
        BulkMarkPaidKeepsPage(st);
      }
    }

    /** `generateNext()` with the editor's frequency, day, type and amount; `clock` stands for `Date.now()`. */
    method GenerateNext(recFreq: string, recDay: int, recType: string, amount: Amount, clock: nat)
      modifies this
      ensures State() == DistributionsModel.GenerateNext(old(State()), recFreq, recDay, recType, amount, clock)
      ensures PageInRange(old(State())) ==> PageInRange(State())
    {
      ghost var st := State();
      var rows := GenerateRows(today, recFreq, recDay, recType, amount, clock);
      Commit();
      data := data + rows;
      SyncPage();
      if PageInRange(st) {
        GenerateNextKeepsPage(st, recFreq, recDay, recType, amount, clock);
      }
    }

    /** `clearDownloads()`. */
    method ClearDownloads()
      modifies this
      ensures State() == DistributionsModel.ClearDownloads(old(State()))
    {
      downloads := [];
    }

    /** `exportCSV(rows)`: returns the file's text; `url` and `createdAt` stand for the object URL and the clock. */
    method ExportCsv(rows: Option<seq<Row>>, url: string, createdAt: string) returns (csv: string)
      modifies this
      ensures csv == CsvText(rows, FilteredOf(old(State())))
      ensures State() == DistributionsModel.ExportCsv(old(State()), rows, url, createdAt)
    {
      csv := CsvText(rows, Filtered(data, today, timeframe, rowType, status, q));
      downloads := PushDownload(downloads, Download("distributions.csv", url, "text/csv", createdAt));
    }

    /** `exportICS(rows)`: returns the file's text. */
    method ExportIcs(rows: Option<seq<Row>>, url: string, createdAt: string) returns (ics: string)
      modifies this
      ensures ics == IcsText(rows, FilteredOf(old(State())))
      ensures State() == DistributionsModel.ExportIcs(old(State()), rows, url, createdAt)
    {
      ics := IcsText(rows, Filtered(data, today, timeframe, rowType, status, q));
      downloads := PushDownload(downloads, Download("distributions.ics", url, "text/calendar", createdAt));
    }

    /** `bulkExportCSV()`: the ticked rows of the current page. */
    method BulkExportCsv(url: string, createdAt: string) returns (csv: string)
      modifies this
      ensures csv == CsvText(Some(Ticked(VisibleOf(old(State())), old(selectedIds))), FilteredOf(old(State())))
      ensures State() == DistributionsModel.ExportCsv(old(State()), Some(Ticked(VisibleOf(old(State())), old(selectedIds))), url, createdAt)
    {
      var visible := Visible(Filtered(data, today, timeframe, rowType, status, q), page);
      csv := ExportCsv(Some(Ticked(visible, selectedIds)), url, createdAt);
    }
  }
}
