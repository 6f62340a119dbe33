/**
 * The Documents view as the component runs it: its state fields are updated
 * step by step by the handlers. Each method is specified by the value-level
 * handler of the same name in DocumentsModel, and the methods that move
 * records between the lists also keep ids unique.
 */
module DocumentsView {
  import opened Wrappers
  import opened Calendar
  import History
  import opened DocumentsModel

  /**
   * The loop of `restoreSelected`: one pass over the trash puts each record
   * into `move` when its id is ticked and into `keep` otherwise, both in
   * trash order.
   */
  method SplitTrash(prev: seq<Doc>, ids: set<Id>) returns (keep: seq<Doc>, move: seq<Doc>)
    ensures keep == DropIds(prev, ids) && move == KeepIds(prev, ids)
    ensures multiset(Ids(move)) + multiset(Ids(keep)) == multiset(Ids(prev))
  {
    keep := [];
    move := [];
    for i := 0 to |prev|
      invariant keep == DropIds(prev[..i], ids)
      invariant move == KeepIds(prev[..i], ids)
    {
      SplitStep(prev, i, ids);
      if prev[i].id in ids {
        move := move + [prev[i]];
      } else {
        keep := keep + [prev[i]];
      }
    }
    assert prev[..|prev|] == prev;
    IdsKeepDrop(prev, ids);
  }

  class DocumentsSection {
    var docs: seq<Doc>
    var trash: seq<Doc>
    var selectedDoc: Option<Doc>
    var selectedIds: set<Id>
    var selectedTrashIds: set<Id>
    var historyPast: seq<Snapshot>
    var historyFuture: seq<Snapshot>

    /** The fields read as one value. */
    function State(): DocsState
      reads this
    {
      DocsState(docs, trash, selectedDoc, selectedIds, selectedTrashIds, History.Log(historyPast, historyFuture))
    }

    /** The view mounts with the documents it is handed, an empty trash and an empty log. */
    constructor (initial: seq<Doc>)
      ensures State() == DocsState(initial, [], None, {}, {}, History.Log([], []))
    {
      docs := initial;
      trash := [];
      selectedDoc := None;
      selectedIds := {};
      selectedTrashIds := {};
      historyPast := [];
      historyFuture := [];
    }

    /** The log half of `commit`. */
    method Commit()
      modifies this
      ensures State() == DocumentsModel.Commit(old(State()))
    {
      historyPast := historyPast + [TakeSnapshot(State())];
      historyFuture := [];
    }

    method ApplySnapshot(snap: Snapshot)
      modifies this
      ensures State() == DocumentsModel.ApplySnapshot(old(State()), snap)
    {
      docs := snap.docs;
      trash := snap.trash;
      selectedDoc := Resolve(snap.docs, snap.selectedDocId);
      selectedIds := {};
      selectedTrashIds := {};
    }

    method Undo()
      modifies this
      ensures State() == DocumentsModel.Undo(old(State()))
    {
      if |historyPast| == 0 {
        return;
      }
      var curr := TakeSnapshot(State());
      var prev := historyPast[|historyPast| - 1];
      historyPast := historyPast[..|historyPast| - 1];
      historyFuture := historyFuture + [curr];
      ApplySnapshot(prev);
    }

    method Redo()
      modifies this
      ensures State() == DocumentsModel.Redo(old(State()))
    {
      if |historyFuture| == 0 {
        return;
      }
      var curr := TakeSnapshot(State());
      var next := historyFuture[|historyFuture| - 1];
      historyFuture := historyFuture[..|historyFuture| - 1];
      historyPast := historyPast + [curr];
      ApplySnapshot(next);
    }

    method ToggleId(id: Id, checked: bool)
      modifies this
      ensures State() == DocumentsModel.ToggleId(old(State()), id, checked)
    {
      if checked {
        selectedIds := selectedIds + {id};
      } else {
        selectedIds := selectedIds - {id};
      }
    }

    /** `onSelectAll`, where `visible` is the filtered list the view is showing. */
    method OnSelectAll(checked: bool, visible: seq<Doc>)
      modifies this
      ensures State() == DocumentsModel.OnSelectAll(old(State()), checked, visible)
    {
      if checked {
        selectedIds := set d | d in visible :: d.id;
      } else {
        selectedIds := {};
      }
    }

    method ToggleTrashId(id: Id, checked: bool)
      modifies this
      ensures State() == DocumentsModel.ToggleTrashId(old(State()), id, checked)
    {
      if checked {
        selectedTrashIds := selectedTrashIds + {id};
      } else {
        selectedTrashIds := selectedTrashIds - {id};
      }
    }

    method OnSelectAllTrash(checked: bool)
      modifies this
      ensures State() == DocumentsModel.OnSelectAllTrash(old(State()), checked)
    {
      if checked {
        selectedTrashIds := set d | d in trash :: d.id;
      } else {
        selectedTrashIds := {};
      }
    }

    method DeleteOne(id: Id, now: string)
      modifies this
      ensures State() == DocumentsModel.DeleteOne(old(State()), id, now)
      ensures Valid(old(State())) ==> Valid(State())
    {
      ghost var st := State();
      Commit();
      var target := FindById(docs, id);
      if target.Some? {
        trash := [Stamp(target.value, now)] + trash;
      }
      docs := RemoveId(docs, id);
      if selectedDoc.Some? && selectedDoc.value.id == id {
        selectedDoc := None;
      }
      selectedIds := selectedIds - {id};
      if Valid(st) {
        DeleteOneConserves(st, id, now);
      }
    }

    method OnDeleteSelected(now: string)
      modifies this
      ensures State() == DocumentsModel.OnDeleteSelected(old(State()), now)
      ensures Valid(old(State())) ==> Valid(State())
    {
      if selectedIds == {} {
        return;
      }
      ghost var st := State();
      Commit();
      var toMove := KeepIds(docs, selectedIds);
      trash := StampAll(toMove, now) + trash;
      docs := DropIds(docs, selectedIds);
      if selectedDoc.Some? && selectedDoc.value.id in selectedIds {
        selectedDoc := None;
      }
      selectedIds := {};
      OnDeleteSelectedConserves(st, now);
    }

    method RestoreOne(id: Id)
      modifies this
      ensures State() == DocumentsModel.RestoreOne(old(State()), id)
      ensures Valid(old(State())) ==> Valid(State())
    {
      ghost var st := State();
      Commit();
      var item := FindById(trash, id);
      if item.Some? {
        docs := [item.value] + docs;
      }
      trash := RemoveId(trash, id);
      selectedTrashIds := selectedTrashIds - {id};
      if Valid(st) {
        RestoreOneConserves(st, id);
      }
    }

    /** `restoreSelected`. */
    method RestoreSelected()
      modifies this
      ensures State() == DocumentsModel.RestoreSelected(old(State()))
      ensures Valid(old(State())) ==> Valid(State())
    {
      if selectedTrashIds == {} {
        return;
      }
      ghost var st := State();
      Commit();
      var keep, move := SplitTrash(trash, selectedTrashIds);
      docs := move + docs;
      trash := keep;
      selectedTrashIds := {};
      RestoreSelectedConserves(st);
    }

    method DeletePermanentOne(id: Id)
      modifies this
      ensures State() == DocumentsModel.DeletePermanentOne(old(State()), id)
      ensures Valid(old(State())) ==> Valid(State())
    {
      ghost var st := State();
      Commit();
      trash := RemoveId(trash, id);
      selectedTrashIds := selectedTrashIds - {id};
      if Valid(st) {
        PurgeOneKeepsValid(st, id);
      }
    }

    method DeletePermanentSelected()
      modifies this
      ensures State() == DocumentsModel.DeletePermanentSelected(old(State()))
      ensures Valid(old(State())) ==> Valid(State())
    {
      if selectedTrashIds == {} {
        return;
      }
      ghost var st := State();
      Commit();
      trash := DropIds(trash, selectedTrashIds);
      selectedTrashIds := {};
      if Valid(st) {
        PurgeSelectedKeepsValid(st);
      }
    }

    method EmptyTrash()
      modifies this
      ensures State() == DocumentsModel.EmptyTrash(old(State()))
      ensures Valid(old(State())) ==> Valid(State())
    {
      if trash == [] {
        return;
      }
      ghost var st := State();
      Commit();
      trash := [];
      if Valid(st) {
        EmptyTrashKeepsValid(st);
      }
    }

    /** `onFilesAdded`, with `clock` for `Date.now()` and `today` for the upload date. */
    method OnFilesAdded(files: seq<FileInfo>, clock: nat, today: Date)
      modifies this
      ensures State() == DocumentsModel.OnFilesAdded(old(State()), files, clock, today)
    {
      if files == [] {
        return;
      }
      var added := Uploaded(files, clock, today);
      Commit();
      docs := added + docs;
    }
  }
}
