/**
 * The Documents view's state container as values. The state is the live
 * document list (kept by the App component and handed down as `allDocs` /
 * `setDocs`), the trash, the selected document, the two checkbox selections
 * and the undo/redo log. Each handler is a function from the state before to
 * the state after; DocumentsView.DocumentsSection performs the same steps in
 * place and is specified by these functions.
 */
module DocumentsModel {
  import opened Wrappers
  import opened Text
  import opened Calendar
  import History

  type Id = nat

  datatype Doc = Doc(
    id: Id, name: string, docType: string, size: string, updated: Date,
    owner: string, tags: seq<string>, status: string,
    url: Option<string>, deletedAt: Option<string>)

  /** A dropped or picked file: its name and its size as `prettySize` printed it. */
  datatype FileInfo = FileInfo(name: string, size: string)

  /** What `snapshot()` records: both lists and the id of the selected document. */
  datatype Snapshot = Snapshot(docs: seq<Doc>, trash: seq<Doc>, selectedDocId: Option<Id>)

  datatype DocsState = DocsState(
    docs: seq<Doc>, trash: seq<Doc>, selectedDoc: Option<Doc>,
    selectedIds: set<Id>, selectedTrashIds: set<Id>,
    history: History.Log<Snapshot>)

  // ------------------------------------------------------------------
  // List helpers: the `find`, `filter` and spread expressions of the handlers

  /** `list.find((d) => d.id === id)`. */
  function FindById(s: seq<Doc>, id: Id): (r: Option<Doc>)
    ensures r.Some? ==> r.value in s && r.value.id == id
    ensures r.None? <==> forall k :: 0 <= k < |s| ==> s[k].id != id
  {
    if s == [] then None
    else if s[0].id == id then Some(s[0])
    else FindById(s[1..], id)
  }

  /** `list.filter((d) => d.id !== id)`. */
  function RemoveId(s: seq<Doc>, id: Id): seq<Doc> {
    if s == [] then [] else (if s[0].id == id then [] else [s[0]]) + RemoveId(s[1..], id)
  }

  /** `list.filter((d) => ids.has(d.id))`. */
  function KeepIds(s: seq<Doc>, ids: set<Id>): seq<Doc> {
    if s == [] then [] else (if s[0].id in ids then [s[0]] else []) + KeepIds(s[1..], ids)
  }

  /** `list.filter((d) => !ids.has(d.id))`. */
  function DropIds(s: seq<Doc>, ids: set<Id>): seq<Doc> {
    if s == [] then [] else (if s[0].id in ids then [] else [s[0]]) + DropIds(s[1..], ids)
  }

  /** `{ ...d, deletedAt: now }`. */
  function Stamp(d: Doc, now: string): Doc {
    d.(deletedAt := Some(now))
  }

  function StampAll(s: seq<Doc>, now: string): seq<Doc> {
    if s == [] then [] else [Stamp(s[0], now)] + StampAll(s[1..], now)
  }

  function Ids(s: seq<Doc>): seq<Id> {
    if s == [] then [] else [s[0].id] + Ids(s[1..])
  }

  predicate NoDups(s: seq<Id>) {
    forall i, j :: 0 <= i < j < |s| ==> s[i] != s[j]
  }

  /** The invariant the handlers keep: no id occurs twice among the documents and the trash. */
  predicate Valid(st: DocsState) {
    NoDups(Ids(st.docs + st.trash))
  }

  // ------------------------------------------------------------------
  // Facts about the helpers

  lemma {:induction false} IdsAppend(a: seq<Doc>, b: seq<Doc>)
    ensures Ids(a + b) == Ids(a) + Ids(b)
  {
    if a != [] {
      assert (a + b)[0] == a[0] && (a + b)[1..] == a[1..] + b;
      IdsAppend(a[1..], b);
    } else {
      assert a + b == b;
    }
  }

  lemma {:induction false} IdsStampAll(s: seq<Doc>, now: string)
    ensures Ids(StampAll(s, now)) == Ids(s)
  {
    if s != [] {
      IdsStampAll(s[1..], now);
    }
  }

  lemma {:induction false} IdsKeepDrop(s: seq<Doc>, ids: set<Id>)
    ensures multiset(Ids(KeepIds(s, ids))) + multiset(Ids(DropIds(s, ids))) == multiset(Ids(s))
  {
    if s != [] {
      IdsKeepDrop(s[1..], ids);
      var k := if s[0].id in ids then [s[0]] else [];
      var d := if s[0].id in ids then [] else [s[0]];
      IdsAppend(k, KeepIds(s[1..], ids));
      IdsAppend(d, DropIds(s[1..], ids));
    }
  }

  /** Removing an id drops every occurrence of it and nothing else. */
  lemma {:induction false} IdsRemoveId(s: seq<Doc>, id: Id)
    ensures multiset(Ids(RemoveId(s, id))) == multiset(Ids(s))[id := 0]
  {
    if s != [] {
      var rest := RemoveId(s[1..], id);
      IdsRemoveId(s[1..], id);
      var h := if s[0].id == id then [] else [s[0]];
      IdsAppend(h, rest);
      assert Ids(s) == [s[0].id] + Ids(s[1..]);
      assert multiset(Ids(s)) == multiset{s[0].id} + multiset(Ids(s[1..]));
      if s[0].id == id {
        assert Ids(h) == [];
      } else {
        assert Ids(h) == [s[0].id];
      }
      assert multiset(Ids(RemoveId(s, id))) == multiset(Ids(h)) + multiset(Ids(rest));
    }
  }

  /** Taking an id out of a duplicate-free list removes it from the id multiset once, if it was there. */
  lemma RemoveFound(s: seq<Doc>, id: Id)
    requires NoDups(Ids(s))
    ensures multiset(Ids(RemoveId(s, id))) + (if FindById(s, id).Some? then multiset{id} else multiset{})
         == multiset(Ids(s))
  {
    IdsRemoveId(s, id);
    if FindById(s, id).Some? {
      FoundIdOccurs(s, id);
      NoDupsCount(Ids(s), id);
      assert multiset(Ids(s))[id] == 1;
    } else {
      RemoveAbsent(s, id);
    }
  }

  lemma {:induction false} FoundIdOccurs(s: seq<Doc>, id: Id)
    requires FindById(s, id).Some?
    ensures multiset(Ids(s))[id] >= 1
  {
    if s[0].id != id {
      FoundIdOccurs(s[1..], id);
    }
  }

  lemma {:induction false} NoDupsCount(s: seq<Id>, x: Id)
    requires NoDups(s)
    ensures multiset(s)[x] <= 1
  {
    if s != [] {
      assert s == [s[0]] + s[1..];
      NoDupsCount(s[1..], x);
      if s[0] == x {
        assert x !in s[1..] by {
          forall j | 0 <= j < |s[1..]| ensures s[1..][j] != x {
            assert s[1..][j] == s[j + 1];
          }
        }
      }
    }
  }

  lemma CountsNoDups(s: seq<Id>)
    requires forall x :: multiset(s)[x] <= 1
    ensures NoDups(s)
  {
    forall i, j | 0 <= i < j < |s| ensures s[i] != s[j] {
      assert s == s[..j] + s[j..];
      assert s[i] in multiset(s[..j]);
      assert s[j] in multiset(s[j..]);
      assert multiset(s)[s[j]] == multiset(s[..j])[s[j]] + multiset(s[j..])[s[j]];
    }
  }

  /** Dropping ids from a duplicate-free list leaves it duplicate-free. */
  lemma SubMultisetNoDups(a: seq<Id>, b: seq<Id>)
    requires multiset(a) <= multiset(b) && NoDups(b)
    ensures NoDups(a)
  {
    forall x ensures multiset(a)[x] <= 1 {
      NoDupsCount(b, x);
    }
    CountsNoDups(a);
  }

  lemma PrefixNoDups(a: seq<Doc>, b: seq<Doc>)
    requires NoDups(Ids(a + b))
    ensures NoDups(Ids(a)) && NoDups(Ids(b))
  {
    IdsAppend(a, b);
    assert multiset(Ids(a + b)) == multiset(Ids(a)) + multiset(Ids(b));
    SubMultisetNoDups(Ids(a), Ids(a + b));
    SubMultisetNoDups(Ids(b), Ids(a + b));
  }

  /** `find` returns the first record carrying the id. */
  lemma {:induction false} FindByIdFirst(s: seq<Doc>, id: Id, k: nat)
    requires k < |s| && s[k].id == id
    requires forall j :: 0 <= j < k ==> s[j].id != id
    ensures FindById(s, id) == Some(s[k])
  {
    if k > 0 {
      assert s[0].id != id;
      assert forall j :: 0 <= j < k - 1 ==> s[1..][j] == s[j + 1];
      FindByIdFirst(s[1..], id, k - 1);
    }
  }

  lemma {:induction false} RemoveAbsent(s: seq<Doc>, id: Id)
    requires forall k :: 0 <= k < |s| ==> s[k].id != id
    ensures RemoveId(s, id) == s
  {
    if s != [] {
      RemoveAbsent(s[1..], id);
    }
  }

  /** Removing the id of `s[k]`, when no other record has it, takes out exactly that record; the others keep their order. */
  lemma {:induction false} RemoveIdAt(s: seq<Doc>, k: nat)
    requires k < |s|
    requires forall j :: 0 <= j < |s| && j != k ==> s[j].id != s[k].id
    ensures RemoveId(s, s[k].id) == s[..k] + s[k + 1..]
    ensures FindById(s, s[k].id) == Some(s[k])
  {
    if k == 0 {
      RemoveAbsent(s[1..], s[0].id);
    } else {
      assert s[1..][k - 1] == s[k];
      RemoveIdAt(s[1..], k - 1);
      assert s[..k] == [s[0]] + s[1..][..k - 1];
      assert s[k + 1..] == s[1..][k..];
    }
  }

  /** The one place uniqueness of ids is read off the id sequence. */
  lemma UniqueAt(s: seq<Doc>, k: nat)
    requires k < |s| && NoDups(Ids(s))
    ensures forall j :: 0 <= j < |s| && j != k ==> s[j].id != s[k].id
  {
    IdsAt(s);
    forall j | 0 <= j < |s| && j != k ensures s[j].id != s[k].id {
      assert Ids(s)[j] == s[j].id && Ids(s)[k] == s[k].id;
    }
  }

  lemma {:induction false} IdsAt(s: seq<Doc>)
    ensures |Ids(s)| == |s|
    ensures forall k :: 0 <= k < |s| ==> Ids(s)[k] == s[k].id
  {
    if s != [] {
      IdsAt(s[1..]);
    }
  }

  lemma {:induction false} KeepIdsAppend(a: seq<Doc>, b: seq<Doc>, ids: set<Id>)
    ensures KeepIds(a + b, ids) == KeepIds(a, ids) + KeepIds(b, ids)
    ensures DropIds(a + b, ids) == DropIds(a, ids) + DropIds(b, ids)
  {
    if a != [] {
      assert (a + b)[0] == a[0] && (a + b)[1..] == a[1..] + b;
      KeepIdsAppend(a[1..], b, ids);
    } else {
      assert a + b == b;
    }
  }

  /** The bodies of the `restoreSelected` loop: one more trash item goes to `move` or to `keep`. */
  lemma SplitStep(s: seq<Doc>, i: nat, ids: set<Id>)
    requires i < |s|
    ensures KeepIds(s[..i + 1], ids) == KeepIds(s[..i], ids) + (if s[i].id in ids then [s[i]] else [])
    ensures DropIds(s[..i + 1], ids) == DropIds(s[..i], ids) + (if s[i].id in ids then [] else [s[i]])
  {
    assert s[..i + 1] == s[..i] + [s[i]];
    KeepIdsAppend(s[..i], [s[i]], ids);
  }

  lemma {:induction false} KeepIdsMembers(s: seq<Doc>, ids: set<Id>, d: Doc)
    ensures d in KeepIds(s, ids) <==> d in s && d.id in ids
    ensures d in DropIds(s, ids) <==> d in s && d.id !in ids
  {
    if s != [] {
      KeepIdsMembers(s[1..], ids, d);
      assert s == [s[0]] + s[1..];
    }
  }

  lemma {:induction false} RemoveIdMembers(s: seq<Doc>, id: Id, d: Doc)
    ensures d in RemoveId(s, id) <==> d in s && d.id != id
  {
    if s != [] {
      RemoveIdMembers(s[1..], id, d);
      assert s == [s[0]] + s[1..];
    }
  }

  // ------------------------------------------------------------------
  // Snapshots and the log

  /** `snapshot()`. */
  function TakeSnapshot(st: DocsState): Snapshot {
    Snapshot(st.docs, st.trash, if st.selectedDoc.Some? then Some(st.selectedDoc.value.id) else None)
  }

  /** Whether a saved selection names a document `applySnapshot` can find again (an id of 0 reads as "none"). */
  predicate SelectionResolves(docs: seq<Doc>, sid: Option<Id>) {
    sid.None? || (sid.value != 0 && exists k :: 0 <= k < |docs| && docs[k].id == sid.value)
  }

  /** `s.selectedDocId ? s.docs.find(...) : null`, then `nextSel || null`. */
  function Resolve(docs: seq<Doc>, sid: Option<Id>): (r: Option<Doc>)
    ensures r.Some? ==> r.value in docs && sid == Some(r.value.id)
    ensures r.Some? <==> sid.Some? && SelectionResolves(docs, sid)
  {
    if sid.Some? && sid.value != 0 then FindById(docs, sid.value) else None
  }

  /** `applySnapshot(s)`: both lists replaced, selection looked up again, checkboxes cleared. */
  function ApplySnapshot(st: DocsState, snap: Snapshot): DocsState {
    st.(docs := snap.docs, trash := snap.trash,
        selectedDoc := Resolve(snap.docs, snap.selectedDocId),
        selectedIds := {}, selectedTrashIds := {})
  }

  /** The log half of `commit(label, fn)`; the handler applies its own change afterwards. */
  function Commit(st: DocsState): DocsState {
    st.(history := History.Record(st.history, TakeSnapshot(st)))
  }

  function Undo(st: DocsState): DocsState {
    match History.Undo(st.history, TakeSnapshot(st))
    case None => st
    case Some(step) => ApplySnapshot(st.(history := step.log), step.restore)
  }

  function Redo(st: DocsState): DocsState {
    match History.Redo(st.history, TakeSnapshot(st))
    case None => st
    case Some(step) => ApplySnapshot(st.(history := step.log), step.restore)
  }

  /** `commit`: exactly one snapshot of the pre-mutation lists and selection is pushed, and the redo branch is dropped. */
  lemma CommitPushesSnapshot(st: DocsState)
    ensures |Commit(st).history.past| == |st.history.past| + 1
    ensures Commit(st).history.past[..|st.history.past|] == st.history.past
    ensures Commit(st).history.past[|st.history.past|] == Snapshot(st.docs, st.trash, TakeSnapshot(st).selectedDocId)
    ensures TakeSnapshot(st).selectedDocId.Some? <==> st.selectedDoc.Some?
    ensures Commit(st).history.future == []
    ensures Commit(st).docs == st.docs && Commit(st).trash == st.trash
  {
    assert (st.history.past + [TakeSnapshot(st)])[..|st.history.past|] == st.history.past;
  }

  /** `applySnapshot`: lists replaced, the selection found again by its id or cleared, both checkbox sets emptied. */
  lemma ApplySnapshotEffect(st: DocsState, snap: Snapshot)
    ensures ApplySnapshot(st, snap).docs == snap.docs && ApplySnapshot(st, snap).trash == snap.trash
    ensures ApplySnapshot(st, snap).selectedDoc.Some? ==>
      ApplySnapshot(st, snap).selectedDoc.value in snap.docs &&
      snap.selectedDocId == Some(ApplySnapshot(st, snap).selectedDoc.value.id)
    ensures ApplySnapshot(st, snap).selectedDoc.None? <==>
      snap.selectedDocId.None? || !SelectionResolves(snap.docs, snap.selectedDocId)
    ensures ApplySnapshot(st, snap).selectedIds == {} && ApplySnapshot(st, snap).selectedTrashIds == {}
    ensures ApplySnapshot(st, snap).history == st.history
  {
  }

  /** `redo`: no-op on an empty future; otherwise pop one snapshot, push the current one on `past`, restore the popped one. */
  lemma RedoEffect(st: DocsState)
    ensures |st.history.future| == 0 ==> Redo(st) == st
    ensures |st.history.future| > 0 ==>
      var next := st.history.future[|st.history.future| - 1];
      && Redo(st).history.future == st.history.future[..|st.history.future| - 1]
      && Redo(st).history.past == st.history.past + [TakeSnapshot(st)]
      && Redo(st).docs == next.docs && Redo(st).trash == next.trash
      && Redo(st).selectedDoc == Resolve(next.docs, next.selectedDocId)
      && Redo(st).selectedIds == {} && Redo(st).selectedTrashIds == {}
  {
  }

  /** Restoring a snapshot and taking a new one gives it back exactly when its selection resolves. */
  lemma SnapshotOfApplied(st: DocsState, snap: Snapshot)
    ensures TakeSnapshot(ApplySnapshot(st, snap)) == snap <==> SelectionResolves(snap.docs, snap.selectedDocId)
  {
  }

  /** `undo`: no-op on an empty past; otherwise pop one snapshot, push the current one on `future`, restore the popped one. */
  lemma UndoEffect(st: DocsState)
    ensures |st.history.past| == 0 ==> Undo(st) == st
    ensures |st.history.past| > 0 ==>
      var prev := st.history.past[|st.history.past| - 1];
      && Undo(st).history.past == st.history.past[..|st.history.past| - 1]
      && Undo(st).history.future == st.history.future + [TakeSnapshot(st)]
      && Undo(st).docs == prev.docs && Undo(st).trash == prev.trash
      && Undo(st).selectedDoc == Resolve(prev.docs, prev.selectedDocId)
      && Undo(st).selectedIds == {} && Undo(st).selectedTrashIds == {}
  {
  }

  /**
   * Undo followed by redo, with no commit between them, gives back both lists,
   * the selected id and the whole log; only the checkbox selections are lost.
   */
  lemma UndoThenRedo(st: DocsState)
    requires |st.history.past| > 0
    requires SelectionResolves(st.history.past[|st.history.past| - 1].docs,
                               st.history.past[|st.history.past| - 1].selectedDocId)
    requires SelectionResolves(st.docs, TakeSnapshot(st).selectedDocId)
    ensures Redo(Undo(st)).docs == st.docs && Redo(Undo(st)).trash == st.trash
    ensures TakeSnapshot(Redo(Undo(st))) == TakeSnapshot(st)
    ensures Redo(Undo(st)).history == st.history
    ensures Redo(Undo(st)).selectedIds == {} && Redo(Undo(st)).selectedTrashIds == {}
  {
    var cur := TakeSnapshot(st);
    History.UndoThenRedo(st.history, cur);
    var step := History.Undo(st.history, cur).value;
    var u := Undo(st);
    assert u == ApplySnapshot(st.(history := step.log), step.restore);
    SnapshotOfApplied(st.(history := step.log), step.restore);
    assert TakeSnapshot(u) == step.restore;
    assert History.Redo(u.history, TakeSnapshot(u)) == Some(History.Step(st.history, cur));
    SnapshotOfApplied(u.(history := st.history), cur);
  }

  /** Redo followed by undo likewise gives back the lists, the selected id and the log. */
  lemma RedoThenUndo(st: DocsState)
    requires |st.history.future| > 0
    requires SelectionResolves(st.history.future[|st.history.future| - 1].docs,
                               st.history.future[|st.history.future| - 1].selectedDocId)
    requires SelectionResolves(st.docs, TakeSnapshot(st).selectedDocId)
    ensures Undo(Redo(st)).docs == st.docs && Undo(Redo(st)).trash == st.trash
    ensures TakeSnapshot(Undo(Redo(st))) == TakeSnapshot(st)
    ensures Undo(Redo(st)).history == st.history
  {
    var cur := TakeSnapshot(st);
    History.RedoThenUndo(st.history, cur);
    var step := History.Redo(st.history, cur).value;
    var r := Redo(st);
    SnapshotOfApplied(st.(history := step.log), step.restore);
    assert TakeSnapshot(r) == step.restore;
    SnapshotOfApplied(r.(history := st.history), cur);
  }

  /** Undo right after any committed handler brings back the lists as they were before it. */
  lemma UndoAfterCommit(before: DocsState, after: DocsState)
    requires after.history == History.Record(before.history, TakeSnapshot(before))
    ensures Undo(after).docs == before.docs && Undo(after).trash == before.trash
    ensures Undo(after).history == History.Log(before.history.past, [TakeSnapshot(after)])
  {
    assert (before.history.past + [TakeSnapshot(before)])[..|before.history.past|] == before.history.past;
  }

  // ------------------------------------------------------------------
  // Handlers

  /** `toggleId(id, checked)`. */
  function ToggleId(st: DocsState, id: Id, checked: bool): DocsState {
    st.(selectedIds := if checked then st.selectedIds + {id} else st.selectedIds - {id})
  }

  /** `onSelectAll(checked)` over the ids of the rows on screen. */
  function OnSelectAll(st: DocsState, checked: bool, visible: seq<Doc>): DocsState {
    st.(selectedIds := if checked then (set d | d in visible :: d.id) else {})
  }

  function ToggleTrashId(st: DocsState, id: Id, checked: bool): DocsState {
    st.(selectedTrashIds := if checked then st.selectedTrashIds + {id} else st.selectedTrashIds - {id})
  }

  function OnSelectAllTrash(st: DocsState, checked: bool): DocsState {
    st.(selectedTrashIds := if checked then (set d | d in st.trash :: d.id) else {})
  }

  /** `deleteOne(id)` at wall-clock time `now`. */
  function DeleteOne(st: DocsState, id: Id, now: string): DocsState {
    var target := FindById(st.docs, id);
    Commit(st).(
      docs := RemoveId(st.docs, id),
      trash := if target.Some? then [Stamp(target.value, now)] + st.trash else st.trash,
      selectedDoc := if st.selectedDoc.Some? && st.selectedDoc.value.id == id then None else st.selectedDoc,
      selectedIds := st.selectedIds - {id})
  }

  /** `onDeleteSelected()`; nothing at all happens when no box is ticked. */
  function OnDeleteSelected(st: DocsState, now: string): DocsState {
    if st.selectedIds == {} then st
    else
      Commit(st).(
        docs := DropIds(st.docs, st.selectedIds),
        trash := StampAll(KeepIds(st.docs, st.selectedIds), now) + st.trash,
        selectedDoc := if st.selectedDoc.Some? && st.selectedDoc.value.id in st.selectedIds then None else st.selectedDoc,
        selectedIds := {})
  }

  /** `restoreOne(id)`: the record goes back as it is, `deletedAt` included. */
  function RestoreOne(st: DocsState, id: Id): DocsState {
    var item := FindById(st.trash, id);
    Commit(st).(
      docs := if item.Some? then [item.value] + st.docs else st.docs,
      trash := RemoveId(st.trash, id),
      selectedTrashIds := st.selectedTrashIds - {id})
  }

  /** `restoreSelected()`. */
  function RestoreSelected(st: DocsState): DocsState {
    if st.selectedTrashIds == {} then st
    else
      Commit(st).(
        docs := KeepIds(st.trash, st.selectedTrashIds) + st.docs,
        trash := DropIds(st.trash, st.selectedTrashIds),
        selectedTrashIds := {})
  }

  /** `deletePermanentOne(id)`. */
  function DeletePermanentOne(st: DocsState, id: Id): DocsState {
    Commit(st).(trash := RemoveId(st.trash, id), selectedTrashIds := st.selectedTrashIds - {id})
  }

  /** `deletePermanentSelected()`. */
  function DeletePermanentSelected(st: DocsState): DocsState {
    if st.selectedTrashIds == {} then st
    else Commit(st).(trash := DropIds(st.trash, st.selectedTrashIds), selectedTrashIds := {})
  }

  /** `emptyTrash()`. */
  function EmptyTrash(st: DocsState): DocsState {
    if st.trash == [] then st else Commit(st).(trash := [])
  }

  /** `extToType(name)`: the type for the lower-cased text after the last dot. */
  function ExtToType(name: string): (t: string)
    ensures t in {"PDF", "XLSX", "DOCX", "PPTX"}
  {
    TypeForExtension(ToLower(AfterLast(name, '.')))
  }

  function TypeForExtension(ext: string): string {
    if ext == "pdf" then "PDF"
    else if ext == "xls" || ext == "xlsx" then "XLSX"
    else if ext == "doc" || ext == "docx" then "DOCX"
    else if ext == "ppt" || ext == "pptx" then "PPTX"
    else "PDF"
  }

  /** The record `onFilesAdded` makes for the `i`-th file; `clock` stands for `Date.now()`. */
  function NewDoc(f: FileInfo, clock: nat, i: nat, today: Date): Doc {
    Doc(clock + i, f.name, ExtToType(f.name), f.size, today, "You", ["Uploaded"], "Draft", None, None)
  }

  function Uploaded(files: seq<FileInfo>, clock: nat, today: Date): seq<Doc> {
    seq(|files|, i requires 0 <= i < |files| => NewDoc(files[i], clock, i, today))
  }

  /** `onFilesAdded(fileList)`. */
  function OnFilesAdded(st: DocsState, files: seq<FileInfo>, clock: nat, today: Date): DocsState {
    if files == [] then st
    else Commit(st).(docs := Uploaded(files, clock, today) + st.docs)
  }

  // ------------------------------------------------------------------
  // What the handlers promise

  /** `deleteOne`: the id leaves the list; a found record heads the trash, stamped and otherwise as it was. */
  lemma DeleteOneMoves(st: DocsState, id: Id, now: string)
    ensures forall d :: d in DeleteOne(st, id, now).docs <==> d in st.docs && d.id != id
    ensures FindById(st.docs, id).Some? ==>
      var d := FindById(st.docs, id).value;
      && DeleteOne(st, id, now).trash == [Stamp(d, now)] + st.trash
      && Stamp(d, now).deletedAt == Some(now)
      && Stamp(d, now).(deletedAt := d.deletedAt) == d
    ensures FindById(st.docs, id).None? ==>
      DeleteOne(st, id, now).docs == st.docs && DeleteOne(st, id, now).trash == st.trash
    ensures DeleteOne(st, id, now).selectedIds == st.selectedIds - {id}
    ensures DeleteOne(st, id, now).selectedDoc.Some? ==> DeleteOne(st, id, now).selectedDoc.value.id != id
    ensures st.selectedDoc.Some? && st.selectedDoc.value.id != id ==> DeleteOne(st, id, now).selectedDoc == st.selectedDoc
    ensures DeleteOne(st, id, now).history == History.Record(st.history, TakeSnapshot(st))
  {
    forall d ensures d in DeleteOne(st, id, now).docs <==> d in st.docs && d.id != id {
      RemoveIdMembers(st.docs, id, d);
    }
    if FindById(st.docs, id).None? {
      RemoveAbsent(st.docs, id);
    }
  }

  /** With unique ids, `deleteOne` on the id of `docs[k]` leaves the other documents in their order. */
  lemma DeleteOneKeepsOrder(st: DocsState, k: nat, now: string)
    requires Valid(st) && k < |st.docs|
    ensures DeleteOne(st, st.docs[k].id, now).docs == st.docs[..k] + st.docs[k + 1..]
    ensures DeleteOne(st, st.docs[k].id, now).trash == [Stamp(st.docs[k], now)] + st.trash
  {
    PrefixNoDups(st.docs, st.trash);
    UniqueAt(st.docs, k);
    RemoveIdAt(st.docs, k);
  }

  /** Moving the record with id `id` out of `src` and onto the front of `dst` leaves the ids of both lists together unchanged. */
  lemma MoveOneConserves(src: seq<Doc>, dst: seq<Doc>, id: Id, moved: Doc)
    requires NoDups(Ids(src + dst)) && moved.id == id
    ensures var dst' := if FindById(src, id).Some? then [moved] + dst else dst;
      && multiset(Ids(RemoveId(src, id) + dst')) == multiset(Ids(src + dst))
      && NoDups(Ids(RemoveId(src, id) + dst'))
  {
    var dst' := if FindById(src, id).Some? then [moved] + dst else dst;
    PrefixNoDups(src, dst);
    RemoveFound(src, id);
    IdsAppend(src, dst);
    IdsAppend(RemoveId(src, id), dst');
    IdsAppend([moved], dst);
    assert multiset(Ids(RemoveId(src, id) + dst')) == multiset(Ids(src + dst));
    SubMultisetNoDups(Ids(RemoveId(src, id) + dst'), Ids(src + dst));
  }

  /** `deleteOne` keeps the ids of documents and trash together, and so keeps them unique. */
  lemma DeleteOneConserves(st: DocsState, id: Id, now: string)
    requires Valid(st)
    ensures multiset(Ids(DeleteOne(st, id, now).docs + DeleteOne(st, id, now).trash)) == multiset(Ids(st.docs + st.trash))
    ensures Valid(DeleteOne(st, id, now))
  {
    var target := FindById(st.docs, id);
    var moved := if target.Some? then Stamp(target.value, now) else Stamp(Doc(id, "", "", "", Date(0, 1, 1), "", [], "", None, None), now);
    MoveOneConserves(st.docs, st.trash, id, moved);
  }

  /**
   * `onDeleteSelected`: with no box ticked nothing happens, not even a
   * snapshot; otherwise the unticked documents stay in order, the ticked ones
   * head the trash in list order, stamped, and a selected document that was
   * ticked is deselected.
   */
  lemma OnDeleteSelectedMoves(st: DocsState, now: string)
    ensures st.selectedIds == {} ==> OnDeleteSelected(st, now) == st
    ensures st.selectedIds != {} ==>
      var r := OnDeleteSelected(st, now);
      && r.docs == DropIds(st.docs, st.selectedIds)
      && (forall d :: d in r.docs <==> d in st.docs && d.id !in st.selectedIds)
      && r.trash == StampAll(KeepIds(st.docs, st.selectedIds), now) + st.trash
      && Ids(r.trash) == Ids(KeepIds(st.docs, st.selectedIds)) + Ids(st.trash)
      && r.selectedIds == {}
      && (r.selectedDoc.Some? ==> r.selectedDoc.value.id !in st.selectedIds)
      && (st.selectedDoc.Some? && st.selectedDoc.value.id !in st.selectedIds ==> r.selectedDoc == st.selectedDoc)
      && r.history == History.Record(st.history, TakeSnapshot(st))
  {
    if st.selectedIds != {} {
      forall d ensures d in OnDeleteSelected(st, now).docs <==> d in st.docs && d.id !in st.selectedIds {
        KeepIdsMembers(st.docs, st.selectedIds, d);
      }
      IdsAppend(StampAll(KeepIds(st.docs, st.selectedIds), now), st.trash);
      IdsStampAll(KeepIds(st.docs, st.selectedIds), now);
    }
  }

  lemma DeleteSelectedLists(docs: seq<Doc>, trash: seq<Doc>, ids: set<Id>, now: string)
    ensures multiset(Ids(DropIds(docs, ids) + (StampAll(KeepIds(docs, ids), now) + trash))) == multiset(Ids(docs + trash))
  {
    var moved := StampAll(KeepIds(docs, ids), now);
    IdsAppend(docs, trash);
    IdsAppend(moved, trash);
    IdsAppend(DropIds(docs, ids), moved + trash);
    IdsStampAll(KeepIds(docs, ids), now);
    IdsKeepDrop(docs, ids);
  }

  /** `onDeleteSelected` keeps the multiset of ids of documents and trash together. */
  lemma OnDeleteSelectedConserves(st: DocsState, now: string)
    ensures multiset(Ids(OnDeleteSelected(st, now).docs + OnDeleteSelected(st, now).trash)) == multiset(Ids(st.docs + st.trash))
    ensures Valid(st) ==> Valid(OnDeleteSelected(st, now))
  {
    var r := OnDeleteSelected(st, now);
    if st.selectedIds != {} {
      DeleteSelectedLists(st.docs, st.trash, st.selectedIds, now);
      assert r.docs + r.trash == DropIds(st.docs, st.selectedIds) + (StampAll(KeepIds(st.docs, st.selectedIds), now) + st.trash);
    }
    if Valid(st) {
      SubMultisetNoDups(Ids(r.docs + r.trash), Ids(st.docs + st.trash));
    }
  }

  /** `restoreOne`: a found trash record heads the documents unchanged, `deletedAt` and all; the rest of the trash keeps its order. */
  lemma RestoreOneMoves(st: DocsState, id: Id)
    ensures forall d :: d in RestoreOne(st, id).trash <==> d in st.trash && d.id != id
    ensures FindById(st.trash, id).Some? ==> RestoreOne(st, id).docs == [FindById(st.trash, id).value] + st.docs
    ensures FindById(st.trash, id).None? ==> RestoreOne(st, id).docs == st.docs && RestoreOne(st, id).trash == st.trash
  {
    forall d ensures d in RestoreOne(st, id).trash <==> d in st.trash && d.id != id {
      RemoveIdMembers(st.trash, id, d);
    }
    if FindById(st.trash, id).None? {
      RemoveAbsent(st.trash, id);
    }
  }

  /** With unique ids, `restoreOne` on the id of `trash[k]` moves exactly that record and leaves the rest of the trash in order. */
  lemma RestoreOneKeepsOrder(st: DocsState, k: nat)
    requires Valid(st) && k < |st.trash|
    ensures RestoreOne(st, st.trash[k].id).trash == st.trash[..k] + st.trash[k + 1..]
    ensures RestoreOne(st, st.trash[k].id).docs == [st.trash[k]] + st.docs
  {
    PrefixNoDups(st.docs, st.trash);
    UniqueAt(st.trash, k);
    RemoveIdAt(st.trash, k);
  }

  /** `restoreOne` keeps the ids of documents and trash together, and so keeps them unique. */
  lemma RestoreOneConserves(st: DocsState, id: Id)
    requires Valid(st)
    ensures multiset(Ids(RestoreOne(st, id).docs + RestoreOne(st, id).trash)) == multiset(Ids(st.docs + st.trash))
    ensures Valid(RestoreOne(st, id))
  {
    var r := RestoreOne(st, id);
    var item := FindById(st.trash, id);
    var moved := if item.Some? then item.value else Doc(id, "", "", "", Date(0, 1, 1), "", [], "", None, None);
    IdsAppend(st.docs, st.trash);
    IdsAppend(st.trash, st.docs);
    SubMultisetNoDups(Ids(st.trash + st.docs), Ids(st.docs + st.trash));
    MoveOneConserves(st.trash, st.docs, id, moved);
    IdsAppend(r.trash, r.docs);
    IdsAppend(r.docs, r.trash);
    SubMultisetNoDups(Ids(r.docs + r.trash), Ids(r.trash + r.docs));
  }

  /**
   * `restoreSelected`: with no box ticked nothing happens, not even a
   * snapshot; otherwise the ticked trash records head the documents in trash
   * order and the rest of the trash stays, in order.
   */
  lemma RestoreSelectedMoves(st: DocsState)
    ensures st.selectedTrashIds == {} ==> RestoreSelected(st) == st
    ensures st.selectedTrashIds != {} ==>
      var r := RestoreSelected(st);
      && r.docs == KeepIds(st.trash, st.selectedTrashIds) + st.docs
      && r.trash == DropIds(st.trash, st.selectedTrashIds)
      && (forall d :: d in r.trash <==> d in st.trash && d.id !in st.selectedTrashIds)
      && (forall d :: d in r.docs <==> d in st.docs || (d in st.trash && d.id in st.selectedTrashIds))
      && r.selectedTrashIds == {}
      && r.history == History.Record(st.history, TakeSnapshot(st))
  {
    if st.selectedTrashIds != {} {
      forall d ensures d in RestoreSelected(st).trash <==> d in st.trash && d.id !in st.selectedTrashIds {
        KeepIdsMembers(st.trash, st.selectedTrashIds, d);
      }
      forall d ensures d in RestoreSelected(st).docs <==> d in st.docs || (d in st.trash && d.id in st.selectedTrashIds) {
        KeepIdsMembers(st.trash, st.selectedTrashIds, d);
      }
    }
  }

  lemma RestoreSelectedLists(docs: seq<Doc>, trash: seq<Doc>, ids: set<Id>)
    ensures multiset(Ids(KeepIds(trash, ids) + docs + DropIds(trash, ids))) == multiset(Ids(docs + trash))
  {
    IdsAppend(docs, trash);
    IdsAppend(KeepIds(trash, ids), docs);
    IdsAppend(KeepIds(trash, ids) + docs, DropIds(trash, ids));
    IdsKeepDrop(trash, ids);
  }

  /** `restoreSelected` keeps the multiset of ids of documents and trash together. */
  lemma RestoreSelectedConserves(st: DocsState)
    ensures multiset(Ids(RestoreSelected(st).docs + RestoreSelected(st).trash)) == multiset(Ids(st.docs + st.trash))
    ensures Valid(st) ==> Valid(RestoreSelected(st))
  {
    var r := RestoreSelected(st);
    if st.selectedTrashIds != {} {
      RestoreSelectedLists(st.docs, st.trash, st.selectedTrashIds);
      assert r.docs + r.trash == KeepIds(st.trash, st.selectedTrashIds) + st.docs + DropIds(st.trash, st.selectedTrashIds);
    }
    if Valid(st) {
      SubMultisetNoDups(Ids(r.docs + r.trash), Ids(st.docs + st.trash));
    }
  }

  /**
   * Delete then restore of one document: it comes back at the front, still
   * carrying its `deletedAt`, and the trash is as it was.
   */
  lemma DeleteThenRestore(st: DocsState, k: nat, now: string)
    requires Valid(st) && k < |st.docs|
    ensures RestoreOne(DeleteOne(st, st.docs[k].id, now), st.docs[k].id).docs
         == [Stamp(st.docs[k], now)] + st.docs[..k] + st.docs[k + 1..]
    ensures RestoreOne(DeleteOne(st, st.docs[k].id, now), st.docs[k].id).trash == st.trash
  {
    var id := st.docs[k].id;
    DeleteOneKeepsOrder(st, k, now);
    IdsAppend(st.docs, st.trash);
    IdsAt(st.docs + st.trash);
    forall j | 0 <= j < |st.trash| ensures st.trash[j].id != id {
      assert (st.docs + st.trash)[k] == st.docs[k];
      assert (st.docs + st.trash)[|st.docs| + j] == st.trash[j];
      assert Ids(st.docs + st.trash)[k] != Ids(st.docs + st.trash)[|st.docs| + j];
    }
    RemoveAbsent(st.trash, id);
    var d := DeleteOne(st, id, now);
    assert d.trash == [Stamp(st.docs[k], now)] + st.trash;
    assert FindById(d.trash, id) == Some(Stamp(st.docs[k], now));
    assert d.trash[1..] == st.trash;
  }

  /** Permanent deletion touches only the trash, its checkboxes and the log. */
  lemma PurgeTouchesOnlyTrash(st: DocsState, id: Id)
    ensures var r := DeletePermanentOne(st, id);
      r.docs == st.docs && r.selectedDoc == st.selectedDoc && r.selectedIds == st.selectedIds
    ensures var r := DeletePermanentSelected(st);
      r.docs == st.docs && r.selectedDoc == st.selectedDoc && r.selectedIds == st.selectedIds
    ensures var r := EmptyTrash(st);
      r.docs == st.docs && r.selectedDoc == st.selectedDoc && r.selectedIds == st.selectedIds && r.trash == []
    ensures st.trash == [] ==> EmptyTrash(st) == st
    ensures st.selectedTrashIds == {} ==> DeletePermanentSelected(st) == st
  {
  }

  /** Which records permanent deletion takes out of the trash: those with the id, or the ticked ones. */
  lemma PurgeRemoves(st: DocsState, id: Id)
    ensures forall d :: d in DeletePermanentOne(st, id).trash <==> d in st.trash && d.id != id
    ensures DeletePermanentOne(st, id).selectedTrashIds == st.selectedTrashIds - {id}
    ensures forall d :: d in DeletePermanentSelected(st).trash <==> d in st.trash && d.id !in st.selectedTrashIds
    ensures st.selectedTrashIds != {} ==>
      DeletePermanentSelected(st).trash == DropIds(st.trash, st.selectedTrashIds) && DeletePermanentSelected(st).selectedTrashIds == {}
  {
    forall d ensures d in DeletePermanentOne(st, id).trash <==> d in st.trash && d.id != id {
      RemoveIdMembers(st.trash, id, d);
    }
    forall d ensures d in DeletePermanentSelected(st).trash <==> d in st.trash && d.id !in st.selectedTrashIds {
      KeepIdsMembers(st.trash, st.selectedTrashIds, d);
    }
  }

  /** With unique ids, deleting `trash[k]` for good leaves the rest of the trash in order. */
  lemma PurgeOneKeepsOrder(st: DocsState, k: nat)
    requires Valid(st) && k < |st.trash|
    ensures DeletePermanentOne(st, st.trash[k].id).trash == st.trash[..k] + st.trash[k + 1..]
  {
    PrefixNoDups(st.docs, st.trash);
    UniqueAt(st.trash, k);
    RemoveIdAt(st.trash, k);
  }

  /** Unique ids stay unique when only the trash shrinks. */
  lemma TrashShrinkKeepsValid(st: DocsState, trash': seq<Doc>)
    requires Valid(st) && multiset(Ids(trash')) <= multiset(Ids(st.trash))
    ensures NoDups(Ids(st.docs + trash'))
  {
    IdsAppend(st.docs, st.trash);
    IdsAppend(st.docs, trash');
    SubMultisetNoDups(Ids(st.docs + trash'), Ids(st.docs + st.trash));
  }

  /** Permanent deletion only ever removes ids, so unique ids stay unique: one record, */
  lemma PurgeOneKeepsValid(st: DocsState, id: Id)
    requires Valid(st)
    ensures Valid(DeletePermanentOne(st, id))
  {
    IdsRemoveId(st.trash, id);
    TrashShrinkKeepsValid(st, RemoveId(st.trash, id));
  }

  /** the ticked records, */
  lemma PurgeSelectedKeepsValid(st: DocsState)
    requires Valid(st)
    ensures Valid(DeletePermanentSelected(st))
  {
    IdsKeepDrop(st.trash, st.selectedTrashIds);
    TrashShrinkKeepsValid(st, DropIds(st.trash, st.selectedTrashIds));
  }

  /** or the whole trash. */
  lemma EmptyTrashKeepsValid(st: DocsState)
    requires Valid(st)
    ensures Valid(EmptyTrash(st))
  {
    TrashShrinkKeepsValid(st, []);
  }

  /** `onFilesAdded`: no files, no change; otherwise one new leading entry per file with the fixed upload fields. */
  lemma OnFilesAddedPrepends(st: DocsState, files: seq<FileInfo>, clock: nat, today: Date)
    ensures files == [] ==> OnFilesAdded(st, files, clock, today) == st
    ensures files != [] ==>
      var r := OnFilesAdded(st, files, clock, today);
      && |r.docs| == |st.docs| + |files|
      && r.docs[|files|..] == st.docs
      && r.history.past == st.history.past + [TakeSnapshot(st)]
      && forall i :: 0 <= i < |files| ==>
           && r.docs[i].id == clock + i && r.docs[i].name == files[i].name
           && r.docs[i].docType == ExtToType(files[i].name)
           && r.docs[i].owner == "You" && r.docs[i].tags == ["Uploaded"] && r.docs[i].status == "Draft"
           && r.docs[i].updated == today && r.docs[i].deletedAt.None?
  {
    if files != [] {
      var r := OnFilesAdded(st, files, clock, today);
      assert r.docs == Uploaded(files, clock, today) + st.docs;
    }
  }

  /** The type is decided by the text after the last dot alone, compared without case. */
  lemma ExtToTypeByLastSegment(base: string, ext: string)
    requires '.' !in ext
    ensures ExtToType(base + "." + ext) == TypeForExtension(ToLower(ext))
  {
    assert base + "." + ext == base + ['.'] + ext;
    AfterLastSegment(base, '.', ext);
  }

  lemma ToLowerUnchanged(s: string)
    requires forall i :: 0 <= i < |s| ==> !('A' <= s[i] <= 'Z')
    ensures ToLower(s) == s
  {
  }

  /** The case of the extension does not matter. */
  lemma ExtToTypeIgnoresCase()
    ensures ExtToType("Deck.PPT") == "PPTX"
  {
    ExtToTypeByLastSegment("Deck", "PPT");
    assert "Deck" + "." + "PPT" == "Deck.PPT";
    assert ToLower("PPT") == "ppt";
  }

  /** Only the text after the last dot counts. */
  lemma ExtToTypeUsesLastDot()
    ensures ExtToType("a.pdf.docx") == "DOCX"
  {
    ExtToTypeByLastSegment("a.pdf", "docx");
    assert "a.pdf" + "." + "docx" == "a.pdf.docx";
    ToLowerUnchanged("docx");
  }

  /** Any extension outside the table reads as PDF. */
  lemma ExtToTypeDefaultsToPdf(base: string, ext: string)
    requires '.' !in ext
    requires ToLower(ext) !in {"pdf", "xls", "xlsx", "doc", "docx", "ppt", "pptx"}
    ensures ExtToType(base + "." + ext) == "PDF"
  {
    ExtToTypeByLastSegment(base, ext);
  }

  /** A name with no dot is read whole as its extension. */
  lemma ExtToTypeNoDot(name: string)
    requires '.' !in name
    ensures ExtToType(name) == TypeForExtension(ToLower(name))
  {
  }
}
