/**
 * The undo/redo log both views keep: two stacks of value snapshots,
 * `historyPast` and `historyFuture`, whose last elements are their tops.
 * Snapshots are values, so a stored one can never be changed by a later
 * edit of the live state (the source deep-copies through JSON for this).
 */
module History {
  import opened Wrappers

  datatype Log<S> = Log(past: seq<S>, future: seq<S>)

  /** What undo or redo hand back: the new log and the snapshot to restore. */
  datatype Step<S> = Step(log: Log<S>, restore: S)

  /** The log half of `commit`: push the pre-mutation snapshot and drop the redo branch. */
  function Record<S>(log: Log<S>, pre: S): Log<S> {
    Log(log.past + [pre], [])
  }

  /** `undo` with `curr` the snapshot of the live state: nothing when `past` is empty. */
  function Undo<S>(log: Log<S>, curr: S): Option<Step<S>> {
    if |log.past| == 0 then None
    else Some(Step(Log(log.past[..|log.past| - 1], log.future + [curr]), log.past[|log.past| - 1]))
  }

  /** `redo`, the mirror image of `undo`. */
  function Redo<S>(log: Log<S>, curr: S): Option<Step<S>> {
    if |log.future| == 0 then None
    else Some(Step(Log(log.past + [curr], log.future[..|log.future| - 1]), log.future[|log.future| - 1]))
  }

  /** Redo right after undo gives back the log and the snapshot undo started from. */
  lemma UndoThenRedo<S>(log: Log<S>, curr: S)
    requires |log.past| > 0
    ensures Undo(log, curr).Some?
    ensures Redo(Undo(log, curr).value.log, Undo(log, curr).value.restore) == Some(Step(log, curr))
  {
    var n := |log.past|;
    assert log.past[..n - 1] + [log.past[n - 1]] == log.past;
  }

  /** Undo right after redo gives back the log and the snapshot redo started from. */
  lemma RedoThenUndo<S>(log: Log<S>, curr: S)
    requires |log.future| > 0
    ensures Redo(log, curr).Some?
    ensures Undo(Redo(log, curr).value.log, Redo(log, curr).value.restore) == Some(Step(log, curr))
  {
    var n := |log.future|;
    assert log.future[..n - 1] + [log.future[n - 1]] == log.future;
  }

  /** Several commits in a row, with the pre-mutation snapshots `pres` in order. */
  function RecordAll<S>(log: Log<S>, pres: seq<S>): Log<S>
    decreases |pres|
  {
    if pres == [] then log else RecordAll(Record(log, pres[0]), pres[1..])
  }

  lemma {:induction false} RecordAllPushes<S>(log: Log<S>, pres: seq<S>)
    requires |pres| > 0
    ensures RecordAll(log, pres) == Log(log.past + pres, [])
    decreases |pres|
  {
    if |pres| > 1 {
      RecordAllPushes(Record(log, pres[0]), pres[1..]);
      assert log.past + [pres[0]] + pres[1..] == log.past + pres;
    } else {
      assert pres == [pres[0]];
    }
  }

  /**
   * `k` undos in a row, where the state each one leaves behind is the snapshot
   * it restored (as it is when snapshotting a restored state gives back the
   * snapshot).
   */
  function UndoTimes<S>(log: Log<S>, curr: S, k: nat): Option<Step<S>>
    decreases k
  {
    if k == 0 then Some(Step(log, curr))
    else
      match Undo(log, curr)
      case None => None
      case Some(st) => UndoTimes(st.log, st.restore, k - 1)
  }

  function Reverse<S>(s: seq<S>): seq<S> {
    if s == [] then [] else [s[|s| - 1]] + Reverse(s[..|s| - 1])
  }

  lemma {:induction false} UndoTimesPops<S>(p: seq<S>, cs: seq<S>, f: seq<S>, curr: S)
    requires |cs| > 0
    ensures UndoTimes(Log(p + cs, f), curr, |cs|) == Some(Step(Log(p, f + [curr] + Reverse(cs[1..])), cs[0]))
    decreases |cs|
  {
    var n := |cs|;
    assert (p + cs)[..|p + cs| - 1] == p + cs[..n - 1];
    assert (p + cs)[|p + cs| - 1] == cs[n - 1];
    if n == 1 {
      assert cs[1..] == [] && cs[..n - 1] == [];
      assert p + cs[..n - 1] == p;
      assert f + [curr] + Reverse(cs[1..]) == f + [curr];
    } else {
      var rest := cs[..n - 1];
      assert Undo(Log(p + cs, f), curr) == Some(Step(Log(p + rest, f + [curr]), cs[n - 1]));
      UndoTimesPops(p, rest, f + [curr], cs[n - 1]);
      assert rest[1..] == cs[1..n - 1];
      var tail := cs[1..];
      assert tail[..|tail| - 1] == cs[1..n - 1];
      assert Reverse(tail) == [cs[n - 1]] + Reverse(cs[1..n - 1]);
      assert f + [curr] + [cs[n - 1]] + Reverse(rest[1..]) == f + [curr] + Reverse(tail);
    }
  }

  /**
   * Undoing as many times as there were commits returns to the snapshot taken
   * before the first of them, and leaves the older history as it was.
   */
  lemma UndoAllCommits<S>(log: Log<S>, pres: seq<S>, curr: S)
    requires |pres| > 0
    ensures UndoTimes(RecordAll(log, pres), curr, |pres|)
         == Some(Step(Log(log.past, [curr] + Reverse(pres[1..])), pres[0]))
  {
    RecordAllPushes(log, pres);
    UndoTimesPops(log.past, pres, [], curr);
    assert [] + [curr] + Reverse(pres[1..]) == [curr] + Reverse(pres[1..]);
  }
}
