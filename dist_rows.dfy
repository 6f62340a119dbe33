/**
 * The payout rows of the Distributions view, the mark-paid update on them,
 * and the bounded list of recent downloads.
 */
module DistRows {
  import opened Calendar

  /**
   * A payout amount, kept as the two texts the view prints of it:
   * `String(amount)` and `amount.toFixed(2)`. The number itself only feeds
   * the floating-point totals, which are not part of this model.
   */
  datatype Amount = Amount(text: string, fixed2: string)

  /** A row; its `date` string is `DateString(date)`. */
  datatype Row = Row(id: nat, date: Date, amount: Amount, rowType: string, status: string)

  /** An entry of the download center; `url` stands for the object URL of the file's blob. */
  datatype Download = Download(name: string, url: string, mime: string, createdAt: string)

  /** The download center keeps the newest twelve entries. */
  const MaxDownloads := 12

  /** The row as `markPaid` rewrites it: `{ ...r, status: "Paid" }`. */
  function Paid(r: Row): Row {
    r.(status := "Paid")
  }

  /**
   * `rows.map((r) => ids.has(r.id) ? { ...r, status: "Paid" } : r)`; `markPaid(row)`
   * is the case `ids == {row.id}`.
   */
  function MarkIds(rows: seq<Row>, ids: set<nat>): (r: seq<Row>)
    ensures |r| == |rows|
    ensures forall k :: 0 <= k < |rows| ==> r[k] == if rows[k].id in ids then Paid(rows[k]) else rows[k]
  {
    if rows == [] then []
    else [if rows[0].id in ids then Paid(rows[0]) else rows[0]] + MarkIds(rows[1..], ids)
  }

  /** `[entry, ...prev].slice(0, 12)`. */
  function PushDownload(prev: seq<Download>, entry: Download): seq<Download> {
    var all := [entry] + prev;
    if |all| <= MaxDownloads then all else all[..MaxDownloads]
  }

  /** Marked rows say "Paid" and differ from before in nothing else; other rows are untouched. */
  lemma MarkIdsEffect(rows: seq<Row>, ids: set<nat>, k: nat)
    requires k < |rows|
    ensures MarkIds(rows, ids)[k].status == (if rows[k].id in ids then "Paid" else rows[k].status)
    ensures MarkIds(rows, ids)[k].(status := rows[k].status) == rows[k]
  {
  }

  /** Marking again changes nothing. */
  lemma MarkIdsIdempotent(rows: seq<Row>, ids: set<nat>)
    ensures MarkIds(MarkIds(rows, ids), ids) == MarkIds(rows, ids)
  {
    var once := MarkIds(rows, ids);
    assert forall k :: 0 <= k < |rows| ==> once[k].id == rows[k].id;
  }

  /** Marking two sets one after the other is marking their union. */
  lemma MarkIdsCompose(rows: seq<Row>, a: set<nat>, b: set<nat>)
    ensures MarkIds(MarkIds(rows, a), b) == MarkIds(rows, a + b)
  {
    var once := MarkIds(rows, a);
    assert forall k :: 0 <= k < |rows| ==> once[k].id == rows[k].id;
  }

  /** An empty selection marks nothing. */
  lemma MarkIdsNone(rows: seq<Row>)
    ensures MarkIds(rows, {}) == rows
  {
  }

  /** The newest entry comes first, the older ones follow in their order, and at most twelve are kept. */
  lemma PushDownloadBounded(prev: seq<Download>, entry: Download)
    ensures |PushDownload(prev, entry)| <= MaxDownloads
    ensures |PushDownload(prev, entry)| == if |prev| < MaxDownloads then |prev| + 1 else MaxDownloads
    ensures PushDownload(prev, entry)[0] == entry
    ensures PushDownload(prev, entry)[1..] == prev[..|PushDownload(prev, entry)| - 1]
  {
  }
}
