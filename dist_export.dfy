/**
 * The text of the two exports of the Distributions view. Both join their
 * lines with the empty string, so records follow each other with no line
 * break; the CSV fields are not quoted.
 */
module DistExport {
  import opened Wrappers
  import opened Text
  import opened Calendar
  import opened DistRows

  const CsvHeader := "Date,Amount,Type,Status"

  /** `[d.date, d.amount, d.type, d.status].join(",")`. */
  function CsvRecord(r: Row): string {
    DateString(r.date) + "," + r.amount.text + "," + r.rowType + "," + r.status
  }

  function CsvBody(rows: seq<Row>): string {
    if rows == [] then [] else CsvRecord(rows[0]) + CsvBody(rows[1..])
  }

  /** The rows `exportCSV(rows)` writes: the given array, or `filtered` when the argument is missing. */
  function CsvRows(rows: Option<seq<Row>>, filtered: seq<Row>): seq<Row> {
    if rows.Some? then rows.value else filtered
  }

  /** The file `exportCSV(rows)` hands to the download center. */
  function CsvText(rows: Option<seq<Row>>, filtered: seq<Row>): string {
    CsvHeader + CsvBody(CsvRows(rows, filtered))
  }

  /** The rows `exportICS(rows)` writes: the given array when non-empty, else the scheduled filtered rows. */
  function IcsSelection(rows: Option<seq<Row>>, filtered: seq<Row>): seq<Row> {
    if rows.Some? && |rows.value| > 0 then rows.value else Scheduled(filtered)
  }

  function Scheduled(rows: seq<Row>): (r: seq<Row>)
    ensures |r| <= |rows|
  {
    if rows == [] then [] else (if rows[0].status == "Scheduled" then [rows[0]] else []) + Scheduled(rows[1..])
  }

  function Uid(r: Row): string {
    "UID:" + NatToString(r.id) + "@waystar.demo"
  }

  function DtStart(r: Row): string {
    "DTSTART;VALUE=DATE:" + Compact(r.date)
  }

  /** The lines of one VEVENT between its BEGIN and END lines. */
  function EventLines(r: Row): string {
    Uid(r) + "DTSTAMP:" + Compact(r.date) + "T000000Z" + DtStart(r)
      + "SUMMARY:Distribution " + r.rowType + " $" + r.amount.fixed2
  }

  const EventOpen := "BEGIN:VEVENT"
  const EventClose := "END:VEVENT"

  /** One VEVENT block, its lines joined with the empty string. */
  function Event(r: Row): string {
    EventOpen + EventLines(r) + EventClose
  }

  function Events(rows: seq<Row>): string {
    if rows == [] then [] else Event(rows[0]) + Events(rows[1..])
  }

  const IcsOpen := "BEGIN:VCALENDAR" + "VERSION:2.0"
  const IcsClose := "END:VCALENDAR"

  /** The file `exportICS(rows)` hands to the download center. */
  function IcsText(rows: Option<seq<Row>>, filtered: seq<Row>): string {
    IcsOpen + Events(IcsSelection(rows, filtered)) + IcsClose
  }

  // ------------------------------------------------------------------
  // Counting one character, to read the field structure off a text

  function CountChar(s: string, c: char): nat {
    if s == [] then 0 else (if s[0] == c then 1 else 0) + CountChar(s[1..], c)
  }

  lemma {:induction false} CountCharAppend(a: string, b: string, c: char)
    ensures CountChar(a + b, c) == CountChar(a, c) + CountChar(b, c)
  {
    if a == [] {
      assert a + b == b;
    } else {
      assert (a + b)[0] == a[0] && (a + b)[1..] == a[1..] + b;
      CountCharAppend(a[1..], b, c);
    }
  }

  lemma {:induction false} CountCharAbsent(s: string, c: char)
    requires forall i :: 0 <= i < |s| ==> s[i] != c
    ensures CountChar(s, c) == 0
  {
    if s != [] {
      CountCharAbsent(s[1..], c);
    }
  }

  lemma NoCommaInDate(d: Date)
    requires d.year >= 0 && d.month >= 0 && d.day >= 0
    ensures CountChar(DateString(d), ',') == 0
  {
    Pad2Digits(d.month);
    Pad2Digits(d.day);
    CountCharAbsent(NatToString(d.year), ',');
    CountCharAbsent(Pad2(d.month), ',');
    CountCharAbsent(Pad2(d.day), ',');
    CountCharAppend(NatToString(d.year), "-", ',');
    CountCharAppend(NatToString(d.year) + "-", Pad2(d.month), ',');
    CountCharAppend(NatToString(d.year) + "-" + Pad2(d.month), "-", ',');
    CountCharAppend(NatToString(d.year) + "-" + Pad2(d.month) + "-", Pad2(d.day), ',');
  }

  /** A row whose texts hold no comma: its date fields are not negative and its amount, type and status are comma-free. */
  predicate CommaFree(r: Row) {
    && r.date.year >= 0 && r.date.month >= 0 && r.date.day >= 0
    && CountChar(r.amount.text, ',') == 0 && CountChar(r.rowType, ',') == 0 && CountChar(r.status, ',') == 0
  }

  // ------------------------------------------------------------------
  // What the exports promise

  /** Each record is four unquoted fields: exactly three commas when the fields hold none. */
  lemma CsvRecordFields(r: Row)
    requires CommaFree(r)
    ensures CountChar(CsvRecord(r), ',') == 3
  {
    NoCommaInDate(r.date);
    var d := DateString(r.date);
    CountCharAppend(d, ",", ',');
    CountCharAppend(d + ",", r.amount.text, ',');
    CountCharAppend(d + "," + r.amount.text, ",", ',');
    CountCharAppend(d + "," + r.amount.text + ",", r.rowType, ',');
    CountCharAppend(d + "," + r.amount.text + "," + r.rowType, ",", ',');
    CountCharAppend(d + "," + r.amount.text + "," + r.rowType + ",", r.status, ',');
  }

  lemma {:induction false} CsvBodyAppend(a: seq<Row>, b: seq<Row>)
    ensures CsvBody(a + b) == CsvBody(a) + CsvBody(b)
  {
    if a == [] {
      assert a + b == b;
    } else {
      assert (a + b)[0] == a[0] && (a + b)[1..] == a[1..] + b;
      CsvBodyAppend(a[1..], b);
    }
  }

  /**
   * One record per row: with comma-free fields the body holds exactly three
   * commas per row, so no record is lost or split.
   */
  lemma {:induction false} CsvCommaCount(rows: seq<Row>)
    requires forall k :: 0 <= k < |rows| ==> CommaFree(rows[k])
    ensures CountChar(CsvBody(rows), ',') == 3 * |rows|
  {
    if rows != [] {
      CsvRecordFields(rows[0]);
      CsvCommaCount(rows[1..]);
      CountCharAppend(CsvRecord(rows[0]), CsvBody(rows[1..]), ',');
    }
  }

  /** The header comes first; the rows default to `filtered` only when none are given, so an empty array gives the header alone. */
  lemma CsvTextShape(rows: Option<seq<Row>>, filtered: seq<Row>)
    ensures CsvText(rows, filtered)[..|CsvHeader|] == CsvHeader
    ensures rows == Some([]) ==> CsvText(rows, filtered) == CsvHeader
    ensures rows.None? ==> CsvText(rows, filtered) == CsvText(Some(filtered), filtered)
  {
  }

  /** Exporting two lists of rows one after the other writes the concatenation of their records. */
  lemma CsvTextAppend(a: seq<Row>, b: seq<Row>, filtered: seq<Row>)
    ensures CsvText(Some(a + b), filtered) == CsvText(Some(a), filtered) + CsvBody(b)
  {
    CsvBodyAppend(a, b);
  }

  lemma {:induction false} ScheduledMembers(rows: seq<Row>, r: Row)
    ensures r in Scheduled(rows) <==> r in rows && r.status == "Scheduled"
  {
    if rows != [] {
      ScheduledMembers(rows[1..], r);
      assert rows == [rows[0]] + rows[1..];
    }
  }

  /** A missing or empty row list falls back to the scheduled filtered rows; any other list is used as given. */
  lemma IcsSelectionFallback(rows: Option<seq<Row>>, filtered: seq<Row>, r: Row)
    ensures rows.Some? && |rows.value| > 0 ==> IcsSelection(rows, filtered) == rows.value
    ensures !(rows.Some? && |rows.value| > 0) ==>
      (r in IcsSelection(rows, filtered) <==> r in filtered && r.status == "Scheduled")
  {
    ScheduledMembers(filtered, r);
  }

  lemma {:induction false} EventsAppend(a: seq<Row>, b: seq<Row>)
    ensures Events(a + b) == Events(a) + Events(b)
  {
    if a == [] {
      assert a + b == b;
    } else {
      assert (a + b)[0] == a[0] && (a + b)[1..] == a[1..] + b;
      EventsAppend(a[1..], b);
    }
  }

  /** A text built as opening + middle + closing starts with the opening and ends with the closing. */
  lemma Framed(a: string, m: string, z: string)
    ensures |a + m + z| >= |a| + |z|
    ensures (a + m + z)[..|a|] == a
    ensures (a + m + z)[|a + m + z| - |z|..] == z
  {
    assert |a + m + z| - |z| == |a + m|;
  }

  /** The calendar opens with its header lines and closes with its END line. */
  lemma IcsTextFramed(rows: Option<seq<Row>>, filtered: seq<Row>)
    ensures var t := IcsText(rows, filtered);
      && |t| >= |IcsOpen| + |IcsClose|
      && t[..|IcsOpen|] == IcsOpen
      && t[|t| - |IcsClose|..] == IcsClose
  {
    Framed(IcsOpen, Events(IcsSelection(rows, filtered)), IcsClose);
  }

  /** Each event opens with its BEGIN line and closes with its END line. */
  lemma EventFramed(r: Row)
    ensures |Event(r)| >= |EventOpen| + |EventClose|
    ensures Event(r)[..|EventOpen|] == EventOpen
    ensures Event(r)[|Event(r)| - |EventClose|..] == EventClose
  {
    Framed(EventOpen, EventLines(r), EventClose);
  }

  /** `DTSTART` is the row's date text with its dashes taken out. */
  lemma DtStartIsDateWithoutDashes(r: Row)
    requires r.date.year >= 0 && r.date.month >= 0 && r.date.day >= 0
    ensures DtStart(r) == "DTSTART;VALUE=DATE:" + RemoveDashes(DateString(r.date))
  {
    CompactIsDateWithoutDashes(r.date);
  }
}
