/** download_weather.py: the Open-Meteo hourly table written as CSV, the
    per-record hour and sky-cover mapping of the EPW writer, and the date
    range read back from an EPW file's lines.  The JSON values arrive as
    the text `str()` gives them (`None` for JSON null). */
module WeatherData {
  import opened Wrappers
  import opened PyText
  import opened LineScan

  /** The `hourly` dict of the response: its items in order, each key with
      its list of values. */
  type Hourly = seq<(string, seq<Option<string>>)>

  /** The keys of the dict, in order. */
  function Keys(hourly: Hourly): (r: seq<string>)
    ensures |r| == |hourly| && forall i :: 0 <= i < |hourly| ==> r[i] == hourly[i].0
  {
    seq(|hourly|, i requires 0 <= i < |hourly| => hourly[i].0)
  }

  /** No string listed twice. */
  predicate NoRepeats(s: seq<string>) {
    forall i, j :: 0 <= i < j < |s| ==> s[i] != s[j]
  }

  /** `hourly.get(key)`. */
  function Lookup(hourly: Hourly, key: string): (r: Option<seq<Option<string>>>)
    ensures r.None? <==> key !in Keys(hourly)
    ensures r.Some? ==> exists i :: 0 <= i < |hourly| && hourly[i] == (key, r.value)
    decreases |hourly|
  {
    if hourly == [] then None
    else if hourly[0].0 == key then Some(hourly[0].1)
    else
      var r := Lookup(hourly[1..], key);
      assert Keys(hourly) == [hourly[0].0] + Keys(hourly[1..]);
      assert r.Some? ==> exists i :: 0 <= i < |hourly[1..]| && hourly[1..][i] == (key, r.value);
      r
  }

  /** `hourly.get('time', [])`. */
  function Times(hourly: Hourly): seq<Option<string>> {
    Lookup(hourly, "time").GetOr([])
  }

  /** `[k for k in hourly.keys() if k != 'time']`. */
  function OtherKeys(keys: seq<string>): (r: seq<string>)
    ensures forall k :: k in r <==> k in keys && k != "time"
    decreases |keys|
  {
    if keys == [] then []
    else
      var rest := OtherKeys(keys[..|keys| - 1]);
      assert keys == keys[..|keys| - 1] + [keys[|keys| - 1]];
      if keys[|keys| - 1] != "time" then rest + [keys[|keys| - 1]] else rest
  }

  /** `headers`: `time`, then every other key in dict order. */
  function Headers(hourly: Hourly): (r: seq<string>)
    ensures |r| >= 1 && r[0] == "time"
    ensures forall k :: k in r[1..] <==> k in Keys(hourly) && k != "time"
  {
    ["time"] + OtherKeys(Keys(hourly))
  }

  /** Each other key once: with distinct keys the header lists no key
      twice. */
  lemma {:induction false} OtherKeysDistinct(keys: seq<string>)
    requires NoRepeats(keys)
    ensures NoRepeats(OtherKeys(keys))
    decreases |keys|
  {
    if keys != [] {
      var pre := keys[..|keys| - 1];
      OtherKeysDistinct(pre);
      var last := keys[|keys| - 1];
      if last != "time" {
        var rest := OtherKeys(pre);
        assert forall i :: 0 <= i < |pre| ==> pre[i] == keys[i];
        assert last !in pre;
        assert last !in rest;
        var r := rest + [last];
        assert OtherKeys(keys) == r;
        forall i, j | 0 <= i < j < |r| ensures r[i] != r[j] {
          assert r[i] == rest[i];
          if j == |rest| {
            assert rest[i] in rest;
          } else {
            assert r[j] == rest[j];
          }
        }
      }
    }
  }

  /** The text of the value of `key` in row `i`: the value's text, the
      empty field for `None`, or nothing when the list is too short (the
      `IndexError`).  A missing key reads as a list of `None`s as long as
      the times. */
  function Cell(hourly: Hourly, key: string, i: nat): (r: Option<string>)
    ensures var col := Lookup(hourly, key);
      && (col.Some? && i < |col.value| ==> r == Some(col.value[i].GetOr("")))
      && (col.Some? && i >= |col.value| ==> r.None?)
  {
    match Lookup(hourly, key)
    case None => if i < |Times(hourly)| then Some("") else None
    case Some(col) => if i < |col| then Some(col[i].GetOr("")) else None
  }

  /** The texts of `cells` in order, or nothing when one of them fails. */
  function Collect(cells: seq<Option<string>>): (r: Option<seq<string>>)
    ensures r.Some? <==> forall k :: 0 <= k < |cells| ==> cells[k].Some?
    ensures r.Some? ==> |r.value| == |cells| && forall k :: 0 <= k < |cells| ==> r.value[k] == cells[k].value
    decreases |cells|
  {
    if cells == [] then Some([])
    else
      var pre := cells[..|cells| - 1];
      var rest := Collect(pre);
      assert forall k :: 0 <= k < |pre| ==> pre[k] == cells[k];
      if rest.Some? && cells[|cells| - 1].Some? then Some(rest.value + [cells[|cells| - 1].value]) else None
  }

  /** Cell `k` collected after the cells before it. */
  lemma CollectNext(cells: seq<Option<string>>, k: nat)
    requires k < |cells|
    ensures Collect(cells[..k + 1]) ==
      (var rest := Collect(cells[..k]); if rest.Some? && cells[k].Some? then Some(rest.value + [cells[k].value]) else None)
  {
    assert cells[..k + 1][..k] == cells[..k];
  }

  /** The cells of row `i` for `keys`. */
  function KeyCells(hourly: Hourly, keys: seq<string>, i: nat): (r: seq<Option<string>>)
    ensures |r| == |keys| && forall k :: 0 <= k < |keys| ==> r[k] == Cell(hourly, keys[k], i)
  {
    seq(|keys|, k requires 0 <= k < |keys| => Cell(hourly, keys[k], i))
  }

  /** The fields of row `i` for `keys`, or nothing when one of them fails. */
  function RowCells(hourly: Hourly, keys: seq<string>, i: nat): (r: Option<seq<string>>)
    ensures r.Some? <==> forall k :: 0 <= k < |keys| ==> Cell(hourly, keys[k], i).Some?
    ensures r.Some? ==> |r.value| == |keys| && forall k :: 0 <= k < |keys| ==> r.value[k] == Cell(hourly, keys[k], i).value
  {
    Collect(KeyCells(hourly, keys, i))
  }

  /** The line of row `i` (the time, then the other keys' fields), or
      nothing when the row cannot be written: a `None` time or a list too
      short. */
  function RowLine(hourly: Hourly, i: nat): Option<string>
    requires i < |Times(hourly)|
  {
    var t := Times(hourly)[i];
    var cells := RowCells(hourly, Headers(hourly)[1..], i);
    if t.Some? && cells.Some? then Some(Join([t.value] + cells.value, ',') + "\n") else None
  }

  /** The lines of all rows, in order, each possibly unwritable. */
  function RowLines(hourly: Hourly): (r: seq<Option<string>>)
    ensures |r| == |Times(hourly)| && forall i :: 0 <= i < |r| ==> r[i] == RowLine(hourly, i)
  {
    seq(|Times(hourly)|, i requires 0 <= i < |Times(hourly)| => RowLine(hourly, i))
  }

  /** What the file holds after `rows` have been tried in order: the lines
      written before the first that cannot be, and whether all were. */
  function Written(rows: seq<Option<string>>): (r: (seq<string>, bool))
    ensures |r.0| <= |rows|
    ensures r.1 <==> forall i :: 0 <= i < |rows| ==> rows[i].Some?
    ensures r.1 ==> |r.0| == |rows| && forall i :: 0 <= i < |rows| ==> r.0[i] == rows[i].value
    decreases |rows|
  {
    if rows == [] then ([], true)
    else
      var pre := rows[..|rows| - 1];
      var (lines, ok) := Written(pre);
      assert forall i :: 0 <= i < |pre| ==> pre[i] == rows[i];
      if !ok then (lines, false)
      else
        match rows[|rows| - 1]
        case None => (lines, false)
        case Some(line) => (lines + [line], true)
  }

  /** One more row. */
  lemma WrittenSnoc(rows: seq<Option<string>>, row: Option<string>)
    ensures Written(rows + [row]) ==
      (var (lines, ok) := Written(rows); if ok && row.Some? then (lines + [row.value], true) else (lines, false))
  {
    assert (rows + [row])[..|rows|] == rows;
  }

  /** Row `i` tried after the rows before it. */
  lemma WrittenNext(rows: seq<Option<string>>, i: nat)
    requires i < |rows|
    ensures Written(rows[..i + 1]) ==
      (var (lines, ok) := Written(rows[..i]); if ok && rows[i].Some? then (lines + [rows[i].value], true) else (lines, false))
  {
    assert rows[..i + 1] == rows[..i] + [rows[i]];
    WrittenSnoc(rows[..i], rows[i]);
  }

  /** After a row that cannot be written, the later rows write nothing. */
  lemma {:induction false} WrittenAfterFailure(rows: seq<Option<string>>, m: nat)
    requires m < |rows| && Written(rows[..m]).1 && rows[m].None?
    ensures Written(rows) == (Written(rows[..m]).0, false)
    decreases |rows| - m
  {
    if m + 1 < |rows| {
      var pre := rows[..|rows| - 1];
      assert pre[..m] == rows[..m];
      WrittenAfterFailure(pre, m);
      WrittenSnoc(pre, rows[|rows| - 1]);
      assert rows == pre + [rows[|rows| - 1]];
    } else {
      WrittenSnoc(rows[..m], rows[m]);
      assert rows == rows[..m] + [rows[m]];
    }
  }

  /** The CSV output: no file without times; otherwise the header line and
      the rows up to the first that cannot be written. */
  datatype CsvFile = NoFile | CsvFile(lines: seq<string>, complete: bool)

  /** The header line. */
  function HeaderLine(hourly: Hourly): string {
    Join(Headers(hourly), ',') + "\n"
  }

  /** A file of a header line and the rows written of `rows`. */
  function CsvOf(header: string, rows: seq<Option<string>>): (r: CsvFile)
    ensures r.CsvFile? && |r.lines| >= 1 && r.lines[0] == header
  {
    CsvFile([header] + Written(rows).0, Written(rows).1)
  }

  function CsvOutput(hourly: Hourly): (r: CsvFile)
    ensures r.NoFile? <==> Times(hourly) == []
    ensures r.CsvFile? ==> |r.lines| >= 1 && r.lines[0] == HeaderLine(hourly)
  {
    if Times(hourly) == [] then NoFile
    else CsvOf(HeaderLine(hourly), RowLines(hourly))
  }

  /** `convert_open_meteo_to_csv(data, csv_path)`: the lines it writes. */
  method ConvertToCsv(hourly: Hourly) returns (out: CsvFile)
    ensures out == CsvOutput(hourly)
  {
    var times := Times(hourly);
    if times == [] {
      return NoFile;
    }
    var header := Join(Headers(hourly), ',') + "\n";
    ghost var rows := RowLines(hourly);
    assert CsvOutput(hourly) == CsvOf(header, rows);
    out := WriteRows(hourly, header, rows);
  }

  /** One turn of the row loop: a row that cannot be written ends the file
      as it stands, one that can is appended. */
  lemma WriteStep(header: string, rows: seq<Option<string>>, i: nat, lines: seq<string>)
    requires i < |rows| && |lines| >= 1 && lines[0] == header
    requires Written(rows[..i]) == (lines[1..], true)
    ensures rows[i].None? ==> CsvOf(header, rows) == CsvFile(lines, false)
    ensures rows[i].Some? ==> Written(rows[..i + 1]) == ((lines + [rows[i].value])[1..], true)
  {
    if rows[i].None? {
      WrittenAfterFailure(rows, i);
      CsvOfWritten(header, rows, lines, false);
    } else {
      WrittenNext(rows, i);
      assert (lines + [rows[i].value])[1..] == lines[1..] + [rows[i].value];
    }
  }

  /** The file a loop holding `lines` has written. */
  lemma CsvOfWritten(header: string, rows: seq<Option<string>>, lines: seq<string>, ok: bool)
    requires |lines| >= 1 && lines[0] == header && Written(rows) == (lines[1..], ok)
    ensures CsvOf(header, rows) == CsvFile(lines, ok)
  {
    assert lines == [header] + lines[1..];
  }

  /** The row loop, writing after `header` the line of each row in turn
      until one cannot be written. */
  method WriteRows(hourly: Hourly, header: string, ghost rows: seq<Option<string>>) returns (out: CsvFile)
    requires rows == RowLines(hourly)
    ensures out == CsvOf(header, rows)
  {
    var lines := [header];
    var n := |Times(hourly)|;
    assert rows[..0] == [] && lines[1..] == [];
    for i := 0 to n
      invariant |lines| >= 1 && lines[0] == header
      invariant Written(rows[..i]) == (lines[1..], true)
    {
      var line := WriteRow(hourly, i);
      WriteStep(header, rows, i, lines);
      if line.None? {
        return CsvFile(lines, false);
      }
      lines := lines + [line.value];
    }
    assert rows[..n] == rows;
    CsvOfWritten(header, rows, lines, true);
    return CsvFile(lines, true);
  }

  /** The body of the row loop: row `i`'s line, or nothing when its time is
      `None` or a list is too short. */
  method WriteRow(hourly: Hourly, i: nat) returns (line: Option<string>)
    requires i < |Times(hourly)|
    ensures line == RowLine(hourly, i)
  {
    var time := Times(hourly)[i];
    var cells := RowFields(hourly, Headers(hourly)[1..], i);
    if time.None? || cells.None? {
      return None;
    }
    return Some(Join([time.value] + cells.value, ',') + "\n");
  }

  /** The inner loop over the other keys of one row. */
  method RowFields(hourly: Hourly, keys: seq<string>, i: nat) returns (cells: Option<seq<string>>)
    ensures cells == RowCells(hourly, keys, i)
  {
    var row: seq<string> := [];
    ghost var cs := KeyCells(hourly, keys, i);
    assert cs[..0] == [];
    for k := 0 to |keys|
      invariant Collect(cs[..k]) == Some(row)
    {
      var c := Cell(hourly, keys[k], i);
      if c.None? {
        return None;
      }
      CollectNext(cs, k);
      row := row + [c.value];
    }
    assert cs[..|keys|] == cs;
    return Some(row);
  }

  /** When every time is present and every list is at least as long as the
      times, the CSV has one line per time after the header, and row `i` is
      the time followed by one field per other key: its value's text, or
      empty for `None`. */
  lemma {:induction false} CsvComplete(hourly: Hourly)
    requires Times(hourly) != []
    requires forall i :: 0 <= i < |Times(hourly)| ==> Times(hourly)[i].Some?
    requires forall k :: k in Keys(hourly) ==> |Lookup(hourly, k).value| >= |Times(hourly)|
    ensures var out := CsvOutput(hourly);
      && out.complete && |out.lines| == |Times(hourly)| + 1
      && forall i :: 0 <= i < |Times(hourly)| ==>
           out.lines[i + 1] == Join([Times(hourly)[i].value] + RowCells(hourly, Headers(hourly)[1..], i).value, ',') + "\n"
  {
    var n := |Times(hourly)|;
    forall i | 0 <= i < n ensures RowLine(hourly, i).Some? {
      var keys := Headers(hourly)[1..];
      forall k | 0 <= k < |keys| ensures Cell(hourly, keys[k], i).Some? {
        assert keys[k] in keys;
      }
    }
  }

  /** A written row has as many fields as the header when no field text
      holds a comma. */
  lemma RowFieldCount(hourly: Hourly, i: nat)
    requires i < |Times(hourly)| && Times(hourly)[i].Some?
    requires RowCells(hourly, Headers(hourly)[1..], i).Some?
    requires var fields := [Times(hourly)[i].value] + RowCells(hourly, Headers(hourly)[1..], i).value;
      forall k, j :: 0 <= k < |fields| && 0 <= j < |fields[k]| ==> fields[k][j] != ','
    ensures var fields := [Times(hourly)[i].value] + RowCells(hourly, Headers(hourly)[1..], i).value;
      && |fields| == |Headers(hourly)|
      && Split(Join(fields, ','), ',') == fields
  {
    var fields := [Times(hourly)[i].value] + RowCells(hourly, Headers(hourly)[1..], i).value;
    SplitJoin(fields, ',');
  }

  // ---------------------------------------------------------------------
  // EPW records

  /** Python's `int(x)` for a float: truncation toward zero. */
  function Trunc(x: real): int {
    if x >= 0.0 then x.Floor else -((-x).Floor)
  }

  /** The EPW hour of a record at clock hour `hour`: one more, with 0
      mapped to 24. */
  function EpwHour(hour: int): (r: int)
    ensures 0 <= hour <= 23 ==> r == hour + 1 && 1 <= r <= 24
  {
    var h := hour + 1;
    if h == 0 then 24 else h
  }

  /** The EPW sky cover of a cloud cover in percent (`None` and 0 read as
      0): `int(cloud / 10)`, the tenths of sky covered, truncated. */
  function SkyCover(cloud: Option<real>): (r: int)
    ensures var c := cloud.GetOr(0.0);
      c >= 0.0 ==> r >= 0 && (r as real) * 10.0 <= c < (r as real + 1.0) * 10.0
    ensures var c := cloud.GetOr(0.0);
      0.0 <= c <= 100.0 ==> 0 <= r <= 10
  {
    var c := cloud.GetOr(0.0);
    Trunc(c / 10.0)
  }

  // ---------------------------------------------------------------------
  // EPW date range

  /** A data line: not blank and holding a comma. */
  predicate IsDataLine(l: string) {
    Strip(l) != "" && ',' in l
  }

  /** The data lines after the eight header lines:
      `[l for l in lines[8:] if l.strip() and ',' in l]`. */
  function DataLines(lines: seq<string>): seq<string> {
    Filter(if |lines| <= 8 then [] else lines[8..], IsDataLine)
  }

  /** What `get_epw_date_range` returns: five `None`s, or the start
      month and day, the end month and day and the year when both ends
      share it. */
  datatype DateRange = NoRange | DateRange(startMonth: int, startDay: int, endMonth: int, endDay: int, year: Option<int>)

  /** The year, month and day of a data line's first three comma fields. */
  function LineDate(l: string): Option<(int, int, int)> {
    var f := Split(l, ',');
    if |f| < 3 then None
    else
      match (ParseInt(f[0]), ParseInt(f[1]), ParseInt(f[2]))
      case (Some(y), Some(m), Some(d)) => Some((y, m, d))
      case _ => None
  }

  /** `get_epw_date_range(epw_path)` over the file's lines: the eight
      header lines are skipped; the start comes from the first data line,
      the end from the last; any missing field or non-integer gives five
      `None`s. */
  function EpwDateRange(lines: seq<string>): (r: DateRange)
    ensures DataLines(lines) == [] ==> r == NoRange
  {
    var data := DataLines(lines);
    if data == [] then NoRange
    else
      match (LineDate(data[0]), LineDate(data[|data| - 1]))
      case (Some((sy, sm, sd)), Some((ey, em, ed))) =>
        DateRange(sm, sd, em, ed, if sy == ey then Some(sy) else None)
      case _ => NoRange
  }

  /** A range is found exactly when both the first and the last data line
      after the header carry three integer fields; the start is the first
      line's month and day, the end is the last line's, and the year is
      given exactly when the two years agree. */
  lemma EpwDateRangeFields(lines: seq<string>)
    ensures var data := DataLines(lines);
      var r := EpwDateRange(lines);
      && (r.DateRange? <==> data != [] && LineDate(data[0]).Some? && LineDate(data[|data| - 1]).Some?)
      && (r.DateRange? ==>
            var s := LineDate(data[0]).value;
            var e := LineDate(data[|data| - 1]).value;
            && r.startMonth == s.1 && r.startDay == s.2
            && r.endMonth == e.1 && r.endDay == e.2
            && (r.year.Some? <==> s.0 == e.0)
            && (r.year.Some? ==> r.year.value == s.0))
  {
  }

  /** The data lines start with the first data line after the header and
      end with the last. */
  lemma DataLinesEnds(lines: seq<string>)
    requires DataLines(lines) != []
    ensures |lines| > 8
    ensures exists i :: (8 <= i < |lines| && IsDataLine(lines[i]) && (forall j :: 8 <= j < i ==> !IsDataLine(lines[j]))
      && DataLines(lines)[0] == lines[i])
    ensures exists i :: (8 <= i < |lines| && IsDataLine(lines[i]) && (forall j :: i < j < |lines| ==> !IsDataLine(lines[j]))
      && DataLines(lines)[|DataLines(lines)| - 1] == lines[i])
  {
    assert |lines| > 8 && DataLines(lines) == Filter(lines[8..], IsDataLine);
    FilterEndsFrom(lines, 8, IsDataLine);
  }

  /** The header lines do not matter: files that agree after their first
      eight lines give the same range. */
  lemma HeaderIgnored(a: seq<string>, b: seq<string>)
    requires |a| >= 8 && |b| >= 8 && a[8..] == b[8..]
    ensures EpwDateRange(a) == EpwDateRange(b)
  {
    assert DataLines(a) == DataLines(b);
  }
}
