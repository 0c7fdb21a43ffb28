/**
 * The per-date aggregation of the Our World in Data COVID-19 table: header renaming and
 * the fold of a frame's rows into date -> prettified numeric header -> sum of non-null values.
 */
module CovidData {
  import opened Wrappers
  import opened Text
  import opened Dicts

  // ---------------------------------------------------------------------------
  // Header renaming: pretty
  // ---------------------------------------------------------------------------

  /** Python's `s.split(sep)`: the pieces between separators, empty pieces included. */
  function SplitAt(s: string, sep: char): (parts: seq<string>)
    ensures |parts| >= 1
  {
    if |s| == 0 then [""]
    else
      var rest := SplitAt(s[1..], sep);
      if s[0] == sep then [""] + rest else [[s[0]] + rest[0]] + rest[1..]
  }

  /**
   * Python's `s.title()` restricted to ASCII: a letter following a letter is lowered,
   * any other letter is raised, and every other character is kept.
   */
  function TitleFrom(s: string, previousIsCased: bool): string
  {
    if |s| == 0 then ""
    else [if previousIsCased then ToLower(s[0]) else ToUpper(s[0])] + TitleFrom(s[1..], IsAlpha(s[0]))
  }

  function Title(s: string): string {
    TitleFrom(s, false)
  }

  /** `pretty`: underscores become spaces, then the result is title-cased. */
  function Pretty(header: string): string {
    Title(Join(SplitAt(header, '_')))
  }

  /** The character `pretty` puts at position `i` of `h`, stated one position at a time. */
  function PrettyChar(h: string, i: nat): char
    requires i < |h|
  {
    if h[i] == '_' then ' '
    else if !IsAlpha(h[i]) then h[i]
    else if i == 0 || !IsAlpha(h[i - 1]) then ToUpper(h[i])
    else ToLower(h[i])
  }

  lemma JoinFirst(words: seq<string>)
    requires |words| >= 1
    ensures Join(words) == words[0] + (if |words| == 1 then "" else " " + Join(words[1..]))
  {
  }

  /** Splitting on `_` and joining with spaces turns each underscore into a space. */
  lemma {:induction false} SplitJoinReplaces(s: string)
    ensures |Join(SplitAt(s, '_'))| == |s|
    ensures forall i | 0 <= i < |s| :: Join(SplitAt(s, '_'))[i] == if s[i] == '_' then ' ' else s[i]
  {
    if |s| > 0 {
      var rest := SplitAt(s[1..], '_');
      SplitJoinReplaces(s[1..]);
      JoinFirst(rest);
      if s[0] == '_' {
        JoinFirst([""] + rest);
        assert ([""] + rest)[1..] == rest;
      } else {
        var parts := [[s[0]] + rest[0]] + rest[1..];
        JoinFirst(parts);
        assert parts[1..] == rest[1..];
        assert Join(parts) == [s[0]] + Join(rest);
      }
    }
  }

  /** Title-casing keeps the length and decides each letter's case by the one before it. */
  lemma {:induction false} TitleChars(s: string, previousIsCased: bool)
    ensures |TitleFrom(s, previousIsCased)| == |s|
    ensures forall i | 0 <= i < |s| ::
              TitleFrom(s, previousIsCased)[i] ==
                if (if i == 0 then previousIsCased else IsAlpha(s[i - 1])) then ToLower(s[i]) else ToUpper(s[i])
  {
    if |s| > 0 {
      TitleChars(s[1..], IsAlpha(s[0]));
    }
  }

  /**
   * For ASCII headers `pretty` keeps the length; each `_` becomes a space, the first letter
   * of each run of letters is raised and the others lowered, and nothing else changes.
   */
  lemma PrettyChars(h: string)
    ensures |Pretty(h)| == |h|
    ensures forall i | 0 <= i < |h| :: Pretty(h)[i] == PrettyChar(h, i)
  {
    SplitJoinReplaces(h);
    var spaced := Join(SplitAt(h, '_'));
    TitleChars(spaced, false);
    forall i | 0 <= i < |h|
      ensures Pretty(h)[i] == PrettyChar(h, i)
    {
      assert IsAlpha(spaced[i]) <==> IsAlpha(h[i]);
      if i > 0 {
        assert IsAlpha(spaced[i - 1]) <==> IsAlpha(h[i - 1]);
      }
    }
  }

  /** No underscore survives `pretty`. */
  lemma PrettyHasNoUnderscore(h: string)
    ensures forall i | 0 <= i < |Pretty(h)| :: Pretty(h)[i] != '_'
  {
    PrettyChars(h);
  }

  /** `pretty` is idempotent. */
  lemma PrettyIdempotent(h: string)
    ensures Pretty(Pretty(h)) == Pretty(h)
  {
    var p := Pretty(h);
    PrettyChars(h);
    PrettyChars(p);
    forall i | 0 <= i < |p|
      ensures PrettyChar(p, i) == p[i]
    {
      assert IsAlpha(p[i]) <==> IsAlpha(h[i]);
      if i > 0 {
        assert IsAlpha(p[i - 1]) <==> IsAlpha(h[i - 1]);
      }
    }
  }

  /** `pretty(h)` is `e` when `e` holds the right character at every position. */
  lemma PrettyIs(h: string, e: string)
    requires |e| == |h| && forall i | 0 <= i < |h| :: PrettyChar(h, i) == e[i]
    ensures Pretty(h) == e
  {
    PrettyChars(h);
  }

  /** `pretty('new_cases') == 'New Cases'`. */
  lemma PrettyNewCases()
    ensures Pretty("new_cases") == "New Cases"
  {
    var h, e := "new_cases", "New Cases";
    forall i | 0 <= i < |h|
      ensures PrettyChar(h, i) == e[i]
    {
    }
    PrettyIs(h, e);
  }

  /** Digits are not cased, so a letter after a digit is raised: `pretty('icu19x') == 'Icu19X'`. */
  lemma PrettyAfterDigit()
    ensures Pretty("icu19x") == "Icu19X"
  {
    var h, e := "icu19x", "Icu19X";
    forall i | 0 <= i < |h|
      ensures PrettyChar(h, i) == e[i]
    {
    }
    PrettyIs(h, e);
  }

  // ---------------------------------------------------------------------------
  // The frame and the per-date fold: date_to_row
  // ---------------------------------------------------------------------------

  /** A row of the table: its `date` and its value (or null) under each numeric header. */
  datatype Row = Row(date: string, cells: map<string, Option<int>>)

  /** A table: its headers in order, the headers whose type is not `object`, and its rows. */
  datatype Frame = Frame(columns: seq<string>, numeric: set<string>, rows: seq<Row>)

  /** `row[header]`; a header the row has no value for reads as null. */
  function Cell(row: Row, header: string): Option<int> {
    if header in row.cells then row.cells[header] else None
  }

  /** The `overwrite` gate of line 38. */
  predicate Contributes(row: Row, processedColumns: set<string>, overwrite: bool) {
    overwrite || row.date !in processedColumns
  }

  /** The prettified numeric headers: the keys of every date's map. */
  function PrettyHeaders(columns: seq<string>, numeric: set<string>): set<string> {
    set h | h in columns && h in numeric :: Pretty(h)
  }

  /** The map a new date starts with (lines 41-44). */
  function ZeroRow(columns: seq<string>, numeric: set<string>): map<string, int> {
    if |columns| == 0 then map[]
    else
      var m := ZeroRow(columns[..|columns| - 1], numeric);
      var h := columns[|columns| - 1];
      if h in numeric then m[Pretty(h) := 0] else m
  }

  /** The map of a date once `row` has been added to it (lines 46-48). */
  function AddRowValues(inner: map<string, int>, columns: seq<string>, numeric: set<string>, row: Row): map<string, int> {
    if |columns| == 0 then inner
    else
      var m := AddRowValues(inner, columns[..|columns| - 1], numeric, row);
      var h := columns[|columns| - 1];
      if h in numeric && Cell(row, h).Some? then m[Pretty(h) := Get(m, Pretty(h)) + Cell(row, h).value] else m
  }

  function Get(m: map<string, int>, k: string): int {
    if k in m then m[k] else 0
  }

  /** What `date_to_row` returns once the given rows have been read. */
  function DatesDict(columns: seq<string>, numeric: set<string>, rows: seq<Row>, processedColumns: set<string>, overwrite: bool)
    : Dict<string, map<string, int>>
  {
    if |rows| == 0 then Empty()
    else
      var d := DatesDict(columns, numeric, rows[..|rows| - 1], processedColumns, overwrite);
      DatesStep(d, columns, numeric, rows[|rows| - 1], processedColumns, overwrite)
  }

  /** One row of the loop of lines 37-48. */
  function DatesStep(d: Dict<string, map<string, int>>, columns: seq<string>, numeric: set<string>, row: Row,
                     processedColumns: set<string>, overwrite: bool): Dict<string, map<string, int>>
  {
    if !Contributes(row, processedColumns, overwrite) then d
    else
      var inner := if row.date in d.items then d.items[row.date] else ZeroRow(columns, numeric);
      Put(d, row.date, AddRowValues(inner, columns, numeric, row))
  }

  /** Lines 41-44: a new date's map, every prettified numeric header at 0. */
  method NewDateRow(columns: seq<string>, numeric: set<string>) returns (inner: map<string, int>)
    ensures inner == ZeroRow(columns, numeric)
    ensures inner.Keys == PrettyHeaders(columns, numeric) && forall k | k in inner :: inner[k] == 0
  {
    inner := map[];
    for j := 0 to |columns|
      invariant inner == ZeroRow(columns[..j], numeric)
    {
      assert columns[..j + 1][..j] == columns[..j];
      if columns[j] in numeric {
        inner := inner[Pretty(columns[j]) := 0];
      }
    }
    assert columns[..|columns|] == columns;
    ZeroRowKeys(columns, numeric);
  }

  /**
   * Lines 46-48: adds the row's non-null numeric values into the date's map, which already
   * holds every prettified numeric header, so the `+=` never raises.
   */
  method AddRow(inner: map<string, int>, columns: seq<string>, numeric: set<string>, row: Row) returns (r: map<string, int>)
    requires PrettyHeaders(columns, numeric) <= inner.Keys
    ensures r == AddRowValues(inner, columns, numeric, row)
    ensures r.Keys == inner.Keys
  {
    r := inner;
    for j := 0 to |columns|
      invariant r == AddRowValues(inner, columns[..j], numeric, row)
    {
      AddRowValuesStep(inner, columns, numeric, row, j);
      var header := columns[j];
      var cell := Cell(row, header);
      if header in numeric && cell.Some? {
        r := r[Pretty(header) := r[Pretty(header)] + cell.value];
      }
    }
    assert columns[..|columns|] == columns;
    AddRowValuesKeys(inner, columns, numeric, row);
  }

  /**
   * `date_to_row` without its CSV branch: reads the rows in order and, for each row that
   * passes the `overwrite` gate, creates its date's map at 0 and adds the row's non-null
   * numeric values into it.
   */
  method DateToRow(data: Frame, processedColumns: set<string>, overwrite: bool)
    returns (datesDict: Dict<string, map<string, int>>)
    ensures datesDict == DatesDict(data.columns, data.numeric, data.rows, processedColumns, overwrite)
  {
    var columns, numeric := data.columns, data.numeric;
    datesDict := Empty();
    for i := 0 to |data.rows|
      invariant datesDict == DatesDict(columns, numeric, data.rows[..i], processedColumns, overwrite)
    {
      assert data.rows[..i + 1][..i] == data.rows[..i];
      DatesInnerKeys(columns, numeric, data.rows[..i], processedColumns, overwrite);
      datesDict := AddDateRow(datesDict, columns, numeric, data.rows[i], processedColumns, overwrite);
    }
    assert data.rows[..|data.rows|] == data.rows;
  }

  /** The body of the loop of lines 37-48, for one row. */
  method AddDateRow(datesDict: Dict<string, map<string, int>>, columns: seq<string>, numeric: set<string>, row: Row,
                    processedColumns: set<string>, overwrite: bool)
    returns (r: Dict<string, map<string, int>>)
    requires forall k | k in datesDict.items :: datesDict.items[k].Keys == PrettyHeaders(columns, numeric)
    ensures r == DatesStep(datesDict, columns, numeric, row, processedColumns, overwrite)
  {
    r := datesDict;
    if overwrite || row.date !in processedColumns {
      if row.date !in r.items {
        var newRow := NewDateRow(columns, numeric);
        r := Put(r, row.date, newRow);
      }
      // the date's map is updated in place: a new map is stored back under the date
      ghost var start := r.items[row.date];
      var inner := AddRow(r.items[row.date], columns, numeric, row);
      PutTwice(datesDict, row.date, start, inner);
      r := Put(r, row.date, inner);
    }
  }

  // ---------------------------------------------------------------------------
  // What the fold computes
  // ---------------------------------------------------------------------------

  lemma {:induction false} ZeroRowKeys(columns: seq<string>, numeric: set<string>)
    ensures ZeroRow(columns, numeric).Keys == PrettyHeaders(columns, numeric)
    ensures forall k | k in ZeroRow(columns, numeric) :: ZeroRow(columns, numeric)[k] == 0
  {
    if |columns| > 0 {
      var p := columns[..|columns| - 1];
      ZeroRowKeys(p, numeric);
      assert columns == p + [columns[|columns| - 1]];
      assert PrettyHeaders(columns, numeric) ==
             PrettyHeaders(p, numeric) + (if columns[|columns| - 1] in numeric then {Pretty(columns[|columns| - 1])} else {});
    }
  }

  lemma {:induction false} AddRowValuesKeys(inner: map<string, int>, columns: seq<string>, numeric: set<string>, row: Row)
    requires PrettyHeaders(columns, numeric) <= inner.Keys
    ensures AddRowValues(inner, columns, numeric, row).Keys == inner.Keys
  {
    if |columns| > 0 {
      var p := columns[..|columns| - 1];
      assert PrettyHeaders(p, numeric) <= PrettyHeaders(columns, numeric);
      AddRowValuesKeys(inner, p, numeric, row);
    }
  }

  /** One header of the loop of lines 46-48; the header's key is always present. */
  lemma AddRowValuesStep(inner: map<string, int>, columns: seq<string>, numeric: set<string>, row: Row, j: nat)
    requires j < |columns| && PrettyHeaders(columns, numeric) <= inner.Keys
    ensures var m, h := AddRowValues(inner, columns[..j], numeric, row), columns[j];
            (h in numeric ==> Pretty(h) in m) &&
            AddRowValues(inner, columns[..j + 1], numeric, row) ==
              if h in numeric && Cell(row, h).Some? then m[Pretty(h) := m[Pretty(h)] + Cell(row, h).value] else m
  {
    assert columns[..j + 1][..j] == columns[..j];
    assert PrettyHeaders(columns[..j], numeric) <= PrettyHeaders(columns, numeric);
    AddRowValuesKeys(inner, columns[..j], numeric, row);
  }

  /** Every date holds exactly the prettified numeric headers. */
  lemma {:induction false} DatesInnerKeys(columns: seq<string>, numeric: set<string>, rows: seq<Row>, processedColumns: set<string>, overwrite: bool)
    ensures var d := DatesDict(columns, numeric, rows, processedColumns, overwrite);
            d.Valid() && forall k | k in d.items :: d.items[k].Keys == PrettyHeaders(columns, numeric)
  {
    if |rows| > 0 {
      DatesInnerKeys(columns, numeric, rows[..|rows| - 1], processedColumns, overwrite);
      ZeroRowKeys(columns, numeric);
      var d := DatesDict(columns, numeric, rows[..|rows| - 1], processedColumns, overwrite);
      var row := rows[|rows| - 1];
      var inner := if row.date in d.items then d.items[row.date] else ZeroRow(columns, numeric);
      AddRowValuesKeys(inner, columns, numeric, row);
    }
  }

  /** The dates of the result are exactly the dates of the rows that pass the gate. */
  lemma {:induction false} DatesKeys(columns: seq<string>, numeric: set<string>, rows: seq<Row>, processedColumns: set<string>, overwrite: bool, date: string)
    ensures date in DatesDict(columns, numeric, rows, processedColumns, overwrite).items <==>
              exists i | 0 <= i < |rows| :: rows[i].date == date && Contributes(rows[i], processedColumns, overwrite)
  {
    if |rows| > 0 {
      var p := rows[..|rows| - 1];
      DatesKeys(columns, numeric, p, processedColumns, overwrite, date);
      assert forall i | 0 <= i < |p| :: p[i] == rows[i];
      if exists i | 0 <= i < |rows| :: rows[i].date == date && Contributes(rows[i], processedColumns, overwrite) {
        var i :| 0 <= i < |rows| && rows[i].date == date && Contributes(rows[i], processedColumns, overwrite);
        if i < |p| {
          assert p[i] == rows[i];
        }
      }
    }
  }

  /** Without `overwrite`, no date already among the processed columns is in the result. */
  lemma NoProcessedDate(columns: seq<string>, numeric: set<string>, rows: seq<Row>, processedColumns: set<string>, date: string)
    requires date in processedColumns
    ensures date !in DatesDict(columns, numeric, rows, processedColumns, false).items
  {
    DatesKeys(columns, numeric, rows, processedColumns, false, date);
  }

  /** The value one row gives the prettified header `key`: its non-null values under headers renamed to `key`. */
  function RowValue(columns: seq<string>, numeric: set<string>, row: Row, key: string): int {
    if |columns| == 0 then 0
    else
      var h := columns[|columns| - 1];
      RowValue(columns[..|columns| - 1], numeric, row, key) +
        (if h in numeric && Pretty(h) == key && Cell(row, h).Some? then Cell(row, h).value else 0)
  }

  /** The sum of `RowValue` over the rows of `date` that pass the gate. */
  function DateSum(columns: seq<string>, numeric: set<string>, rows: seq<Row>, processedColumns: set<string>, overwrite: bool,
                   date: string, key: string): int
  {
    if |rows| == 0 then 0
    else
      var row := rows[|rows| - 1];
      DateSum(columns, numeric, rows[..|rows| - 1], processedColumns, overwrite, date, key) +
        (if row.date == date && Contributes(row, processedColumns, overwrite) then RowValue(columns, numeric, row, key) else 0)
  }

  lemma {:induction false} AddRowValuesSum(inner: map<string, int>, columns: seq<string>, numeric: set<string>, row: Row, key: string)
    requires key in inner
    ensures key in AddRowValues(inner, columns, numeric, row)
    ensures AddRowValues(inner, columns, numeric, row)[key] == inner[key] + RowValue(columns, numeric, row, key)
  {
    if |columns| > 0 {
      AddRowValuesSum(inner, columns[..|columns| - 1], numeric, row, key);
    }
  }

  /**
   * Each value is the sum of the header's non-null values over the date's rows that pass
   * the gate (nulls are skipped; headers that `pretty` renames alike are added together).
   */
  lemma {:induction false} DatesValues(columns: seq<string>, numeric: set<string>, rows: seq<Row>, processedColumns: set<string>,
                                       overwrite: bool, date: string, key: string)
    requires key in PrettyHeaders(columns, numeric)
    ensures var d := DatesDict(columns, numeric, rows, processedColumns, overwrite);
            date in d.items ==>
              key in d.items[date] && d.items[date][key] == DateSum(columns, numeric, rows, processedColumns, overwrite, date, key)
  {
    if |rows| > 0 {
      var p, row := rows[..|rows| - 1], rows[|rows| - 1];
      var d := DatesDict(columns, numeric, p, processedColumns, overwrite);
      DatesValues(columns, numeric, p, processedColumns, overwrite, date, key);
      DatesInnerKeys(columns, numeric, p, processedColumns, overwrite);
      DatesStepValue(d, columns, numeric, row, processedColumns, overwrite, date, key);
      if date !in d.items {
        DatesKeys(columns, numeric, p, processedColumns, overwrite, date);
        DateSumAbsent(columns, numeric, p, processedColumns, overwrite, date, key);
      }
    }
  }

  /** One row adds its value under `key` to its own date's map and changes no other date. */
  lemma DatesStepValue(d: Dict<string, map<string, int>>, columns: seq<string>, numeric: set<string>, row: Row,
                       processedColumns: set<string>, overwrite: bool, date: string, key: string)
    requires key in PrettyHeaders(columns, numeric)
    requires forall k | k in d.items :: d.items[k].Keys == PrettyHeaders(columns, numeric)
    ensures var d' := DatesStep(d, columns, numeric, row, processedColumns, overwrite);
            date in d'.items ==>
              key in d'.items[date] &&
              d'.items[date][key] ==
                (if date in d.items then d.items[date][key] else 0) +
                (if row.date == date && Contributes(row, processedColumns, overwrite) then RowValue(columns, numeric, row, key) else 0)
  {
    if Contributes(row, processedColumns, overwrite) && row.date == date {
      ZeroRowKeys(columns, numeric);
      var inner := if date in d.items then d.items[date] else ZeroRow(columns, numeric);
      AddRowValuesSum(inner, columns, numeric, row, key);
    }
  }

  /** A date no contributing row names sums to 0. */
  lemma {:induction false} DateSumAbsent(columns: seq<string>, numeric: set<string>, rows: seq<Row>, processedColumns: set<string>,
                                         overwrite: bool, date: string, key: string)
    requires forall i | 0 <= i < |rows| :: !(rows[i].date == date && Contributes(rows[i], processedColumns, overwrite))
    ensures DateSum(columns, numeric, rows, processedColumns, overwrite, date, key) == 0
  {
    if |rows| > 0 {
      var p := rows[..|rows| - 1];
      assert forall i | 0 <= i < |p| :: p[i] == rows[i];
      DateSumAbsent(columns, numeric, p, processedColumns, overwrite, date, key);
    }
  }

  // ---------------------------------------------------------------------------
  // The two callers
  // ---------------------------------------------------------------------------

  /**
   * `overwrite_processed_covid_data` (without writing the file): an empty history and
   * `overwrite` set, so every row's date is in the result and nothing else is.
   */
  method OverwriteProcessedCovidData(data: Frame) returns (r: Dict<string, map<string, int>>)
    ensures r == DatesDict(data.columns, data.numeric, data.rows, {}, true)
    ensures forall i | 0 <= i < |data.rows| :: data.rows[i].date in r.items
    ensures forall date | date in r.items :: exists i | 0 <= i < |data.rows| :: data.rows[i].date == date
  {
    r := DateToRow(data, {}, true);
    forall date
      ensures date in r.items <==> exists i | 0 <= i < |data.rows| :: data.rows[i].date == date
    {
      DatesKeys(data.columns, data.numeric, data.rows, {}, true, date);
    }
  }

  /**
   * `update_processed_covid_data` (without the merge and the file): only dates that are not
   * yet columns of the processed table are computed.
   */
  method UpdateProcessedCovidData(data: Frame, processedColumns: set<string>) returns (r: Dict<string, map<string, int>>)
    ensures r == DatesDict(data.columns, data.numeric, data.rows, processedColumns, false)
    ensures forall date | date in r.items :: date !in processedColumns
  {
    r := DateToRow(data, processedColumns, false);
    forall date | date in r.items
      ensures date !in processedColumns
    {
      DatesKeys(data.columns, data.numeric, data.rows, processedColumns, false, date);
    }
  }
}
