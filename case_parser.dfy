/** The case-count parser (scripts/parse_case_data.py): daily case reports,
    one CSV per country, summed into 52 ISO-week slots per district, with a
    "Cumulative" entry holding each district's total. */
module CaseParser {
  import opened Common
  import opened Text
  import opened Calendar

  /** Slots per district: ISO weeks 1..52 at indices 0..51. */
  const Weeks := 52

  const CumulativeKey := "Cumulative"

  /** A CSV file as csv.reader yields it: the header row, then the data rows. */
  datatype Table = Table(header: seq<string>, rows: seq<seq<string>>)

  /** A value of the case_counts dict: a district's 52 weekly counts, or the
      "Cumulative" dict of totals. */
  datatype Entry = Weekly(counts: seq<int>) | Totals(totals: map<string, int>)

  function Zeros(): (z: seq<int>)
    ensures |z| == Weeks && forall k :: 0 <= k < Weeks ==> z[k] == 0
  {
    seq(Weeks, _ => 0)
  }

  /** The header with apostrophes removed. */
  function Fields(header: seq<string>): (fields: seq<string>)
    ensures |fields| == |header|
    ensures forall i :: 0 <= i < |header| ==> fields[i] == StripQuotes(header[i])
  {
    seq(|header|, i requires 0 <= i < |header| => StripQuotes(header[i]))
  }

  /** Every field after column 0 names a district. */
  function Districts(fields: seq<string>): set<string>
  {
    set c | 1 <= c < |fields| :: fields[c]
  }

  // ---------------------------------------------------------------- one row

  /** week_of_date(row[0]); an empty row has no row[0]. */
  function RowWeek(row: seq<string>): Result<int>
  {
    if |row| == 0 then Err(IndexError) else WeekOfDate(row[0])
  }

  /** int(float(cell)) for a cell that converts. */
  function Amount(cell: string): int
  {
    match CellValue(cell)
    case Ok(v) => v
    case Err(_) => 0
  }

  /** What column c of a row whose date is in ISO week `week` raises, if anything.
      `case_counts[...][week-1] += int(float(cases))` reads slot week-1 before it
      converts the cell, so week 53 fails with IndexError even on a malformed cell. */
  function CellError(row: seq<string>, week: int, c: int): Option<PyError>
    requires c >= 0
  {
    if c >= |row| then Some(IndexError)
    else if row[c] == "" then None
    else if week - 1 >= Weeks then Some(IndexError)
    else if CellValue(row[c]).Err? then Some(ValueError)
    else None
  }

  /** The first error among columns 1..upTo-1 of the header. */
  function FirstCellError(fields: seq<string>, row: seq<string>, week: int, upTo: int): Option<PyError>
    decreases upTo
  {
    if upTo <= 1 then None
    else
      match FirstCellError(fields, row, week, upTo - 1)
      case Some(e) => Some(e)
      case None => if upTo - 1 < |fields| then CellError(row, week, upTo - 1) else None
  }

  /** The exception processing a row raises, if any. */
  function RowError(fields: seq<string>, row: seq<string>): Option<PyError>
  {
    match RowWeek(row)
    case Err(e) => Some(e)
    case Ok(w) => FirstCellError(fields, row, w, |fields|)
  }

  /** What columns 1..upTo-1 of a row add to district d. */
  function RowAmount(fields: seq<string>, row: seq<string>, d: string, upTo: int): int
    decreases upTo
  {
    if upTo <= 1 then 0
    else
      var c := upTo - 1;
      RowAmount(fields, row, d, c)
        + (if c < |fields| && c < |row| && fields[c] == d && row[c] != "" then Amount(row[c]) else 0)
  }

  /** What a whole row adds to district d. */
  function RowTotal(fields: seq<string>, row: seq<string>, d: string): int
  {
    RowAmount(fields, row, d, |fields|)
  }

  // ---------------------------------------------------------------- all rows

  /** The exception of the first failing row, if any. */
  function FirstRowError(fields: seq<string>, rows: seq<seq<string>>): Option<PyError>
  {
    if rows == [] then None
    else
      match FirstRowError(fields, rows[..|rows| - 1])
      case Some(e) => Some(e)
      case None => RowError(fields, rows[|rows| - 1])
  }

  /** Cases of district d reported on days of ISO week w. */
  function WeekTotal(fields: seq<string>, rows: seq<seq<string>>, d: string, w: int): int
  {
    if rows == [] then 0
    else
      var row := rows[|rows| - 1];
      WeekTotal(fields, rows[..|rows| - 1], d, w) + (if RowWeek(row) == Ok(w) then RowTotal(fields, row, d) else 0)
  }

  /** Cases of district d over all rows: the sum of int(float(cell)) over the
      non-empty cells of d's columns. */
  function ColumnTotal(fields: seq<string>, rows: seq<seq<string>>, d: string): int
  {
    if rows == [] then 0
    else ColumnTotal(fields, rows[..|rows| - 1], d) + RowTotal(fields, rows[|rows| - 1], d)
  }

  /** The 52 weekly counts of district d. */
  function WeeklyCounts(fields: seq<string>, rows: seq<seq<string>>, d: string): (s: seq<int>)
    ensures |s| == Weeks
    ensures forall k :: 0 <= k < Weeks ==> s[k] == WeekTotal(fields, rows, d, k + 1)
  {
    seq(Weeks, k => WeekTotal(fields, rows, d, k + 1))
  }

  /** The weekly lists of all districts. */
  function DistrictCounts(fields: seq<string>, rows: seq<seq<string>>): (m: map<string, seq<int>>)
    ensures m.Keys == Districts(fields)
    ensures forall d :: d in m ==> m[d] == WeeklyCounts(fields, rows, d)
  {
    map d | d in Districts(fields) :: WeeklyCounts(fields, rows, d)
  }

  /** The weekly lists as dict entries. */
  function WeeklyEntries(counts: map<string, seq<int>>): (m: map<string, Entry>)
    ensures m.Keys == counts.Keys
    ensures forall d :: d in counts ==> m[d] == Weekly(counts[d])
  {
    map d | d in counts :: Weekly(counts[d])
  }

  /** sum(counts) for the districts in `keys`. */
  function TotalsOf(counts: map<string, seq<int>>, keys: set<string>): (m: map<string, int>)
    requires keys <= counts.Keys
    ensures m.Keys == keys
    ensures forall d :: d in keys ==> m[d] == Sum(counts[d])
  {
    map d | d in keys :: Sum(counts[d])
  }

  /** The weekly lists as dict entries, with the "Cumulative" dict of each
      district's total added when there is at least one district. */
  function WithCumulative(counts: map<string, seq<int>>): Result<map<string, Entry>>
  {
    if counts.Keys == {} then Ok(WeeklyEntries(counts))
    else if CumulativeKey in counts then Err(TypeError)
    else Ok(WeeklyEntries(counts)[CumulativeKey := Totals(TotalsOf(counts, counts.Keys))])
  }

  /** The dict read_case_counts returns, or the exception it raises. */
  function CaseCountsOf(t: Table): Result<map<string, Entry>>
  {
    var fields := Fields(t.header);
    match FirstRowError(fields, t.rows)
    case Some(e) => Err(e)
    case None => WithCumulative(DistrictCounts(fields, t.rows))
  }

  // ---------------------------------------------------------------- read_case_counts

  lemma {:induction false} FirstCellErrorPersists(fields: seq<string>, row: seq<string>, week: int, i: int, j: int)
    requires i <= j && FirstCellError(fields, row, week, i).Some?
    ensures FirstCellError(fields, row, week, j) == FirstCellError(fields, row, week, i)
    decreases j - i
  {
    if i < j {
      FirstCellErrorPersists(fields, row, week, i, j - 1);
    }
  }

  lemma {:induction false} FirstRowErrorPersists(fields: seq<string>, rows: seq<seq<string>>, j: nat)
    requires j <= |rows| && FirstRowError(fields, rows[..j]).Some?
    ensures FirstRowError(fields, rows) == FirstRowError(fields, rows[..j])
    decreases |rows| - j
  {
    if j < |rows| {
      var init := rows[..|rows| - 1];
      assert init[..j] == rows[..j];
      FirstRowErrorPersists(fields, init, j);
      var e := FirstRowError(fields, init);
      assert e.Some?;
      assert FirstRowError(fields, rows) == e;
    } else {
      assert rows[..j] == rows;
    }
  }

  /** A row that fails makes the whole file fail with its exception, once
      the rows before it went through. */
  lemma {:induction false} RowFails(fields: seq<string>, rows: seq<seq<string>>, j: nat, e: PyError)
    requires j < |rows| && FirstRowError(fields, rows[..j]) == None
    requires RowError(fields, rows[j]) == Some(e)
    ensures FirstRowError(fields, rows) == Some(e)
  {
    assert rows[..j + 1][..j] == rows[..j];
    assert FirstRowError(fields, rows[..j + 1]) == Some(e);
    FirstRowErrorPersists(fields, rows, j + 1);
  }

  lemma {:induction false} FirstCellErrorAt(fields: seq<string>, row: seq<string>, week: int, col: int, e: PyError)
    requires 1 <= col < |fields| && FirstCellError(fields, row, week, col) == None
    requires CellError(row, week, col) == Some(e)
    ensures FirstCellError(fields, row, week, col + 1) == Some(e)
  {
  }

  /** A failing cell is the row's exception once the cells before it went through. */
  lemma {:induction false} CellFails(fields: seq<string>, row: seq<string>, week: int, col: int, e: PyError)
    requires 1 <= col < |fields| && FirstCellError(fields, row, week, col) == None
    requires CellError(row, week, col) == Some(e)
    ensures FirstCellError(fields, row, week, |fields|) == Some(e)
  {
    FirstCellErrorAt(fields, row, week, col, e);
    FirstCellErrorPersists(fields, row, week, col + 1, |fields|);
  }

  /** Adding a row to the rows seen so far adds its total into slot week-1. */
  lemma {:induction false} RowAdded(fields: seq<string>, rows: seq<seq<string>>, j: nat, week: int, d: string, k: int)
    requires j < |rows| && RowWeek(rows[j]) == Ok(week)
    ensures WeekTotal(fields, rows[..j + 1], d, k + 1)
         == WeekTotal(fields, rows[..j], d, k + 1) + (if k == week - 1 then RowTotal(fields, rows[j], d) else 0)
  {
    assert rows[..j + 1][..j] == rows[..j];
  }

  lemma {:induction false} RowAmountStep(fields: seq<string>, row: seq<string>, d: string, col: int)
    requires 1 <= col < |fields| && col < |row|
    ensures RowAmount(fields, row, d, col + 1)
         == RowAmount(fields, row, d, col) + (if fields[col] == d && row[col] != "" then Amount(row[col]) else 0)
  {
  }

  /** What one cell adds: `case_counts[fields[col]][week-1] += int(float(cell))`
      unless the cell is empty. */
  method AddCell(fields: seq<string>, row: seq<string>, week: int, col: int, counts: map<string, seq<int>>)
    returns (r: Result<map<string, seq<int>>>)
    requires week >= 1 && 1 <= col < |fields|
    requires forall c :: 1 <= c < |fields| ==> fields[c] in counts
    requires forall d :: d in counts ==> |counts[d]| == Weeks
    ensures r.Err? <==> CellError(row, week, col).Some?
    ensures r.Err? ==> CellError(row, week, col) == Some(r.error)
    ensures r.Ok? ==> r.value.Keys == counts.Keys
    ensures r.Ok? ==> forall d :: d in counts ==> |r.value[d]| == Weeks
    ensures r.Ok? ==> forall d, k :: d in counts && 0 <= k < Weeks && k != week - 1 ==> r.value[d][k] == counts[d][k]
    ensures r.Ok? && week <= Weeks ==> forall d :: d in counts ==>
      r.value[d][week - 1] == counts[d][week - 1] + (if fields[col] == d && row[col] != "" then Amount(row[col]) else 0)
  {
    if col >= |row| {
      return Err(IndexError);
    }
    var cell := row[col];
    if cell == "" {
      return Ok(counts);
    }
    if week - 1 >= Weeks {
      return Err(IndexError);
    }
    var v := CellValue(cell);
    if v.Err? {
      return Err(v.error);
    }
    var d := fields[col];
    r := Ok(counts[d := counts[d][week - 1 := counts[d][week - 1] + v.value]]);
  }

  /** The cells of a row whose date is in ISO week `week`, and what they add. */
  method AddRow(fields: seq<string>, row: seq<string>, week: int, counts: map<string, seq<int>>)
    returns (r: Result<map<string, seq<int>>>)
    requires week >= 1
    requires forall c :: 1 <= c < |fields| ==> fields[c] in counts
    requires forall d :: d in counts ==> |counts[d]| == Weeks
    ensures r.Err? <==> FirstCellError(fields, row, week, |fields|).Some?
    ensures r.Err? ==> FirstCellError(fields, row, week, |fields|) == Some(r.error)
    ensures r.Ok? ==> r.value.Keys == counts.Keys
    ensures r.Ok? ==> forall d :: d in counts ==> |r.value[d]| == Weeks
    ensures r.Ok? ==> forall d, k :: d in counts && 0 <= k < Weeks && k != week - 1 ==> r.value[d][k] == counts[d][k]
    ensures r.Ok? && week <= Weeks ==>
      forall d :: d in counts ==> r.value[d][week - 1] == counts[d][week - 1] + RowTotal(fields, row, d)
  {
    var acc := counts;
    var col := 1;
    while col < |fields|
      invariant 1 <= col && (col <= |fields| || col == 1)
      invariant FirstCellError(fields, row, week, col) == None
      invariant acc.Keys == counts.Keys
      invariant forall d :: d in acc ==> |acc[d]| == Weeks
      invariant forall d, k :: d in acc && 0 <= k < Weeks && k != week - 1 ==> acc[d][k] == counts[d][k]
      invariant week <= Weeks ==>
        forall d :: d in acc ==> acc[d][week - 1] == counts[d][week - 1] + RowAmount(fields, row, d, col)
    {
      var added := AddCell(fields, row, week, col, acc);
      if added.Err? {
        CellFails(fields, row, week, col, added.error);
        return added;
      }
      forall e | e in acc
        ensures RowAmount(fields, row, e, col + 1)
             == RowAmount(fields, row, e, col) + (if fields[col] == e && row[col] != "" then Amount(row[col]) else 0)
      {
        RowAmountStep(fields, row, e, col);
      }
      assert FirstCellError(fields, row, week, col + 1) == None;
      acc := added.value;
      col := col + 1;
    }
    forall d | d in acc
      ensures RowAmount(fields, row, d, col) == RowTotal(fields, row, d)
    {
    }
    r := Ok(acc);
  }

  /** The "Cumulative" pass over a snapshot of the keys (items() in Python 2). */
  method AddCumulative(counts: map<string, seq<int>>) returns (r: Result<map<string, Entry>>)
    ensures r == WithCumulative(counts)
  {
    var caseCounts := WeeklyEntries(counts);
    var pending := counts.Keys;
    while pending != {}
      invariant pending <= counts.Keys
      invariant pending != counts.Keys ==> CumulativeKey !in counts
      invariant pending == counts.Keys ==> caseCounts == WeeklyEntries(counts)
      invariant pending != counts.Keys ==>
        caseCounts == WeeklyEntries(counts)[CumulativeKey := Totals(TotalsOf(counts, counts.Keys - pending))]
    {
      var d :| d in pending;
      if CumulativeKey !in caseCounts {
        caseCounts := caseCounts[CumulativeKey := Totals(map[])];
      }
      match caseCounts[CumulativeKey]
      case Weekly(_) =>
        // a district named "Cumulative": its list cannot be indexed by a name
        return Err(TypeError);
      case Totals(totals) =>
        assert totals == TotalsOf(counts, counts.Keys - pending);
        assert totals[d := Sum(counts[d])] == TotalsOf(counts, counts.Keys - (pending - {d}));
        caseCounts := caseCounts[CumulativeKey := Totals(totals[d := Sum(counts[d])])];
      pending := pending - {d};
    }
    assert counts.Keys - pending == counts.Keys;
    r := Ok(caseCounts);
  }

  /** Before any row, every district's 52 slots are zero. */
  lemma {:induction false} NoRowsNoCases(fields: seq<string>, counts: map<string, seq<int>>)
    requires counts.Keys == Districts(fields)
    requires forall d :: d in counts ==> counts[d] == Zeros()
    ensures counts == DistrictCounts(fields, [])
  {
    forall d | d in counts
      ensures counts[d] == WeeklyCounts(fields, [], d)
    {
    }
  }

  /** The counts after a row that went through are those of one more row. */
  lemma {:induction false} RowStep(fields: seq<string>, rows: seq<seq<string>>, j: nat, week: int,
                before: map<string, seq<int>>, after: map<string, seq<int>>)
    requires j < |rows| && RowWeek(rows[j]) == Ok(week) && 1 <= week
    requires before == DistrictCounts(fields, rows[..j])
    requires after.Keys == before.Keys
    requires forall d :: d in before ==> |after[d]| == Weeks
    requires forall d, k :: d in before && 0 <= k < Weeks && k != week - 1 ==> after[d][k] == before[d][k]
    requires week <= Weeks ==> forall d :: d in before ==> after[d][week - 1] == before[d][week - 1] + RowTotal(fields, rows[j], d)
    ensures after == DistrictCounts(fields, rows[..j + 1])
  {
    forall d | d in after
      ensures after[d] == WeeklyCounts(fields, rows[..j + 1], d)
    {
      forall k | 0 <= k < Weeks
        ensures after[d][k] == WeekTotal(fields, rows[..j + 1], d, k + 1)
      {
        RowAdded(fields, rows, j, week, d, k);
      }
    }
  }

  /** One data row: its date, then its cells. */
  method ReadRow(fields: seq<string>, row: seq<string>, counts: map<string, seq<int>>)
    returns (r: Result<map<string, seq<int>>>)
    requires forall c :: 1 <= c < |fields| ==> fields[c] in counts
    requires forall d :: d in counts ==> |counts[d]| == Weeks
    ensures r.Err? ==> RowError(fields, row) == Some(r.error)
    ensures r.Ok? ==> RowError(fields, row) == None && RowWeek(row).Ok? && 1 <= RowWeek(row).value
    ensures r.Ok? ==> r.value.Keys == counts.Keys
    ensures r.Ok? ==> forall d :: d in counts ==> |r.value[d]| == Weeks
    ensures r.Ok? ==> forall d, k :: d in counts && 0 <= k < Weeks && k != RowWeek(row).value - 1 ==>
      r.value[d][k] == counts[d][k]
    ensures r.Ok? && RowWeek(row).value <= Weeks ==> forall d :: d in counts ==>
      r.value[d][RowWeek(row).value - 1] == counts[d][RowWeek(row).value - 1] + RowTotal(fields, row, d)
  {
    if |row| == 0 {
      return Err(IndexError);
    }
    var wk := WeekOfDate(row[0]);
    if wk.Err? {
      return Err(wk.error);
    }
    r := AddRow(fields, row, wk.value, counts);
  }

  /** `case_counts[f] = [0]*52` for every district field. */
  method ZeroCounts(fields: seq<string>) returns (counts: map<string, seq<int>>)
    ensures counts == DistrictCounts(fields, [])
  {
    counts := map[];
    var i := 1;
    while i < |fields|
      invariant 1 <= i
      invariant counts.Keys == set c | 1 <= c < i && c < |fields| :: fields[c]
      invariant forall d :: d in counts ==> counts[d] == Zeros()
    {
      counts := counts[fields[i] := Zeros()];
      i := i + 1;
    }
    assert counts.Keys == Districts(fields);
    NoRowsNoCases(fields, counts);
  }

  /** The data rows, one after the other, each added into the weekly lists;
      the first row that fails stops the file. */
  method ReadRows(fields: seq<string>, rows: seq<seq<string>>) returns (r: Result<map<string, seq<int>>>)
    ensures r.Err? ==> FirstRowError(fields, rows) == Some(r.error)
    ensures r.Ok? ==> FirstRowError(fields, rows) == None && r.value == DistrictCounts(fields, rows)
  {
    var counts := ZeroCounts(fields);
    assert rows[..0] == [];
    var j := 0;
    while j < |rows|
      invariant 0 <= j <= |rows|
      invariant FirstRowError(fields, rows[..j]) == None
      invariant counts == DistrictCounts(fields, rows[..j])
    {
      var added := ReadRow(fields, rows[j], counts);
      if added.Err? {
        RowFails(fields, rows, j, added.error);
        return Err(added.error);
      }
      RowStep(fields, rows, j, RowWeek(rows[j]).value, counts, added.value);
      assert rows[..j + 1][..j] == rows[..j];
      counts := added.value;
      j := j + 1;
    }
    assert rows[..j] == rows;
    r := Ok(counts);
  }

  /** read_case_counts on one file's table: zero-filled 52-slot lists for the
      districts, each non-empty cell added into slot week-1 of its district,
      then the "Cumulative" totals; the result is CaseCountsOf(t). */
  method ReadCaseCounts(t: Table) returns (r: Result<map<string, Entry>>)
    ensures r == CaseCountsOf(t)
  {
    var counts := ReadRows(Fields(t.header), t.rows);
    if counts.Err? {
      return Err(counts.error);
    }
    r := AddCumulative(counts.value);
  }

  // ---------------------------------------------------------------- properties

  /** A weekly list with x added into the slot of ISO week w, if there is one. */
  function AddToWeek(s: seq<int>, w: int, x: int): (r: seq<int>)
    ensures |r| == |s|
  {
    if 1 <= w <= |s| then s[w - 1 := s[w - 1] + x] else s
  }

  /** Appending a row that goes through adds its cells into the slot of its
      own ISO week and leaves the other 51 slots alone; a week-53 row changes
      nothing. */
  lemma {:induction false} AppendRow(fields: seq<string>, rows: seq<seq<string>>, row: seq<string>, d: string)
    requires FirstRowError(fields, rows + [row]) == None
    ensures FirstRowError(fields, rows) == None && RowError(fields, row) == None
    ensures RowWeek(row).Ok? && 1 <= RowWeek(row).value <= 53
    ensures WeeklyCounts(fields, rows + [row], d)
         == AddToWeek(WeeklyCounts(fields, rows, d), RowWeek(row).value, RowTotal(fields, row, d))
  {
    var all := rows + [row];
    assert all[..|all| - 1] == rows && all[|all| - 1] == row;
    LastRowAdds(fields, all, d, RowWeek(row).value);
  }

  /** The last row's cells go into the slot of its week. */
  lemma {:induction false} LastRowAdds(fields: seq<string>, rows: seq<seq<string>>, d: string, w: int)
    requires |rows| > 0 && RowWeek(rows[|rows| - 1]) == Ok(w)
    ensures WeeklyCounts(fields, rows, d)
         == AddToWeek(WeeklyCounts(fields, rows[..|rows| - 1], d), w, RowTotal(fields, rows[|rows| - 1], d))
  {
    var init, row := rows[..|rows| - 1], rows[|rows| - 1];
    var after := WeeklyCounts(fields, rows, d);
    var expected := AddToWeek(WeeklyCounts(fields, init, d), w, RowTotal(fields, row, d));
    forall k | 0 <= k < Weeks
      ensures after[k] == expected[k]
    {
      assert after[k] == WeekTotal(fields, init, d, k + 1) + (if w == k + 1 then RowTotal(fields, row, d) else 0);
    }
    assert after == expected;
  }

  /** Cells of a row whose date lies in ISO week 53 all have to be empty for
      the row to go through, so such a row adds nothing. */
  lemma {:induction false} LateRowAddsNothing(fields: seq<string>, row: seq<string>, w: int, d: string, upTo: int)
    requires w > Weeks && upTo <= |fields|
    requires FirstCellError(fields, row, w, upTo) == None
    ensures RowAmount(fields, row, d, upTo) == 0
    decreases upTo
  {
    if upTo > 1 {
      LateRowAddsNothing(fields, row, w, d, upTo - 1);
    }
  }

  /** Adding x into one slot adds x to the total; adding nothing anywhere
      changes nothing. */
  lemma {:induction false} SumAddToWeek(s: seq<int>, w: int, x: int)
    requires 1 <= w <= |s| || x == 0
    ensures Sum(AddToWeek(s, w, x)) == Sum(s) + x
  {
    if 1 <= w <= |s| {
      SumUpdate(s, w - 1, x);
    }
  }

  /** The last row keeps the weekly counts and the column total in step. */
  lemma {:induction false} ColumnStep(fields: seq<string>, rows: seq<seq<string>>, d: string)
    requires |rows| > 0 && FirstRowError(fields, rows) == None
    requires Sum(WeeklyCounts(fields, rows[..|rows| - 1], d)) == ColumnTotal(fields, rows[..|rows| - 1], d)
    ensures Sum(WeeklyCounts(fields, rows, d)) == ColumnTotal(fields, rows, d)
  {
    var row := rows[|rows| - 1];
    assert RowError(fields, row) == None;
    var w := RowWeek(row).value;
    LastRowAdds(fields, rows, d, w);
    if w > Weeks {
      LateRowAddsNothing(fields, row, w, d, |fields|);
    }
    SumAddToWeek(WeeklyCounts(fields, rows[..|rows| - 1], d), w, RowTotal(fields, row, d));
  }

  /** The 52 weekly counts of a district add up to all its reported cases:
      nothing is lost or counted twice (the "Cumulative" entry). */
  lemma {:induction false} WeeksAddUpToColumn(fields: seq<string>, rows: seq<seq<string>>, d: string)
    requires FirstRowError(fields, rows) == None
    ensures Sum(WeeklyCounts(fields, rows, d)) == ColumnTotal(fields, rows, d)
    decreases |rows|
  {
    if rows == [] {
      SumOfZeros(WeeklyCounts(fields, rows, d));
    } else {
      WeeksAddUpToColumn(fields, rows[..|rows| - 1], d);
      ColumnStep(fields, rows, d);
    }
  }

  /** What read_case_counts returns: one 52-slot list per district holding
      the cases of each ISO week, and, when there is a district, the
      "Cumulative" dict holding every district's total over all rows. */
  lemma {:induction false} CaseCountsMeaning(t: Table)
    requires CaseCountsOf(t).Ok?
    ensures var fields := Fields(t.header);
            var ds := Districts(fields);
            var m := CaseCountsOf(t).value;
            FirstRowError(fields, t.rows) == None
            && (forall d :: d in ds ==> d in m && m[d] == Weekly(WeeklyCounts(fields, t.rows, d)))
            && (ds == {} ==> m.Keys == {})
            && (ds != {} ==>
                  CumulativeKey !in ds
                  && m.Keys == ds + {CumulativeKey}
                  && m[CumulativeKey] == Totals(map d | d in ds :: ColumnTotal(fields, t.rows, d)))
  {
    var fields := Fields(t.header);
    if Districts(fields) != {} {
      CumulativeTotals(fields, t.rows);
    }
  }

  /** The "Cumulative" dict holds each district's column total. */
  lemma {:induction false} CumulativeTotals(fields: seq<string>, rows: seq<seq<string>>)
    requires FirstRowError(fields, rows) == None
    ensures var counts := DistrictCounts(fields, rows);
            TotalsOf(counts, counts.Keys) == map d | d in Districts(fields) :: ColumnTotal(fields, rows, d)
  {
    var counts := DistrictCounts(fields, rows);
    var totals := TotalsOf(counts, counts.Keys);
    forall d | d in totals
      ensures totals[d] == ColumnTotal(fields, rows, d)
    {
      WeeksAddUpToColumn(fields, rows, d);
    }
  }

  /** read_case_counts fails exactly when a row fails or a district is named
      "Cumulative"; the first failing row's exception wins. */
  lemma {:induction false} CaseCountsFailure(t: Table)
    ensures var fields := Fields(t.header);
            CaseCountsOf(t).Err? <==> FirstRowError(fields, t.rows).Some? || CumulativeKey in Districts(fields)
    ensures var fields := Fields(t.header);
            FirstRowError(fields, t.rows).Some? ==> CaseCountsOf(t) == Err(FirstRowError(fields, t.rows).value)
    ensures var fields := Fields(t.header);
            FirstRowError(fields, t.rows).None? && CumulativeKey in Districts(fields) ==> CaseCountsOf(t) == Err(TypeError)
  {
    var fields := Fields(t.header);
    if CumulativeKey in Districts(fields) {
      assert DistrictCounts(fields, t.rows).Keys != {};
    }
  }

  /** Before any data row every district has 52 zero slots. */
  lemma {:induction false} HeaderOnly(header: seq<string>)
    ensures var ds := Districts(Fields(header));
            CumulativeKey !in ds ==> CaseCountsOf(Table(header, [])).Ok?
    ensures var ds := Districts(Fields(header));
            CumulativeKey !in ds ==> forall d :: d in ds ==>
              CaseCountsOf(Table(header, [])).value[d] == Weekly(Zeros())
  {
    var fields := Fields(header);
    forall d | d in Districts(fields)
      ensures WeeklyCounts(fields, [], d) == Zeros()
    {
    }
  }

  /** A row shorter than the header always fails: its first missing cell
      raises IndexError unless an earlier cell already failed. */
  lemma {:induction false} ShortRowFails(fields: seq<string>, row: seq<string>)
    requires |row| < |fields|
    ensures RowError(fields, row).Some?
    ensures |row| == 0 ==> RowError(fields, row) == Some(IndexError)
    ensures RowWeek(row).Ok? && FirstCellError(fields, row, RowWeek(row).value, |row|) == None ==>
      RowError(fields, row) == Some(IndexError)
  {
    if RowWeek(row).Ok? {
      var w := RowWeek(row).value;
      var c := |row|;
      if FirstCellError(fields, row, w, c) == None {
        FirstCellErrorAt(fields, row, w, c, IndexError);
        FirstCellErrorPersists(fields, row, w, c + 1, |fields|);
      } else {
        FirstCellErrorPersists(fields, row, w, c, |fields|);
      }
    }
  }

  /** In a row dated in ISO week 53 every non-empty cell raises IndexError
      (slot 53 does not exist), so the row goes through exactly when its
      cells are all empty. */
  lemma {:induction false} LateRowCells(fields: seq<string>, row: seq<string>, w: int, upTo: int)
    requires w > Weeks && upTo <= |fields| <= |row|
    ensures FirstCellError(fields, row, w, upTo) == None <==> forall c :: 1 <= c < upTo ==> row[c] == ""
    ensures FirstCellError(fields, row, w, upTo) != None ==> FirstCellError(fields, row, w, upTo) == Some(IndexError)
    decreases upTo
  {
    if upTo > 1 {
      LateRowCells(fields, row, w, upTo - 1);
    }
  }

  lemma {:induction false} LateRow(fields: seq<string>, row: seq<string>)
    requires |row| >= |fields| && RowWeek(row) == Ok(53)
    ensures RowError(fields, row) == None <==> forall c :: 1 <= c < |fields| ==> row[c] == ""
    ensures RowError(fields, row) != None ==> RowError(fields, row) == Some(IndexError)
  {
    LateRowCells(fields, row, 53, |fields|);
  }

  // ---------------------------------------------------------------- get_ebola_counts_by_country

  /** iso_by_country: the countries with a situation-report file. */
  const IsoByCountry: map<string, string> := map["Guinee" := "GIN", "Sierra_Leone" := "SLE", "Liberia" := "LBR"]

  /** The situation-report file of a country. */
  function ReportFile(country: string): string
  {
    country + "_EVD_2014.csv"
  }

  /** No two countries share an ISO code. */
  ghost predicate CodesDistinct(iso: map<string, string>)
  {
    forall a, b :: a in iso && b in iso && a != b ==> iso[a] != iso[b]
  }

  /** What one country contributes: its ISO code and its case counts, or the
      exception raised looking it up in `iso` (KeyError), opening its file
      (IOError) or reading it with `read`. The specification takes the code
      table and the file reader as parameters; the method runs on
      IsoByCountry and read_case_counts (CaseCountsOf). */
  function CountryCounts(iso: map<string, string>, read: Table -> Result<map<string, Entry>>,
                         country: string, files: map<string, Table>)
    : Result<(string, map<string, Entry>)>
  {
    if country !in iso then Err(KeyError)
    else if ReportFile(country) !in files then Err(IOError)
    else
      match read(files[ReportFile(country)])
      case Err(e) => Err(e)
      case Ok(m) => Ok((iso[country], m))
  }

  /** The cases dict after the given countries, in order; the first failing
      country aborts the run. */
  function CountsByCountryOf(iso: map<string, string>, read: Table -> Result<map<string, Entry>>,
                             countries: seq<string>, files: map<string, Table>)
    : Result<map<string, map<string, Entry>>>
  {
    if countries == [] then Ok(map[])
    else
      match CountsByCountryOf(iso, read, countries[..|countries| - 1], files)
      case Err(e) => Err(e)
      case Ok(cases) =>
        match CountryCounts(iso, read, countries[|countries| - 1], files)
        case Err(e) => Err(e)
        case Ok(p) => Ok(cases[p.0 := p.1])
  }

  /** get_ebola_counts_by_country, with the data directory given as a map
      from file name to the table in that file. */
  method CountsByCountry(countries: seq<string>, files: map<string, Table>)
    returns (r: Result<map<string, map<string, Entry>>>)
    ensures r == CountsByCountryOf(IsoByCountry, CaseCountsOf, countries, files)
  {
    var cases: map<string, map<string, Entry>> := map[];
    var i := 0;
    while i < |countries|
      invariant 0 <= i <= |countries|
      invariant CountsByCountryOf(IsoByCountry, CaseCountsOf, countries[..i], files) == Ok(cases)
    {
      var country := countries[i];
      assert countries[..i + 1][..i] == countries[..i];
      if country !in IsoByCountry {
        FirstCountryFails(IsoByCountry, CaseCountsOf, countries, files, i + 1);
        return Err(KeyError);
      }
      var iso := IsoByCountry[country];
      var name := ReportFile(country);
      if name !in files {
        FirstCountryFails(IsoByCountry, CaseCountsOf, countries, files, i + 1);
        return Err(IOError);
      }
      var read := ReadCaseCounts(files[name]);
      if read.Err? {
        FirstCountryFails(IsoByCountry, CaseCountsOf, countries, files, i + 1);
        return Err(read.error);
      }
      cases := cases[iso := read.value];
      i := i + 1;
    }
    assert countries[..i] == countries;
    r := Ok(cases);
  }

  lemma {:induction false} FirstCountryFails(iso: map<string, string>, read: Table -> Result<map<string, Entry>>,
                                             countries: seq<string>, files: map<string, Table>, j: nat)
    requires j <= |countries| && CountsByCountryOf(iso, read, countries[..j], files).Err?
    ensures CountsByCountryOf(iso, read, countries, files) == CountsByCountryOf(iso, read, countries[..j], files)
    decreases |countries| - j
  {
    if j < |countries| {
      var init := countries[..|countries| - 1];
      assert init[..j] == countries[..j];
      FirstCountryFails(iso, read, init, files, j);
    } else {
      assert countries[..j] == countries;
    }
  }

  /** The three ISO codes are distinct, so no country overwrites another. */
  lemma {:induction false} IsoCodesDistinct()
    ensures CodesDistinct(IsoByCountry)
    ensures IsoByCountry.Keys == {"Guinee", "Sierra_Leone", "Liberia"}
  {
  }

  /** get_ebola_counts_by_country succeeds exactly when every country is
      known, has its file and that file parses; then, when no two countries
      share a code, the result maps each country's ISO code to that file's
      case counts. */
  lemma {:induction false} CountsByCountryMeaning(iso: map<string, string>, read: Table -> Result<map<string, Entry>>,
                                                  countries: seq<string>, files: map<string, Table>)
    requires CodesDistinct(iso)
    ensures CountsByCountryOf(iso, read, countries, files).Ok? <==>
            forall c :: c in countries ==> CountryCounts(iso, read, c, files).Ok?
    ensures CountsByCountryOf(iso, read, countries, files).Ok? ==>
            var cases := CountsByCountryOf(iso, read, countries, files).value;
            cases.Keys == (set c | c in countries && c in iso :: iso[c])
            && forall c :: c in countries ==> cases[iso[c]] == read(files[ReportFile(c)]).value
    decreases |countries|
  {
    if countries != [] {
      var init := countries[..|countries| - 1];
      var last := countries[|countries| - 1];
      assert countries == init + [last];
      CountsByCountryMeaning(iso, read, init, files);
    }
  }
}
