/**
  The second half of `generate_report`: the summary pivot built from the
  cleaned table, one sheet per listed area, the rows without an area, and
  the cleaned table itself, collected into a dict in insertion order.

  A cleaned table has the columns `OutputColumns`; by position these are
  0 Teacher, 1 Teacher Clean, 2 Center, 3 Area, 4 Class Type, 5 Date,
  6 Time and 7 Month.
 */
module Sheets {
  import opened Wrappers
  import opened Frame
  import opened Summary
  import opened Report
  import CenterMap

  /** The number of columns of a cleaned table. */
  const Width: nat := 8

  /** A table shaped like the output of the cleaning. */
  ghost predicate CleanShape(c: Table) {
    c.columns == OutputColumns && Rectangular(c)
  }

  // ---------------------------------------------------------------------
  // Counting

  /** The (Area, Teacher Clean, Month) key of a row; none when a key cell is missing, as `groupby` drops such rows. */
  function TallyOf(o: Row): (r: Option<Tally>)
    requires |o| == Width
    ensures r.Some? <==> o[3].Text? && o[1].Text? && o[7].Text?
    ensures r.Some? ==> o[3] == Text(r.value.area) && o[1] == Text(r.value.teacher) && o[7] == Text(r.value.month)
  {
    if o[3].Text? && o[1].Text? && o[7].Text? then Some(Tally(o[3].text, o[1].text, o[7].text)) else None
  }

  /** The keys of the counted rows, in row order. */
  function Tallies(rows: seq<Row>): (r: seq<Tally>)
    requires forall k :: 0 <= k < |rows| ==> |rows[k]| == Width
    ensures forall x :: x in r <==> exists k :: 0 <= k < |rows| && TallyOf(rows[k]) == Some(x)
  {
    if rows == [] then []
    else
      var init := rows[..|rows| - 1];
      var last := TallyOf(rows[|rows| - 1]);
      Tallies(init) + (if last.Some? then [last.value] else [])
  }

  /** Reference count: the rows with exactly these Area, Teacher Clean and Month cells. */
  function CountRows(rows: seq<Row>, area: string, teacher: string, month: string): (n: nat)
    requires forall k :: 0 <= k < |rows| ==> |rows[k]| == Width
    ensures n <= |rows|
  {
    if rows == [] then 0
    else
      var o := rows[|rows| - 1];
      CountRows(rows[..|rows| - 1], area, teacher, month) +
        (if o[3] == Text(area) && o[1] == Text(teacher) && o[7] == Text(month) then 1 else 0)
  }

  /** Each key occurs among the tallies as many times as rows carry it. */
  lemma {:induction false} TalliesCount(rows: seq<Row>, x: Tally)
    requires forall k :: 0 <= k < |rows| ==> |rows[k]| == Width
    ensures multiset(Tallies(rows))[x] == CountRows(rows, x.area, x.teacher, x.month)
  {
    if rows != [] {
      TalliesCount(rows[..|rows| - 1], x);
    }
  }

  /**
    The summary grid counts the cleaned rows: its cell for (Area, Teacher)
    and Month is the number of rows with those cells, 0 when there are none;
    its rows and month columns are exactly the keys that occur.
   */
  lemma SummaryCounts(rows: seq<Row>)
    requires forall k :: 0 <= k < |rows| ==> |rows[k]| == Width
    ensures var g := Summarize(Tallies(rows));
      forall i, j :: 0 <= i < |g.index| && 0 <= j < |g.months| ==>
        g.counts[i][j] == CountRows(rows, g.index[i].0, g.index[i].1, g.months[j])
    ensures var g := Summarize(Tallies(rows));
      forall p :: p in g.index <==>
        exists k :: 0 <= k < |rows| && rows[k][3] == Text(p.0) && rows[k][1] == Text(p.1) && rows[k][7].Text?
    ensures var g := Summarize(Tallies(rows));
      forall m :: m in g.months <==>
        exists k :: 0 <= k < |rows| && rows[k][3].Text? && rows[k][1].Text? && rows[k][7] == Text(m)
  {
    var g := Summarize(Tallies(rows));
    SummaryCells(rows, g);
    SummaryIndex(rows, g);
    SummaryMonths(rows, g);
  }

  lemma SummaryCells(rows: seq<Row>, g: Grid)
    requires forall k :: 0 <= k < |rows| ==> |rows[k]| == Width
    requires g == Summarize(Tallies(rows))
    ensures forall i, j :: 0 <= i < |g.index| && 0 <= j < |g.months| ==>
      g.counts[i][j] == CountRows(rows, g.index[i].0, g.index[i].1, g.months[j])
  {
    forall i, j | 0 <= i < |g.index| && 0 <= j < |g.months|
      ensures g.counts[i][j] == CountRows(rows, g.index[i].0, g.index[i].1, g.months[j])
    {
      TalliesCount(rows, Tally(g.index[i].0, g.index[i].1, g.months[j]));
    }
  }

  lemma SummaryIndex(rows: seq<Row>, g: Grid)
    requires forall k :: 0 <= k < |rows| ==> |rows[k]| == Width
    requires g == Summarize(Tallies(rows))
    ensures forall p :: p in g.index <==>
      exists k :: 0 <= k < |rows| && rows[k][3] == Text(p.0) && rows[k][1] == Text(p.1) && rows[k][7].Text?
  {
    var ts := Tallies(rows);
    forall p | p in g.index
      ensures exists k :: 0 <= k < |rows| && rows[k][3] == Text(p.0) && rows[k][1] == Text(p.1) && rows[k][7].Text?
    {
      var x :| x in ts && p == (x.area, x.teacher);
      var k :| 0 <= k < |rows| && TallyOf(rows[k]) == Some(x);
    }
    forall p: (string, string) | exists k :: 0 <= k < |rows| && rows[k][3] == Text(p.0) && rows[k][1] == Text(p.1) && rows[k][7].Text?
      ensures p in g.index
    {
      var k :| 0 <= k < |rows| && rows[k][3] == Text(p.0) && rows[k][1] == Text(p.1) && rows[k][7].Text?;
      var x := TallyOf(rows[k]).value;
      assert x in ts && p == (x.area, x.teacher);
    }
  }

  lemma SummaryMonths(rows: seq<Row>, g: Grid)
    requires forall k :: 0 <= k < |rows| ==> |rows[k]| == Width
    requires g == Summarize(Tallies(rows))
    ensures forall m :: m in g.months <==>
      exists k :: 0 <= k < |rows| && rows[k][3].Text? && rows[k][1].Text? && rows[k][7] == Text(m)
  {
    var ts := Tallies(rows);
    forall m | m in g.months
      ensures exists k :: 0 <= k < |rows| && rows[k][3].Text? && rows[k][1].Text? && rows[k][7] == Text(m)
    {
      var x :| x in ts && m == x.month;
      var k :| 0 <= k < |rows| && TallyOf(rows[k]) == Some(x);
    }
    forall m: string | exists k :: 0 <= k < |rows| && rows[k][3].Text? && rows[k][1].Text? && rows[k][7] == Text(m)
      ensures m in g.months
    {
      var k :| 0 <= k < |rows| && rows[k][3].Text? && rows[k][1].Text? && rows[k][7] == Text(m);
      var x := TallyOf(rows[k]).value;
      assert x in ts && m == x.month;
    }
  }

  /** A row whose Area or Month is missing changes no cell of the summary. */
  lemma UncountedRow(rows: seq<Row>, o: Row)
    requires forall k :: 0 <= k < |rows| ==> |rows[k]| == Width
    requires |o| == Width && (o[3] == Null || o[7] == Null)
    ensures Summarize(Tallies(rows + [o])) == Summarize(Tallies(rows))
  {
    assert (rows + [o])[..|rows|] == rows;
    assert TallyOf(o).None?;
    assert Tallies(rows + [o]) == Tallies(rows);
  }

  // ---------------------------------------------------------------------
  // Routing rows to sheets

  /** The row's Area cell is `a`. */
  predicate AreaIs(o: Row, a: Cell) {
    |o| > 3 && o[3] == a
  }

  /** `df_clean.loc[df_clean["Area"] == a]` (or `.isnull()` for `a == Null`): the rows with that Area, in order. */
  function WithArea(rows: seq<Row>, a: Cell): (r: seq<Row>)
    ensures forall o :: o in r <==> o in rows && AreaIs(o, a)
  {
    if rows == [] then []
    else
      assert rows == [rows[0]] + rows[1..];
      (if AreaIs(rows[0], a) then [rows[0]] else []) + WithArea(rows[1..], a)
  }

  /** Selection keeps every copy of a selected row and no copy of another. */
  lemma {:induction false} WithAreaCount(rows: seq<Row>, a: Cell, o: Row)
    ensures multiset(WithArea(rows, a))[o] == if AreaIs(o, a) then multiset(rows)[o] else 0
  {
    if rows != [] {
      WithAreaCount(rows[1..], a, o);
      assert rows == [rows[0]] + rows[1..];
    }
  }

  /** Selection keeps the row order: filtering a concatenation concatenates the filtered parts. */
  lemma {:induction false} WithAreaAppend(xs: seq<Row>, ys: seq<Row>, a: Cell)
    ensures WithArea(xs + ys, a) == WithArea(xs, a) + WithArea(ys, a)
  {
    if xs == [] {
      assert xs + ys == ys;
    } else {
      var h := if AreaIs(xs[0], a) then [xs[0]] else [];
      assert (xs + ys)[0] == xs[0];
      assert (xs + ys)[1..] == xs[1..] + ys;
      WithAreaAppend(xs[1..], ys, a);
      var p, q := WithArea(xs[1..], a), WithArea(ys, a);
      assert h + (p + q) == (h + p) + q;
    }
  }

  /** The sheet of one area: its rows, re-indexed, without the Month column. */
  function AreaSheet(c: Table, a: string): (r: Table)
    requires CleanShape(c)
    ensures r.columns == OutputColumns[..7] && "Month" !in r.columns
    ensures var w := WithArea(c.rows, Text(a));
      |r.rows| == |w| && forall k :: 0 <= k < |w| ==> |w[k]| == Width && r.rows[k] == w[k][..7]
  {
    var w := WithArea(c.rows, Text(a));
    assert forall k :: 0 <= k < |w| ==> w[k] in c.rows;
    Table(OutputColumns[..7], seq(|w|, k requires 0 <= k < |w| => w[k][..7]))
  }

  /** The rows whose Area is missing, with every column. */
  function UnmappedSheet(c: Table): (r: Table)
    requires CleanShape(c)
    ensures r.columns == OutputColumns
    ensures forall o :: o in r.rows <==> o in c.rows && AreaIs(o, Null)
  {
    Table(c.columns, WithArea(c.rows, Null))
  }

  /**
    Each cleaned row goes to exactly one place besides "Raw Data": the
    sheet of its area when that is one of the six, "Unmapped" when its area
    is missing, and no other sheet when its area is one of the directory's
    other areas.
   */
  lemma Routing(m: Table, parse: Cell -> Option<Stamp>, o: Row)
    requires Rectangular(m) && CleanTrimmed(m, parse).Success? && o in CleanTrimmed(m, parse).value.rows
    ensures var c := CleanTrimmed(m, parse).value;
      (o in UnmappedSheet(c).rows <==> o[3] == Null)
    ensures var c := CleanTrimmed(m, parse).value;
      forall a :: a in SheetAreas ==> (o in WithArea(c.rows, Text(a)) <==> o[3] == Text(a))
    ensures var c := CleanTrimmed(m, parse).value;
      o[3].Text? && o[3].text !in SheetAreas ==>
        && o[3].text in CenterMap.Areas()
        && o !in UnmappedSheet(c).rows
        && forall a :: a in SheetAreas ==> o !in WithArea(c.rows, Text(a))
  {
    CleanRowShape(m, parse, o);
  }

  // ---------------------------------------------------------------------
  // The result dict

  datatype Sheet = Pivoted(grid: Grid) | Plain(table: Table)

  /** A Python dict: the keys in insertion order, and the entries. */
  datatype Dict = Dict(keys: seq<string>, entries: map<string, Sheet>)

  /** The keys are distinct and are exactly the entries' keys. */
  ghost predicate WellFormed(d: Dict) {
    && (forall i, j :: 0 <= i < j < |d.keys| ==> d.keys[i] != d.keys[j])
    && (forall k :: k in d.entries <==> k in d.keys)
  }

  /** `d[k] = v`: a new key goes to the end, an existing one keeps its place. */
  function Put(d: Dict, k: string, v: Sheet): (r: Dict)
    ensures WellFormed(d) ==> WellFormed(r)
    ensures r.entries == d.entries[k := v]
    ensures r.keys == if k in d.entries then d.keys else d.keys + [k]
  {
    Dict(if k in d.entries then d.keys else d.keys + [k], d.entries[k := v])
  }

  /** The report of a cleaned table, as `generate_report` fills its result dict. */
  ghost predicate Assembled(c: Table, d: Dict)
    requires CleanShape(c)
  {
    && d.keys == SheetNames
    && (forall k :: k in d.entries <==> k in SheetNames)
    && "Summary" in d.entries && d.entries["Summary"] == Pivoted(Summarize(Tallies(c.rows)))
    && (forall i :: 0 <= i < |SheetAreas| ==>
          SheetAreas[i] in d.entries && d.entries[SheetAreas[i]] == Plain(AreaSheet(c, SheetAreas[i])))
    && "Unmapped" in d.entries && d.entries["Unmapped"] == Plain(UnmappedSheet(c))
    && "Raw Data" in d.entries && d.entries["Raw Data"] == Plain(c)
  }

  /** No area is listed twice, and none is called like another sheet. */
  lemma SheetAreasDistinct()
    ensures forall i, j :: 0 <= i < j < |SheetAreas| ==> SheetAreas[i] != SheetAreas[j]
    ensures forall i :: 0 <= i < |SheetAreas| ==>
      SheetAreas[i] != "Summary" && SheetAreas[i] != "Unmapped" && SheetAreas[i] != "Raw Data"
    ensures "Summary" !in SheetAreas
  {
  }

  /** Fills the result dict: the summary, the six area sheets, the unmapped rows, the raw data. */
  method BuildResult(c: Table) returns (d: Dict)
    requires CleanShape(c)
    ensures WellFormed(d) && Assembled(c, d)
  {
    d := Dict([], map[]);
    d := Put(d, "Summary", Pivoted(Summarize(Tallies(c.rows))));
    var areas := AddAreaSheets(c, d);
    d := Put(Put(areas, "Unmapped", Plain(UnmappedSheet(c))), "Raw Data", Plain(c));
    LastSheets(c, areas, d);
  }

  /** After the area loop, the last two assignments complete the report. */
  lemma LastSheets(c: Table, areas: Dict, d: Dict)
    requires CleanShape(c)
    requires areas.keys == ["Summary"] + SheetAreas && (forall x :: x in areas.entries <==> x in areas.keys)
    requires areas.entries["Summary"] == Pivoted(Summarize(Tallies(c.rows)))
    requires forall i :: 0 <= i < |SheetAreas| ==> areas.entries[SheetAreas[i]] == Plain(AreaSheet(c, SheetAreas[i]))
    requires d == Put(Put(areas, "Unmapped", Plain(UnmappedSheet(c))), "Raw Data", Plain(c))
    ensures WellFormed(d) && Assembled(c, d)
  {
    LastKeys(areas, d, Plain(UnmappedSheet(c)), Plain(c));
  }

  /** The last two assignments append their keys and leave the earlier entries alone. */
  lemma LastKeys(areas: Dict, d: Dict, unmapped: Sheet, raw: Sheet)
    requires areas.keys == ["Summary"] + SheetAreas && (forall x :: x in areas.entries <==> x in areas.keys)
    requires d == Put(Put(areas, "Unmapped", unmapped), "Raw Data", raw)
    ensures d.keys == SheetNames && WellFormed(d)
    ensures forall k :: k in d.entries <==> k in SheetNames
    ensures "Summary" in d.entries && d.entries["Summary"] == areas.entries["Summary"]
    ensures forall i :: 0 <= i < |SheetAreas| ==>
      SheetAreas[i] in d.entries && d.entries[SheetAreas[i]] == areas.entries[SheetAreas[i]]
    ensures "Unmapped" in d.entries && d.entries["Unmapped"] == unmapped
    ensures "Raw Data" in d.entries && d.entries["Raw Data"] == raw
  {
    ReservedNames();
    TwoKeysAppended(areas, d, "Unmapped", "Raw Data", unmapped, raw);
    EntriesKept(areas, d, "Summary", SheetAreas);
  }

  /** `d` keeps the head and every listed key of `areas`, with their entries. */
  lemma EntriesKept(areas: Dict, d: Dict, head: string, names: seq<string>)
    requires areas.keys == [head] + names && (forall x :: x in areas.entries <==> x in areas.keys)
    requires forall k :: k in areas.entries ==> k in d.entries && d.entries[k] == areas.entries[k]
    ensures head in d.entries && d.entries[head] == areas.entries[head]
    ensures forall i :: 0 <= i < |names| ==> names[i] in d.entries && d.entries[names[i]] == areas.entries[names[i]]
  {
    assert areas.keys[0] == head;
    assert forall i :: 0 <= i < |names| ==> areas.keys[i + 1] == names[i];
  }

  /** The names the last two assignments use are new and distinct; the area names are distinct too. */
  lemma ReservedNames()
    ensures forall i, j :: 0 <= i < j < |["Summary"] + SheetAreas| ==> (["Summary"] + SheetAreas)[i] != (["Summary"] + SheetAreas)[j]
    ensures "Unmapped" !in ["Summary"] + SheetAreas && "Raw Data" !in ["Summary"] + SheetAreas
    ensures "Unmapped" != "Raw Data"
  {
    SheetAreasDistinct();
    assert |"Summary"| == 7 && |"Unmapped"| == 8 && "Raw Data" != "Unmapped";
  }

  /** Two assignments of new, distinct keys append both keys and keep the other entries. */
  lemma TwoKeysAppended(areas: Dict, d: Dict, u: string, r: string, us: Sheet, rs: Sheet)
    requires forall i, j :: 0 <= i < j < |areas.keys| ==> areas.keys[i] != areas.keys[j]
    requires forall x :: x in areas.entries <==> x in areas.keys
    requires u !in areas.keys && r !in areas.keys && u != r
    requires d == Put(Put(areas, u, us), r, rs)
    ensures d.keys == areas.keys + [u, r] && WellFormed(d)
    ensures forall k :: k in areas.entries ==> k in d.entries && d.entries[k] == areas.entries[k]
    ensures u in d.entries && d.entries[u] == us && r in d.entries && d.entries[r] == rs
  {
    assert WellFormed(areas);
    var e := Put(areas, u, us);
    assert u !in areas.entries;
    assert e.keys == areas.keys + [u] && WellFormed(e);
    assert r !in e.entries;
    assert d.keys == e.keys + [r];
    assert areas.keys + [u] + [r] == areas.keys + [u, r];
  }

  /** The loop over the six areas: each gets its sheet, appended after the keys already there. */
  method AddAreaSheets(c: Table, d0: Dict) returns (d: Dict)
    requires CleanShape(c) && d0.keys == ["Summary"] && (forall x :: x in d0.entries <==> x in d0.keys)
    ensures d.keys == ["Summary"] + SheetAreas && (forall x :: x in d.entries <==> x in d.keys)
    ensures d.entries["Summary"] == d0.entries["Summary"]
    ensures forall i :: 0 <= i < |SheetAreas| ==> d.entries[SheetAreas[i]] == Plain(AreaSheet(c, SheetAreas[i]))
  {
    SheetAreasDistinct();
    d := AddSheetsFor(c, d0, SheetAreas);
  }

  /** The loop over a list of distinct area names, none of them the dict's first key. */
  method AddSheetsFor(c: Table, d0: Dict, areas: seq<string>) returns (d: Dict)
    requires CleanShape(c) && |d0.keys| == 1 && d0.keys[0] !in areas && (forall x :: x in d0.entries <==> x in d0.keys)
    requires forall i, j :: 0 <= i < j < |areas| ==> areas[i] != areas[j]
    ensures d.keys == d0.keys + areas && (forall x :: x in d.entries <==> x in d.keys)
    ensures d0.keys[0] in d.entries && d.entries[d0.keys[0]] == d0.entries[d0.keys[0]]
    ensures forall i :: 0 <= i < |areas| ==> areas[i] in d.entries && d.entries[areas[i]] == Plain(AreaSheet(c, areas[i]))
  {
    var head := d0.keys[0];
    assert d0.keys == [head];
    d := d0;
    for k := 0 to |areas|
      invariant d.keys == [head] + areas[..k]
      invariant forall x :: x in d.entries <==> x in d.keys
      invariant head in d.entries && d.entries[head] == d0.entries[head]
      invariant forall i :: 0 <= i < k ==> areas[i] in d.entries && d.entries[areas[i]] == Plain(AreaSheet(c, areas[i]))
    {
      var before := d;
      var sheet := Plain(AreaSheet(c, areas[k]));
      d := Put(d, areas[k], sheet);
      AreaStep(before, d, head, areas, k, sheet);
    }
    assert areas[..|areas|] == areas;
  }

  /**
    One turn of the area loop: the area's key is new (the keys are distinct),
    so it is appended and nothing else changes.
   */
  lemma AreaStep(d: Dict, e: Dict, head: string, areas: seq<string>, k: nat, s: Sheet)
    requires k < |areas| && head !in areas
    requires forall i, j :: 0 <= i < j < |areas| ==> areas[i] != areas[j]
    requires d.keys == [head] + areas[..k] && (forall x :: x in d.entries <==> x in d.keys)
    requires e == Put(d, areas[k], s)
    ensures e.keys == [head] + areas[..k + 1] && (forall x :: x in e.entries <==> x in e.keys)
    ensures head in e.entries && e.entries[head] == d.entries[head]
    ensures forall i :: 0 <= i <= k ==> areas[i] in e.entries
    ensures forall i :: 0 <= i < k ==> e.entries[areas[i]] == d.entries[areas[i]]
    ensures e.entries[areas[k]] == s
  {
    KeyIsNew(d.keys, head, areas, k);
    OneKeyAppended(d, e, areas[k], s);
    assert areas[..k + 1] == areas[..k] + [areas[k]];
    assert d.keys[0] == head;
    forall i | 0 <= i < k ensures areas[i] in d.entries {
      assert d.keys[i + 1] == areas[i];
    }
  }

  /** An assignment of a new key appends it and keeps the other entries. */
  lemma OneKeyAppended(d: Dict, e: Dict, u: string, us: Sheet)
    requires forall x :: x in d.entries <==> x in d.keys
    requires u !in d.keys && e == Put(d, u, us)
    ensures e.keys == d.keys + [u] && (forall x :: x in e.entries <==> x in e.keys)
    ensures forall k :: k in d.entries ==> k in e.entries && e.entries[k] == d.entries[k]
    ensures u in e.entries && e.entries[u] == us
  {
  }

  lemma KeyIsNew(keys: seq<string>, head: string, areas: seq<string>, k: nat)
    requires k < |areas| && head !in areas
    requires forall i, j :: 0 <= i < j < |areas| ==> areas[i] != areas[j]
    requires keys == [head] + areas[..k]
    ensures areas[k] !in keys
  {
    assert areas[k] != head;
    assert forall j :: 0 < j < |keys| ==> keys[j] == areas[j - 1] && areas[j - 1] != areas[k];
  }

  /**
    `generate_report`: the cleaning, then the result dict. It fails exactly
    when the cleaning does, with the same error.
   */
  method GenerateReport(t: Table, parse: Cell -> Option<Stamp>) returns (r: Result<Dict, ReportError>)
    requires Rectangular(t)
    ensures r.Failure? <==> !Cleanable(Trimmed(t))
    ensures r.Failure? ==> Clean(t, parse) == Failure(r.error)
    ensures r.Success? ==> Clean(t, parse).Success? && WellFormed(r.value) && Assembled(Clean(t, parse).value, r.value)
  {
    CleanOutcome(Trimmed(t), parse);
    match Clean(t, parse)
    case Failure(e) =>
      r := Failure(e);
    case Success(c) =>
      var d := BuildResult(c);
      r := Success(d);
  }
}
