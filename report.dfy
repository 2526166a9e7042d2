/**
  The report pipeline (`generate_report`): normalise headers, drop all-empty
  columns, drop the administrative columns, derive time/month/date from the
  parsed date and center/teacher_clean/area from the teacher text, remove
  duplicate rows, keep and rename eight columns, then build the summary
  pivot and split the rows into per-area sheets.

  Date parsing and formatting belong to a calendar library and are a
  parameter here: `parse` maps a date cell to its three renderings, or to
  None when it cannot be parsed; a missing cell never parses.
 */
module Report {
  import opened Wrappers
  import opened Strings
  import opened Frame
  import opened Summary
  import CenterMap

  /** The renderings of one parsed timestamp: time of day, "%Y-%m" and "%d %b %Y". */
  datatype Stamp = Stamp(time: string, month: string, day: string)

  /** KeyError for absent column labels; TypeError when a teacher cell is not text (the regex search needs a string). */
  datatype ReportError = KeyError(labels: seq<string>) | TypeError

  /** The administrative columns dropped after header normalisation. */
  const Unneeded: seq<string> :=
    ["code", "center_name", "level_/_unit", "last_name", "first_name", "service_type", "start_time"]

  /** The eight columns kept for the report, before renaming. */
  const Kept: seq<string> :=
    ["teacher", "teacher_clean", "center", "area", "class_type", "date", "time", "month_"]

  /** The same eight columns after renaming. */
  const OutputColumns: seq<string> :=
    ["Teacher", "Teacher Clean", "Center", "Area", "Class Type", "Date", "Time", "Month"]

  /** The areas that get a sheet of their own, in sheet order. */
  const SheetAreas: seq<string> := ["JKT 1", "JKT 2", "JKT 3", "BDG", "SBY", "CIK"]

  /** All sheet names of the report, in insertion order. */
  const SheetNames: seq<string> := ["Summary"] + SheetAreas + ["Unmapped", "Raw Data"]

  // ---------------------------------------------------------------------
  // Cleaning

  /** Every header label normalised; the cells are untouched. */
  function NormalizeHeaders(t: Table): (r: Table)
    requires Rectangular(t)
    ensures Rectangular(r) && r.rows == t.rows && |r.columns| == |t.columns|
    ensures forall k :: 0 <= k < |t.columns| ==> r.columns[k] == NormalizeHeader(t.columns[k])
  {
    Table(seq(|t.columns|, k requires 0 <= k < |t.columns| => NormalizeHeader(t.columns[k])), t.rows)
  }

  /** Normalising the headers a second time changes nothing. */
  lemma NormalizeHeadersIdempotent(t: Table)
    requires Rectangular(t)
    ensures NormalizeHeaders(NormalizeHeaders(t)) == NormalizeHeaders(t)
  {
    var n := NormalizeHeaders(t);
    forall k | 0 <= k < |t.columns| ensures NormalizeHeader(n.columns[k]) == n.columns[k] {
      NormalizeIdempotent(t.columns[k]);
    }
  }

  /** The table after normalisation and both all-empty-column passes. */
  function Trimmed(t: Table): (r: Table)
    requires Rectangular(t)
    ensures Rectangular(r) && |r.rows| == |t.rows|
    ensures forall j :: 0 <= j < |r.columns| ==> HasValue(r, j)
  {
    DropEmptyColumns(DropEmptyColumns(NormalizeHeaders(t)))
  }

  /** The second all-empty-column pass is a no-op. */
  lemma TrimmedOnce(t: Table)
    requires Rectangular(t)
    ensures Trimmed(t) == DropEmptyColumns(NormalizeHeaders(t))
  {
    DropEmptyColumnsIdempotent(NormalizeHeaders(t));
  }

  /** Trimming leaves every row's cell under a normalised label whose first column holds a value. */
  lemma TrimmedGet(t: Table, i: nat, c: string)
    requires Rectangular(t) && i < |t.rows|
    requires var n := NormalizeHeaders(t); c in n.columns && HasValue(n, Find(n.columns, c).value)
    ensures var n := NormalizeHeaders(t);
      Get(Trimmed(t).columns, Trimmed(t).rows[i], c) == Get(n.columns, t.rows[i], c)
  {
    TrimmedOnce(t);
    DropEmptyColumnsGet(NormalizeHeaders(t), i, c);
  }

  /** The trimmed table `m` after the administrative columns are dropped; a KeyError names the absent ones. */
  function Prepare(m: Table): (r: Result<Table, ReportError>)
    requires Rectangular(m)
    ensures r.Success? <==> forall n :: n in Unneeded ==> n in m.columns
    ensures r.Failure? ==> r.error == KeyError(Missing(Unneeded, m.columns)) && r.error.labels != []
    ensures r.Success? ==> Rectangular(r.value) && |r.value.rows| == |m.rows|
    ensures r.Success? ==> forall c :: c in r.value.columns <==> c in m.columns && c !in Unneeded
  {
    match DropColumns(m, Unneeded)
    case Success(d) => Success(d)
    case Failure(MissingColumns(labels)) => Failure(KeyError(labels))
  }

  // ---------------------------------------------------------------------
  // Derived fields

  /** `pd.to_datetime(..., errors="coerce")`: a missing cell is NaT, anything else is up to the calendar. */
  function Coerce(parse: Cell -> Option<Stamp>, c: Cell): (r: Option<Stamp>)
    ensures c == Null ==> r == None
    ensures c != Null ==> r == parse(c)
  {
    if c == Null then None else parse(c)
  }

  function TimeCell(s: Option<Stamp>): Cell {
    if s.Some? then Text(s.value.time) else Null
  }

  function MonthCell(s: Option<Stamp>): Cell {
    if s.Some? then Text(s.value.month) else Null
  }

  function DayCell(s: Option<Stamp>): Cell {
    if s.Some? then Text(s.value.day) else Null
  }

  /** `center.map(center_area)`: the area of a known center, missing otherwise. */
  function AreaCell(center: string): (r: Cell)
    ensures r.Text? <==> center in CenterMap.CenterArea
    ensures r.Text? ==> CenterMap.LookupArea(center) == Success(r.text)
    ensures r.Text? ==> r.text in CenterMap.Areas()
  {
    if center in CenterMap.CenterArea then Text(CenterMap.CenterArea[center]) else Null
  }

  /** What the derivation writes into one row, read from the teacher text and the coerced date. */
  ghost predicate DerivedFrom(columns: seq<string>, row: Row, teacher: string, stamp: Option<Stamp>)
    requires |row| == |columns|
  {
    && Get(columns, row, "teacher") == Some(Text(teacher))
    && Get(columns, row, "time") == Some(TimeCell(stamp))
    && Get(columns, row, "month_") == Some(MonthCell(stamp))
    && Get(columns, row, "date") == Some(DayCell(stamp))
    && Get(columns, row, "center") == Some(Text(Center(teacher)))
    && Get(columns, row, "teacher_clean") == Some(Text(TeacherClean(teacher)))
    && Get(columns, row, "area") == Some(AreaCell(Center(teacher)))
  }

  /** The labels the derivation writes. */
  const DerivedLabels: seq<string> := ["time", "month_", "date", "center", "teacher_clean", "area"]

  /** The text of every teacher cell, or None when one of them is not text. */
  function TeacherTexts(t: Table): (r: Option<seq<string>>)
    requires Rectangular(t) && "teacher" in t.columns
    ensures r.Some? <==> forall i :: 0 <= i < |t.rows| ==> Get(t.columns, t.rows[i], "teacher").value.Text?
    ensures r.Some? ==> |r.value| == |t.rows|
    ensures r.Some? ==> forall i :: 0 <= i < |t.rows| ==> Get(t.columns, t.rows[i], "teacher") == Some(Text(r.value[i]))
  {
    if forall i :: 0 <= i < |t.rows| ==> Get(t.columns, t.rows[i], "teacher").value.Text? then
      Some(seq(|t.rows|, i requires 0 <= i < |t.rows| => Get(t.columns, t.rows[i], "teacher").value.text))
    else None
  }

  /**
    The `assign(...)` step: time, month_, date from one coerced parse of the
    date cell, center and teacher_clean from the teacher text, area from the
    center. A missing date or teacher column is a KeyError (date is read
    first); a teacher cell that is not text is a TypeError.
   */
  function Derive(t: Table, parse: Cell -> Option<Stamp>): (r: Result<Table, ReportError>)
    requires Rectangular(t)
    ensures r.Success? <==> "date" in t.columns && "teacher" in t.columns && TeacherTexts(t).Some?
    ensures "date" !in t.columns ==> r == Failure(KeyError(["date"]))
    ensures "date" in t.columns && "teacher" !in t.columns ==> r == Failure(KeyError(["teacher"]))
    ensures "date" in t.columns && "teacher" in t.columns && TeacherTexts(t).None? ==> r == Failure(TypeError)
    ensures r.Success? ==> Rectangular(r.value) && |r.value.rows| == |t.rows|
    ensures r.Success? ==> forall c :: c in r.value.columns <==> c in t.columns || c in DerivedLabels
  {
    if "date" !in t.columns then Failure(KeyError(["date"]))
    else if "teacher" !in t.columns then Failure(KeyError(["teacher"]))
    else match TeacherTexts(t)
      case None => Failure(TypeError)
      case Some(names) =>
        var stamps := Stamps(t, parse);
        DerivedColumns(t, names, stamps);
        Success(AssignDerived(t, names, stamps))
  }

  /** The coerced parse of every date cell. */
  function Stamps(t: Table, parse: Cell -> Option<Stamp>): (r: seq<Option<Stamp>>)
    requires Rectangular(t) && "date" in t.columns
    ensures |r| == |t.rows|
    ensures forall i :: 0 <= i < |t.rows| && Get(t.columns, t.rows[i], "date") == Some(Null) ==> r[i] == None
    ensures forall i :: 0 <= i < |t.rows| ==> r[i] == Coerce(parse, Get(t.columns, t.rows[i], "date").value)
  {
    seq(|t.rows|, i requires 0 <= i < |t.rows| => Coerce(parse, Get(t.columns, t.rows[i], "date").value))
  }

  /**
    Each derived row holds what the six `assign` columns compute from its
    teacher text and its coerced date, and every other label keeps its cell.
   */
  lemma DeriveFields(t: Table, parse: Cell -> Option<Stamp>)
    requires Rectangular(t) && Derive(t, parse).Success?
    ensures var r := Derive(t, parse).value;
      forall i :: 0 <= i < |t.rows| ==>
        DerivedFrom(r.columns, r.rows[i], TeacherTexts(t).value[i],
                    Coerce(parse, Get(t.columns, t.rows[i], "date").value))
    ensures var r := Derive(t, parse).value;
      forall i, m :: 0 <= i < |t.rows| && m !in DerivedLabels ==>
        Get(r.columns, r.rows[i], m) == Get(t.columns, t.rows[i], m)
  {
    AssignDerivedFields(t, TeacherTexts(t).value, Stamps(t, parse));
  }

  /** The six assignments, in the order `generate_report` passes them to `assign`. */
  function AssignDerived(t: Table, names: seq<string>, stamps: seq<Option<Stamp>>): (r: Table)
    requires Rectangular(t) && |names| == |stamps| == |t.rows|
    ensures Rectangular(r) && |r.rows| == |t.rows|
  {
    AreaStage(TeacherStage(DateStage(t, stamps), names))
  }

  /** time, month_ and date, all from the same coerced parse. */
  function DateStage(t: Table, stamps: seq<Option<Stamp>>): (r: Table)
    requires Rectangular(t) && |stamps| == |t.rows|
    ensures Rectangular(r) && |r.rows| == |t.rows|
    ensures forall c :: c in r.columns <==> c in t.columns || c in ["time", "month_", "date"]
  {
    var n := |t.rows|;
    var t1 := AssignColumn(t, "time", seq(n, i requires 0 <= i < n => TimeCell(stamps[i])));
    var t2 := AssignColumn(t1, "month_", seq(n, i requires 0 <= i < n => MonthCell(stamps[i])));
    AssignColumn(t2, "date", seq(n, i requires 0 <= i < n => DayCell(stamps[i])))
  }

  /** center and teacher_clean, from the teacher text. */
  function TeacherStage(t: Table, names: seq<string>): (r: Table)
    requires Rectangular(t) && |names| == |t.rows|
    ensures Rectangular(r) && |r.rows| == |t.rows|
    ensures forall c :: c in r.columns <==> c in t.columns || c in ["center", "teacher_clean"]
  {
    var n := |t.rows|;
    var t1 := AssignColumn(t, "center", seq(n, i requires 0 <= i < n => Text(Center(names[i]))));
    AssignColumn(t1, "teacher_clean", seq(n, i requires 0 <= i < n => Text(TeacherClean(names[i]))))
  }

  /** area, read from the center column. */
  function AreaStage(t: Table): (r: Table)
    requires Rectangular(t)
    ensures Rectangular(r) && |r.rows| == |t.rows|
    ensures forall c :: c in r.columns <==> c in t.columns || c == "area"
  {
    var n := |t.rows|;
    AssignColumn(t, "area", seq(n, i requires 0 <= i < n =>
      match Get(t.columns, t.rows[i], "center")
      case Some(Text(c)) => AreaCell(c)
      case _ => Null))
  }

  lemma DateStageGet(t: Table, stamps: seq<Option<Stamp>>, i: nat, m: string)
    requires Rectangular(t) && |stamps| == |t.rows| && i < |t.rows|
    ensures var r := DateStage(t, stamps);
      Get(r.columns, r.rows[i], m) ==
        if m == "time" then Some(TimeCell(stamps[i]))
        else if m == "month_" then Some(MonthCell(stamps[i]))
        else if m == "date" then Some(DayCell(stamps[i]))
        else Get(t.columns, t.rows[i], m)
  {
    var n := |t.rows|;
    var v1 := seq(n, i requires 0 <= i < n => TimeCell(stamps[i]));
    var v2 := seq(n, i requires 0 <= i < n => MonthCell(stamps[i]));
    var v3 := seq(n, i requires 0 <= i < n => DayCell(stamps[i]));
    var t1 := AssignColumn(t, "time", v1);
    var t2 := AssignColumn(t1, "month_", v2);
    AssignColumnGet(t, "time", v1, i, m);
    AssignColumnGet(t1, "month_", v2, i, m);
    AssignColumnGet(t2, "date", v3, i, m);
  }

  lemma TeacherStageGet(t: Table, names: seq<string>, i: nat, m: string)
    requires Rectangular(t) && |names| == |t.rows| && i < |t.rows|
    ensures var r := TeacherStage(t, names);
      Get(r.columns, r.rows[i], m) ==
        if m == "center" then Some(Text(Center(names[i])))
        else if m == "teacher_clean" then Some(Text(TeacherClean(names[i])))
        else Get(t.columns, t.rows[i], m)
  {
    var n := |t.rows|;
    var v1 := seq(n, i requires 0 <= i < n => Text(Center(names[i])));
    var v2 := seq(n, i requires 0 <= i < n => Text(TeacherClean(names[i])));
    var t1 := AssignColumn(t, "center", v1);
    AssignColumnGet(t, "center", v1, i, m);
    AssignColumnGet(t1, "teacher_clean", v2, i, m);
  }

  lemma AreaStageGet(t: Table, i: nat, m: string, center: string)
    requires Rectangular(t) && i < |t.rows|
    requires Get(t.columns, t.rows[i], "center") == Some(Text(center))
    ensures var r := AreaStage(t);
      Get(r.columns, r.rows[i], m) == if m == "area" then Some(AreaCell(center)) else Get(t.columns, t.rows[i], m)
  {
    var n := |t.rows|;
    var v := seq(n, i requires 0 <= i < n =>
      match Get(t.columns, t.rows[i], "center")
      case Some(Text(c)) => AreaCell(c)
      case _ => Null);
    AssignColumnGet(t, "area", v, i, m);
  }

  /** What one cell of the derived table holds. */
  lemma DerivedGet(t: Table, names: seq<string>, stamps: seq<Option<Stamp>>, i: nat, m: string)
    requires Rectangular(t) && |names| == |stamps| == |t.rows| && i < |t.rows|
    ensures var r := AssignDerived(t, names, stamps);
      Get(r.columns, r.rows[i], m) ==
        if m == "area" then Some(AreaCell(Center(names[i])))
        else if m == "center" then Some(Text(Center(names[i])))
        else if m == "teacher_clean" then Some(Text(TeacherClean(names[i])))
        else if m == "time" then Some(TimeCell(stamps[i]))
        else if m == "month_" then Some(MonthCell(stamps[i]))
        else if m == "date" then Some(DayCell(stamps[i]))
        else Get(t.columns, t.rows[i], m)
  {
    var t1 := DateStage(t, stamps);
    var t2 := TeacherStage(t1, names);
    DateStageGet(t, stamps, i, m);
    TeacherStageGet(t1, names, i, m);
    TeacherStageGet(t1, names, i, "center");
    AreaStageGet(t2, i, m, Center(names[i]));
  }

  lemma DerivedColumns(t: Table, names: seq<string>, stamps: seq<Option<Stamp>>)
    requires Rectangular(t) && |names| == |stamps| == |t.rows|
    ensures var r := AssignDerived(t, names, stamps);
      forall c :: c in r.columns <==> c in t.columns || c in DerivedLabels
  {
    var t1 := DateStage(t, stamps);
    var t2 := TeacherStage(t1, names);
    var r := AreaStage(t2);
    forall c ensures c in r.columns <==> c in t.columns || c in DerivedLabels {
      assert c in DerivedLabels <==> c in ["time", "month_", "date"] || c in ["center", "teacher_clean"] || c == "area";
    }
  }

  lemma AssignDerivedFields(t: Table, names: seq<string>, stamps: seq<Option<Stamp>>)
    requires Rectangular(t) && |names| == |stamps| == |t.rows|
    requires forall i :: 0 <= i < |t.rows| ==> Get(t.columns, t.rows[i], "teacher") == Some(Text(names[i]))
    ensures var r := AssignDerived(t, names, stamps);
      && (forall i :: 0 <= i < |t.rows| ==> DerivedFrom(r.columns, r.rows[i], names[i], stamps[i]))
      && (forall i, m :: 0 <= i < |t.rows| && m !in DerivedLabels ==>
            Get(r.columns, r.rows[i], m) == Get(t.columns, t.rows[i], m))
  {
    var r := AssignDerived(t, names, stamps);
    forall i | 0 <= i < |t.rows| ensures DerivedFrom(r.columns, r.rows[i], names[i], stamps[i]) {
      DerivedGet(t, names, stamps, i, "teacher");
      DerivedGet(t, names, stamps, i, "time");
      DerivedGet(t, names, stamps, i, "month_");
      DerivedGet(t, names, stamps, i, "date");
      DerivedGet(t, names, stamps, i, "center");
      DerivedGet(t, names, stamps, i, "teacher_clean");
      DerivedGet(t, names, stamps, i, "area");
    }
    forall i, m | 0 <= i < |t.rows| && m !in DerivedLabels
      ensures Get(r.columns, r.rows[i], m) == Get(t.columns, t.rows[i], m)
    {
      DerivedGet(t, names, stamps, i, m);
    }
  }

  // ---------------------------------------------------------------------
  // De-duplication, selection and renaming

  /** `drop_duplicates()` over every column present at that point. */
  function Deduplicated(d: Table): (r: Table)
    requires Rectangular(d)
    ensures Rectangular(r) && r.columns == d.columns
    ensures forall x :: x in r.rows <==> x in d.rows
    ensures forall i, j :: 0 <= i < j < |r.rows| ==> r.rows[i] != r.rows[j]
    ensures r.rows == Dedup(d.rows)
  {
    var r := Table(d.columns, Dedup(d.rows));
    assert forall j :: 0 <= j < |r.rows| ==> r.rows[j] in d.rows;
    r
  }

  /** `c.replace("_", " ").title().strip()` turns the eight kept labels into the report's headers. */
  lemma OutputLabels()
    ensures forall k :: 0 <= k < |Kept| ==> ColumnLabel(Kept[k]) == OutputColumns[k]
  {
    forall k | 0 <= k < |Kept| ensures ColumnLabel(Kept[k]) == OutputColumns[k] {
      if k == 0 {
        OutputLabel0(k);
      } else if k == 1 {
        OutputLabel1(k);
      } else if k == 2 {
        OutputLabel2(k);
      } else if k == 3 {
        OutputLabel3(k);
      } else if k == 4 {
        OutputLabel4(k);
      } else if k == 5 {
        OutputLabel5(k);
      } else if k == 6 {
        OutputLabel6(k);
      } else {
        OutputLabel7(k);
      }
    }
  }

  lemma OutputLabel0(k: nat)
    requires k == 0
    ensures ColumnLabel(Kept[k]) == OutputColumns[k]
  {
    assert Kept[k] == "teacher";
    assert OutputColumns[k] == "Teacher";
    HeaderOfTeacher();
  }

  lemma OutputLabel1(k: nat)
    requires k == 1
    ensures ColumnLabel(Kept[k]) == OutputColumns[k]
  {
    assert Kept[k] == "teacher_clean";
    assert OutputColumns[k] == "Teacher Clean";
    HeaderOfTeacherClean();
  }

  lemma OutputLabel2(k: nat)
    requires k == 2
    ensures ColumnLabel(Kept[k]) == OutputColumns[k]
  {
    assert Kept[k] == "center";
    assert OutputColumns[k] == "Center";
    HeaderOfCenter();
  }

  lemma OutputLabel3(k: nat)
    requires k == 3
    ensures ColumnLabel(Kept[k]) == OutputColumns[k]
  {
    assert Kept[k] == "area";
    assert OutputColumns[k] == "Area";
    HeaderOfArea();
  }

  lemma OutputLabel4(k: nat)
    requires k == 4
    ensures ColumnLabel(Kept[k]) == OutputColumns[k]
  {
    assert Kept[k] == "class_type";
    assert OutputColumns[k] == "Class Type";
    HeaderOfClassType();
  }

  lemma OutputLabel5(k: nat)
    requires k == 5
    ensures ColumnLabel(Kept[k]) == OutputColumns[k]
  {
    assert Kept[k] == "date";
    assert OutputColumns[k] == "Date";
    HeaderOfDate();
  }

  lemma OutputLabel6(k: nat)
    requires k == 6
    ensures ColumnLabel(Kept[k]) == OutputColumns[k]
  {
    assert Kept[k] == "time";
    assert OutputColumns[k] == "Time";
    HeaderOfTime();
  }

  lemma OutputLabel7(k: nat)
    requires k == 7
    ensures ColumnLabel(Kept[k]) == OutputColumns[k]
  {
    assert Kept[k] == "month_";
    assert OutputColumns[k] == "Month";
    HeaderOfMonth();
  }

  lemma HeaderOfTeacher()
    ensures ColumnLabel("teacher") == "Teacher"
  {
    assert Replace("teacher", '_', ' ') == "teacher";
    TitleOfTeacher();
    LabelFrom("teacher", "teacher", "Teacher");
  }

  lemma TitleOfTeacher()
    ensures Title("teacher") == "Teacher"
  {
    var t := Title("teacher");
    assert t[0] == 'T' && t[1] == 'e' && t[2] == 'a' && t[3] == 'c' && t[4] == 'h' && t[5] == 'e' && t[6] == 'r';
  }

  lemma HeaderOfTeacherClean()
    ensures ColumnLabel("teacher_clean") == "Teacher Clean"
  {
    ReplaceTeacherClean();
    TitleOfTeacherClean();
    LabelFrom("teacher_clean", "teacher clean", "Teacher Clean");
  }

  lemma ReplaceTeacherClean()
    ensures Replace("teacher_clean", '_', ' ') == "teacher clean"
  {
    var t := Replace("teacher_clean", '_', ' ');
    assert t[0] == 't' && t[1] == 'e' && t[2] == 'a' && t[3] == 'c' && t[4] == 'h' && t[5] == 'e' && t[6] == 'r' && t[7] == ' ' && t[8] == 'c' && t[9] == 'l' && t[10] == 'e' && t[11] == 'a' && t[12] == 'n';
  }

  lemma TitleOfTeacherClean()
    ensures Title("teacher clean") == "Teacher Clean"
  {
    var t := Title("teacher clean");
    assert t[0] == 'T' && t[1] == 'e' && t[2] == 'a' && t[3] == 'c' && t[4] == 'h' && t[5] == 'e' && t[6] == 'r' && t[7] == ' ' && t[8] == 'C' && t[9] == 'l' && t[10] == 'e' && t[11] == 'a' && t[12] == 'n';
  }

  lemma HeaderOfCenter()
    ensures ColumnLabel("center") == "Center"
  {
    assert Replace("center", '_', ' ') == "center";
    TitleOfCenter();
    LabelFrom("center", "center", "Center");
  }

  lemma TitleOfCenter()
    ensures Title("center") == "Center"
  {
    var t := Title("center");
    assert t[0] == 'C' && t[1] == 'e' && t[2] == 'n' && t[3] == 't' && t[4] == 'e' && t[5] == 'r';
  }

  lemma HeaderOfArea()
    ensures ColumnLabel("area") == "Area"
  {
    assert Replace("area", '_', ' ') == "area";
    TitleOfArea();
    LabelFrom("area", "area", "Area");
  }

  lemma TitleOfArea()
    ensures Title("area") == "Area"
  {
    var t := Title("area");
    assert t[0] == 'A' && t[1] == 'r' && t[2] == 'e' && t[3] == 'a';
  }

  lemma HeaderOfClassType()
    ensures ColumnLabel("class_type") == "Class Type"
  {
    assert Replace("class_type", '_', ' ') == "class type";
    TitleOfClassType();
    LabelFrom("class_type", "class type", "Class Type");
  }

  lemma TitleOfClassType()
    ensures Title("class type") == "Class Type"
  {
    var t := Title("class type");
    assert t[0] == 'C' && t[1] == 'l' && t[2] == 'a' && t[3] == 's' && t[4] == 's' && t[5] == ' ' && t[6] == 'T' && t[7] == 'y' && t[8] == 'p' && t[9] == 'e';
  }

  lemma HeaderOfDate()
    ensures ColumnLabel("date") == "Date"
  {
    assert Replace("date", '_', ' ') == "date";
    TitleOfDate();
    LabelFrom("date", "date", "Date");
  }

  lemma TitleOfDate()
    ensures Title("date") == "Date"
  {
    var t := Title("date");
    assert t[0] == 'D' && t[1] == 'a' && t[2] == 't' && t[3] == 'e';
  }

  lemma HeaderOfTime()
    ensures ColumnLabel("time") == "Time"
  {
    assert Replace("time", '_', ' ') == "time";
    TitleOfTime();
    LabelFrom("time", "time", "Time");
  }

  lemma TitleOfTime()
    ensures Title("time") == "Time"
  {
    var t := Title("time");
    assert t[0] == 'T' && t[1] == 'i' && t[2] == 'm' && t[3] == 'e';
  }

  lemma HeaderOfMonth()
    ensures ColumnLabel("month_") == "Month"
  {
    ReplaceMonth();
    TitleOfMonth();
    StripMonth();
    LabelStripped("month_", "month ", "Month ", "Month");
  }

  lemma ReplaceMonth()
    ensures Replace("month_", '_', ' ') == "month "
  {
    var t := Replace("month_", '_', ' ');
    assert t[0] == 'm' && t[1] == 'o' && t[2] == 'n' && t[3] == 't' && t[4] == 'h' && t[5] == ' ';
  }

  lemma TitleOfMonth()
    ensures Title("month ") == "Month "
  {
    var t := Title("month ");
    assert t[0] == 'M' && t[1] == 'o' && t[2] == 'n' && t[3] == 't' && t[4] == 'h' && t[5] == ' ';
  }

  /** The header rule applied in its three stages. */
  lemma LabelFrom(name: string, spaced: string, titled: string)
    requires Replace(name, '_', ' ') == spaced
    requires Title(spaced) == titled
    requires titled != [] && !IsSpace(titled[0]) && !IsSpace(titled[|titled| - 1])
    ensures ColumnLabel(name) == titled
  {
    StripUnchanged(titled);
  }

  /** The header rule applied in its three stages, the last one trimming. */
  lemma LabelStripped(name: string, spaced: string, titled: string, header: string)
    requires Replace(name, '_', ' ') == spaced
    requires Title(spaced) == titled
    requires Strip(titled) == header
    ensures ColumnLabel(name) == header
  {
  }

  lemma StripMonth()
    ensures Strip("Month ") == "Month"
  {
    var t := "Month ";
    assert TrimStart(t) == t;
    assert t[..5] == "Month";
    assert TrimEnd(t[..5]) == "Month";
    assert TrimEnd(t) == "Month";
  }

  /** `rename(columns=...)` with the header rule above. */
  function Renamed(s: Table): (r: Table)
    ensures r.rows == s.rows && |r.columns| == |s.columns|
    ensures s.columns == Kept ==> r.columns == OutputColumns
  {
    OutputLabels();
    Table(seq(|s.columns|, k requires 0 <= k < |s.columns| => ColumnLabel(s.columns[k])), s.rows)
  }

  /**
    The whole `df_clean` chain: trimming, then the steps that can fail.
   */
  function Clean(t: Table, parse: Cell -> Option<Stamp>): (r: Result<Table, ReportError>)
    requires Rectangular(t)
    ensures r.Success? ==> r.value.columns == OutputColumns && Rectangular(r.value)
  {
    CleanTrimmed(Trimmed(t), parse)
  }

  /**
    The chain after trimming. Each failure is the first one Python would
    raise: the drop of the administrative columns, then the derivation,
    then the selection of the kept columns.
   */
  function CleanTrimmed(m: Table, parse: Cell -> Option<Stamp>): (r: Result<Table, ReportError>)
    requires Rectangular(m)
    ensures r.Success? ==> r.value.columns == OutputColumns && Rectangular(r.value)
  {
    match Prepare(m)
    case Failure(e) => Failure(e)
    case Success(p) =>
      match Derive(p, parse)
      case Failure(e) => Failure(e)
      case Success(d) =>
        match SelectLabels(Deduplicated(d), Kept)
        case Failure(MissingColumns(labels)) => Failure(KeyError(labels))
        case Success(s) => Success(Renamed(s))
  }

  /** What the trimmed table must hold for the cleaning to go through. */
  ghost predicate Cleanable(m: Table)
    requires Rectangular(m)
  {
    && (forall n :: n in Unneeded ==> n in m.columns)
    && "date" in m.columns && "teacher" in m.columns && "class_type" in m.columns
    && forall i :: 0 <= i < |m.rows| ==> Get(m.columns, m.rows[i], "teacher").value.Text?
  }

  /** The report row computed from one row of the trimmed table, in `OutputColumns` order. */
  function Expected(columns: seq<string>, row: Row, parse: Cell -> Option<Stamp>): (r: Row)
    requires |row| == |columns| && "teacher" in columns && "date" in columns && "class_type" in columns
    requires Get(columns, row, "teacher").value.Text?
    ensures |r| == |OutputColumns|
  {
    var teacher := Get(columns, row, "teacher").value.text;
    var stamp := Coerce(parse, Get(columns, row, "date").value);
    [Text(teacher), Text(TeacherClean(teacher)), Text(Center(teacher)), AreaCell(Center(teacher)),
     Get(columns, row, "class_type").value, DayCell(stamp), TimeCell(stamp), MonthCell(stamp)]
  }

  /** The labels the chain reads are none of those it drops or derives, except `teacher`, which it reads and keeps. */
  lemma LabelsApart()
    ensures "date" !in Unneeded && "teacher" !in Unneeded && "class_type" !in Unneeded
    ensures "class_type" !in DerivedLabels && Kept[4] == "class_type"
    ensures forall j :: 0 <= j < |Kept| && j != 4 ==> Kept[j] == "teacher" || Kept[j] in DerivedLabels
  {
  }

  /** After a successful derivation, the selection of the kept columns fails only for a missing `class_type`. */
  lemma SelectAfterDerive(p: Table, parse: Cell -> Option<Stamp>)
    requires Rectangular(p) && Derive(p, parse).Success?
    ensures var s := SelectLabels(Deduplicated(Derive(p, parse).value), Kept);
      && (s.Success? <==> "class_type" in p.columns)
      && (s.Failure? ==> s.error == MissingColumns(["class_type"]))
  {
    var d := Derive(p, parse).value;
    LabelsApart();
    assert "class_type" in d.columns <==> "class_type" in p.columns;
    assert forall j :: 0 <= j < |Kept| && j != 4 ==> Kept[j] in d.columns;
    if "class_type" !in p.columns {
      MissingOnly(Kept, d.columns, 4);
    }
  }

  /** Dropping the administrative columns leaves every teacher cell as it was. */
  lemma TeacherTextsAfterDrop(m: Table, p: Table)
    requires Rectangular(m) && DropColumns(m, Unneeded) == Success(p) && "teacher" in p.columns
    ensures TeacherTexts(p).Some? <==>
      forall i :: 0 <= i < |m.rows| ==> Get(m.columns, m.rows[i], "teacher").value.Text?
  {
    LabelsApart();
    forall i | 0 <= i < |m.rows|
      ensures Get(p.columns, p.rows[i], "teacher") == Get(m.columns, m.rows[i], "teacher")
    {
      DropColumnsGet(m, Unneeded, i, "teacher");
    }
  }

  /**
    The cleaning fails exactly when the trimmed table lacks one of the ten
    labels the chain drops or reads, or holds a teacher cell that is not
    text; the error is the one Python raises first.
   */
  lemma CleanOutcome(m: Table, parse: Cell -> Option<Stamp>)
    requires Rectangular(m)
    ensures CleanTrimmed(m, parse).Success? <==> Cleanable(m)
  {
    if Prepare(m).Success? {
      var p := Prepare(m).value;
      PreparedLabels(m, p);
      CleanPrepared(m, p, parse);
      if "date" in m.columns && "teacher" in m.columns {
        TeacherTextsAfterDrop(m, p);
      }
    }
  }

  /** Each way the cleaning can fail, with the error Python raises first. */
  lemma CleanErrors(m: Table, parse: Cell -> Option<Stamp>)
    requires Rectangular(m)
    ensures !(forall n :: n in Unneeded ==> n in m.columns) ==>
      CleanTrimmed(m, parse) == Failure(KeyError(Missing(Unneeded, m.columns)))
    ensures (forall n :: n in Unneeded ==> n in m.columns) && "date" !in m.columns ==>
      CleanTrimmed(m, parse) == Failure(KeyError(["date"]))
    ensures (forall n :: n in Unneeded ==> n in m.columns) && "date" in m.columns && "teacher" !in m.columns ==>
      CleanTrimmed(m, parse) == Failure(KeyError(["teacher"]))
    ensures ((forall n :: n in Unneeded ==> n in m.columns) && "date" in m.columns && "teacher" in m.columns &&
             exists i :: 0 <= i < |m.rows| && !Get(m.columns, m.rows[i], "teacher").value.Text?) ==>
      CleanTrimmed(m, parse) == Failure(TypeError)
    ensures ((forall n :: n in Unneeded ==> n in m.columns) && "date" in m.columns && "teacher" in m.columns &&
             (forall i :: 0 <= i < |m.rows| ==> Get(m.columns, m.rows[i], "teacher").value.Text?) &&
             "class_type" !in m.columns) ==>
      CleanTrimmed(m, parse) == Failure(KeyError(["class_type"]))
  {
    if Prepare(m).Success? {
      var p := Prepare(m).value;
      PreparedLabels(m, p);
      CleanPrepared(m, p, parse);
      if "date" in m.columns && "teacher" in m.columns {
        TeacherTextsAfterDrop(m, p);
      }
    }
  }

  /** The labels the chain reads survive the drop of the administrative columns. */
  lemma PreparedLabels(m: Table, p: Table)
    requires Rectangular(m) && Prepare(m) == Success(p)
    ensures DropColumns(m, Unneeded) == Success(p)
    ensures "date" in p.columns <==> "date" in m.columns
    ensures "teacher" in p.columns <==> "teacher" in m.columns
    ensures "class_type" in p.columns <==> "class_type" in m.columns
  {
    LabelsApart();
  }

  /** Once the drop went through, the outcome is decided by the derivation and then by the selection. */
  lemma CleanPrepared(m: Table, p: Table, parse: Cell -> Option<Stamp>)
    requires Rectangular(m) && Prepare(m) == Success(p)
    ensures "date" !in p.columns ==> CleanTrimmed(m, parse) == Failure(KeyError(["date"]))
    ensures "date" in p.columns && "teacher" !in p.columns ==> CleanTrimmed(m, parse) == Failure(KeyError(["teacher"]))
    ensures "date" in p.columns && "teacher" in p.columns && TeacherTexts(p).None? ==>
      CleanTrimmed(m, parse) == Failure(TypeError)
    ensures "date" in p.columns && "teacher" in p.columns && TeacherTexts(p).Some? ==>
      && (CleanTrimmed(m, parse).Success? <==> "class_type" in p.columns)
      && ("class_type" !in p.columns ==> CleanTrimmed(m, parse) == Failure(KeyError(["class_type"])))
  {
    if "date" in p.columns && "teacher" in p.columns && TeacherTexts(p).Some? {
      SelectAfterDerive(p, parse);
    }
  }

  /** A row that satisfies the derivation holds the expected cells under the kept labels. */
  lemma KeptCells(dc: seq<string>, drow: Row, mc: seq<string>, mrow: Row, parse: Cell -> Option<Stamp>)
    requires |drow| == |dc| && |mrow| == |mc|
    requires "teacher" in mc && "date" in mc && "class_type" in mc && Get(mc, mrow, "teacher").value.Text?
    requires DerivedFrom(dc, drow, Get(mc, mrow, "teacher").value.text, Coerce(parse, Get(mc, mrow, "date").value))
    requires Get(dc, drow, "class_type") == Get(mc, mrow, "class_type")
    ensures forall k :: 0 <= k < |Kept| ==> Get(dc, drow, Kept[k]) == Some(Expected(mc, mrow, parse)[k])
  {
  }

  /** For a cleanable table, each derived row holds the expected cells under the kept labels. */
  lemma ExpectedRow(m: Table, parse: Cell -> Option<Stamp>, i: nat)
    requires Rectangular(m) && Cleanable(m) && i < |m.rows|
    ensures Prepare(m).Success? && Derive(Prepare(m).value, parse).Success?
    ensures var d := Derive(Prepare(m).value, parse).value;
      forall k :: 0 <= k < |Kept| ==>
        Get(d.columns, d.rows[i], Kept[k]) == Some(Expected(m.columns, m.rows[i], parse)[k])
  {
    var p := Prepare(m).value;
    assert DropColumns(m, Unneeded) == Success(p);
    LabelsApart();
    TeacherTextsAfterDrop(m, p);
    DeriveFields(p, parse);
    DropColumnsGet(m, Unneeded, i, "teacher");
    DropColumnsGet(m, Unneeded, i, "date");
    DropColumnsGet(m, Unneeded, i, "class_type");
    var d := Derive(p, parse).value;
    assert Get(p.columns, p.rows[i], "teacher") == Some(Text(TeacherTexts(p).value[i]));
    KeptCells(d.columns, d.rows[i], m.columns, m.rows[i], parse);
  }

  /** A selected row whose cells agree with `e` label by label is `e`. */
  lemma SelectedRow(row: Row, columns: seq<string>, source: Row, e: Row)
    requires |row| == |e| == |Kept| && |source| == |columns|
    requires forall k :: 0 <= k < |Kept| ==> Some(row[k]) == Get(columns, source, Kept[k])
    requires forall k :: 0 <= k < |Kept| ==> Get(columns, source, Kept[k]) == Some(e[k])
    ensures row == e
  {
  }

  /**
    The cleaned rows are the expected rows of the trimmed table and nothing
    else: each output row is computed from some input row, and each input
    row's result is in the output.
   */
  lemma CleanRows(m: Table, parse: Cell -> Option<Stamp>)
    requires Rectangular(m) && CleanTrimmed(m, parse).Success?
    ensures Cleanable(m)
    ensures forall o :: o in CleanTrimmed(m, parse).value.rows ==>
      exists i :: 0 <= i < |m.rows| && o == Expected(m.columns, m.rows[i], parse)
    ensures forall i :: 0 <= i < |m.rows| ==> Expected(m.columns, m.rows[i], parse) in CleanTrimmed(m, parse).value.rows
  {
    CleanOutcome(m, parse);
    forall o | o in CleanTrimmed(m, parse).value.rows
      ensures exists i :: 0 <= i < |m.rows| && o == Expected(m.columns, m.rows[i], parse)
    {
      RowSource(m, parse, o);
    }
    forall i | 0 <= i < |m.rows|
      ensures Expected(m.columns, m.rows[i], parse) in CleanTrimmed(m, parse).value.rows
    {
      RowResult(m, parse, i);
    }
  }

  /** The stages of a successful cleaning, named. */
  lemma CleanStages(m: Table, parse: Cell -> Option<Stamp>)
    requires Rectangular(m) && CleanTrimmed(m, parse).Success?
    ensures Cleanable(m) && Prepare(m).Success? && Derive(Prepare(m).value, parse).Success?
    ensures SelectLabels(Deduplicated(Derive(Prepare(m).value, parse).value), Kept).Success?
    ensures CleanTrimmed(m, parse).value.rows ==
      SelectLabels(Deduplicated(Derive(Prepare(m).value, parse).value), Kept).value.rows
  {
    CleanOutcome(m, parse);
  }

  /** An output row of the cleaning is the expected row of some input row. */
  lemma RowSource(m: Table, parse: Cell -> Option<Stamp>, o: Row)
    requires Rectangular(m) && Cleanable(m) && CleanTrimmed(m, parse).Success? && o in CleanTrimmed(m, parse).value.rows
    ensures exists i :: 0 <= i < |m.rows| && o == Expected(m.columns, m.rows[i], parse)
  {
    CleanStages(m, parse);
    var d := Derive(Prepare(m).value, parse).value;
    var i := SelectedSource(d, SelectLabels(Deduplicated(d), Kept).value, o);
    ExpectedRow(m, parse, i);
    SelectedRow(o, d.columns, d.rows[i], Expected(m.columns, m.rows[i], parse));
  }

  /** A row of the kept columns of the deduplicated table comes from some row of the table. */
  lemma SelectedSource(d: Table, s: Table, o: Row) returns (i: nat)
    requires Rectangular(d) && SelectLabels(Deduplicated(d), Kept) == Success(s) && o in s.rows
    ensures i < |d.rows| && |o| == |Kept|
    ensures forall k :: 0 <= k < |Kept| ==> Some(o[k]) == Get(d.columns, d.rows[i], Kept[k])
  {
    var u := Deduplicated(d);
    var j :| 0 <= j < |s.rows| && s.rows[j] == o;
    assert u.rows[j] in d.rows;
    i :| i < |d.rows| && d.rows[i] == u.rows[j];
  }

  /** The expected row of every input row is an output row of the cleaning. */
  lemma RowResult(m: Table, parse: Cell -> Option<Stamp>, i: nat)
    requires Rectangular(m) && Cleanable(m) && CleanTrimmed(m, parse).Success? && i < |m.rows|
    ensures Expected(m.columns, m.rows[i], parse) in CleanTrimmed(m, parse).value.rows
  {
    CleanStages(m, parse);
    var d := Derive(Prepare(m).value, parse).value;
    var u := Deduplicated(d);
    var s := SelectLabels(u, Kept).value;
    assert d.rows[i] in u.rows;
    var j :| 0 <= j < |u.rows| && u.rows[j] == d.rows[i];
    ExpectedRow(m, parse, i);
    SelectedRow(s.rows[j], u.columns, u.rows[j], Expected(m.columns, m.rows[i], parse));
  }

  // ---------------------------------------------------------------------
  // What the cleaned rows satisfy

  /**
    Every cleaned row, in `OutputColumns` order: Teacher is text; Teacher
    Clean, Center and Area are computed from it; Area is missing or one of
    the directory's areas; Date, Time and Month are missing together.
   */
  lemma CleanRowShape(m: Table, parse: Cell -> Option<Stamp>, o: Row)
    requires Rectangular(m) && CleanTrimmed(m, parse).Success? && o in CleanTrimmed(m, parse).value.rows
    ensures |o| == |OutputColumns| && o[0].Text?
    ensures o[1] == Text(TeacherClean(o[0].text)) && o[2] == Text(Center(o[0].text))
    ensures o[3] == AreaCell(Center(o[0].text))
    ensures o[3] == Null || (o[3].Text? && o[3].text in CenterMap.Areas())
    ensures o[5] == Null <==> o[6] == Null
    ensures o[6] == Null <==> o[7] == Null
    ensures '\n' !in o[0].text ==> NoGroup(o[1].text)
  {
    CleanRows(m, parse);
    var i :| 0 <= i < |m.rows| && o == Expected(m.columns, m.rows[i], parse);
    ExpectedShape(m.columns, m.rows[i], parse);
    TeacherCleanHasNoGroup(o[0].text);
  }

  lemma ExpectedShape(columns: seq<string>, row: Row, parse: Cell -> Option<Stamp>)
    requires |row| == |columns| && "teacher" in columns && "date" in columns && "class_type" in columns
    requires Get(columns, row, "teacher").value.Text?
    ensures var o := Expected(columns, row, parse);
      && o[0].Text?
      && o[1] == Text(TeacherClean(o[0].text)) && o[2] == Text(Center(o[0].text))
      && o[3] == AreaCell(Center(o[0].text))
      && (o[3] == Null || (o[3].Text? && o[3].text in CenterMap.Areas()))
      && (o[5] == Null <==> o[6] == Null)
      && (o[6] == Null <==> o[7] == Null)
  {
    var teacher := Get(columns, row, "teacher").value.text;
    var stamp := Coerce(parse, Get(columns, row, "date").value);
    assert Expected(columns, row, parse) ==
      [Text(teacher), Text(TeacherClean(teacher)), Text(Center(teacher)), AreaCell(Center(teacher)),
       Get(columns, row, "class_type").value, DayCell(stamp), TimeCell(stamp), MonthCell(stamp)];
  }

  /** With no rows every column is all-empty and is dropped, so the drop of the administrative columns fails. */
  lemma NoRowsFails(t: Table, parse: Cell -> Option<Stamp>)
    requires Rectangular(t) && |t.rows| == 0
    ensures Clean(t, parse) == Failure(KeyError(Unneeded))
  {
    var m := Trimmed(t);
    assert m.columns == [];
    assert Unneeded[0] !in m.columns;
    CleanOutcome(m, parse);
    MissingNone(Unneeded);
  }

  /**
    Trimming keeps every row, so a row whose cells are all missing reaches
    the derivation and makes it fail: its teacher cell is not text.
   */
  lemma BlankRowFails(t: Table, parse: Cell -> Option<Stamp>, i: nat)
    requires Rectangular(t) && i < |t.rows| && forall x :: x in t.rows[i] ==> x == Null
    ensures Clean(t, parse).Failure?
  {
    var m := Trimmed(t);
    var n := NormalizeHeaders(t);
    var once := DropEmptyColumns(n);
    assert forall x :: x in m.rows[i] ==> x in once.rows[i];
    assert forall x :: x in once.rows[i] ==> x in t.rows[i];
    if "teacher" in m.columns {
      var j := Find(m.columns, "teacher").value;
      assert m.rows[i][j] in m.rows[i];
      assert Get(m.columns, m.rows[i], "teacher") == Some(Null);
    }
    CleanOutcome(m, parse);
  }
}
