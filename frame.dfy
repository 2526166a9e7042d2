/**
  A minimal data-frame: a header of column labels and a sequence of rows of
  cells, in row order. These are the frame operations the report pipeline
  chains: renaming headers, dropping all-empty columns, dropping named
  columns, assigning a derived column, removing duplicate rows and selecting
  columns by label. A label is looked up at its first occurrence.
 */
module Frame {
  import opened Wrappers

  /** A spreadsheet cell: missing (NaN/NaT), text, or any other value, identified by an uninterpreted code. */
  datatype Cell = Null | Text(text: string) | Scalar(code: int)

  type Row = seq<Cell>

  datatype Table = Table(columns: seq<string>, rows: seq<Row>)

  /** The failure of a column lookup by label (pandas' KeyError): the labels that are absent, in request order. */
  datatype FrameError = MissingColumns(labels: seq<string>)

  /** Every row has one cell per column. */
  ghost predicate Rectangular(t: Table) {
    forall i :: 0 <= i < |t.rows| ==> |t.rows[i]| == |t.columns|
  }

  /** Position of the first column labelled `name`. */
  function Find(columns: seq<string>, name: string): (r: Option<nat>)
    ensures r.None? <==> name !in columns
    ensures r.Some? ==> r.value < |columns| && columns[r.value] == name && name !in columns[..r.value]
  {
    if columns == [] then None
    else if columns[0] == name then Some(0)
    else match Find(columns[1..], name)
      case Some(k) => Some(k + 1)
      case None => None
  }

  /** The cell of `row` under the first column labelled `name`. */
  function Get(columns: seq<string>, row: Row, name: string): (r: Option<Cell>)
    requires |row| == |columns|
    ensures r.Some? <==> name in columns
  {
    match Find(columns, name)
    case Some(j) => Some(row[j])
    case None => None
  }

  /** The positions below `n` that satisfy `p`, in increasing order. */
  function Positions(n: nat, p: nat -> bool): (r: seq<nat>)
    ensures forall k :: 0 <= k < |r| ==> r[k] < n && p(r[k])
    ensures forall k, l :: 0 <= k < l < |r| ==> r[k] < r[l]
  {
    if n == 0 then [] else Positions(n - 1, p) + (if p(n - 1) then [n - 1] else [])
  }

  /** No position that satisfies `p` is missed. */
  lemma {:induction false} PositionsComplete(n: nat, p: nat -> bool, j: nat)
    requires j < n && p(j)
    ensures j in Positions(n, p)
  {
    if j < n - 1 {
      PositionsComplete(n - 1, p, j);
    }
  }

  /** The columns at positions `idx`, in that order. */
  function SelectColumns(t: Table, idx: seq<nat>): (r: Table)
    requires Rectangular(t)
    requires forall k :: 0 <= k < |idx| ==> idx[k] < |t.columns|
    ensures Rectangular(r) && |r.rows| == |t.rows| && |r.columns| == |idx|
    ensures forall k :: 0 <= k < |idx| ==> r.columns[k] == t.columns[idx[k]]
    ensures forall i, k :: 0 <= i < |t.rows| && 0 <= k < |idx| ==> r.rows[i][k] == t.rows[i][idx[k]]
  {
    Table(seq(|idx|, k requires 0 <= k < |idx| => t.columns[idx[k]]),
          seq(|t.rows|, i requires 0 <= i < |t.rows| =>
            seq(|idx|, k requires 0 <= k < |idx| => t.rows[i][idx[k]])))
  }

  /** Some row has a value in column `j`. */
  predicate HasValue(t: Table, j: nat) {
    exists i :: 0 <= i < |t.rows| && j < |t.rows[i]| && t.rows[i][j] != Null
  }

  /** `dropna(how="all", axis=1)`: the columns that hold at least one value, in order. */
  function DropEmptyColumns(t: Table): (r: Table)
    requires Rectangular(t)
    ensures Rectangular(r) && |r.rows| == |t.rows|
    ensures forall j :: 0 <= j < |r.columns| ==> HasValue(r, j)
    ensures forall j :: 0 <= j < |t.columns| && HasValue(t, j) ==> t.columns[j] in r.columns
    ensures forall i, x :: 0 <= i < |t.rows| && x in r.rows[i] ==> x in t.rows[i]
  {
    var p := (j: nat) => HasValue(t, j);
    var keep := Positions(|t.columns|, p);
    var r := SelectColumns(t, keep);
    forall j | 0 <= j < |r.columns| ensures HasValue(r, j) {
      assert p(keep[j]);
      assert HasValue(t, keep[j]);
      var i :| 0 <= i < |t.rows| && keep[j] < |t.rows[i]| && t.rows[i][keep[j]] != Null;
      assert r.rows[i][j] != Null;
    }
    forall j | 0 <= j < |t.columns| && HasValue(t, j) ensures t.columns[j] in r.columns {
      assert p(j);
      PositionsComplete(|t.columns|, p, j);
      var k :| 0 <= k < |keep| && keep[k] == j;
      assert r.columns[k] == t.columns[j];
    }
    r
  }

  /**
    `r` holds the columns of `t` at the strictly increasing positions `keep`,
    in that order, each with all its cells.
   */
  ghost predicate KeepsColumns(t: Table, r: Table, keep: seq<nat>) {
    Rectangular(t) && Rectangular(r) && |r.columns| == |keep| && |r.rows| == |t.rows| &&
    (forall k :: 0 <= k < |keep| ==> keep[k] < |t.columns| && r.columns[k] == t.columns[keep[k]]) &&
    (forall k, l :: 0 <= k < l < |keep| ==> keep[k] < keep[l]) &&
    forall i, k :: 0 <= i < |t.rows| && 0 <= k < |keep| ==> r.rows[i][k] == t.rows[i][keep[k]]
  }

  /** The columns `dropna` keeps are exactly those with a value, in their order and with their cells. */
  lemma DropEmptyColumnsKeeps(t: Table)
    requires Rectangular(t)
    ensures exists keep :: (KeepsColumns(t, DropEmptyColumns(t), keep) &&
                           (forall k :: 0 <= k < |keep| ==> HasValue(t, keep[k])) &&
                           forall j :: 0 <= j < |t.columns| && HasValue(t, j) ==> j in keep)
  {
    var p := (j: nat) => HasValue(t, j);
    var keep := Positions(|t.columns|, p);
    assert DropEmptyColumns(t) == SelectColumns(t, keep);
    forall j | 0 <= j < |t.columns| && HasValue(t, j) ensures j in keep {
      assert p(j);
      PositionsComplete(|t.columns|, p, j);
    }
    assert KeepsColumns(t, DropEmptyColumns(t), keep);
  }

  /** Where the first column labelled `c` holds a value, `dropna` leaves every row's cell under `c` as it was. */
  lemma DropEmptyColumnsGet(t: Table, i: nat, c: string)
    requires Rectangular(t) && i < |t.rows| && c in t.columns && HasValue(t, Find(t.columns, c).value)
    ensures var r := DropEmptyColumns(t);
      Get(r.columns, r.rows[i], c) == Get(t.columns, t.rows[i], c)
  {
    var p := (j: nat) => HasValue(t, j);
    var keep := Positions(|t.columns|, p);
    var r := SelectColumns(t, keep);
    assert DropEmptyColumns(t) == r;
    var j := Find(t.columns, c).value;
    assert p(j);
    PositionsComplete(|t.columns|, p, j);
    var k :| 0 <= k < |keep| && keep[k] == j;
    SelectedFind(t.columns, keep, r.columns, c, k);
  }

  /** The labels of `wanted` that are not columns, in the order requested. */
  function Missing(wanted: seq<string>, columns: seq<string>): (r: seq<string>)
    ensures forall n :: n in r <==> n in wanted && n !in columns
    ensures r == [] <==> forall n :: n in wanted ==> n in columns
  {
    if wanted == [] then []
    else (if wanted[0] in columns then [] else [wanted[0]]) + Missing(wanted[1..], columns)
  }

  /** The absent labels of a concatenated request are those of each part, in request order. */
  lemma {:induction false} MissingAppend(a: seq<string>, b: seq<string>, columns: seq<string>)
    ensures Missing(a + b, columns) == Missing(a, columns) + Missing(b, columns)
  {
    if a == [] {
      assert a + b == b;
    } else {
      MissingAppend(a[1..], b, columns);
      MissingConcat(a, b, columns);
    }
  }

  lemma MissingConcat(a: seq<string>, b: seq<string>, columns: seq<string>)
    requires a != []
    requires Missing(a[1..] + b, columns) == Missing(a[1..], columns) + Missing(b, columns)
    ensures Missing(a + b, columns) == Missing(a, columns) + Missing(b, columns)
  {
    TailOfConcat(a, b);
    MissingStep(a + b, columns);
    MissingStep(a, columns);
    ConcatAssoc(if a[0] in columns then [] else [a[0]], Missing(a[1..], columns), Missing(b, columns));
  }

  lemma MissingStep(w: seq<string>, columns: seq<string>)
    requires w != []
    ensures Missing(w, columns) == (if w[0] in columns then [] else [w[0]]) + Missing(w[1..], columns)
  {
  }

  lemma ConcatAssoc<T>(x: seq<T>, y: seq<T>, z: seq<T>)
    ensures x + (y + z) == (x + y) + z
  {
  }

  lemma TailOfConcat<T>(a: seq<T>, b: seq<T>)
    requires a != []
    ensures (a + b)[0] == a[0] && (a + b)[1..] == a[1..] + b
  {
  }

  /** Against no columns, every wanted label is missing. */
  lemma {:induction false} MissingNone(wanted: seq<string>)
    ensures Missing(wanted, []) == wanted
  {
    if wanted != [] {
      MissingNone(wanted[1..]);
    }
  }

  /** When only the label at position `k` is absent, it is the whole of the error. */
  lemma {:induction false} MissingOnly(wanted: seq<string>, columns: seq<string>, k: nat)
    requires k < |wanted| && wanted[k] !in columns
    requires forall j :: 0 <= j < |wanted| && j != k ==> wanted[j] in columns
    ensures Missing(wanted, columns) == [wanted[k]]
  {
    if k == 0 {
      assert forall n :: n in wanted[1..] ==> n in columns;
    } else {
      MissingOnly(wanted[1..], columns, k - 1);
    }
  }

  /** `drop(columns=names)`: every column with one of these labels removed; a KeyError when any is absent. */
  function DropColumns(t: Table, names: seq<string>): (r: Result<Table, FrameError>)
    requires Rectangular(t)
    ensures r.Success? <==> forall n :: n in names ==> n in t.columns
    ensures r.Failure? ==> r.error == MissingColumns(Missing(names, t.columns)) && r.error.labels != []
    ensures r.Success? ==> Rectangular(r.value) && |r.value.rows| == |t.rows|
    ensures r.Success? ==> forall c :: c in r.value.columns <==> c in t.columns && c !in names
  {
    var missing := Missing(names, t.columns);
    assert missing != [] ==> missing[0] in missing;
    if missing != [] then Failure(MissingColumns(missing))
    else
      var keep := Positions(|t.columns|, (j: nat) => j < |t.columns| && t.columns[j] !in names);
      var r := SelectColumns(t, keep);
      assert forall c :: c in r.columns <==> c in t.columns && c !in names by {
        forall c | c in t.columns && c !in names ensures c in r.columns {
          var j :| 0 <= j < |t.columns| && t.columns[j] == c;
          assert ((j: nat) => j < |t.columns| && t.columns[j] !in names)(j);
          PositionsComplete(|t.columns|, (j: nat) => j < |t.columns| && t.columns[j] !in names, j);
          var k :| 0 <= k < |keep| && keep[k] == j;
          assert r.columns[k] == c;
        }
      }
      Success(r)
  }

  /** Dropping columns leaves the cell under every other label where it was. */
  lemma DropColumnsGet(t: Table, names: seq<string>, i: nat, c: string)
    requires Rectangular(t) && DropColumns(t, names).Success? && i < |t.rows| && c !in names
    ensures var r := DropColumns(t, names).value;
      Get(r.columns, r.rows[i], c) == Get(t.columns, t.rows[i], c)
  {
    var p := (j: nat) => j < |t.columns| && t.columns[j] !in names;
    var keep := Positions(|t.columns|, p);
    var r := SelectColumns(t, keep);
    assert DropColumns(t, names).value == r;
    if c in t.columns {
      var j := Find(t.columns, c).value;
      assert p(j);
      PositionsComplete(|t.columns|, p, j);
      var k :| 0 <= k < |keep| && keep[k] == j;
      SelectedFind(t.columns, keep, r.columns, c, k);
    }
  }

  /** A label found at a kept position is found at that position's place among the kept columns. */
  lemma SelectedFind(columns: seq<string>, keep: seq<nat>, selected: seq<string>, c: string, k: nat)
    requires |selected| == |keep| && forall l :: 0 <= l < |keep| ==> keep[l] < |columns| && selected[l] == columns[keep[l]]
    requires forall a, b :: 0 <= a < b < |keep| ==> keep[a] < keep[b]
    requires k < |keep| && Find(columns, c) == Some(keep[k])
    ensures Find(selected, c) == Some(k)
  {
    var j := keep[k];
    forall l | 0 <= l < k ensures selected[l] != c {
      assert columns[..j][keep[l]] == columns[keep[l]];
    }
    FindFirst(selected, c, k);
  }

  /** `Find` gives the first position that holds the label. */
  lemma FindFirst(columns: seq<string>, c: string, k: nat)
    requires k < |columns| && columns[k] == c
    requires forall l :: 0 <= l < k ==> columns[l] != c
    ensures Find(columns, c) == Some(k)
  {
    assert c in columns;
    var v := Find(columns, c).value;
    var before := columns[..v];
    assert forall l :: 0 <= l < |before| ==> before[l] == columns[l];
  }

  /**
    `assign(name=values)`: the column labelled `name` takes `values`, in
    place when the label exists and appended as the last column otherwise.
   */
  function AssignColumn(t: Table, name: string, values: seq<Cell>): (r: Table)
    requires Rectangular(t) && |values| == |t.rows|
    ensures Rectangular(r) && |r.rows| == |t.rows|
    ensures r.columns == if name in t.columns then t.columns else t.columns + [name]
    ensures forall c :: c in r.columns <==> c in t.columns || c == name
  {
    match Find(t.columns, name)
    case Some(j) =>
      Table(t.columns, seq(|t.rows|, i requires 0 <= i < |t.rows| => t.rows[i][j := values[i]]))
    case None =>
      Table(t.columns + [name], seq(|t.rows|, i requires 0 <= i < |t.rows| => t.rows[i] + [values[i]]))
  }

  /** After an assignment, row `i` reads `values[i]` under `name` and what it read before under every other label. */
  lemma AssignColumnGet(t: Table, name: string, values: seq<Cell>, i: nat, m: string)
    requires Rectangular(t) && |values| == |t.rows| && i < |t.rows|
    ensures var r := AssignColumn(t, name, values);
      Get(r.columns, r.rows[i], m) == if m == name then Some(values[i]) else Get(t.columns, t.rows[i], m)
  {
    match Find(t.columns, name)
    case Some(j) =>
      if m != name && m in t.columns {
        assert Find(t.columns, m).value != j;
      }
    case None =>
      FindAppend(t.columns, name, m);
  }

  lemma {:induction false} FindAppend(columns: seq<string>, name: string, m: string)
    ensures Find(columns + [name], m) == if m in columns then Find(columns, m) else if m == name then Some(|columns|) else None
  {
    if columns != [] {
      assert (columns + [name])[1..] == columns[1..] + [name];
      FindAppend(columns[1..], name, m);
    }
  }
  /** `loc[:, names]`: the columns with these labels, in this order; a KeyError when any is absent. */
  function SelectLabels(t: Table, names: seq<string>): (r: Result<Table, FrameError>)
    requires Rectangular(t)
    ensures r.Success? <==> forall n :: n in names ==> n in t.columns
    ensures r.Failure? ==> r.error == MissingColumns(Missing(names, t.columns)) && r.error.labels != []
    ensures r.Success? ==> r.value.columns == names && Rectangular(r.value) && |r.value.rows| == |t.rows|
    ensures r.Success? ==> forall i, k :: 0 <= i < |t.rows| && 0 <= k < |names| ==>
      Some(r.value.rows[i][k]) == Get(t.columns, t.rows[i], names[k])
  {
    var missing := Missing(names, t.columns);
    assert missing != [] ==> missing[0] in missing;
    if missing != [] then Failure(MissingColumns(missing))
    else
      var idx := seq(|names|, k requires 0 <= k < |names| => Find(t.columns, names[k]).value);
      var r := SelectColumns(t, idx);
      assert r.columns == names;
      Success(r)
  }

  /** `drop_duplicates()`: each distinct row once, at its first occurrence. */
  function Dedup(rows: seq<Row>): (r: seq<Row>)
    ensures forall i, j :: 0 <= i < j < |r| ==> r[i] != r[j]
    ensures forall x :: x in r <==> x in rows
  {
    if rows == [] then []
    else
      var d := Dedup(rows[..|rows| - 1]);
      var x := rows[|rows| - 1];
      assert forall y :: y in rows <==> y in rows[..|rows| - 1] || y == x;
      if x in d then d else d + [x]
  }

  /** The entries of `s` at positions `idx`. */
  function Pick(s: seq<Row>, idx: seq<nat>): (r: seq<Row>)
    requires forall k :: 0 <= k < |idx| ==> idx[k] < |s|
    ensures |r| == |idx|
  {
    seq(|idx|, k requires 0 <= k < |idx| => s[idx[k]])
  }

  /** The positions of rows that do not occur earlier, in increasing order. */
  function FirstOccurrences(rows: seq<Row>): (r: seq<nat>)
    ensures forall k :: 0 <= k < |r| ==> r[k] < |rows|
  {
    if rows == [] then []
    else
      var init := rows[..|rows| - 1];
      FirstOccurrences(init) + (if rows[|rows| - 1] in init then [] else [|rows| - 1])
  }

  /** Every listed position holds a row that does not occur earlier. */
  lemma {:induction false} FirstOccurrencesAreNew(rows: seq<Row>)
    ensures forall k :: 0 <= k < |FirstOccurrences(rows)| ==>
      rows[FirstOccurrences(rows)[k]] !in rows[..FirstOccurrences(rows)[k]]
  {
    if rows != [] {
      var n := |rows|;
      var init := rows[..n - 1];
      FirstOccurrencesAreNew(init);
      var f := FirstOccurrences(init);
      var r := FirstOccurrences(rows);
      assert r == f + (if rows[n - 1] in init then [] else [n - 1]);
      forall k | 0 <= k < |r| ensures rows[r[k]] !in rows[..r[k]] {
        if k < |f| {
          var j := f[k];
          assert r[k] == j && j < n - 1;
          assert rows[..j] == init[..j] && rows[j] == init[j];
        } else {
          assert r[k] == n - 1 && rows[..n - 1] == init;
        }
      }
    }
  }

  /** The listed positions increase. */
  lemma {:induction false} FirstOccurrencesIncrease(rows: seq<Row>)
    ensures forall k, l :: 0 <= k < l < |FirstOccurrences(rows)| ==>
      FirstOccurrences(rows)[k] < FirstOccurrences(rows)[l]
  {
    if rows != [] {
      var n := |rows|;
      var init := rows[..n - 1];
      FirstOccurrencesIncrease(init);
      var f := FirstOccurrences(init);
      var r := FirstOccurrences(rows);
      assert r == f + (if rows[n - 1] in init then [] else [n - 1]);
      forall k, l | 0 <= k < l < |r| ensures r[k] < r[l] {
        assert r[k] == f[k] && f[k] < |init|;
        if l < |f| {
          assert r[l] == f[l];
        }
      }
    }
  }

  /** Every position whose row does not occur earlier is listed. */
  lemma {:induction false} FirstOccurrencesComplete(rows: seq<Row>)
    ensures forall j :: 0 <= j < |rows| && rows[j] !in rows[..j] ==> j in FirstOccurrences(rows)
  {
    if rows != [] {
      var n := |rows|;
      var init := rows[..n - 1];
      FirstOccurrencesComplete(init);
      var f := FirstOccurrences(init);
      var r := FirstOccurrences(rows);
      assert f <= r;
      forall j | 0 <= j < n && rows[j] !in rows[..j] ensures j in r {
        if j < n - 1 {
          assert rows[..j] == init[..j] && rows[j] == init[j];
          assert j in f;
        } else {
          assert rows[..n - 1] == init;
        }
      }
    }
  }

  /** Picking positions of a prefix reads the same rows from the whole sequence. */
  lemma PickPrefix(s: seq<Row>, init: seq<Row>, idx: seq<nat>)
    requires init <= s && forall k :: 0 <= k < |idx| ==> idx[k] < |init|
    ensures Pick(s, idx) == Pick(init, idx)
  {
  }

  /**
    De-duplication keeps exactly the rows that occur for the first time, in
    their input order: it is the input restricted to those positions.
   */
  lemma {:induction false} DedupKeepsFirst(rows: seq<Row>)
    ensures Dedup(rows) == Pick(rows, FirstOccurrences(rows))
  {
    if rows != [] {
      var n := |rows|;
      var init := rows[..n - 1];
      var x := rows[n - 1];
      DedupKeepsFirst(init);
      var f := FirstOccurrences(init);
      PickPrefix(rows, init, f);
      if x !in init {
        assert Pick(rows, f + [n - 1]) == Pick(rows, f) + [x];
      }
    }
  }

  lemma {:induction false} PositionsAll(n: nat, p: nat -> bool)
    requires forall j :: 0 <= j < n ==> p(j)
    ensures |Positions(n, p)| == n
    ensures forall k :: 0 <= k < n ==> Positions(n, p)[k] == k
  {
    if n > 0 {
      PositionsAll(n - 1, p);
      var q := Positions(n - 1, p);
      assert p(n - 1);
      assert Positions(n, p) == q + [n - 1];
      CountingUp(q, n - 1);
    }
  }

  /** Appending `m` to `0, 1, ..., m - 1` gives `0, 1, ..., m`. */
  lemma CountingUp(q: seq<nat>, m: nat)
    requires |q| == m && forall k :: 0 <= k < m ==> q[k] == k
    ensures |q + [m]| == m + 1 && forall k :: 0 <= k < m + 1 ==> (q + [m])[k] == k
  {
  }

  /** The second `dropna(how="all", axis=1)` changes nothing: no column left by the first is empty. */
  lemma DropEmptyColumnsIdempotent(t: Table)
    requires Rectangular(t)
    ensures DropEmptyColumns(DropEmptyColumns(t)) == DropEmptyColumns(t)
  {
    var r := DropEmptyColumns(t);
    var p := (j: nat) => HasValue(r, j);
    var n := |r.columns|;
    forall j | 0 <= j < n ensures p(j) {
      assert HasValue(r, j);
    }
    PositionsAll(n, p);
    var keep := Positions(n, p);
    var s := SelectColumns(r, keep);
    forall k | 0 <= k < n ensures s.columns[k] == r.columns[k] {
      assert keep[k] == k;
    }
    forall i | 0 <= i < |r.rows| ensures s.rows[i] == r.rows[i] {
      forall k | 0 <= k < n ensures s.rows[i][k] == r.rows[i][k] {
        assert keep[k] == k;
      }
    }
    assert s.columns == r.columns && s.rows == r.rows;
  }
}
