/**
  The summary sheet: rows of the cleaned table are grouped by
  (Area, Teacher, Month) and counted, then pivoted into a grid whose rows are
  the (Area, Teacher) pairs in ascending order, whose columns are the months
  with the latest first, and whose missing cells are 0.
 */
module Summary {
  import opened Ordering

  /** The grouping key of one counted row. */
  datatype Tally = Tally(area: string, teacher: string, month: string)

  /** The pivoted counts: `counts[i][j]` belongs to row `index[i]` and column `months[j]`. */
  datatype Grid = Grid(index: seq<(string, string)>, months: seq<string>, counts: seq<seq<nat>>)

  /** `groupby(...).agg(count=...)`: each key that occurs, with the number of its occurrences. */
  function GroupCounts(ts: seq<Tally>): (m: map<Tally, nat>)
    ensures forall x :: x in m <==> x in ts
    ensures forall x :: x in m ==> m[x] == multiset(ts)[x]
  {
    if ts == [] then map[]
    else
      var init := ts[..|ts| - 1];
      var x := ts[|ts| - 1];
      assert ts == init + [x];
      var m := GroupCounts(init);
      m[x := (if x in m then m[x] else 0) + 1]
  }

  /** The (Area, Teacher) part of each key. */
  function Pairs(ts: seq<Tally>): (r: seq<(string, string)>)
    ensures forall p :: p in r <==> exists x :: x in ts && p == (x.area, x.teacher)
  {
    if ts == [] then [] else Pairs(ts[..|ts| - 1]) + [(ts[|ts| - 1].area, ts[|ts| - 1].teacher)]
  }

  /** The Month part of each key. */
  function Months(ts: seq<Tally>): (r: seq<string>)
    ensures forall m :: m in r <==> exists x :: x in ts && m == x.month
  {
    if ts == [] then [] else Months(ts[..|ts| - 1]) + [ts[|ts| - 1].month]
  }

  /**
    `pivot(index=[Area, Teacher], columns=Month).fillna(0)` followed by the
    column reversal: rows and columns sorted ascending, then the columns
    read back to front.
   */
  function Summarize(ts: seq<Tally>): (g: Grid)
    ensures forall p :: p in g.index <==> exists x :: x in ts && p == (x.area, x.teacher)
    ensures forall m :: m in g.months <==> exists x :: x in ts && m == x.month
    ensures |g.counts| == |g.index|
    ensures forall i :: 0 <= i < |g.index| ==> |g.counts[i]| == |g.months|
    ensures forall i, j :: 0 <= i < |g.index| && 0 <= j < |g.months| ==>
      g.counts[i][j] == multiset(ts)[Tally(g.index[i].0, g.index[i].1, g.months[j])]
  {
    var groups := GroupCounts(ts);
    var index := SortedDistinct(Pairs(ts), PairLess);
    var months := Reverse(SortedDistinct(Months(ts), Less));
    var counts := seq(|index|, i requires 0 <= i < |index| =>
      seq(|months|, j requires 0 <= j < |months| =>
        var key := Tally(index[i].0, index[i].1, months[j]);
        if key in groups then groups[key] else 0));
    Grid(index, months, counts)
  }

  /** Rows are in strictly ascending (Area, Teacher) order; month columns in strictly descending order. */
  lemma SummaryOrdered(ts: seq<Tally>)
    ensures StrictlySorted(Summarize(ts).index, PairLess)
    ensures forall i, j :: 0 <= i < j < |Summarize(ts).months| ==>
      Less(Summarize(ts).months[j], Summarize(ts).months[i])
  {
    PairLessIsStrictTotal();
    LessIsStrictTotal();
    SortedDistinctIsSorted(Pairs(ts), PairLess);
    SortedDistinctIsSorted(Months(ts), Less);
    ReverseDescends(SortedDistinct(Months(ts), Less));
  }
}
