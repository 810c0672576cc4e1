/** The row filter stage (app.py:77-88): the trend and blog tables are narrowed to the
    selected keywords and an inclusive date interval, the news and shop tables to the
    selected keywords only; without a two-entry date range nothing is filtered. Indexing
    a column-less table raises, which `FilterStage` models as written and
    `SafeFilterStage` corrects. */
module Filter {
  import opened Wrappers
  import opened Seqs
  import opened FileNames
  import opened Loader

  /** The boolean mask a table is indexed with. */
  datatype Criterion =
    | ByKeyword(selected: seq<string>)
    | ByKeywordAndDate(selected: seq<string>, start: int, end: int)

  /** `target_keyword.isin(selected)`, and for dated criteria `start <= date <= end`;
      a missing date fails both comparisons. */
  predicate Matches(row: Row, crit: Criterion)
    ensures Matches(row, crit) ==> row.keyword in crit.selected
    ensures crit.ByKeywordAndDate? && row.date.None? ==> !Matches(row, crit)
  {
    match crit
    case ByKeyword(sel) => row.keyword in sel
    case ByKeywordAndDate(sel, start, end) =>
      row.keyword in sel && row.date.Some? && start <= row.date.value && row.date.value <= end
  }

  /** `df[mask]`: the rows satisfying the criterion, in their original order. */
  function Keep(rows: seq<Row>, crit: Criterion): (r: seq<Row>)
    ensures |r| <= |rows|
    ensures forall x :: x in r ==> Matches(x, crit)
  {
    if |rows| == 0 then []
    else if Matches(rows[0], crit) then [rows[0]] + Keep(rows[1..], crit)
    else Keep(rows[1..], crit)
  }

  /** A row is kept exactly when it is in the table and satisfies the criterion. */
  lemma {:induction false} KeepMembers(rows: seq<Row>, crit: Criterion, x: Row)
    ensures x in Keep(rows, crit) <==> x in rows && Matches(x, crit)
    decreases |rows|
  {
    if |rows| > 0 {
      KeepMembers(rows[1..], crit, x);
      assert rows == [rows[0]] + rows[1..];
    }
  }

  /** Kept rows keep their relative order. */
  lemma {:induction false} KeepSubseq(rows: seq<Row>, crit: Criterion)
    ensures Subseq(Keep(rows, crit), rows)
    decreases |rows|
  {
    if |rows| > 0 {
      KeepSubseq(rows[1..], crit);
      var r := Keep(rows, crit);
      if Matches(rows[0], crit) {
        assert r[0] == rows[0] && r[1..] == Keep(rows[1..], crit);
      }
    }
  }

  /** Filtering twice is filtering once. */
  lemma {:induction false} KeepIdempotent(rows: seq<Row>, crit: Criterion)
    ensures Keep(Keep(rows, crit), crit) == Keep(rows, crit)
    decreases |rows|
  {
    if |rows| > 0 {
      KeepIdempotent(rows[1..], crit);
      if Matches(rows[0], crit) {
        var r := Keep(rows, crit);
        assert r[0] == rows[0] && r[1..] == Keep(rows[1..], crit);
      }
    }
  }

  /** The mask is applied row by row, so filtering distributes over concatenation. */
  lemma {:induction false} KeepAppend(a: seq<Row>, b: seq<Row>, crit: Criterion)
    ensures Keep(a + b, crit) == Keep(a, crit) + Keep(b, crit)
    decreases |a|
  {
    if |a| == 0 {
      assert a + b == b;
    } else {
      assert (a + b)[0] == a[0];
      assert (a + b)[1..] == a[1..] + b;
      KeepAppend(a[1..], b, crit);
    }
  }

  /** A table whose every row satisfies the criterion passes through whole. */
  lemma {:induction false} KeepAll(rows: seq<Row>, crit: Criterion)
    requires forall i :: 0 <= i < |rows| ==> Matches(rows[i], crit)
    ensures Keep(rows, crit) == rows
    decreases |rows|
  {
    if |rows| > 0 {
      KeepAll(rows[1..], crit);
      assert [rows[0]] + rows[1..] == rows;
    }
  }

  /** A table none of whose rows satisfies the criterion is emptied. */
  lemma {:induction false} KeepNone(rows: seq<Row>, crit: Criterion)
    requires forall i :: 0 <= i < |rows| ==> !Matches(rows[i], crit)
    ensures Keep(rows, crit) == []
    decreases |rows|
  {
    if |rows| > 0 {
      KeepNone(rows[1..], crit);
    }
  }

  /** What the filter stage ends in: the four filtered tables, or the KeyError raised by
      indexing the column-less table of category `missing`. */
  datatype Stage = Filtered(tables: Tables) | Raised(missing: Category)

  /** `df[mask]` on a table that may be column-less: the column-less table stays as it is. */
  function Narrow(t: Option<seq<Row>>, crit: Criterion): (r: Option<seq<Row>>)
    ensures r.None? <==> t.None?
    ensures forall x :: x in RowsOf(r) <==> x in RowsOf(t) && Matches(x, crit)
  {
    match t
    case None => None
    case Some(rows) =>
      assert forall x :: x in Keep(rows, crit) <==> x in rows && Matches(x, crit) by {
        forall x ensures x in Keep(rows, crit) <==> x in rows && Matches(x, crit) {
          KeepMembers(rows, crit, x);
        }
      }
      Some(Keep(rows, crit))
  }

  /** The criteria of the two-entry branch. */
  function Dated(selected: seq<string>, dateRange: seq<int>): Criterion
    requires |dateRange| == 2
  {
    ByKeywordAndDate(selected, dateRange[0], dateRange[1])
  }

  /** The filter stage as written. `dateRange` is the date widget's value: a pair
      `[start, end]` once both ends are picked. Without a pair every table passes
      unchanged. With one, the masks read `target_keyword` of trend, blog, news and shop
      in that order, and the first column-less table among them raises. */
  function FilterStage(t: Tables, selected: seq<string>, dateRange: seq<int>): (r: Stage)
    ensures |dateRange| != 2 ==> r == Filtered(t)
    ensures r.Raised? <==> |dateRange| == 2 && (t.trend.None? || t.blog.None? || t.news.None? || t.shop.None?)
    ensures r.Raised? ==> t.Get(r.missing).None?
    ensures r.Raised? && t.trend.None? ==> r.missing == Trend
    ensures r.Filtered? ==> r.tables == SafeFilterStage(t, selected, dateRange)
  {
    if |dateRange| != 2 then Filtered(t)
    else if t.trend.None? then Raised(Trend)
    else if t.blog.None? then Raised(Blog)
    else if t.news.None? then Raised(News)
    else if t.shop.None? then Raised(Shop)
    else
      var dated := Dated(selected, dateRange);
      var undated := ByKeyword(selected);
      Filtered(Tables(Some(Keep(t.blog.value, dated)), Some(Keep(t.shop.value, undated)),
                      Some(Keep(t.trend.value, dated)), Some(Keep(t.news.value, undated))))
  }

  /** The filter stage as evidently intended: a category without files keeps its
      column-less table, so its tab shows the "no data" notice (app.py:139-140, 164-165,
      186-187) instead of the stage raising. A table is column-less after the stage
      exactly when it was before; every present table is filtered as the code does. */
  function SafeFilterStage(t: Tables, selected: seq<string>, dateRange: seq<int>): (r: Tables)
    ensures |dateRange| != 2 ==> r == t
    ensures forall c :: r.Get(c).None? <==> t.Get(c).None?
    ensures |dateRange| == 2 ==>
              && (forall x :: x in RowsOf(r.trend) ==>
                    (x in RowsOf(t.trend) && x.keyword in selected
                     && x.date.Some? && dateRange[0] <= x.date.value <= dateRange[1]))
              && (forall x :: x in RowsOf(r.blog) ==>
                    (x in RowsOf(t.blog) && x.keyword in selected
                     && x.date.Some? && dateRange[0] <= x.date.value <= dateRange[1]))
              && (forall x :: x in RowsOf(r.news) ==> x in RowsOf(t.news) && x.keyword in selected)
              && (forall x :: x in RowsOf(r.shop) ==> x in RowsOf(t.shop) && x.keyword in selected)
  {
    if |dateRange| == 2 then
      var dated := Dated(selected, dateRange);
      var undated := ByKeyword(selected);
      Tables(Narrow(t.blog, dated), Narrow(t.shop, undated), Narrow(t.trend, dated), Narrow(t.news, undated))
    else t
  }

  /** The converse of the corrected stage's contract: with a two-entry range, every trend
      or blog row with a selected keyword and a date inside the range (both ends
      included) is kept, and every news or shop row with a selected keyword is kept
      whatever its date. */
  lemma SafeFilterStageKeeps(t: Tables, selected: seq<string>, start: int, end: int, x: Row)
    ensures (x in RowsOf(t.trend) && x.keyword in selected && x.date.Some? && start <= x.date.value <= end)
              ==> x in RowsOf(SafeFilterStage(t, selected, [start, end]).trend)
    ensures (x in RowsOf(t.blog) && x.keyword in selected && x.date.Some? && start <= x.date.value <= end)
              ==> x in RowsOf(SafeFilterStage(t, selected, [start, end]).blog)
    ensures x in RowsOf(t.news) && x.keyword in selected ==> x in RowsOf(SafeFilterStage(t, selected, [start, end]).news)
    ensures x in RowsOf(t.shop) && x.keyword in selected ==> x in RowsOf(SafeFilterStage(t, selected, [start, end]).shop)
  {
    assert Dated(selected, [start, end]) == ByKeywordAndDate(selected, start, end);
  }

  /** Applying the corrected stage to its own output with the same widget values changes
      nothing. */
  lemma SafeFilterStageIdempotent(t: Tables, selected: seq<string>, dateRange: seq<int>)
    ensures SafeFilterStage(SafeFilterStage(t, selected, dateRange), selected, dateRange)
            == SafeFilterStage(t, selected, dateRange)
  {
    if |dateRange| == 2 {
      var dated := Dated(selected, dateRange);
      var undated := ByKeyword(selected);
      NarrowIdempotent(t.blog, dated);
      NarrowIdempotent(t.trend, dated);
      NarrowIdempotent(t.shop, undated);
      NarrowIdempotent(t.news, undated);
    }
  }

  lemma NarrowIdempotent(t: Option<seq<Row>>, crit: Criterion)
    ensures Narrow(Narrow(t, crit), crit) == Narrow(t, crit)
  {
    if t.Some? {
      KeepIdempotent(t.value, crit);
    }
  }

  /** Each table after the corrected stage keeps the relative order of its rows. */
  lemma SafeFilterStageOrder(t: Tables, selected: seq<string>, dateRange: seq<int>)
    ensures var r := SafeFilterStage(t, selected, dateRange);
            Subseq(RowsOf(r.blog), RowsOf(t.blog)) && Subseq(RowsOf(r.shop), RowsOf(t.shop))
            && Subseq(RowsOf(r.trend), RowsOf(t.trend)) && Subseq(RowsOf(r.news), RowsOf(t.news))
  {
    if |dateRange| == 2 {
      var dated := Dated(selected, dateRange);
      var undated := ByKeyword(selected);
      NarrowSubseq(t.blog, dated);
      NarrowSubseq(t.trend, dated);
      NarrowSubseq(t.shop, undated);
      NarrowSubseq(t.news, undated);
    } else {
      SubseqRefl(RowsOf(t.blog));
      SubseqRefl(RowsOf(t.shop));
      SubseqRefl(RowsOf(t.trend));
      SubseqRefl(RowsOf(t.news));
    }
  }

  lemma NarrowSubseq(t: Option<seq<Row>>, crit: Criterion)
    ensures Subseq(RowsOf(Narrow(t, crit)), RowsOf(t))
  {
    if t.Some? {
      KeepSubseq(t.value, crit);
    } else {
      SubseqRefl(RowsOf(t));
    }
  }

  /** As written, the stage raises whenever a two-entry range meets a column-less table:
      a trend file alone, with no blog file, is enough once the date widget holds a pair. */
  lemma MissingTableRaises(t: Tables, selected: seq<string>, dateRange: seq<int>, c: Category)
    requires |dateRange| == 2 && t.Get(c).None?
    ensures FilterStage(t, selected, dateRange).Raised?
    ensures SafeFilterStage(t, selected, dateRange).Get(c) == None
  {
  }
}
