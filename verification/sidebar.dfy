/** The sidebar's inputs to the filter stage (app.py:65-74): the keyword options and
    their default selection, and the date widget's value. */
module Sidebar {
  import opened Order
  import opened Loader
  import opened Filter

  /** The `target_keyword` column of a table. */
  function Keywords(rows: seq<Row>): (ks: seq<string>)
    ensures |ks| == |rows|
    ensures forall i :: 0 <= i < |rows| ==> ks[i] == rows[i].keyword
  {
    if |rows| == 0 then [] else [rows[0].keyword] + Keywords(rows[1..])
  }

  /** `sorted(trend_df['target_keyword'].unique())`, or no options for an empty table. */
  function AllKeywords(trend: seq<Row>): (r: seq<string>)
    ensures StrictlySorted(r)
    ensures forall k :: k in r <==> exists row :: row in trend && row.keyword == k
  {
    var ks := Keywords(trend);
    assert forall k :: k in ks <==> exists row :: row in trend && row.keyword == k by {
      forall k ensures k in ks <==> exists row :: row in trend && row.keyword == k {
        if k in ks {
          var i :| 0 <= i < |ks| && ks[i] == k;
          assert trend[i] in trend;
        }
        if exists row :: row in trend && row.keyword == k {
          var row :| row in trend && row.keyword == k;
          var i :| 0 <= i < |trend| && trend[i] == row;
          assert ks[i] == k;
        }
      }
    }
    if |trend| == 0 then [] else SortedUnique(ks)
  }

  /** The multiselect's default: the first three options when there are more than
      three, otherwise all of them. */
  function DefaultSelection(options: seq<string>): (r: seq<string>)
    ensures |r| == if |options| < 3 then |options| else 3
    ensures r == options[..|r|]
    ensures forall k :: k in r ==> k in options
  {
    if |options| > 3 then options[..3] else options
  }

  /** Over sorted options the default picks the smallest keywords: each chosen keyword
      sorts before each one left out. */
  lemma DefaultSelectionSmallest(options: seq<string>, chosen: string, other: string)
    requires StrictlySorted(options)
    requires chosen in DefaultSelection(options)
    requires other in options && other !in DefaultSelection(options)
    ensures Less(chosen, other)
  {
    var d := DefaultSelection(options);
    var i :| 0 <= i < |d| && d[i] == chosen;
    var j :| 0 <= j < |options| && options[j] == other;
    assert options[i] == chosen;
  }

  /** The date widget's value: whatever the user picked when the trend table has rows,
      and an empty range otherwise. */
  function DateRange(trend: seq<Row>, picked: seq<int>): (r: seq<int>)
    ensures |trend| == 0 ==> |r| == 0
    ensures |trend| > 0 ==> r == picked
  {
    if |trend| == 0 then [] else picked
  }

  /** Without trend rows no table is filtered at all, whatever keywords are selected:
      the stage passes the four tables through, column-less ones included. */
  lemma NoTrendNoFilter(t: Tables, selected: seq<string>, picked: seq<int>)
    requires |RowsOf(t.trend)| == 0
    ensures FilterStage(t, selected, DateRange(RowsOf(t.trend), picked)) == Filtered(t)
  {
  }

  /** With trend rows and a two-entry pick (the widget's default is the pair of the
      trend table's first and last dates), the stage as written raises exactly when the
      blog, news or shop table is column-less, that is when no file of that category
      was read. */
  lemma TrendWithoutCategoryRaises(t: Tables, selected: seq<string>, picked: seq<int>)
    requires |RowsOf(t.trend)| > 0 && |picked| == 2
    ensures FilterStage(t, selected, DateRange(RowsOf(t.trend), picked)).Raised?
            <==> t.blog.None? || t.news.None? || t.shop.None?
  {
  }
}
