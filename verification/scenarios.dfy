/** Concrete file names and data sets: example names of the naming convention, a
    small data set through the filter stage, and the corner cases the two test chains
    and the filter stage produce. */
module Scenarios {
  import opened Wrappers
  import opened Seqs
  import opened Text
  import opened FileNames
  import opened Loader
  import opened Filter
  import opened Sidebar

  /** The trend example of the naming convention: `shopping_trend_foo_20240101.csv` is a trend file
      with keyword `foo`, never a shop file. */
  lemma TrendExample()
    ensures KeywordCategory("shopping_trend_foo_20240101.csv") == Some(Trend)
    ensures ExtractKeyword("shopping_trend_foo_20240101.csv") == Some("foo")
    ensures Route("shopping_trend_foo_20240101.csv") == Some(Trend)
  {
    assert "shopping_trend_foo_20240101.csv" == Marker(Trend) + "foo" + "_" + "20240101.csv";
    TrendExampleNoBlog();
    TrendExampleSingleMarker();
    CanonicalName(Trend, "foo", "20240101.csv");
  }

  lemma TrendExampleNoBlog()
    ensures NoEarlierMatch("shopping_trend_foo_20240101.csv", Trend, RouteMarker)
  {
    var name := "shopping_trend_foo_20240101.csv";
    MissingCharNotContained(name, "blog_", 0);
    forall d | Rank(d) < Rank(Trend) ensures !Contains(name, RouteMarker(d)) {
      assert d == Blog;
    }
  }

  lemma TrendExampleSingleMarker()
    ensures !Contains("foo" + "_" + "20240101.csv", Marker(Trend))
  {
    MissingCharNotContained("foo_20240101.csv", "shopping_trend_", 1);
    assert "foo" + "_" + "20240101.csv" == "foo_20240101.csv";
  }

  /** A blog name whose keyword itself contains the marker: every `blog_` is deleted,
      and with no underscore left the keyword keeps the date stamp. */
  lemma RepeatedMarkerExample()
    ensures KeywordCategory("blog_myblog_20240101.csv") == Some(Blog)
    ensures ExtractKeyword("blog_myblog_20240101.csv") == Some("my20240101.csv")
  {
    var name := "blog_myblog_20240101.csv";
    assert "my" + "20240101.csv" == "my20240101.csv";
    assert name == "blog_" + "my" + "blog_" + "20240101.csv";
    assert OccursAt(name, "blog_", 0);
    RemoveAllTwoOccurrences("blog_", "my", "20240101.csv");
    assert '_' !in "my20240101.csv";
    KeywordOf(name, Blog, "my20240101.csv");
  }

  /** Deleting a marker can create a new occurrence of it: the stripped name may still
      contain the marker, so one pass of `replace` is not idempotent. */
  lemma MarkerSurvivesRemoval()
    ensures RemoveAll("blblog_og_", "blog_") == "blog_"
    ensures Contains(RemoveAll("blblog_og_", "blog_"), "blog_")
  {
    assert "blblog_og_" == "bl" + ("blog_" + "og_");
    MarkerSurvivesFront();
    RemoveAllKeepsFront("bl", "blog_" + "og_", "blog_");
    RemoveAllLeading("blog_", "og_");
    MissingCharNotContained("og_", "blog_", 0);
    RemoveAllAbsent("og_", "blog_");
    assert "bl" + "og_" == "blog_";
    assert OccursAt("blog_", "blog_", 0);
  }

  lemma MarkerSurvivesFront()
    ensures forall i :: 0 <= i < 2 ==> !StartsWith(("bl" + ("blog_" + "og_"))[i..], "blog_")
  {
    var s := "bl" + ("blog_" + "og_");
    assert s[0..][2] == 'b';
    assert s[1..][0] == 'l';
  }

  /** The chains disagree: `shop_shopping_trend.csv` takes the shop branch of the keyword
      chain (keyword `shopping`) but the bucket chain sends its rows to the trend table. */
  lemma ChainsDisagreeExample()
    ensures KeywordCategory("shop_shopping_trend.csv") == Some(Shop)
    ensures ExtractKeyword("shop_shopping_trend.csv") == Some("shopping")
    ensures Route("shop_shopping_trend.csv") == Some(Trend)
  {
    DisagreeKeyword();
    DisagreeMarkers();
    RouteDisagreement("shop_shopping_trend.csv");
  }

  lemma DisagreeKeyword()
    ensures KeywordCategory("shop_shopping_trend.csv") == Some(Shop)
    ensures ExtractKeyword("shop_shopping_trend.csv") == Some("shopping")
  {
    DisagreeMarkers();
    DisagreeNoEarlier();
    DisagreeStripped();
    DisagreeSplit();
    KeywordOf("shop_shopping_trend.csv", Shop, "shopping_trend.csv");
  }

  lemma DisagreeNoEarlier()
    ensures NoEarlierMatch("shop_shopping_trend.csv", Shop, Marker)
  {
    var name := "shop_shopping_trend.csv";
    DisagreeMarkers();
    forall d | Rank(d) < Rank(Shop) ensures !Contains(name, Marker(d)) {
      assert d == Blog || d == Trend;
    }
  }

  lemma DisagreeSplit()
    ensures RSplitOnce("shopping_trend.csv", '_')[0] == "shopping"
  {
    assert "shopping" + ['_'] + "trend.csv" == "shopping_trend.csv";
    RSplitOfJoin("shopping", '_', "trend.csv");
  }

  lemma DisagreeMarkers()
    ensures !Contains("shop_shopping_trend.csv", "blog_")
    ensures !Contains("shop_shopping_trend.csv", "shopping_trend_")
    ensures Contains("shop_shopping_trend.csv", "shop_")
    ensures Contains("shop_shopping_trend.csv", "shopping_trend")
  {
    var name := "shop_shopping_trend.csv";
    MissingCharNotContained(name, "blog_", 0);
    forall i | 0 <= i <= |name| - 15 ensures !OccursAt(name, "shopping_trend_", i) {
      assert name[i..i + 15][1] == name[i + 1];
      assert name[i..i + 15][14] == name[i + 14];
    }
    assert OccursAt(name, "shop_", 0);
    assert OccursAt(name, "shopping_trend", 5);
  }

  lemma DisagreeStripped()
    ensures RemoveAll("shop_shopping_trend.csv", "shop_") == "shopping_trend.csv"
  {
    var rest := "shopping_trend.csv";
    assert "shop_shopping_trend.csv" == "shop_" + rest;
    forall i | 0 <= i <= |rest| - 5 ensures !OccursAt(rest, "shop_", i) {
      assert rest[i..i + 5][0] == rest[i];
      assert rest[i..i + 5][4] == rest[i + 4];
    }
    RemoveAllLeading("shop_", rest);
    RemoveAllAbsent(rest, "shop_");
  }

  /** Every record's date lies in `[start, end]`. */
  predicate AllWithin(records: seq<Record>, start: int, end: int)
  {
    forall i :: 0 <= i < |records| ==>
      records[i].date.Some? && start <= records[i].date.value <= end
  }

  /** Every record's date is missing or after `end`. */
  predicate AllAfter(records: seq<Record>, end: int)
  {
    forall i :: 0 <= i < |records| ==> records[i].date.None? || records[i].date.value > end
  }

  /** A two-file blog example, for any two names of the shape the
      convention prescribes: a 10-row and a 5-row file with the same keyword load into
      one 15-row blog table tagged with that keyword, and filtering that keyword to the
      first file's date range keeps exactly the first file's rows. `SunglassesName`
      shows two such names have this shape. */
  lemma BlogTwoFilesExample(name1: string, name2: string, january: seq<Record>, february: seq<Record>,
                            jan1: int, jan10: int)
    requires ExtractKeyword(name1) == Some("sunglasses") && Route(name1) == Some(Blog)
    requires ExtractKeyword(name2) == Some("sunglasses") && Route(name2) == Some(Blog)
    requires |january| == 10 && |february| == 5
    requires AllWithin(january, jan1, jan10) && AllAfter(february, jan10)
    ensures var files := [SourceFile(name1, Some(january)), SourceFile(name2, Some(february))];
            && |Table(files, Blog)| == 15
            && (forall row :: row in Table(files, Blog) ==> row.keyword == "sunglasses")
            && Keep(Table(files, Blog), ByKeywordAndDate(["sunglasses"], jan1, jan10))
               == Tag(january, "sunglasses")
  {
    var files := [SourceFile(name1, Some(january)), SourceFile(name2, Some(february))];
    var t1 := Tag(january, "sunglasses");
    var t2 := Tag(february, "sunglasses");
    TwoFileTable(files, t1, t2);
    var crit := ByKeywordAndDate(["sunglasses"], jan1, jan10);
    KeepAppend(t1, t2, crit);
    KeepAll(t1, crit);
    KeepNone(t2, crit);
    forall row: Row | row in t1 + t2 ensures row.keyword == "sunglasses" {
    }
  }

  /** Two readable blog files with the same keyword: the table is the first file's
      tagged rows followed by the second's. */
  lemma TwoFileTable(files: seq<SourceFile>, t1: seq<Row>, t2: seq<Row>)
    requires |files| == 2
    requires LoadFile(files[0]) == Loaded(Blog, t1) && LoadFile(files[1]) == Loaded(Blog, t2)
    ensures Table(files, Blog) == t1 + t2
  {
    assert files[1..][1..] == [];
    assert Frames(files, Blog) == [t1, t2];
    assert Flatten([t1, t2]) == t1 + Flatten([t2]);
    assert Flatten([t2]) == t2 + Flatten([]);
  }

  /** `blog_sunglasses_<stamp>` is a blog file with keyword `sunglasses`. */
  lemma SunglassesName(stamp: string)
    requires stamp == "20240101.csv" || stamp == "20240201.csv"
    ensures KeywordCategory("blog_sunglasses_" + stamp) == Some(Blog)
    ensures ExtractKeyword("blog_sunglasses_" + stamp) == Some("sunglasses")
    ensures Route("blog_sunglasses_" + stamp) == Some(Blog)
  {
    assert "blog_sunglasses_" + stamp == Marker(Blog) + "sunglasses" + "_" + stamp;
    MissingCharNotContained("sunglasses" + "_" + stamp, "blog_", 0);
    CanonicalName(Blog, "sunglasses", stamp);
  }

  /** A data directory holding one readable trend file with rows and nothing else. The
      date widget then holds a pair, and the stage as written raises on the column-less
      blog table; the corrected stage keeps blog column-less and filters the trend rows. */
  lemma TrendOnlyDirectoryRaises(f: SourceFile, t: Tables, selected: seq<string>, picked: seq<int>)
    requires LandsIn(f, Trend) && |f.contents.value| > 0
    requires forall c :: t.Get(c) == Concat([f], c)
    requires |picked| == 2
    ensures FilterStage(t, selected, DateRange(RowsOf(t.trend), picked)) == Raised(Blog)
    ensures SafeFilterStage(t, selected, DateRange(RowsOf(t.trend), picked)).blog == None
    ensures SafeFilterStage(t, selected, DateRange(RowsOf(t.trend), picked)).trend.Some?
  {
    assert [f][1..] == [];
    ConcatNoneIff([f], Blog);
    assert RoutedRowCount([f], Trend) == |f.contents.value|;
    assert t.Get(Trend).Some? && |RowsOf(t.trend)| > 0;
    assert t.Get(Blog) == None;
  }

  /** The example trend file alone in the directory makes the stage raise. */
  lemma TrendExampleDirectory(records: seq<Record>, t: Tables, selected: seq<string>, picked: seq<int>)
    requires |records| > 0
    requires forall c :: t.Get(c) == Concat([SourceFile("shopping_trend_foo_20240101.csv", Some(records))], c)
    requires |picked| == 2
    ensures FilterStage(t, selected, DateRange(RowsOf(t.trend), picked)) == Raised(Blog)
  {
    TrendExample();
    TrendOnlyDirectoryRaises(SourceFile("shopping_trend_foo_20240101.csv", Some(records)), t, selected, picked);
  }
}
