/** What a data file's name decides: whether the file is loaded at all, the target
    keyword its rows are tagged with, and the category table the rows go to.
    Two separate test chains make these decisions (app.py:26-35 and app.py:41-51). */
module FileNames {
  import opened Wrappers
  import opened Text

  /** The four data categories: search-trend series, blog posts, shopping listings, news. */
  datatype Category = Blog | Trend | Shop | News

  /** Both chains test the categories in this order (lower first). */
  function Rank(c: Category): nat
  {
    match c
    case Blog => 0
    case Trend => 1
    case Shop => 2
    case News => 3
  }

  /** The substring the keyword chain tests for and then deletes from the name. */
  function Marker(c: Category): string
  {
    match c
    case Blog => "blog_"
    case Trend => "shopping_trend_"
    case Shop => "shop_"
    case News => "news_"
  }

  /** The substring the bucket chain tests for: the trend test has no trailing underscore. */
  function RouteMarker(c: Category): string
  {
    match c
    case Trend => "shopping_trend"
    case _ => Marker(c)
  }

  /** No category tested before `c` matches `name` in the chain using `marker`. */
  predicate NoEarlierMatch(name: string, c: Category, marker: Category -> string)
  {
    forall d :: Rank(d) < Rank(c) ==> !Contains(name, marker(d))
  }

  /** The keyword chain: the branch a file name takes, or None for the `continue`. The
      branch taken is one whose marker is in the name while no marker tested before it
      is; the `continue` is taken only when no marker is in the name. */
  function KeywordCategory(name: string): (r: Option<Category>)
    ensures r.Some? ==> Contains(name, Marker(r.value)) && NoEarlierMatch(name, r.value, Marker)
    ensures r.None? ==> forall d :: !Contains(name, Marker(d))
  {
    if Contains(name, "blog_") then Some(Blog)
    else if Contains(name, "shopping_trend_") then Some(Trend)
    else if Contains(name, "shop_") then Some(Shop)
    else if Contains(name, "news_") then Some(News)
    else None
  }

  /** The bucket chain: the category list a loaded file's rows are appended to. The
      category picked is one whose bucket marker is in the name while no bucket marker
      tested before it is; no list is picked only when no bucket marker is in the name. */
  function Route(name: string): (r: Option<Category>)
    ensures r.Some? ==> Contains(name, RouteMarker(r.value)) && NoEarlierMatch(name, r.value, RouteMarker)
    ensures r.None? ==> forall d :: !Contains(name, RouteMarker(d))
  {
    if Contains(name, "blog_") then Some(Blog)
    else if Contains(name, "shopping_trend") then Some(Trend)
    else if Contains(name, "shop_") then Some(Shop)
    else if Contains(name, "news_") then Some(News)
    else None
  }

  /** The keyword chain takes the branch of the one category whose marker is in the name
      while no marker tested before it is. */
  lemma KeywordCategoryPrecedence(name: string, c: Category)
    ensures KeywordCategory(name) == Some(c) <==> Contains(name, Marker(c)) && NoEarlierMatch(name, c, Marker)
  {
    assert Marker(Blog) == "blog_" && Marker(Trend) == "shopping_trend_";
    assert Marker(Shop) == "shop_" && Marker(News) == "news_";
  }

  /** A name is skipped exactly when it contains none of the four markers. */
  lemma KeywordCategorySkips(name: string)
    ensures KeywordCategory(name).None? <==> forall d :: !Contains(name, Marker(d))
  {
    assert Marker(Blog) == "blog_" && Marker(Trend) == "shopping_trend_";
    assert Marker(Shop) == "shop_" && Marker(News) == "news_";
  }

  /** The bucket chain picks the one category whose bucket marker is in the name while no
      bucket marker tested before it is. */
  lemma RoutePrecedence(name: string, c: Category)
    ensures Route(name) == Some(c) <==> Contains(name, RouteMarker(c)) && NoEarlierMatch(name, c, RouteMarker)
  {
    assert RouteMarker(Blog) == "blog_" && RouteMarker(Trend) == "shopping_trend";
    assert RouteMarker(Shop) == "shop_" && RouteMarker(News) == "news_";
  }

  /** `text.replace(Marker(c), '')`: the name with every occurrence of the marker deleted. */
  function Stripped(name: string, c: Category): (r: string)
    ensures |r| <= |name|
  {
    RemoveAll(name, Marker(c))
  }

  /** The target keyword of app.py:26-33, or None when the file is skipped. */
  function ExtractKeyword(name: string): (r: Option<string>)
    ensures r.Some? <==> KeywordCategory(name).Some?
    ensures r.Some? ==> |r.value| <= |Stripped(name, KeywordCategory(name).value)|
  {
    match KeywordCategory(name)
    case None => None
    case Some(c) => Some(RSplitOnce(Stripped(name, c), '_')[0])
  }

  /** The keyword is the stripped name cut at its last underscore: the stripped name is
      the keyword, an underscore and an underscore-free tail; with no underscore left, it
      is the whole stripped name. */
  lemma KeywordRoundTrip(name: string, c: Category)
    requires KeywordCategory(name) == Some(c)
    ensures var rest := Stripped(name, c);
            var kw := ExtractKeyword(name).value;
            && ('_' !in rest ==> kw == rest)
            && ('_' in rest ==> rest == kw + "_" + RSplitOnce(rest, '_')[1] && '_' !in RSplitOnce(rest, '_')[1])
            && kw == rest[..|kw|]
  {
    var rest := Stripped(name, c);
    var pieces := RSplitOnce(rest, '_');
    if |pieces| == 2 {
      assert rest[..|pieces[0]|] == (pieces[0] + ['_'] + pieces[1])[..|pieces[0]|];
    }
  }

  /** The keyword of a name the chain sends to `c`, read off the name with the marker
      deleted. */
  lemma KeywordOf(name: string, c: Category, rest: string)
    requires Contains(name, Marker(c)) && NoEarlierMatch(name, c, Marker)
    requires RemoveAll(name, Marker(c)) == rest
    ensures KeywordCategory(name) == Some(c)
    ensures ExtractKeyword(name) == Some(RSplitOnce(rest, '_')[0])
  {
    KeywordCategoryPrecedence(name, c);
  }

  /** A name of the conventional shape `<marker><keyword>_<stamp>` yields `keyword` and is
      routed to its own category, provided the stamp has no underscore, the marker does
      not recur after the front, and no earlier test of the bucket chain matches. */
  lemma {:induction false} CanonicalName(c: Category, kw: string, stamp: string)
    requires '_' !in stamp
    requires !Contains(kw + "_" + stamp, Marker(c))
    requires NoEarlierMatch(Marker(c) + kw + "_" + stamp, c, RouteMarker)
    ensures KeywordCategory(Marker(c) + kw + "_" + stamp) == Some(c)
    ensures ExtractKeyword(Marker(c) + kw + "_" + stamp) == Some(kw)
    ensures Route(Marker(c) + kw + "_" + stamp) == Some(c)
  {
    var rest := kw + "_" + stamp;
    var name := Marker(c) + rest;
    assert name == Marker(c) + kw + "_" + stamp;
    MarkerInFront(c, rest);
    RouteOrderCoversKeywordOrder(name, c);
    RemoveAllLeading(Marker(c), rest);
    RemoveAllAbsent(rest, Marker(c));
    KeywordOf(name, c, rest);
    RoutePrecedence(name, c);
    assert rest == kw + ['_'] + stamp;
    RSplitOfJoin(kw, '_', stamp);
  }

  /** A name that starts with a category's marker contains both of its markers. */
  lemma MarkerInFront(c: Category, rest: string)
    ensures Contains(Marker(c) + rest, Marker(c))
    ensures Contains(Marker(c) + rest, RouteMarker(c))
  {
    var name := Marker(c) + rest;
    assert OccursAt(name, Marker(c), 0);
    assert Marker(c) == RouteMarker(c) + Marker(c)[|RouteMarker(c)|..];
    ContainsPrefixOf(name, RouteMarker(c), Marker(c)[|RouteMarker(c)|..]);
  }

  /** When no earlier bucket marker matches, no earlier keyword marker does either. */
  lemma RouteOrderCoversKeywordOrder(name: string, c: Category)
    requires NoEarlierMatch(name, c, RouteMarker)
    ensures NoEarlierMatch(name, c, Marker)
  {
    forall d | Rank(d) < Rank(c) ensures !Contains(name, Marker(d)) {
      if d == Trend && Contains(name, Marker(Trend)) {
        TrendMarkers(name);
      }
    }
  }

  /** A name containing the keyword chain's trend marker contains the bucket chain's. */
  lemma TrendMarkers(name: string)
    requires Contains(name, "shopping_trend_")
    ensures Contains(name, "shopping_trend")
  {
    assert "shopping_trend_" == "shopping_trend" + "_";
    ContainsPrefixOf(name, "shopping_trend", "_");
  }

  /** Every name the keyword chain accepts is also routed somewhere, so a file that
      was read is never silently dropped. */
  lemma RouteCoversKeywordChain(name: string)
    requires KeywordCategory(name).Some?
    ensures Route(name).Some?
  {
    if Contains(name, "shopping_trend_") {
      TrendMarkers(name);
    }
  }

  /** The two chains disagree exactly on names that took the shop or news branch of the
      keyword chain yet contain `shopping_trend`; such files land in the trend table. */
  lemma RouteDisagreement(name: string)
    requires KeywordCategory(name).Some?
    ensures Route(name) != KeywordCategory(name) <==>
              (KeywordCategory(name) == Some(Shop) || KeywordCategory(name) == Some(News))
              && Contains(name, "shopping_trend")
    ensures Route(name) != KeywordCategory(name) ==> Route(name) == Some(Trend)
  {
    if Contains(name, "shopping_trend_") {
      TrendMarkers(name);
    }
  }
}
