# Dashboard loader and filter stage, modelled in Dafny

The dashboard (`app.py`) reads CSV exports of four kinds — search-trend series, blog
posts, shopping listings and news articles — from one directory. For each file it:

- decides from the file name whether to load it at all and which target keyword its
  rows belong to (the *keyword chain*);
- tags every row with that keyword;
- appends the rows to the list of the category that a second test on the name picks
  (the *bucket chain*).

Each category's list is then concatenated into one table. A list that stayed empty
gives `pd.DataFrame()` instead, a frame without any column. A sidebar offers the sorted
distinct trend keywords, three of them selected by default, and a date range. A
filter stage narrows each table:

- trend and blog tables: to the selected keywords and the inclusive date range;
- news and shop tables: to the selected keywords only;
- every table is left whole unless the date range has exactly two ends.

This project models that decision logic as pure functions over strings and sequences
of records and proves what it guarantees.

Modules:

- `Wrappers` (`wrappers.dfy`): `Option`.
- `Seqs` (`seqs.dfy`): subsequences (order preservation) and flattening (concatenation).
- `Text` (`text.dfy`): Python's `p in s`, `s.replace(p, '')` and `s.rsplit(sep, 1)`.
- `Order` (`order.dfy`): Python's string order and `sorted(set(...))`.
- `FileNames` (`filenames.dfy`): the keyword chain, keyword extraction and the bucket chain.
- `Loader` (`loader.dfy`): per-file outcome, per-category tables and the loading loop.
- `Filter` (`filter.dfy`): the row filter stage, as written and corrected.
- `Sidebar` (`sidebar.dfy`): keyword options, the default selection and the date widget's value.
- `Scenarios` (`scenarios.dfy`): example file names of the naming convention, a two-file
  data set, and the corner cases.

A date is a day number wrapped in `Option`. `None` stands for a cell the date parser
coerced to "not a time"; it fails both comparisons of the date filter. A file's contents
are `None` when reading it, or converting its date column, raised an exception. A
category table is `None` for the column-less `pd.DataFrame()` and `Some(rows)` for a
concatenation, which may have no rows.

The model follows what the code does, including where that departs from what the
naming convention suggests:

- The comment at app.py:24 says the date suffix is dropped with `rsplit`. Before that,
  the code deletes *every* occurrence of the marker, wherever it stands. It then cuts
  at the last underscore, whatever follows it. `blog_myblog_20240101.csv` yields
  `my20240101.csv`.
- The two chains test the same markers in the same order, except that the bucket chain
  tests `shopping_trend` without the underscore. So `shop_shopping_trend.csv` gets
  keyword `shopping` from the shop branch but lands in the trend table
  (`Scenarios.ChainsDisagreeExample`). `FileNames.RouteDisagreement` characterises all
  such names.
- When the trend table is empty the code sets the date range to `[]`. Then no table is
  filtered, not even blog, news or shop (`Sidebar.NoTrendNoFilter`).
- When the trend table has rows but blog, news or shop had no readable file, the filter
  stage indexes a column-less frame and raises (see "## Findings"). `Filter.FilterStage`
  models this as written; `Filter.SafeFilterStage` is the corrected stage.

## Model

| member | source | states |
|---|---|---|
| Text.ContainsStep | app.py:26 | `p in s` holds exactly when `s` starts with `p` or `p` is in `s` without its first character |
| Text.MissingCharNotContained | app.py:26 | if one character of `p` never appears in `s`, then `p in s` is false |
| Text.RemoveAll | app.py:27 | `s.replace(p, '')` never lengthens the text |
| Text.RemoveAllIdentityIff | app.py:27 | `s.replace(p, '')` returns `s` unchanged exactly when `p` does not occur in `s` |
| Text.RemoveAllLength | app.py:27 | replacing deletes exactly `len(p)` characters per non-overlapping occurrence that `s.count(p)` counts |
| Text.RemoveAllSubseq | app.py:27 | replacing only deletes: what remains keeps its order in the original |
| Text.RemoveAllTwoOccurrences | app.py:27 | all occurrences are deleted, including one in the middle of the name, not just the leading one |
| Text.RSplitOnce | app.py:27 | `rsplit(sep, 1)` gives one piece (the whole text) when `sep` is absent; otherwise the text before the last `sep` and a `sep`-free tail that join back to the text |
| Text.RSplitJoin | app.py:27 | round trip: joining the pieces of `rsplit(sep, 1)` with `sep` gives back the text |
| Text.RSplitOfJoin | app.py:27 | inverse direction: `h + sep + t` with no `sep` in `t` splits back into exactly `h` and `t` |
| Order.SortedUnique | app.py:65 | `sorted(unique(...))` is strictly increasing and holds exactly the values of its input |
| Order.StrictlySortedUnique | app.py:65 | two strictly sorted lists with the same values are equal, so the sorted distinct list is determined by its values |
| FileNames.KeywordCategory | app.py:26-35 | the branch taken has its marker in the name and no marker tested before it; the `continue` is taken only when no marker is in the name |
| FileNames.KeywordCategoryPrecedence | app.py:26-33 | the keyword chain takes category `c`'s branch iff the name contains `c`'s marker and no marker tested earlier (`blog_` before `shopping_trend_` before `shop_` before `news_`) |
| FileNames.KeywordCategorySkips | app.py:34-35 | a file is skipped iff its name contains none of the four markers |
| FileNames.Route | app.py:41-51 | the list picked has its bucket marker (`shopping_trend` for trend) in the name and no earlier bucket marker; no list is picked only when no bucket marker is in the name |
| FileNames.RoutePrecedence | app.py:41-51 | the bucket chain picks `c` iff the name contains `c`'s bucket marker and no earlier bucket marker |
| FileNames.ExtractKeyword | app.py:25-33 | a keyword exists iff the keyword chain accepts the name, and it is no longer than the name with the marker deleted |
| FileNames.KeywordRoundTrip | app.py:27-33 | the stripped name is the keyword followed by `_` and an underscore-free tail; with no underscore it is the keyword itself; the keyword is always a prefix of it |
| FileNames.CanonicalName | app.py:26-51 | a name `<marker><kw>_<stamp>` whose stamp has no underscore, with no second marker and no earlier bucket marker, yields keyword `kw` and goes to its own category |
| FileNames.RouteOrderCoversKeywordOrder | app.py:28-44 | when no earlier bucket marker is in a name, no earlier keyword marker is either |
| FileNames.RouteCoversKeywordChain | app.py:26-51 | every name the keyword chain accepts is routed to some table, so no read file is silently dropped |
| FileNames.RouteDisagreement | app.py:28-47 | the chains disagree exactly on names taking the shop or news keyword branch that contain `shopping_trend`, and those go to the trend table |
| Loader.Tag | app.py:39 | every row carries the given keyword and keeps its date and other cells, and the row count is unchanged |
| Loader.LoadFile | app.py:21-53 | a file is skipped iff no marker matches; it fails (and is reported by name) iff it matches but cannot be read; otherwise its records, each tagged with its keyword and nothing else changed, go to the bucket chain's category |
| Loader.Table | app.py:55-58 | a category's concatenated rows number as many as the readable files landing in it have together |
| Loader.Concat | app.py:55-58 | a category's table is the column-less frame exactly when its list stayed empty; otherwise it is the concatenation, with the summed row count, even when that is zero |
| Loader.ConcatNoneIff | app.py:55-58 | the table is the column-less frame exactly when no readable file lands in the category, so "no files" and "files with zero rows" differ |
| Loader.TableAppend | app.py:55-58 | loading two file lists one after the other gives each category the first list's rows followed by the second's |
| Loader.NoFilesEmptyTable | app.py:55-58 | a category no file is routed to gets the column-less frame, not an empty table with columns |
| Loader.TableRowsComeFromFiles | app.py:38-51 | every row of a category's table carries the keyword of a readable file routed to that category |
| Loader.LoadAndPreprocess | app.py:15-58 | the loop appends to four lists and collects error names; each category's result is its concatenation, or the column-less frame when its list stayed empty, and the errors are the failing files in order |
| Filter.Matches | app.py:79-86 | no row passes a mask without a selected keyword, and a row with a missing date never passes a date mask |
| Filter.Keep | app.py:79-86 | a filtered table is no longer than the table, and every kept row satisfies the mask |
| Filter.KeepMembers | app.py:79-86 | a row is kept iff it is in the table and satisfies the mask |
| Filter.KeepSubseq | app.py:79-86 | kept rows keep their original relative order |
| Filter.KeepIdempotent | app.py:79-86 | filtering twice equals filtering once |
| Filter.KeepAppend | app.py:79-86 | the mask is row-wise: filtering a concatenation is concatenating the filtered parts |
| Filter.FilterStage | app.py:77-88 | without a two-entry range all four tables pass unchanged; with one, the stage raises iff some table is column-less (on trend first if trend is), and otherwise gives the corrected stage's tables |
| Filter.SafeFilterStage | app.py:77-88 | without a two-entry range nothing changes; a table is column-less afterwards iff it was before; with a range, trend and blog rows kept have a selected keyword and a date in `[start, end]`, news and shop rows kept have a selected keyword |
| Filter.SafeFilterStageKeeps | app.py:79-86 | with a range, every trend or blog row with a selected keyword and a date in `[start, end]` (ends included) is kept, and so is every news or shop row with a selected keyword, whatever its date |
| Filter.SafeFilterStageIdempotent | app.py:77-88 | re-applying the stage with the same selections changes nothing |
| Filter.SafeFilterStageOrder | app.py:77-88 | every filtered table is a subsequence of its input table |
| Filter.MissingTableRaises | app.py:77-86 | with a two-entry range, one column-less table makes the stage as written raise, while the corrected stage keeps that table column-less |
| Sidebar.AllKeywords | app.py:65 | the keyword options are strictly sorted and are exactly the keywords present in the trend table |
| Sidebar.DefaultSelection | app.py:67 | the default has `min(3, n)` keywords, is a prefix of the options, and is a subset of them |
| Sidebar.DefaultSelectionSmallest | app.py:65-67 | over sorted options, each default keyword sorts before every keyword left out |
| Sidebar.NoTrendNoFilter | app.py:69-88 | with an empty trend table no table is filtered, whatever keywords are selected |
| Sidebar.TrendWithoutCategoryRaises | app.py:69-86 | with trend rows and a two-entry pick, the stage as written raises iff the blog, news or shop table is column-less |
| Scenarios.TrendExample | app.py:28-46 | `shopping_trend_foo_20240101.csv` is a trend file with keyword `foo` and goes to the trend table |
| Scenarios.RepeatedMarkerExample | app.py:26-27 | `blog_myblog_20240101.csv` is a blog file with keyword `my20240101.csv` |
| Scenarios.MarkerSurvivesRemoval | app.py:27 | deleting `blog_` from `blblog_og_` leaves `blog_`: the stripped name can still contain the marker |
| Scenarios.ChainsDisagreeExample | app.py:30-46 | `shop_shopping_trend.csv` takes the shop keyword branch (keyword `shopping`) but is routed to the trend table |
| Scenarios.BlogTwoFilesExample | app.py:39-84 | two same-keyword blog files with 10 and 5 rows give a 15-row table tagged with that keyword; filtering to the first file's date range keeps exactly its rows |
| Scenarios.SunglassesName | app.py:26-43 | `blog_sunglasses_20240101.csv` and `blog_sunglasses_20240201.csv` are blog files with keyword `sunglasses` |
| Scenarios.TrendOnlyDirectoryRaises | app.py:15-86 | a directory with one readable trend file with rows and nothing else makes the stage as written raise on the blog table; the corrected stage keeps blog column-less and still filters trend |
| Scenarios.TrendExampleDirectory | app.py:15-86 | `shopping_trend_foo_20240101.csv` with rows, alone in the directory, makes the stage as written raise on the blog table |

## Findings

| source | as written | input that shows it | evidently intended | confidence | as-written member | corrected member |
|---|---|---|---|---|---|---|
| app.py:55-86 | a category without readable files becomes `pd.DataFrame()` with no columns, and the two-entry branch indexes `target_keyword` of every table, so it raises KeyError | a directory holding only `shopping_trend_foo_20240101.csv` with one row; the date widget's default is a pair, and `blog_df['target_keyword']` raises | a category without data reaches its tab, which shows the "no data" notice (app.py:139-140, 164-165, 186-187) | high; not executed | Filter.FilterStage, Scenarios.TrendOnlyDirectoryRaises | Filter.SafeFilterStage |

## Left out

- Streamlit page setup, sidebar widgets, tabs, messages and chart rendering (app.py:11, 63-75, 90-190): presentation only. The widgets' values (selected keywords, picked dates) are inputs of the model.
- `st.cache_data` memoisation (app.py:14): it does not change what is computed.
- Directory listing with `glob` (app.py:17): file I/O. The file list is an input sequence whose order is unspecified by the source.
- `pd.read_csv` and `pd.to_datetime` (app.py:38, 42, 45, 50): library parsing. Rows arrive already parsed, as a date (`Option` of a day number) plus opaque cells. Any exception they raise, including a missing column, is the contents being `None`.
- `.dt.date` truncation of a timestamp to its day (app.py:80-84): dates are day numbers from the start.
- The date widget's bounds (app.py:70-72): the widget limits the pick to the trend table's dates; the model takes any pick.
- TF-IDF keyword ranking (app.py:126-134, 174-182): floating-point scores computed by a foreign library.
- Group-by mean, std, min and max summaries, top-blogger counts, histograms and box plots (app.py:106, 118, 149-163): floating-point statistics and charting.
- Top-10 brand restriction (app.py:154-155): its tie-breaking depends on library internals not visible here.
- The text of the error message (app.py:53): only the failing file's name is kept, because the exception text comes from the CSV library.
- What happens after the stage raises (the script stops with a traceback): the model ends in `Raised` with the category whose table was indexed.
- FileNames.ExtractKeyword: its own contract only bounds the keyword's length. The full characterisation is in `FileNames.KeywordRoundTrip`.
- Text.RemoveAll: its own contract only bounds the length. The exact count of deleted characters is in `Text.RemoveAllLength`, the unchanged case in `Text.RemoveAllIdentityIff`, and order preservation in `Text.RemoveAllSubseq`.
- Filter.Matches: its own contract states two consequences of the mask. The mask itself is characterised through `Filter.KeepMembers` and `Filter.SafeFilterStageKeeps`.
