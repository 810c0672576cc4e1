/** The loading pass (app.py:15-58): every data file whose name the keyword chain accepts
    is read, each of its rows is tagged with the file's target keyword, and the file's
    rows are appended to the list of the category the bucket chain picks; each list is
    finally concatenated into one table. */
module Loader {
  import opened Wrappers
  import opened Seqs
  import opened FileNames

  /** One CSV row as read: the category's date column already parsed to a day number
      (None when the cell could not be parsed), and the remaining cells. */
  datatype Record = Record(date: Option<int>, cells: seq<string>)

  /** A table row: a record with the `target_keyword` column added. */
  datatype Row = Row(keyword: string, date: Option<int>, cells: seq<string>)

  /** A file in the data directory: its base name and its parsed rows, or None when
      reading it (or converting its date column) raised an exception. */
  datatype SourceFile = SourceFile(name: string, contents: Option<seq<Record>>)

  /** What the loop body does with one file. */
  datatype Outcome =
    | Skipped                                     // the `continue`: no category marker in the name
    | Failed(name: string)                        // the error message naming the file
    | Loaded(bucket: Category, rows: seq<Row>)    // appended to `bucket`'s list

  /** The four category tables. A table is None when its category's list stayed empty
      and the loader returned `pd.DataFrame()`: a frame without any column, not even
      `target_keyword`. `Some([])` is a frame with its columns and no rows. */
  datatype Tables = Tables(blog: Option<seq<Row>>, shop: Option<seq<Row>>,
                           trend: Option<seq<Row>>, news: Option<seq<Row>>)
  {
    function Get(c: Category): Option<seq<Row>>
    {
      match c
      case Blog => blog
      case Shop => shop
      case Trend => trend
      case News => news
    }
  }

  /** The rows of a table; the column-less frame has none (`df.empty` holds for both). */
  function RowsOf(t: Option<seq<Row>>): seq<Row>
  {
    match t
    case None => []
    case Some(rows) => rows
  }

  /** `df['target_keyword'] = keyword`: the same keyword on every row, the rest untouched. */
  function Tag(records: seq<Record>, keyword: string): (rows: seq<Row>)
    ensures |rows| == |records|
    ensures forall i :: 0 <= i < |rows| ==>
              rows[i] == Row(keyword, records[i].date, records[i].cells)
  {
    if |records| == 0 then []
    else [Row(keyword, records[0].date, records[0].cells)] + Tag(records[1..], keyword)
  }

  /** The loop body of app.py:21-53 for one file. */
  function LoadFile(f: SourceFile): (o: Outcome)
    ensures o.Skipped? <==> KeywordCategory(f.name).None?
    ensures o.Failed? <==> KeywordCategory(f.name).Some? && f.contents.None?
    ensures o.Failed? ==> o.name == f.name
    ensures o.Loaded? <==> KeywordCategory(f.name).Some? && f.contents.Some?
    ensures o.Loaded? ==> Route(f.name) == Some(o.bucket)
                          && o.rows == Tag(f.contents.value, ExtractKeyword(f.name).value)
                          && |o.rows| == |f.contents.value|
                          && forall row :: row in o.rows ==> row.keyword == ExtractKeyword(f.name).value
  {
    match ExtractKeyword(f.name)
    case None => Skipped
    case Some(keyword) =>
      match f.contents
      case None => Failed(f.name)
      case Some(records) =>
        RouteCoversKeywordChain(f.name);
        match Route(f.name)
        case None => Skipped
        case Some(c) => Loaded(c, Tag(records, keyword))
  }

  /** What one file's outcome appends to category `c`'s list. */
  function FrameOf(o: Outcome, c: Category): seq<seq<Row>>
  {
    if o.Loaded? && o.bucket == c then [o.rows] else []
  }

  /** What one file's outcome appends to the error messages. */
  function ErrorOf(o: Outcome): seq<string>
  {
    if o.Failed? then [o.name] else []
  }

  /** The list `c`'s rows accumulate in (`blog_list` and its siblings), in file order. */
  function Frames(files: seq<SourceFile>, c: Category): (frames: seq<seq<Row>>)
    ensures |frames| <= |files|
  {
    if |files| == 0 then [] else FrameOf(LoadFile(files[0]), c) + Frames(files[1..], c)
  }

  /** The names reported as load errors, in file order. */
  function Errors(files: seq<SourceFile>): (names: seq<string>)
    ensures |names| <= |files|
  {
    if |files| == 0 then [] else ErrorOf(LoadFile(files[0])) + Errors(files[1..])
  }

  /** A readable file whose rows the loop appends to category `c`'s list. */
  predicate LandsIn(f: SourceFile, c: Category)
  {
    KeywordCategory(f.name).Some? && f.contents.Some? && Route(f.name) == Some(c)
  }

  /** The rows of category `c`: its frames concatenated, as many as the files landing
      in `c` have together. */
  function Table(files: seq<SourceFile>, c: Category): (r: seq<Row>)
    ensures |r| == RoutedRowCount(files, c)
  {
    FlattenLength(files, c);
    Flatten(Frames(files, c))
  }

  /** `pd.concat(frames, ignore_index=True) if frames else pd.DataFrame()`. */
  function ConcatOf(frames: seq<seq<Row>>): Option<seq<Row>>
  {
    if |frames| == 0 then None else Some(Flatten(frames))
  }

  /** The table the loader returns for category `c`: the column-less frame when `c`'s
      list stayed empty, and otherwise the concatenation of its files' rows (possibly
      none, when every such file has zero rows). */
  function Concat(files: seq<SourceFile>, c: Category): (r: Option<seq<Row>>)
    ensures r.None? <==> |Frames(files, c)| == 0
    ensures r.Some? ==> r.value == Table(files, c) && |r.value| == RoutedRowCount(files, c)
  {
    ConcatOf(Frames(files, c))
  }

  /** A category's table is the column-less frame exactly when no readable file lands
      in it: "no files" and "files with zero rows" give different tables. */
  lemma ConcatNoneIff(files: seq<SourceFile>, c: Category)
    ensures Concat(files, c).None? <==> forall f :: f in files ==> !LandsIn(f, c)
  {
    FramesEmptyIff(files, c);
  }

  /** The list of `c` stays empty exactly when no readable file lands in `c`. */
  lemma {:induction false} FramesEmptyIff(files: seq<SourceFile>, c: Category)
    ensures |Frames(files, c)| == 0 <==> forall f :: f in files ==> !LandsIn(f, c)
    decreases |files|
  {
    if |files| > 0 {
      var head := files[0];
      FramesEmptyIff(files[1..], c);
      FrameOfLands(head, c);
      assert Frames(files, c) == FrameOf(LoadFile(head), c) + Frames(files[1..], c);
      if forall f :: f in files ==> !LandsIn(f, c) {
        assert head in files;
        assert forall f :: f in files[1..] ==> f in files;
      } else {
        var g :| g in files && LandsIn(g, c);
        if g != head {
          assert g in files[1..];
        }
      }
    }
  }

  /** One file adds a frame to `c`'s list exactly when it lands in `c`. */
  lemma FrameOfLands(f: SourceFile, c: Category)
    ensures |FrameOf(LoadFile(f), c)| == 0 <==> !LandsIn(f, c)
  {
  }

  /** The frames of a concatenated file list are those of each part, in order. */
  lemma {:induction false} FramesAppend(a: seq<SourceFile>, b: seq<SourceFile>, c: Category)
    ensures Frames(a + b, c) == Frames(a, c) + Frames(b, c)
    decreases |a|
  {
    if |a| == 0 {
      assert a + b == b;
    } else {
      assert (a + b)[0] == a[0];
      assert (a + b)[1..] == a[1..] + b;
      FramesAppend(a[1..], b, c);
    }
  }

  /** The errors of a concatenated file list are those of each part, in order. */
  lemma {:induction false} ErrorsAppend(a: seq<SourceFile>, b: seq<SourceFile>)
    ensures Errors(a + b) == Errors(a) + Errors(b)
    decreases |a|
  {
    if |a| == 0 {
      assert a + b == b;
    } else {
      assert (a + b)[0] == a[0];
      assert (a + b)[1..] == a[1..] + b;
      ErrorsAppend(a[1..], b);
    }
  }

  /** Loading a concatenated file list yields each category's table of the first part
      followed by that of the second: files are processed independently and in order. */
  lemma TableAppend(a: seq<SourceFile>, b: seq<SourceFile>, c: Category)
    ensures Table(a + b, c) == Table(a, c) + Table(b, c)
  {
    FramesAppend(a, b, c);
    FlattenAppend(Frames(a, c), Frames(b, c));
  }

  /** Number of rows of the files that land in category `c`. */
  function RoutedRowCount(files: seq<SourceFile>, c: Category): nat
  {
    if |files| == 0 then 0
    else
      var f := files[0];
      (if LandsIn(f, c) then |f.contents.value| else 0)
      + RoutedRowCount(files[1..], c)
  }

  /** The concatenated frames hold as many rows as the files landing in `c` have. */
  lemma {:induction false} FlattenLength(files: seq<SourceFile>, c: Category)
    ensures |Flatten(Frames(files, c))| == RoutedRowCount(files, c)
    decreases |files|
  {
    if |files| > 0 {
      var o := LoadFile(files[0]);
      assert Frames(files, c) == FrameOf(o, c) + Frames(files[1..], c);
      FlattenAppend(FrameOf(o, c), Frames(files[1..], c));
      if o.Loaded? && o.bucket == c {
        assert Flatten(FrameOf(o, c)) == o.rows + Flatten([]);
      }
      FlattenLength(files[1..], c);
    }
  }

  /** No file routed to category `c` means the column-less frame, not an empty table
      with columns. */
  lemma NoFilesEmptyTable(files: seq<SourceFile>, c: Category)
    requires forall f :: f in files ==> Route(f.name) != Some(c)
    ensures Concat(files, c) == None
  {
    ConcatNoneIff(files, c);
  }

  /** Every row of a category's table carries the target keyword of a readable file
      whose name the bucket chain sends to that category. */
  lemma {:induction false} TableRowsComeFromFiles(files: seq<SourceFile>, c: Category, row: Row)
    requires row in Table(files, c)
    ensures exists f :: f in files && f.contents.Some? && Route(f.name) == Some(c)
                        && ExtractKeyword(f.name) == Some(row.keyword)
    decreases |files|
  {
    var o := LoadFile(files[0]);
    var head := FrameOf(o, c);
    assert Frames(files, c) == head + Frames(files[1..], c);
    FlattenAppend(head, Frames(files[1..], c));
    if row in Flatten(head) {
      assert Flatten(head) == o.rows by {
        assert head[1..] == [];
      }
      assert files[0] in files;
    } else {
      TableRowsComeFromFiles(files[1..], c, row);
      var f :| f in files[1..] && f.contents.Some? && Route(f.name) == Some(c)
               && ExtractKeyword(f.name) == Some(row.keyword);
      assert f in files;
    }
  }

  /** Per-file step of the loop: the file's frame and error go after those of the
      files before it. */
  lemma Snoc(files: seq<SourceFile>, f: SourceFile)
    ensures forall c :: Frames(files + [f], c) == Frames(files, c) + FrameOf(LoadFile(f), c)
    ensures Errors(files + [f]) == Errors(files) + ErrorOf(LoadFile(f))
  {
    forall c ensures Frames(files + [f], c) == Frames(files, c) + FrameOf(LoadFile(f), c) {
      FramesAppend(files, [f], c);
      assert Frames([f], c) == FrameOf(LoadFile(f), c) + Frames([], c);
    }
    ErrorsAppend(files, [f]);
    assert Errors([f]) == ErrorOf(LoadFile(f)) + Errors([]);
  }

  /** One iteration of the loading loop keeps the lists equal to the frames of the
      files processed so far. */
  lemma LoopStep(files: seq<SourceFile>, i: nat, lists: Tables4, errors: seq<string>)
    requires i < |files|
    requires forall c :: lists.Get(c) == Frames(files[..i], c)
    requires errors == Errors(files[..i])
    ensures forall c :: lists.Add(LoadFile(files[i])).Get(c) == Frames(files[..i + 1], c)
    ensures errors + ErrorOf(LoadFile(files[i])) == Errors(files[..i + 1])
  {
    var done := files[..i];
    var f := files[i];
    var o := LoadFile(f);
    assert files[..i + 1] == done + [f];
    Snoc(done, f);
    forall c ensures lists.Add(o).Get(c) == Frames(files[..i + 1], c) {
      assert lists.Add(o).Get(c) == Frames(done, c) + FrameOf(o, c);
    }
  }

  /** The loading pass as the source runs it: one loop over the files appending to four
      lists and collecting error names, then one concatenation per list. */
  method LoadAndPreprocess(files: seq<SourceFile>) returns (tables: Tables, errors: seq<string>)
    ensures forall c :: tables.Get(c) == Concat(files, c)
    ensures errors == Errors(files)
  {
    var lists := Tables4([], [], [], []);
    errors := [];
    var i := 0;
    while i < |files|
      invariant 0 <= i <= |files|
      invariant forall c :: lists.Get(c) == Frames(files[..i], c)
      invariant errors == Errors(files[..i])
    {
      var o := LoadFile(files[i]);
      LoopStep(files, i, lists, errors);
      errors := errors + ErrorOf(o);
      lists := lists.Add(o);
      i := i + 1;
    }
    assert files[..i] == files;
    tables := Tables(ConcatOf(lists.blog), ConcatOf(lists.shop), ConcatOf(lists.trend), ConcatOf(lists.news));
    forall c ensures tables.Get(c) == Concat(files, c) {
      assert tables.Get(c) == ConcatOf(lists.Get(c));
    }
  }

  /** The four per-category lists of row groups the loop appends to. */
  datatype Tables4 = Tables4(blog: seq<seq<Row>>, shop: seq<seq<Row>>, trend: seq<seq<Row>>, news: seq<seq<Row>>)
  {
    function Get(c: Category): seq<seq<Row>>
    {
      match c
      case Blog => blog
      case Shop => shop
      case Trend => trend
      case News => news
    }

    /** `list.append(df)` on the list of a loaded file's category; the other lists, and
        all of them for a skipped or failed file, are unchanged. */
    function Add(o: Outcome): (r: Tables4)
      ensures forall c :: r.Get(c) == Get(c) + FrameOf(o, c)
    {
      if !o.Loaded? then this
      else match o.bucket
        case Blog => this.(blog := blog + [o.rows])
        case Shop => this.(shop := shop + [o.rows])
        case Trend => this.(trend := trend + [o.rows])
        case News => this.(news := news + [o.rows])
    }
  }
}
