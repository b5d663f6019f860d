/**
 * CanConvertToFeed: the fish-food sheet's row loop. It follows convertTo's
 * single-value title rule over five fixed columns, but rejects object and
 * float articles with its own exception.
 */
module CanConvertToFeed {
  import opened Outcomes
  import opened PhpText
  import opened PhpInt
  import opened Cells
  import opened Buckets
  import opened ImageIndex
  import opened RowLoop

  /** The exception message for an object or float article. */
  const UnsupportedArticleMessage: string :=
    "Проверьте новые артикли в \"Корма для рыб\", один из них имеет неподдерживаемый тип.\n" +
    "Убедитесь что артикль является строкой."

  /** The image category the host's convert uses for this sheet. */
  const FeedCategory: string := "feed"

  /**
   * The article of a row: null becomes '', an int its decimal string, a string
   * is trimmed; an object or float raises the feed exception, and a bool
   * reaches trim(), which is a TypeError.
   */
  function FeedArticle(c: Cell): (r: Result<string, Failure>)
    ensures c.Rich? || c.Float? <==> r == Err(UnsupportedArticle(UnsupportedArticleMessage))
    ensures c.Bool? <==> r == Err(TypeMismatch)
    ensures c.Null? ==> r == Ok("")
    ensures c.Int? ==> r == Ok(DecimalString(c.number))
    ensures c.Str? ==> r == Ok(Trim(c.text))
  {
    match c
    case Rich(_) => Err(UnsupportedArticle(UnsupportedArticleMessage))
    case Float(_) => Err(UnsupportedArticle(UnsupportedArticleMessage))
    case Null => Ok(Trim(""))
    case Int(n) => Ok(DecimalString(n))
    case Str(s) => Ok(Trim(s))
    case Bool(_) => Err(TypeMismatch)
  }

  /** The $columns of row i: the article text, then columns 1 to 4 as they are. */
  function FeedColumns(article: string, grid: Grid, i: int): Record {
    [ Field("article", Str(article)),
      Field("name", CellAt(grid, 1, i)),
      Field("description", CellAt(grid, 2, i)),
      Field("weight", CellAt(grid, 3, i)),
      Field("price", CellAt(grid, 4, i)) ]
  }

  /** What convertToFeed does with row i, with the image looked up in the feed category. */
  function FeedRow(grid: Grid, images: Images, i: int): Row {
    var article :- FeedArticle(CellAt(grid, 0, i));
    SingleValueTitleRule(FeedColumns(article, grid, i), images, FeedCategory)
  }

  /** FeedRow over the sheet, as a function of the row number. */
  function FeedRowOf(grid: Grid, images: Images): int -> Row {
    i => FeedRow(grid, images, i)
  }

  /** The rows convertToFeed visits: 1 to count($feed[0]) - 1. */
  function FeedRows(grid: Grid, images: Images): (rows: seq<Row>)
    requires |grid| > 0
    ensures |rows| == if |grid[0]| == 0 then 0 else |grid[0]| - 1
  {
    RowsFrom(FeedRowOf(grid, images), 1, if |grid[0]| == 0 then 0 else |grid[0]| - 1)
  }

  /** Entry k of the rows is what convertToFeed does with sheet row k + 1. */
  lemma {:induction false} FeedRowsAt(grid: Grid, images: Images, k: nat)
    requires |grid| > 0 && k < |FeedRows(grid, images)|
    ensures FeedRows(grid, images)[k] == FeedRow(grid, images, k + 1)
  {
    RowsFromAt(FeedRowOf(grid, images), 1, |FeedRows(grid, images)|, k);
  }

  /** The bucket convertToFeed returns, or the exception it raises. */
  function ConvertToFeedSpec(grid: Grid, images: Images): Result<Bucket, Failure> {
    if |grid| == 0 then Err(TypeMismatch)
    else
      var st :- RunRows(FeedRows(grid, images), Start);
      Ok(st.bucket)
  }

  /** convertToFeed($feed), with the lookup given its category. */
  method ConvertToFeed(grid: Grid, images: Images) returns (r: Result<Bucket, Failure>)
    ensures r == ConvertToFeedSpec(grid, images)
  {
    if |grid| == 0 {
      return Err(TypeMismatch);
    }
    ghost var rows := FeedRows(grid, images);
    var result: Bucket := Empty;
    var title: Scalar := Str("");
    var iMax := |grid[0]|;
    var i := 1;
    while i < iMax
      invariant 1 <= i && i - 1 <= |rows|
      invariant i < iMax ==> i - 1 < |rows|
      invariant RunRows(rows[..i - 1], Start) == Ok(State(title, result))
    {
      var next := FeedStep(grid, images, i, title, result, rows);
      if next.Err? {
        return Err(next.error);
      }
      title, result := next.value.title, next.value.bucket;
      i := i + 1;
    }
    assert rows[..i - 1] == rows;
    return Ok(result);
  }

  /** The loop body over row i, read against the run of the rows before it. */
  method FeedStep(grid: Grid, images: Images, i: int, title: Scalar, result: Bucket, ghost rows: seq<Row>)
    returns (next: Result<State, Failure>)
    requires |grid| > 0 && rows == FeedRows(grid, images)
    requires 1 <= i && i - 1 < |rows|
    requires RunRows(rows[..i - 1], Start) == Ok(State(title, result))
    ensures RunRows(rows[..i - 1 + 1], Start) == next
    ensures next.Err? ==> RunRows(rows, Start) == next
  {
    next := ConvertFeedRow(grid, images, i, title, result);
    FeedRowsAt(grid, images, i - 1);
    RunRowsStep(rows, i - 1, Start, State(title, result), next);
  }

  /** One pass of convertToFeed's loop body over row i. */
  method ConvertFeedRow(grid: Grid, images: Images, i: int, title: Scalar, result: Bucket)
    returns (next: Result<State, Failure>)
    ensures next == Step(Ok(State(title, result)), FeedRow(grid, images, i))
  {
    var article := CellAt(grid, 0, i);
    if article.Null? {
      article := Str("");
    }
    if article.Rich? || article.Float? {
      return Err(UnsupportedArticle(UnsupportedArticleMessage));
    }
    var articleText: string;
    if article.Int? {
      articleText := DecimalString(article.number);
    } else if article.Str? {
      articleText := Trim(article.text);
    } else {
      return Err(TypeMismatch);
    }
    assert FeedArticle(CellAt(grid, 0, i)) == Ok(articleText);
    var columns := [
      Field("article", Str(articleText)),
      Field("name", CellAt(grid, 1, i)),
      Field("description", CellAt(grid, 2, i)),
      Field("weight", CellAt(grid, 3, i)),
      Field("price", CellAt(grid, 4, i))
    ];
    assert columns == FeedColumns(articleText, grid, i);
    next := ApplyTitleRule(columns, images, FeedCategory, title, result);
  }

  // ---------------------------------------------------------------------------
  // Properties of convertToFeed
  // ---------------------------------------------------------------------------

  /** An object or float article in any visited row makes the whole call raise, returning no bucket. */
  lemma {:induction false} ConvertToFeedRejectsArticle(grid: Grid, images: Images, i: int)
    requires |grid| > 0 && 1 <= i < |grid[0]|
    requires grid[0][i].Rich? || grid[0][i].Float?
    ensures ConvertToFeedSpec(grid, images).Err?
  {
    var rows := FeedRows(grid, images);
    FeedRowsAt(grid, images, i - 1);
    FeedRowRejects(grid, images, i);
    RunRowsFails(rows, Start);
  }

  /** A row whose article is rich text or a float raises the feed exception. */
  lemma {:induction false} FeedRowRejects(grid: Grid, images: Images, i: int)
    requires CellAt(grid, 0, i).Rich? || CellAt(grid, 0, i).Float?
    ensures FeedRow(grid, images, i) == Err(UnsupportedArticle(UnsupportedArticleMessage))
  {
  }

  /** The call raises exactly when some visited row does. */
  lemma {:induction false} ConvertToFeedFails(grid: Grid, images: Images)
    requires |grid| > 0
    ensures ConvertToFeedSpec(grid, images).Err? <==>
      exists i :: 1 <= i < |grid[0]| && FeedRow(grid, images, i).Err?
  {
    var row := FeedRowOf(grid, images);
    var n := |FeedRows(grid, images)|;
    RowsFromFails(row, 1, n, Start);
    if exists i :: 1 <= i < |grid[0]| && FeedRow(grid, images, i).Err? {
      var i :| 1 <= i < |grid[0]| && FeedRow(grid, images, i).Err?;
      assert 1 <= i < 1 + n && row(i).Err?;
    }
    if exists i :: 1 <= i < 1 + n && row(i).Err? {
      var i :| 1 <= i < 1 + n && row(i).Err?;
      assert FeedRow(grid, images, i).Err?;
    }
  }

  /** A blank row is skipped, and a row with one meaningful value sets the title unless it is an object. */
  lemma {:induction false} FeedTitleRow(grid: Grid, images: Images, i: int, st: State)
    requires FeedArticle(CellAt(grid, 0, i)).Ok?
    requires MeaningfulCount(FeedColumns(FeedArticle(CellAt(grid, 0, i)).value, grid, i)) <= 1
    ensures var cols := FeedColumns(FeedArticle(CellAt(grid, 0, i)).value, grid, i);
      var next := Step(Ok(st), FeedRow(grid, images, i));
      && (MeaningfulCount(cols) == 0 ==> next == Ok(st))
      && (MeaningfulCount(cols) == 1 ==>
            var v := NotNulls(cols)[0].value;
            Meaningful(v) && v in FieldValues(cols) && next == if v.Rich? then Ok(st) else Ok(State(v, st.bucket)))
  {
    var cols := FeedColumns(FeedArticle(CellAt(grid, 0, i)).value, grid, i);
    assert FeedRow(grid, images, i) == SingleValueTitleRule(cols, images, FeedCategory);
    TitleRuleStep(cols, images, FeedCategory, st);
  }

  lemma {:induction false} FeedColumnsLackImage(article: string, grid: Grid, i: int)
    ensures "image" !in FieldNames(FeedColumns(article, grid, i))
  {
    var cols := FeedColumns(article, grid, i);
    forall k | 0 <= k < |cols| ensures FieldNames(cols)[k] != "image" {
      assert FieldNames(cols)[k] == cols[k].name;
    }
  }

  /** The record convertToFeed emits: the five columns and the image of the article. */
  function FeedRecord(article: string, grid: Grid, images: Images, i: int): Record {
    FeedColumns(article, grid, i) + [Field("image", Str(GetImageFrom(images, Some(article), FeedCategory)))]
  }

  /**
   * A row with two or more meaningful values appends exactly one FeedRecord
   * under the current title's key; the title and the other keys stay.
   */
  lemma {:induction false} FeedRecordRow(grid: Grid, images: Images, i: int, st: State, other: Key)
    requires FeedArticle(CellAt(grid, 0, i)).Ok?
    requires MeaningfulCount(FeedColumns(FeedArticle(CellAt(grid, 0, i)).value, grid, i)) >= 2
    ensures var rec := FeedRecord(FeedArticle(CellAt(grid, 0, i)).value, grid, images, i);
      var next := Step(Ok(st), FeedRow(grid, images, i));
      && next.Ok? && next.value.title == st.title
      && RecordsUnder(next.value.bucket, ArrayKey(st.title)) == RecordsUnder(st.bucket, ArrayKey(st.title)) + [rec]
      && (other != ArrayKey(st.title) ==> RecordsUnder(next.value.bucket, other) == RecordsUnder(st.bucket, other))
  {
    var article := FeedArticle(CellAt(grid, 0, i)).value;
    var cols := FeedColumns(article, grid, i);
    var image := Field("image", Str(GetImageFrom(images, Some(article), FeedCategory)));
    SingleValueTitleRuleCases(cols, images, FeedCategory);
    assert ArticleOf(cols) == article;
    FeedColumnsLackImage(article, grid, i);
    PutFieldAppends(cols, "image", image.value);
    ApplyEffect(st, Emit(FeedRecord(article, grid, images, i)), other);
  }

  /** Every feed record has the six keys in order, the article text, and the raw columns 1 to 4. */
  lemma {:induction false} FeedRecordLayout(article: string, grid: Grid, images: Images, i: int)
    ensures var rec := FeedRecord(article, grid, images, i);
      && FieldNames(rec) == ["article", "name", "description", "weight", "price", "image"]
      && rec[0].value == Str(article)
      && (forall j :: 1 <= j <= 4 ==> rec[j].value == CellAt(grid, j, i))
      && rec[5].value == Str(GetImageFrom(images, Some(article), FeedCategory))
  {
    FieldNamesAre(FeedRecord(article, grid, images, i), ["article", "name", "description", "weight", "price", "image"]);
  }

  /** Over the whole sheet, each key's records are exactly those emitted under it, in row order. */
  lemma {:induction false} ConvertToFeedGroupsInRowOrder(grid: Grid, images: Images, k: Key)
    requires ConvertToFeedSpec(grid, images).Ok?
    ensures var rows := FeedRows(grid, images);
      var bucket := ConvertToFeedSpec(grid, images).value;
      && RecordsUnder(bucket, k) == RecordsFor(Emitted(rows, Str("")), k)
      && Valid(bucket)
      && Size(bucket) == |Emitted(rows, Str(""))|
  {
    RunFromStart(FeedRows(grid, images), k);
  }

  // ---------------------------------------------------------------------------
  // The loop as written: getImageFrom is called with one argument
  // ---------------------------------------------------------------------------

  /**
   * Row i as the trait is written: both hosts declare getImageFrom with two
   * parameters, so the one-argument call raises ArgumentCountError on every
   * row that would emit a record.
   */
  function FeedRowAsWritten(grid: Grid, images: Images, i: int): Row {
    var article :- FeedArticle(CellAt(grid, 0, i));
    var cols := FeedColumns(article, grid, i);
    if MeaningfulCount(cols) >= 2 then Err(ArgumentCount)
    else SingleValueTitleRule(cols, images, FeedCategory)
  }

  function FeedRowAsWrittenOf(grid: Grid, images: Images): int -> Row {
    i => FeedRowAsWritten(grid, images, i)
  }

  function FeedRowsAsWritten(grid: Grid, images: Images): (rows: seq<Row>)
    requires |grid| > 0
    ensures |rows| == if |grid[0]| == 0 then 0 else |grid[0]| - 1
  {
    RowsFrom(FeedRowAsWrittenOf(grid, images), 1, if |grid[0]| == 0 then 0 else |grid[0]| - 1)
  }

  lemma {:induction false} FeedRowsAsWrittenAt(grid: Grid, images: Images, k: nat)
    requires |grid| > 0 && k < |FeedRowsAsWritten(grid, images)|
    ensures FeedRowsAsWritten(grid, images)[k] == FeedRowAsWritten(grid, images, k + 1)
  {
    RowsFromAt(FeedRowAsWrittenOf(grid, images), 1, |FeedRowsAsWritten(grid, images)|, k);
  }

  function ConvertToFeedAsWritten(grid: Grid, images: Images): Result<Bucket, Failure> {
    if |grid| == 0 then Err(TypeMismatch)
    else
      var st :- RunRows(FeedRowsAsWritten(grid, images), Start);
      Ok(st.bucket)
  }

  /** The two readings agree on every row that emits nothing. */
  lemma {:induction false} AsWrittenAgreesOffRecords(grid: Grid, images: Images, i: int)
    requires !FeedRow(grid, images, i).Ok? || !FeedRow(grid, images, i).value.Emit?
    ensures FeedRowAsWritten(grid, images, i) == FeedRow(grid, images, i)
  {
    var a := FeedArticle(CellAt(grid, 0, i));
    if a.Ok? {
      var cols := FeedColumns(a.value, grid, i);
      SingleValueTitleRuleCases(cols, images, FeedCategory);
      assert ArticleOf(cols) == a.value;
    }
  }

  /**
   * As written, any visited row that the corrected loop would turn into a
   * record makes the whole call raise: the trait can only ever return
   * buckets with no records in them.
   */
  lemma {:induction false} AsWrittenFailsOnAnyRecord(grid: Grid, images: Images, i: int)
    requires |grid| > 0 && 1 <= i < |grid[0]|
    requires FeedRow(grid, images, i).Ok? && FeedRow(grid, images, i).value.Emit?
    ensures FeedRowAsWritten(grid, images, i) == Err(ArgumentCount)
    ensures ConvertToFeedAsWritten(grid, images).Err?
  {
    AsWrittenRowFails(grid, images, i);
    var row := FeedRowAsWrittenOf(grid, images);
    RowsFromFails(row, 1, |FeedRowsAsWritten(grid, images)|, Start);
    assert row(i).Err?;
  }

  /** As written, a row the corrected loop turns into a record raises ArgumentCountError. */
  lemma {:induction false} AsWrittenRowFails(grid: Grid, images: Images, i: int)
    requires FeedRow(grid, images, i).Ok? && FeedRow(grid, images, i).value.Emit?
    ensures FeedRowAsWritten(grid, images, i) == Err(ArgumentCount)
  {
    var a := FeedArticle(CellAt(grid, 0, i));
    var cols := FeedColumns(a.value, grid, i);
    SingleValueTitleRuleCases(cols, images, FeedCategory);
  }

  /** A concrete sheet: one product row with an article and a name. */
  predicate OneProduct(grid: Grid) {
    && |grid| == 2 && |grid[0]| == 2 && |grid[1]| == 2
    && grid[0][1] == Str("A1") && grid[1][1] == Str("Tetra")
  }

  lemma {:induction false} OneProductArticle(grid: Grid)
    requires OneProduct(grid)
    ensures FeedArticle(CellAt(grid, 0, 1)) == Ok("A1")
  {
    TrimFixpoint("A1");
  }

  lemma {:induction false} OneProductColumns(grid: Grid)
    requires OneProduct(grid)
    ensures MeaningfulCount(FeedColumns("A1", grid, 1)) >= 2
  {
    var cols := FeedColumns("A1", grid, 1);
    assert cols == cols[..2] + cols[2..];
    NotNullsAppend(cols[..2], cols[2..]);
    assert NotNulls(cols[..2]) == cols[..2];
  }

  /** Its only visited row holds two meaningful values, so it is a record row. */
  lemma {:induction false} OneProductRowEmits(grid: Grid, images: Images)
    requires OneProduct(grid)
    ensures FeedRow(grid, images, 1).Ok? && FeedRow(grid, images, 1).value.Emit?
  {
    OneProductArticle(grid);
    OneProductColumns(grid);
    var cols := FeedColumns("A1", grid, 1);
    assert FeedRow(grid, images, 1) == SingleValueTitleRule(cols, images, FeedCategory);
    SingleValueTitleRuleCases(cols, images, FeedCategory);
    assert ArticleOf(cols) == "A1";
  }

  /** On that sheet the trait as written raises, while the corrected loop returns a bucket. */
  lemma {:induction false} OneProductSheet(grid: Grid, images: Images)
    requires OneProduct(grid)
    ensures ConvertToFeedAsWritten(grid, images) == Err(ArgumentCount)
    ensures ConvertToFeedSpec(grid, images).Ok?
  {
    OneProductRowEmits(grid, images);
    OneProductAsWritten(grid, images);
    OneProductCorrected(grid, images);
  }

  lemma {:induction false} OneProductAsWritten(grid: Grid, images: Images)
    requires OneProduct(grid)
    requires FeedRow(grid, images, 1).Ok? && FeedRow(grid, images, 1).value.Emit?
    ensures ConvertToFeedAsWritten(grid, images) == Err(ArgumentCount)
  {
    AsWrittenRowFails(grid, images, 1);
    var rows := FeedRowsAsWritten(grid, images);
    FeedRowsAsWrittenAt(grid, images, 0);
    assert |rows| == 1 && rows[0] == Err(ArgumentCount);
    RunRowsPrefix(rows, 0, Start);
    assert rows[..1] == rows;
  }

  lemma {:induction false} OneProductCorrected(grid: Grid, images: Images)
    requires OneProduct(grid)
    requires FeedRow(grid, images, 1).Ok? && FeedRow(grid, images, 1).value.Emit?
    ensures ConvertToFeedSpec(grid, images).Ok?
  {
    var rows := FeedRows(grid, images);
    FeedRowsAt(grid, images, 0);
    assert |rows| == 1 && rows[0] == FeedRow(grid, images, 1);
    RunRowsPrefix(rows, 0, Start);
    assert rows[..1] == rows;
  }
}
