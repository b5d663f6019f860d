/**
 * XlsxToArray: the generic column converter convertTo and the composition of
 * the five sheet conversions done by convert().
 */
module XlsxToArray {
  import opened Outcomes
  import opened PhpText
  import opened PhpInt
  import opened Cells
  import opened Buckets
  import opened ImageIndex
  import opened RowLoop
  import CanConvertToFish

  // ---------------------------------------------------------------------------
  // Columns of one row
  // ---------------------------------------------------------------------------

  /**
   * The named columns of row `i` added to `base`: name j reads grid column
   * j + 1, strings trimmed and other values as they are.
   */
  function NamedColumns(base: Record, grid: Grid, names: seq<string>, i: int): Record
    decreases |names|
  {
    if names == [] then base
    else
      var j := |names| - 1;
      PutField(NamedColumns(base, grid, names[..j], i), names[j], TrimIfString(CellAt(grid, j + 1, i)))
  }

  /** The foreach over the column names with its $index counter. */
  method ReadNamedColumns(base: Record, grid: Grid, names: seq<string>, i: int) returns (columns: Record)
    ensures columns == NamedColumns(base, grid, names, i)
  {
    columns := base;
    var index := 1;
    for k := 0 to |names|
      invariant index == k + 1
      invariant columns == NamedColumns(base, grid, names[..k], i)
    {
      var name := names[k];
      var value := CellAt(grid, index, i);
      assert names[..k + 1][..k] == names[..k];
      columns := PutField(columns, name, if value.Str? then Str(Trim(value.text)) else value);
      index := index + 1;
    }
    assert names[..|names|] == names;
  }

  /** Distinct names as a record's keys, none of them already in `base`. */
  predicate FreshNames(base: Record, names: seq<string>) {
    && (forall a, b :: 0 <= a < b < |names| ==> names[a] != names[b])
    && (forall j :: 0 <= j < |names| ==> names[j] !in FieldNames(base))
  }

  /** Dropping the last fresh name leaves fresh names, none equal to the dropped one. */
  lemma {:induction false} FreshPrefix(base: Record, names: seq<string>)
    requires FreshNames(base, names) && names != []
    ensures FreshNames(base, names[..|names| - 1])
    ensures names[|names| - 1] !in FieldNames(base) + names[..|names| - 1]
  {
    var j := |names| - 1;
    var prefix := names[..j];
    forall a | 0 <= a < j ensures prefix[a] == names[a] && prefix[a] != names[j] { }
    forall k | 0 <= k < |FieldNames(base) + prefix|
      ensures (FieldNames(base) + prefix)[k] != names[j]
    {
      if k >= |FieldNames(base)| {
        assert (FieldNames(base) + prefix)[k] == prefix[k - |FieldNames(base)|];
      }
    }
  }

  /** With fresh names, the record's keys are the base's keys followed by the names in order. */
  lemma {:induction false} NamedColumnsKeys(base: Record, grid: Grid, names: seq<string>, i: int)
    requires FreshNames(base, names)
    ensures FieldNames(NamedColumns(base, grid, names, i)) == FieldNames(base) + names
  {
    if names != [] {
      var j := |names| - 1;
      var prefix := names[..j];
      FreshPrefix(base, names);
      NamedColumnsKeys(base, grid, prefix, i);
      var before := NamedColumns(base, grid, prefix, i);
      var v := TrimIfString(CellAt(grid, j + 1, i));
      PutFieldNames(before, names[j], v);
      calc {
        FieldNames(NamedColumns(base, grid, names, i));
        FieldNames(PutField(before, names[j], v));
        (FieldNames(base) + prefix) + [names[j]];
        { assert names == prefix + [names[j]]; }
        FieldNames(base) + names;
      }
    }
  }

  /** Name j holds grid column j + 1 (trimmed when a string) once all names are read. */
  lemma {:induction false} NamedColumnsValues(base: Record, grid: Grid, names: seq<string>, i: int, j: int)
    requires FreshNames(base, names) && 0 <= j < |names|
    ensures FieldValue(NamedColumns(base, grid, names, i), names[j]) == Some(TrimIfString(CellAt(grid, j + 1, i)))
  {
    var last := |names| - 1;
    var prefix := names[..last];
    var before := NamedColumns(base, grid, prefix, i);
    PutFieldValue(before, names[last], TrimIfString(CellAt(grid, last + 1, i)), names[j]);
    if j < last {
      FreshPrefix(base, names);
      assert prefix[j] == names[j];
      NamedColumnsValues(base, grid, prefix, i, j);
    }
  }

  /** Reading the named columns leaves the base's fields as they were. */
  lemma {:induction false} NamedColumnsKeepBase(base: Record, grid: Grid, names: seq<string>, i: int, n: string)
    requires FreshNames(base, names) && n in FieldNames(base)
    ensures FieldValue(NamedColumns(base, grid, names, i), n) == FieldValue(base, n)
  {
    if names != [] {
      var j := |names| - 1;
      var prefix := names[..j];
      FreshPrefix(base, names);
      NamedColumnsKeepBase(base, grid, prefix, i, n);
      PutFieldValue(NamedColumns(base, grid, prefix, i), names[j], TrimIfString(CellAt(grid, j + 1, i)), n);
    }
  }

  /**
   * The article of convertTo after `?? ''` and the RichText test: rich text
   * gives its trimmed plain text, an int its decimal string, a string its
   * trimmed self; trim() on a float or a bool is a TypeError.
   */
  function ArticleText(c: Cell): (r: Result<string, Failure>)
    ensures r.Err? <==> c.Float? || c.Bool?
    ensures c.Null? ==> r == Ok("")
    ensures c.Rich? ==> r == Ok(Trim(c.plain))
    ensures c.Int? ==> r == Ok(DecimalString(c.number))
    ensures c.Str? ==> r == Ok(Trim(c.text))
  {
    match c
    case Null => Ok(Trim(""))
    case Rich(p) => Ok(Trim(p))
    case Int(n) => Ok(DecimalString(n))
    case Str(s) => Ok(Trim(s))
    case _ => Err(TypeMismatch)
  }

  /** The columns of row i: the article first, then the named columns. */
  function GenericColumns(article: string, grid: Grid, names: seq<string>, i: int): Record {
    NamedColumns([Field("article", Str(article))], grid, names, i)
  }

  /** What convertTo does with row i. */
  function GenericRow(grid: Grid, names: seq<string>, category: string, images: Images, i: int): Row {
    var article :- ArticleText(CellAt(grid, 0, i));
    SingleValueTitleRule(GenericColumns(article, grid, names, i), images, category)
  }

  /** GenericRow over the sheet, as a function of the row number. */
  function GenericRowOf(grid: Grid, names: seq<string>, category: string, images: Images): int -> Row {
    i => GenericRow(grid, names, category, images, i)
  }

  /** The rows convertTo visits: 1 to count($items[0]) - 1. */
  function GenericRows(grid: Grid, names: seq<string>, category: string, images: Images): (rows: seq<Row>)
    requires |grid| > 0
    ensures |rows| == if |grid[0]| == 0 then 0 else |grid[0]| - 1
  {
    RowsFrom(GenericRowOf(grid, names, category, images), 1, if |grid[0]| == 0 then 0 else |grid[0]| - 1)
  }

  /** Entry k of the rows is what convertTo does with sheet row k + 1. */
  lemma {:induction false} GenericRowsAt(grid: Grid, names: seq<string>, category: string, images: Images, k: nat)
    requires |grid| > 0 && k < |GenericRows(grid, names, category, images)|
    ensures GenericRows(grid, names, category, images)[k] == GenericRow(grid, names, category, images, k + 1)
  {
    RowsFromAt(GenericRowOf(grid, names, category, images), 1, |GenericRows(grid, names, category, images)|, k);
  }

  /** The bucket convertTo returns, or the exception it raises; count() on a missing first column is a TypeError. */
  function ConvertToSpec(grid: Grid, names: seq<string>, category: string, images: Images): Result<Bucket, Failure> {
    if |grid| == 0 then Err(TypeMismatch)
    else
      var st :- RunRows(GenericRows(grid, names, category, images), Start);
      Ok(st.bucket)
  }

  /** convertTo($items, $column_names, $images_category) */
  method ConvertTo(grid: Grid, names: seq<string>, category: string, images: Images) returns (r: Result<Bucket, Failure>)
    ensures r == ConvertToSpec(grid, names, category, images)
  {
    if |grid| == 0 {
      return Err(TypeMismatch);
    }
    ghost var rows := GenericRows(grid, names, category, images);
    var result: Bucket := Empty;
    var title: Scalar := Str("");
    var iMax := |grid[0]|;
    var i := 1;
    while i < iMax
      invariant 1 <= i && i - 1 <= |rows|
      invariant i < iMax ==> i - 1 < |rows|
      invariant RunRows(rows[..i - 1], Start) == Ok(State(title, result))
    {
      var next := ConvertStep(grid, names, category, images, i, title, result, rows);
      if next.Err? {
        return Err(next.error);
      }
      title, result := next.value.title, next.value.bucket;
      i := i + 1;
    }
    assert rows[..i - 1] == rows;
    return Ok(result);
  }

  /** The loop body over row i, read against the run of the rows before it. */
  method ConvertStep(grid: Grid, names: seq<string>, category: string, images: Images, i: int, title: Scalar, result: Bucket, ghost rows: seq<Row>)
    returns (next: Result<State, Failure>)
    requires |grid| > 0 && rows == GenericRows(grid, names, category, images)
    requires 1 <= i && i - 1 < |rows|
    requires RunRows(rows[..i - 1], Start) == Ok(State(title, result))
    ensures RunRows(rows[..i - 1 + 1], Start) == next
    ensures next.Err? ==> RunRows(rows, Start) == next
  {
    next := ConvertRow(grid, names, category, images, i, title, result);
    GenericRowsAt(grid, names, category, images, i - 1);
    RunRowsStep(rows, i - 1, Start, State(title, result), next);
  }

  /** One pass of convertTo's loop body over row i, with $title and $result as they stand. */
  method ConvertRow(grid: Grid, names: seq<string>, category: string, images: Images, i: int, title: Scalar, result: Bucket)
    returns (next: Result<State, Failure>)
    ensures next == Step(Ok(State(title, result)), GenericRow(grid, names, category, images, i))
  {
    var article := CellAt(grid, 0, i);
    if article.Null? {
      article := Str("");
    }
    if article.Rich? {
      article := Str(article.plain);
    }
    var articleText: string;
    if article.Int? {
      articleText := DecimalString(article.number);
    } else if article.Str? {
      articleText := Trim(article.text);
    } else {
      return Err(TypeMismatch);
    }
    assert ArticleText(CellAt(grid, 0, i)) == Ok(articleText);
    var columns := ReadNamedColumns([Field("article", Str(articleText))], grid, names, i);
    next := ApplyTitleRule(columns, images, category, title, result);
  }

  // ---------------------------------------------------------------------------
  // Properties of convertTo
  // ---------------------------------------------------------------------------

  /** A row whose columns hold no meaningful value emits nothing and keeps the title. */
  lemma {:induction false} BlankRowSkipped(grid: Grid, names: seq<string>, category: string, images: Images, i: int, st: State)
    requires ArticleText(CellAt(grid, 0, i)).Ok?
    requires var cols := GenericColumns(ArticleText(CellAt(grid, 0, i)).value, grid, names, i);
      forall f :: f in cols ==> !Meaningful(f.value)
    ensures Step(Ok(st), GenericRow(grid, names, category, images, i)) == Ok(st)
  {
    var cols := GenericColumns(ArticleText(CellAt(grid, 0, i)).value, grid, names, i);
    SingleValueTitleRuleCases(cols, images, category);
  }

  /**
   * A row with exactly one meaningful value emits nothing; the value becomes
   * the title unless it is an object, which leaves the title as it was.
   */
  lemma {:induction false} SingleValueRowSetsTitle(grid: Grid, names: seq<string>, category: string, images: Images, i: int, st: State)
    requires ArticleText(CellAt(grid, 0, i)).Ok?
    requires MeaningfulCount(GenericColumns(ArticleText(CellAt(grid, 0, i)).value, grid, names, i)) == 1
    ensures var cols := GenericColumns(ArticleText(CellAt(grid, 0, i)).value, grid, names, i);
      var v := NotNulls(cols)[0].value;
      && Meaningful(v) && v in FieldValues(cols)
      && Step(Ok(st), GenericRow(grid, names, category, images, i)) ==
         if v.Rich? then Ok(st) else Ok(State(v, st.bucket))
  {
    var cols := GenericColumns(ArticleText(CellAt(grid, 0, i)).value, grid, names, i);
    SingleValueTitleRuleCases(cols, images, category);
  }

  /** The record convertTo emits for row i: the columns followed by the image of the article. */
  function GenericRecord(article: string, grid: Grid, names: seq<string>, category: string, images: Images, i: int): Record {
    PutField(GenericColumns(article, grid, names, i), "image", Str(GetImageFrom(images, Some(article), category)))
  }

  /**
   * A row with two or more meaningful values appends exactly one record, its
   * GenericRecord, under the key of the current title; the title and every
   * other key's records stay as they were.
   */
  lemma {:induction false} RecordRowAppends(grid: Grid, names: seq<string>, category: string, images: Images, i: int, st: State, other: Key)
    requires ArticleText(CellAt(grid, 0, i)).Ok?
    requires forall j :: 0 <= j < |names| ==> names[j] != "article"
    requires MeaningfulCount(GenericColumns(ArticleText(CellAt(grid, 0, i)).value, grid, names, i)) >= 2
    ensures var article := ArticleText(CellAt(grid, 0, i)).value;
      var rec := GenericRecord(article, grid, names, category, images, i);
      var next := Step(Ok(st), GenericRow(grid, names, category, images, i));
      && next.Ok? && next.value.title == st.title
      && RecordsUnder(next.value.bucket, ArrayKey(st.title)) == RecordsUnder(st.bucket, ArrayKey(st.title)) + [rec]
      && (other != ArrayKey(st.title) ==> RecordsUnder(next.value.bucket, other) == RecordsUnder(st.bucket, other))
  {
    var article := ArticleText(CellAt(grid, 0, i)).value;
    var cols := GenericColumns(article, grid, names, i);
    FreeOfArticle(Str(article), grid, names, i);
    SingleValueTitleRuleCases(cols, images, category);
    ApplyEffect(st, Emit(GenericRecord(article, grid, names, category, images, i)), other);
  }

  /** The article field survives the named columns when no name is "article". */
  lemma {:induction false} FreeOfArticle(article: Cell, grid: Grid, names: seq<string>, i: int)
    requires forall j :: 0 <= j < |names| ==> names[j] != "article"
    ensures FieldValue(NamedColumns([Field("article", article)], grid, names, i), "article") == Some(article)
  {
    if names != [] {
      var j := |names| - 1;
      FreeOfArticle(article, grid, names[..j], i);
      PutFieldValue(NamedColumns([Field("article", article)], grid, names[..j], i), names[j],
        TrimIfString(CellAt(grid, j + 1, i)), "article");
    }
  }

  /**
   * With distinct column names other than "article" and "image", the emitted
   * record's keys are article, the names in order, then image; the article is
   * the coerced article text, name j holds grid column j + 1 and the image is
   * the lookup of the article in the category.
   */
  lemma {:induction false} GenericRecordLayout(article: string, grid: Grid, names: seq<string>, category: string, images: Images, i: int)
    requires forall a, b :: 0 <= a < b < |names| ==> names[a] != names[b]
    requires forall j :: 0 <= j < |names| ==> names[j] != "article" && names[j] != "image"
    ensures var rec := GenericRecord(article, grid, names, category, images, i);
      && FieldNames(rec) == ["article"] + names + ["image"]
      && FieldValue(rec, "article") == Some(Str(article))
      && FieldValue(rec, "image") == Some(Str(GetImageFrom(images, Some(article), category)))
      && forall j :: 0 <= j < |names| ==> FieldValue(rec, names[j]) == Some(TrimIfString(CellAt(grid, j + 1, i)))
  {
    var base := [Field("article", Str(article))];
    var cols := GenericColumns(article, grid, names, i);
    var image := Str(GetImageFrom(images, Some(article), category));
    assert FieldNames(base) == ["article"];
    assert FreshNames(base, names);
    NamedColumnsKeys(base, grid, names, i);
    NamedColumnsKeepBase(base, grid, names, i, "article");
    PutFieldNames(cols, "image", image);
    assert "image" !in FieldNames(cols);
    PutFieldValue(cols, "image", image, "article");
    forall j | 0 <= j < |names|
      ensures FieldValue(PutField(cols, "image", image), names[j]) == Some(TrimIfString(CellAt(grid, j + 1, i)))
    {
      PutFieldValue(cols, "image", image, names[j]);
      NamedColumnsValues(base, grid, names, i, j);
    }
  }

  /**
   * Over the whole sheet, each key's records are exactly the records emitted
   * under it, in row order, and there is one record per emitting row.
   */
  lemma {:induction false} ConvertToGroupsInRowOrder(grid: Grid, names: seq<string>, category: string, images: Images, k: Key)
    requires ConvertToSpec(grid, names, category, images).Ok?
    ensures var rows := GenericRows(grid, names, category, images);
      var bucket := ConvertToSpec(grid, names, category, images).value;
      && RecordsUnder(bucket, k) == RecordsFor(Emitted(rows, Str("")), k)
      && Valid(bucket)
      && Size(bucket) == |Emitted(rows, Str(""))|
  {
    RunFromStart(GenericRows(grid, names, category, images), k);
  }

  /** A float or bool article in any visited row makes convertTo raise a TypeError. */
  lemma {:induction false} ConvertToAbortsOnBadArticle(grid: Grid, names: seq<string>, category: string, images: Images, i: int)
    requires |grid| > 0 && 1 <= i < |grid[0]|
    requires grid[0][i].Float? || grid[0][i].Bool?
    ensures ConvertToSpec(grid, names, category, images).Err?
  {
    var rows := GenericRows(grid, names, category, images);
    GenericRowsAt(grid, names, category, images, i - 1);
    assert rows[i - 1].Err?;
    RunRowsFails(rows, Start);
  }

  // ---------------------------------------------------------------------------
  // convert(): the five sheet conversions
  // ---------------------------------------------------------------------------

  /** The grids getArrayFromSheet yields for the five sheets. */
  datatype Sheets = Sheets(fish: Grid, equipment: Grid, feed: Grid, chemistry: Grid, aquariums: Grid)

  /** The ConversionResult: one bucket per sheet. */
  datatype Conversion = Conversion(fish: Bucket, equipment: Bucket, feed: Bucket, chemistry: Bucket, aquariums: Bucket)

  const EquipmentNames: seq<string> := ["name", "description", "producer", "price"]
  const FeedNames: seq<string> := ["name", "description", "weight", "price"]
  const CapacityNames: seq<string> := ["name", "capacity", "description", "price"]

  /** The column names and image category convert() passes to convertTo for generic sheet `which`. */
  function GenericSheet(sheets: Sheets, which: nat): (Grid, seq<string>, string)
    requires which < 4
  {
    if which == 0 then (sheets.equipment, EquipmentNames, "equipment")
    else if which == 1 then (sheets.feed, FeedNames, "feed")
    else if which == 2 then (sheets.chemistry, CapacityNames, "chemistry")
    else (sheets.aquariums, CapacityNames, "aquariums")
  }

  /** convert(): the fish sheet, then the four generic sheets; the first exception aborts. */
  function Convert(sheets: Sheets, images: Images): Result<Conversion, Failure> {
    var fish :- CanConvertToFish.ConvertToFishSpec(sheets.fish, images);
    var equipment :- ConvertToSpec(sheets.equipment, EquipmentNames, "equipment", images);
    var feed :- ConvertToSpec(sheets.feed, FeedNames, "feed", images);
    var chemistry :- ConvertToSpec(sheets.chemistry, CapacityNames, "chemistry", images);
    var aquariums :- ConvertToSpec(sheets.aquariums, CapacityNames, "aquariums", images);
    Ok(Conversion(fish, equipment, feed, chemistry, aquariums))
  }

  /**
   * A float or bool article in any visited row of a generic sheet makes the
   * whole conversion raise, with no partial result.
   */
  lemma {:induction false} ConvertAbortsOnBadArticle(sheets: Sheets, images: Images, which: nat, i: int)
    requires which < 4
    requires var (grid, _, _) := GenericSheet(sheets, which);
      |grid| > 0 && 1 <= i < |grid[0]| && (grid[0][i].Float? || grid[0][i].Bool?)
    ensures Convert(sheets, images).Err?
  {
    var (grid, names, category) := GenericSheet(sheets, which);
    ConvertToAbortsOnBadArticle(grid, names, category, images, i);
  }
}
