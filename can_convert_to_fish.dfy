/**
 * CanConvertToFish: the fish sheet's row loop. Columns are fixed, rows start
 * at 3, and the title comes from column 0 instead of the single-value rule.
 */
module CanConvertToFish {
  import opened Outcomes
  import opened PhpText
  import opened Cells
  import opened Buckets
  import opened ImageIndex
  import opened RowLoop

  /** The word that marks a totals row, which must not become a title. */
  const TotalMarker: string := "Сумма"

  /** The first row convertToFish visits. */
  const FirstFishRow: nat := 3

  /** trim($price_list[5][$i] ?? ''): trim() on anything but a string is a TypeError. */
  function CommentText(c: Cell): (r: Result<string, Failure>)
    ensures r.Ok? <==> c.Null? || c.Str?
    ensures c.Null? ==> r == Ok("")
    ensures c.Str? ==> r == Ok(Trim(c.text))
  {
    match c
    case Null => Ok(Trim(""))
    case Str(s) => Ok(Trim(s))
    case _ => Err(TypeMismatch)
  }

  /** The $columns of row i: article and name trimmed when strings, size and price raw. */
  function FishColumns(grid: Grid, i: int, comment: string): Record {
    [ Field("article", TrimIfString(CellAt(grid, 1, i))),
      Field("name", TrimIfString(CellAt(grid, 2, i))),
      Field("size", CellAt(grid, 3, i)),
      Field("price", CellAt(grid, 4, i)),
      Field("comment", Str(comment)) ]
  }

  /** The record emitted for row i: its columns and the 'fish' image of the raw article. */
  function FishRecord(grid: Grid, i: int, comment: string, image: string): Record {
    FishColumns(grid, i, comment) + [Field("image", Str(image))]
  }

  /**
   * What one row does once its columns are read: a truthy column 0 over blank
   * columns is a title candidate, a blank row is skipped, anything else is a record.
   */
  function FishDecision(first: Cell, columns: Record, article: Cell, images: Images): Row {
    if Truthy(first) && NotNulls(columns) == [] then
      if first.Rich? then Ok(Skip)
      else if !first.Str? then Err(TypeMismatch)
      else if !Contains(first.text, TotalMarker) then Ok(SetTitle(first))
      else Ok(Skip)
    else if NotNulls(columns) == [] then Ok(Skip)
    else
      var name :- LookupArgument(article);
      Ok(Emit(columns + [Field("image", Str(GetImageFrom(images, name, "fish")))]))
  }

  /** What convertToFish does with row i. */
  function FishRow(grid: Grid, images: Images, i: int): Row {
    var comment :- CommentText(CellAt(grid, 5, i));
    FishDecision(CellAt(grid, 0, i), FishColumns(grid, i, comment), CellAt(grid, 1, i), images)
  }

  /** FishRow over the sheet, as a function of the row number. */
  function FishRowOf(grid: Grid, images: Images): int -> Row {
    i => FishRow(grid, images, i)
  }

  /** The rows convertToFish visits: 3 to count($price_list[0]) - 1. */
  function FishRows(grid: Grid, images: Images): (rows: seq<Row>)
    requires |grid| > 0
    ensures |rows| == if |grid[0]| <= FirstFishRow then 0 else |grid[0]| - FirstFishRow
  {
    RowsFrom(FishRowOf(grid, images), FirstFishRow, if |grid[0]| <= FirstFishRow then 0 else |grid[0]| - FirstFishRow)
  }

  /** Entry k of the rows is what convertToFish does with sheet row k + 3. */
  lemma {:induction false} FishRowsAt(grid: Grid, images: Images, k: nat)
    requires |grid| > 0 && k < |FishRows(grid, images)|
    ensures FishRows(grid, images)[k] == FishRow(grid, images, k + FirstFishRow)
  {
    RowsFromAt(FishRowOf(grid, images), FirstFishRow, |FishRows(grid, images)|, k);
  }

  /** The bucket convertToFish returns, or the exception it raises. */
  function ConvertToFishSpec(grid: Grid, images: Images): Result<Bucket, Failure> {
    if |grid| == 0 then Err(TypeMismatch)
    else
      var st :- RunRows(FishRows(grid, images), Start);
      Ok(st.bucket)
  }

  /** convertToFish($price_list) */
  method ConvertToFish(grid: Grid, images: Images) returns (r: Result<Bucket, Failure>)
    ensures r == ConvertToFishSpec(grid, images)
  {
    if |grid| == 0 {
      return Err(TypeMismatch);
    }
    ghost var rows := FishRows(grid, images);
    var result: Bucket := Empty;
    var title: Scalar := Str("");
    var iMax := |grid[0]|;
    var i := FirstFishRow;
    while i < iMax
      invariant FirstFishRow <= i && i - FirstFishRow <= |rows|
      invariant i < iMax ==> i - FirstFishRow < |rows|
      invariant RunRows(rows[..i - FirstFishRow], Start) == Ok(State(title, result))
    {
      var next := FishStep(grid, images, i, title, result, rows);
      if next.Err? {
        return Err(next.error);
      }
      title, result := next.value.title, next.value.bucket;
      i := i + 1;
    }
    assert rows[..i - FirstFishRow] == rows;
    return Ok(result);
  }

  /** The loop body over row i, read against the run of the rows before it. */
  method FishStep(grid: Grid, images: Images, i: int, title: Scalar, result: Bucket, ghost rows: seq<Row>)
    returns (next: Result<State, Failure>)
    requires |grid| > 0 && rows == FishRows(grid, images)
    requires FirstFishRow <= i && i - FirstFishRow < |rows|
    requires RunRows(rows[..i - FirstFishRow], Start) == Ok(State(title, result))
    ensures RunRows(rows[..i - FirstFishRow + 1], Start) == next
    ensures next.Err? ==> RunRows(rows, Start) == next
  {
    next := ConvertFishRow(grid, images, i, title, result);
    FishRowsAt(grid, images, i - FirstFishRow);
    RunRowsStep(rows, i - FirstFishRow, Start, State(title, result), next);
  }

  /** One pass of convertToFish's loop body over row i. */
  method ConvertFishRow(grid: Grid, images: Images, i: int, title: Scalar, result: Bucket)
    returns (next: Result<State, Failure>)
    ensures next == Step(Ok(State(title, result)), FishRow(grid, images, i))
  {
    var comment := CellAt(grid, 5, i);
    if comment.Null? {
      comment := Str("");
    }
    if !comment.Str? {
      return Err(TypeMismatch);
    }
    var commentText := Trim(comment.text);
    assert CommentText(CellAt(grid, 5, i)) == Ok(commentText);
    var columns := FishColumns(grid, i, commentText);
    next := DecideFishRow(CellAt(grid, 0, i), columns, CellAt(grid, 1, i), images, title, result);
  }

  /** The branches of convertToFish's loop body after the columns are read. */
  method DecideFishRow(firstColumnValue: Cell, columns: Record, article: Cell, images: Images,
                       title: Scalar, result: Bucket)
    returns (next: Result<State, Failure>)
    ensures next == Step(Ok(State(title, result)), FishDecision(firstColumnValue, columns, article, images))
  {
    var notNulls := NotNulls(columns);
    if Truthy(firstColumnValue) && |notNulls| == 0 {
      if firstColumnValue.Rich? {
        return Ok(State(title, result));
      }
      if !firstColumnValue.Str? {
        return Err(TypeMismatch);
      }
      if !Contains(firstColumnValue.text, TotalMarker) {
        return Ok(State(firstColumnValue, result));
      }
      return Ok(State(title, result));
    }
    if |notNulls| == 0 {
      return Ok(State(title, result));
    }
    if !(article.Null? || article.Str?) {
      return Err(TypeMismatch);
    }
    var image := GetImageFrom(images, if article.Str? then Some(article.text) else None, "fish");
    return Ok(State(title, Push(result, ArrayKey(title), columns + [Field("image", Str(image))])));
  }

  // ---------------------------------------------------------------------------
  // Properties of convertToFish
  // ---------------------------------------------------------------------------

  /** All five mapped columns of the row are blank. */
  predicate MappedBlank(grid: Grid, i: int, comment: string) {
    forall f :: f in FishColumns(grid, i, comment) ==> !Meaningful(f.value)
  }

  lemma {:induction false} MappedBlankIsEmpty(grid: Grid, i: int, comment: string)
    ensures MappedBlank(grid, i, comment) <==> NotNulls(FishColumns(grid, i, comment)) == []
  {
    var cols := FishColumns(grid, i, comment);
    NotNullsMembers(cols);
    if NotNulls(cols) != [] {
      assert NotNulls(cols)[0] in NotNulls(cols);
    }
  }

  /**
   * A truthy string in column 0 of a row whose mapped columns are blank becomes
   * the title, unless it contains the totals marker; either way nothing is emitted.
   */
  lemma {:induction false} FishTitleRow(grid: Grid, images: Images, i: int, st: State)
    requires CommentText(CellAt(grid, 5, i)).Ok?
    requires MappedBlank(grid, i, CommentText(CellAt(grid, 5, i)).value)
    requires CellAt(grid, 0, i).Str? && Truthy(CellAt(grid, 0, i))
    ensures var first := CellAt(grid, 0, i);
      Step(Ok(st), FishRow(grid, images, i)) ==
        if Contains(first.text, TotalMarker) then Ok(st) else Ok(State(first, st.bucket))
  {
    MappedBlankIsEmpty(grid, i, CommentText(CellAt(grid, 5, i)).value);
  }

  /** A rich-text column 0, or a falsy one, over blank mapped columns is dropped: nothing changes. */
  lemma {:induction false} FishBlankRowDropped(grid: Grid, images: Images, i: int, st: State)
    requires CommentText(CellAt(grid, 5, i)).Ok?
    requires MappedBlank(grid, i, CommentText(CellAt(grid, 5, i)).value)
    requires CellAt(grid, 0, i).Rich? || !Truthy(CellAt(grid, 0, i))
    ensures Step(Ok(st), FishRow(grid, images, i)) == Ok(st)
  {
    MappedBlankIsEmpty(grid, i, CommentText(CellAt(grid, 5, i)).value);
  }

  /**
   * Any row with at least one meaningful mapped value, even a single one,
   * appends exactly one record under the current title, whatever column 0
   * holds: the mapped columns, then the 'fish' image of the raw article.
   */
  lemma {:induction false} FishRecordRow(grid: Grid, images: Images, i: int, st: State, other: Key)
    requires CommentText(CellAt(grid, 5, i)).Ok?
    requires !MappedBlank(grid, i, CommentText(CellAt(grid, 5, i)).value)
    requires CellAt(grid, 1, i).Null? || CellAt(grid, 1, i).Str?
    ensures var comment := CommentText(CellAt(grid, 5, i)).value;
      var article := CellAt(grid, 1, i);
      var name := if article.Str? then Some(article.text) else None;
      var rec := FishRecord(grid, i, comment, GetImageFrom(images, name, "fish"));
      var next := Step(Ok(st), FishRow(grid, images, i));
      && next.Ok? && next.value.title == st.title
      && RecordsUnder(next.value.bucket, ArrayKey(st.title)) == RecordsUnder(st.bucket, ArrayKey(st.title)) + [rec]
      && (other != ArrayKey(st.title) ==> RecordsUnder(next.value.bucket, other) == RecordsUnder(st.bucket, other))
  {
    var comment := CommentText(CellAt(grid, 5, i)).value;
    MappedBlankIsEmpty(grid, i, comment);
    var article := CellAt(grid, 1, i);
    var name := if article.Str? then Some(article.text) else None;
    var rec := FishRecord(grid, i, comment, GetImageFrom(images, name, "fish"));
    assert FishRow(grid, images, i) == Ok(Emit(rec));
    ApplyEffect(st, Emit(rec), other);
  }

  /**
   * Every fish record has the fields article, name, size, price, comment and
   * image, in that order: article and name trimmed when they are strings, size
   * and price as the cells hold them, the trimmed comment and the image URL.
   */
  lemma {:induction false} FishRecordLayout(grid: Grid, i: int, comment: string, image: string)
    ensures var rec := FishRecord(grid, i, comment, image);
      && FieldNames(rec) == ["article", "name", "size", "price", "comment", "image"]
      && rec[0].value == TrimIfString(CellAt(grid, 1, i))
      && rec[1].value == TrimIfString(CellAt(grid, 2, i))
      && rec[2].value == CellAt(grid, 3, i)
      && rec[3].value == CellAt(grid, 4, i)
      && rec[4].value == Str(comment)
      && rec[5].value == Str(image)
  {
    FieldNamesAre(FishRecord(grid, i, comment, image), ["article", "name", "size", "price", "comment", "image"]);
  }

  /** A fish row only ever sets a string title: the raw column 0, when it is a string. */
  lemma {:induction false} FishRowTitleIsText(grid: Grid, images: Images, i: int)
    requires FishRow(grid, images, i).Ok? && FishRow(grid, images, i).value.SetTitle?
    ensures FishRow(grid, images, i).value == SetTitle(CellAt(grid, 0, i)) && CellAt(grid, 0, i).Str?
  {
    var comment := CommentText(CellAt(grid, 5, i)).value;
    assert FishRow(grid, images, i) ==
      FishDecision(CellAt(grid, 0, i), FishColumns(grid, i, comment), CellAt(grid, 1, i), images);
  }

  /** Every title the rows set is a string. */
  predicate TitlesAreText(rows: seq<Row>) {
    forall k :: 0 <= k < |rows| && rows[k].Ok? && rows[k].value.SetTitle? ==> rows[k].value.title.Str?
  }

  lemma {:induction false} TitleAfterIsText(rows: seq<Row>)
    requires TitlesAreText(rows)
    ensures TitleAfter(rows, Str("")).Str?
    decreases |rows|
  {
    if rows != [] {
      var prefix := rows[..|rows| - 1];
      assert TitlesAreText(prefix) by {
        forall k | 0 <= k < |prefix| ensures prefix[k] == rows[k] { }
      }
      TitleAfterIsText(prefix);
    }
  }

  /** A title set by any of the sheet's rows is a string. */
  lemma {:induction false} FishRowsTitleIsText(grid: Grid, images: Images, k: nat)
    requires |grid| > 0 && k < |FishRows(grid, images)|
    requires FishRows(grid, images)[k].Ok? && FishRows(grid, images)[k].value.SetTitle?
    ensures FishRows(grid, images)[k].value.title.Str?
  {
    FishRowsAt(grid, images, k);
    FishRowTitleIsText(grid, images, k + FirstFishRow);
  }

  /** The title only ever comes from column 0 as a string, so fish buckets are keyed by text. */
  lemma {:induction false} FishTitlesAreStrings(grid: Grid, images: Images, j: nat)
    requires |grid| > 0 && j <= |FishRows(grid, images)|
    ensures TitleAfter(FishRows(grid, images)[..j], Str("")).Str?
  {
    var all := FishRows(grid, images);
    var rows := all[..j];
    forall k | 0 <= k < |rows| && rows[k].Ok? && rows[k].value.SetTitle?
      ensures rows[k].value.title.Str?
    {
      assert rows[k] == all[k];
      FishRowsTitleIsText(grid, images, k);
    }
    TitleAfterIsText(rows);
  }

  /** Over the whole sheet, each key's records are exactly those emitted under it, in row order. */
  lemma {:induction false} ConvertToFishGroupsInRowOrder(grid: Grid, images: Images, k: Key)
    requires ConvertToFishSpec(grid, images).Ok?
    ensures var rows := FishRows(grid, images);
      var bucket := ConvertToFishSpec(grid, images).value;
      && RecordsUnder(bucket, k) == RecordsFor(Emitted(rows, Str("")), k)
      && Valid(bucket)
      && Size(bucket) == |Emitted(rows, Str(""))|
  {
    RunFromStart(FishRows(grid, images), k);
  }

  /** A totals line over blank columns never becomes the title. */
  lemma {:induction false} TotalsLineIsNotATitle(grid: Grid, images: Images, i: int, st: State)
    requires CellAt(grid, 0, i) == Str("Итого Сумма: 500")
    requires CommentText(CellAt(grid, 5, i)).Ok?
    requires MappedBlank(grid, i, CommentText(CellAt(grid, 5, i)).value)
    ensures Step(Ok(st), FishRow(grid, images, i)) == Ok(st)
  {
    var text := "Итого Сумма: 500";
    assert text[6..6 + |TotalMarker|] == TotalMarker;
    assert OccursAt(text, TotalMarker, 6);
    FishTitleRow(grid, images, i, st);
  }
}
