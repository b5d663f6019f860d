/**
 * XlsToArray: the abstract base converter. Next to the image lookup it shares
 * with XlsxToArray it provides the helpers its subclasses build on: the
 * re-indexing getNotNulls, the category and subcategory markers, the
 * double-whitespace replacement, getColumns and the title validator.
 */
module XlsToArray {
  import opened Outcomes
  import opened PhpText
  import opened PhpInt
  import opened Cells
  import opened ImageIndex
  import opened RowLoop
  import XlsxToArray

  // ---------------------------------------------------------------------------
  // getNotNulls: the meaningful values, re-indexed from 0
  // ---------------------------------------------------------------------------

  /** array_values of the meaningful fields: their values only, in order. */
  function NotNullValues(columns: Record): (values: seq<Cell>)
    ensures |values| <= |columns|
  {
    FieldValues(NotNulls(columns))
  }

  /** A value is kept exactly when some column holds it and it is meaningful. */
  lemma {:induction false} NotNullValuesMembers(columns: Record)
    ensures forall v :: v in NotNullValues(columns) <==>
      Meaningful(v) && exists k :: 0 <= k < |columns| && columns[k].value == v
  {
    var kept := NotNulls(columns);
    NotNullsMembers(columns);
    forall v | v in NotNullValues(columns)
      ensures Meaningful(v) && exists k :: 0 <= k < |columns| && columns[k].value == v
    {
      var j :| 0 <= j < |kept| && FieldValues(kept)[j] == v;
      assert kept[j] in kept;
      var k :| 0 <= k < |columns| && columns[k] == kept[j];
      assert columns[k].value == v;
    }
    forall v | Meaningful(v) && (exists k :: 0 <= k < |columns| && columns[k].value == v)
      ensures v in NotNullValues(columns)
    {
      var k :| 0 <= k < |columns| && columns[k].value == v;
      assert columns[k] in columns;
      assert columns[k] in kept;
      var j :| 0 <= j < |kept| && kept[j] == columns[k];
      assert FieldValues(kept)[j] == v;
    }
  }

  /** The filter keeps the original order: it distributes over concatenation. */
  lemma {:induction false} NotNullValuesAppend(a: Record, b: Record)
    ensures NotNullValues(a + b) == NotNullValues(a) + NotNullValues(b)
  {
    NotNullsAppend(a, b);
    var ka, kb := NotNulls(a), NotNulls(b);
    assert NotNulls(a + b) == ka + kb;
    var l, r := FieldValues(ka + kb), FieldValues(ka) + FieldValues(kb);
    forall j | 0 <= j < |l| ensures l[j] == r[j] {
      if j >= |ka| {
        assert (ka + kb)[j] == kb[j - |ka|];
      }
    }
  }

  // ---------------------------------------------------------------------------
  // Category and subcategory markers
  // ---------------------------------------------------------------------------

  /** `$str ? trim($str) : ''`: null, '' and '0' are falsy. */
  function MarkerText(s: Option<string>): string {
    if s.Some? && s.value != "" && s.value != "0" then Trim(s.value) else ""
  }

  /** stringIsCategory: the trimmed text starts with '~'. */
  predicate StringIsCategory(s: Option<string>) {
    StartsWith(MarkerText(s), "~")
  }

  /** stringIsSubCategory: the trimmed text starts with '*'. */
  predicate StringIsSubCategory(s: Option<string>) {
    StartsWith(MarkerText(s), "*")
  }

  /** The first character of `s` that trim() keeps is `m`. */
  predicate MarkedWith(s: string, m: char) {
    exists k :: 0 <= k < |s| && s[k] == m && forall j :: 0 <= j < k ==> IsTrimChar(s[j])
  }

  /**
   * A marker character that trim() does not strip starts the trimmed text
   * exactly when it is the first character trim() keeps.
   */
  lemma {:induction false} MarkerStartsTrim(s: string, m: char)
    requires !IsTrimChar(m) && m != '0'
    ensures StartsWith(MarkerText(Some(s)), [m]) <==> MarkedWith(s, m)
  {
    if s == "0" {
      assert s[0] == '0';
    } else if s != "" {
      TrimStartsWith(s, m);
    }
  }

  lemma {:induction false} TrimStartsWith(s: string, m: char)
    requires !IsTrimChar(m)
    ensures StartsWith(Trim(s), [m]) <==> MarkedWith(s, m)
  {
    var l := TrimLeft(s);
    var t := Trim(s);
    var n := |s| - |l|;
    assert t == TrimRight(l);
    if StartsWith(t, [m]) {
      assert t[..1] == [t[0]];
      assert t[0] == l[0] == s[n];
      assert 0 <= n < |s| && s[n] == m && forall j :: 0 <= j < n ==> IsTrimChar(s[j]);
    }
    if MarkedWith(s, m) {
      var k :| 0 <= k < |s| && s[k] == m && forall j :: 0 <= j < k ==> IsTrimChar(s[j]);
      assert k >= n;
      assert n < |s| ==> l[0] == s[n];
      assert n == k && l[0] == m;
      assert t != [];
      assert t[0] == l[0];
      assert t[..1] == [m];
    }
  }

  /** stringIsCategory holds exactly for a text whose first character after trimming is '~'. */
  lemma {:induction false} StringIsCategoryIff(s: Option<string>)
    ensures StringIsCategory(s) <==> s.Some? && MarkedWith(s.value, '~')
    ensures StringIsSubCategory(s) <==> s.Some? && MarkedWith(s.value, '*')
  {
    if s.Some? {
      MarkerStartsTrim(s.value, '~');
      MarkerStartsTrim(s.value, '*');
    }
  }

  /** Null, '' and '0' are neither, and no text is both a category and a subcategory. */
  lemma {:induction false} MarkersExclusive(s: Option<string>)
    ensures s == None || s == Some("") || s == Some("0") ==> !StringIsCategory(s) && !StringIsSubCategory(s)
    ensures !(StringIsCategory(s) && StringIsSubCategory(s))
  {
    var t := MarkerText(s);
    assert StringIsCategory(s) ==> t[..1][0] == '~';
    assert StringIsSubCategory(s) ==> t[..1][0] == '*';
  }

  /** Leading whitespace does not hide a marker: a '~' after trim characters only makes a category. */
  lemma {:induction false} IndentedCategory(s: string, k: int)
    requires 0 <= k < |s| && s[k] == '~'
    requires forall j :: 0 <= j < k ==> IsTrimChar(s[j])
    ensures StringIsCategory(Some(s))
  {
    assert MarkedWith(s, '~');
    StringIsCategoryIff(Some(s));
  }

  /** The first character trim() keeps decides: when it is not '~', no later '~' makes a category. */
  lemma {:induction false} LateMarkerIgnored(s: string, k: int)
    requires 0 <= k < |s| && !IsTrimChar(s[k]) && s[k] != '~'
    requires forall j :: 0 <= j < k ==> IsTrimChar(s[j])
    ensures !StringIsCategory(Some(s))
  {
    forall n | 0 <= n < |s| && s[n] == '~'
      ensures k < n && !IsTrimChar(s[k])
    {
      assert !IsTrimChar(s[n]);
    }
    assert !MarkedWith(s, '~');
    StringIsCategoryIff(Some(s));
  }

  // ---------------------------------------------------------------------------
  // removeMultipleSpaces: preg_replace('/\s\s+/', ' ', $string ?? '')
  // ---------------------------------------------------------------------------

  function RemoveMultipleSpaces(s: Option<string>): string {
    ReplaceRuns(s.GetOr(""), 2)
  }

  /**
   * No two whitespace characters are left side by side, the other characters
   * survive in order, a string without double whitespace (single whitespace
   * characters of any kind included) is returned unchanged, null gives '' and
   * a second pass changes nothing.
   */
  lemma {:induction false} RemoveMultipleSpacesShape(s: Option<string>)
    ensures NoDoubleSpace(RemoveMultipleSpaces(s))
    ensures NonSpace(RemoveMultipleSpaces(s)) == NonSpace(s.GetOr(""))
    ensures NoDoubleSpace(s.GetOr("")) ==> RemoveMultipleSpaces(s) == s.GetOr("")
    ensures s.None? ==> RemoveMultipleSpaces(s) == ""
    ensures RemoveMultipleSpaces(Some(RemoveMultipleSpaces(s))) == RemoveMultipleSpaces(s)
  {
    var t := s.GetOr("");
    ReplaceRunsNoDoubleSpace(t, 2);
    ReplaceRunsKeepsNonSpace(t, 2);
    if NoDoubleSpace(t) {
      ReplaceRunsFixpoint(t, 2);
    }
    ReplaceRunsIdempotent(t, 2);
  }

  /**
   * The replacement works run by run: a non-whitespace character separates the
   * text into parts replaced on their own, a whitespace run of two or more
   * characters becomes exactly one space, and a lone whitespace character of
   * any kind stays as it is.
   */
  lemma {:induction false} RemoveMultipleSpacesRuns(u: string, c: char, v: string, w: string)
    requires forall k :: 0 <= k < |w| ==> IsSpace(w[k])
    ensures !IsSpace(c) ==>
      RemoveMultipleSpaces(Some(u + [c] + v)) == RemoveMultipleSpaces(Some(u)) + [c] + RemoveMultipleSpaces(Some(v))
    ensures |w| >= 2 ==> RemoveMultipleSpaces(Some(w)) == " "
    ensures |w| == 1 ==> RemoveMultipleSpaces(Some(w)) == w
  {
    if !IsSpace(c) {
      ReplaceRunsSplit(u, c, v, 2);
    }
    if w != [] {
      ReplaceRunsOfRun(w, 2);
    }
  }

  /** A run of two becomes one space; a lone tab stays a tab. */
  lemma {:induction false} RemoveMultipleSpacesExample()
    ensures RemoveMultipleSpaces(Some("a \tb")) == "a b"
    ensures RemoveMultipleSpaces(Some("a\tb")) == "a\tb"
  {
    var s := "a \tb";
    var p := s[..3];
    assert TrailingSpaces(p) == 2 by {
      assert p[..2] == "a " && p[..1] == "a";
    }
    assert p[..1] == "a" && "a"[..0] == [];
    assert ReplaceRuns(p, 2) == "a ";
    assert s[..|s| - 1] == p;
    var t := "a\tb";
    assert NoDoubleSpace(t);
    ReplaceRunsFixpoint(t, 2);
  }

  // ---------------------------------------------------------------------------
  // getColumns
  // ---------------------------------------------------------------------------

  /**
   * The article of getColumns: rich text gives its plain text, any other value
   * of the declared type its (string) cast, then trim(); null or a bool does not
   * match string|int|float|RichText, which is a TypeError.
   */
  function ColumnsArticle(c: Cell): (r: Result<string, Failure>)
    ensures r.Err? <==> c.Null? || c.Bool?
  {
    match c
    case Rich(p) => Ok(Trim(p))
    case Str(s) => Ok(Trim(s))
    case Int(n) => Ok(Trim(DecimalString(n)))
    case Float(repr) => Ok(Trim(repr))
    case _ => Err(TypeMismatch)
  }

  /** The record getColumns returns for row i, or the TypeError its signature raises. */
  function ColumnsOf(article: Cell, items: Grid, names: seq<string>, i: int): Result<Record, Failure> {
    var text :- ColumnsArticle(article);
    Ok(XlsxToArray.NamedColumns([Field("article", Str(text))], items, names, i))
  }

  /** getColumns($article, $items, $column_names, $i); the foreach is the one convertTo runs. */
  method GetColumns(article: Cell, items: Grid, names: seq<string>, i: int) returns (r: Result<Record, Failure>)
    ensures r == ColumnsOf(article, items, names, i)
  {
    var text: string;
    match article {
      case Rich(p) => text := p;
      case Str(s) => text := s;
      case Int(n) => text := DecimalString(n);
      case Float(repr) => text := repr;
      case _ => return Err(TypeMismatch);
    }
    var columns := XlsxToArray.ReadNamedColumns([Field("article", Str(Trim(text)))], items, names, i);
    return Ok(columns);
  }

  /**
   * With distinct column names other than "article", the keys are article
   * followed by the names in order; article holds the trimmed article text and
   * name j holds items[j + 1][i], trimmed when a string (null when missing).
   */
  lemma {:induction false} ColumnsLayout(article: Cell, items: Grid, names: seq<string>, i: int)
    requires ColumnsArticle(article).Ok?
    requires forall a, b :: 0 <= a < b < |names| ==> names[a] != names[b]
    requires forall j :: 0 <= j < |names| ==> names[j] != "article"
    ensures var cols := ColumnsOf(article, items, names, i).value;
      && FieldNames(cols) == ["article"] + names
      && FieldValue(cols, "article") == Some(Str(ColumnsArticle(article).value))
      && forall j :: 0 <= j < |names| ==> FieldValue(cols, names[j]) == Some(TrimIfString(CellAt(items, j + 1, i)))
  {
    var base := [Field("article", Str(ColumnsArticle(article).value))];
    assert FieldNames(base) == ["article"];
    assert XlsxToArray.FreshNames(base, names);
    XlsxToArray.NamedColumnsKeys(base, items, names, i);
    XlsxToArray.NamedColumnsKeepBase(base, items, names, i, "article");
    forall j | 0 <= j < |names|
      ensures FieldValue(XlsxToArray.NamedColumns(base, items, names, i), names[j]) == Some(TrimIfString(CellAt(items, j + 1, i)))
    {
      XlsxToArray.NamedColumnsValues(base, items, names, i, j);
    }
  }

  /**
   * The article getColumns produces agrees with convertTo's for strings, ints
   * and rich text; they differ on null (a TypeError here, '' there) and floats
   * (cast here, a TypeError there).
   */
  lemma {:induction false} ColumnsArticleAgrees(c: Cell)
    ensures c.Str? || c.Int? || c.Rich? ==> ColumnsArticle(c) == XlsxToArray.ArticleText(c)
    ensures c.Null? ==> ColumnsArticle(c).Err? && XlsxToArray.ArticleText(c) == Ok("")
    ensures c.Float? ==> ColumnsArticle(c) == Ok(Trim(c.repr)) && XlsxToArray.ArticleText(c).Err?
  {
    if c.Int? {
      DecimalUntrimmed(c.number);
    }
  }

  /** A decimal rendering neither starts nor ends with a character trim() strips. */
  lemma {:induction false} DecimalUntrimmed(n: int)
    ensures Trim(DecimalString(n)) == DecimalString(n)
  {
    var s := DecimalString(n);
    var d := Digits(if n < 0 then -n else n);
    assert IsDigit(d[0]) && IsDigit(d[|d| - 1]);
    if n < 0 {
      assert s[0] == '-' && s[|s| - 1] == d[|d| - 1];
    }
    TrimFixpoint(s);
  }

  // ---------------------------------------------------------------------------
  // throwIfTitleDoesntHaveSpecialCharacters
  // ---------------------------------------------------------------------------

  /** A title argument: string|bool. */
  datatype TitleArg = TextTitle(text: string) | FlagTitle(flag: bool)

  /** PriceListValidationException with its message. */
  datatype ValidationError = PriceListValidation(message: string)

  const EmptyLinesMessage: string :=
    "Проверте правильность прайса. Убедитесь что нет пустых строк, категорий и подкатегорий."

  const MarkerMessageHead: string := "Проверте правильность ввода категории или подкатегории \""
  const MarkerMessageTail: string :=
    "\".\nКаждая категория должна начинаться с символа ~, а подкатегория с символа *."

  /** The message for a title without a marker, with the title quoted in it. */
  function MarkerMessage(title: string): string {
    MarkerMessageHead + title + MarkerMessageTail
  }

  /** PHP's empty() on a string: '' and '0'. */
  predicate EmptyString(s: string) {
    s == "" || s == "0"
  }

  function ThrowIfTitleDoesntHaveSpecialCharacters(title: TitleArg, nextArticle: string): Outcome<ValidationError> {
    if EmptyString(nextArticle) then Pass
    else if title.FlagTitle? then Fail(PriceListValidation(EmptyLinesMessage))
    else if !StringIsCategory(Some(title.text)) && !StringIsSubCategory(Some(title.text))
    then Fail(PriceListValidation(MarkerMessage(title.text)))
    else Pass
  }

  /**
   * The validator passes when the next article is empty; otherwise a bool
   * title fails with the empty-lines message, and a text title passes exactly
   * when its first character after trimming is '~' or '*', failing with a
   * message that quotes the title.
   */
  lemma {:induction false} ValidatorCases(title: TitleArg, nextArticle: string)
    ensures EmptyString(nextArticle) ==> ThrowIfTitleDoesntHaveSpecialCharacters(title, nextArticle) == Pass
    ensures !EmptyString(nextArticle) && title.FlagTitle? ==>
      ThrowIfTitleDoesntHaveSpecialCharacters(title, nextArticle) == Fail(PriceListValidation(EmptyLinesMessage))
    ensures !EmptyString(nextArticle) && title.TextTitle? ==>
      (ThrowIfTitleDoesntHaveSpecialCharacters(title, nextArticle) == Pass <==>
       MarkedWith(title.text, '~') || MarkedWith(title.text, '*'))
    ensures !EmptyString(nextArticle) && title.TextTitle? && ThrowIfTitleDoesntHaveSpecialCharacters(title, nextArticle).Fail? ==>
      Contains(ThrowIfTitleDoesntHaveSpecialCharacters(title, nextArticle).error.message, title.text)
  {
    if title.TextTitle? {
      StringIsCategoryIff(Some(title.text));
      MessageQuotesTitle(title.text);
    }
  }

  lemma {:induction false} MessageQuotesTitle(title: string)
    ensures Contains(MarkerMessage(title), title)
  {
    ContainsMiddle(MarkerMessageHead, title, MarkerMessageTail);
  }

  /** A string stands in any string built around it. */
  lemma {:induction false} ContainsMiddle(head: string, t: string, tail: string)
    ensures Contains(head + t + tail, t)
  {
    assert OccursAt(head + t + tail, t, |head|);
  }

  /** A validator-approved title with a non-empty next article is a category or a subcategory. */
  lemma {:induction false} PassingTitleIsMarked(title: TitleArg, nextArticle: string)
    requires !EmptyString(nextArticle)
    requires ThrowIfTitleDoesntHaveSpecialCharacters(title, nextArticle) == Pass
    ensures title.TextTitle?
    ensures StringIsCategory(Some(title.text)) != StringIsSubCategory(Some(title.text))
  {
    MarkersExclusive(Some(title.text));
  }

  /**
   * The running title's initial '' does not pass once an article follows (it
   * fails with the marker message, not the empty-lines one); "Filters" fails
   * with a message naming it; "~Filters" passes.
   */
  lemma {:induction false} ValidatorExamples(nextArticle: string)
    requires !EmptyString(nextArticle)
    ensures ThrowIfTitleDoesntHaveSpecialCharacters(TextTitle(""), nextArticle) == Fail(PriceListValidation(MarkerMessage("")))
    ensures var r := ThrowIfTitleDoesntHaveSpecialCharacters(TextTitle("Filters"), nextArticle);
      r.Fail? && Contains(r.error.message, "Filters")
    ensures ThrowIfTitleDoesntHaveSpecialCharacters(TextTitle("~Filters"), nextArticle) == Pass
  {
    MarkersExclusive(Some(""));
    UnmarkedTitleFails("Filters", nextArticle);
    MessageQuotesTitle("Filters");
    MarkedTitlePasses("~Filters", nextArticle);
  }

  /** A title whose first character is neither whitespace nor a marker fails when an article follows. */
  lemma {:induction false} UnmarkedTitleFails(t: string, nextArticle: string)
    requires !EmptyString(nextArticle)
    requires t != [] && !IsTrimChar(t[0]) && t[0] != '~' && t[0] != '*'
    ensures ThrowIfTitleDoesntHaveSpecialCharacters(TextTitle(t), nextArticle) == Fail(PriceListValidation(MarkerMessage(t)))
  {
    LateMarkerIgnored(t, 0);
    MarkerStartsTrim(t, '*');
  }

  /** A title that starts with '~' passes. */
  lemma {:induction false} MarkedTitlePasses(t: string, nextArticle: string)
    requires t != [] && t[0] == '~'
    ensures ThrowIfTitleDoesntHaveSpecialCharacters(TextTitle(t), nextArticle) == Pass
  {
    assert MarkedWith(t, '~');
    StringIsCategoryIff(Some(t));
  }
}
