/**
 * Spreadsheet cells as the converters see them, the records built from them,
 * and the PHP rules for what counts as a blank value, what is truthy and how
 * a value becomes an array key.
 */
module Cells {
  import opened Outcomes
  import opened PhpText
  import opened PhpInt

  /**
   * A value returned by PhpSpreadsheet's Cell::getValue(). A float keeps only
   * the text PHP's (string) cast gives for it; a rich-text object keeps the text
   * RichText::getPlainText() gives for it.
   */
  datatype Cell =
    | Null
    | Str(text: string)
    | Int(number: Int64)
    | Float(repr: string)
    | Bool(flag: bool)
    | Rich(plain: string)

  /** Every cell that is not an object (is_object() is false). */
  type Scalar = c: Cell | !c.Rich? witness Null

  /** Columns of a sheet, each an ordered list of cells: grid[column][row]. */
  type Grid = seq<seq<Cell>>

  /** The exceptions the converters can raise. */
  datatype Failure =
    | TypeMismatch                        // a TypeError raised under strict_types
    | ArgumentCount                       // an ArgumentCountError: too few arguments
    | UnsupportedArticle(message: string) // the feed converter's own exception

  /** $grid[$col][$row], which PHP reads as null when the index is missing. */
  function CellAt(grid: Grid, col: int, row: int): (c: Cell)
    ensures 0 <= col < |grid| && 0 <= row < |grid[col]| ==> c == grid[col][row]
    ensures !(0 <= col < |grid| && 0 <= row < |grid[col]|) ==> c == Null
  {
    if 0 <= col < |grid| && 0 <= row < |grid[col]| then grid[col][row] else Null
  }

  /** The getNotNulls filter: not null, not '' and not the string '0.00' (compared strictly). */
  predicate Meaningful(c: Cell) {
    !(c.Null? || c == Str("") || c == Str("0.00"))
  }

  /** Zero numbers and false are values, not blanks. */
  lemma {:induction false} ZerosAreMeaningful()
    ensures Meaningful(Int(0)) && Meaningful(Float("0")) && Meaningful(Bool(false))
    ensures Meaningful(Str("0")) && !Meaningful(Str("0.00")) && !Meaningful(Str(""))
  {
  }

  /** PHP's conversion of a value to bool. */
  predicate Truthy(c: Cell) {
    match c
    case Null => false
    case Str(s) => s != "" && s != "0"
    case Int(i) => i != 0
    case Float(repr) => repr != "0" && repr != "-0"
    case Bool(b) => b
    case Rich(_) => true
  }

  /** is_string($v) ? trim($v) : $v */
  function TrimIfString(c: Cell): (r: Cell)
    ensures c.Str? <==> r.Str?
    ensures c.Str? ==> r.text == Trim(c.text)
    ensures !c.Str? ==> r == c
  {
    if c.Str? then Str(Trim(c.text)) else c
  }

  // ---------------------------------------------------------------------------
  // Array keys
  // ---------------------------------------------------------------------------

  /**
   * A key of a PHP array. PHP arrays have only integer and string keys; a float
   * key is kept here by its text since floats carry no number in this model.
   */
  datatype Key = IntKey(number: int) | StrKey(text: string) | FloatKey(repr: string)

  /** The key $result[$title] uses for a title value. */
  function ArrayKey(c: Scalar): Key {
    match c
    case Null => StrKey("")
    case Str(s) => if IsIntegerKey(s) then IntKey(SignedValue(s)) else StrKey(s)
    case Int(i) => IntKey(i)
    case Float(repr) => FloatKey(repr)
    case Bool(b) => IntKey(if b then 1 else 0)
  }

  /** A title "12" and a title 12 fill the same bucket. */
  lemma {:induction false} NumericTitleSharesKey(n: Int64)
    ensures ArrayKey(Str(DecimalString(n))) == ArrayKey(Int(n))
  {
    DecimalStringIsKey(n);
  }

  /** Different string titles never share a bucket. */
  lemma {:induction false} StringKeysInjective(s: string, t: string)
    requires ArrayKey(Str(s)) == ArrayKey(Str(t))
    ensures s == t
  {
    if IsIntegerKey(s) && IsIntegerKey(t) {
      IntegerKeyIsDecimalString(s);
      IntegerKeyIsDecimalString(t);
    }
  }

  /** Non-canonical numeric strings stay string keys. */
  lemma {:induction false} NonCanonicalNumbersStayStrings()
    ensures ArrayKey(Str("-0")) == StrKey("-0")
    ensures ArrayKey(Str("007")) == StrKey("007")
    ensures ArrayKey(Str("0")) == IntKey(0)
  {
    assert "-0"[1..] == "0";
    assert !IsCanonicalDigits("007");
  }

  // ---------------------------------------------------------------------------
  // Records: ordered arrays with string keys
  // ---------------------------------------------------------------------------

  datatype Field = Field(name: string, value: Cell)

  /** A product record: an ordered array from field name to value. */
  type Record = seq<Field>

  function FieldNames(r: Record): (names: seq<string>)
    ensures |names| == |r|
    ensures forall k :: 0 <= k < |r| ==> names[k] == r[k].name
  {
    seq(|r|, k requires 0 <= k < |r| => r[k].name)
  }

  /** A record whose fields carry the given names, position by position. */
  lemma {:induction false} FieldNamesAre(r: Record, names: seq<string>)
    requires |r| == |names| && forall k :: 0 <= k < |r| ==> r[k].name == names[k]
    ensures FieldNames(r) == names
  {
  }

  /** The position of the first field at or after `from` called `name`, or None when there is none. */
  function FieldIndexFrom(r: Record, name: string, from: nat): (idx: Option<nat>)
    requires from <= |r|
    ensures idx.Some? ==> from <= idx.value < |r| && r[idx.value].name == name
    ensures forall j :: from <= j < |r| && (idx.None? || j < idx.value) ==> r[j].name != name
    decreases |r| - from
  {
    if from == |r| then None
    else if r[from].name == name then Some(from)
    else FieldIndexFrom(r, name, from + 1)
  }

  /** The position of the first field called `name`, or None when there is none. */
  function FieldIndex(r: Record, name: string): (idx: Option<nat>)
    ensures idx.Some? ==> idx.value < |r| && r[idx.value].name == name
    ensures forall j :: 0 <= j < |r| && (idx.None? || j < idx.value) ==> r[j].name != name
  {
    FieldIndexFrom(r, name, 0)
  }

  /** A key is present exactly when FieldIndex finds it. */
  lemma {:induction false} FieldIndexFinds(r: Record, name: string)
    ensures FieldIndex(r, name).Some? <==> name in FieldNames(r)
  {
    if name in FieldNames(r) {
      var j :| 0 <= j < |r| && FieldNames(r)[j] == name;
      assert r[j].name == name;
    }
  }

  /** Two records whose names agree position by position find every key at the same place. */
  lemma {:induction false} FieldIndexAgree(r: Record, t: Record, name: string)
    requires |r| <= |t|
    requires forall j :: 0 <= j < |r| ==> r[j].name == t[j].name
    requires FieldIndex(r, name).Some? || forall j :: |r| <= j < |t| ==> t[j].name != name
    ensures FieldIndex(t, name) == FieldIndex(r, name)
  {
    var x, y := FieldIndex(r, name), FieldIndex(t, name);
    if x.Some? {
      assert t[x.value].name == name;
    }
    if y.Some? {
      assert y.value < |r|;
      assert r[y.value].name == name;
    }
  }

  /** $record[$name], or None when the record has no such key. */
  function FieldValue(r: Record, name: string): Option<Cell> {
    match FieldIndex(r, name)
    case Some(i) => Some(r[i].value)
    case None => None
  }

  /** $record[$name] = $v: overwrites in place when the key exists, else appends. */
  function PutField(r: Record, name: string, v: Cell): Record {
    match FieldIndex(r, name)
    case Some(i) => r[i := Field(name, v)]
    case None => r + [Field(name, v)]
  }

  lemma {:induction false} PutFieldNames(r: Record, name: string, v: Cell)
    ensures FieldNames(PutField(r, name, v)) ==
      if name in FieldNames(r) then FieldNames(r) else FieldNames(r) + [name]
  {
    FieldIndexFinds(r, name);
    var p := PutField(r, name, v);
    if name in FieldNames(r) {
      assert FieldNames(p) == FieldNames(r);
    } else {
      assert FieldNames(p) == FieldNames(r) + [name];
    }
  }

  /** A key the record lacks is appended at the end, as array_merge with a fresh key does. */
  lemma {:induction false} PutFieldAppends(r: Record, name: string, v: Cell)
    requires name !in FieldNames(r)
    ensures PutField(r, name, v) == r + [Field(name, v)]
  {
    FieldIndexFinds(r, name);
  }

  lemma {:induction false} PutFieldValue(r: Record, name: string, v: Cell, other: string)
    ensures FieldValue(PutField(r, name, v), name) == Some(v)
    ensures other != name ==> FieldValue(PutField(r, name, v), other) == FieldValue(r, other)
  {
    var p := PutField(r, name, v);
    match FieldIndex(r, name)
    case Some(i) =>
      FieldIndexAgree(r, p, name);
      if other != name {
        FieldIndexAgree(r, p, other);
      }
    case None =>
      var n := |r|;
      assert p[n].name == name;
      if other != name {
        FieldIndexAgree(r, p, other);
      }
      assert p[..n] == r;
  }

  /** The getNotNulls of XlsxToArray: the meaningful fields, keys kept, in order. */
  function NotNulls(r: Record): (kept: Record)
    ensures |kept| <= |r|
    decreases |r|
  {
    if r == [] then []
    else
      var n := |r| - 1;
      NotNulls(r[..n]) + (if Meaningful(r[n].value) then [r[n]] else [])
  }

  /** The kept fields are exactly the record's meaningful fields. */
  lemma {:induction false} NotNullsMembers(r: Record)
    ensures forall f :: f in NotNulls(r) <==> f in r && Meaningful(f.value)
    decreases |r|
  {
    if r != [] {
      var n := |r| - 1;
      NotNullsMembers(r[..n]);
      assert r == r[..n] + [r[n]];
    }
  }

  /** Filtering distributes over concatenation, so the original order is kept. */
  lemma {:induction false} NotNullsAppend(a: Record, b: Record)
    ensures NotNulls(a + b) == NotNulls(a) + NotNulls(b)
    decreases |b|
  {
    if b != [] {
      var ab := a + b;
      var n := |b| - 1;
      assert ab[..|ab| - 1] == a + b[..n];
      assert ab[|ab| - 1] == b[n];
      NotNullsAppend(a, b[..n]);
    } else {
      assert a + b == a;
    }
  }

  /** The first kept field is the first meaningful field of the record. */
  lemma {:induction false} NotNullsFirst(r: Record, k: nat)
    requires k < |r| && Meaningful(r[k].value)
    requires forall j :: 0 <= j < k ==> !Meaningful(r[j].value)
    ensures NotNulls(r) != [] && NotNulls(r)[0] == r[k]
    decreases |r|
  {
    var n := |r| - 1;
    var p := r[..n];
    if k < n {
      NotNullsFirst(p, k);
    } else {
      NotNullsMembers(p);
    }
  }
}
