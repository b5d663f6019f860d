/**
 * What the three row loops (convertTo, convertToFish, convertToFeed) share:
 * each row either is skipped, sets the running title, or emits one record into
 * the bucket of the current title; an exception in any row ends the whole call.
 */
module RowLoop {
  import opened Outcomes
  import opened Cells
  import opened Buckets
  import opened ImageIndex

  /** What one row does to the loop's state. */
  datatype RowAction = Skip | SetTitle(title: Scalar) | Emit(record: Record)

  /** One row's outcome: an action, or the exception it raised. */
  type Row = Result<RowAction, Failure>

  /** The loop's mutable variables: $title and $result. */
  datatype State = State(title: Scalar, bucket: Bucket)

  /** $title = '' and $result = [] */
  const Start: State := State(Str(""), Empty)

  function Apply(st: State, a: RowAction): State {
    match a
    case Skip => st
    case SetTitle(t) => st.(title := t)
    case Emit(rec) => st.(bucket := Push(st.bucket, ArrayKey(st.title), rec))
  }

  /** A skipped row changes nothing; a title row changes only the title; a record row
      appends one record under the current title's key and touches no other key. */
  lemma {:induction false} ApplyEffect(st: State, a: RowAction, other: Key)
    ensures a.Skip? ==> Apply(st, a) == st
    ensures a.SetTitle? ==> Apply(st, a) == State(a.title, st.bucket)
    ensures a.Emit? ==> Apply(st, a).title == st.title
    ensures a.Emit? ==>
      RecordsUnder(Apply(st, a).bucket, ArrayKey(st.title)) == RecordsUnder(st.bucket, ArrayKey(st.title)) + [a.record]
    ensures a.Emit? && other != ArrayKey(st.title) ==>
      RecordsUnder(Apply(st, a).bucket, other) == RecordsUnder(st.bucket, other)
  {
    if a.Emit? {
      assert RecordsUnder(Apply(st, a).bucket, other) == RecordsUnder(Push(st.bucket, ArrayKey(st.title), a.record), other);
    }
  }

  /** One iteration: an exception propagates, otherwise the row's action is applied. */
  function Step(acc: Result<State, Failure>, row: Row): Result<State, Failure> {
    match acc
    case Err(e) => Err(e)
    case Ok(st) =>
      match row
      case Err(e) => Err(e)
      case Ok(a) => Ok(Apply(st, a))
  }

  /** The loop run over the rows in order, from the state `start`. */
  function RunRows(rows: seq<Row>, start: State): Result<State, Failure>
    decreases |rows|
  {
    if rows == [] then Ok(start) else Step(RunRows(rows[..|rows| - 1], start), rows[|rows| - 1])
  }

  /** The outcomes of the rows lo, lo + 1, ..., lo + n - 1, in order. */
  function RowsFrom(row: int -> Row, lo: int, n: nat): (rows: seq<Row>)
    ensures |rows| == n
    decreases n
  {
    if n == 0 then [] else RowsFrom(row, lo, n - 1) + [row(lo + n - 1)]
  }

  /** Entry k of the sequence is the outcome of row lo + k. */
  lemma {:induction false} RowsFromAt(row: int -> Row, lo: int, n: nat, k: nat)
    requires k < n
    ensures RowsFrom(row, lo, n)[k] == row(lo + k)
    decreases n
  {
    if k < n - 1 {
      RowsFromAt(row, lo, n - 1, k);
    }
  }

  lemma {:induction false} RunRowsPrefix(rows: seq<Row>, i: nat, start: State)
    requires i < |rows|
    ensures RunRows(rows[..i + 1], start) == Step(RunRows(rows[..i], start), rows[i])
  {
    assert rows[..i + 1][..i] == rows[..i];
  }

  /** Once a prefix of the rows has raised an exception, the whole run raises it. */
  lemma {:induction false} ErrorSticks(rows: seq<Row>, i: nat, start: State)
    requires i <= |rows| && RunRows(rows[..i], start).Err?
    ensures RunRows(rows, start) == RunRows(rows[..i], start)
    decreases |rows| - i
  {
    if i < |rows| {
      RunRowsPrefix(rows, i, start);
      ErrorSticks(rows, i + 1, start);
    } else {
      assert rows[..i] == rows;
    }
  }

  /**
   * One more row: when the prefix ran to `st` and the row's outcome is
   * `next`, the longer prefix runs to `next`, and an exception there is the
   * outcome of the whole run.
   */
  lemma {:induction false} RunRowsStep(rows: seq<Row>, k: nat, start: State, st: State, next: Result<State, Failure>)
    requires k < |rows| && RunRows(rows[..k], start) == Ok(st) && next == Step(Ok(st), rows[k])
    ensures RunRows(rows[..k + 1], start) == next
    ensures next.Err? ==> RunRows(rows, start) == next
  {
    RunRowsPrefix(rows, k, start);
    if next.Err? {
      ErrorSticks(rows, k + 1, start);
    }
  }

  /** The run fails exactly when some row raises, and then no bucket is returned at all. */
  lemma {:induction false} RunRowsFails(rows: seq<Row>, start: State)
    ensures RunRows(rows, start).Err? <==> exists i :: 0 <= i < |rows| && rows[i].Err?
  {
    if rows != [] {
      var n := |rows| - 1;
      RunRowsFails(rows[..n], start);
      assert forall i :: 0 <= i < n ==> rows[..n][i] == rows[i];
      if exists i :: 0 <= i < |rows| && rows[i].Err? {
        var i :| 0 <= i < |rows| && rows[i].Err?;
        if i < n {
          assert rows[..n][i].Err?;
        }
      }
    }
  }

  /** A run over consecutive rows fails exactly when one of those rows raises. */
  lemma {:induction false} RowsFromFails(row: int -> Row, lo: int, n: nat, start: State)
    ensures RunRows(RowsFrom(row, lo, n), start).Err? <==> exists i :: lo <= i < lo + n && row(i).Err?
  {
    var rows := RowsFrom(row, lo, n);
    RunRowsFails(rows, start);
    if exists i :: lo <= i < lo + n && row(i).Err? {
      var i :| lo <= i < lo + n && row(i).Err?;
      RowsFromAt(row, lo, n, i - lo);
    }
    if exists k :: 0 <= k < |rows| && rows[k].Err? {
      var k :| 0 <= k < |rows| && rows[k].Err?;
      RowsFromAt(row, lo, n, k);
    }
  }

  // ---------------------------------------------------------------------------
  // The same run read as a flat trace of (title key, record) pairs
  // ---------------------------------------------------------------------------

  /** The running title after the rows: the last title set, or the initial one. */
  function TitleAfter(rows: seq<Row>, initial: Scalar): Scalar
    decreases |rows|
  {
    if rows == [] then initial
    else match rows[|rows| - 1]
      case Ok(SetTitle(t)) => t
      case _ => TitleAfter(rows[..|rows| - 1], initial)
  }

  /** The records the rows emit, in row order, each with the key of the title then in force. */
  function Emitted(rows: seq<Row>, initial: Scalar): seq<(Key, Record)>
    decreases |rows|
  {
    if rows == [] then []
    else
      var prefix := rows[..|rows| - 1];
      Emitted(prefix, initial) +
        match rows[|rows| - 1]
        case Ok(Emit(rec)) => [(ArrayKey(TitleAfter(prefix, initial)), rec)]
        case _ => []
  }

  /** The records of a trace that carry the given key, in trace order. */
  function RecordsFor(trace: seq<(Key, Record)>, k: Key): seq<Record> {
    if trace == [] then []
    else RecordsFor(trace[..|trace| - 1], k) + (if trace[|trace| - 1].0 == k then [trace[|trace| - 1].1] else [])
  }

  /** A successful run ends with the last title set. */
  lemma {:induction false} RunRowsTitle(rows: seq<Row>, start: State)
    requires RunRows(rows, start).Ok?
    ensures RunRows(rows, start).value.title == TitleAfter(rows, start.title)
  {
    if rows != [] {
      var prefix := rows[..|rows| - 1];
      assert RunRows(prefix, start).Ok?;
      RunRowsTitle(prefix, start);
    }
  }

  /**
   * Under every key, a successful run leaves the earlier records followed by
   * exactly the records that rows emitted under that key, in row order.
   */
  lemma {:induction false} RunRowsRecords(rows: seq<Row>, start: State, k: Key)
    requires RunRows(rows, start).Ok?
    ensures RecordsUnder(RunRows(rows, start).value.bucket, k) ==
      RecordsUnder(start.bucket, k) + RecordsFor(Emitted(rows, start.title), k)
  {
    if rows != [] {
      var n := |rows| - 1;
      var prefix := rows[..n];
      assert RunRows(prefix, start).Ok?;
      RunRowsRecords(prefix, start, k);
      RunRowsTitle(prefix, start);
      RecordsStep(RunRows(prefix, start).value, rows[n], start.bucket, Emitted(prefix, start.title), k);
    }
  }

  /** The step of RunRowsRecords: a successful row adds to the key exactly what it adds to the trace. */
  lemma {:induction false} RecordsStep(st: State, row: Row, initial: Bucket, trace: seq<(Key, Record)>, k: Key)
    requires Step(Ok(st), row).Ok?
    requires RecordsUnder(st.bucket, k) == RecordsUnder(initial, k) + RecordsFor(trace, k)
    ensures RecordsUnder(Step(Ok(st), row).value.bucket, k) ==
      RecordsUnder(initial, k) + RecordsFor(trace + (match row case Ok(Emit(rec)) => [(ArrayKey(st.title), rec)] case _ => []), k)
  {
    if row.value.Emit? {
      PushTraceStep(st.bucket, ArrayKey(st.title), row.value.record, initial, trace, k);
    } else {
      assert trace + [] == trace;
    }
  }

  /** A record pushed under `key` lands in the bucket exactly as it lands in the trace. */
  lemma {:induction false} PushTraceStep(b: Bucket, key: Key, rec: Record, initial: Bucket, trace: seq<(Key, Record)>, k: Key)
    requires RecordsUnder(b, k) == RecordsUnder(initial, k) + RecordsFor(trace, k)
    ensures RecordsUnder(Push(b, key, rec), k) == RecordsUnder(initial, k) + RecordsFor(trace + [(key, rec)], k)
  {
    assert RecordsUnder(Push(b, key, rec), k) == RecordsUnder(b, k) + (if key == k then [rec] else []);
    RecordsForAppend(trace, key, rec, k);
  }

  /** One more entry in the trace adds its record under its own key only. */
  lemma {:induction false} RecordsForAppend(trace: seq<(Key, Record)>, key: Key, rec: Record, k: Key)
    ensures RecordsFor(trace + [(key, rec)], k) == RecordsFor(trace, k) + (if key == k then [rec] else [])
  {
    var full := trace + [(key, rec)];
    assert full[..|full| - 1] == trace;
  }

  /** Keys stay distinct, and the bucket grows by one record per emitting row. */
  lemma {:induction false} RunRowsShape(rows: seq<Row>, start: State)
    requires RunRows(rows, start).Ok? && Valid(start.bucket)
    ensures Valid(RunRows(rows, start).value.bucket)
    ensures Size(RunRows(rows, start).value.bucket) == Size(start.bucket) + |Emitted(rows, start.title)|
  {
    if rows != [] {
      var n := |rows| - 1;
      var prefix := rows[..n];
      assert RunRows(rows, start) == Step(RunRows(prefix, start), rows[n]);
      assert RunRows(prefix, start).Ok?;
      RunRowsShape(prefix, start);
      var st := RunRows(prefix, start).value;
      if rows[n].value.Emit? {
        PushKeepsShape(st.bucket, ArrayKey(st.title), rows[n].value.record);
      }
    }
  }

  /** Conversions start from an empty bucket, so each key holds exactly its emitted records. */
  lemma {:induction false} RunFromStart(rows: seq<Row>, k: Key)
    requires RunRows(rows, Start).Ok?
    ensures RecordsUnder(RunRows(rows, Start).value.bucket, k) == RecordsFor(Emitted(rows, Str("")), k)
    ensures Valid(RunRows(rows, Start).value.bucket)
    ensures Size(RunRows(rows, Start).value.bucket) == |Emitted(rows, Str(""))|
  {
    RunRowsRecords(rows, Start, k);
    RunRowsShape(rows, Start);
  }

  // ---------------------------------------------------------------------------
  // Pieces of the row rules shared by the converters
  // ---------------------------------------------------------------------------

  /** A value passed to getImageFrom's ?string parameter; anything else is a TypeError. */
  function LookupArgument(c: Cell): (r: Result<Option<string>, Failure>)
    ensures r.Ok? <==> c.Null? || c.Str?
    ensures c.Null? ==> r == Ok(None)
    ensures c.Str? ==> r == Ok(Some(c.text))
  {
    match c
    case Null => Ok(None)
    case Str(s) => Ok(Some(s))
    case _ => Err(TypeMismatch)
  }

  /**
   * The title rule of convertTo and convertToFeed: no meaningful value skips
   * the row; exactly one makes it the title unless it is an object; two or
   * more emit the columns with the image looked up by the article.
   */
  function SingleValueTitleRule(cols: Record, images: Images, category: string): (row: Row)
    ensures row.Ok? && row.value.SetTitle? ==> |NotNulls(cols)| == 1
    ensures (row.Ok? && row.value.Emit?) || row.Err? ==> |NotNulls(cols)| >= 2
  {
    var kept := NotNulls(cols);
    if |kept| == 0 then Ok(Skip)
    else if |kept| == 1 then
      if kept[0].value.Rich? then Ok(Skip) else Ok(SetTitle(kept[0].value))
    else
      var name :- LookupArgument(FieldValue(cols, "article").GetOr(Null));
      Ok(Emit(PutField(cols, "image", Str(GetImageFrom(images, name, category)))))
  }

  /** The single-value title rule as the loop bodies run it on $title and $result. */
  method ApplyTitleRule(columns: Record, images: Images, category: string, title: Scalar, result: Bucket)
    returns (next: Result<State, Failure>)
    ensures next == Step(Ok(State(title, result)), SingleValueTitleRule(columns, images, category))
  {
    var notNulls := NotNulls(columns);
    if |notNulls| == 0 {
      return Ok(State(title, result));
    }
    if |notNulls| == 1 {
      if notNulls[0].value.Rich? {
        return Ok(State(title, result));
      }
      return Ok(State(notNulls[0].value, result));
    }
    var articleValue := FieldValue(columns, "article").GetOr(Null);
    if !(articleValue.Null? || articleValue.Str?) {
      return Err(TypeMismatch);
    }
    var image := GetImageFrom(images, if articleValue.Str? then Some(articleValue.text) else None, category);
    return Ok(State(title, Push(result, ArrayKey(title), PutField(columns, "image", Str(image)))));
  }

  function MeaningfulCount(cols: Record): nat {
    |NotNulls(cols)|
  }

  /** The three outcomes of the single-value title rule, by the number of meaningful values. */
  lemma {:induction false} SingleValueTitleRuleCases(cols: Record, images: Images, category: string)
    ensures MeaningfulCount(cols) == 0 <==> (forall f :: f in cols ==> !Meaningful(f.value))
    ensures MeaningfulCount(cols) == 0 ==> SingleValueTitleRule(cols, images, category) == Ok(Skip)
    ensures MeaningfulCount(cols) == 1 ==>
      var v := NotNulls(cols)[0].value;
      && Meaningful(v) && v in FieldValues(cols)
      && SingleValueTitleRule(cols, images, category) == if v.Rich? then Ok(Skip) else Ok(SetTitle(v))
    ensures MeaningfulCount(cols) >= 2 && FieldValue(cols, "article") == Some(Str(ArticleOf(cols))) ==>
      SingleValueTitleRule(cols, images, category) ==
        Ok(Emit(PutField(cols, "image", Str(GetImageFrom(images, Some(ArticleOf(cols)), category)))))
  {
    NotNullsMembers(cols);
    if MeaningfulCount(cols) > 0 {
      assert NotNulls(cols)[0] in NotNulls(cols);
    }
    if MeaningfulCount(cols) == 1 {
      var f := NotNulls(cols)[0];
      assert f in NotNulls(cols);
      assert f in cols;
      var k :| 0 <= k < |cols| && cols[k] == f;
      assert FieldValues(cols)[k] == f.value;
    }
  }

  /** The title rule's effect on the loop state when a row holds at most one meaningful value. */
  lemma {:induction false} TitleRuleStep(cols: Record, images: Images, category: string, st: State)
    requires MeaningfulCount(cols) <= 1
    ensures var next := Step(Ok(st), SingleValueTitleRule(cols, images, category));
      && (MeaningfulCount(cols) == 0 ==> next == Ok(st))
      && (MeaningfulCount(cols) == 1 ==>
            var v := NotNulls(cols)[0].value;
            Meaningful(v) && v in FieldValues(cols) && next == if v.Rich? then Ok(st) else Ok(State(v, st.bucket)))
  {
    SingleValueTitleRuleCases(cols, images, category);
  }

  function FieldValues(cols: Record): seq<Cell> {
    seq(|cols|, k requires 0 <= k < |cols| => cols[k].value)
  }

  /** The article text of a record whose "article" field holds a string. */
  function ArticleOf(cols: Record): string {
    match FieldValue(cols, "article")
    case Some(Str(s)) => s
    case _ => ""
  }
}
