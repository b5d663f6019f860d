# Price-list converters of aquam, modelled in Dafny

aquam reads a multi-sheet price-list workbook and turns each sheet into category buckets. The sheets are fish, equipment, feed, chemistry and aquariums. A sheet is a grid of columns, each an ordered list of cells. A converter walks the rows and keeps a running title. For each row it does one of three things:

- skips a blank row;
- adopts the row as the new title;
- appends one product record to the bucket of the current title, stamped with an image URL.

The image URL comes from a per-category lookup file, with a placeholder URL when nothing matches.

This project models the converters in `app/Converters`:

- the generic `convertTo` of `XlsxToArray`, which applies the single-value title rule;
- the `convertToFish` row loop of the `CanConvertToFish` trait (rows from 3, title from column 0, totals lines dropped);
- the `convertToFeed` loop of the `CanConvertToFeed` trait (its own article rules and exception);
- the shared helpers:
  - `getNotNulls`;
  - the image-key normalisation and lookup;
  - the fold of `key|url` lines into a dictionary;
  - the `~`/`*` marker predicates and the title validator;
  - `removeMultipleSpaces` and `getColumns` of the abstract `XlsToArray`;
- the composition done by `convert()`.

Modules:

| module | file | models |
|---|---|---|
| `Outcomes` | outcomes.dfy | `Option`, `Result` and the outcome of a void function that may throw |
| `PhpText` | php_text.dfy | `trim`, `mb_strtolower`, `str_starts_with`, `str_contains`, the two `preg_replace` whitespace rules |
| `PhpInt` | php_int.dfy | 64-bit integers, `(string) $int`, PHP's integer-string array keys |
| `Cells` | cells.dfy | cell values, truthiness, array keys, ordered records, the meaningful-value filter |
| `Buckets` | buckets.dfy | `$result[$title][]`: an ordered map from key to records |
| `ImageIndex` | image_index.dfy | the lookup dictionary, its fold, the lookup key and the placeholder fallback |
| `RowLoop` | row_loop.dfy | the loop shared by the three converters: row actions, the run from the end, the single-value title rule |
| `XlsxToArray` | xlsx_to_array.dfy | `convertTo`, its column reading, `convert()` |
| `CanConvertToFish` | can_convert_to_fish.dfy | `convertToFish` |
| `CanConvertToFeed` | can_convert_to_feed.dfy | `convertToFeed`, as written and corrected |
| `XlsToArray` | xls_to_array.dfy | `getNotNulls` (re-indexed), the marker predicates, `removeMultipleSpaces`, `getColumns`, the validator |

## How the model reads the PHP

Cells:

- A cell is `Null | Str | Int | Float(repr) | Bool | Rich(plain)`.
- A float keeps only the text that `(string)` gives for it; it has no numeric meaning.
- Rich text keeps its plain text.
- A missing index `$items[$k][$i]` reads as `Null` (PHP warns and gives null).
- Strings are sequences of Unicode characters, while `trim`, `preg_replace` without `/u` and `str_starts_with` work on bytes. For valid UTF-8 the two readings agree: no byte of a multibyte character is a trim character or matches `\s`, so those functions never split a character.

Errors:

- The files declare `strict_types`. A value of the wrong type reaching `trim`, `str_contains` or a typed parameter is a `TypeError`. It is modelled as the outcome `Failure.TypeMismatch`, not excluded by a precondition.
- `count($items[0])` on a sheet without columns is a `TypeError` too.
- The feed trait's own exception is `UnsupportedArticle(message)`.
- A call with too few arguments is `ArgumentCount`.

Records and buckets:

- Records are ordered arrays with string keys. `PutField` has PHP's semantics: writing an existing key overwrites it in place, a new key goes last.
- A bucket key is computed the way PHP converts array keys. A canonical decimal string such as `"12"` becomes the integer key 12, so it shares a bucket with the integer title 12. `"007"` and `"-0"` stay strings, and a bool becomes 0 or 1.

Row loops:

- Each row loop is a `method` with a `while` loop over the rows.
- It is proved against `RunRows`, which folds the row outcomes from the end; an exception in any row ends the call.
- The loop invariant is that the state after `i` rows is `RunRows` of the first `i` row outcomes.
- The lemmas about `RunRows` then give the grouping and order properties for all three converters at once.

## Model

| member | source | states |
|---|---|---|
| `Cells.NotNulls` | app/Converters/XlsxToArray.php:119-124 | the meaningful fields in order, with their keys; no longer than the record |
| `Cells.Meaningful` | app/Converters/XlsxToArray.php:121-123 | the filter's test: a field is kept unless it is null, the string '' or the string '0.00', compared strictly (`ZerosAreMeaningful` fixes the cases) |
| `Cells.Truthy` | app/Converters/CanConvertToFish.php:35 | PHP's conversion to bool behind `$first_column_value &&`: null, '', '0', 0, 0.0 and false are false; other values and objects are true |
| `Cells.NotNullsMembers` | app/Converters/XlsxToArray.php:119-124 | a field is kept exactly when it is in the record and its value is not null, not '' and not the string '0.00' |
| `Cells.NotNullsAppend` | app/Converters/XlsxToArray.php:121-123 | the filter distributes over concatenation, so the kept fields are in their original order |
| `Cells.NotNullsFirst` | app/Converters/XlsxToArray.php:121-123 | the first kept field is the first meaningful field (what `current()` returns) |
| `Cells.ZerosAreMeaningful` | app/Converters/XlsxToArray.php:122 | int 0, float 0, false and "0" are kept; '' and '0.00' are not |
| `Cells.CellAt` | app/Converters/XlsxToArray.php:149 | a cell inside the grid is read as stored; an index outside it reads as null |
| `Cells.TrimIfString` | app/Converters/XlsxToArray.php:150 | a string is trimmed and stays a string; every other value passes through unchanged |
| `Cells.ArrayKey` | app/Converters/XlsxToArray.php:171 | PHP's conversion of a title into an array key: canonical integer strings and bools become integers, other strings stay |
| `Cells.NumericTitleSharesKey` | app/Converters/XlsxToArray.php:171 | the title "n" and the integer title n fill the same bucket |
| `Cells.StringKeysInjective` | app/Converters/XlsxToArray.php:171 | two different string titles never share a bucket |
| `Cells.NonCanonicalNumbersStayStrings` | app/Converters/XlsxToArray.php:171 | "-0" and "007" stay string keys while "0" becomes the integer key 0 |
| `Cells.PutField` | app/Converters/XlsxToArray.php:150 | `$columns[$name] = …`, stated by `PutFieldNames`, `PutFieldValue` and `PutFieldAppends` |
| `Cells.PutFieldNames` | app/Converters/XlsxToArray.php:150 | writing a key keeps the key order when the key exists and appends it otherwise |
| `Cells.PutFieldValue` | app/Converters/XlsxToArray.php:150 | after writing, the key holds the new value and every other key is unchanged |
| `Cells.PutFieldAppends` | app/Converters/XlsxToArray.php:171 | `array_merge` with a fresh key appends exactly one field at the end |
| `Cells.FieldIndexFinds` | app/Converters/XlsxToArray.php:169 | `$columns['article']` is found exactly when the key is among the record's keys |
| `Buckets.Push` | app/Converters/XlsxToArray.php:171 | the record goes last under its key, no other key changes, a first-used key goes last in the order |
| `Buckets.PushKeepsShape` | app/Converters/XlsxToArray.php:171 | each key is listed once before and after a push, and a push adds exactly one record |
| `ImageIndex.DictionaryOf` | app/Converters/XlsxToArray.php:71-79 | the fold of the file's lines into the dictionary, read through `DictionaryOfDefines` |
| `ImageIndex.GetImagesFromCsv` | app/Converters/XlsxToArray.php:59-81 | a missing file gives null; otherwise the while loop yields the dictionary `DictionaryOf` the lines |
| `ImageIndex.DictionaryOfDefines` | app/Converters/XlsxToArray.php:71-79 | a key is present exactly when some two-field line has it as its lowercased first field; it maps to the last such line's second field |
| `ImageIndex.GetImageFrom` | app/Converters/XlsxToArray.php:113-117 | the URL is the placeholder or one of the category's URLs; the key is the corrected `LookupKey` (see Left out) |
| `ImageIndex.LookupInLoadedFile` | app/Converters/XlsxToArray.php:113-117 | the lookup returns the URL of the last line defining the normalised key, and the placeholder when no line does |
| `ImageIndex.MissingFileGivesPlaceholder` | app/Converters/XlsToArray.php:111-115 | a category whose file is missing answers every lookup with the placeholder |
| `ImageIndex.LookupKeyAsWritten` | app/Converters/XlsxToArray.php:115 | the key as the code computes it: trim, then every whitespace run to one space, then lowercase |
| `ImageIndex.LookupKey` | app/Converters/XlsxToArray.php:115 | the corrected key of the first finding: collapse, then trim, then lowercase |
| `ImageIndex.LookupKeyShape` | app/Converters/XlsxToArray.php:115 | the lookup key has no whitespace at either end, no two whitespace characters in a row, and only plain spaces |
| `ImageIndex.LookupKeyIdempotent` | app/Converters/XlsxToArray.php:115 | normalising a normalised key gives the same key |
| `ImageIndex.LookupNormalisedTwice` | app/Converters/XlsxToArray.php:113-117 | looking up an already normalised key finds the same image as the raw name |
| `ImageIndex.LookupKeyAsWrittenKeepsEdgeSpace` | app/Converters/XlsxToArray.php:115 | as written, "\fa" gets the key " a", and normalising " a" gives "a": the written key is not idempotent |
| `PhpText.Trim` | app/Converters/XlsxToArray.php:145 | the result stands inside the input and neither starts nor ends with a character trim() strips |
| `PhpText.TrimStripsOnlyEdges` | app/Converters/XlsxToArray.php:145 | the result stands in the input at some offset, and every character before that offset and after the result is one trim() strips, so nothing else is removed |
| `PhpText.TrimFixpoint` | app/Converters/XlsxToArray.php:145 | a string that neither starts nor ends with such a character is its own trim |
| `PhpText.Lower` | app/Converters/XlsxToArray.php:115 | `mb_strtolower`, character by character: the length is kept and each character is lowered by `LowerChar` (ASCII and Cyrillic capitals) |
| `PhpText.LowerIdempotent` | app/Converters/XlsxToArray.php:115 | lowercasing twice is lowercasing once |
| `PhpText.ReplaceRunsNoDoubleSpace` | app/Converters/XlsToArray.php:138-141 | after either whitespace replacement no two whitespace characters are adjacent |
| `PhpText.ReplaceRunsKeepsNonSpace` | app/Converters/XlsToArray.php:138-141 | only whitespace is replaced: the other characters survive in order |
| `PhpText.CollapseOnlyPlainSpaces` | app/Converters/XlsxToArray.php:115 | after the one-or-more replacement every whitespace character is a plain space |
| `PhpText.ReplaceRunsFixpoint` | app/Converters/XlsToArray.php:140 | a string without double whitespace is left alone by the two-or-more replacement (and by the one-or-more one when it has only plain spaces) |
| `PhpText.ReplaceRunsIdempotent` | app/Converters/XlsxToArray.php:115 | both replacements are idempotent |
| `PhpText.ReplaceRuns` | app/Converters/XlsToArray.php:140 | the replacement of every maximal whitespace run of at least `least` characters by one space; what it means is stated by `ReplaceRunsSplit` and `ReplaceRunsOfRun` |
| `PhpText.ReplaceRunsSplit` | app/Converters/XlsToArray.php:140 | a non-whitespace character splits the replacement: each side is replaced on its own and the character stays in place |
| `PhpText.ReplaceRunsOfRun` | app/Converters/XlsToArray.php:140 | a whole whitespace run becomes exactly one space when it has at least `least` characters and is kept as it is when shorter |
| `PhpText.CollapseSpaces` | app/Converters/XlsxToArray.php:115 | `preg_replace('!\s+!', ' ', …)` as the replacement of runs of one or more |
| `PhpText.CollapseSpacesRuns` | app/Converters/XlsxToArray.php:115 | a non-whitespace character splits the collapse, and every whitespace run, even a single character, becomes exactly one space |
| `PhpInt.DecimalStringIsKey` | app/Converters/XlsxToArray.php:145 | `(string) $n` is a canonical integer string whose value is n |
| `PhpInt.IntegerKeyIsDecimalString` | app/Converters/XlsxToArray.php:171 | a canonical integer string is the decimal rendering of its value |
| `RowLoop.ApplyEffect` | app/Converters/XlsxToArray.php:156-171 | a skip changes nothing, a title row only the title, a record row appends under the current title's key and touches no other key |
| `RowLoop.SingleValueTitleRule` | app/Converters/XlsxToArray.php:154-171 | a title is set only from exactly one meaningful value; a record, or the article's TypeError, only comes from two or more |
| `RowLoop.SingleValueTitleRuleCases` | app/Converters/XlsxToArray.php:154-171 | no meaningful value skips; exactly one sets the title unless it is an object; two or more emit the columns plus the looked-up image |
| `RowLoop.TitleRuleStep` | app/Converters/XlsxToArray.php:156-166 | a row with at most one meaningful value emits nothing and changes the state only by the title rule |
| `RowLoop.ApplyTitleRule` | app/Converters/XlsxToArray.php:154-171 | the branches of the loop body give the state that the title rule's row action gives |
| `RowLoop.RunRowsFails` | app/Converters/XlsxToArray.php:138-172 | a run raises exactly when some row raises |
| `RowLoop.RunRowsTitle` | app/Converters/XlsxToArray.php:165 | after a run the title is the last title set, or the initial one |
| `RowLoop.RunRowsRecords` | app/Converters/XlsxToArray.php:171 | each key's records are the ones it started with, then the records emitted under it in row order |
| `RowLoop.RunRowsShape` | app/Converters/XlsxToArray.php:171 | keys stay distinct and the bucket grows by one record per emitting row |
| `RowLoop.RunFromStart` | app/Converters/XlsxToArray.php:135-136 | from $result = [] and $title = '', each key holds exactly its emitted records, in row order |
| `XlsxToArray.ReadNamedColumns` | app/Converters/XlsxToArray.php:146-152 | the foreach with its $index counter gives `NamedColumns`: name j reads column j + 1 |
| `XlsxToArray.NamedColumnsKeys` | app/Converters/XlsxToArray.php:148-152 | with fresh names the keys are the base keys followed by the names in order |
| `XlsxToArray.NamedColumnsValues` | app/Converters/XlsxToArray.php:149-150 | name j holds grid column j + 1, trimmed when a string |
| `XlsxToArray.NamedColumnsKeepBase` | app/Converters/XlsxToArray.php:145-152 | reading the named columns leaves the article field as it was |
| `XlsxToArray.ArticleText` | app/Converters/XlsxToArray.php:139-145 | null gives '', rich text its trimmed plain text, an int its decimal string, a string its trim; a float or bool raises |
| `XlsxToArray.ConvertTo` | app/Converters/XlsxToArray.php:133-175 | the loop over rows 1 to count($items[0]) - 1 returns `ConvertToSpec`, the run of the rows' outcomes, or its exception |
| `XlsxToArray.GenericRow` | app/Converters/XlsxToArray.php:139-171 | what convertTo does with row i: the article's exception, or the title rule over the read columns |
| `XlsxToArray.ConvertRow` | app/Converters/XlsxToArray.php:139-171 | one pass of the loop body is the step of row i's outcome |
| `XlsxToArray.BlankRowSkipped` | app/Converters/XlsxToArray.php:154-158 | a row without a meaningful value emits nothing and keeps the title |
| `XlsxToArray.SingleValueRowSetsTitle` | app/Converters/XlsxToArray.php:160-166 | a row with one meaningful value emits nothing; that value becomes the title unless it is an object |
| `XlsxToArray.RecordRowAppends` | app/Converters/XlsxToArray.php:169-171 | a row with two or more meaningful values appends exactly one record under the title's key; the title and other keys stay |
| `XlsxToArray.GenericRecordLayout` | app/Converters/XlsxToArray.php:145-171 | the record's keys are article, the names in order, then image, with the article text, column j + 1 and the article's image |
| `XlsxToArray.ConvertToGroupsInRowOrder` | app/Converters/XlsxToArray.php:138-175 | each key's records are exactly those emitted under it in row order, keys are distinct, one record per emitting row |
| `XlsxToArray.ConvertToAbortsOnBadArticle` | app/Converters/XlsxToArray.php:145 | a float or bool article in any visited row makes the call raise |
| `XlsxToArray.Convert` | app/Converters/XlsxToArray.php:42-53 | fish first, then equipment, feed, chemistry and aquariums with their column names and image categories; the first exception ends the conversion |
| `XlsxToArray.ConvertAbortsOnBadArticle` | app/Converters/XlsxToArray.php:42-53 | such an article in any generic sheet makes convert() raise with no partial result |
| `CanConvertToFish.CommentText` | app/Converters/CanConvertToFish.php:30 | a null comment gives '', a string is trimmed, anything else raises |
| `CanConvertToFish.ConvertToFish` | app/Converters/CanConvertToFish.php:15-56 | the loop over rows 3 to count($price_list[0]) - 1 from title '' returns `ConvertToFishSpec` or its exception |
| `CanConvertToFish.FishDecision` | app/Converters/CanConvertToFish.php:33-52 | the decision once the columns are read, whose cases `FishTitleRow`, `FishBlankRowDropped` and `FishRecordRow` state |
| `CanConvertToFish.FishRow` | app/Converters/CanConvertToFish.php:21-52 | what convertToFish does with row i: the comment's TypeError, or the decision over the row's columns |
| `CanConvertToFish.DecideFishRow` | app/Converters/CanConvertToFish.php:33-52 | the branches after the columns are read give the state of the row's decision |
| `CanConvertToFish.ConvertFishRow` | app/Converters/CanConvertToFish.php:21-52 | one pass of the loop body over row i is the step of `FishRow`: the comment's TypeError, or the decision over the mapped columns |
| `CanConvertToFish.MappedBlankIsEmpty` | app/Converters/CanConvertToFish.php:33-35 | `$not_nulls` is empty exactly when all five mapped columns are blank |
| `CanConvertToFish.FishTitleRow` | app/Converters/CanConvertToFish.php:35-44 | a truthy string column 0 over blank columns becomes the title unless it contains "Сумма", and emits nothing |
| `CanConvertToFish.FishBlankRowDropped` | app/Converters/CanConvertToFish.php:35-48 | an object or falsy column 0 over blank columns leaves the state unchanged |
| `CanConvertToFish.TotalsLineIsNotATitle` | app/Converters/CanConvertToFish.php:40-43 | the line "Итого Сумма: 500" over blank columns leaves the title unchanged |
| `CanConvertToFish.FishRecordRow` | app/Converters/CanConvertToFish.php:46-52 | any row with a meaningful mapped value, even one, appends exactly one record under the title; nothing else changes |
| `CanConvertToFish.FishRecordLayout` | app/Converters/CanConvertToFish.php:25-52 | fish records have the keys article, name, size, price, comment, image in order, holding column 1 and column 2 trimmed when strings, columns 3 and 4 as stored, the trimmed comment and the image URL |
| `CanConvertToFish.FishTitlesAreStrings` | app/Converters/CanConvertToFish.php:41 | the running title is always a string |
| `CanConvertToFish.ConvertToFishGroupsInRowOrder` | app/Converters/CanConvertToFish.php:17-55 | each key's records are exactly those emitted under it in row order, one per emitting row |
| `CanConvertToFeed.FeedArticle` | app/Converters/CanConvertToFeed.php:23-33 | null gives '', an int its decimal string, a string its trim; an object or float raises the feed exception, a bool a TypeError |
| `CanConvertToFeed.ConvertToFeed` | app/Converters/CanConvertToFeed.php:17-61 | the loop over rows 1 to count($feed[0]) - 1 from title '' returns `ConvertToFeedSpec` or its exception |
| `CanConvertToFeed.FeedRow` | app/Converters/CanConvertToFeed.php:23-57 | what the corrected loop does with row i: the article's exception, or the title rule over the feed columns with image category "feed" |
| `CanConvertToFeed.ConvertFeedRow` | app/Converters/CanConvertToFeed.php:23-57 | one pass of the corrected loop body over row i is the step of `FeedRow`: the article's exception or TypeError, or the title rule over the feed columns |
| `CanConvertToFeed.FeedRowRejects` | app/Converters/CanConvertToFeed.php:25-30 | a rich-text or float article makes the row raise the feed exception |
| `CanConvertToFeed.ConvertToFeedRejectsArticle` | app/Converters/CanConvertToFeed.php:25-30 | an object or float article in any visited row makes the call raise with no bucket |
| `CanConvertToFeed.ConvertToFeedFails` | app/Converters/CanConvertToFeed.php:22-58 | the call raises exactly when some visited row raises |
| `CanConvertToFeed.FeedTitleRow` | app/Converters/CanConvertToFeed.php:42-53 | a blank row is skipped; one meaningful value sets the title unless it is an object |
| `CanConvertToFeed.FeedRecordRow` | app/Converters/CanConvertToFeed.php:55-57 | a row with two or more meaningful values appends one record under the title; nothing else changes |
| `CanConvertToFeed.FeedRecordLayout` | app/Converters/CanConvertToFeed.php:32-38 | the keys are article, name, description, weight, price, image, with columns 1 to 4 untrimmed |
| `CanConvertToFeed.ConvertToFeedGroupsInRowOrder` | app/Converters/CanConvertToFeed.php:19-60 | each key's records are exactly those emitted under it in row order |
| `CanConvertToFeed.FeedRowAsWritten` | app/Converters/CanConvertToFeed.php:23-57 | the row as written: a row that reaches line 55 raises ArgumentCountError |
| `CanConvertToFeed.AsWrittenAgreesOffRecords` | app/Converters/CanConvertToFeed.php:55 | the written and the corrected row agree on every row that emits nothing |
| `CanConvertToFeed.AsWrittenFailsOnAnyRecord` | app/Converters/CanConvertToFeed.php:55 | as written, any row that would emit a record raises ArgumentCountError and so does the whole call |
| `CanConvertToFeed.OneProductSheet` | app/Converters/CanConvertToFeed.php:55 | on a sheet with one product row the written trait raises while the corrected loop returns a bucket |
| `XlsToArray.NotNullValuesMembers` | app/Converters/XlsToArray.php:117-124 | a value is returned exactly when some column holds it and it is meaningful |
| `XlsToArray.NotNullValuesAppend` | app/Converters/XlsToArray.php:119-123 | the re-indexed values keep the columns' order |
| `XlsToArray.NotNullValues` | app/Converters/XlsToArray.php:117-124 | the result is no longer than the input |
| `XlsToArray.StringIsCategory` | app/Converters/XlsToArray.php:126-130 | `str_starts_with` of the falsy-guarded trim and '~', read through `StringIsCategoryIff` |
| `XlsToArray.StringIsSubCategory` | app/Converters/XlsToArray.php:132-136 | the same with '*' |
| `XlsToArray.StringIsCategoryIff` | app/Converters/XlsToArray.php:126-136 | a text is a category (subcategory) exactly when the first character trim() keeps is '~' ('*') |
| `XlsToArray.MarkerStartsTrim` | app/Converters/XlsToArray.php:128 | for a marker character, `$str ? trim($str) : ''` starts with it exactly when it is the first character trim() keeps |
| `XlsToArray.MarkersExclusive` | app/Converters/XlsToArray.php:126-136 | null, '' and '0' are neither; no text is both |
| `XlsToArray.IndentedCategory` | app/Converters/XlsToArray.php:128-129 | a '~' preceded only by trim characters makes a category: leading whitespace does not hide it |
| `XlsToArray.LateMarkerIgnored` | app/Converters/XlsToArray.php:128-129 | when the first character trim() keeps is not '~', no later '~' makes a category |
| `XlsToArray.RemoveMultipleSpaces` | app/Converters/XlsToArray.php:138-141 | `preg_replace('/\s\s+/', ' ', $string ?? '')` as the replacement of runs of two or more |
| `XlsToArray.RemoveMultipleSpacesShape` | app/Converters/XlsToArray.php:138-141 | no double whitespace is left, other characters survive in order, a string without double whitespace is returned unchanged, null gives '', a second pass changes nothing |
| `XlsToArray.RemoveMultipleSpacesRuns` | app/Converters/XlsToArray.php:140 | the text is replaced run by run: a non-whitespace character splits it, a whitespace run of two or more becomes exactly one space, and a lone whitespace character of any kind stays |
| `XlsToArray.RemoveMultipleSpacesExample` | app/Converters/XlsToArray.php:140 | "a \tb" becomes "a b" and "a\tb" stays as it is |
| `XlsToArray.ColumnsArticle` | app/Converters/XlsToArray.php:151-153 | the article raises exactly when it is null or a bool, the values the signature forbids |
| `XlsToArray.GetColumns` | app/Converters/XlsToArray.php:151-165 | the method returns `ColumnsOf`: the article field followed by the named columns |
| `XlsToArray.ColumnsLayout` | app/Converters/XlsToArray.php:154-162 | with distinct names other than article, the keys are article then the names; name j holds items[j + 1][i], trimmed when a string |
| `XlsToArray.ColumnsArticleAgrees` | app/Converters/XlsToArray.php:153-154 | this article agrees with convertTo's for strings, ints and rich text, and differs on null and floats |
| `XlsToArray.ThrowIfTitleDoesntHaveSpecialCharacters` | app/Converters/XlsToArray.php:173-191 | the validator's outcome, whose cases `ValidatorCases` states |
| `XlsToArray.ValidatorCases` | app/Converters/XlsToArray.php:173-191 | an empty next article passes; otherwise a bool title fails with the empty-lines message and a text title passes exactly when it starts with '~' or '*' after trimming, failing with a message that quotes it |
| `XlsToArray.PassingTitleIsMarked` | app/Converters/XlsToArray.php:185-190 | a title that passes with a next article is text and exactly one of category and subcategory |
| `XlsToArray.ValidatorExamples` | app/Converters/XlsToArray.php:185-190 | the title '' fails, "Filters" fails with a message naming it, "~Filters" passes |
| `XlsToArray.UnmarkedTitleFails` | app/Converters/XlsToArray.php:185-190 | a title whose first character is neither a trim character nor a marker fails with the message quoting it |
| `XlsToArray.MarkedTitlePasses` | app/Converters/XlsToArray.php:185 | a title that starts with '~' passes |

## Left out

- Workbook loading and `getArrayFromSheet` (`Xlsx::load`, sheets, column and cell iterators) are a wrapper over PhpSpreadsheet. Each sheet is an input grid.
- `getImagesFromCSV` file access (`storage_path`, `file_exists`, `SplFileObject`) and `fgetcsv` quoting are I/O. The model takes the lines already split into fields, or None for a missing file.
- The constructor that fills `$this->images` for the five categories is also I/O; the images are a parameter.
- `RichText::getPlainText` is foreign code. The `Rich` cell carries its plain text.
- `mb_strtolower` is modelled for ASCII and the Cyrillic capitals U+0400 to U+042F only. Other scripts are left unchanged.
- Floats have no numeric value. A float title is keyed by its text, so PHP's truncation of float array keys is not modelled.
- `ReplaceRuns` takes whitespace runs from the right where PCRE scans from the left. Each maximal run is replaced whole either way, so the results agree.
- `XlsToArray::convert` (app/Converters/XlsToArray.php:40-51) calls a `convertTo` that only a subclass would supply. It is not modelled on its own; `XlsxToArray.Convert` models the concrete composition.
- `ConversionResult` is only a holder of the five buckets and is modelled as the datatype `Conversion`.
- index.php is an upload form and message display, so it is not part of this model.
- XlsToArray.ColumnsLayout: the record is stated per key only for distinct column names other than "article"; with repeated names the later column overwrites the earlier, as `PutField` defines, and no lemma states it.
- XlsToArray.ColumnsArticle: a bool article is a TypeError only because the caller is assumed to declare `strict_types`. PHP checks scalar parameter types by the calling file's mode, and `getColumns` is called only by a subclass that is not part of this model; a non-strict caller would coerce `true` to 1 (article "1") and `false` to 0.
- The validator is not called by either converter class, so it is modelled on its own.
- The feed trait is used by neither class. It is modelled on its own, with the image category "feed" that `convert()` uses for the feed sheet.
- The empty-lines message of the validator is raised only for a bool title; the initial title '' gets the missing-marker message instead, as `ValidatorExamples` shows.
- ImageIndex.GetImageFrom: it looks images up under the corrected key `LookupKey` (collapse, then trim, then lowercase), so `ConvertToSpec`, `ConvertToFishSpec` and `ConvertToFeedSpec` all use the corrected key. The code trims first (app/Converters/XlsxToArray.php:115, app/Converters/XlsToArray.php:113), so a name whose first or last character that trim() keeps is a form feed is looked up under a different key than the model uses; `LookupKeyAsWritten` and the first finding state that key.

## Findings

| source | as written | input that shows it | evidently intended | confidence | as-written member | corrected member |
|---|---|---|---|---|---|---|
| app/Converters/XlsxToArray.php:115 | `trim` runs before collapsing whitespace. `trim` does not strip a form feed, but `\s` matches one | the name "\fa" gives the key " a", which has a leading space; normalising " a" again gives "a" | collapse first, then trim, so the key has no edge whitespace and normalising twice changes nothing | high (not executed) | `ImageIndex.LookupKeyAsWrittenKeepsEdgeSpace` | `ImageIndex.LookupKeyIdempotent` |
| app/Converters/CanConvertToFeed.php:55 | `getImageFrom` is called with one argument, but both host classes declare two parameters | any sheet with a product row, such as one row with article "A1" and a name | pass the image category ("feed") as the second argument | high (not executed) | `CanConvertToFeed.OneProductSheet` | `CanConvertToFeed.ConvertToFeedGroupsInRowOrder` |
