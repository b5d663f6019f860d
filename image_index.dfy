/**
 * The image index: per category, a dictionary from normalised article to image
 * URL read from "key|url" lines, and the lookup with its placeholder fallback
 * (getImagesFromCSV and getImageFrom in both converter classes).
 */
module ImageIndex {
  import opened Outcomes
  import opened PhpText

  const Placeholder: string := "https://i.ibb.co/9tpYXHz/fish-placeholder.jpg"

  /** One category's dictionary; its keys are the lowercased first fields. */
  type Dictionary = map<string, string>

  /** $this->images: category name to its dictionary, None when the file was missing. */
  type Images = map<string, Option<Dictionary>>

  // ---------------------------------------------------------------------------
  // Building a dictionary from the lines of a lookup file
  // ---------------------------------------------------------------------------

  /** Line `j` of the file has exactly two fields and defines `key`. */
  predicate Defines(lines: seq<seq<string>>, j: int, key: string) {
    0 <= j < |lines| && |lines[j]| == 2 && Lower(lines[j][0]) == key
  }

  /** The dictionary after reading the given lines, in order. */
  function DictionaryOf(lines: seq<seq<string>>): Dictionary
    decreases |lines|
  {
    if lines == [] then map[]
    else
      var d := DictionaryOf(lines[..|lines| - 1]);
      var line := lines[|lines| - 1];
      if |line| == 2 then d[Lower(line[0]) := line[1]] else d
  }

  /**
   * A key is present exactly when some two-field line defines it, and it maps
   * to the URL of the last line that does: later lines overwrite earlier ones.
   */
  lemma {:induction false} DictionaryOfDefines(lines: seq<seq<string>>, key: string)
    ensures key in DictionaryOf(lines) <==> exists j :: Defines(lines, j, key)
    ensures key in DictionaryOf(lines) ==>
      exists j :: Defines(lines, j, key) && DictionaryOf(lines)[key] == lines[j][1] &&
        forall later :: j < later < |lines| ==> !Defines(lines, later, key)
  {
    DictionaryOfHas(lines, key);
    DictionaryOfLast(lines, key);
  }

  /** Lines before the last define a key in the prefix exactly when they define it in the file. */
  lemma {:induction false} DefinesInPrefix(lines: seq<seq<string>>, n: nat, key: string)
    requires n <= |lines|
    ensures forall j :: 0 <= j < n ==> (Defines(lines[..n], j, key) <==> Defines(lines, j, key))
  {
  }

  lemma {:induction false} DictionaryOfHas(lines: seq<seq<string>>, key: string)
    ensures key in DictionaryOf(lines) <==> exists j :: Defines(lines, j, key)
    decreases |lines|
  {
    if lines != [] {
      var n := |lines| - 1;
      DictionaryOfHas(lines[..n], key);
      DefinesInPrefix(lines, n, key);
      if exists j :: Defines(lines, j, key) {
        var j :| Defines(lines, j, key);
        if j < n {
          assert Defines(lines[..n], j, key);
        }
      }
      if key in DictionaryOf(lines[..n]) {
        var j :| Defines(lines[..n], j, key);
        assert Defines(lines, j, key);
      }
      if |lines[n]| == 2 && Lower(lines[n][0]) == key {
        assert Defines(lines, n, key);
      }
    }
  }

  lemma {:induction false} DictionaryOfLast(lines: seq<seq<string>>, key: string)
    ensures key in DictionaryOf(lines) ==>
      exists j :: Defines(lines, j, key) && DictionaryOf(lines)[key] == lines[j][1] &&
        forall later :: j < later < |lines| ==> !Defines(lines, later, key)
    decreases |lines|
  {
    if lines != [] {
      var n := |lines| - 1;
      var prefix := lines[..n];
      DictionaryOfLast(prefix, key);
      DefinesInPrefix(lines, n, key);
      if Defines(lines, n, key) {
        assert DictionaryOf(lines)[key] == lines[n][1];
      } else if key in DictionaryOf(prefix) {
        var j :| Defines(prefix, j, key) && DictionaryOf(prefix)[key] == prefix[j][1] &&
          forall later :: j < later < |prefix| ==> !Defines(prefix, later, key);
        assert Defines(lines, j, key);
      }
    }
  }

  /**
   * getImagesFromCSV after the file is opened: reads the lines one at a time,
   * skipping those that do not have exactly two fields. A missing file (None)
   * gives no dictionary.
   */
  method GetImagesFromCsv(file: Option<seq<seq<string>>>) returns (images: Option<Dictionary>)
    ensures file.None? <==> images.None?
    ensures file.Some? ==> images == Some(DictionaryOf(file.value))
  {
    if file.None? {
      return None;
    }
    var lines := file.value;
    var result: Dictionary := map[];
    var next := 0;
    while next < |lines|
      invariant 0 <= next <= |lines|
      invariant result == DictionaryOf(lines[..next])
    {
      var csv := lines[next];
      assert lines[..next + 1][..next] == lines[..next];
      next := next + 1;
      if |csv| != 2 {
        continue;
      }
      result := result[Lower(csv[0]) := csv[1]];
    }
    assert lines[..next] == lines;
    return Some(result);
  }

  // ---------------------------------------------------------------------------
  // Lookup
  // ---------------------------------------------------------------------------

  /**
   * The key getImageFrom computes, as written: trim, then every whitespace run
   * to one space, then lowercase.
   */
  function LookupKeyAsWritten(name: string): string {
    Lower(CollapseSpaces(Trim(name)))
  }

  /**
   * trim() does not strip a form feed but \s matches it, so a name that starts
   * with a form feed gets a key that starts with a space, and normalising that
   * key again gives a different key.
   */
  lemma {:induction false} LookupKeyAsWrittenKeepsEdgeSpace(name: string)
    requires name == "\U{C}a"
    ensures LookupKeyAsWritten(name) == " a"
    ensures LookupKeyAsWritten(LookupKeyAsWritten(name)) == "a"
  {
    AsWrittenFormFeed(name);
    AsWrittenLeadingSpace(" a");
  }

  lemma {:induction false} AsWrittenFormFeed(name: string)
    requires name == "\U{C}a"
    ensures LookupKeyAsWritten(name) == " a"
  {
    TrimFixpoint(name);
    CollapseFormFeed(name);
    LowerOfLowered(" a");
  }

  lemma {:induction false} AsWrittenLeadingSpace(key: string)
    requires key == " a"
    ensures LookupKeyAsWritten(key) == "a"
  {
    TrimLeadingSpace(key);
    CollapseFixpointA();
    LowerOfLowered("a");
  }

  lemma {:induction false} CollapseFormFeed(s: string)
    requires s == "\U{C}a"
    ensures CollapseSpaces(s) == " a"
  {
    var p := s[..1];
    assert p[..0] == [];
    assert TrailingSpaces(p) == 1;
    assert ReplaceRuns(p, 1) == " ";
    assert s[..|s| - 1] == p;
  }

  lemma {:induction false} CollapseFixpointA()
    ensures CollapseSpaces("a") == "a"
  {
    assert "a"[..0] == [];
  }

  lemma {:induction false} TrimLeadingSpace(s: string)
    requires s == " a"
    ensures Trim(s) == "a"
  {
    assert LeadingTrim(s, 0) == 1;
    assert TrimLeft(s) == "a";
    TrimFixpoint("a");
  }

  /** A string with no capital letters is its own lowercase. */
  lemma {:induction false} LowerOfLowered(s: string)
    requires forall k :: 0 <= k < |s| ==> LowerChar(s[k]) == s[k]
    ensures Lower(s) == s
  {
  }

  /**
   * The key as intended: whitespace runs collapsed to one space, then trimmed,
   * then lowercased.
   */
  function LookupKey(name: string): string {
    Lower(Trim(CollapseSpaces(name)))
  }

  /** The key has no whitespace at either end and no two whitespace characters in a row. */
  lemma {:induction false} LookupKeyShape(name: string)
    ensures var key := LookupKey(name);
      && (key != [] ==> !IsSpace(key[0]) && !IsSpace(key[|key| - 1]))
      && NoDoubleSpace(key) && OnlyPlainSpaces(key)
  {
    var collapsed := CollapseSpaces(name);
    var trimmed := Trim(collapsed);
    ReplaceRunsNoDoubleSpace(name, 1);
    CollapseOnlyPlainSpaces(name);
    var lo :| OccursAt(collapsed, trimmed, lo);
    PieceKeepsSpacing(collapsed, trimmed, lo);
    LowerKeepsSpacing(trimmed);
  }

  /** Normalising an already normalised key changes nothing. */
  lemma {:induction false} LookupKeyIdempotent(name: string)
    ensures LookupKey(LookupKey(name)) == LookupKey(name)
  {
    var key := LookupKey(name);
    LookupKeyShape(name);
    ReplaceRunsFixpoint(key, 1);
    assert CollapseSpaces(key) == key;
    var trimmed := Trim(CollapseSpaces(name));
    LowerKeepsSpacing(trimmed);
    TrimFixpoint(key);
    LowerIdempotent(trimmed);
  }

  /** getImageFrom($name, $category): the mapped URL, or the placeholder. */
  function GetImageFrom(images: Images, name: Option<string>, category: string): (url: string)
    ensures url == Placeholder || (category in images && images[category].Some? && url in images[category].value.Values)
  {
    var key := LookupKey(name.GetOr(""));
    if category in images && images[category].Some? && key in images[category].value
    then images[category].value[key]
    else Placeholder
  }

  /** A name and its normalised key find the same image. */
  lemma {:induction false} LookupNormalisedTwice(images: Images, name: string, category: string)
    ensures GetImageFrom(images, Some(LookupKey(name)), category) == GetImageFrom(images, Some(name), category)
  {
    LookupKeyIdempotent(name);
  }

  /** A category whose lookup file is missing answers every lookup with the placeholder. */
  lemma {:induction false} MissingFileGivesPlaceholder(images: Images, name: Option<string>, category: string)
    requires category !in images || images[category].None?
    ensures GetImageFrom(images, name, category) == Placeholder
  {
  }

  /**
   * Looking up a name in a dictionary read from a file gives the URL of the
   * last two-field line whose lowercased key is the name's key, and the
   * placeholder when no line defines that key.
   */
  lemma {:induction false} LookupInLoadedFile(images: Images, lines: seq<seq<string>>, name: string, category: string)
    requires category in images && images[category] == Some(DictionaryOf(lines))
    ensures (forall j :: !Defines(lines, j, LookupKey(name))) ==>
      GetImageFrom(images, Some(name), category) == Placeholder
    ensures forall j ::
      (Defines(lines, j, LookupKey(name)) &&
       forall later :: j < later < |lines| ==> !Defines(lines, later, LookupKey(name))) ==>
      GetImageFrom(images, Some(name), category) == lines[j][1]
  {
    var key := LookupKey(name);
    DictionaryOfDefines(lines, key);
    forall j | Defines(lines, j, key) && (forall later :: j < later < |lines| ==> !Defines(lines, later, key))
      ensures GetImageFrom(images, Some(name), category) == lines[j][1]
    {
      var i :| Defines(lines, i, key) && DictionaryOf(lines)[key] == lines[i][1] &&
        forall later :: i < later < |lines| ==> !Defines(lines, later, key);
      assert !(i < j) && !(j < i);
    }
  }
}
