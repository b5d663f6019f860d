/**
 * The PHP string primitives the converters rely on: trim(), mb_strtolower(),
 * str_contains(), str_starts_with() and the two whitespace-run replacements
 * done with preg_replace.
 */
module PhpText {

  /** The characters PHP's trim() strips by default: " \t\n\r\0\x0B". */
  predicate IsTrimChar(c: char) {
    c == ' ' || c == '\t' || c == '\n' || c == '\r' || c == '\0' || c == '\U{B}'
  }

  /** The characters PCRE's \s matches without the u flag: HT, LF, VT, FF, CR and space. */
  predicate IsSpace(c: char) {
    c == ' ' || c == '\t' || c == '\n' || c == '\U{B}' || c == '\U{C}' || c == '\r'
  }

  /** The offset of the first character at or after `i` that trim() keeps on the left. */
  function LeadingTrim(s: string, i: nat): (n: nat)
    requires i <= |s|
    ensures i <= n <= |s|
    ensures forall k :: i <= k < n ==> IsTrimChar(s[k])
    ensures n < |s| ==> !IsTrimChar(s[n])
    decreases |s| - i
  {
    if i < |s| && IsTrimChar(s[i]) then LeadingTrim(s, i + 1) else i
  }

  /**
   * The characters of `s` from offset `from` on. Written position by position
   * rather than as the slice s[from..], which the verifier treats poorly when
   * `from` may be 0.
   */
  function Suffix(s: string, from: nat): (r: string)
    requires from <= |s|
    ensures |r| == |s| - from
    ensures forall k :: 0 <= k < |r| ==> r[k] == s[from + k]
  {
    seq(|s| - from, k requires 0 <= k < |s| - from => s[from + k])
  }

  function TrimLeft(s: string): (r: string)
    ensures |r| <= |s|
    ensures forall k :: 0 <= k < |r| ==> r[k] == s[|s| - |r| + k]
    ensures r != [] ==> !IsTrimChar(r[0])
    ensures forall k :: 0 <= k < |s| - |r| ==> IsTrimChar(s[k])
  {
    Suffix(s, LeadingTrim(s, 0))
  }

  function TrimRight(s: string): (r: string)
    ensures |r| <= |s| && r == s[..|r|]
    ensures r != [] ==> !IsTrimChar(r[|r| - 1])
    ensures forall k :: |r| <= k < |s| ==> IsTrimChar(s[k])
  {
    if s != [] && IsTrimChar(s[|s| - 1]) then TrimRight(s[..|s| - 1]) else s
  }

  /** `r` stands in `s` at offset `lo`. */
  predicate OccursAt(s: string, r: string, lo: int) {
    0 <= lo <= |s| - |r| && forall k :: 0 <= k < |r| ==> s[lo + k] == r[k]
  }

  /** PHP trim($s) with the default character list. */
  function Trim(s: string): (r: string)
    ensures r != [] ==> !IsTrimChar(r[0]) && !IsTrimChar(r[|r| - 1])
    ensures exists lo :: OccursAt(s, r, lo)
  {
    var l := TrimLeft(s);
    var r := TrimRight(l);
    assert forall k :: 0 <= k < |r| ==> r[k] == l[k];
    assert OccursAt(s, r, |s| - |l|);
    r
  }

  /**
   * trim() removes characters it strips from the two ends of the input and
   * nothing else: what it returns stands in the input at some offset, every
   * character before that offset and after the result is a trim character,
   * and the result neither starts nor ends with one.
   */
  lemma {:induction false} TrimStripsOnlyEdges(s: string)
    ensures var r := Trim(s);
      && (r != [] ==> !IsTrimChar(r[0]) && !IsTrimChar(r[|r| - 1]))
      && exists lo ::
        (&& OccursAt(s, r, lo)
         && (forall k :: 0 <= k < lo ==> IsTrimChar(s[k]))
         && (forall k :: lo + |r| <= k < |s| ==> IsTrimChar(s[k])))
  {
    var l := TrimLeft(s);
    var r := TrimRight(l);
    var lo := |s| - |l|;
    assert r == Trim(s);
    assert forall k :: 0 <= k < |r| ==> r[k] == l[k];
    assert forall k :: lo + |r| <= k < |s| ==> IsTrimChar(s[k]) by {
      forall k | lo + |r| <= k < |s| ensures IsTrimChar(s[k]) {
        assert s[k] == l[k - lo];
      }
    }
    assert OccursAt(s, r, lo);
  }

  /** A piece of a string keeps the string's whitespace shape. */
  lemma {:induction false} PieceKeepsSpacing(s: string, r: string, lo: int)
    requires OccursAt(s, r, lo)
    ensures NoDoubleSpace(s) ==> NoDoubleSpace(r)
    ensures OnlyPlainSpaces(s) ==> OnlyPlainSpaces(r)
  {
  }

  /** A string that trim() leaves unchanged. */
  lemma {:induction false} TrimFixpoint(s: string)
    requires s != [] ==> !IsTrimChar(s[0]) && !IsTrimChar(s[|s| - 1])
    ensures Trim(s) == s
  {
  }

  /**
   * mb_strtolower on one character, for the scripts a price list uses:
   * ASCII A-Z and the Cyrillic capitals U+0400-U+042F.
   */
  function LowerChar(c: char): (r: char)
    ensures IsSpace(r) <==> IsSpace(c)
    ensures IsTrimChar(r) <==> IsTrimChar(c)
    ensures 'A' <= c <= 'Z' ==> r as int == c as int + 32
  {
    if 'A' <= c <= 'Z' then (c as int + 32) as char
    else if '\U{410}' <= c <= '\U{42F}' then (c as int + 0x20) as char
    else if '\U{400}' <= c <= '\U{40F}' then (c as int + 0x50) as char
    else c
  }

  function Lower(s: string): (r: string)
    ensures |r| == |s|
    ensures forall k :: 0 <= k < |s| ==> r[k] == LowerChar(s[k])
  {
    seq(|s|, k requires 0 <= k < |s| => LowerChar(s[k]))
  }

  lemma {:induction false} LowerCharIdempotent(c: char)
    ensures LowerChar(LowerChar(c)) == LowerChar(c)
  {
  }

  lemma {:induction false} LowerIdempotent(s: string)
    ensures Lower(Lower(s)) == Lower(s)
  {
    forall k | 0 <= k < |s| ensures LowerChar(LowerChar(s[k])) == LowerChar(s[k]) {
      LowerCharIdempotent(s[k]);
    }
  }

  /** Lowering keeps the whitespace shape of a string and the characters trim() strips. */
  lemma {:induction false} LowerKeepsSpacing(s: string)
    ensures NoDoubleSpace(s) ==> NoDoubleSpace(Lower(s))
    ensures OnlyPlainSpaces(s) ==> OnlyPlainSpaces(Lower(s))
    ensures s != [] ==> (IsTrimChar(Lower(s)[0]) <==> IsTrimChar(s[0]))
    ensures s != [] ==> (IsTrimChar(Lower(s)[|s| - 1]) <==> IsTrimChar(s[|s| - 1]))
  {
  }

  /** str_starts_with($s, $prefix). */
  predicate StartsWith(s: string, prefix: string) {
    |prefix| <= |s| && s[..|prefix|] == prefix
  }

  /** str_contains($s, $needle): the needle stands somewhere in the string. */
  predicate Contains(s: string, needle: string) {
    exists lo :: 0 <= lo <= |s| - |needle| && OccursAt(s, needle, lo)
  }

  // ---------------------------------------------------------------------------
  // Whitespace runs: preg_replace('!\s+!', ' ', $s) and preg_replace('/\s\s+/', ' ', $s)
  // ---------------------------------------------------------------------------

  /** The length of the run of \s characters that ends the string. */
  function TrailingSpaces(s: string): (n: nat)
    ensures n <= |s|
    ensures forall k :: |s| - n <= k < |s| ==> IsSpace(s[k])
    ensures n < |s| ==> !IsSpace(s[|s| - n - 1])
    ensures s != [] && IsSpace(s[|s| - 1]) ==> n >= 1
    decreases |s|
  {
    if s != [] && IsSpace(s[|s| - 1]) then 1 + TrailingSpaces(s[..|s| - 1]) else 0
  }

  /**
   * Replaces every maximal run of at least `least` whitespace characters by one
   * space and keeps shorter runs as they are. The regular expression matches
   * leftmost and greedily, so it always consumes a whole run; since every run is
   * replaced whole, the runs can equally be taken from the right, as here.
   */
  function ReplaceRuns(s: string, least: nat): string
    requires least >= 1
    decreases |s|
  {
    if s == [] then []
    else if !IsSpace(s[|s| - 1]) then ReplaceRuns(s[..|s| - 1], least) + [s[|s| - 1]]
    else
      var n := TrailingSpaces(s);
      ReplaceRuns(s[..|s| - n], least) + (if n >= least then " " else Suffix(s, |s| - n))
  }

  /** preg_replace('!\s+!', ' ', $s): every whitespace run becomes one space. */
  function CollapseSpaces(s: string): string {
    ReplaceRuns(s, 1)
  }

  /** No two whitespace characters stand next to each other. */
  predicate NoDoubleSpace(s: string) {
    forall k :: 0 <= k < |s| - 1 ==> !(IsSpace(s[k]) && IsSpace(s[k + 1]))
  }

  /** Every whitespace character is a plain space. */
  predicate OnlyPlainSpaces(s: string) {
    forall k :: 0 <= k < |s| ==> IsSpace(s[k]) ==> s[k] == ' '
  }

  /** The characters of a string that are not whitespace, in order. */
  function NonSpace(s: string): string
    decreases |s|
  {
    if s == [] then []
    else NonSpace(s[..|s| - 1]) + (if IsSpace(s[|s| - 1]) then [] else [s[|s| - 1]])
  }

  lemma {:induction false} NonSpaceAppend(a: string, b: string)
    ensures NonSpace(a + b) == NonSpace(a) + NonSpace(b)
    decreases |b|
  {
    if b != [] {
      var ab := a + b;
      var n := |b| - 1;
      assert ab[..|ab| - 1] == a + b[..n];
      assert ab[|ab| - 1] == b[n];
      NonSpaceAppend(a, b[..n]);
    } else {
      assert a + b == a;
    }
  }

  lemma {:induction false} NonSpaceOfRun(s: string)
    requires forall k :: 0 <= k < |s| ==> IsSpace(s[k])
    ensures NonSpace(s) == []
    decreases |s|
  {
    if s != [] {
      NonSpaceOfRun(s[..|s| - 1]);
    }
  }

  /** The result of a replacement ends like its input when the input ends with a non-space. */
  lemma ReplaceRunsLast(s: string, least: nat)
    requires least >= 1
    ensures ReplaceRuns(s, least) == [] <==> s == []
    ensures s != [] && !IsSpace(s[|s| - 1]) ==> ReplaceRuns(s, least)[|ReplaceRuns(s, least)| - 1] == s[|s| - 1]
    ensures s != [] && IsSpace(s[|s| - 1]) ==> IsSpace(ReplaceRuns(s, least)[|ReplaceRuns(s, least)| - 1])
  {
  }

  /** After the replacement, no two whitespace characters are adjacent. */
  lemma {:induction false} ReplaceRunsNoDoubleSpace(s: string, least: nat)
    requires 1 <= least <= 2
    ensures NoDoubleSpace(ReplaceRuns(s, least))
    decreases |s|
  {
    if s != [] {
      var r := ReplaceRuns(s, least);
      var last := s[|s| - 1];
      if !IsSpace(last) {
        var p := s[..|s| - 1];
        ReplaceRunsNoDoubleSpace(p, least);
        var t := ReplaceRuns(p, least);
        assert r == t + [last];
        forall k | 0 <= k < |r| - 1 ensures !(IsSpace(r[k]) && IsSpace(r[k + 1])) {
          if k < |t| - 1 { assert r[k] == t[k] && r[k + 1] == t[k + 1]; }
        }
      } else {
        var n := TrailingSpaces(s);
        var p := s[..|s| - n];
        var tail := if n >= least then " " else Suffix(s, |s| - n);
        ReplaceRunsNoDoubleSpace(p, least);
        ReplaceRunsLast(p, least);
        var t := ReplaceRuns(p, least);
        assert r == t + tail;
        assert |tail| == 1;
        forall k | 0 <= k < |r| - 1 ensures !(IsSpace(r[k]) && IsSpace(r[k + 1])) {
          if k < |t| - 1 { assert r[k] == t[k] && r[k + 1] == t[k + 1]; }
          else { assert r[k] == t[|t| - 1]; assert !IsSpace(s[|s| - n - 1]); }
        }
      }
    }
  }

  /** Only runs are touched: the non-whitespace characters survive, in order. */
  lemma {:induction false} ReplaceRunsKeepsNonSpace(s: string, least: nat)
    requires least >= 1
    ensures NonSpace(ReplaceRuns(s, least)) == NonSpace(s)
    decreases |s|
  {
    if s != [] {
      var last := s[|s| - 1];
      if !IsSpace(last) {
        var p := s[..|s| - 1];
        ReplaceRunsKeepsNonSpace(p, least);
        assert ReplaceRuns(s, least) == ReplaceRuns(p, least) + [last];
        NonSpaceAppend(ReplaceRuns(p, least), [last]);
      } else {
        var n := TrailingSpaces(s);
        var p := s[..|s| - n];
        var run := Suffix(s, |s| - n);
        ReplaceRunsKeepsNonSpace(p, least);
        SplitAtRun(s, least, p, run);
      }
    }
  }

  /** The step of ReplaceRunsKeepsNonSpace for a string that ends with a run. */
  lemma {:induction false} SplitAtRun(s: string, least: nat, p: string, run: string)
    requires least >= 1 && s != [] && IsSpace(s[|s| - 1])
    requires p == s[..|s| - TrailingSpaces(s)] && run == Suffix(s, |s| - TrailingSpaces(s))
    requires NonSpace(ReplaceRuns(p, least)) == NonSpace(p)
    ensures NonSpace(ReplaceRuns(s, least)) == NonSpace(s)
  {
    TrailingRun(s, run);
    NonSpaceOfRun(run);
    var tail := if |run| >= least then " " else run;
    if |run| >= least {
      NonSpaceOfRun(" ");
    }
    assert NonSpace(tail) == [];
    assert ReplaceRuns(s, least) == ReplaceRuns(p, least) + tail;
    NonSpaceAppend(ReplaceRuns(p, least), tail);
    SuffixSplit(s, |s| - TrailingSpaces(s));
    NonSpaceAppend(p, run);
  }

  /** A string is its prefix followed by the rest. */
  lemma {:induction false} SuffixSplit(s: string, m: nat)
    requires m <= |s|
    ensures s == s[..m] + Suffix(s, m)
  {
    var t := s[..m] + Suffix(s, m);
    forall k | 0 <= k < |s| ensures s[k] == t[k] {
      if k >= m { assert t[k] == Suffix(s, m)[k - m]; }
    }
  }

  /** The trailing run consists of whitespace only. */
  lemma {:induction false} TrailingRun(s: string, run: string)
    requires run == Suffix(s, |s| - TrailingSpaces(s))
    ensures forall k :: 0 <= k < |run| ==> IsSpace(run[k])
  {
    var n := TrailingSpaces(s);
    forall k | 0 <= k < n ensures IsSpace(run[k]) {
      assert run[k] == s[|s| - n + k];
    }
  }

  /** With least == 1 every whitespace character left is a plain space. */
  lemma {:induction false} CollapseOnlyPlainSpaces(s: string)
    ensures OnlyPlainSpaces(ReplaceRuns(s, 1))
    decreases |s|
  {
    if s != [] {
      var r := ReplaceRuns(s, 1);
      if !IsSpace(s[|s| - 1]) {
        CollapseOnlyPlainSpaces(s[..|s| - 1]);
        assert r == ReplaceRuns(s[..|s| - 1], 1) + [s[|s| - 1]];
      } else {
        var n := TrailingSpaces(s);
        CollapseOnlyPlainSpaces(s[..|s| - n]);
        assert r == ReplaceRuns(s[..|s| - n], 1) + " ";
      }
    }
  }

  /**
   * A string with no double whitespace is left alone by the two-or-more
   * replacement; if its whitespace is also only plain spaces, the one-or-more
   * replacement leaves it alone too.
   */
  lemma {:induction false} ReplaceRunsFixpoint(s: string, least: nat)
    requires 1 <= least <= 2
    requires NoDoubleSpace(s)
    requires least == 1 ==> OnlyPlainSpaces(s)
    ensures ReplaceRuns(s, least) == s
    decreases |s|
  {
    if s != [] {
      var p := s[..|s| - 1];
      PieceKeepsSpacing(s, p, 0);
      ReplaceRunsFixpoint(p, least);
      LoneLastKept(s, least);
      assert s == p + [s[|s| - 1]];
    }
  }

  /** Without double whitespace, the last character is kept as it is. */
  lemma {:induction false} LoneLastKept(s: string, least: nat)
    requires 1 <= least <= 2 && s != []
    requires NoDoubleSpace(s)
    requires least == 1 ==> OnlyPlainSpaces(s)
    ensures ReplaceRuns(s, least) == ReplaceRuns(s[..|s| - 1], least) + [s[|s| - 1]]
  {
    var last := s[|s| - 1];
    if IsSpace(last) {
      assert TrailingSpaces(s) == 1 by {
        if |s| > 1 { assert !IsSpace(s[|s| - 2]); }
      }
      assert Suffix(s, |s| - 1) == [last];
    }
  }

  /** Both replacements are idempotent. */
  lemma {:induction false} ReplaceRunsIdempotent(s: string, least: nat)
    requires 1 <= least <= 2
    ensures ReplaceRuns(ReplaceRuns(s, least), least) == ReplaceRuns(s, least)
  {
    ReplaceRunsNoDoubleSpace(s, least);
    if least == 1 {
      CollapseOnlyPlainSpaces(s);
    }
    ReplaceRunsFixpoint(ReplaceRuns(s, least), least);
  }
  /** The trailing run is the one whose characters are whitespace and that a non-space, or the start, precedes. */
  lemma {:induction false} TrailingSpacesUnique(s: string, m: nat)
    requires m <= |s|
    requires forall k :: |s| - m <= k < |s| ==> IsSpace(s[k])
    requires m < |s| ==> !IsSpace(s[|s| - m - 1])
    ensures TrailingSpaces(s) == m
  {
  }

  /**
   * A non-whitespace character separates the replacement: each side is
   * replaced on its own and the character itself stays in place.
   */
  lemma {:induction false} ReplaceRunsSplit(u: string, c: char, v: string, least: nat)
    requires least >= 1 && !IsSpace(c)
    ensures ReplaceRuns(u + [c] + v, least) == ReplaceRuns(u, least) + [c] + ReplaceRuns(v, least)
  {
    var w := u + [c];
    assert w[..|w| - 1] == u;
    assert ReplaceRuns(w, least) == ReplaceRuns(u, least) + [c];
    ReplaceRunsAfter(w, v, least);
  }

  /** After a non-whitespace character, v is replaced on its own. */
  lemma {:induction false} ReplaceRunsAfter(w: string, v: string, least: nat)
    requires least >= 1 && w != [] && !IsSpace(w[|w| - 1])
    ensures ReplaceRuns(w + v, least) == ReplaceRuns(w, least) + ReplaceRuns(v, least)
    decreases |v|
  {
    if v == [] {
      assert w + v == w;
    } else {
      var m := if IsSpace(v[|v| - 1]) then TrailingSpaces(v) else 1;
      var p := v[..|v| - m];
      ReplaceRunsAfter(w, p, least);
      SplitStep(w + v, w + p, w, v, p, m, least);
    }
  }

  /** The step of ReplaceRunsAfter: the last piece of v is the last piece of w + v. */
  lemma {:induction false} SplitStep(s: string, q: string, w: string, v: string, p: string, m: nat, least: nat)
    requires least >= 1 && w != [] && !IsSpace(w[|w| - 1]) && v != []
    requires if IsSpace(v[|v| - 1]) then m == TrailingSpaces(v) else m == 1
    requires s == w + v && p == v[..|v| - m] && q == w + p
    requires ReplaceRuns(q, least) == ReplaceRuns(w, least) + ReplaceRuns(p, least)
    ensures ReplaceRuns(s, least) == ReplaceRuns(w, least) + ReplaceRuns(v, least)
  {
    JoinPieces(s, q, w, v, p, m);
    if IsSpace(v[|v| - 1]) {
      JoinRun(s, v, m);
    }
    var tail := SamePiece(s, q, v, p, m, least);
    Regroup(ReplaceRuns(s, least), ReplaceRuns(w, least), ReplaceRuns(p, least), tail,
      ReplaceRuns(v, least), ReplaceRuns(q, least));
  }

  /** Strings that end alike, cut to q and p, are split into the same last piece. */
  lemma {:induction false} SamePiece(s: string, q: string, v: string, p: string, m: nat, least: nat)
    returns (tail: string)
    requires least >= 1 && v != [] && 1 <= m <= |v| && m <= |s|
    requires if IsSpace(v[|v| - 1]) then m == TrailingSpaces(v) && m == TrailingSpaces(s) else m == 1
    requires s[..|s| - m] == q && v[..|v| - m] == p
    requires s[|s| - 1] == v[|v| - 1] && Suffix(s, |s| - m) == Suffix(v, |v| - m)
    ensures ReplaceRuns(s, least) == ReplaceRuns(q, least) + tail
    ensures ReplaceRuns(v, least) == ReplaceRuns(p, least) + tail
  {
    tail := LastPiece(v, m, least);
    var tailS := LastPiece(s, m, least);
  }

  /** The replacement of a non-empty string is that of its cut prefix followed by the last piece. */
  lemma {:induction false} LastPiece(s: string, m: nat, least: nat) returns (tail: string)
    requires least >= 1 && s != []
    requires if IsSpace(s[|s| - 1]) then m == TrailingSpaces(s) else m == 1
    ensures 1 <= m <= |s|
    ensures tail == if IsSpace(s[|s| - 1]) && m >= least then " " else Suffix(s, |s| - m)
    ensures ReplaceRuns(s, least) == ReplaceRuns(s[..|s| - m], least) + tail
  {
    tail := if IsSpace(s[|s| - 1]) && m >= least then " " else Suffix(s, |s| - m);
    if !IsSpace(s[|s| - 1]) {
      assert Suffix(s, |s| - 1) == [s[|s| - 1]];
    }
  }

  lemma {:induction false} Regroup(rs: string, rw: string, rp: string, tail: string, rv: string, rq: string)
    requires rs == rq + tail && rv == rp + tail && rq == rw + rp
    ensures rs == rw + rv
  {
  }

  /** Cutting the last `m` characters of w + v cuts them from v. */
  lemma {:induction false} JoinPieces(s: string, q: string, w: string, v: string, p: string, m: nat)
    requires 1 <= m <= |v| && s == w + v && p == v[..|v| - m] && q == w + p
    ensures s[..|s| - m] == q
    ensures Suffix(s, |s| - m) == Suffix(v, |v| - m)
    ensures s[|s| - 1] == v[|v| - 1]
    ensures forall k :: 0 <= k < |v| ==> s[|s| - |v| + k] == v[k]
    ensures m == |v| ==> w != [] ==> s[|s| - m - 1] == w[|w| - 1]
  {
  }

  /** A string ending in v, where a non-space or nothing precedes v's trailing run, has that run as its own. */
  lemma {:induction false} JoinRun(s: string, v: string, m: nat)
    requires 1 <= m <= |v| <= |s| && IsSpace(v[|v| - 1]) && m == TrailingSpaces(v)
    requires forall k :: 0 <= k < |v| ==> s[|s| - |v| + k] == v[k]
    requires m == |v| ==> |s| > m && !IsSpace(s[|s| - m - 1])
    ensures TrailingSpaces(s) == m
  {
    assert forall k :: |s| - m <= k < |s| ==> s[k] == v[k - (|s| - |v|)];
    assert m < |v| ==> s[|s| - m - 1] == v[|v| - m - 1];
    TrailingSpacesUnique(s, m);
  }

  /**
   * A whole run of whitespace becomes a single space when it has at least
   * `least` characters and is kept as it is otherwise.
   */
  lemma {:induction false} ReplaceRunsOfRun(w: string, least: nat)
    requires least >= 1 && w != []
    requires forall k :: 0 <= k < |w| ==> IsSpace(w[k])
    ensures ReplaceRuns(w, least) == if |w| >= least then " " else w
  {
    TrailingSpacesUnique(w, |w|);
    assert w[..0] == [];
    assert Suffix(w, 0) == w;
  }

  /**
   * preg_replace('!\s+!', ' ', $s) works run by run: a non-whitespace
   * character separates the text into parts collapsed on their own, and every
   * whitespace run, even a single character, becomes exactly one space.
   */
  lemma {:induction false} CollapseSpacesRuns(u: string, c: char, v: string, w: string)
    requires forall k :: 0 <= k < |w| ==> IsSpace(w[k])
    ensures !IsSpace(c) ==> CollapseSpaces(u + [c] + v) == CollapseSpaces(u) + [c] + CollapseSpaces(v)
    ensures w != [] ==> CollapseSpaces(w) == " "
  {
    if !IsSpace(c) {
      ReplaceRunsSplit(u, c, v, 1);
    }
    if w != [] {
      ReplaceRunsOfRun(w, 1);
    }
  }
}
