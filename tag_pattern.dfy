/**
 * The regular expressions of the fact-tag catalogue and the global,
 * case-insensitive scan that `String.prototype.match` performs with them.
 *
 * Every catalogued expression has one of three shapes, all starting with the
 * literal `{{name`:
 *   - bare           `\{\{name\}\}`
 *   - parameterised  `\{\{name\|[^}]*\}\}`
 *   - loose          `\{\{name[^}]*\}\}` (used only by the categorisation)
 * Since `[^}]*` cannot consume a `}`, backtracking never changes where a
 * match ends: the run is the maximal one and it must be followed by `}}`.
 * The matcher below decides a match at one position deterministically, and
 * `InLanguage` is the regular language itself, as a reference definition.
 */
module TagPattern {
  import opened Wrappers

  datatype Form =
    | Bare           // \{\{name\}\}
    | Parameterised  // \{\{name\|[^}]*\}\}
    | Loose          // \{\{name[^}]*\}\}

  /** One regular expression of the catalogue, with the flags `gi`. */
  datatype Pattern = Pattern(name: string, form: Form)

  /** A match occupies the characters `start .. end - 1` of the text. */
  datatype Span = Span(start: nat, end: nat)

  // ---------------------------------------------------------------------
  // Characters and literals under the `i` flag
  // ---------------------------------------------------------------------

  /**
   * Case folding for the `i` flag on the characters that matter here: every
   * pattern literal is ASCII, and a non-ASCII character never folds onto an
   * ASCII one in a non-Unicode JavaScript regular expression.
   */
  function LowerChar(c: char): char
  {
    if 'A' <= c <= 'Z' then (c as int - 'A' as int + 'a' as int) as char else c
  }

  function Lower(s: string): (r: string)
    ensures |r| == |s|
    ensures forall k :: 0 <= k < |s| ==> r[k] == LowerChar(s[k])
  {
    seq(|s|, k requires 0 <= k < |s| => LowerChar(s[k]))
  }

  /** The two strings agree character by character up to case. */
  predicate SameIgnoringCase(a: string, b: string)
  {
    |a| == |b| && forall k :: 0 <= k < |a| ==> LowerChar(a[k]) == LowerChar(b[k])
  }

  /** `lit` occurs at position `i` of `t`, up to case. */
  predicate LiteralAt(t: string, i: nat, lit: string)
  {
    i + |lit| <= |t| && forall k :: 0 <= k < |lit| ==> LowerChar(t[i + k]) == LowerChar(lit[k])
  }

  /** The text every pattern of family `name` starts with. */
  function Open(name: string): string
  {
    "{{" + name
  }

  /**
   * A template name of the catalogue: lower case, and free of the characters
   * `}` and `|` that end a name in the patterns.
   */
  predicate ValidName(name: string)
  {
    forall k :: 0 <= k < |name| ==> name[k] != '}' && name[k] != '|' && LowerChar(name[k]) == name[k]
  }

  // ---------------------------------------------------------------------
  // The language of a pattern
  // ---------------------------------------------------------------------

  /**
   * `}}` at position `j`. Case folding leaves `}` and `|` unchanged, so the
   * delimiters are compared exactly.
   */
  predicate ClosesAt(t: string, j: nat)
  {
    j + 2 <= |t| && t[j] == '}' && t[j + 1] == '}'
  }

  /** The strings a pattern matches as a whole (its regular language). */
  predicate InLanguage(w: string, p: Pattern)
  {
    var n := |Open(p.name)|;
    && n + 2 <= |w|
    && LiteralAt(w, 0, Open(p.name))
    && ClosesAt(w, |w| - 2)
    && (forall k :: n <= k < |w| - 2 ==> w[k] != '}')
    && match p.form
       case Bare => |w| == n + 2
       case Parameterised => |w| > n + 2 && w[n] == '|'
       case Loose => true
  }

  // ---------------------------------------------------------------------
  // Matching at one position
  // ---------------------------------------------------------------------

  /** The end of the maximal run of non-`}` characters starting at `j`. */
  function RunEnd(t: string, j: nat): (e: nat)
    requires j <= |t|
    ensures j <= e <= |t|
    ensures forall k :: j <= k < e ==> t[k] != '}'
    ensures e < |t| ==> t[e] == '}'
    decreases |t| - j
  {
    if j == |t| || t[j] == '}' then j else RunEnd(t, j + 1)
  }

  /** Where a match of `p` that starts at position `i` ends, if there is one. */
  function MatchEnd(t: string, i: nat, p: Pattern): (r: Option<nat>)
    requires i <= |t|
    ensures r.Some? ==> i + |Open(p.name)| + 2 <= r.value <= |t|
  {
    var open := Open(p.name);
    if !LiteralAt(t, i, open) then None
    else
      var j := i + |open|;
      match p.form
      case Bare =>
        if ClosesAt(t, j) then Some(j + 2) else None
      case Parameterised =>
        if j < |t| && t[j] == '|' then
          var e := RunEnd(t, j + 1);
          if ClosesAt(t, e) then Some(e + 2) else None
        else None
      case Loose =>
        var e := RunEnd(t, j);
        if ClosesAt(t, e) then Some(e + 2) else None
  }

  /** A literal at the start of a slice is the literal at the slice's offset. */
  lemma LiteralAtSlice(t: string, i: nat, e: nat, lit: string)
    requires i + |lit| <= e <= |t|
    ensures LiteralAt(t[i..e], 0, lit) <==> LiteralAt(t, i, lit)
  {
    assert forall k :: 0 <= k < |lit| ==> t[i..e][k] == t[i + k];
  }

  /** A match the matcher reports is a word of the pattern's language. */
  lemma MatchIsInLanguage(t: string, i: nat, p: Pattern, e: nat)
    requires i <= e <= |t| && MatchEnd(t, i, p) == Some(e)
    ensures InLanguage(t[i..e], p)
  {
    var open := Open(p.name);
    var w := t[i..e];
    var j := i + |open|;
    LiteralAtSlice(t, i, e, open);
    assert w[|w| - 2] == t[e - 2] && w[|w| - 1] == t[e - 1];
    match p.form
    case Bare =>
    case Parameterised =>
      assert e - 2 == RunEnd(t, j + 1);
      assert w[|open|] == t[j];
    case Loose =>
      assert e - 2 == RunEnd(t, j);
  }

  /** A word of the pattern's language at `i` is the match the matcher reports there. */
  lemma LanguageIsMatch(t: string, i: nat, p: Pattern, e: nat)
    requires i <= e <= |t| && InLanguage(t[i..e], p)
    ensures MatchEnd(t, i, p) == Some(e)
  {
    var open := Open(p.name);
    var w := t[i..e];
    var j := i + |open|;
    LiteralAtSlice(t, i, e, open);
    assert ClosesAt(t, e - 2) by {
      assert w[|w| - 2] == t[e - 2] && w[|w| - 1] == t[e - 1];
    }
    assert forall k :: j <= k < e - 2 ==> t[k] != '}' by {
      forall k | j <= k < e - 2
        ensures t[k] != '}'
      {
        assert w[k - i] == t[k];
      }
    }
    match p.form
    case Bare =>
    case Parameterised =>
      assert t[j] == w[|open|];
      assert RunEnd(t, j + 1) == e - 2;
    case Loose =>
      assert RunEnd(t, j) == e - 2;
  }

  /**
   * The matcher is exact: a match of `p` at `i` ends at `e` if and only if
   * the text between is in the pattern's language. So at every position at
   * most one end is possible, as the greedy, backtracking regex engine finds.
   */
  lemma MatchEndDecidesLanguage(t: string, i: nat, p: Pattern, e: nat)
    requires i <= e <= |t|
    ensures MatchEnd(t, i, p) == Some(e) <==> InLanguage(t[i..e], p)
  {
    if MatchEnd(t, i, p) == Some(e) {
      MatchIsInLanguage(t, i, p, e);
    }
    if InLanguage(t[i..e], p) {
      LanguageIsMatch(t, i, p, e);
    }
  }

  // ---------------------------------------------------------------------
  // The global scan of `String.prototype.match` with the `g` flag
  // ---------------------------------------------------------------------

  /** Where a match of `p` starting at each position of `t` ends, if anywhere. */
  function EndsOf(t: string, p: Pattern): (ends: seq<Option<nat>>)
    ensures |ends| == |t|
    ensures forall k :: 0 <= k < |t| ==> ends[k] == MatchEnd(t, k, p)
  {
    seq(|t|, k requires 0 <= k < |t| => MatchEnd(t, k, p))
  }

  /** Every match ends after its start and within the text. */
  predicate WellFormedEnds(ends: seq<Option<nat>>)
  {
    forall k :: 0 <= k < |ends| && ends[k].Some? ==> k < ends[k].value <= |ends|
  }

  lemma EndsOfWellFormed(t: string, p: Pattern)
    ensures WellFormedEnds(EndsOf(t, p))
  {
  }

  /**
   * The matches found from position `i` on: after a match the scan resumes
   * at its end, otherwise one position later (no pattern here matches the
   * empty string, so the engine never has to step over an empty match).
   */
  function Scan(ends: seq<Option<nat>>, i: nat): (spans: seq<Span>)
    requires WellFormedEnds(ends) && i <= |ends|
    ensures forall k :: 0 <= k < |spans| ==>
      i <= spans[k].start < spans[k].end <= |ends| && ends[spans[k].start] == Some(spans[k].end)
    ensures forall k :: 0 <= k < |spans| - 1 ==> spans[k].end <= spans[k + 1].start
    decreases |ends| - i
  {
    if i == |ends| then []
    else
      match ends[i]
      case Some(e) => [Span(i, e)] + Scan(ends, e)
      case None => Scan(ends, i + 1)
  }

  /**
   * The positions of the matches `wikitext.match(pattern)` returns: each is
   * a match of `p` at its start, and they follow one another without overlap.
   */
  function Occurrences(t: string, p: Pattern): (spans: seq<Span>)
    ensures forall k :: 0 <= k < |spans| ==>
      spans[k].start < spans[k].end <= |t| && MatchEnd(t, spans[k].start, p) == Some(spans[k].end)
    ensures forall k :: 0 <= k < |spans| - 1 ==> spans[k].end <= spans[k + 1].start
  {
    EndsOfWellFormed(t, p);
    Scan(EndsOf(t, p), 0)
  }

  /** `wikitext.match(pattern)`, with `null` read as the empty list. */
  function Matches(t: string, p: Pattern): (m: seq<string>)
    ensures |m| == |Occurrences(t, p)|
  {
    var spans := Occurrences(t, p);
    seq(|spans|, k requires 0 <= k < |spans| => t[spans[k].start..spans[k].end])
  }

  /**
   * The scan is complete: a position from `i` on where a match starts lies
   * in one of the reported spans (as its start, or inside an earlier match).
   */
  lemma {:induction false} ScanComplete(ends: seq<Option<nat>>, i: nat, x: nat) returns (k: nat)
    requires WellFormedEnds(ends) && i <= x < |ends| && ends[x].Some?
    ensures k < |Scan(ends, i)| && Scan(ends, i)[k].start <= x < Scan(ends, i)[k].end
    decreases |ends| - i
  {
    var spans := Scan(ends, i);
    if ends[i].Some? {
      var rest := Scan(ends, ends[i].value);
      assert spans == [Span(i, ends[i].value)] + rest;
      if x < ends[i].value {
        k := 0;
      } else {
        var later := ScanComplete(ends, ends[i].value, x);
        assert spans[later + 1] == rest[later];
        k := later + 1;
      }
    } else {
      k := ScanComplete(ends, i + 1, x);
    }
  }

  /**
   * `String.prototype.match` with the `g` flag is sound and complete: every
   * reported span holds a word of the pattern's language, the spans do not
   * overlap, and every position where a match starts is either reported or
   * lies inside a reported match.
   */
  lemma OccurrencesExact(t: string, p: Pattern)
    ensures forall k :: 0 <= k < |Occurrences(t, p)| ==>
      var s := Occurrences(t, p)[k];
      s.start < s.end <= |t| && InLanguage(t[s.start..s.end], p)
    ensures forall k :: 0 <= k < |Occurrences(t, p)| - 1 ==>
      Occurrences(t, p)[k].end <= Occurrences(t, p)[k + 1].start
    ensures forall x :: 0 <= x < |t| && MatchEnd(t, x, p).Some? ==>
      exists k ::
        0 <= k < |Occurrences(t, p)| && Occurrences(t, p)[k].start <= x < Occurrences(t, p)[k].end
  {
    var spans := Occurrences(t, p);
    forall k | 0 <= k < |spans|
      ensures spans[k].start < spans[k].end <= |t| && InLanguage(t[spans[k].start..spans[k].end], p)
    {
      MatchEndDecidesLanguage(t, spans[k].start, p, spans[k].end);
    }
    forall x | 0 <= x < |t| && MatchEnd(t, x, p).Some?
      ensures exists k :: 0 <= k < |spans| && spans[k].start <= x < spans[k].end
    {
      var k := ScanComplete(EndsOf(t, p), 0, x);
    }
  }

  /** Every element of `wikitext.match(pattern)` is a piece of the text. */
  lemma MatchesAreSubstrings(t: string, p: Pattern)
    ensures forall m :: m in Matches(t, p) ==> exists a, b :: 0 <= a <= b <= |t| && m == t[a..b]
  {
    var spans := Occurrences(t, p);
    forall m | m in Matches(t, p)
      ensures exists a, b :: 0 <= a <= b <= |t| && m == t[a..b]
    {
      var k :| 0 <= k < |spans| && m == Matches(t, p)[k];
      assert m == t[spans[k].start..spans[k].end];
    }
  }

  /** A text in which `{{` never occurs has no match of any pattern. */
  lemma NoOpeningNoMatches(t: string, p: Pattern)
    requires forall i :: 0 <= i < |t| - 1 ==> !(t[i] == '{' && t[i + 1] == '{')
    ensures Matches(t, p) == []
  {
    var spans := Occurrences(t, p);
    if spans != [] {
      MatchOpensWithBraces(t, spans[0].start, p);
    }
  }

  /** A match starts with `{{`: the case folding leaves braces alone. */
  lemma MatchOpensWithBraces(t: string, i: nat, p: Pattern)
    requires i <= |t| && MatchEnd(t, i, p).Some?
    ensures i + 1 < |t| && t[i] == '{' && t[i + 1] == '{'
  {
    assert Open(p.name)[0] == '{' && Open(p.name)[1] == '{';
  }

  // ---------------------------------------------------------------------
  // Case-insensitivity
  // ---------------------------------------------------------------------

  lemma SameFoldSameDelimiter(a: char, b: char)
    requires LowerChar(a) == LowerChar(b)
    ensures a == '}' <==> b == '}'
    ensures a == '|' <==> b == '|'
  {
  }

  lemma {:induction false} RunEndIgnoresCase(t1: string, t2: string, j: nat)
    requires SameIgnoringCase(t1, t2) && j <= |t1|
    ensures RunEnd(t1, j) == RunEnd(t2, j)
    decreases |t1| - j
  {
    if j < |t1| {
      SameFoldSameDelimiter(t1[j], t2[j]);
      if t1[j] != '}' {
        RunEndIgnoresCase(t1, t2, j + 1);
      }
    }
  }

  lemma ClosesAtIgnoresCase(t1: string, t2: string, j: nat)
    requires SameIgnoringCase(t1, t2)
    ensures ClosesAt(t1, j) <==> ClosesAt(t2, j)
  {
    if j + 2 <= |t1| {
      SameFoldSameDelimiter(t1[j], t2[j]);
      SameFoldSameDelimiter(t1[j + 1], t2[j + 1]);
    }
  }

  lemma LiteralAtIgnoresCase(t1: string, t2: string, i: nat, lit: string)
    requires SameIgnoringCase(t1, t2)
    ensures LiteralAt(t1, i, lit) <==> LiteralAt(t2, i, lit)
  {
  }

  /** Whether and where a match starts at `i` does not depend on letter case. */
  lemma MatchEndIgnoresCase(t1: string, t2: string, i: nat, p: Pattern)
    requires SameIgnoringCase(t1, t2) && i <= |t1|
    ensures MatchEnd(t1, i, p) == MatchEnd(t2, i, p)
  {
    var open := Open(p.name);
    LiteralAtIgnoresCase(t1, t2, i, open);
    var j := i + |open|;
    if LiteralAt(t1, i, open) {
      match p.form
      case Bare =>
        ClosesAtIgnoresCase(t1, t2, j);
      case Parameterised =>
        if j < |t1| {
          SameFoldSameDelimiter(t1[j], t2[j]);
          RunEndIgnoresCase(t1, t2, j + 1);
          ClosesAtIgnoresCase(t1, t2, RunEnd(t1, j + 1));
        }
      case Loose =>
        RunEndIgnoresCase(t1, t2, j);
        ClosesAtIgnoresCase(t1, t2, RunEnd(t1, j));
    }
  }

  /**
   * The `i` flag: texts that differ only in letter case have their matches
   * at the same places, so the same number of them; in particular a text and
   * its lower-case form.
   */
  lemma OccurrencesIgnoreCase(t1: string, t2: string, p: Pattern)
    requires SameIgnoringCase(t1, t2)
    ensures Occurrences(t1, p) == Occurrences(t2, p)
    ensures |Matches(t1, p)| == |Matches(t2, p)|
    ensures Occurrences(t1, p) == Occurrences(Lower(t1), p)
  {
    forall k | 0 <= k < |t1|
      ensures MatchEnd(t1, k, p) == MatchEnd(t2, k, p) == MatchEnd(Lower(t1), k, p)
    {
      MatchEndIgnoresCase(t1, t2, k, p);
      MatchEndIgnoresCase(t1, Lower(t1), k, p);
    }
    assert EndsOf(t1, p) == EndsOf(t2, p);
    assert EndsOf(t1, p) == EndsOf(Lower(t1), p);
  }

  // ---------------------------------------------------------------------
  // Relations between the forms
  // ---------------------------------------------------------------------

  /** Where `{{n1` and `{{n2` both occur, the shorter valid name is a prefix of the longer. */
  lemma OpenNamesAgree(t: string, i: nat, n1: string, n2: string)
    requires ValidName(n1) && ValidName(n2) && |n1| <= |n2|
    requires LiteralAt(t, i, Open(n1)) && LiteralAt(t, i, Open(n2))
    ensures n1 == n2[..|n1|]
  {
    forall k | 0 <= k < |n1|
      ensures n1[k] == n2[k]
    {
      assert Open(n1)[k + 2] == n1[k] && Open(n2)[k + 2] == n2[k];
    }
  }

  /**
   * No occurrence is matched by two different exact patterns: the bare form
   * needs `}}` right after the name, the parameterised form needs `|`, and a
   * valid name never continues with either.
   */
  lemma ExactPatternsExclusive(t: string, i: nat, p: Pattern, q: Pattern)
    requires i <= |t| && ValidName(p.name) && ValidName(q.name)
    requires p.form != Loose && q.form != Loose
    requires MatchEnd(t, i, p).Some? && MatchEnd(t, i, q).Some?
    ensures p == q
  {
    if |p.name| <= |q.name| {
      OneNameFollowsAnother(t, i, p, q);
    } else {
      OneNameFollowsAnother(t, i, q, p);
    }
  }

  /** A valid name that continues past `n1` does not continue with `}` or `|`. */
  lemma LongerNameContinues(t: string, i: nat, n1: string, n2: string)
    requires ValidName(n2) && LiteralAt(t, i, Open(n2))
    ensures |n1| < |n2| ==> t[i + 2 + |n1|] != '}' && t[i + 2 + |n1|] != '|'
  {
    if |n1| < |n2| {
      var c := n2[|n1|];
      assert Open(n2)[2 + |n1|] == c;
      SameFoldSameDelimiter(t[i + 2 + |n1|], c);
    }
  }

  lemma OneNameFollowsAnother(t: string, i: nat, p: Pattern, q: Pattern)
    requires i <= |t| && ValidName(p.name) && ValidName(q.name) && |p.name| <= |q.name|
    requires p.form != Loose && q.form != Loose
    requires MatchEnd(t, i, p).Some? && MatchEnd(t, i, q).Some?
    ensures p == q
  {
    OpenNamesAgree(t, i, p.name, q.name);
    var x := i + 2 + |p.name|;
    assert t[x] == '}' || t[x] == '|';
    LongerNameContinues(t, i, p.name, q.name);
    assert p.name == q.name;
  }

  /** Every bare or parameterised match is also a match of the loose pattern of its family. */
  lemma LooseCoversExact(t: string, i: nat, name: string, form: Form)
    requires i <= |t| && form != Loose && MatchEnd(t, i, Pattern(name, form)).Some?
    ensures MatchEnd(t, i, Pattern(name, Loose)) == MatchEnd(t, i, Pattern(name, form))
  {
    var j := i + |Open(name)|;
    if form == Parameterised {
      assert RunEnd(t, j) == RunEnd(t, j + 1);
    }
  }

  // ---------------------------------------------------------------------
  // Counting match positions
  // ---------------------------------------------------------------------

  /** The number of positions from `i` on where a match starts. */
  function HitsFrom(ends: seq<Option<nat>>, i: nat): nat
    requires i <= |ends|
    decreases |ends| - i
  {
    if i == |ends| then 0
    else (if ends[i].Some? then 1 else 0) + HitsFrom(ends, i + 1)
  }

  /** No match starts strictly inside another match. */
  predicate NonNested(ends: seq<Option<nat>>)
  {
    forall a, b :: 0 <= a < b < |ends| && ends[a].Some? && ends[b].Some? ==> ends[a].value <= b
  }

  lemma {:induction false} NoHitsBetween(ends: seq<Option<nat>>, a: nat, b: nat)
    requires a <= b <= |ends|
    requires forall x :: a <= x < b ==> ends[x].None?
    ensures HitsFrom(ends, a) == HitsFrom(ends, b)
    decreases b - a
  {
    if a < b {
      NoHitsBetween(ends, a + 1, b);
    }
  }

  /**
   * When matches do not nest, the global scan reports every match position:
   * its count is the number of positions where a match starts.
   */
  lemma {:induction false} ScanCountsHits(ends: seq<Option<nat>>, i: nat)
    requires WellFormedEnds(ends) && NonNested(ends) && i <= |ends|
    ensures |Scan(ends, i)| == HitsFrom(ends, i)
    decreases |ends| - i
  {
    if i < |ends| {
      match ends[i]
      case Some(e) =>
        ScanCountsHits(ends, e);
        NoHitsBetween(ends, i + 1, e);
      case None =>
        ScanCountsHits(ends, i + 1);
    }
  }

  /**
   * A family is written plainly in `t` when its loose pattern only matches
   * where its bare or parameterised pattern does, and its loose matches do
   * not nest.
   */
  predicate PlainFamily(t: string, name: string)
  {
    && NonNested(EndsOf(t, Pattern(name, Loose)))
    && forall x :: 0 <= x < |t| && MatchEnd(t, x, Pattern(name, Loose)).Some? ==>
         MatchEnd(t, x, Pattern(name, Bare)).Some? || MatchEnd(t, x, Pattern(name, Parameterised)).Some?
  }

  /** At one position: the loose pattern matches exactly when one of the two exact forms does. */
  lemma PositionSplits(t: string, i: nat, name: string)
    requires i < |t|
    requires MatchEnd(t, i, Pattern(name, Loose)).Some? ==>
      MatchEnd(t, i, Pattern(name, Bare)).Some? || MatchEnd(t, i, Pattern(name, Parameterised)).Some?
    ensures MatchEnd(t, i, Pattern(name, Loose)).Some? <==>
      MatchEnd(t, i, Pattern(name, Bare)).Some? || MatchEnd(t, i, Pattern(name, Parameterised)).Some?
    ensures !(MatchEnd(t, i, Pattern(name, Bare)).Some? && MatchEnd(t, i, Pattern(name, Parameterised)).Some?)
  {
    if MatchEnd(t, i, Pattern(name, Bare)).Some? {
      LooseCoversExact(t, i, name, Bare);
      var j := i + |Open(name)|;
      assert t[j] == '}';
    }
    if MatchEnd(t, i, Pattern(name, Parameterised)).Some? {
      LooseCoversExact(t, i, name, Parameterised);
    }
  }

  /** Positions counted by `whole` are those counted by exactly one of `left` and `right`. */
  lemma {:induction false} HitsAdd(whole: seq<Option<nat>>, left: seq<Option<nat>>, right: seq<Option<nat>>, i: nat)
    requires |whole| == |left| == |right| && i <= |whole|
    requires forall k :: i <= k < |whole| ==>
      (whole[k].Some? <==> left[k].Some? || right[k].Some?) && !(left[k].Some? && right[k].Some?)
    ensures HitsFrom(whole, i) == HitsFrom(left, i) + HitsFrom(right, i)
    decreases |whole| - i
  {
    if i < |whole| {
      HitsAdd(whole, left, right, i + 1);
    }
  }

  lemma NonNestedExact(t: string, name: string, form: Form)
    requires form != Loose && NonNested(EndsOf(t, Pattern(name, Loose)))
    ensures NonNested(EndsOf(t, Pattern(name, form)))
  {
    var ends := EndsOf(t, Pattern(name, form));
    forall a, b | 0 <= a < b < |ends| && ends[a].Some? && ends[b].Some?
      ensures ends[a].value <= b
    {
      LooseCoversExact(t, a, name, form);
      LooseCoversExact(t, b, name, form);
    }
  }

  /**
   * In a plainly written family the loose pattern finds exactly as many
   * matches as the bare and the parameterised pattern together.
   */
  lemma PlainFamilyCounts(t: string, name: string)
    requires PlainFamily(t, name)
    ensures |Matches(t, Pattern(name, Loose))| ==
      |Matches(t, Pattern(name, Bare))| + |Matches(t, Pattern(name, Parameterised))|
  {
    var loose, bare, param := Pattern(name, Loose), Pattern(name, Bare), Pattern(name, Parameterised);
    NonNestedExact(t, name, Bare);
    NonNestedExact(t, name, Parameterised);
    EndsOfWellFormed(t, loose);
    EndsOfWellFormed(t, bare);
    EndsOfWellFormed(t, param);
    ScanCountsHits(EndsOf(t, loose), 0);
    ScanCountsHits(EndsOf(t, bare), 0);
    ScanCountsHits(EndsOf(t, param), 0);
    forall k | 0 <= k < |t|
      ensures (MatchEnd(t, k, loose).Some? <==> MatchEnd(t, k, bare).Some? || MatchEnd(t, k, param).Some?)
        && !(MatchEnd(t, k, bare).Some? && MatchEnd(t, k, param).Some?)
    {
      PositionSplits(t, k, name);
    }
    HitsAdd(EndsOf(t, loose), EndsOf(t, bare), EndsOf(t, param), 0);
  }

  // ---------------------------------------------------------------------
  // Worked examples
  // ---------------------------------------------------------------------

  /** `{{Cn}}` is one match of `/\{\{cn\}\}/gi`, reported as written. */
  lemma UpperCaseBareMatch()
    ensures Matches("{{Cn}}", Pattern("cn", Bare)) == ["{{Cn}}"]
  {
    var t := "{{Cn}}";
    var ends := EndsOf(t, Pattern("cn", Bare));
    EndsOfWellFormed(t, Pattern("cn", Bare));
    assert Open("cn") == "{{cn";
    assert LowerChar(t[2]) == 'c';
    assert LiteralAt(t, 0, "{{cn");
    assert ClosesAt(t, 4);
    assert ends[0] == Some(6);
    assert Scan(ends, 0) == [Span(0, 6)] + Scan(ends, 6);
    assert t[0..6] == t;
  }

  /** The parameter run stops at the first `}`: the match ends at the first `}}`. */
  lemma ParameterRunEndsAtFirstBrace()
    ensures MatchEnd("{{cn|a}}b}}", 0, Pattern("cn", Parameterised)) == Some(8)
  {
    var t := "{{cn|a}}b}}";
    assert Open("cn") == "{{cn";
    assert LiteralAt(t, 0, "{{cn");
    assert RunEnd(t, 6) == 6;
    assert RunEnd(t, 5) == 6;
    assert ClosesAt(t, 6);
  }

  /** A single `}` inside the parameters ends the run without closing the template: no match. */
  lemma LoneBraceBreaksParameters()
    ensures MatchEnd("{{cn|a}b}}", 0, Pattern("cn", Parameterised)) == None
  {
    var t := "{{cn|a}b}}";
    assert Open("cn") == "{{cn";
    assert LiteralAt(t, 0, "{{cn");
    assert RunEnd(t, 6) == 6;
    assert RunEnd(t, 5) == 6;
    assert !ClosesAt(t, 6);
  }
}
