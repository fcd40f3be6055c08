/**
 * `FactTagCounter`: counts the fact-checking templates of a wikitext (the
 * "citation needed" family and its relatives), lists them pattern by
 * pattern with a few examples, and sorts them into four categories.
 *
 * The source keeps its catalogue in a field that is written once, by the
 * constructor, and only read afterwards; here it is the module constant
 * `FactTagPatterns`, and the three operations are methods whose loops follow
 * the source's loops over the catalogue.
 */
module FactTagCounter {
  import opened TagPattern

  /** The argument of the counting methods: a string, or any other JavaScript value. */
  datatype WikiText = Text(s: string) | NotText

  // ---------------------------------------------------------------------
  // The catalogue
  // ---------------------------------------------------------------------

  /** The families of the core citation-needed tags. */
  const CoreNames: seq<string> := ["fact", "citation needed", "cn"]

  /** The core tags: the three bare expressions, then the three with parameters. */
  const CorePatterns: seq<Pattern> := [
    Pattern("fact", Bare),
    Pattern("citation needed", Bare),
    Pattern("cn", Bare),
    Pattern("fact", Parameterised),
    Pattern("citation needed", Parameterised),
    Pattern("cn", Parameterised)]

  const SourceQualityNames: seq<string> := [
    "better source needed", "unreliable source?", "verify source",
    "primary source needed", "third-party needed", "sources needed"]

  const ClarificationNames: seq<string> := [
    "according to whom?", "by whom?", "when?", "where?", "which?", "who?", "how?", "why?"]

  /** The verification templates the catalogue lists after the clarification ones. */
  const AdditionalVerificationNames: seq<string> := [
    "failed verification", "page needed", "full citation needed"]

  const VerificationNames: seq<string> := ["dubious"] + AdditionalVerificationNames

  /** The families after the core tags, in catalogue order. */
  const FamilyNames: seq<string> :=
    SourceQualityNames + ["dubious"] + ClarificationNames + AdditionalVerificationNames

  /**
   * The expressions of the catalogue, in the order the counter tries them:
   * the core tags, then for each further family its bare expression
   * followed by its parameterised one.
   */
  const FactTagPatterns: seq<Pattern> := CorePatterns + Paired(FamilyNames)

  /** The bare and then the parameterised pattern of each family, in order. */
  function Paired(names: seq<string>): (ps: seq<Pattern>)
    ensures |ps| == 2 * |names|
  {
    if names == [] then []
    else [Pattern(names[0], Bare), Pattern(names[0], Parameterised)] + Paired(names[1..])
  }

  /** The loose pattern of each family, in order. */
  function Looses(names: seq<string>): (ps: seq<Pattern>)
    ensures |ps| == |names|
  {
    if names == [] then [] else [Pattern(names[0], Loose)] + Looses(names[1..])
  }

  /** The pattern `source` string JavaScript reports for an expression. */
  function Source(p: Pattern): string
  {
    "\\{\\{" + Escaped(p.name) +
    match p.form
    case Bare => "\\}\\}"
    case Parameterised => "\\|[^}]*\\}\\}"
    case Loose => "[^}]*\\}\\}"
  }

  /** A name as written inside an expression: `?` is escaped. */
  function Escaped(name: string): string
  {
    if name == [] then []
    else (if name[0] == '?' then "\\?" else [name[0]]) + Escaped(name[1..])
  }

  /** `Source` spells the expressions as the catalogue writes them, `?` escaped. */
  lemma SourceSpelling()
    ensures Source(Pattern("cn", Bare)) == "\\{\\{cn\\}\\}"
    ensures Source(Pattern("who?", Parameterised)) == "\\{\\{who\\?\\|[^}]*\\}\\}"
    ensures Source(Pattern("who?", Loose)) == "\\{\\{who\\?[^}]*\\}\\}"
  {
    BareSourceSpelling();
    ParameterisedSourceSpelling();
    LooseSourceSpelling();
  }

  lemma BareSourceSpelling()
    ensures Source(Pattern("cn", Bare)) == "\\{\\{cn\\}\\}"
  {
    EscapedSteps();
    SourceParts(Pattern("cn", Bare), "cn");
  }

  lemma ParameterisedSourceSpelling()
    ensures Source(Pattern("who?", Parameterised)) == "\\{\\{who\\?\\|[^}]*\\}\\}"
  {
    EscapedSteps();
    SourceParts(Pattern("who?", Parameterised), "who\\?");
  }

  lemma LooseSourceSpelling()
    ensures Source(Pattern("who?", Loose)) == "\\{\\{who\\?[^}]*\\}\\}"
  {
    EscapedSteps();
    SourceParts(Pattern("who?", Loose), "who\\?");
  }

  /** The three parts `Source` puts together. */
  lemma SourceParts(p: Pattern, escaped: string)
    requires Escaped(p.name) == escaped
    ensures p.form == Bare ==> Source(p) == "\\{\\{" + escaped + "\\}\\}"
    ensures p.form == Parameterised ==> Source(p) == "\\{\\{" + escaped + "\\|[^}]*\\}\\}"
    ensures p.form == Loose ==> Source(p) == "\\{\\{" + escaped + "[^}]*\\}\\}"
  {
  }

  lemma EscapedSteps()
    ensures Escaped("cn") == "cn"
    ensures Escaped("who?") == "who\\?"
  {
    assert Escaped("") == "";
    assert "?"[1..] == "" && "o?"[1..] == "?" && "ho?"[1..] == "o?" && "who?"[1..] == "ho?";
    assert Escaped("?") == "\\?";
    assert Escaped("o?") == "o\\?";
    assert Escaped("ho?") == "ho\\?";
    assert "n"[1..] == "" && "cn"[1..] == "n";
    assert Escaped("n") == "n";
  }

  // ---------------------------------------------------------------------
  // Specification functions
  // ---------------------------------------------------------------------

  /** The number of matches of all of `ps`, each pattern scanned on its own. */
  function SumCounts(t: string, ps: seq<Pattern>): nat
  {
    if ps == [] then 0 else SumCounts(t, ps[..|ps| - 1]) + |Matches(t, ps[|ps| - 1])|
  }

  /** What `countFactTags` returns for a string. */
  function TotalCount(t: string): nat
  {
    SumCounts(t, FactTagPatterns)
  }

  /** `s.slice(0, n)`. */
  function Take<T>(s: seq<T>, n: nat): (r: seq<T>)
    ensures |r| <= n && r <= s
    ensures |r| < n ==> r == s
  {
    if |s| <= n then s else s[..n]
  }

  /** One element of `breakdown`: a pattern that matched, how often, and its first two matches. */
  datatype BreakdownEntry = BreakdownEntry(pattern: string, count: nat, examples: seq<string>)

  /** What `countFactTagsDetailed` returns. */
  datatype DetailedCount = DetailedCount(total: nat, breakdown: seq<BreakdownEntry>, examples: seq<string>)

  /** The breakdown entries of the patterns of `ps` that match at least once. */
  function BreakdownOf(t: string, ps: seq<Pattern>): seq<BreakdownEntry>
  {
    BreakdownBy(p => Matches(t, p), ps)
  }

  /** The breakdown for any way `matchesOf` of listing each pattern's matches. */
  function BreakdownBy(matchesOf: Pattern -> seq<string>, ps: seq<Pattern>): seq<BreakdownEntry>
  {
    if ps == [] then []
    else
      var last := ps[|ps| - 1];
      var matches := matchesOf(last);
      BreakdownBy(matchesOf, ps[..|ps| - 1]) +
        (if matches == [] then [] else [BreakdownEntry(Source(last), |matches|, Take(matches, 2))])
  }

  /** The first two matches of each pattern of `ps`, one pattern after another. */
  function ExamplesOf(t: string, ps: seq<Pattern>): seq<string>
  {
    if ps == [] then [] else ExamplesOf(t, ps[..|ps| - 1]) + Take(Matches(t, ps[|ps| - 1]), 2)
  }

  /** All matches of each pattern of `ps`, one pattern after another. */
  function AllMatches(t: string, ps: seq<Pattern>): seq<string>
  {
    if ps == [] then [] else AllMatches(t, ps[..|ps| - 1]) + Matches(t, ps[|ps| - 1])
  }

  // ---------------------------------------------------------------------
  // Counting
  // ---------------------------------------------------------------------

  /**
   * `countFactTags`: 0 for a missing, empty or non-string argument;
   * otherwise the number of matches of every catalogue pattern, added up.
   */
  method CountFactTags(wikitext: WikiText) returns (totalCount: nat)
    ensures totalCount == if wikitext.Text? then TotalCount(wikitext.s) else 0
  {
    if wikitext.NotText? || wikitext.s == "" {
      if wikitext.Text? {
        EmptyTextHasNoTags(FactTagPatterns);
      }
      return 0;
    }
    var text := wikitext.s;
    totalCount := 0;
    for i := 0 to |FactTagPatterns|
      invariant totalCount == SumCounts(text, FactTagPatterns[..i])
    {
      var matches := Matches(text, FactTagPatterns[i]);
      assert FactTagPatterns[..i + 1][..i] == FactTagPatterns[..i];
      totalCount := totalCount + |matches|;
    }
    assert FactTagPatterns[..|FactTagPatterns|] == FactTagPatterns;
  }

  /**
   * `countFactTagsDetailed`: the total, one breakdown entry per pattern
   * that matched (in catalogue order, with its first two matches), and the
   * first 15 of all those examples.
   */
  method CountFactTagsDetailed(wikitext: WikiText) returns (result: DetailedCount)
    ensures wikitext.NotText? ==> result == DetailedCount(0, [], [])
    ensures wikitext.Text? ==>
      result == DetailedCount(
        TotalCount(wikitext.s),
        BreakdownOf(wikitext.s, FactTagPatterns),
        Take(ExamplesOf(wikitext.s, FactTagPatterns), 15))
  {
    if wikitext.NotText? || wikitext.s == "" {
      if wikitext.Text? {
        EmptyTextHasNoTags(FactTagPatterns);
      }
      return DetailedCount(0, [], []);
    }
    var text := wikitext.s;
    var totalCount := 0;
    var breakdown: seq<BreakdownEntry> := [];
    var allExamples: seq<string> := [];
    for i := 0 to |FactTagPatterns|
      invariant totalCount == SumCounts(text, FactTagPatterns[..i])
      invariant breakdown == BreakdownOf(text, FactTagPatterns[..i])
      invariant allExamples == ExamplesOf(text, FactTagPatterns[..i])
    {
      var pattern := FactTagPatterns[i];
      var matches := Matches(text, pattern);
      assert FactTagPatterns[..i + 1][..i] == FactTagPatterns[..i];
      if matches != [] {
        var count := |matches|;
        totalCount := totalCount + count;
        breakdown := breakdown + [BreakdownEntry(Source(pattern), count, Take(matches, 2))];
        allExamples := allExamples + Take(matches, 2);
      }
    }
    assert FactTagPatterns[..|FactTagPatterns|] == FactTagPatterns;
    result := DetailedCount(totalCount, breakdown, Take(allExamples, 15));
  }

  // ---------------------------------------------------------------------
  // Categorisation
  // ---------------------------------------------------------------------

  /** The four keys of the object `categorizeFactTags` returns. */
  datatype Category = CitationNeeded | SourceQuality | Clarification | Verification

  /** The key as the source spells it. */
  function Label(c: Category): string
  {
    match c
    case CitationNeeded => "Citation Needed"
    case SourceQuality => "Source Quality"
    case Clarification => "Clarification"
    case Verification => "Verification"
  }

  /** The order in which the categories are filled. */
  const CategoryOrder: seq<Category> := [CitationNeeded, SourceQuality, Clarification, Verification]

  /** The expressions of each category. */
  function PatternsOf(c: Category): seq<Pattern>
  {
    match c
    case CitationNeeded => CorePatterns
    case SourceQuality => Looses(SourceQualityNames)
    case Clarification => Looses(ClarificationNames)
    case Verification => Looses(VerificationNames)
  }

  /**
   * `categorizeFactTags`: for each category, the matches of each of its
   * patterns, pattern after pattern.
   */
  method CategorizeFactTags(wikitext: string) returns (categories: map<Category, seq<string>>)
    ensures categories.Keys == {CitationNeeded, SourceQuality, Clarification, Verification}
    ensures forall c :: c in categories ==> categories[c] == AllMatches(wikitext, PatternsOf(c))
  {
    categories := map[CitationNeeded := [], SourceQuality := [], Clarification := [], Verification := []];
    ghost var expected := (c: Category) => AllMatches(wikitext, PatternsOf(c));
    for k := 0 to |CategoryOrder|
      invariant categories == Filled(expected, k)
    {
      var category := CategoryOrder[k];
      var patterns := PatternsOf(category);
      var list := CollectMatches(wikitext, patterns);
      categories := categories[category := list];
    }
    FilledComplete(expected);
  }

  /** The categories after the first `k` of them, in `CategoryOrder`, have been given their `expected` lists. */
  ghost function Filled(expected: Category -> seq<string>, k: nat): map<Category, seq<string>>
    requires k <= |CategoryOrder|
  {
    if k == 0 then map[CitationNeeded := [], SourceQuality := [], Clarification := [], Verification := []]
    else
      var c := CategoryOrder[k - 1];
      Filled(expected, k - 1)[c := expected(c)]
  }

  /** Once all four are filled in, every category holds its expected list. */
  lemma FilledComplete(expected: Category -> seq<string>)
    ensures Filled(expected, |CategoryOrder|).Keys == {CitationNeeded, SourceQuality, Clarification, Verification}
    ensures forall c :: c in Filled(expected, |CategoryOrder|) ==> Filled(expected, |CategoryOrder|)[c] == expected(c)
  {
    assert Filled(expected, 1) == Filled(expected, 0)[CitationNeeded := expected(CitationNeeded)];
    assert Filled(expected, 2) == Filled(expected, 1)[SourceQuality := expected(SourceQuality)];
    assert Filled(expected, 3) == Filled(expected, 2)[Clarification := expected(Clarification)];
    assert Filled(expected, 4) == Filled(expected, 3)[Verification := expected(Verification)];
  }

  /** The inner loop of `categorizeFactTags`: the matches of each pattern, pattern after pattern. */
  method CollectMatches(wikitext: string, patterns: seq<Pattern>) returns (list: seq<string>)
    ensures list == AllMatches(wikitext, patterns)
  {
    list := [];
    for m := 0 to |patterns|
      invariant list == AllMatches(wikitext, patterns[..m])
    {
      var matches := Matches(wikitext, patterns[m]);
      assert patterns[..m + 1][..m] == patterns[..m];
      list := list + matches;
    }
    assert patterns[..|patterns|] == patterns;
  }

  // ---------------------------------------------------------------------
  // Properties
  // ---------------------------------------------------------------------

  /** An empty text has no match of any pattern. */
  lemma {:induction false} EmptyTextHasNoTags(ps: seq<Pattern>)
    ensures SumCounts("", ps) == 0
    ensures BreakdownOf("", ps) == []
    ensures ExamplesOf("", ps) == []
    ensures AllMatches("", ps) == []
  {
    if ps != [] {
      EmptyTextHasNoTags(ps[..|ps| - 1]);
      assert Matches("", ps[|ps| - 1]) == [];
    }
  }

  lemma {:induction false} SumCountsAppend(t: string, a: seq<Pattern>, b: seq<Pattern>)
    ensures SumCounts(t, a + b) == SumCounts(t, a) + SumCounts(t, b)
    decreases |b|
  {
    if b == [] {
      assert a + b == a;
    } else {
      var front := b[..|b| - 1];
      assert (a + b)[..|a + b| - 1] == a + front;
      assert (a + b)[|a + b| - 1] == b[|b| - 1];
      SumCountsAppend(t, a, front);
    }
  }

  /** The list of a category is as long as its patterns' match counts added up. */
  lemma {:induction false} AllMatchesCount(t: string, ps: seq<Pattern>)
    ensures |AllMatches(t, ps)| == SumCounts(t, ps)
  {
    if ps != [] {
      AllMatchesCount(t, ps[..|ps| - 1]);
    }
  }

  /** Two texts whose every pattern has as many matches have the same sum. */
  lemma {:induction false} SumCountsAgree(t1: string, t2: string, ps: seq<Pattern>)
    requires forall p :: p in ps ==> |Matches(t1, p)| == |Matches(t2, p)|
    ensures SumCounts(t1, ps) == SumCounts(t2, ps)
  {
    if ps != [] {
      assert ps[|ps| - 1] in ps;
      SumCountsAgree(t1, t2, ps[..|ps| - 1]);
    }
  }

  /**
   * Counting is case-insensitive: texts that differ only in letter case
   * (`{{Citation Needed}}`, `{{FACT}}`, `{{Cn}}`) have the same total, which
   * is the total of the lower-case text.
   */
  lemma TotalCountIgnoresCase(t1: string, t2: string)
    requires SameIgnoringCase(t1, t2)
    ensures TotalCount(t1) == TotalCount(t2)
    ensures TotalCount(t1) == TotalCount(Lower(t1))
  {
    forall p | p in FactTagPatterns
      ensures |Matches(t1, p)| == |Matches(t2, p)| == |Matches(Lower(t1), p)|
    {
      OccurrencesIgnoreCase(t1, t2, p);
    }
    SumCountsAgree(t1, t2, FactTagPatterns);
    SumCountsAgree(t1, Lower(t1), FactTagPatterns);
  }

  /** Without a `{{` anywhere nothing is counted. */
  lemma {:induction false} NoOpeningNoTags(t: string, ps: seq<Pattern>)
    requires forall i :: 0 <= i < |t| - 1 ==> !(t[i] == '{' && t[i + 1] == '{')
    ensures SumCounts(t, ps) == 0 && AllMatches(t, ps) == []
  {
    if ps != [] {
      NoOpeningNoMatches(t, ps[|ps| - 1]);
      NoOpeningNoTags(t, ps[..|ps| - 1]);
    }
  }


  // ---------------------------------------------------------------------
  // The shape of the catalogue
  // ---------------------------------------------------------------------

  /** Entry `j` of `Paired(names)` is the bare (even `j`) or parameterised (odd `j`) expression of `names[j / 2]`. */
  lemma {:induction false} PairedIndex(names: seq<string>, j: nat)
    requires j < |Paired(names)|
    ensures Paired(names)[j] == Pattern(names[j / 2], if j % 2 == 0 then Bare else Parameterised)
  {
    if j >= 2 {
      PairedIndex(names[1..], j - 2);
      assert Paired(names)[j] == Paired(names[1..])[j - 2];
    }
  }

  /** `Paired(names)` holds exactly the bare and the parameterised expression of each name. */
  lemma PairedMembers(names: seq<string>)
    ensures forall p :: p in Paired(names) ==> p.name in names && p.form != Loose
    ensures forall n :: n in names ==> Pattern(n, Bare) in Paired(names) && Pattern(n, Parameterised) in Paired(names)
  {
    var ps := Paired(names);
    forall p | p in ps
      ensures p.name in names && p.form != Loose
    {
      var j :| 0 <= j < |ps| && ps[j] == p;
      PairedIndex(names, j);
    }
    forall n | n in names
      ensures Pattern(n, Bare) in ps && Pattern(n, Parameterised) in ps
    {
      var k :| 0 <= k < |names| && names[k] == n;
      PairedIndex(names, 2 * k);
      PairedIndex(names, 2 * k + 1);
    }
  }

  lemma CoreNamesValid()
    ensures forall n :: n in CoreNames ==> ValidName(n)
  {
    assert ValidName(CoreNames[0]);
    assert ValidName(CoreNames[1]);
    assert ValidName(CoreNames[2]);
  }

  lemma SourceQualityNamesValid()
    ensures forall n :: n in SourceQualityNames ==> ValidName(n)
  {
    FirstSourceQualityNamesValid();
    LastSourceQualityNamesValid();
  }

  lemma FirstSourceQualityNamesValid()
    ensures ValidName(SourceQualityNames[0]) && ValidName(SourceQualityNames[1]) && ValidName(SourceQualityNames[2])
  {
    assert ValidName(SourceQualityNames[0]);
    assert ValidName(SourceQualityNames[1]);
  }

  lemma LastSourceQualityNamesValid()
    ensures ValidName(SourceQualityNames[3]) && ValidName(SourceQualityNames[4]) && ValidName(SourceQualityNames[5])
  {
    assert ValidName(SourceQualityNames[3]);
    assert ValidName(SourceQualityNames[4]);
  }

  lemma ClarificationNamesValid()
    ensures forall n :: n in ClarificationNames ==> ValidName(n)
  {
    assert ValidName(ClarificationNames[0]);
    assert ValidName(ClarificationNames[1]);
    assert ValidName(ClarificationNames[2]);
    assert ValidName(ClarificationNames[3]);
    assert ValidName(ClarificationNames[4]);
    assert ValidName(ClarificationNames[5]);
    assert ValidName(ClarificationNames[6]);
    assert ValidName(ClarificationNames[7]);
  }

  lemma VerificationNamesValid()
    ensures forall n :: n in VerificationNames ==> ValidName(n)
  {
    assert ValidName(VerificationNames[0]);
    assert ValidName(VerificationNames[1]);
    assert ValidName(VerificationNames[2]);
    assert ValidName(VerificationNames[3]);
  }

  /** No family name is listed twice, in the same category or in two. */
  lemma NamesDistinct()
    ensures forall a, b :: 0 <= a < b < |CoreNames + FamilyNames| ==>
      (CoreNames + FamilyNames)[a] != (CoreNames + FamilyNames)[b]
  {
  }

  /** Every catalogue entry is a bare or parameterised expression of a valid name. */
  lemma CatalogueWellFormed()
    ensures |FactTagPatterns| == 42
    ensures forall p :: p in FactTagPatterns ==> ValidName(p.name) && p.form != Loose
  {
    CoreNamesValid();
    SourceQualityNamesValid();
    ClarificationNamesValid();
    VerificationNamesValid();
    assert forall p :: p in CorePatterns ==> p.name in CoreNames && p.form != Loose;
    ConcatValid(SourceQualityNames, ["dubious"], ClarificationNames, AdditionalVerificationNames);
    PairedWellFormed(CorePatterns, FamilyNames);
  }

  /** Four lists of valid names, the second and fourth checked together, concatenate to valid names. */
  lemma ConcatValid(a: seq<string>, b: seq<string>, c: seq<string>, d: seq<string>)
    requires forall n :: n in a ==> ValidName(n)
    requires forall n :: n in b + d ==> ValidName(n)
    requires forall n :: n in c ==> ValidName(n)
    ensures forall n :: n in a + b + c + d ==> ValidName(n)
  {
    forall n | n in a + b + c + d
      ensures ValidName(n)
    {
      if n in b || n in d {
        assert n in b + d;
      }
    }
  }

  /** A catalogue laid out as `core + Paired(families)` is well formed when its parts are. */
  lemma PairedWellFormed(core: seq<Pattern>, families: seq<string>)
    requires forall p :: p in core ==> ValidName(p.name) && p.form != Loose
    requires forall n :: n in families ==> ValidName(n)
    ensures forall p :: p in core + Paired(families) ==> ValidName(p.name) && p.form != Loose
  {
    PairedMembers(families);
  }

  /** The family name of catalogue entry `j`, as an index into `CoreNames + FamilyNames`. */
  lemma CatalogueEntryName(j: nat) returns (k: nat)
    requires j < |FactTagPatterns|
    ensures k < |CoreNames + FamilyNames| && FactTagPatterns[j].name == (CoreNames + FamilyNames)[k]
    ensures j < |CorePatterns| <==> k < |CoreNames|
    ensures |CorePatterns| <= j ==> k == |CoreNames| + (j - |CorePatterns|) / 2
  {
    if j < |CorePatterns| {
      k := j % 3;
    } else {
      PairedIndex(FamilyNames, j - |CorePatterns|);
      k := |CoreNames| + (j - |CorePatterns|) / 2;
    }
  }

  /** No two entries of the catalogue are the same expression. */
  lemma CatalogueDistinct()
    ensures forall a, b :: 0 <= a < b < |FactTagPatterns| ==> FactTagPatterns[a] != FactTagPatterns[b]
  {
    NamesDistinct();
    forall a, b | 0 <= a < b < |FactTagPatterns|
      ensures FactTagPatterns[a] != FactTagPatterns[b]
    {
      var ka := CatalogueEntryName(a);
      var kb := CatalogueEntryName(b);
      if |CorePatterns| <= a {
        PairedIndex(FamilyNames, a - |CorePatterns|);
        PairedIndex(FamilyNames, b - |CorePatterns|);
      }
    }
  }

  /**
   * No occurrence is counted twice: when two catalogue entries match at the
   * same position of the text, they are the same entry.
   */
  lemma CatalogueExclusive(t: string, i: nat, a: nat, b: nat)
    requires i <= |t| && a < |FactTagPatterns| && b < |FactTagPatterns|
    requires MatchEnd(t, i, FactTagPatterns[a]).Some? && MatchEnd(t, i, FactTagPatterns[b]).Some?
    ensures a == b
  {
    CatalogueWellFormed();
    CatalogueDistinct();
    assert FactTagPatterns[a] in FactTagPatterns && FactTagPatterns[b] in FactTagPatterns;
    ExactPatternsExclusive(t, i, FactTagPatterns[a], FactTagPatterns[b]);
  }

  // ---------------------------------------------------------------------
  // Categories and the catalogue
  // ---------------------------------------------------------------------

  /** The families a category covers. */
  function NamesOf(c: Category): seq<string>
  {
    match c
    case CitationNeeded => CoreNames
    case SourceQuality => SourceQualityNames
    case Clarification => ClarificationNames
    case Verification => VerificationNames
  }

  /** Every family of the catalogue belongs to a category. */
  lemma CatalogueNamesCategorised()
    ensures forall p :: p in FactTagPatterns ==>
      p.name in NamesOf(CitationNeeded) || p.name in NamesOf(SourceQuality) ||
      p.name in NamesOf(Clarification) || p.name in NamesOf(Verification)
  {
    PairedMembers(FamilyNames);
    forall p | p in FactTagPatterns
      ensures p.name in CoreNames || p.name in FamilyNames
    {
      if p !in CorePatterns {
        assert p in Paired(FamilyNames);
      }
    }
  }

  /** Every family of a category is in the catalogue, in both its forms. */
  lemma CategoryNamesCatalogued()
    ensures forall c, n :: n in NamesOf(c) ==>
      Pattern(n, Bare) in FactTagPatterns && Pattern(n, Parameterised) in FactTagPatterns
  {
    CatalogueHasFamilies(CorePatterns, CoreNames, FamilyNames);
    forall c, n | n in NamesOf(c)
      ensures n in CoreNames + FamilyNames
    {
      var k := IndexInCatalogueNames(c, n);
    }
  }

  /** A catalogue laid out as `core + Paired(families)` has both expressions of every family. */
  lemma CatalogueHasFamilies(core: seq<Pattern>, coreNames: seq<string>, families: seq<string>)
    requires forall n :: n in coreNames ==> Pattern(n, Bare) in core && Pattern(n, Parameterised) in core
    ensures forall n :: n in coreNames + families ==>
      Pattern(n, Bare) in core + Paired(families) && Pattern(n, Parameterised) in core + Paired(families)
  {
    PairedMembers(families);
  }

  /**
   * "Citation Needed" uses the six core expressions; each other category
   * the loose expression of each of its families.
   */
  lemma CategoryPatternsOfNames()
    ensures PatternsOf(CitationNeeded) == FactTagPatterns[..|CorePatterns|]
    ensures forall p :: p in PatternsOf(CitationNeeded) ==> p.name in NamesOf(CitationNeeded) && p.form != Loose
    ensures forall c :: c != CitationNeeded ==> PatternsOf(c) == Looses(NamesOf(c))
  {
    assert FactTagPatterns[..|CorePatterns|] == CorePatterns;
  }

  /** No family belongs to two categories. */
  lemma CategoryNamesDisjoint()
    ensures forall c1, c2, n :: n in NamesOf(c1) && n in NamesOf(c2) ==> c1 == c2
  {
    NamesDistinct();
    var all := CoreNames + FamilyNames;
    forall c1, c2, n | n in NamesOf(c1) && n in NamesOf(c2)
      ensures c1 == c2
    {
      var a := IndexInCatalogueNames(c1, n);
      var b := IndexInCatalogueNames(c2, n);
      assert a == b;
    }
  }

  /** Where a category's family sits in `CoreNames + FamilyNames`; the four categories use disjoint index ranges. */
  lemma IndexInCatalogueNames(c: Category, n: string) returns (k: nat)
    requires n in NamesOf(c)
    ensures k < |CoreNames + FamilyNames| && (CoreNames + FamilyNames)[k] == n
    ensures match c
      case CitationNeeded => k < 3
      case SourceQuality => 3 <= k < 9
      case Clarification => 10 <= k < 18
      case Verification => k == 9 || 18 <= k
  {
    var all := CoreNames + FamilyNames;
    var i :| 0 <= i < |NamesOf(c)| && NamesOf(c)[i] == n;
    match c
    case CitationNeeded =>
      k := i;
    case SourceQuality =>
      k := 3 + i;
    case Clarification =>
      k := 10 + i;
    case Verification =>
      k := if i == 0 then 9 else 17 + i;
  }

  lemma {:induction false} PairedAppend(a: seq<string>, b: seq<string>)
    ensures Paired(a + b) == Paired(a) + Paired(b)
  {
    if a != [] {
      assert (a + b)[1..] == a[1..] + b;
      PairedAppend(a[1..], b);
    } else {
      assert a + b == b;
    }
  }

  lemma {:induction false} LoosesAppend(a: seq<string>, b: seq<string>)
    ensures Looses(a + b) == Looses(a) + Looses(b)
  {
    if a != [] {
      assert (a + b)[1..] == a[1..] + b;
      LoosesAppend(a[1..], b);
    } else {
      assert a + b == b;
    }
  }

  /** The loose expression of family `name` finds as many matches as its bare and parameterised ones together. */
  predicate LooseCountSplits(t: string, name: string)
  {
    |Matches(t, Pattern(name, Loose))| == |Matches(t, Pattern(name, Bare))| + |Matches(t, Pattern(name, Parameterised))|
  }

  /**
   * For families written plainly, the loose expressions find as many matches
   * as the bare and parameterised ones together.
   */
  lemma {:induction false} PlainFamiliesCount(t: string, names: seq<string>)
    requires forall n :: n in names ==> LooseCountSplits(t, n)
    ensures SumCounts(t, Looses(names)) == SumCounts(t, Paired(names))
  {
    if names != [] {
      var n := names[0];
      assert n in names;
      PlainFamiliesCount(t, names[1..]);
      SumCountsAppend(t, [Pattern(n, Loose)], Looses(names[1..]));
      SumCountsAppend(t, [Pattern(n, Bare), Pattern(n, Parameterised)], Paired(names[1..]));
      assert [Pattern(n, Bare), Pattern(n, Parameterised)][..1] == [Pattern(n, Bare)];
      assert [Pattern(n, Loose)][..0] == [];
    }
  }

  /** The "Citation Needed" list is as long as the first six catalogue entries' match counts added up. */
  lemma CitationNeededCount(t: string)
    ensures |AllMatches(t, PatternsOf(CitationNeeded))| == SumCounts(t, FactTagPatterns[..6])
  {
    CategoryPatternsOfNames();
    AllMatchesCount(t, PatternsOf(CitationNeeded));
  }

  /** Every category of an empty text is empty. */
  lemma EmptyTextCategories()
    ensures forall c :: AllMatches("", PatternsOf(c)) == []
  {
    forall c
      ensures AllMatches("", PatternsOf(c)) == []
    {
      EmptyTextHasNoTags(PatternsOf(c));
    }
  }

  /**
   * When every family outside the core is written plainly (no tag inside
   * another's parameters, no loose-only spelling such as `{{dubious reason}}`),
   * the four category lists together are as long as the total count.
   */
  lemma CategorySizesAddUp(t: string)
    requires forall n :: n in FamilyNames ==> PlainFamily(t, n)
    ensures |AllMatches(t, PatternsOf(CitationNeeded))| + |AllMatches(t, PatternsOf(SourceQuality))|
      + |AllMatches(t, PatternsOf(Clarification))| + |AllMatches(t, PatternsOf(Verification))|
      == TotalCount(t)
  {
    forall n | n in FamilyNames
      ensures LooseCountSplits(t, n)
    {
      PlainFamilyCounts(t, n);
    }
    CategoryListsCount(t, SourceQualityNames, ["dubious"], ClarificationNames, AdditionalVerificationNames,
      PatternsOf(CitationNeeded), PatternsOf(SourceQuality), PatternsOf(Clarification), PatternsOf(Verification));
  }

  /** `CategorySizesAddUp` for any lists of families laid out as in the catalogue. */
  lemma CategoryListsCount(t: string, sq: seq<string>, dub: seq<string>, cl: seq<string>, add: seq<string>,
                           core: seq<Pattern>, sqs: seq<Pattern>, cls: seq<Pattern>, vers: seq<Pattern>)
    requires forall n :: n in sq + dub + cl + add ==> LooseCountSplits(t, n)
    requires sqs == Looses(sq) && cls == Looses(cl) && vers == Looses(dub + add)
    ensures |AllMatches(t, core)| + |AllMatches(t, sqs)| + |AllMatches(t, cls)| + |AllMatches(t, vers)|
      == SumCounts(t, core + Paired(sq + dub + cl + add))
  {
    AllMatchesCount(t, core);
    AllMatchesCount(t, sqs);
    AllMatchesCount(t, cls);
    AllMatchesCount(t, vers);
    SplitFamilies(t, core, sq, dub, cl, add);
  }

  /**
   * The counting behind `CategorySizesAddUp`, for any core and any four
   * lists of families laid out as in the catalogue.
   */
  lemma SplitFamilies(t: string, core: seq<Pattern>, sq: seq<string>, dub: seq<string>, cl: seq<string>, add: seq<string>)
    requires forall n :: n in sq + dub + cl + add ==> LooseCountSplits(t, n)
    ensures SumCounts(t, core) + SumCounts(t, Looses(sq)) + SumCounts(t, Looses(cl)) + SumCounts(t, Looses(dub + add))
      == SumCounts(t, core + Paired(sq + dub + cl + add))
  {
    PartsSplit(t, sq, dub, cl, add);
    PlainFamiliesCount(t, sq);
    PlainFamiliesCount(t, cl);
    PlainFamiliesCount(t, dub);
    PlainFamiliesCount(t, add);
    LoosesAppend(dub, add);
    SumCountsAppend(t, Looses(dub), Looses(add));
    PairedFourCounts(t, sq, dub, cl, add);
    SumCountsAppend(t, core, Paired(sq + dub + cl + add));
  }

  lemma PartsSplit(t: string, a: seq<string>, b: seq<string>, c: seq<string>, d: seq<string>)
    requires forall n :: n in a + b + c + d ==> LooseCountSplits(t, n)
    ensures forall n :: n in a ==> LooseCountSplits(t, n)
    ensures forall n :: n in b ==> LooseCountSplits(t, n)
    ensures forall n :: n in c ==> LooseCountSplits(t, n)
    ensures forall n :: n in d ==> LooseCountSplits(t, n)
  {
  }

  lemma PairedFourCounts(t: string, a: seq<string>, b: seq<string>, c: seq<string>, d: seq<string>)
    ensures SumCounts(t, Paired(a + b + c + d)) ==
      SumCounts(t, Paired(a)) + SumCounts(t, Paired(b)) + SumCounts(t, Paired(c)) + SumCounts(t, Paired(d))
  {
    PairedAppend(a + b + c, d);
    PairedAppend(a + b, c);
    PairedAppend(a, b);
    SumCountsAppend(t, Paired(a + b + c), Paired(d));
    SumCountsAppend(t, Paired(a + b), Paired(c));
    SumCountsAppend(t, Paired(a), Paired(b));
  }
  // ---------------------------------------------------------------------
  // The detailed count
  // ---------------------------------------------------------------------

  /** The counts of the entries of a breakdown, added up. */
  function BreakdownTotal(entries: seq<BreakdownEntry>): nat
  {
    if entries == [] then 0 else BreakdownTotal(entries[..|entries| - 1]) + entries[|entries| - 1].count
  }

  /** The examples of the entries of a breakdown, one entry after another. */
  function BreakdownExamples(entries: seq<BreakdownEntry>): seq<string>
  {
    if entries == [] then [] else BreakdownExamples(entries[..|entries| - 1]) + entries[|entries| - 1].examples
  }

  /**
   * The breakdown accounts for everything counted: its counts add up to the
   * total, its examples are the collected examples, and every entry has
   * matched at least once and keeps at most two examples.
   */
  lemma {:induction false} BreakdownAccounts(t: string, ps: seq<Pattern>)
    ensures BreakdownTotal(BreakdownOf(t, ps)) == SumCounts(t, ps)
    ensures BreakdownExamples(BreakdownOf(t, ps)) == ExamplesOf(t, ps)
    ensures forall e :: e in BreakdownOf(t, ps) ==>
      e.count >= 1 && |e.examples| == (if e.count < 2 then e.count else 2)
  {
    if ps != [] {
      var front := ps[..|ps| - 1];
      var matches := Matches(t, ps[|ps| - 1]);
      BreakdownAccounts(t, front);
      var before := BreakdownOf(t, front);
      if matches != [] {
        var entries := before + [BreakdownEntry(Source(ps[|ps| - 1]), |matches|, Take(matches, 2))];
        assert entries[..|entries| - 1] == before;
      } else {
        assert Take(matches, 2) == [];
        assert BreakdownOf(t, ps) == before;
      }
    }
  }

  /**
   * The breakdown lists, in catalogue order, exactly the patterns that
   * matched: `index` gives for each entry the position of its pattern.
   */
  lemma BreakdownFollowsCatalogue(t: string, ps: seq<Pattern>) returns (index: seq<nat>)
    ensures |index| == |BreakdownOf(t, ps)|
    ensures forall k :: 0 <= k < |index| ==> index[k] < |ps| && EntryOf(Matches(t, ps[index[k]]), ps[index[k]], BreakdownOf(t, ps)[k])
    ensures forall k, l :: 0 <= k < l < |index| ==> index[k] < index[l]
    ensures forall j :: 0 <= j < |ps| && Matches(t, ps[j]) != [] ==> j in index
  {
    index := BreakdownByFollows(p => Matches(t, p), ps);
  }

  /** `BreakdownFollowsCatalogue` for any way of listing each pattern's matches. */
  lemma {:induction false} BreakdownByFollows(matchesOf: Pattern -> seq<string>, ps: seq<Pattern>) returns (index: seq<nat>)
    ensures |index| == |BreakdownBy(matchesOf, ps)|
    ensures forall k :: 0 <= k < |index| ==>
      index[k] < |ps| && EntryOf(matchesOf(ps[index[k]]), ps[index[k]], BreakdownBy(matchesOf, ps)[k])
    ensures forall k, l :: 0 <= k < l < |index| ==> index[k] < index[l]
    ensures forall j :: 0 <= j < |ps| && matchesOf(ps[j]) != [] ==> j in index
  {
    if ps == [] {
      index := [];
    } else {
      var n := |ps| - 1;
      var front := ps[..n];
      var earlier := BreakdownByFollows(matchesOf, front);
      var before := BreakdownBy(matchesOf, front);
      var matches := matchesOf(ps[n]);
      var added := if matches == [] then [] else [n];
      index := earlier + added;
      assert |added| == |BreakdownBy(matchesOf, ps)| - |before|;
      forall k | 0 <= k < |index|
        ensures index[k] < |ps| && EntryOf(matchesOf(ps[index[k]]), ps[index[k]], BreakdownBy(matchesOf, ps)[k])
      {
        if k < |earlier| {
          assert index[k] == earlier[k] && front[earlier[k]] == ps[earlier[k]];
          assert BreakdownBy(matchesOf, ps)[k] == before[k];
        }
      }
      forall j | 0 <= j < |ps| && matchesOf(ps[j]) != []
        ensures j in index
      {
        if j < n {
          assert front[j] == ps[j];
          var k :| 0 <= k < |earlier| && earlier[k] == j;
          assert index[k] == j;
        } else {
          assert index[|earlier|] == n;
        }
      }
    }
  }

  /** `e` is the breakdown entry of pattern `p`, whose matches `matches` are not empty. */
  predicate EntryOf(matches: seq<string>, p: Pattern, e: BreakdownEntry)
  {
    matches != [] && e == BreakdownEntry(Source(p), |matches|, Take(matches, 2))
  }

  /** Every collected example is a piece of the text. */
  lemma {:induction false} ExamplesAreSubstrings(t: string, ps: seq<Pattern>)
    ensures forall m :: m in ExamplesOf(t, ps) ==> exists a, b :: 0 <= a <= b <= |t| && m == t[a..b]
  {
    if ps != [] {
      ExamplesAreSubstrings(t, ps[..|ps| - 1]);
      MatchesAreSubstrings(t, ps[|ps| - 1]);
    }
  }

  /**
   * The examples of `countFactTagsDetailed` are at most 15, are the first
   * of the examples collected in catalogue order, and are pieces of the text.
   */
  lemma DetailedExamples(t: string)
    ensures |Take(ExamplesOf(t, FactTagPatterns), 15)| <= 15
    ensures Take(ExamplesOf(t, FactTagPatterns), 15) <= ExamplesOf(t, FactTagPatterns)
    ensures forall m :: m in Take(ExamplesOf(t, FactTagPatterns), 15) ==>
      exists a, b :: 0 <= a <= b <= |t| && m == t[a..b]
  {
    ExamplesAreSubstrings(t, FactTagPatterns);
    var all := ExamplesOf(t, FactTagPatterns);
    forall m | m in Take(all, 15)
      ensures m in all
    {
      var k :| 0 <= k < |Take(all, 15)| && Take(all, 15)[k] == m;
      assert all[k] == m;
    }
  }
}
