# Fact-tag counter and sampling estimator, in Dafny

This project models the two parts of the Wikipedia fact-tag survey that hold
real logic:

- **`FactTagCounter`** (fact-tag-counter.js) recognises the fact-checking
  templates of a wikitext. It matches a fixed catalogue of 42 regular
  expressions, `{{name}}` and `{{name|…}}` for 21 template families, and
  every catalogued expression has the flags `gi`. `countFactTags` returns the
  number of matches. `countFactTagsDetailed` also returns a per-pattern
  breakdown with at most two examples per pattern and the first 15 examples
  overall. `categorizeFactTags` sorts the matches into four categories. It uses
  looser `{{name[^}]*}}` expressions for every category except
  "Citation Needed".
- **`StatisticsCalculator`** (statistics-calculator.js) turns a sample of
  per-article tag counts and the number of tagged articles into these results:
  - the mean and the Bessel-corrected variance;
  - the standard error and a banded t-value;
  - the estimated total, with a 95% confidence interval clamped at zero;
  - the median, the modes and the interpolated percentiles;
  - the zero-tag and multi-tag tallies.

The project has four files:

- `wrappers.dfy` holds `Option` and `Result`.
- `tag_pattern.dfy` (module `TagPattern`) is the shape of every catalogued
  expression and the global scan of `String.prototype.match`.
  - Each expression is the literal `{{name`, then `}}` (bare), `|[^}]*}}`
    (parameterised) or `[^}]*}}` (loose).
  - `[^}]*` cannot consume a `}`, so backtracking cannot change where a match
    ends. `MatchEnd` decides a match at one position deterministically.
  - The regular language itself is written out separately as `InLanguage`.
  - `Scan` is the engine's global loop: after a match it resumes at the
    match's end, otherwise it moves one position on.
  - The `i` flag is modelled as ASCII lower-casing. Every catalogue literal is
    ASCII, and `}` and `|` have no case variants.
- `fact_tag_counter.dfy` (module `FactTagCounter`) holds the catalogue and
  the three methods.
  - Each method loops over the catalogue as the source does. Its loop
    invariants tie the running state to specification functions
    (`SumCounts`, `BreakdownOf`, `ExamplesOf`, `AllMatches`).
  - The catalogue is written family by family, in the source's order.
  - The source's class has no mutable state: its catalogue field is set once,
    by the constructor. So the catalogue is a module constant.
- `statistics_calculator.dfy` (module `StatisticsCalculator`) holds the
  estimator.
  - The arithmetic is exact `real` arithmetic.
  - `Math.sqrt` appears as caller-supplied witnesses (`IsSquareRoot`).
  - `calculateMode` and `calculatePercentiles` are methods with loops.
  - `calculateEstimate` is a method built from specification functions.
  - `calculateMedian` and `getTValue` are functions.

Two things about the code are worth knowing:

- **The t-value for small samples.** `getTValue` returns 2.78 for every df
  below 5 (statistics-calculator.js:147-148), although Student's exact
  two-sided 95% value at df = 2 is 4.303. `GetTValue` and `TValueTableEnds`
  model the table as written.
- **The "complex real-world example".** At test-counter.js:35-37 it expects 6,
  but its text holds one occurrence each of seven catalogued templates:
  - `{{citation needed}}`
  - `{{dubious}}`
  - `{{better source needed|…}}`
  - `{{fact}}`
  - `{{according to whom?}}`
  - `{{verify source}}`
  - `{{when?}}`

  `CountFactTags` adds one per matching pattern, as the source's loop does.

## Model

| member | source | states |
|---|---|---|
| TagPattern.RunEnd | fact-tag-counter.js:12 | `[^}]*` takes the maximal run: no `}` inside it, and a `}` (or the end of the text) right after it |
| TagPattern.MatchEnd | fact-tag-counter.js:7-56 | the defining function for one expression at one position: a match ends at least `len(name) + 4` characters after its start (the shortest match is `{{name}}`) and within the text; `MatchEndDecidesLanguage` ties it to the expression's language |
| TagPattern.MatchEndDecidesLanguage | fact-tag-counter.js:7-14 | the matcher reports a match of `p` from `i` to `e` exactly when `t[i..e]` is in the language of `p`'s expression (both directions) |
| TagPattern.Scan | fact-tag-counter.js:69 | the global loop of `match` with the `g` flag: every span it reports starts where a match starts and ends where that match ends, and each span ends before the next begins |
| TagPattern.Occurrences | fact-tag-counter.js:69 | the spans of `wikitext.match(pattern)`: each is a match of the pattern at its start, within the text, and they do not overlap |
| TagPattern.Matches | fact-tag-counter.js:69 | the defining function of `wikitext.match(pattern)` (`null` read as the empty list): one string per occurrence, the text of that span |
| TagPattern.OccurrencesExact | fact-tag-counter.js:69 | every span `match` reports is a whole match in the pattern's language; the spans do not overlap and come in text order; every position where a match starts lies inside a reported span |
| TagPattern.MatchesAreSubstrings | fact-tag-counter.js:69 | each string `match` returns is a substring of the input |
| TagPattern.NoOpeningNoMatches | fact-tag-counter.js:7-56 | a text with no `{{` has no match of any pattern |
| TagPattern.MatchEndIgnoresCase | fact-tag-counter.js:7-14 | under the `i` flag, two texts equal up to ASCII case have the same match, with the same end, at every position |
| TagPattern.OccurrencesIgnoreCase | fact-tag-counter.js:7-14 | texts equal up to case have the same occurrences and as many matches, and the same as the lower-cased text |
| TagPattern.ExactPatternsExclusive | fact-tag-counter.js:7-56 | two bare or parameterised expressions with well-formed names that both match at one position are the same expression |
| TagPattern.LooseCoversExact | fact-tag-counter.js:133-154 | where a family's bare or parameterised expression matches, its loose expression matches too, with the same end |
| TagPattern.PlainFamilyCounts | fact-tag-counter.js:17-56 | when a family is written plainly, its loose expression matches as often as its bare and parameterised expressions together |
| TagPattern.UpperCaseBareMatch | fact-tag-counter.js:9 | `{{Cn}}` is one match of the `cn` bare expression, returned as written |
| TagPattern.ParameterRunEndsAtFirstBrace | fact-tag-counter.js:14 | in `{{cn\|a}}b}}` the parameterised match ends at the first `}}` |
| TagPattern.LoneBraceBreaksParameters | fact-tag-counter.js:14 | in `{{cn\|a}b}}` a lone `}` in the parameters leaves no parameterised match |
| FactTagCounter.CountFactTags | fact-tag-counter.js:60-76 | 0 for a non-string or empty argument; otherwise the matches of every catalogue expression, added up in catalogue order |
| FactTagCounter.CountFactTagsDetailed | fact-tag-counter.js:78-112 | an empty result for a non-string or empty argument; otherwise the same total as `countFactTags`, one breakdown entry per matching expression in catalogue order, and the first 15 of the per-expression examples |
| FactTagCounter.SourceSpelling | fact-tag-counter.js:98 | `Source` gives `pattern.source` as the catalogue writes it, with `?` escaped: `\{\{cn\}\}` (line 9), the parameterised `who?` expression of line 44, and `\{\{who\?[^}]*\}\}` (line 146) |
| FactTagCounter.Take | fact-tag-counter.js:100 | `slice(0, n)` is a prefix with at most `n` elements, and the whole sequence when it is shorter |
| FactTagCounter.EmptyTextHasNoTags | fact-tag-counter.js:79-85 | on the empty text the count, the breakdown, the examples and every category list are empty |
| FactTagCounter.NoOpeningNoTags | fact-tag-counter.js:60-76 | a text without `{{` counts 0 and yields no matches |
| FactTagCounter.TotalCountIgnoresCase | fact-tag-counter.js:7-56 | the total is the same for texts equal up to case, and the same as for the lower-cased text |
| FactTagCounter.CatalogueWellFormed | fact-tag-counter.js:5-57 | the catalogue has 42 expressions, all bare or parameterised, with lower-case names free of `}` and `\|` |
| FactTagCounter.NamesDistinct | fact-tag-counter.js:5-57 | the 21 family names are pairwise distinct |
| FactTagCounter.CatalogueDistinct | fact-tag-counter.js:5-57 | no expression appears twice in the catalogue |
| FactTagCounter.CatalogueExclusive | fact-tag-counter.js:5-57 | no position is matched by two catalogue expressions, so no occurrence is counted twice |
| FactTagCounter.CategorizeFactTags | fact-tag-counter.js:115-168 | exactly the four categories; each holds the matches of its expressions, expression after expression |
| FactTagCounter.CollectMatches | fact-tag-counter.js:159-164 | the inner loop concatenates every expression's matches in order |
| FactTagCounter.AllMatchesCount | fact-tag-counter.js:158-165 | a category list is as long as the matches of its expressions added up |
| FactTagCounter.CatalogueNamesCategorised | fact-tag-counter.js:123-156 | every family of the catalogue is the family of some category |
| FactTagCounter.CategoryNamesCatalogued | fact-tag-counter.js:123-156 | every family of a category is in the catalogue, in both its bare and parameterised forms |
| FactTagCounter.CategoryNamesDisjoint | fact-tag-counter.js:123-156 | no family belongs to two categories |
| FactTagCounter.CategoryPatternsOfNames | fact-tag-counter.js:124-131 | "Citation Needed" uses exactly the first six catalogue expressions; each other category uses the loose expression of each of its families |
| FactTagCounter.CitationNeededCount | fact-tag-counter.js:124-131 | the "Citation Needed" list is as long as the matches of the first six catalogue expressions |
| FactTagCounter.EmptyTextCategories | fact-tag-counter.js:116-121 | on the empty text all four lists are empty |
| FactTagCounter.PlainFamiliesCount | fact-tag-counter.js:132-155 | when each family's loose count equals its bare count plus its parameterised count (`LooseCountSplits`), the same holds for the whole list of families, summed |
| FactTagCounter.CategorySizesAddUp | fact-tag-counter.js:123-165 | when every family is written plainly, the four list lengths add up to `countFactTags` |
| FactTagCounter.BreakdownAccounts | fact-tag-counter.js:91-105 | the breakdown counts add up to the total; the breakdown examples are the collected examples; each entry has count at least 1 and `min(count, 2)` examples |
| FactTagCounter.BreakdownFollowsCatalogue | fact-tag-counter.js:91-105 | the entries are those of the matching expressions, each from exactly one expression, in strictly increasing catalogue order, and none is missing |
| FactTagCounter.ExamplesAreSubstrings | fact-tag-counter.js:100-103 | every collected example is a substring of the input |
| FactTagCounter.DetailedExamples | fact-tag-counter.js:110 | the reported examples are at most 15, a prefix of the collected examples, and substrings of the input |
| StatisticsCalculator.CalculateEstimate | statistics-calculator.js:3-60 | an empty sample is the error; otherwise the sample size, the mean `sum / n`, the total `mean * totalTaggedArticles`, and the spread exactly when `n >= 2`; min and max are elements bounding the sample; median and percentiles are those of the sorted copy; mode per `calculateMode`; the zero-tag tally is the frequency of 0; the multi-tag tally is `MultiTagCount`, which is `n` minus the frequencies of 0 and 1; the two tallies add up to at most `n` |
| StatisticsCalculator.CountsOf | statistics-calculator.js:4 | the counts are the observations' tag counts, in order |
| StatisticsCalculator.SortAscending | statistics-calculator.js:37 | the sorted copy is ascending, as long as the input, and a permutation of it |
| StatisticsCalculator.MinOf | statistics-calculator.js:52 | `Math.min` is an element no larger than any other |
| StatisticsCalculator.MaxOf | statistics-calculator.js:53 | `Math.max` is an element no smaller than any other |
| StatisticsCalculator.Mean | statistics-calculator.js:12-13 | `sum / sampleSize`: the mean taken `n` times gives the sum |
| StatisticsCalculator.MeanBetweenMinAndMax | statistics-calculator.js:12-13 | the mean lies between the minimum and the maximum |
| StatisticsCalculator.Variance | statistics-calculator.js:16-17 | the Bessel-corrected variance is never negative |
| StatisticsCalculator.VarianceZeroIffAllEqual | statistics-calculator.js:16-17 | the variance is zero exactly when all counts are equal |
| StatisticsCalculator.SpreadOf | statistics-calculator.js:15-34 | the deviation, standard error and margin are non-negative; the lower bound is `max(0, total - margin)` and the upper `total + margin`, so `0 <= lower <= total <= upper` |
| StatisticsCalculator.EstimatedTotal | statistics-calculator.js:28 | the estimated total is never negative |
| StatisticsCalculator.EqualCountsCollapseInterval | statistics-calculator.js:16-34 | with all counts equal, deviation, error and margin are 0 and the interval is the point estimate |
| StatisticsCalculator.AllZeroSampleEstimatesZero | statistics-calculator.js:12-34 | an all-zero sample estimates 0 with the interval [0, 0] |
| StatisticsCalculator.WorkedSample | statistics-calculator.js:12-34 | counts 4, 4, 4, 0 and 100 tagged articles give mean 3, variance 4, total 300, deviation 2, standard error 1, margin 278 (t = 2.78 at 3 degrees of freedom) and the interval [22, 578] |
| StatisticsCalculator.GetTValue | statistics-calculator.js:133-152 | every value lies in [1.96, 2.78]; any alpha other than 0.05 gives 1.96 |
| StatisticsCalculator.TValueNonIncreasing | statistics-calculator.js:135-148 | more degrees of freedom never give a larger value |
| StatisticsCalculator.TValueTableEnds | statistics-calculator.js:136-148 | 2.78 below 5 degrees of freedom, 1.96 from 500 on |
| StatisticsCalculator.Median | statistics-calculator.js:80-88 | on an ascending sequence the median lies between the first and the last element |
| StatisticsCalculator.MedianIsFiftiethPercentile | statistics-calculator.js:80-88 | the median equals the interpolated 50th percentile |
| StatisticsCalculator.Ceil | statistics-calculator.js:123 | `Math.ceil` is the least integer not below its argument, and equals the floor exactly on integers |
| StatisticsCalculator.PercentileIndex | statistics-calculator.js:118 | the index `p (n - 1) / 100` lies in `[0, n - 1]`, so both reads stay in bounds |
| StatisticsCalculator.Percentile | statistics-calculator.js:118-125 | the interpolated percentile lies between the two elements read at the floor and the ceiling of the index, in whichever order they come |
| StatisticsCalculator.PercentileBetweenNeighbours | statistics-calculator.js:118-125 | floor and ceiling of the index are in bounds, and the percentile lies between the elements there |
| StatisticsCalculator.PercentileMonotone | statistics-calculator.js:113-130 | percentiles are non-decreasing in p |
| StatisticsCalculator.PercentileExtremes | statistics-calculator.js:118-125 | the 0th and 100th percentiles are the first and the last element |
| StatisticsCalculator.CalculatePercentiles | statistics-calculator.js:113-130 | keys exactly 25, 50, 75, 90, 95, 99, each the interpolated percentile; on a sorted input they are non-decreasing in p |
| StatisticsCalculator.TallyFrequencies | statistics-calculator.js:95-101 | the dictionary holds exactly the sample's values with their frequencies, and `maxFreq` is their maximum |
| StatisticsCalculator.CollectModes | statistics-calculator.js:103-108 | exactly the values of maximal frequency, in ascending key order; as many as the keys exactly when every frequency is maximal |
| StatisticsCalculator.ModeFromTally | statistics-calculator.js:110 | the final comparison gives null exactly when all distinct values are equally frequent, and otherwise the modal values |
| StatisticsCalculator.CalculateMode | statistics-calculator.js:90-111 | null exactly when every distinct value has the same frequency (including an empty sample); otherwise the non-empty ascending list of exactly the values of maximal frequency |
| StatisticsCalculator.ModeOfSingleMostFrequent | statistics-calculator.js:90-111 | `[1, 1, 2]` has mode `[1]` |
| StatisticsCalculator.NoModeWhenAllTied | statistics-calculator.js:110 | `[1, 2, 3]` and `[2, 2, 2]` have no mode |
| StatisticsCalculator.TalliesWithinSample | statistics-calculator.js:58-59 | zero-tag and multi-tag articles together are at most the sample size |
| StatisticsCalculator.ZeroTagCount | statistics-calculator.js:58 | `counts.filter(c => c === 0).length`, at most `n`; `ZeroTagCountIsFrequency` gives its value |
| StatisticsCalculator.ZeroTagCountIsFrequency | statistics-calculator.js:58 | the zero-tag tally is the frequency of 0 |
| StatisticsCalculator.MultiTagCount | statistics-calculator.js:59 | `counts.filter(c => c > 1).length`, at most `n`; `MultiTagCountIsRest` gives its value |
| StatisticsCalculator.MultiTagCountIsRest | statistics-calculator.js:59 | the multi-tag tally is `n` minus the frequencies of 0 and 1, e.g. 2 for the sample [2, 2] |

## Left out

- `generateReport` (statistics-calculator.js:154-200) is not part of this
  model. It builds presentation text with `Date`, `toLocaleString` and
  `toFixed`.
- wikipedia-api.js and main-simple.js are not part of this model. They are
  HTTP fetching, pagination, rate-limit delays, random offsets and console
  output.
- test-counter.js is a console test script and is not modelled. Only its
  `{{Cn}}` case appears, in `UpperCaseBareMatch`, checked against the `cn`
  bare expression alone rather than the whole count.
- The general JavaScript regular-expression engine and Unicode case folding
  are not modelled. Only the three fixed expression shapes are modelled, with
  ASCII lower-casing.
- IEEE-754 arithmetic is not modelled. All arithmetic is exact.
  - `Number.isInteger` on the percentile index (statistics-calculator.js:119)
    may disagree with exact arithmetic for some `n` in floating point.
  - The rounding of the interval bounds is not modelled.
- `Math.sqrt` is not computed. The caller supplies the two square roots as
  witnesses, checked by `IsSquareRoot`.
- StatisticsCalculator.CalculateEstimate: for a one-article sample the source
  divides by `n - 1 == 0` and every variance-dependent field becomes NaN. The
  model reports `spread == None` there and states nothing about those fields.
- StatisticsCalculator.Median: requires a non-empty argument. The source
  returns NaN for an empty array (`(undefined + undefined) / 2`), but it is only ever called
  with a non-empty sample.
- FactTagCounter.CategorySizesAddUp: the four list lengths are proved to add
  up to `countFactTags` only for texts where every family is written plainly
  (`PlainFamily`), which means both of the following hold:
  - No loose match nests.
  - No loose match exists without a bare or parameterised one, as in
    `{{who?x}}`.

  On other texts the source's counts genuinely differ.
- FactTagCounter.CategorizeFactTags: the source does not check that its
  argument is a string, and a non-string argument throws at
  fact-tag-counter.js:160. The model's argument is always a string.
- FactTagCounter.CategorizeFactTags: the category object is a map from the
  four categories to lists. `Label` gives the source's key strings. A map
  has no key order, so the source object's key order (Citation Needed,
  Source Quality, Clarification, Verification) is not kept in the result;
  `CategoryOrder` records it as the order in which the lists are filled. The
  inner loop is the helper method `CollectMatches`, whose list is stored
  under its key instead of pushed in place.
- StatisticsCalculator.CalculatePercentiles: the keys are the numbers
  25 … 99, not the strings `"p25"` … `"p99"`.
- StatisticsCalculator.CalculateMode: the integer keys of the `frequency`
  object are a map, and the ascending order of `Object.entries` on integer
  keys becomes an ascending walk over that map's keys. The two loops are the
  methods `TallyFrequencies` and `CollectModes`.
- `countFactTagsDetailed` records `pattern.source` as a breakdown entry's
  pattern; the model writes this string with `Source`.
