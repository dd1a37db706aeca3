/**
 * The diff-file filter of src/coverage-files.ts: which changed files count as
 * production source, the comma-separated include/exclude pattern matchers,
 * and the order-preserving filter over the diff records.
 */
module CoverageFiles {
  import opened Wrappers
  import opened Strings
  import opened CoverageTypes

  /** The extensions of files instrumented for coverage (compared case-sensitively). */
  const CoverageExtensions: set<string> := {".ts", ".tsx", ".js", ".jsx", ".mjs", ".cjs"}

  /** `replace(/\\/g, '/')`: Windows separators become `/`. */
  function Slashes(path: string): (r: string)
    ensures |r| == |path| && '\\' !in r
  {
    ReplaceChar(path, '\\', '/')
  }

  /**
   * One entry of the excluded-pattern list: a case-sensitive substring test,
   * or a case-insensitive test that the path ends with `stem` followed by one
   * of the alternatives (`/<stem>(a|b|...)$/i`).
   */
  datatype Exclusion = ContainsText(text: string) | EndsWithAny(stem: string, alternatives: seq<string>)

  const SourceSuffixes := ["ts", "tsx", "js", "jsx", "mjs", "cjs"]

  /** The excluded patterns, in the order they are tried. */
  const ExcludedPatterns := [
    ContainsText("__tests__"),
    EndsWithAny(".test.", SourceSuffixes),
    EndsWithAny(".spec.", SourceSuffixes),
    EndsWithAny(".config.", ["ts", "tsx", "js", "mjs", "cjs"]),
    ContainsText("node_modules"),
    ContainsText("/dist/"),
    ContainsText("/coverage/"),
    EndsWithAny(".min.", ["js", "mjs", "cjs"]),
    EndsWithAny(".d.", ["ts"]),
    EndsWithAny(".", ["md", "json", "yml", "yaml", "html", "css", "scss", "lock"])
  ]

  /** `re.test(path)` for one excluded pattern. */
  predicate Excludes(x: Exclusion, path: string) {
    match x
    case ContainsText(text) => Contains(path, text)
    case EndsWithAny(stem, alternatives) =>
      exists i :: 0 <= i < |alternatives| && EndsWith(Lower(path), stem + alternatives[i])
  }

  /** `EXCLUDED_PATTERNS.some((re) => re.test(path))`. */
  predicate Excluded(path: string) {
    ExcludedBy(ExcludedPatterns, path)
  }

  /** Some pattern of the list excludes the path, trying them in order. */
  predicate ExcludedBy(patterns: seq<Exclusion>, path: string)
    decreases |patterns|
  {
    |patterns| > 0 && (Excludes(patterns[0], path) || ExcludedBy(patterns[1..], path))
  }

  /** Any one excluding pattern of the list suffices. */
  lemma {:induction false} ExcludedByAt(patterns: seq<Exclusion>, k: nat, path: string)
    requires k < |patterns| && Excludes(patterns[k], path)
    ensures ExcludedBy(patterns, path)
    decreases k
  {
    if k > 0 {
      ExcludedByAt(patterns[1..], k - 1, path);
    }
  }

  /** `isFileValidForCoverage`: a coverable extension and no excluded pattern, after normalising separators. */
  predicate IsFileValidForCoverage(path: string) {
    var normalized := Slashes(path);
    Ext(normalized) in CoverageExtensions && !Excluded(normalized)
  }

  // ---------------------------------------------------------------------------
  // Include / exclude patterns
  // ---------------------------------------------------------------------------

  /** A parsed pattern list: a constant answer when no pattern is given, else a disjunction of patterns. */
  datatype Matcher = Constant(answer: bool) | AnyOf(patterns: seq<string>)

  /** The non-empty entries, in order (`filter(Boolean)`). */
  function NonEmpty(pieces: seq<string>): (r: seq<string>)
    ensures forall i :: 0 <= i < |r| ==> r[i] != ""
    ensures forall p :: p in r <==> p in pieces && p != ""
    decreases |pieces|
  {
    if |pieces| == 0 then []
    else if pieces[0] == "" then NonEmpty(pieces[1..])
    else [pieces[0]] + NonEmpty(pieces[1..])
  }

  /** The comma-separated pieces, each trimmed and lower-cased. */
  function Pieces(input: string): (r: seq<string>)
    ensures |r| == |Split(input, ',')|
    ensures forall i :: 0 <= i < |r| ==> r[i] == Lower(Trim(Split(input, ',')[i]))
  {
    var pieces := Split(input, ',');
    seq(|pieces|, i requires 0 <= i < |pieces| => Lower(Trim(pieces[i])))
  }

  /** The patterns of a comma-separated list: each piece trimmed and lower-cased, blanks dropped. */
  function PatternList(input: string): seq<string> {
    NonEmpty(Pieces(input))
  }

  /** `parsePatterns(input, matchWhenEmpty)`. */
  function ParsePatterns(input: string, matchWhenEmpty: bool): (m: Matcher)
    ensures m.Constant? ==> m.answer == matchWhenEmpty
    ensures m.AnyOf? ==> |m.patterns| > 0 && forall i :: 0 <= i < |m.patterns| ==> m.patterns[i] != ""
  {
    var parts := PatternList(input);
    if |parts| == 0 then Constant(matchWhenEmpty) else AnyOf(parts)
  }

  /** `p.slice(3, -3)`: empty when fewer than six characters. */
  function Middle(p: string): string {
    if |p| >= 6 then p[3..|p| - 3] else ""
  }

  /** One pattern against the lower-cased, normalised path and its extension. */
  predicate PatternMatches(p: string, path: string, ext: string) {
    if StartsWith(p, "**/") && EndsWith(p, "/**") then
      var segment := Middle(p);
      segment == "" || Contains(path, segment)
    else if StartsWith(p, "**/") then
      var segment := p[3..];
      segment == "" || Contains(path, segment) || EndsWith(path, segment)
    else if StartsWith(p, "*") then EndsWith(path, p[1..]) || ext == p[1..]
    else if StartsWith(p, ".") then ext == p
    else Contains(path, p) || EndsWith(path, p)
  }

  /** The path as the matchers see it: separators normalised, lower-cased. */
  function MatchForm(path: string): string {
    Lower(Slashes(path))
  }

  /** The matcher applied to a path. */
  predicate Matches(m: Matcher, path: string) {
    match m
    case Constant(answer) => answer
    case AnyOf(patterns) =>
      var n := MatchForm(path);
      exists i :: 0 <= i < |patterns| && PatternMatches(patterns[i], n, Ext(n))
  }

  /**
   * The `options` argument: a bare string is the include pattern; otherwise
   * an object whose fields may be absent (an absent `options` is `{}`).
   */
  datatype FilterOptions = PatternText(text: string) | PatternFields(includes: Option<string>, excludes: Option<string>)

  function OrEmpty(s: Option<string>): string {
    match s
    case None => ""
    case Some(t) => t
  }

  function IncludeOf(o: FilterOptions): string {
    match o
    case PatternText(text) => text
    case PatternFields(includes, _) => OrEmpty(includes)
  }

  function ExcludeOf(o: FilterOptions): string {
    match o
    case PatternText(_) => ""
    case PatternFields(_, excludes) => OrEmpty(excludes)
  }

  /** Whether a changed file survives the filter. */
  predicate Keep(fileName: string, o: FilterOptions) {
    IsFileValidForCoverage(fileName) && PassesPatterns(fileName, o)
  }

  /** The file matches the include list and does not match the exclude list. */
  predicate PassesPatterns(fileName: string, o: FilterOptions) {
    && Matches(ParsePatterns(IncludeOf(o), true), fileName)
    && !Matches(ParsePatterns(ExcludeOf(o), false), fileName)
  }

  /** `xs.filter(keep)`. */
  function Select<T>(xs: seq<T>, keep: T -> bool): (r: seq<T>)
    ensures |r| <= |xs|
    decreases |xs|
  {
    if |xs| == 0 then []
    else
      var rest := Select(xs[1..], keep);
      if keep(xs[0]) then [xs[0]] + rest else rest
  }

  /** `filterPrDataForCoverage`. */
  function FilterPrDataForCoverage(prData: seq<PrFile>, o: FilterOptions): (r: seq<PrFile>)
    ensures |r| <= |prData|
  {
    Select(prData, (f: PrFile) => Keep(f.fileName, o))
  }

  /** The selected entries are exactly the entries the predicate accepts. */
  lemma {:induction false} SelectMembers<T>(xs: seq<T>, keep: T -> bool)
    ensures forall x :: x in Select(xs, keep) <==> x in xs && keep(x)
    decreases |xs|
  {
    if |xs| > 0 {
      SelectMembers(xs[1..], keep);
      assert xs == [xs[0]] + xs[1..];
    }
  }

  /** A file is kept exactly when it is valid for coverage, passes the include list and fails the exclude list. */
  lemma FilterMembers(prData: seq<PrFile>, o: FilterOptions)
    ensures forall f :: f in FilterPrDataForCoverage(prData, o) <==> f in prData && Keep(f.fileName, o)
  {
    SelectMembers(prData, (f: PrFile) => Keep(f.fileName, o));
  }

  /** `a` is `b` with some entries left out and the rest in their original order. */
  predicate IsSubsequence<T(==)>(a: seq<T>, b: seq<T>)
    decreases |b|
  {
    if |a| == 0 then true
    else if |b| == 0 then false
    else if a[0] == b[0] then IsSubsequence(a[1..], b[1..])
    else IsSubsequence(a, b[1..])
  }

  // ---------------------------------------------------------------------------
  // Properties
  // ---------------------------------------------------------------------------

  /** Only the coverable extensions pass, compared exactly (so `.TS` and `.json` do not). */
  lemma ValidNeedsExtension(path: string)
    requires Ext(Slashes(path)) !in CoverageExtensions
    ensures !IsFileValidForCoverage(path)
  {
  }

  /** A path containing one of the excluded segments never passes. */
  lemma ExcludedSegment(path: string, segment: string)
    requires segment in ["__tests__", "node_modules", "/dist/", "/coverage/"]
    requires Contains(Slashes(path), segment)
    ensures !IsFileValidForCoverage(path)
  {
    var n := Slashes(path);
    if segment == "__tests__" {
      assert Excludes(ExcludedPatterns[0], n);
      ExcludedByAt(ExcludedPatterns, 0, n);
    } else if segment == "node_modules" {
      assert Excludes(ExcludedPatterns[4], n);
      ExcludedByAt(ExcludedPatterns, 4, n);
    } else if segment == "/dist/" {
      assert Excludes(ExcludedPatterns[5], n);
      ExcludedByAt(ExcludedPatterns, 5, n);
    } else {
      assert Excludes(ExcludedPatterns[6], n);
      ExcludedByAt(ExcludedPatterns, 6, n);
    }
  }

  /** A test, spec, config or minified file, or a declaration file, never passes, whatever the case of its suffix. */
  lemma ExcludedSuffix(path: string, k: nat, i: nat)
    requires k in {1, 2, 3, 7, 8} && i < |ExcludedPatterns[k].alternatives|
    requires EndsWith(Lower(Slashes(path)), ExcludedPatterns[k].stem + ExcludedPatterns[k].alternatives[i])
    ensures !IsFileValidForCoverage(path)
  {
    assert Excludes(ExcludedPatterns[k], Slashes(path));
    ExcludedByAt(ExcludedPatterns, k, Slashes(path));
  }

  lemma SlashesIdempotent(path: string)
    ensures Slashes(Slashes(path)) == Slashes(path)
  {
  }

  /** Separators are normalised before every check: `a\b.ts` and `a/b.ts` are judged alike. */
  lemma ValidityIgnoresSeparators(path: string)
    ensures IsFileValidForCoverage(path) == IsFileValidForCoverage(Slashes(path))
  {
    SlashesIdempotent(path);
  }

  /** No pattern at all (or only blanks) gives the constant: a missing include admits, a missing exclude rejects nothing. */
  lemma BlankPatterns(input: string, matchWhenEmpty: bool, path: string)
    requires forall i :: 0 <= i < |Split(input, ',')| ==> Trim(Split(input, ',')[i]) == ""
    ensures ParsePatterns(input, matchWhenEmpty) == Constant(matchWhenEmpty)
    ensures Matches(ParsePatterns(input, matchWhenEmpty), path) == matchWhenEmpty
  {
    var pieces := Pieces(input);
    assert forall i :: 0 <= i < |pieces| ==> pieces[i] == "";
    AllBlank(pieces);
  }

  lemma AllBlank(pieces: seq<string>)
    requires forall i :: 0 <= i < |pieces| ==> pieces[i] == ""
    ensures NonEmpty(pieces) == []
  {
  }

  lemma LowerIdempotent(s: string)
    ensures Lower(Lower(s)) == Lower(s)
  {
  }

  lemma LowerSlashes(s: string)
    ensures Lower(Slashes(s)) == Slashes(Lower(s))
  {
  }

  /** The matchers ignore letter case and separator style in the path. */
  lemma MatchesIgnoresCaseAndSeparators(m: Matcher, path: string)
    ensures Matches(m, path) == Matches(m, Lower(path))
    ensures Matches(m, path) == Matches(m, Slashes(path))
  {
    LowerSlashes(path);
    LowerIdempotent(Slashes(path));
    SlashesIdempotent(path);
    assert MatchForm(Lower(path)) == MatchForm(path);
    assert MatchForm(Slashes(path)) == MatchForm(path);
  }

  // A `**/seg/**` pattern matches the paths containing `seg`.
  lemma SegmentGlob(seg: string, path: string, ext: string)
    requires |seg| > 0
    ensures PatternMatches("**/" + seg + "/**", path, ext) <==> Contains(path, seg)
  {
    var p := "**/" + seg + "/**";
    assert p[..3] == "**/" && p[|p| - 3..] == "/**";
    assert Middle(p) == seg;
  }

  // A `**/seg` pattern without a trailing `/**` matches the paths containing `seg`.
  lemma TrailingSegmentGlob(seg: string, path: string, ext: string)
    requires |seg| > 0 && !EndsWith("**/" + seg, "/**")
    ensures PatternMatches("**/" + seg, path, ext) <==> Contains(path, seg)
  {
    var p := "**/" + seg;
    assert p[..3] == "**/" && p[3..] == seg;
    if EndsWith(path, seg) {
      EndsWithContains(path, seg);
    }
  }

  // A `*suf` pattern (other than the `**/` forms) matches the paths ending with `suf` or whose extension is `suf`.
  lemma SuffixGlob(suf: string, path: string, ext: string)
    requires !StartsWith("*" + suf, "**/")
    ensures PatternMatches("*" + suf, path, ext) <==> EndsWith(path, suf) || ext == suf
  {
    var p := "*" + suf;
    assert p[..1] == "*" && p[1..] == suf;
  }

  /** `.ext` matches the paths with exactly that extension. */
  lemma ExtensionPattern(p: string, path: string, ext: string)
    requires |p| > 0 && p[0] == '.'
    ensures PatternMatches(p, path, ext) <==> ext == p
  {
    assert !StartsWith(p, "**/") && !StartsWith(p, "*");
    assert StartsWith(p, ".");
  }

  /** Any other pattern matches the paths containing it. */
  lemma BarePattern(p: string, path: string, ext: string)
    requires |p| > 0 && p[0] != '.' && p[0] != '*'
    ensures PatternMatches(p, path, ext) <==> Contains(path, p)
  {
    assert !StartsWith(p, "**/") && !StartsWith(p, "*") && !StartsWith(p, ".");
    if EndsWith(path, p) {
      EndsWithContains(path, p);
    }
  }

  /** Selecting from two runs selects from each in turn. */
  lemma {:induction false} SelectAppend<T>(a: seq<T>, b: seq<T>, keep: T -> bool)
    ensures Select(a + b, keep) == Select(a, keep) + Select(b, keep)
    decreases |a|
  {
    if |a| == 0 {
      assert a + b == b;
    } else {
      assert (a + b)[0] == a[0] && (a + b)[1..] == a[1..] + b;
      SelectAppend(a[1..], b, keep);
    }
  }

  /** Filtering two runs of records filters each in turn: the filter preserves order. */
  lemma FilterAppend(a: seq<PrFile>, b: seq<PrFile>, o: FilterOptions)
    ensures FilterPrDataForCoverage(a + b, o) == FilterPrDataForCoverage(a, o) + FilterPrDataForCoverage(b, o)
  {
    SelectAppend(a, b, (f: PrFile) => Keep(f.fileName, o));
  }

  /** A selection is an order-preserving subsequence. */
  lemma {:induction false} SelectSubsequence<T>(xs: seq<T>, keep: T -> bool)
    ensures IsSubsequence(Select(xs, keep), xs)
    decreases |xs|
  {
    if |xs| > 0 {
      var rest := Select(xs[1..], keep);
      SelectSubsequence(xs[1..], keep);
      if keep(xs[0]) {
        assert ([xs[0]] + rest)[1..] == rest;
      } else {
        SubsequenceSkip(rest, xs);
      }
    }
  }

  /** The result is an order-preserving subsequence of the input. */
  lemma FilterSubsequence(prData: seq<PrFile>, o: FilterOptions)
    ensures IsSubsequence(FilterPrDataForCoverage(prData, o), prData)
  {
    SelectSubsequence(prData, (f: PrFile) => Keep(f.fileName, o));
  }

  /** A subsequence of the tail is a subsequence of the whole. */
  lemma {:induction false} SubsequenceSkip<T>(a: seq<T>, b: seq<T>)
    requires |b| > 0 && IsSubsequence(a, b[1..])
    ensures IsSubsequence(a, b)
    decreases |b|, |a|
  {
    if |a| > 0 && a[0] == b[0] {
      SubsequenceTail(a, b[1..]);
    }
  }

  /** Dropping the head of a subsequence keeps it a subsequence. */
  lemma {:induction false} SubsequenceTail<T>(a: seq<T>, b: seq<T>)
    requires |a| > 0 && IsSubsequence(a, b)
    ensures IsSubsequence(a[1..], b)
    decreases |b|, |a|
  {
    if a[0] == b[0] {
      if |a| > 1 {
        SubsequenceSkip(a[1..], b);
      }
    } else {
      SubsequenceTail(a, b[1..]);
      if |a| > 1 {
        SubsequenceSkip(a[1..], b);
      }
    }
  }

  /** A bare string is read as the include pattern. */
  lemma StringOptionIsInclude(prData: seq<PrFile>, text: string)
    ensures FilterPrDataForCoverage(prData, PatternText(text))
            == FilterPrDataForCoverage(prData, PatternFields(Some(text), None))
  {
    FilterSamePatterns(prData, PatternText(text), PatternFields(Some(text), None));
  }

  /** Predicates that agree on every entry select alike. */
  lemma {:induction false} SelectSame<T>(xs: seq<T>, k1: T -> bool, k2: T -> bool)
    requires forall i :: 0 <= i < |xs| ==> k1(xs[i]) == k2(xs[i])
    ensures Select(xs, k1) == Select(xs, k2)
    decreases |xs|
  {
    if |xs| > 0 {
      assert k1(xs[0]) == k2(xs[0]);
      SelectSame(xs[1..], k1, k2);
    }
  }

  /** Two option values with the same include and exclude text filter alike. */
  lemma FilterSamePatterns(prData: seq<PrFile>, o1: FilterOptions, o2: FilterOptions)
    requires IncludeOf(o1) == IncludeOf(o2) && ExcludeOf(o1) == ExcludeOf(o2)
    ensures FilterPrDataForCoverage(prData, o1) == FilterPrDataForCoverage(prData, o2)
  {
    SelectSame(prData, (f: PrFile) => Keep(f.fileName, o1), (f: PrFile) => Keep(f.fileName, o2));
  }

  /** Without options every file passes the pattern lists, so only the coverage-validity rules apply. */
  lemma NoOptionsKeepsValid(fileName: string)
    ensures PassesPatterns(fileName, PatternFields(None, None))
  {
    EmptyOptionsPass(fileName, PatternFields(None, None));
  }

  /** Options whose include and exclude texts are both empty let every file pass. */
  lemma EmptyOptionsPass(fileName: string, o: FilterOptions)
    requires IncludeOf(o) == "" && ExcludeOf(o) == ""
    ensures PassesPatterns(fileName, o)
  {
    EmptyPatterns(IncludeOf(o), true, fileName);
    EmptyPatterns(ExcludeOf(o), false, fileName);
  }

  /** An empty pattern text is the constant matcher. */
  lemma EmptyPatterns(input: string, matchWhenEmpty: bool, path: string)
    requires |input| == 0
    ensures Matches(ParsePatterns(input, matchWhenEmpty), path) == matchWhenEmpty
  {
    assert Split(input, ',') == [""];
    BlankPatterns(input, matchWhenEmpty, path);
  }
}
