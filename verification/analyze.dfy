/**
 * The correlation engine of src/analyze.ts: reconciling diff paths with
 * coverage-report paths, enumerating the lines each hunk adds, the new-line
 * coverage counts, and the per-file uncovered items that become annotations.
 */
module Analyze {
  import opened Wrappers
  import opened Strings
  import opened JsNumbers
  import opened CoverageTypes
  import opened Assoc

  // ---------------------------------------------------------------------------
  // Path reconciliation
  // ---------------------------------------------------------------------------

  /** Backslashes become `/`, then every leading `/` is dropped. */
  function NormalizePath(p: string): (r: string)
    ensures '\\' !in r
    ensures |r| == 0 || r[0] != '/'
  {
    var s := ReplaceChar(p, '\\', '/');
    var r := StripLeadingSlashes(s);
    assert forall i :: 0 <= i < |r| ==> r[i] == s[|s| - |r| + i];
    r
  }

  /**
   * The match on normal forms `a` (diff path) and `b` (report path): they are
   * equal, one ends with `/` followed by the other, or `b` contains `a`.
   */
  predicate PathsMatch(a: string, b: string) {
    a == b || EndsWith(a, "/" + b) || EndsWith(b, "/" + a) || Contains(b, a)
  }

  /** `lcovPathMatchesPrPath`. */
  predicate LcovPathMatchesPrPath(lcovPath: string, prPath: string) {
    PathsMatch(NormalizePath(prPath), NormalizePath(lcovPath))
  }

  /** The equality and report-ends-with-diff rules are subsumed by containment. */
  lemma PathsMatchCharacterized(a: string, b: string)
    ensures PathsMatch(a, b) <==> EndsWith(a, "/" + b) || Contains(b, a)
  {
    if a == b {
      assert OccursAt(b, a, 0);
    }
    if EndsWith(b, "/" + a) {
      assert b[|b| - |a|..] == ("/" + a)[1..] == a;
      assert OccursAt(b, a, |b| - |a|);
    }
  }

  /** After normalisation, the diff path ends with `/` and the report path, or the report path contains it. */
  lemma PathMatchCharacterized(lcovPath: string, prPath: string)
    ensures LcovPathMatchesPrPath(lcovPath, prPath)
            <==> (var a := NormalizePath(prPath);
                  var b := NormalizePath(lcovPath);
                  EndsWith(a, "/" + b) || Contains(b, a))
  {
    PathsMatchCharacterized(NormalizePath(prPath), NormalizePath(lcovPath));
  }

  lemma ReplaceCharAbsent(s: string)
    requires '\\' !in s
    ensures ReplaceChar(s, '\\', '/') == s
  {
  }

  /** Normalising twice is normalising once. */
  lemma NormalizeIdempotent(p: string)
    ensures NormalizePath(NormalizePath(p)) == NormalizePath(p)
  {
    ReplaceCharAbsent(NormalizePath(p));
  }

  /** A leading `/` or a backslash spelling makes no difference to the normal form. */
  lemma NormalizeVariants(p: string)
    ensures NormalizePath("/" + p) == NormalizePath(p)
    ensures NormalizePath(ReplaceChar(p, '\\', '/')) == NormalizePath(p)
  {
    assert ReplaceChar("/" + p, '\\', '/') == "/" + ReplaceChar(p, '\\', '/');
    assert ("/" + ReplaceChar(p, '\\', '/'))[1..] == ReplaceChar(p, '\\', '/');
    ReplaceCharAbsent(ReplaceChar(p, '\\', '/'));
  }

  /** The match is reflexive. */
  lemma PathMatchReflexive(path: string)
    ensures LcovPathMatchesPrPath(path, path)
  {
    var a := NormalizePath(path);
    assert PathsMatch(a, a);
  }

  /** Adding a leading `/` to either path never changes the match. */
  lemma PathMatchLeadingSlash(lcovPath: string, prPath: string)
    ensures LcovPathMatchesPrPath(lcovPath, prPath) == LcovPathMatchesPrPath("/" + lcovPath, prPath)
    ensures LcovPathMatchesPrPath(lcovPath, prPath) == LcovPathMatchesPrPath(lcovPath, "/" + prPath)
  {
    NormalizeVariants(lcovPath);
    NormalizeVariants(prPath);
  }

  /** Writing `\` for `/` in either path never changes the match. */
  lemma PathMatchBackslashes(lcovPath: string, prPath: string)
    ensures LcovPathMatchesPrPath(lcovPath, prPath)
            == LcovPathMatchesPrPath(ReplaceChar(lcovPath, '\\', '/'), ReplaceChar(prPath, '\\', '/'))
  {
    NormalizeVariants(lcovPath);
    NormalizeVariants(prPath);
  }

  /** Normalising either path first never changes the match. */
  lemma PathMatchNormalForms(lcovPath: string, prPath: string)
    ensures LcovPathMatchesPrPath(lcovPath, prPath)
            == LcovPathMatchesPrPath(NormalizePath(lcovPath), NormalizePath(prPath))
  {
    NormalizeIdempotent(lcovPath);
    NormalizeIdempotent(prPath);
  }

  /** Normal forms of equal length match only when equal. */
  lemma SameLengthMatch(a: string, b: string)
    requires |a| == |b|
    ensures PathsMatch(a, b) <==> a == b
  {
    if Contains(b, a) {
      var i := IndexOf(b, a).value;
      assert i == 0 && b[..|a|] == a;
    }
  }

  /** Paths of equal normalised length match only when equal: `src/foo.ts` is not `src/bar.ts`. */
  lemma SameLengthPaths(lcovPath: string, prPath: string)
    requires |NormalizePath(lcovPath)| == |NormalizePath(prPath)|
    ensures LcovPathMatchesPrPath(lcovPath, prPath) <==> NormalizePath(lcovPath) == NormalizePath(prPath)
  {
    SameLengthMatch(NormalizePath(prPath), NormalizePath(lcovPath));
  }

  /** A path without backslashes or a leading `/` is its own normal form. */
  lemma NormalFormUnchanged(p: string)
    requires '\\' !in p && (|p| == 0 || p[0] != '/')
    ensures NormalizePath(p) == p
  {
    ReplaceCharAbsent(p);
  }

  /** A text two characters longer than `t` lacks it when each of the three candidate positions has a mismatch. */
  lemma NoOccurrenceInSlightlyLonger(s: string, t: string)
    requires |s| == |t| + 2 && |t| > 4
    requires s[4] != t[4] && s[1] != t[0] && s[2] != t[0]
    ensures !Contains(s, t)
  {
    forall j | 0 <= j <= 2
      ensures !OccursAt(s, t, j)
    {
      if j == 0 {
        assert s[j..j + |t|][4] != t[4];
      } else {
        assert s[j..j + |t|][0] != t[0];
      }
    }
  }

  /**
   * Report and diff paths already in normal form, the report path two
   * characters longer and differing at the three places the diff path could
   * start inside it, do not match.
   */
  lemma SlightlyLongerReportPathDiffers(lcovPath: string, prPath: string)
    requires '\\' !in lcovPath && '\\' !in prPath
    requires |lcovPath| == |prPath| + 2 && |prPath| > 4
    requires lcovPath[0] != '/' && prPath[0] != '/'
    requires lcovPath[4] != prPath[4] && lcovPath[1] != prPath[0] && lcovPath[2] != prPath[0]
    ensures !LcovPathMatchesPrPath(lcovPath, prPath)
  {
    NormalFormUnchanged(lcovPath);
    NormalFormUnchanged(prPath);
    PathMatchCharacterized(lcovPath, prPath);
    NoOccurrenceInSlightlyLonger(lcovPath, prPath);
  }

  /** The unrelated pair of the test suite: report path `src/other.ts` does not match diff path `src/foo.ts`. */
  lemma UnrelatedPathsDiffer(lcovPath: string, prPath: string)
    requires lcovPath == "src/other.ts" && prPath == "src/foo.ts"
    ensures !LcovPathMatchesPrPath(lcovPath, prPath)
  {
    SlightlyLongerReportPathDiffers(lcovPath, prPath);
  }

  /** A longer diff form matches only by ending with `/` and the report form. */
  lemma LongerMatch(a: string, b: string)
    requires |a| > |b|
    ensures PathsMatch(a, b) <==> EndsWith(a, "/" + b)
  {
    if Contains(b, a) {
      assert false;
    }
  }

  /**
   * A diff path longer than the report path matches only when it ends with
   * `/` and the report path: `src/foo.ts.bak` is not `src/foo.ts`.
   */
  lemma LongerPrPath(lcovPath: string, prPath: string)
    requires |NormalizePath(prPath)| > |NormalizePath(lcovPath)|
    ensures LcovPathMatchesPrPath(lcovPath, prPath)
            <==> EndsWith(NormalizePath(prPath), "/" + NormalizePath(lcovPath))
  {
    LongerMatch(NormalizePath(prPath), NormalizePath(lcovPath));
  }

  /** The first index holding `true`. */
  function FirstTrue(bs: seq<bool>): (r: Option<nat>)
    ensures r.Some? ==> r.value < |bs| && bs[r.value]
    decreases |bs|
  {
    if |bs| == 0 then None
    else if bs[0] then Some(0)
    else
      match FirstTrue(bs[1..])
      case None => None
      case Some(i) => Some(i + 1)
  }

  /** No earlier index holds `true`, and none at all when the search fails. */
  lemma {:induction false} FirstTrueSpec(bs: seq<bool>)
    ensures FirstTrue(bs).Some? ==> forall j :: 0 <= j < FirstTrue(bs).value ==> !bs[j]
    ensures FirstTrue(bs).None? ==> forall j :: 0 <= j < |bs| ==> !bs[j]
    decreases |bs|
  {
    if |bs| > 0 && !bs[0] {
      FirstTrueSpec(bs[1..]);
      assert forall j :: 0 < j < |bs| ==> bs[j] == bs[1..][j - 1];
    }
  }

  /** Which records of the report match the diff path. */
  function MatchMask(report: seq<LcovFile>, fileName: string): (r: seq<bool>)
    ensures |r| == |report|
    ensures forall i :: 0 <= i < |r| ==> r[i] == LcovPathMatchesPrPath(report[i].file, fileName)
  {
    seq(|report|, i requires 0 <= i < |report| => LcovPathMatchesPrPath(report[i].file, fileName))
  }

  /** The position of the first record, in report order, whose path matches the diff path. */
  function FirstMatch(report: seq<LcovFile>, fileName: string): (r: Option<nat>)
    ensures r.Some? ==> r.value < |report|
  {
    FirstTrue(MatchMask(report, fileName))
  }

  /** `find` returns the first record, in report order, whose path matches; none when no record matches. */
  lemma FirstMatchSpec(report: seq<LcovFile>, fileName: string)
    ensures var r := FirstMatch(report, fileName);
            && (r.Some? ==> LcovPathMatchesPrPath(report[r.value].file, fileName))
            && (r.Some? ==> forall j :: 0 <= j < r.value ==> !LcovPathMatchesPrPath(report[j].file, fileName))
            && (r.None? ==> forall j :: 0 <= j < |report| ==> !LcovPathMatchesPrPath(report[j].file, fileName))
  {
    FirstTrueSpec(MatchMask(report, fileName));
  }

  /** `coverageJSON.find(...)`. */
  function FindCoverage(report: seq<LcovFile>, fileName: string): Option<LcovFile> {
    match FirstMatch(report, fileName)
    case None => None
    case Some(i) => Some(report[i])
  }

  // ---------------------------------------------------------------------------
  // Line lookups
  // ---------------------------------------------------------------------------

  /** `entry.line === lineNumber`: both defined numbers and equal, so NaN and `undefined` equal nothing. */
  predicate SameLine(line: Option<JsNum>, n: JsNum) {
    line.Some? && line.value.Num? && n.Num? && line.value.value == n.value
  }

  /** `(hit ?? 0) > 0`: an unset or NaN hit counts as not hit. */
  predicate Hit(hit: Option<JsNum>) {
    hit.Some? && hit.value.Num? && hit.value.value > 0
  }

  /** `hasLineEntry`: some line entry is at `n`. */
  predicate HasLineEntry(n: JsNum, f: LcovFile) {
    exists i :: 0 <= i < |f.lines.details| && SameLine(f.lines.details[i].line, n)
  }

  /** The loop of `isLineCovered`: the first entry at `n` decides. */
  predicate CoveredIn(details: seq<DetailEntry>, n: JsNum)
    decreases |details|
  {
    if |details| == 0 then false
    else if SameLine(details[0].line, n) then Hit(details[0].hit)
    else CoveredIn(details[1..], n)
  }

  /** `isLineCovered`. */
  predicate IsLineCovered(n: JsNum, f: LcovFile) {
    CoveredIn(f.lines.details, n)
  }

  /** `coverage.hit === 0 || coverage.taken === 0` (an unset field never counts). */
  predicate Flags(e: DetailEntry) {
    e.hit == Some(Num(0)) || e.taken == Some(Num(0))
  }

  /** `checkCoverage`: the scan for an entry at `n` recorded as never executed. */
  function CheckCoverage(n: JsNum, details: seq<DetailEntry>): (r: bool)
    ensures r ==> n.Num?
    decreases |details|
  {
    if |details| == 0 then false
    else if SameLine(details[0].line, n) && Flags(details[0]) then true
    else CheckCoverage(n, details[1..])
  }

  /** `isLineCovered` reads the first entry at the line, and only that one. */
  lemma {:induction false} CoveredByFirstEntry(details: seq<DetailEntry>, n: JsNum, i: nat)
    requires i < |details| && SameLine(details[i].line, n)
    requires forall j :: 0 <= j < i ==> !SameLine(details[j].line, n)
    ensures CoveredIn(details, n) == Hit(details[i].hit)
    decreases i
  {
    if i > 0 {
      CoveredByFirstEntry(details[1..], n, i - 1);
    }
  }

  /** With no entry at the line, the line is not covered. */
  lemma {:induction false} NoEntryNotCovered(details: seq<DetailEntry>, n: JsNum)
    requires forall j :: 0 <= j < |details| ==> !SameLine(details[j].line, n)
    ensures !CoveredIn(details, n)
    decreases |details|
  {
    if |details| > 0 {
      NoEntryNotCovered(details[1..], n);
    }
  }

  /** A covered line always has a line entry. */
  lemma CoveredHasEntry(n: JsNum, f: LcovFile)
    ensures IsLineCovered(n, f) ==> HasLineEntry(n, f)
  {
    if !HasLineEntry(n, f) {
      NoEntryNotCovered(f.lines.details, n);
    }
  }

  /** `checkCoverage` flags exactly the lines with some entry whose hit or taken count is 0. */
  lemma {:induction false} CheckCoverageExists(n: JsNum, details: seq<DetailEntry>)
    ensures CheckCoverage(n, details)
            <==> exists i :: 0 <= i < |details| && SameLine(details[i].line, n) && Flags(details[i])
    decreases |details|
  {
    if |details| > 0 {
      CheckCoverageExists(n, details[1..]);
      if exists i :: 0 <= i < |details[1..]| && SameLine(details[1..][i].line, n) && Flags(details[1..][i]) {
        var i :| 0 <= i < |details[1..]| && SameLine(details[1..][i].line, n) && Flags(details[1..][i]);
        assert details[i + 1] == details[1..][i];
      }
      if exists i :: 0 <= i < |details| && SameLine(details[i].line, n) && Flags(details[i]) {
        var i :| 0 <= i < |details| && SameLine(details[i].line, n) && Flags(details[i]);
        if i > 0 {
          assert details[1..][i - 1] == details[i];
        }
      }
    }
  }

  // ---------------------------------------------------------------------------
  // Enumerating the new lines of a hunk
  // ---------------------------------------------------------------------------

  /**
   * The iterations of `for (i = 0; i < count; i++)` with
   * `count = parseInt(endsAfter, 10) || 1`: a NaN or zero count is one line,
   * a negative count none.
   */
  function LoopCount(endsAfter: string): (r: nat)
    ensures ParseInt(endsAfter).None? ==> r == 1
    ensures ParseInt(endsAfter).Some? && ParseInt(endsAfter).value == 0 ==> r == 1
    ensures ParseInt(endsAfter).Some? && ParseInt(endsAfter).value > 0 ==> r == ParseInt(endsAfter).value
    ensures ParseInt(endsAfter).Some? && ParseInt(endsAfter).value < 0 ==> r == 0
  {
    match ParseInt(endsAfter)
    case None => 1
    case Some(v) => if v == 0 then 1 else if v < 0 then 0 else v
  }

  /** `parseInt(change.lineNumber, 10)`. */
  function StartLine(c: ChangedLine): JsNum {
    match ParseInt(c.lineNumber)
    case None => NaN
    case Some(v) => Num(v)
  }

  /** `startLine + i`, where NaN absorbs the offset. */
  function Offset(n: JsNum, i: nat): JsNum {
    match n
    case NaN => NaN
    case Num(v) => Num(v + i)
  }

  /** `startLine + i` for `i` from 0 below `count`: consecutive lines in ascending order, or NaN throughout. */
  function Enumerate(start: JsNum, count: nat): (r: seq<JsNum>)
    ensures |r| == count
    ensures start.Num? ==> forall i :: 0 <= i < |r| ==> r[i] == Num(start.value + i)
    ensures start.NaN? ==> forall i :: 0 <= i < |r| ==> r[i] == NaN
  {
    seq(count, i requires 0 <= i => Offset(start, i))
  }

  /** The line numbers one hunk enumerates. */
  function ChangeLines(c: ChangedLine): (r: seq<JsNum>)
    ensures |r| == LoopCount(c.endsAfter)
  {
    Enumerate(StartLine(c), LoopCount(c.endsAfter))
  }

  /** The line numbers of all hunks of a file, hunk by hunk. */
  function FileLines(data: seq<ChangedLine>): (r: seq<JsNum>)
    ensures forall i :: 0 <= i < |data| ==> forall n :: n in ChangeLines(data[i]) ==> n in r
    decreases |data|
  {
    if |data| == 0 then []
    else ChangeLines(data[0]) + FileLines(data[1..])
  }

  /**
   * A hunk whose start and count `parseInt` reads as `s` and `k` enumerates
   * `s, s+1, ..., s+k-1` for a positive `k`, the line `s` alone for `k = 0`
   * (through `|| 1`), and nothing for a negative `k`.
   */
  lemma HunkLinesParsed(c: ChangedLine, s: int, k: int)
    requires ParseInt(c.lineNumber) == Some(s) && ParseInt(c.endsAfter) == Some(k)
    ensures |ChangeLines(c)| == if k > 0 then k else if k == 0 then 1 else 0
    ensures forall i :: 0 <= i < |ChangeLines(c)| ==> ChangeLines(c)[i] == Num(s + i)
  {
    var start := StartLine(c);
    var count := LoopCount(c.endsAfter);
    assert start == Num(s);
    assert count == if k > 0 then k else if k == 0 then 1 else 0;
    EnumerateFrom(start, s, count);
  }

  /** `Enumerate` from a numeric start, stated about the start's value. */
  lemma EnumerateFrom(start: JsNum, s: int, count: nat)
    requires start == Num(s)
    ensures |Enumerate(start, count)| == count
    ensures forall i :: 0 <= i < count ==> Enumerate(start, count)[i] == Num(s + i)
  {
  }

  /** The same for a hunk written `+s,k` with `s` and `k` in decimal. */
  lemma HunkLines(c: ChangedLine, s: int, k: int)
    requires c.lineNumber == IntToString(s) && c.endsAfter == IntToString(k)
    ensures |ChangeLines(c)| == if k > 0 then k else if k == 0 then 1 else 0
    ensures forall i :: 0 <= i < |ChangeLines(c)| ==> ChangeLines(c)[i] == Num(s + i)
  {
    ParseIntIntToString(s);
    ParseIntIntToString(k);
    HunkLinesParsed(c, s, k);
  }

  /** A start that `parseInt` cannot read makes every enumerated line NaN. */
  lemma UnreadableStartIsNaN(c: ChangedLine)
    requires ParseInt(c.lineNumber).None?
    ensures forall i :: 0 <= i < |ChangeLines(c)| ==> ChangeLines(c)[i] == NaN
  {
  }

  /** A `N,0` hunk from the diff decoder (endsAfter `"0"`) still enumerates one line. */
  lemma ZeroCountIsOneLine()
    ensures LoopCount("0") == 1
  {
    ParseIntDigits("0");
  }

  /** The head and tail of a concatenation with a non-empty left part. */
  lemma ConcatTail<T>(a: seq<T>, b: seq<T>)
    requires |a| > 0
    ensures (a + b)[0] == a[0] && (a + b)[1..] == a[1..] + b
  {
  }

  // ---------------------------------------------------------------------------
  // Resolving diff files against the report
  // ---------------------------------------------------------------------------

  /**
   * One diff file as every loop of the engine sees it: its name, the line
   * numbers its hunks enumerate, and its coverage record, if the report has one.
   * Each loop looks the record up with the same `find`, so resolving once
   * changes nothing.
   */
  datatype Resolved = Resolved(fileName: string, lines: seq<JsNum>, coverage: Option<LcovFile>)

  function ResolveFile(file: PrFile, report: seq<LcovFile>): Resolved {
    Resolved(file.fileName, FileLines(file.data), FindCoverage(report, file.fileName))
  }

  function Resolve(prData: seq<PrFile>, report: seq<LcovFile>): (r: seq<Resolved>)
    ensures |r| == |prData|
    ensures forall i :: 0 <= i < |r| ==> r[i] == ResolveFile(prData[i], report)
  {
    seq(|prData|, i requires 0 <= i < |prData| => ResolveFile(prData[i], report))
  }

  lemma ResolveAppend(a: seq<PrFile>, b: seq<PrFile>, report: seq<LcovFile>)
    ensures Resolve(a + b, report) == Resolve(a, report) + Resolve(b, report)
  {
    assert forall i :: 0 <= i < |a| ==> (a + b)[i] == a[i];
    assert forall i :: |a| <= i < |a| + |b| ==> (a + b)[i] == b[i - |a|];
  }

  // ---------------------------------------------------------------------------
  // New-line coverage counts and uncovered new lines
  // ---------------------------------------------------------------------------

  datatype NewLinesCoverageStats = NewLinesCoverageStats(totalNewLines: nat, coveredNewLines: nat)

  /** The counts over some new lines of one file: lines with an entry, and those covered. */
  function LineStats(lines: seq<JsNum>, f: LcovFile): (r: NewLinesCoverageStats)
    ensures r.coveredNewLines <= r.totalNewLines <= |lines|
    decreases |lines|
  {
    if |lines| == 0 then NewLinesCoverageStats(0, 0)
    else
      var rest := LineStats(lines[1..], f);
      var n := lines[0];
      if !HasLineEntry(n, f) then rest
      else if IsLineCovered(n, f) then NewLinesCoverageStats(rest.totalNewLines + 1, rest.coveredNewLines + 1)
      else NewLinesCoverageStats(rest.totalNewLines + 1, rest.coveredNewLines)
  }

  /**
   * One new line counts towards `totalNewLines` exactly when it has a line
   * entry, and towards `coveredNewLines` exactly when it is covered.
   */
  lemma LineStatsSingle(single: seq<JsNum>, f: LcovFile)
    requires |single| == 1
    ensures LineStats(single, f).totalNewLines == if HasLineEntry(single[0], f) then 1 else 0
    ensures LineStats(single, f).coveredNewLines == if IsLineCovered(single[0], f) then 1 else 0
  {
    CoveredHasEntry(single[0], f);
    assert LineStats(single[1..], f) == NewLinesCoverageStats(0, 0);
  }

  /** The counts over consecutive runs of new lines add up. */
  lemma {:induction false} LineStatsAppend(xs: seq<JsNum>, ys: seq<JsNum>, f: LcovFile)
    ensures LineStats(xs + ys, f).totalNewLines == LineStats(xs, f).totalNewLines + LineStats(ys, f).totalNewLines
    ensures LineStats(xs + ys, f).coveredNewLines == LineStats(xs, f).coveredNewLines + LineStats(ys, f).coveredNewLines
    decreases |xs|
  {
    if |xs| == 0 {
      assert xs + ys == ys;
    } else {
      ConcatTail(xs, ys);
      LineStatsAppend(xs[1..], ys, f);
    }
  }

  /** The counts of one diff file; a file the report does not cover counts nothing. */
  function FileStats(r: Resolved): NewLinesCoverageStats {
    match r.coverage
    case None => NewLinesCoverageStats(0, 0)
    case Some(f) => LineStats(r.lines, f)
  }

  function StatsOf(files: seq<Resolved>): (r: NewLinesCoverageStats)
    ensures r.coveredNewLines <= r.totalNewLines
    decreases |files|
  {
    if |files| == 0 then NewLinesCoverageStats(0, 0)
    else
      var head := FileStats(files[0]);
      var rest := StatsOf(files[1..]);
      NewLinesCoverageStats(head.totalNewLines + rest.totalNewLines, head.coveredNewLines + rest.coveredNewLines)
  }

  /** `getNewLinesCoverageStats`: never more covered than counted new lines. */
  function GetNewLinesCoverageStats(prData: seq<PrFile>, report: seq<LcovFile>): (r: NewLinesCoverageStats)
    ensures r.coveredNewLines <= r.totalNewLines
  {
    StatsOf(Resolve(prData, report))
  }

  datatype NewLine = NewLine(fileName: string, lineNumber: int)

  /** The new lines of one file that have an entry and are not covered, in order. */
  function UncoveredLines(fileName: string, lines: seq<JsNum>, f: LcovFile): (r: seq<NewLine>)
    ensures |r| <= |lines|
    decreases |lines|
  {
    if |lines| == 0 then []
    else
      var rest := UncoveredLines(fileName, lines[1..], f);
      var n := lines[0];
      if HasLineEntry(n, f) && !IsLineCovered(n, f) then [NewLine(fileName, n.value)] + rest else rest
  }

  /** Every reported line carries the file's name and is one of its enumerated lines. */
  lemma {:induction false} UncoveredLinesFrom(fileName: string, lines: seq<JsNum>, f: LcovFile)
    ensures forall i :: 0 <= i < |UncoveredLines(fileName, lines, f)| ==>
              UncoveredLines(fileName, lines, f)[i].fileName == fileName
    ensures forall i :: 0 <= i < |UncoveredLines(fileName, lines, f)| ==>
              Num(UncoveredLines(fileName, lines, f)[i].lineNumber) in lines
    decreases |lines|
  {
    if |lines| > 0 {
      var n := lines[0];
      var rest := UncoveredLines(fileName, lines[1..], f);
      UncoveredLinesFrom(fileName, lines[1..], f);
      assert forall x :: x in lines[1..] ==> x in lines;
      if HasLineEntry(n, f) && !IsLineCovered(n, f) {
        var i :| 0 <= i < |f.lines.details| && SameLine(f.lines.details[i].line, n);
        assert Num(n.value) == n;
        var r := [NewLine(fileName, n.value)] + rest;
        assert UncoveredLines(fileName, lines, f) == r;
        assert forall j :: 1 <= j < |r| ==> r[j] == rest[j - 1];
      } else {
        assert UncoveredLines(fileName, lines, f) == rest;
      }
    }
  }

  /** Every reported line has a line entry and is not covered. */
  lemma {:induction false} UncoveredLinesFlagged(fileName: string, lines: seq<JsNum>, f: LcovFile)
    ensures forall i :: 0 <= i < |UncoveredLines(fileName, lines, f)| ==>
              HasLineEntry(Num(UncoveredLines(fileName, lines, f)[i].lineNumber), f)
              && !IsLineCovered(Num(UncoveredLines(fileName, lines, f)[i].lineNumber), f)
    decreases |lines|
  {
    if |lines| > 0 {
      var n := lines[0];
      var rest := UncoveredLines(fileName, lines[1..], f);
      UncoveredLinesFlagged(fileName, lines[1..], f);
      if HasLineEntry(n, f) && !IsLineCovered(n, f) {
        var i :| 0 <= i < |f.lines.details| && SameLine(f.lines.details[i].line, n);
        assert Num(n.value) == n;
        var r := [NewLine(fileName, n.value)] + rest;
        assert UncoveredLines(fileName, lines, f) == r;
        assert forall j :: 1 <= j < |r| ==> r[j] == rest[j - 1];
      } else {
        assert UncoveredLines(fileName, lines, f) == rest;
      }
    }
  }

  function FileUncovered(r: Resolved): seq<NewLine> {
    match r.coverage
    case None => []
    case Some(f) => UncoveredLines(r.fileName, r.lines, f)
  }

  function UncoveredOf(files: seq<Resolved>): seq<NewLine>
    decreases |files|
  {
    if |files| == 0 then []
    else FileUncovered(files[0]) + UncoveredOf(files[1..])
  }

  /** `getUncoveredNewLineNumbers`. */
  function GetUncoveredNewLineNumbers(prData: seq<PrFile>, report: seq<LcovFile>): seq<NewLine> {
    UncoveredOf(Resolve(prData, report))
  }

  /** Per file, the uncovered new lines are the counted lines less the covered ones. */
  lemma {:induction false} UncoveredLinesCount(fileName: string, lines: seq<JsNum>, f: LcovFile)
    ensures |UncoveredLines(fileName, lines, f)| + LineStats(lines, f).coveredNewLines
            == LineStats(lines, f).totalNewLines
    decreases |lines|
  {
    if |lines| > 0 {
      UncoveredLinesCount(fileName, lines[1..], f);
    }
  }

  lemma {:induction false} UncoveredOfCount(files: seq<Resolved>)
    ensures |UncoveredOf(files)| + StatsOf(files).coveredNewLines == StatsOf(files).totalNewLines
    decreases |files|
  {
    if |files| > 0 {
      UncoveredOfCount(files[1..]);
      match files[0].coverage
      case None =>
      case Some(f) =>
        UncoveredLinesCount(files[0].fileName, files[0].lines, f);
    }
  }

  /** The uncovered list is exactly as long as `totalNewLines - coveredNewLines`. */
  lemma UncoveredCount(prData: seq<PrFile>, report: seq<LcovFile>)
    ensures |GetUncoveredNewLineNumbers(prData, report)| + GetNewLinesCoverageStats(prData, report).coveredNewLines
            == GetNewLinesCoverageStats(prData, report).totalNewLines
  {
    UncoveredOfCount(Resolve(prData, report));
  }

  lemma {:induction false} ResolvedAppend(a: seq<Resolved>, b: seq<Resolved>)
    ensures UncoveredOf(a + b) == UncoveredOf(a) + UncoveredOf(b)
    decreases |a|
  {
    if |a| == 0 {
      assert a + b == b;
    } else {
      ResolvedAppend(a[1..], b);
      ConcatTail(a, b);
    }
  }

  lemma {:induction false} StatsAppend(a: seq<Resolved>, b: seq<Resolved>)
    ensures StatsOf(a + b).totalNewLines == StatsOf(a).totalNewLines + StatsOf(b).totalNewLines
    ensures StatsOf(a + b).coveredNewLines == StatsOf(a).coveredNewLines + StatsOf(b).coveredNewLines
    decreases |a|
  {
    if |a| == 0 {
      assert a + b == b;
    } else {
      StatsAppend(a[1..], b);
      ConcatTail(a, b);
    }
  }

  /** Both the counts and the uncovered list are built file by file, in diff order. */
  lemma DiffFilesAppend(a: seq<PrFile>, b: seq<PrFile>, report: seq<LcovFile>)
    ensures GetUncoveredNewLineNumbers(a + b, report)
            == GetUncoveredNewLineNumbers(a, report) + GetUncoveredNewLineNumbers(b, report)
    ensures GetNewLinesCoverageStats(a + b, report).totalNewLines
            == GetNewLinesCoverageStats(a, report).totalNewLines + GetNewLinesCoverageStats(b, report).totalNewLines
    ensures GetNewLinesCoverageStats(a + b, report).coveredNewLines
            == GetNewLinesCoverageStats(a, report).coveredNewLines + GetNewLinesCoverageStats(b, report).coveredNewLines
  {
    ResolveAppend(a, b, report);
    ResolvedAppend(Resolve(a, report), Resolve(b, report));
    StatsAppend(Resolve(a, report), Resolve(b, report));
  }

  /** A single diff file the report covers counts over the lines its hunks enumerate. */
  lemma CoveredSingle(file: PrFile, report: seq<LcovFile>, f: LcovFile)
    requires FindCoverage(report, file.fileName) == Some(f)
    ensures GetNewLinesCoverageStats([file], report) == LineStats(FileLines(file.data), f)
    ensures GetUncoveredNewLineNumbers([file], report) == UncoveredLines(file.fileName, FileLines(file.data), f)
  {
    var single := Resolve([file], report);
    var r := ResolveFile(file, report);
    assert single == [r];
    assert r == Resolved(file.fileName, FileLines(file.data), Some(f));
    SingleResolved(r, f);
  }

  /** A one-element run of resolved files is that file alone. */
  lemma SingleResolved(r: Resolved, f: LcovFile)
    requires r.coverage == Some(f)
    ensures StatsOf([r]) == LineStats(r.lines, f)
    ensures UncoveredOf([r]) == UncoveredLines(r.fileName, r.lines, f)
  {
    assert [r][1..] == [];
    var s := LineStats(r.lines, f);
    assert StatsOf([r]) == NewLinesCoverageStats(s.totalNewLines + 0, s.coveredNewLines + 0);
    assert UncoveredOf([r]) == UncoveredLines(r.fileName, r.lines, f) + [];
  }

  /** A single diff file the report does not cover yields no lines and no counts. */
  lemma MissingSingle(file: PrFile, report: seq<LcovFile>)
    requires FindCoverage(report, file.fileName).None?
    ensures GetUncoveredNewLineNumbers([file], report) == []
    ensures GetNewLinesCoverageStats([file], report).totalNewLines == 0
    ensures GetNewLinesCoverageStats([file], report).coveredNewLines == 0
  {
    var single := Resolve([file], report);
    assert single[0] == ResolveFile(file, report);
    assert single[0].coverage.None?;
    assert single[1..] == [];
    assert UncoveredOf(single) == FileUncovered(single[0]) + UncoveredOf(single[1..]);
    assert StatsOf(single[1..]) == NewLinesCoverageStats(0, 0);
  }

  /** A diff file the report does not cover adds nothing to the counts or the list. */
  lemma MissingFileContributesNothing(a: seq<PrFile>, file: PrFile, b: seq<PrFile>, report: seq<LcovFile>)
    requires FindCoverage(report, file.fileName).None?
    ensures GetUncoveredNewLineNumbers(a + [file] + b, report) == GetUncoveredNewLineNumbers(a + b, report)
    ensures GetNewLinesCoverageStats(a + [file] + b, report).totalNewLines == GetNewLinesCoverageStats(a + b, report).totalNewLines
    ensures GetNewLinesCoverageStats(a + [file] + b, report).coveredNewLines == GetNewLinesCoverageStats(a + b, report).coveredNewLines
  {
    DiffFilesAppend(a + [file], b, report);
    DiffFilesAppend(a, [file], report);
    DiffFilesAppend(a, b, report);
    MissingSingle(file, report);
    var ua := GetUncoveredNewLineNumbers(a, report);
    assert ua + [] == ua;
  }

  /** Within a file the uncovered lines follow the hunks' enumeration order. */
  lemma {:induction false} UncoveredLinesAppend(fileName: string, xs: seq<JsNum>, ys: seq<JsNum>, f: LcovFile)
    ensures UncoveredLines(fileName, xs + ys, f) == UncoveredLines(fileName, xs, f) + UncoveredLines(fileName, ys, f)
    decreases |xs|
  {
    if |xs| == 0 {
      assert xs + ys == ys;
    } else {
      var h := if HasLineEntry(xs[0], f) && !IsLineCovered(xs[0], f) then [NewLine(fileName, xs[0].value)] else [];
      assert (xs + ys)[0] == xs[0] && (xs + ys)[1..] == xs[1..] + ys;
      assert UncoveredLines(fileName, xs + ys, f) == h + UncoveredLines(fileName, xs[1..] + ys, f);
      assert UncoveredLines(fileName, xs, f) == h + UncoveredLines(fileName, xs[1..], f);
      UncoveredLinesAppend(fileName, xs[1..], ys, f);
    }
  }

  // ---------------------------------------------------------------------------
  // Uncovered items per coverage type
  // ---------------------------------------------------------------------------

  /** The coverage-type names the engine recognises. */
  datatype CoverageKind = Functions | Branches | Lines | All | Unknown

  function KindOf(t: string): CoverageKind {
    if t == "functions" then Functions
    else if t == "branches" then Branches
    else if t == "lines" then Lines
    else if t == "all" then All
    else Unknown
  }

  /** The annotation types an item can carry. */
  const AnnotationTypes: set<string> := {"lines", "functions", "branches"}

  /** Every item is at line `n` and carries a known annotation type. */
  predicate ItemsAt(items: seq<UncoveredLine>, n: JsNum) {
    forall i :: 0 <= i < |items| ==> n.Num? && items[i].lineNumber == n.value && items[i].annotationType in AnnotationTypes
  }

  lemma ItemsAtAppend(a: seq<UncoveredLine>, b: seq<UncoveredLine>, n: JsNum)
    requires ItemsAt(a, n) && ItemsAt(b, n)
    ensures ItemsAt(a + b, n)
  {
    var c := a + b;
    forall i | 0 <= i < |c|
      ensures n.Num? && c[i].lineNumber == n.value && c[i].annotationType in AnnotationTypes
    {
      if i < |a| {
        assert c[i] == a[i];
      } else {
        assert c[i] == b[i - |a|];
      }
    }
  }

  /** One item of the given type at `n` when that metric flags the line. */
  function Flag(n: JsNum, details: seq<DetailEntry>, annotationType: string): seq<UncoveredLine> {
    if CheckCoverage(n, details) then [UncoveredLine(n.value, annotationType)] else []
  }

  /** The items one entry of `typesToCover` yields for line `n`. */
  function ItemsForType(n: JsNum, f: LcovFile, t: string): (r: seq<UncoveredLine>)
    ensures ItemsAt(r, n)
  {
    match KindOf(t)
    case Functions => Flag(n, f.functions.details, "functions")
    case Branches => Flag(n, f.branches.details, "branches")
    case Lines => Flag(n, f.lines.details, "lines")
    case All =>
      Flag(n, f.lines.details, "lines") + Flag(n, f.functions.details, "functions")
      + Flag(n, f.branches.details, "branches")
    case Unknown => []
  }

  /** `checkIfLineUncoveredInCoverage`: the items of every requested type, in request order. */
  function CheckIfLineUncovered(n: JsNum, f: LcovFile, types: seq<string>): (r: seq<UncoveredLine>)
    ensures ItemsAt(r, n)
    decreases |types|
  {
    if |types| == 0 then []
    else
      var head := ItemsForType(n, f, types[0]);
      var rest := CheckIfLineUncovered(n, f, types[1..]);
      ItemsAtAppend(head, rest, n);
      head + rest
  }

  /** The items of a request list are those of each requested type, in request order. */
  lemma {:induction false} RequestOrder(n: JsNum, f: LcovFile, a: seq<string>, b: seq<string>)
    ensures CheckIfLineUncovered(n, f, a + b) == CheckIfLineUncovered(n, f, a) + CheckIfLineUncovered(n, f, b)
    decreases |a|
  {
    if |a| == 0 {
      assert a + b == b;
    } else {
      ConcatTail(a, b);
      RequestOrder(n, f, a[1..], b);
    }
  }

  /** A single requested type yields exactly that type's items. */
  lemma SingleRequest(n: JsNum, f: LcovFile, types: seq<string>)
    requires |types| == 1
    ensures CheckIfLineUncovered(n, f, types) == ItemsForType(n, f, types[0])
  {
    assert CheckIfLineUncovered(n, f, types[1..]) == [];
  }

  /** The items of all enumerated lines of a file, line by line. */
  function FileItems(lines: seq<JsNum>, f: LcovFile, types: seq<string>): (r: seq<UncoveredLine>)
    ensures forall i :: 0 <= i < |r| ==> Num(r[i].lineNumber) in lines && r[i].annotationType in AnnotationTypes
    decreases |lines|
  {
    if |lines| == 0 then []
    else
      var head := CheckIfLineUncovered(lines[0], f, types);
      var rest := FileItems(lines[1..], f, types);
      assert forall i :: |head| <= i < |head| + |rest| ==> (head + rest)[i] == rest[i - |head|];
      assert forall x :: x in lines[1..] ==> x in lines;
      head + rest
  }

  /** Some entry at line `n` records hit 0 or taken 0. */
  predicate EntryFlags(n: JsNum, details: seq<DetailEntry>) {
    exists i :: 0 <= i < |details| && SameLine(details[i].line, n) && Flags(details[i])
  }

  /** A metric's items at `n`: one item of type `t` exactly when an entry of that metric at `n` flags it. */
  lemma FlagExactly(n: JsNum, details: seq<DetailEntry>, t: string)
    ensures Flag(n, details, t) == if EntryFlags(n, details) then [UncoveredLine(n.value, t)] else []
  {
    CheckCoverageExists(n, details);
  }

  /**
   * A `functions`, `branches` or `lines` request yields one item of that
   * type exactly when some entry of that metric at the line has hit 0 or
   * taken 0, and nothing otherwise.
   */
  lemma ItemsForMetric(n: JsNum, f: LcovFile, t: string)
    ensures KindOf(t) == Functions ==>
              ItemsForType(n, f, t) == if EntryFlags(n, f.functions.details) then [UncoveredLine(n.value, t)] else []
    ensures KindOf(t) == Branches ==>
              ItemsForType(n, f, t) == if EntryFlags(n, f.branches.details) then [UncoveredLine(n.value, t)] else []
    ensures KindOf(t) == Lines ==>
              ItemsForType(n, f, t) == if EntryFlags(n, f.lines.details) then [UncoveredLine(n.value, t)] else []
  {
    FlagExactly(n, f.functions.details, t);
    FlagExactly(n, f.branches.details, t);
    FlagExactly(n, f.lines.details, t);
  }

  /** `all` is `lines`, then `functions`, then `branches`. */
  lemma AllIsLinesFunctionsBranches(n: JsNum, f: LcovFile)
    ensures ItemsForType(n, f, "all")
            == ItemsForType(n, f, "lines") + ItemsForType(n, f, "functions") + ItemsForType(n, f, "branches")
  {
    assert KindOf("all") == All && KindOf("lines") == Lines;
    assert KindOf("functions") == Functions && KindOf("branches") == Branches;
  }

  /** A type name the engine does not know yields nothing. */
  lemma UnknownTypeYieldsNothing(n: JsNum, f: LcovFile, types: seq<string>)
    requires forall i :: 0 <= i < |types| ==> types[i] !in {"functions", "branches", "lines", "all"}
    ensures CheckIfLineUncovered(n, f, types) == []
  {
    if |types| > 0 {
      assert KindOf(types[0]) == Unknown;
      UnknownTypeYieldsNothing(n, f, types[1..]);
    }
  }

  /**
   * Line entries with one well-formed `DA:<line>,<hits>` record per line:
   * every entry has a numeric, non-negative hit count and no `taken`, and no
   * two entries share a line number. The decoder does not guarantee this: a
   * `DA:5` record decodes to hit NaN, `DA:5,-1` to hit -1, and two `DA:5,...`
   * records to two entries at line 5.
   */
  predicate WellFormedLines(f: LcovFile) {
    var d := f.lines.details;
    && (forall i :: 0 <= i < |d| ==> d[i].hit.Some? && d[i].hit.value.Num? && d[i].hit.value.value >= 0)
    && (forall i :: 0 <= i < |d| ==> d[i].taken.None?)
    && (forall i, j :: 0 <= i < j < |d| && d[i].line.Some? ==> d[i].line != d[j].line)
  }

  /** For well-formed line entries, `checkCoverage` on lines is "has an entry and is not covered". */
  lemma LineFlagIsUncovered(n: JsNum, f: LcovFile)
    requires WellFormedLines(f)
    ensures CheckCoverage(n, f.lines.details) <==> HasLineEntry(n, f) && !IsLineCovered(n, f)
  {
    var d := f.lines.details;
    CheckCoverageExists(n, d);
    if HasLineEntry(n, f) {
      var i :| 0 <= i < |d| && SameLine(d[i].line, n);
      assert forall j :: 0 <= j < |d| && j != i ==> !SameLine(d[j].line, n);
      CoveredByFirstEntry(d, n, i);
    }
  }

  /** The item form of an uncovered new line. */
  function AsItems(ls: seq<NewLine>): (r: seq<UncoveredLine>)
    ensures |r| == |ls|
    ensures forall i :: 0 <= i < |r| ==> r[i] == UncoveredLine(ls[i].lineNumber, "lines")
  {
    seq(|ls|, i requires 0 <= i < |ls| => UncoveredLine(ls[i].lineNumber, "lines"))
  }

  /** Item form distributes over concatenation. */
  lemma AsItemsAppend(a: seq<NewLine>, b: seq<NewLine>)
    ensures AsItems(a + b) == AsItems(a) + AsItems(b)
  {
  }

  /**
   * The new lines the `lines` annotation reports: those whose line entries
   * `checkCoverage` flags, in enumeration order.
   */
  function FlaggedLines(fileName: string, lines: seq<JsNum>, f: LcovFile): (r: seq<NewLine>)
    ensures |r| <= |lines|
    decreases |lines|
  {
    if |lines| == 0 then []
    else
      var rest := FlaggedLines(fileName, lines[1..], f);
      var n := lines[0];
      if CheckCoverage(n, f.lines.details) then [NewLine(fileName, n.value)] + rest else rest
  }

  /** A `['lines']` request is the `lines` check of `checkCoverage`. */
  lemma LinesRequestIsLineFlag(n: JsNum, f: LcovFile, types: seq<string>)
    requires types == ["lines"]
    ensures CheckIfLineUncovered(n, f, types) == Flag(n, f.lines.details, "lines")
  {
    assert KindOf(types[0]) == Lines;
    assert types[1..] == [];
  }

  /** With `typesToCover = ['lines']` the items are exactly the flagged new lines, in the same order, for every report. */
  lemma {:induction false} LinesOnlyMatchesFlagged(fileName: string, lines: seq<JsNum>, f: LcovFile, types: seq<string>)
    requires types == ["lines"]
    ensures FileItems(lines, f, types) == AsItems(FlaggedLines(fileName, lines, f))
    decreases |lines|
  {
    if |lines| > 0 {
      var n := lines[0];
      var rest := FlaggedLines(fileName, lines[1..], f);
      LinesOnlyMatchesFlagged(fileName, lines[1..], f, types);
      LinesRequestIsLineFlag(n, f, types);
      assert FileItems(lines, f, types) == CheckIfLineUncovered(n, f, types) + FileItems(lines[1..], f, types);
      if CheckCoverage(n, f.lines.details) {
        assert FlaggedLines(fileName, lines, f) == [NewLine(fileName, n.value)] + rest;
        AsItemsAppend([NewLine(fileName, n.value)], rest);
      } else {
        assert FlaggedLines(fileName, lines, f) == rest;
      }
    }
  }

  /** For well-formed line entries the flagged lines are exactly the uncovered new lines. */
  lemma {:induction false} FlaggedIsUncovered(fileName: string, lines: seq<JsNum>, f: LcovFile)
    requires WellFormedLines(f)
    ensures FlaggedLines(fileName, lines, f) == UncoveredLines(fileName, lines, f)
    decreases |lines|
  {
    if |lines| > 0 {
      FlaggedIsUncovered(fileName, lines[1..], f);
      LineFlagIsUncovered(lines[0], f);
    }
  }

  /** With `typesToCover = ['lines']` and well-formed line entries, the items are exactly the uncovered new lines, in the same order. */
  lemma LinesOnlyMatchesUncovered(fileName: string, lines: seq<JsNum>, f: LcovFile, types: seq<string>)
    requires WellFormedLines(f)
    requires types == ["lines"]
    ensures FileItems(lines, f, types) == AsItems(UncoveredLines(fileName, lines, f))
  {
    LinesOnlyMatchesFlagged(fileName, lines, f, types);
    FlaggedIsUncovered(fileName, lines, f);
  }

  /** A report record whose line entries are the given ones and which has no function or branch entries. */
  function LinesOnlyRecord(details: seq<DetailEntry>): LcovFile {
    LcovFile("a.ts", Section(Num(0), Num(0), details), Section(Num(0), Num(0), []), Section(Num(0), Num(0), []))
  }

  /**
   * `DA:5,3` followed by `DA:5,0`: line 5 counts as covered, so it is not an
   * uncovered new line, yet the `lines` annotation flags it.
   */
  lemma RepeatedLineCounterexample(lines: seq<JsNum>)
    requires lines == [Num(5)]
    ensures var f := LinesOnlyRecord([LineDetail(Num(5), Num(3)), LineDetail(Num(5), Num(0))]);
            UncoveredLines("a.ts", lines, f) == [] && FlaggedLines("a.ts", lines, f) == [NewLine("a.ts", 5)]
  {
    var f := LinesOnlyRecord([LineDetail(Num(5), Num(3)), LineDetail(Num(5), Num(0))]);
    var d := f.lines.details;
    assert SameLine(d[0].line, Num(5)) && Flags(d[1]);
    CheckCoverageExists(Num(5), d);
    CoveredByFirstEntry(d, Num(5), 0);
    assert lines[1..] == [];
  }

  /**
   * `DA:5` without a hit count: the entry's hit is NaN, so line 5 is an
   * uncovered new line, yet the `lines` annotation never flags it.
   */
  lemma HitlessLineCounterexample(lines: seq<JsNum>)
    requires lines == [Num(5)]
    ensures var f := LinesOnlyRecord([LineDetail(Num(5), NaN)]);
            UncoveredLines("a.ts", lines, f) == [NewLine("a.ts", 5)] && FlaggedLines("a.ts", lines, f) == []
  {
    var f := LinesOnlyRecord([LineDetail(Num(5), NaN)]);
    var d := f.lines.details;
    assert SameLine(d[0].line, Num(5)) && !Flags(d[0]);
    assert HasLineEntry(Num(5), f);
    CheckCoverageExists(Num(5), d);
    CoveredByFirstEntry(d, Num(5), 0);
    assert lines[1..] == [];
  }

  // ---------------------------------------------------------------------------
  // findUncoveredCodeInPR
  // ---------------------------------------------------------------------------

  /** The result object: file name to its uncovered items, in insertion order. */
  type UncoveredFiles = AssocList<seq<UncoveredLine>>

  /**
   * One diff file as the `prData.forEach` sees it: its name, and its items
   * when the report covers it (`None` for a file the report does not cover).
   */
  type Outcome<T> = (string, Option<seq<T>>)

  function FileOutcome(r: Resolved, types: seq<string>): Outcome<UncoveredLine> {
    match r.coverage
    case None => (r.fileName, None)
    case Some(f) => (r.fileName, Some(FileItems(r.lines, f, types)))
  }

  function Outcomes(files: seq<Resolved>, types: seq<string>): (r: seq<Outcome<UncoveredLine>>)
    ensures |r| == |files|
    ensures forall i :: 0 <= i < |r| ==> r[i] == FileOutcome(files[i], types)
  {
    seq(|files|, i requires 0 <= i < |files| => FileOutcome(files[i], types))
  }

  /**
   * One iteration of the `forEach`: an uncovered file is skipped; a covered
   * one is reset to `[]`, filled, and deleted again when still empty.
   */
  function Record<T>(m: AssocList<seq<T>>, o: Outcome<T>): AssocList<seq<T>> {
    match o.1
    case None => m
    case Some(items) =>
      var cleared := Put(m, o.0, []);
      if |items| == 0 then Remove(cleared, o.0) else Put(cleared, o.0, items)
  }

  function Collect<T>(m: AssocList<seq<T>>, outcomes: seq<Outcome<T>>): AssocList<seq<T>>
    decreases |outcomes|
  {
    if |outcomes| == 0 then m
    else Collect(Record(m, outcomes[0]), outcomes[1..])
  }

  /** `findUncoveredCodeInPR` (the resolved value of its promise). */
  function FindUncoveredCodeInPR(prData: seq<PrFile>, report: seq<LcovFile>, types: seq<string>): UncoveredFiles {
    Collect([], Outcomes(Resolve(prData, report), types))
  }

  /** The entry one file contributes to the reference result: its items, when there are any. */
  function Entry<T>(o: Outcome<T>): (r: AssocList<seq<T>>)
    ensures |r| <= 1
  {
    match o.1
    case Some(items) => if |items| == 0 then [] else [(o.0, items)]
    case None => []
  }

  /** The reference result: each covered file with at least one item, in diff order. */
  function Expected<T>(outcomes: seq<Outcome<T>>): (r: AssocList<seq<T>>)
    ensures |r| <= |outcomes|
    decreases |outcomes|
  {
    if |outcomes| == 0 then [] else Entry(outcomes[0]) + Expected(outcomes[1..])
  }

  /** Some file seen carries exactly this name and item list. */
  ghost predicate Witnessed<T>(outcomes: seq<Outcome<T>>, e: (string, seq<T>)) {
    exists j :: 0 <= j < |outcomes| && outcomes[j].0 == e.0 && outcomes[j].1 == Some(e.1)
  }

  /** A witness survives files added before or after it. */
  lemma WitnessedAppend<T>(a: seq<Outcome<T>>, b: seq<Outcome<T>>, e: (string, seq<T>))
    ensures Witnessed(a, e) ==> Witnessed(a + b, e)
    ensures Witnessed(b, e) ==> Witnessed(a + b, e)
  {
    if Witnessed(a, e) {
      var j :| 0 <= j < |a| && a[j].0 == e.0 && a[j].1 == Some(e.1);
      assert (a + b)[j] == a[j];
    }
    if Witnessed(b, e) {
      var j :| 0 <= j < |b| && b[j].0 == e.0 && b[j].1 == Some(e.1);
      assert (a + b)[|a| + j] == b[j];
    }
  }

  /** The reference result holds a file's items exactly when the report covers the file and it has some. */
  lemma {:induction false} ExpectedMembers<T>(outcomes: seq<Outcome<T>>)
    ensures forall i :: 0 <= i < |Expected(outcomes)| ==>
              |Expected(outcomes)[i].1| > 0 && Witnessed(outcomes, Expected(outcomes)[i])
    ensures forall j :: 0 <= j < |outcomes| && outcomes[j].1.Some? && |outcomes[j].1.value| > 0 ==>
              (outcomes[j].0, outcomes[j].1.value) in Expected(outcomes)
    decreases |outcomes|
  {
    if |outcomes| > 0 {
      var head := [outcomes[0]];
      var tail := outcomes[1..];
      assert outcomes == head + tail;
      ExpectedMembers(tail);
      var en := Entry(outcomes[0]);
      var rest := Expected(tail);
      var r := en + rest;
      assert Expected(outcomes) == r;
      forall i | 0 <= i < |r|
        ensures |r[i].1| > 0 && Witnessed(outcomes, r[i])
      {
        if i < |en| {
          assert r[i] == en[0];
          assert head[0].0 == en[0].0 && head[0].1 == Some(en[0].1);
          WitnessedAppend(head, tail, en[0]);
        } else {
          assert r[i] == rest[i - |en|];
          WitnessedAppend(head, tail, rest[i - |en|]);
        }
      }
      forall j | 0 <= j < |outcomes| && outcomes[j].1.Some? && |outcomes[j].1.value| > 0
        ensures (outcomes[j].0, outcomes[j].1.value) in r
      {
        if j == 0 {
          assert r[0] == (outcomes[0].0, outcomes[0].1.value);
        } else {
          assert outcomes[j] == tail[j - 1];
        }
      }
    }
  }

  /** No file name occurs twice. */
  predicate DistinctNames<T>(outcomes: seq<Outcome<T>>) {
    forall i, j :: 0 <= i < j < |outcomes| ==> outcomes[i].0 != outcomes[j].0
  }

  /** Recording a file whose name is not yet a key appends its entry exactly when it has items. */
  lemma RecordFresh<T>(m: AssocList<seq<T>>, o: Outcome<T>)
    requires o.0 !in Keys(m)
    ensures Record(m, o) == m + Entry(o)
  {
    match o.1
    case None =>
      assert m + [] == m;
    case Some(items) =>
      var k := o.0;
      LookupKeys(m, k);
      var cleared := m + [(k, [])];
      assert Put(m, k, []) == cleared;
      KeyAt(cleared, |m|, k);
      RemoveAppend(m, [(k, [])], k);
      RemoveAbsent(m, k);
      assert m + [] == m;
  }

  lemma KeysAppend<V>(a: AssocList<V>, b: AssocList<V>)
    ensures Keys(a + b) == Keys(a) + Keys(b)
  {
  }

  /** After recording the first file, the names of the later files are still fresh. */
  lemma FreshAfterRecord<T>(m: AssocList<seq<T>>, outcomes: seq<Outcome<T>>)
    requires |outcomes| > 0 && DistinctNames(outcomes)
    requires forall i :: 0 <= i < |outcomes| ==> outcomes[i].0 !in Keys(m)
    ensures forall i :: 0 < i < |outcomes| ==> outcomes[i].0 !in Keys(Record(m, outcomes[0]))
  {
    var o := outcomes[0];
    RecordFresh(m, o);
    KeysAppend(m, Entry(o));
  }

  lemma DistinctTail<T>(m: AssocList<seq<T>>, outcomes: seq<Outcome<T>>)
    requires |outcomes| > 0 && DistinctNames(outcomes)
    requires forall i :: 0 < i < |outcomes| ==> outcomes[i].0 !in Keys(m)
    ensures DistinctNames(outcomes[1..])
    ensures forall i :: 0 <= i < |outcomes[1..]| ==> outcomes[1..][i].0 !in Keys(m)
  {
    assert forall i :: 0 <= i < |outcomes[1..]| ==> outcomes[1..][i] == outcomes[i + 1];
  }

  /** With distinct names, collecting appends each file's entry in diff order. */
  lemma {:induction false} CollectDistinct<T>(m: AssocList<seq<T>>, outcomes: seq<Outcome<T>>)
    requires DistinctNames(outcomes)
    requires forall i :: 0 <= i < |outcomes| ==> outcomes[i].0 !in Keys(m)
    ensures Collect(m, outcomes) == m + Expected(outcomes)
    decreases |outcomes|
  {
    if |outcomes| > 0 {
      var o := outcomes[0];
      var tail := outcomes[1..];
      var m' := Record(m, o);
      RecordFresh(m, o);
      FreshAfterRecord(m, outcomes);
      DistinctTail(m', outcomes);
      CollectDistinct(m', tail);
      SeqAssoc(m, Entry(o), Expected(tail));
    }
  }

  lemma SeqAssoc<T>(a: seq<T>, b: seq<T>, c: seq<T>)
    ensures a + b + c == a + (b + c)
  {
  }

  /**
   * With distinct diff file names, the result holds exactly the files the
   * report covers that have at least one item, in diff order, each with its items.
   */
  lemma FindUncoveredDistinct(prData: seq<PrFile>, report: seq<LcovFile>, types: seq<string>)
    requires forall i, j :: 0 <= i < j < |prData| ==> prData[i].fileName != prData[j].fileName
    ensures FindUncoveredCodeInPR(prData, report, types) == Expected(Outcomes(Resolve(prData, report), types))
  {
    var outcomes := Outcomes(Resolve(prData, report), types);
    assert forall i :: 0 <= i < |outcomes| ==> outcomes[i].0 == prData[i].fileName;
    CollectDistinct([], outcomes);
    assert [] + Expected(outcomes) == Expected(outcomes);
  }

  /** Keys are distinct and every value is the non-empty item list of some file seen so far. */
  ghost predicate Sound<T>(m: AssocList<seq<T>>, seen: seq<Outcome<T>>) {
    && DistinctKeys(m)
    && forall i :: 0 <= i < |m| ==> |m[i].1| > 0 && Witnessed(seen, m[i])
  }

  lemma RecordSound<T>(m: AssocList<seq<T>>, seen: seq<Outcome<T>>, o: Outcome<T>)
    requires Sound(m, seen)
    ensures Sound(Record(m, o), seen + [o])
  {
    var all := seen + [o];
    forall e | e in m
      ensures Witnessed(all, e)
    {
      var i :| 0 <= i < |m| && m[i] == e;
      WitnessedAppend(seen, [o], e);
    }
    assert all[|seen|] == o;
    match o.1
    case None =>
    case Some(items) =>
      var k := o.0;
      var cleared := Put(m, k, []);
      PutDistinct(m, k, []);
      PutEntriesDistinct(m, k, []);
      if |items| == 0 {
        RemoveDistinct(cleared, k);
        RemoveEntries(cleared, k);
      } else {
        PutDistinct(cleared, k, items);
        PutEntriesDistinct(cleared, k, items);
        assert Witnessed(all, (k, items));
      }
  }

  lemma {:induction false} CollectSound<T>(m: AssocList<seq<T>>, seen: seq<Outcome<T>>, outcomes: seq<Outcome<T>>)
    requires Sound(m, seen)
    ensures Sound(Collect(m, outcomes), seen + outcomes)
    decreases |outcomes|
  {
    if |outcomes| == 0 {
      assert seen + outcomes == seen;
    } else {
      RecordSound(m, seen, outcomes[0]);
      CollectSound(Record(m, outcomes[0]), seen + [outcomes[0]], outcomes[1..]);
      assert seen + [outcomes[0]] + outcomes[1..] == seen + outcomes;
    }
  }

  /** Recording a covered file sets its key to its items, or deletes it when there are none; other keys keep their values. */
  lemma RecordLookup<T>(m: AssocList<seq<T>>, o: Outcome<T>, k: string)
    ensures Lookup(Record(m, o), k)
            == if k == o.0 && o.1.Some? then (if |o.1.value| > 0 then Some(o.1.value) else None) else Lookup(m, k)
  {
    match o.1
    case None =>
    case Some(items) =>
      var cleared := Put(m, o.0, []);
      PutLookup(m, o.0, [], k);
      if |items| == 0 {
        RemoveLookup(cleared, o.0, k);
      } else {
        PutLookup(cleared, o.0, items, k);
      }
  }

  /**
   * The reference reading of one key after a run of files: the last covered
   * file with that name decides (its items, or absent when it has none).
   */
  function Decided<T>(m: AssocList<seq<T>>, outcomes: seq<Outcome<T>>, k: string): Option<seq<T>>
    decreases |outcomes|
  {
    if |outcomes| == 0 then Lookup(m, k)
    else
      var last := outcomes[|outcomes| - 1];
      if last.0 == k && last.1.Some? then (if |last.1.value| > 0 then Some(last.1.value) else None)
      else Decided(m, outcomes[..|outcomes| - 1], k)
  }

  /** Collecting one more file is recording it on top of the earlier result. */
  lemma {:induction false} CollectSnoc<T>(m: AssocList<seq<T>>, a: seq<Outcome<T>>, o: Outcome<T>)
    ensures Collect(m, a + [o]) == Record(Collect(m, a), o)
    decreases |a|
  {
    if |a| == 0 {
      assert a + [o] == [o];
      assert [o][1..] == [];
    } else {
      ConcatTail(a, [o]);
      CollectSnoc(Record(m, a[0]), a[1..], o);
    }
  }

  /** Reading a key of the result gives what the last covered file with that name decided. */
  lemma {:induction false} CollectLookup<T>(m: AssocList<seq<T>>, outcomes: seq<Outcome<T>>, k: string)
    ensures Lookup(Collect(m, outcomes), k) == Decided(m, outcomes, k)
    decreases |outcomes|
  {
    if |outcomes| > 0 {
      var init := outcomes[..|outcomes| - 1];
      var last := outcomes[|outcomes| - 1];
      assert outcomes == init + [last];
      CollectSnoc(m, init, last);
      RecordLookup(Collect(m, init), last, k);
      CollectLookup(m, init, k);
    }
  }

  /** When a diff names a file more than once, the last occurrence the report covers decides its entry. */
  lemma FindUncoveredLookup(prData: seq<PrFile>, report: seq<LcovFile>, types: seq<string>, k: string)
    ensures Lookup(FindUncoveredCodeInPR(prData, report, types), k)
            == Decided([], Outcomes(Resolve(prData, report), types), k)
  {
    CollectLookup([], Outcomes(Resolve(prData, report), types), k);
  }

  /**
   * Whatever the diff, result keys are distinct, and every entry is a diff
   * file the report covers, with that file's non-empty item list.
   */
  lemma FindUncoveredSound(prData: seq<PrFile>, report: seq<LcovFile>, types: seq<string>)
    ensures Sound(FindUncoveredCodeInPR(prData, report, types), Outcomes(Resolve(prData, report), types))
  {
    var outcomes := Outcomes(Resolve(prData, report), types);
    CollectSound([], [], outcomes);
    assert [] + outcomes == outcomes;
  }

  /** Every item lies on a line its file's hunks enumerate and names a known type. */
  lemma ItemsInRange(prData: seq<PrFile>, report: seq<LcovFile>, types: seq<string>, i: nat, k: nat)
    requires i < |FindUncoveredCodeInPR(prData, report, types)|
    requires k < |FindUncoveredCodeInPR(prData, report, types)[i].1|
    ensures var e := FindUncoveredCodeInPR(prData, report, types)[i];
            exists j :: 0 <= j < |prData| && prData[j].fileName == e.0
                        && Num(e.1[k].lineNumber) in FileLines(prData[j].data)
                        && e.1[k].annotationType in AnnotationTypes
  {
    var e := FindUncoveredCodeInPR(prData, report, types)[i];
    var files := Resolve(prData, report);
    var outcomes := Outcomes(files, types);
    FindUncoveredSound(prData, report, types);
    assert Witnessed(outcomes, e);
    var j :| 0 <= j < |outcomes| && outcomes[j].0 == e.0 && outcomes[j].1 == Some(e.1);
    assert outcomes[j] == FileOutcome(files[j], types);
    assert files[j] == ResolveFile(prData[j], report);
    var f := files[j].coverage.value;
    assert e.1 == FileItems(FileLines(prData[j].data), f, types);
  }
}
