/**
 * The diff decoder of dist/git_diff.js: the `+start[,count]` tokens of the
 * hunk headers of one file, matched against the stream of that file's added
 * lines, become `{lineNumber, endsAfter, line[]}` records. The added lines are
 * consumed through one cursor (`shift()`), modelled here as the remaining
 * stream.
 */
module GitDiff {
  import opened Wrappers
  import opened Strings
  import opened JsNumbers
  import opened CoverageTypes

  // ---------------------------------------------------------------------------
  // Header tokens: `trimmedLines.match(/\+([^\n]+)/g)`, each stripped of its
  // `+` and trimmed.
  // ---------------------------------------------------------------------------

  /** The length of the first line of `s` (the index of its first newline, or `|s|`). */
  function LineEnd(s: string): (r: nat)
    ensures r <= |s|
    ensures forall i :: 0 <= i < r ==> s[i] != '\n'
    ensures r < |s| ==> s[r] == '\n'
    decreases |s|
  {
    if |s| == 0 || s[0] == '\n' then 0 else 1 + LineEnd(s[1..])
  }

  /** A `+` followed by at least one character of the same line starts a match. */
  predicate MatchStarts(s: string) {
    |s| >= 2 && s[0] == '+' && s[1] != '\n'
  }

  /**
   * The matches of the global regex `\+([^\n]+)`, left to right: a match
   * starts at a `+` that has text after it on its line and runs greedily to
   * the end of that line; the scan resumes after it.
   */
  function PlusMatches(s: string): (r: seq<string>)
    ensures forall i :: 0 <= i < |r| ==> MatchStarts(r[i]) && '\n' !in r[i]
    decreases |s|
  {
    if |s| == 0 then []
    else if MatchStarts(s) then
      var j := LineEnd(s);
      [s[..j]] + PlusMatches(s[j..])
    else PlusMatches(s[1..])
  }

  /** The header tokens of one file's header text. */
  function HeaderTokens(headers: string): (r: seq<string>)
    ensures |r| == |PlusMatches(Trim(headers))|
  {
    var matches := PlusMatches(Trim(headers));
    seq(|matches|, i requires 0 <= i < |matches| => Trim(matches[i][1..]))
  }

  /** A newline ends the first line. */
  lemma {:induction false} LineEndCut(a: string, b: string)
    ensures LineEnd(a + "\n" + b) == LineEnd(a)
    decreases |a|
  {
    if |a| > 0 && a[0] != '\n' {
      LineEndCut(a[1..], b);
      assert (a + "\n" + b)[1..] == a[1..] + "\n" + b;
    }
  }

  /** No match crosses a newline: the matches of two lines are those of each line, in order. */
  lemma {:induction false} PlusMatchesLines(a: string, b: string)
    ensures PlusMatches(a + "\n" + b) == PlusMatches(a) + PlusMatches(b)
    decreases |a|
  {
    var s := a + "\n" + b;
    if |a| == 0 {
      assert s == "\n" + b && s[1..] == b;
    } else if MatchStarts(a) {
      LineEndCut(a, b);
      var j := LineEnd(a);
      assert s[..j] == a[..j];
      assert s[j..] == a[j..] + "\n" + b;
      PlusMatchesLines(a[j..], b);
    } else {
      assert s[1..] == a[1..] + "\n" + b;
      PlusMatchesLines(a[1..], b);
    }
  }

  /** A header line with one `+` followed by text yields that text as its single match. */
  lemma {:induction false} PlusMatchesLine(pre: string, tok: string)
    requires '+' !in pre && '\n' !in pre && '\n' !in tok && |tok| > 0
    ensures PlusMatches(pre + "+" + tok) == ["+" + tok]
    decreases |pre|
  {
    var s := pre + "+" + tok;
    if |pre| == 0 {
      assert s == "+" + tok;
      assert s[1] == tok[0];
      assert forall i :: 1 <= i < |s| ==> s[i] == tok[i - 1];
      var j := LineEnd(s);
      assert j == |s|;
      assert s[..j] == s && s[j..] == [];
    } else {
      assert s[1..] == pre[1..] + "+" + tok;
      PlusMatchesLine(pre[1..], tok);
    }
  }

  // ---------------------------------------------------------------------------
  // Hunk records
  // ---------------------------------------------------------------------------

  /** An added line as stored: one leading `+` removed, then trimmed. */
  function Clean(line: string): string {
    Trim(if |line| > 0 && line[0] == '+' then line[1..] else line)
  }

  /**
   * The next `n` stored lines from the stream. Past its end `shift()` yields
   * `undefined`, stored as `''` (an empty line is stored as `''` too).
   */
  function Take(stream: seq<string>, n: nat): (r: seq<string>)
    ensures |r| == n
  {
    seq(n, i requires 0 <= i < n => if i < |stream| then Clean(stream[i]) else "")
  }

  /** The stream after `n` shifts: a shift on an empty stream leaves it empty. */
  function Advance(stream: seq<string>, n: nat): (r: seq<string>)
    ensures |r| == if n <= |stream| then |stream| - n else 0
  {
    if n <= |stream| then stream[n..] else []
  }

  /** The loop bound `parseInt(iterations, 10)`: NaN or a non-positive count runs no iteration. */
  function Count(iterations: string): (r: nat)
    ensures ParseInt(iterations).Some? && ParseInt(iterations).value > 0 ==> r == ParseInt(iterations).value
    ensures ParseInt(iterations).None? || ParseInt(iterations).value <= 0 ==> r == 0
  {
    match ParseInt(iterations)
    case None => 0
    case Some(v) => if v > 0 then v else 0
  }

  /**
   * The count text of a `start,count` token: the second comma-separated
   * piece (a token with a comma always has one; see `CommaPieces`).
   */
  function Iterations(tok: string): string {
    var parts := Split(tok, ',');
    if |parts| > 1 then parts[1] else ""
  }

  lemma CommaPieces(tok: string)
    requires ',' in tok
    ensures |Split(tok, ',')| > 1
  {
    SplitSingle(tok, ',');
  }

  /** A token whose count text is not a number is skipped. */
  predicate Skipped(tok: string) {
    ',' in tok && ToNumber(Iterations(tok)).NaN?
  }

  /**
   * What one header token asks for: nothing (a count that is not a number),
   * or a record with this start and count text holding `lines` content lines.
   */
  datatype Plan = Skip | Place(lineNumber: string, endsAfter: string, lines: nat)

  /** The plan of one token: `start,count` reads `parseInt(count)` lines, a bare `start` one line. */
  function PlanOf(tok: string): Plan {
    if ',' in tok then
      var iterations := Iterations(tok);
      if ToNumber(iterations).NaN? then Skip
      else Place(Split(tok, ',')[0], iterations, Count(iterations))
    else Place(tok, "1", 1)
  }

  /** The record one plan produces, if any, and the stream after it. */
  function Execute(p: Plan, stream: seq<string>): (Option<ChangedLine>, seq<string>) {
    match p
    case Skip => (None, stream)
    case Place(start, count, n) => (Some(ChangedLine(start, count, Take(stream, n))), Advance(stream, n))
  }

  /** The record one token produces, if any, and the stream after it. */
  function DecodeToken(tok: string, stream: seq<string>): (Option<ChangedLine>, seq<string>) {
    Execute(PlanOf(tok), stream)
  }

  function Emitted(e: Option<ChangedLine>): seq<ChangedLine> {
    match e
    case None => []
    case Some(c) => [c]
  }

  /** The records of the plans, in order, and the stream left over. */
  function Run(plans: seq<Plan>, stream: seq<string>): (r: (seq<ChangedLine>, seq<string>))
    ensures |r.1| <= |stream|
    ensures |r.0| <= |plans|
    decreases |plans|
  {
    if |plans| == 0 then ([], stream)
    else
      var step := Execute(plans[0], stream);
      var tail := Run(plans[1..], step.1);
      (Emitted(step.0) + tail.0, tail.1)
  }

  function Plans(tokens: seq<string>): (r: seq<Plan>)
    ensures |r| == |tokens| && forall i :: 0 <= i < |tokens| ==> r[i] == PlanOf(tokens[i])
  {
    seq(|tokens|, i requires 0 <= i < |tokens| => PlanOf(tokens[i]))
  }

  /** The records of the tokens, in token order, and the stream left over. */
  function Decode(tokens: seq<string>, stream: seq<string>): (r: (seq<ChangedLine>, seq<string>))
    ensures |r.1| <= |stream|
  {
    Run(Plans(tokens), stream)
  }

  /** The number of content lines placed into the records. */
  function Placed(entries: seq<ChangedLine>): nat
    decreases |entries|
  {
    if |entries| == 0 then 0 else |entries[0].line| + Placed(entries[1..])
  }

  /** All content lines of the records, record by record. */
  function Flatten(entries: seq<ChangedLine>): seq<string>
    decreases |entries|
  {
    if |entries| == 0 then [] else entries[0].line + Flatten(entries[1..])
  }

  /**
   * The hunk decoder: the records for the header tokens, and the cursor, the
   * number of added lines shifted off.
   */
  function DecodeHunks(tokens: seq<string>, added: seq<string>): (r: (seq<ChangedLine>, nat))
    ensures r.1 <= |added|
  {
    var (entries, rest) := Decode(tokens, added);
    (entries, |added| - |rest|)
  }

  /** One file's record: the added-line text is trimmed as a whole and split into lines. */
  function DecodeFile(fileName: string, addedText: string, headers: string): PrFile {
    PrFile(fileName, DecodeHunks(HeaderTokens(headers), Split(Trim(addedText), '\n')).0)
  }

  /**
   * The outputs for one changed file: its added-line text, None when the
   * added-line command fails (no added line), and its hunk-header text.
   */
  datatype FileDiff = FileDiff(fileName: string, added: Option<string>, headers: string)

  /** The records of the changed files in order; a file without added lines is skipped. */
  function DecodeDiff(files: seq<FileDiff>): (r: seq<PrFile>)
    ensures |r| <= |files|
    decreases |files|
  {
    if |files| == 0 then []
    else
      var f := files[0];
      var rest := DecodeDiff(files[1..]);
      match f.added
      case None => rest
      case Some(text) => [DecodeFile(f.fileName, text, f.headers)] + rest
  }

  /** The changed file names: one per output line, the empty piece after the final newline popped. */
  function FileNames(stdout: string): (r: seq<string>)
    ensures |r| == |Split(stdout, '\n')| - 1
  {
    var files := Split(stdout, '\n');
    files[..|files| - 1]
  }

  // ---------------------------------------------------------------------------
  // Properties
  // ---------------------------------------------------------------------------

  /** The listing `name1\nname2\n...\n` gives back the names. */
  lemma FileNamesListing(names: seq<string>)
    requires forall i :: 0 <= i < |names| ==> '\n' !in names[i]
    ensures FileNames(Join(names + [""], '\n')) == names
  {
    var parts := names + [""];
    assert forall i :: 0 <= i < |parts| ==> parts[i] == if i < |names| then names[i] else "";
    SplitJoin(parts, '\n');
    assert parts[..|names|] == names;
  }

  /** A bare token `N` yields one record for line `N` with exactly one content line. */
  lemma BareToken(tok: string, stream: seq<string>)
    requires ',' !in tok
    ensures var (e, rest) := DecodeToken(tok, stream);
            && e == Some(ChangedLine(tok, "1", [if |stream| > 0 then Clean(stream[0]) else ""]))
            && rest == Advance(stream, 1)
  {
    assert PlanOf(tok) == Place(tok, "1", 1);
    assert Take(stream, 1) == [if |stream| > 0 then Clean(stream[0]) else ""];
  }

  /** A `start,count` token splits into its start and count text. */
  lemma CommaToken(start: string, count: string)
    requires ',' !in start && ',' !in count
    ensures Split(start + "," + count, ',') == [start, count]
    ensures ',' in start + "," + count
  {
    assert start + "," + count == start + [','] + count;
    SplitCut(start, ',', count);
    SplitSingle(count, ',');
    assert (start + "," + count)[|start|] == ',';
  }

  /**
   * A `start,count` token with a numeric count asks for a record whose
   * `endsAfter` is the count text and which holds `parseInt(count)` content
   * lines (none for a non-positive count).
   */
  lemma CountedToken(start: string, count: string)
    requires ',' !in start && ',' !in count && ToNumber(count).Num?
    ensures PlanOf(start + "," + count) == Place(start, count, Count(count))
  {
    CommaToken(start, count);
  }

  /** A `start,count` token with a non-numeric count yields nothing and consumes nothing. */
  lemma SkippedToken(tok: string, stream: seq<string>)
    requires Skipped(tok)
    ensures DecodeToken(tok, stream) == (None, stream)
  {
  }

  /** A plan's record holds exactly the next `lines` cleaned added lines, and the stream moves past them. */
  lemma PlaceEffect(start: string, count: string, n: nat, stream: seq<string>)
    ensures var (e, rest) := Execute(Place(start, count, n), stream);
            && e.Some? && e.value.lineNumber == start && e.value.endsAfter == count
            && |e.value.line| == n
            && (forall i :: 0 <= i < n ==> e.value.line[i] == if i < |stream| then Clean(stream[i]) else "")
            && rest == Advance(stream, n)
  {
  }

  /**
   * A `N,0` token (a hunk that only removes lines) yields a record with no
   * content line and leaves the stream alone; `ZeroCount` shows that `0`
   * is such a count.
   */
  lemma ZeroCountToken(start: string, zero: string, stream: seq<string>)
    requires ',' !in start && ',' !in zero
    requires ToNumber(zero) == Num(0) && Count(zero) == 0
    ensures var (e, rest) := DecodeToken(start + "," + zero, stream);
            && e == Some(ChangedLine(start, zero, []))
            && rest == stream
  {
    CountedToken(start, zero);
    assert Take(stream, 0) == [];
  }

  lemma ZeroCount()
    ensures ToNumber("0") == Num(0) && Count("0") == 0
  {
    ToNumberDigits("0");
    ParseIntDigits("0");
  }

  lemma TakeSplit(stream: seq<string>, n: nat, m: nat)
    ensures Take(stream, n + m) == Take(stream, n) + Take(Advance(stream, n), m)
  {
    var a := Take(stream, n + m);
    var b := Take(stream, n) + Take(Advance(stream, n), m);
    assert forall i :: 0 <= i < n + m ==> a[i] == b[i];
  }

  lemma AdvanceTwice(stream: seq<string>, n: nat, m: nat)
    ensures Advance(Advance(stream, n), m) == Advance(stream, n + m)
  {
  }

  /** The lines one plan places. */
  function PlacedBy(e: Option<ChangedLine>): nat {
    if e.Some? then |e.value.line| else 0
  }

  lemma ExecuteContent(p: Plan, stream: seq<string>)
    ensures var step := Execute(p, stream);
            && step.1 == Advance(stream, PlacedBy(step.0))
            && (step.0.Some? ==> step.0.value.line == Take(stream, PlacedBy(step.0)))
  {
  }

  lemma EmittedCons(e: Option<ChangedLine>, es: seq<ChangedLine>)
    ensures Placed(Emitted(e) + es) == PlacedBy(e) + Placed(es)
    ensures Flatten(Emitted(e) + es) == (if e.Some? then e.value.line else []) + Flatten(es)
  {
    if e.Some? {
      assert (Emitted(e) + es)[1..] == es;
    } else {
      assert Emitted(e) + es == es;
    }
  }

  lemma {:induction false} RunContent(plans: seq<Plan>, stream: seq<string>)
    ensures var r := Run(plans, stream);
            Flatten(r.0) == Take(stream, Placed(r.0)) && r.1 == Advance(stream, Placed(r.0))
    decreases |plans|
  {
    if |plans| > 0 {
      var step := Execute(plans[0], stream);
      var tail := Run(plans[1..], step.1);
      RunContent(plans[1..], step.1);
      ExecuteContent(plans[0], stream);
      var n := PlacedBy(step.0);
      TakeSplit(stream, n, Placed(tail.0));
      AdvanceTwice(stream, n, Placed(tail.0));
      EmittedCons(step.0, tail.0);
    }
  }

  /**
   * The stored content lines, record by record, are exactly the next added
   * lines of the stream, cleaned, in order, padded with `''` once it runs out;
   * the stream advances by exactly the number of lines placed.
   */
  lemma DecodeContent(tokens: seq<string>, stream: seq<string>)
    ensures var r := Decode(tokens, stream);
            Flatten(r.0) == Take(stream, Placed(r.0)) && r.1 == Advance(stream, Placed(r.0))
  {
    RunContent(Plans(tokens), stream);
  }

  /** The cursor ends at the number of lines placed, or at the end of the stream. */
  lemma HunksCursor(tokens: seq<string>, added: seq<string>)
    ensures var r := DecodeHunks(tokens, added);
            && r.1 == (if Placed(r.0) <= |added| then Placed(r.0) else |added|)
            && Flatten(r.0) == Take(added, Placed(r.0))
  {
    DecodeContent(tokens, added);
  }

  lemma RunCons(plans: seq<Plan>, stream: seq<string>)
    requires |plans| > 0
    ensures var step := Execute(plans[0], stream);
            && Run(plans, stream).0 == Emitted(step.0) + Run(plans[1..], step.1).0
            && Run(plans, stream).1 == Run(plans[1..], step.1).1
  {
  }

  /** Running two runs of plans chains their streams: records follow plan order. */
  lemma {:induction false} RunAppend(p1: seq<Plan>, p2: seq<Plan>, stream: seq<string>)
    ensures Run(p1 + p2, stream).0 == Run(p1, stream).0 + Run(p2, Run(p1, stream).1).0
    ensures Run(p1 + p2, stream).1 == Run(p2, Run(p1, stream).1).1
    decreases |p1|
  {
    if |p1| == 0 {
      assert p1 + p2 == p2;
    } else {
      var q := p1 + p2;
      assert q[0] == p1[0] && q[1..] == p1[1..] + p2;
      var step := Execute(p1[0], stream);
      RunCons(p1, stream);
      RunCons(q, stream);
      RunAppend(p1[1..], p2, step.1);
      var mid := Run(p1[1..], step.1);
      assert Run(q, stream).0 == Emitted(step.0) + (mid.0 + Run(p2, mid.1).0);
    }
  }

  /** Files keep their order and only files whose added-line command failed are dropped. */
  lemma {:induction false} DecodeDiffAppend(a: seq<FileDiff>, b: seq<FileDiff>)
    ensures DecodeDiff(a + b) == DecodeDiff(a) + DecodeDiff(b)
    decreases |a|
  {
    if |a| == 0 {
      assert a + b == b;
    } else {
      assert (a + b)[0] == a[0] && (a + b)[1..] == a[1..] + b;
      DecodeDiffAppend(a[1..], b);
    }
  }

  /**
   * A header text whose trimmed form is one line `... +start,count`, such as
   * the awk output ` -3,2 +4,5 ` with its surrounding blanks, yields the
   * trimmed text after its `+`.
   */
  lemma HeaderLineToken(headers: string, pre: string, tok: string)
    requires '+' !in pre && '\n' !in pre && '\n' !in tok && |tok| > 0
    requires Trim(headers) == pre + "+" + tok
    ensures HeaderTokens(headers) == [Trim(tok)]
  {
    PlusMatchesLine(pre, tok);
    assert ("+" + tok)[1..] == tok;
  }
}
