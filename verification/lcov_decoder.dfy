/**
 * The LCOV tracefile decoder (`walkLcov` in src/lcov-to-json.ts): one pass
 * over the lines of the report, an accumulator for the record being read,
 * and a list of closed records.
 */
module LcovDecoder {
  import opened Wrappers
  import opened Strings
  import opened JsNumbers
  import opened CoverageTypes

  /** The marker that closes a record; any line containing it closes one. */
  const EndOfRecord := "end_of_record"

  /** The error the decoder reports when no record was closed. */
  const ParseFailure := "Failed to parse string"

  const EmptySection := Section(Num(0), Num(0), [])

  /** The accumulator at the start and after every closed record. */
  const EmptyItem := LcovFile("", EmptySection, EmptySection, EmptySection)

  /**
   * `toUpperCase` on one character, as far as it can produce a directive name:
   * ASCII letters, plus the two non-ASCII letters whose upper case is an ASCII
   * letter (dotless i and long s).
   */
  function UpperChar(c: char): char {
    if 'a' <= c <= 'z' then (c as int - 32) as char
    else if c == '\U{0131}' then 'I'
    else if c == '\U{017F}' then 'S'
    else c
  }

  function Upper(s: string): string {
    seq(|s|, i requires 0 <= i < |s| => UpperChar(s[i]))
  }

  /** `parts[i]`, which is `undefined` past the end. */
  function At(parts: seq<string>, i: nat): Option<string> {
    if i < |parts| then Some(parts[i]) else None
  }

  /** `Number(v)`, where `Number(undefined)` is NaN. */
  function NumberOf(v: Option<string>): JsNum {
    match v
    case None => NaN
    case Some(s) => ToNumber(s)
  }

  /** The directive token of a trimmed line: the text before its first colon, upper-cased. */
  function Key(line: string): string {
    Upper(Before(line, ':'))
  }

  /** The operand of a trimmed line: everything after its first colon, colons included. */
  function Operand(line: string): string {
    After(line, ':')
  }

  /** A function entry that an `FNDA` record with this name may still fill in. */
  predicate AwaitsHit(e: DetailEntry, name: Option<string>) {
    e.name == name && e.hit.None?
  }

  /** The index of the first function entry awaiting a hit under `name`. */
  function FirstAwaiting(details: seq<DetailEntry>, name: Option<string>): (r: Option<nat>)
    ensures r.Some? ==> r.value < |details| && AwaitsHit(details[r.value], name)
    ensures r.Some? ==> forall j :: 0 <= j < r.value ==> !AwaitsHit(details[j], name)
    ensures r.None? ==> forall j :: 0 <= j < |details| ==> !AwaitsHit(details[j], name)
    decreases |details|
  {
    if |details| == 0 then None
    else if AwaitsHit(details[0], name) then Some(0)
    else
      match FirstAwaiting(details[1..], name)
      case None => None
      case Some(k) => Some(k + 1)
  }

  /**
   * `FNDA`: sets the hit of the first entry awaiting one under `name`; when
   * there is none the entries are returned unchanged.
   */
  function RecordFunctionHit(details: seq<DetailEntry>, name: Option<string>, hit: JsNum): (r: seq<DetailEntry>)
    ensures FirstAwaiting(details, name).None? ==> r == details
    ensures FirstAwaiting(details, name).Some? ==>
              var k := FirstAwaiting(details, name).value;
              r == details[k := details[k].(hit := Some(hit))]
    decreases |details|
  {
    if |details| == 0 then []
    else if AwaitsHit(details[0], name) then [details[0].(hit := Some(hit))] + details[1..]
    else [details[0]] + RecordFunctionHit(details[1..], name, hit)
  }

  function AppendLine(item: LcovFile, e: DetailEntry): LcovFile {
    item.(lines := item.lines.(details := item.lines.details + [e]))
  }

  function AppendFunction(item: LcovFile, e: DetailEntry): LcovFile {
    item.(functions := item.functions.(details := item.functions.details + [e]))
  }

  function AppendBranch(item: LcovFile, e: DetailEntry): LcovFile {
    item.(branches := item.branches.(details := item.branches.details + [e]))
  }

  /** The entry a `DA:<line>,<hit>` operand adds. */
  function DaEntry(operand: string): DetailEntry {
    var p := Split(operand, ',');
    LineDetail(NumberOf(At(p, 0)), NumberOf(At(p, 1)))
  }

  /** The entry an `FN:<line>,<name>` operand adds; its hit stays unset. */
  function FnEntry(operand: string): DetailEntry {
    var p := Split(operand, ',');
    FunctionDetail(At(p, 1), NumberOf(At(p, 0)))
  }

  /** The taken count of a `BRDA` record, where `-` (never evaluated) reads as 0. */
  function TakenOf(v: Option<string>): JsNum {
    if v == Some("-") then Num(0) else NumberOf(v)
  }

  /** The entry a `BRDA:<line>,<block>,<branch>,<taken>` operand adds. */
  function BrdaEntry(operand: string): DetailEntry {
    var p := Split(operand, ',');
    BranchDetail(NumberOf(At(p, 0)), NumberOf(At(p, 1)), NumberOf(At(p, 2)), TakenOf(At(p, 3)))
  }

  /** The cases of the directive switch. */
  datatype Directive = SF | FNF | FNH | LF | LH | DA | FN | FNDA | BRDA | BRF | BRH | Other

  /** The switch's case for an upper-cased token. */
  function DirectiveOf(key: string): Directive {
    if key == "SF" then SF
    else if key == "FNF" then FNF
    else if key == "FNH" then FNH
    else if key == "LF" then LF
    else if key == "LH" then LH
    else if key == "DA" then DA
    else if key == "FN" then FN
    else if key == "FNDA" then FNDA
    else if key == "BRDA" then BRDA
    else if key == "BRF" then BRF
    else if key == "BRH" then BRH
    else Other
  }

  /** What directive `d` with this operand does to the accumulator. */
  function Dispatch(item: LcovFile, d: Directive, operand: string): LcovFile {
    match d
    case SF => item.(file := Trim(operand))
    case FNF => item.(functions := item.functions.(found := ToNumber(Trim(operand))))
    case FNH => item.(functions := item.functions.(hit := ToNumber(Trim(operand))))
    case LF => item.(lines := item.lines.(found := ToNumber(Trim(operand))))
    case LH => item.(lines := item.lines.(hit := ToNumber(Trim(operand))))
    case DA => AppendLine(item, DaEntry(operand))
    case FN => AppendFunction(item, FnEntry(operand))
    case FNDA =>
      var p := Split(operand, ',');
      item.(functions := item.functions.(details := RecordFunctionHit(item.functions.details, At(p, 1), NumberOf(At(p, 0)))))
    case BRDA => AppendBranch(item, BrdaEntry(operand))
    case BRF => item.(branches := item.branches.(found := ToNumber(operand)))
    case BRH => item.(branches := item.branches.(hit := ToNumber(operand)))
    case Other => item
  }

  /** One trimmed line applied to the accumulator. */
  function ApplyDirective(item: LcovFile, line: string): LcovFile {
    Dispatch(item, DirectiveOf(Key(line)), Operand(line))
  }

  /** The summary counters, which the correlation engine never reads. */
  const SummaryDirectives := {FNF, FNH, LF, LH, BRF, BRH}

  /** Only `DA` touches the line entries, and it appends exactly its own entry. */
  lemma DispatchLines(item: LcovFile, d: Directive, operand: string)
    ensures Dispatch(item, d, operand).lines.details
            == item.lines.details + (if d == DA then [DaEntry(operand)] else [])
  {
  }

  /** Only `BRDA` touches the branch entries, and it appends exactly its own entry. */
  lemma DispatchBranches(item: LcovFile, d: Directive, operand: string)
    ensures Dispatch(item, d, operand).branches.details
            == item.branches.details + (if d == BRDA then [BrdaEntry(operand)] else [])
  {
  }

  /**
   * Only `FN` and `FNDA` touch the function entries: `FN` appends its entry
   * with the hit unset, `FNDA` fills in the first entry awaiting a hit under
   * its name (or nothing).
   */
  lemma DispatchFunctions(item: LcovFile, d: Directive, operand: string)
    ensures var fs := item.functions.details;
            var p := Split(operand, ',');
            Dispatch(item, d, operand).functions.details
            == if d == FN then fs + [FnEntry(operand)]
               else if d == FNDA then RecordFunctionHit(fs, At(p, 1), NumberOf(At(p, 0)))
               else fs
    ensures d == FN ==> FnEntry(operand).hit.None?
  {
  }

  /** Only `SF` sets the file name, and a later `SF` overwrites an earlier one. */
  lemma DispatchFile(item: LcovFile, d: Directive, operand: string)
    ensures Dispatch(item, d, operand).file == if d == SF then Trim(operand) else item.file
  {
  }

  /** A summary directive or an unknown one leaves the file name and every detail list as they were. */
  lemma DispatchKeepsDetails(item: LcovFile, d: Directive, operand: string)
    requires d in SummaryDirectives || d == Other
    ensures var r := Dispatch(item, d, operand);
            && r.file == item.file
            && r.lines.details == item.lines.details
            && r.functions.details == item.functions.details
            && r.branches.details == item.branches.details
    ensures d == Other ==> Dispatch(item, d, operand) == item
  {
    match d
    case FNF =>
    case FNH =>
    case LF =>
    case LH =>
    case BRF =>
    case BRH =>
    case Other =>
  }

  /**
   * The directive token is compared case-insensitively and the operand is
   * everything after the first colon, colons included: two lines that differ
   * only in the case of their token act alike.
   */
  lemma DirectiveLine(item: LcovFile, token: string, operand: string)
    requires ':' !in token
    ensures ApplyDirective(item, token + ":" + operand) == Dispatch(item, DirectiveOf(Upper(token)), operand)
  {
    CutAtFirst(token, ':', operand);
  }

  lemma UpperSF()
    ensures DirectiveOf(Upper("SF")) == SF
  {
    assert Upper("SF") == "SF";
  }

  /** `SF:<path>` names the file by the whole trimmed remainder, so `SF:C:/a.ts` names `C:/a.ts`. */
  lemma SourceFileKeepsColons(item: LcovFile, path: string)
    ensures ApplyDirective(item, "SF:" + path).file == Trim(path)
  {
    assert "SF:" + path == "SF" + ":" + path;
    DirectiveLine(item, "SF", path);
    UpperSF();
  }

  /** A `BRDA` record whose taken field is `-` records a branch taken 0 times. */
  lemma UnevaluatedBranchIsZero(operand: string)
    requires |Split(operand, ',')| >= 4 && Split(operand, ',')[3] == "-"
    ensures BrdaEntry(operand).taken == Some(Num(0))
  {
  }

  /** A raw report line that closes a record once trimmed. */
  predicate HasMarker(raw: string) {
    Contains(Trim(raw), EndOfRecord)
  }

  /** The decoder's state between lines: the closed records and the open accumulator. */
  datatype WalkState = WalkState(data: seq<LcovFile>, item: LcovFile)

  const Start := WalkState([], EmptyItem)

  /** One line: apply its directive, then close the record if the line carries the marker. */
  function Step(st: WalkState, raw: string): WalkState {
    var line := Trim(raw);
    var item := ApplyDirective(st.item, line);
    if Contains(line, EndOfRecord) then WalkState(st.data + [item], EmptyItem)
    else WalkState(st.data, item)
  }

  /** The state after the lines, in order. */
  function Walk(lines: seq<string>): WalkState
    decreases |lines|
  {
    if |lines| == 0 then Start else Step(Walk(lines[..|lines| - 1]), lines[|lines| - 1])
  }

  /**
   * `walkLcov`: a synthetic marker line is put in front of the report's lines,
   * the record it closes is shifted off, and an empty result is the parse
   * error (the callback then receives the error and `[]`).
   */
  function WalkLcov(str: string): Result<seq<LcovFile>, string> {
    var st := Walk([EndOfRecord] + Split(str, '\n'));
    var data := if |st.data| == 0 then [] else st.data[1..];
    if |data| > 0 then Ok(data) else Err(ParseFailure)
  }

  /** The number of lines that close a record. */
  function MarkerCount(lines: seq<string>): nat
    decreases |lines|
  {
    if |lines| == 0 then 0
    else MarkerCount(lines[..|lines| - 1]) + (if HasMarker(lines[|lines| - 1]) then 1 else 0)
  }

  /** The `DA` entries of the lines, in input order. */
  function DaEntries(lines: seq<string>): seq<DetailEntry>
    decreases |lines|
  {
    if |lines| == 0 then []
    else
      var line := Trim(lines[|lines| - 1]);
      DaEntries(lines[..|lines| - 1]) + (if DirectiveOf(Key(line)) == DA then [DaEntry(Operand(line))] else [])
  }

  /** The `BRDA` entries of the lines, in input order. */
  function BrdaEntries(lines: seq<string>): seq<DetailEntry>
    decreases |lines|
  {
    if |lines| == 0 then []
    else
      var line := Trim(lines[|lines| - 1]);
      BrdaEntries(lines[..|lines| - 1]) + (if DirectiveOf(Key(line)) == BRDA then [BrdaEntry(Operand(line))] else [])
  }

  // ---------------------------------------------------------------------------
  // Records: one per marker line, nothing carried across a marker.
  // ---------------------------------------------------------------------------

  /** One line either closes the record it completes or extends the accumulator. */
  lemma StepEffect(st: WalkState, raw: string)
    ensures HasMarker(raw) ==> Step(st, raw) == WalkState(st.data + [ApplyDirective(st.item, Trim(raw))], EmptyItem)
    ensures !HasMarker(raw) ==> Step(st, raw) == WalkState(st.data, ApplyDirective(st.item, Trim(raw)))
  {
  }

  /** One record is closed per marker line. */
  lemma {:induction false} WalkCount(lines: seq<string>)
    ensures |Walk(lines).data| == MarkerCount(lines)
    decreases |lines|
  {
    if |lines| > 0 {
      WalkCount(lines[..|lines| - 1]);
      StepEffect(Walk(lines[..|lines| - 1]), lines[|lines| - 1]);
    }
  }

  /** A step only ever appends to the closed records. */
  lemma StepAppends(prefix: seq<LcovFile>, st: WalkState, raw: string)
    ensures Step(WalkState(prefix + st.data, st.item), raw)
            == WalkState(prefix + Step(st, raw).data, Step(st, raw).item)
  {
    var line := Trim(raw);
    if Contains(line, EndOfRecord) {
      assert prefix + st.data + [ApplyDirective(st.item, line)] == prefix + (st.data + [ApplyDirective(st.item, line)]);
    }
  }

  /**
   * After a marker the accumulator is empty, so the lines that follow are
   * decoded exactly as if the report started there: no entry leaks across a
   * record boundary.
   */
  lemma {:induction false} WalkAfterMarker(a: seq<string>, b: seq<string>)
    requires |a| > 0 && HasMarker(a[|a| - 1])
    ensures Walk(a + b) == WalkState(Walk(a).data + Walk(b).data, Walk(b).item)
    decreases |b|
  {
    if |b| == 0 {
      assert a + b == a;
    } else {
      var b' := b[..|b| - 1];
      assert (a + b)[..|a + b| - 1] == a + b';
      WalkAfterMarker(a, b');
      StepAppends(Walk(a).data, Walk(b'), b[|b| - 1]);
    }
  }

  /** Lines after the last marker never reach the result. */
  lemma {:induction false} TrailingLinesDropped(a: seq<string>, b: seq<string>)
    requires MarkerCount(b) == 0
    ensures Walk(a + b).data == Walk(a).data
    decreases |b|
  {
    if |b| == 0 {
      assert a + b == a;
    } else {
      var b' := b[..|b| - 1];
      assert (a + b)[..|a + b| - 1] == a + b';
      TrailingLinesDropped(a, b');
      StepEffect(Walk(a + b'), b[|b| - 1]);
    }
  }

  /**
   * Within a record, the line and branch entries are exactly the `DA` and
   * `BRDA` records read since the record opened, in input order.
   */
  lemma {:induction false} RecordEntries(lines: seq<string>)
    requires MarkerCount(lines) == 0
    ensures Walk(lines).item.lines.details == DaEntries(lines)
    ensures Walk(lines).item.branches.details == BrdaEntries(lines)
    decreases |lines|
  {
    if |lines| > 0 {
      var prefix := lines[..|lines| - 1];
      RecordEntries(prefix);
      var line := Trim(lines[|lines| - 1]);
      StepEffect(Walk(prefix), lines[|lines| - 1]);
      DispatchLines(Walk(prefix).item, DirectiveOf(Key(line)), Operand(line));
      DispatchBranches(Walk(prefix).item, DirectiveOf(Key(line)), Operand(line));
    }
  }

  /** The synthetic leading marker closes an empty record and nothing else. */
  lemma SyntheticMarker()
    ensures Walk([EndOfRecord]) == WalkState([EmptyItem], EmptyItem)
  {
    MarkerCloses();
    MarkerIgnored(EmptyItem);
    LoneIgnoredMarker(EndOfRecord);
  }

  /** A report of one marker line that is no directive closes exactly one empty record. */
  lemma LoneIgnoredMarker(m: string)
    requires HasMarker(m) && ApplyDirective(EmptyItem, Trim(m)) == EmptyItem
    ensures Walk([m]) == WalkState([EmptyItem], EmptyItem)
  {
    StepEffect(Start, m);
    assert [m][..0] == [];
  }

  /** The marker line closes a record. */
  lemma MarkerCloses()
    ensures HasMarker(EndOfRecord)
  {
    var m := EndOfRecord;
    assert |m| > 0 && m[0] == 'e' && m[|m| - 1] == 'd';
    TrimNoop(m);
    StartsWithContains(m, m);
  }

  /** The marker line is no directive: it leaves the accumulator alone. */
  lemma MarkerIgnored(item: LcovFile)
    ensures ApplyDirective(item, Trim(EndOfRecord)) == item
  {
    var m := EndOfRecord;
    assert |m| > 0 && m[0] == 'e' && m[|m| - 1] == 'd';
    assert UpperChar(m[0]) == 'E';
    assert ':' !in m;
    TrimNoop(m);
    IgnoredLine(item, m);
  }

  /** A line without a colon whose first letter starts no directive name is ignored. */
  lemma IgnoredLine(item: LcovFile, line: string)
    requires |line| > 0 && ':' !in line && UpperChar(line[0]) == 'E'
    ensures ApplyDirective(item, line) == item
  {
    BeforeAfter(line, ':');
    assert Key(line)[0] == 'E';
    assert DirectiveOf(Key(line)) == Other;
  }

  /**
   * The decoder succeeds exactly when some report line carries the marker; it
   * then returns one record per such line (the synthetic record discarded),
   * and otherwise fails with the parse error.
   */
  lemma WalkLcovResult(str: string)
    ensures var lines := Split(str, '\n');
            && (WalkLcov(str).Ok? <==> MarkerCount(lines) > 0)
            && (WalkLcov(str).Ok? ==> WalkLcov(str).value == Walk(lines).data)
            && (WalkLcov(str).Ok? ==> |WalkLcov(str).value| == MarkerCount(lines))
            && (WalkLcov(str).Err? ==> WalkLcov(str).error == ParseFailure)
  {
    var lines := Split(str, '\n');
    SyntheticMarker();
    WalkAfterMarker([EndOfRecord], lines);
    WalkCount(lines);
  }
}
