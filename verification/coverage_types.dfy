/**
 * The records exchanged between the diff decoder, the coverage decoder, the
 * correlation engine and the annotation formatter.
 */
module CoverageTypes {
  import opened Wrappers
  import opened JsNumbers

  /** One hunk of added lines: start line and count as written in the hunk header, and the added text. */
  datatype ChangedLine = ChangedLine(lineNumber: string, endsAfter: string, line: seq<string>)

  /** The hunks of one file of the diff, in hunk order. */
  datatype PrFile = PrFile(fileName: string, data: seq<ChangedLine>)

  /**
   * One coverage data point. Every field may be `undefined` (None), whether
   * the key is missing or holds `undefined`; a present numeric field may still
   * be NaN. `DA` entries carry line and hit,
   * `FN` entries name and line (hit is set later by `FNDA`), and `BRDA`
   * entries line, block, branch and taken.
   */
  datatype DetailEntry = DetailEntry(
    name: Option<string>,
    line: Option<JsNum>,
    hit: Option<JsNum>,
    block: Option<JsNum>,
    branch: Option<JsNum>,
    taken: Option<JsNum>)

  /** A `DA` entry. */
  function LineDetail(line: JsNum, hit: JsNum): DetailEntry {
    DetailEntry(None, Some(line), Some(hit), None, None, None)
  }

  /** An `FN` entry, whose name may be `undefined` when the record has no comma. */
  function FunctionDetail(name: Option<string>, line: JsNum): DetailEntry {
    DetailEntry(name, Some(line), None, None, None, None)
  }

  /** A `BRDA` entry. */
  function BranchDetail(line: JsNum, block: JsNum, branch: JsNum, taken: JsNum): DetailEntry {
    DetailEntry(None, Some(line), None, Some(block), Some(branch), Some(taken))
  }

  /** One metric of one file: the found/hit summary counters and the detail entries in report order. */
  datatype Section = Section(found: JsNum, hit: JsNum, details: seq<DetailEntry>)

  /** The coverage record of one source file. */
  datatype LcovFile = LcovFile(file: string, lines: Section, functions: Section, branches: Section)

  /** One uncovered line, function or branch of a file. */
  datatype UncoveredLine = UncoveredLine(lineNumber: int, annotationType: string)

  datatype AnnotationLevel = Failure | Warning | Notice

  /** The shape of a check-run annotation. */
  datatype Annotation = Annotation(
    path: string,
    startLine: int,
    endLine: int,
    level: AnnotationLevel,
    message: string,
    title: Option<string>)
}
