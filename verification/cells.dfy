/**
 * The notebook document the preprocessors work on: cells with their grading
 * metadata, `deletable`/`editable` flags and outputs, and the classification
 * of a cell as solution, grade, task or read-only.
 */
module Cells {
  import opened Common

  datatype CellType = Code | Markdown | Raw

  /** One entry of a code cell's `outputs` list. */
  datatype Output =
    | Stream(name: string, text: string)
    | Error(ename: string, evalue: string, traceback: seq<string>)
    | Data(outputType: string, data: string)   // display_data / execute_result

  /**
   * The grading metadata of a cell. The four flags hold the answers of the
   * cell classifier (`is_grade`, `is_solution`, `is_locked`, `is_task`);
   * `gradeId` is absent when the metadata has no `grade_id` key.
   */
  datatype GradingMeta = GradingMeta(
    gradeId: Option<string>,
    grade: bool,
    solution: bool,
    locked: bool,
    task: bool,
    checksum: Option<string>)

  datatype Cell = Cell(
    cellType: CellType,
    source: string,
    grading: GradingMeta,
    deletable: Option<bool>,   // metadata["deletable"], absent when never set
    editable: Option<bool>,    // metadata["editable"], absent when never set
    outputs: seq<Output>)

  /** A notebook: its cells in order and its notebook-level metadata (values kept as JSON text). */
  datatype Notebook = Notebook(cells: seq<Cell>, metadata: map<string, string>)

  predicate IsGrade(c: Cell) { c.grading.grade }
  predicate IsSolution(c: Cell) { c.grading.solution }
  predicate IsLocked(c: Cell) { c.grading.locked }
  predicate IsTask(c: Cell) { c.grading.task }
}
