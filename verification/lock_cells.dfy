/**
 * The Lock-Cells stage: makes cells non-deletable and possibly non-editable
 * according to four switches, with a fixed first-match-wins precedence.
 */
module LockCells {
  import opened Common
  import opened Cells

  datatype LockConfig = LockConfig(
    lockSolutionCells: bool,
    lockGradeCells: bool,
    lockReadonlyCells: bool,
    lockAllCells: bool)

  /** The configured defaults: solution, grade and read-only cells are locked; other cells are not. */
  const Defaults := LockConfig(true, true, true, false)

  /** Which of the five rules applies to a cell, or none. */
  datatype Rule = SolutionAndGrade | SolutionOnly | GradeOnly | ReadOnly | All | NoRule

  /** The precedence of the rules, stated as each rule's own condition and the failure of every earlier one. */
  function FiredRule(cfg: LockConfig, c: Cell): (r: Rule)
    ensures r == SolutionAndGrade <==>
              (cfg.lockSolutionCells || cfg.lockGradeCells) && IsSolution(c) && IsGrade(c)
    ensures r == SolutionOnly <==>
              cfg.lockSolutionCells && IsSolution(c) && !IsGrade(c)
    ensures r == GradeOnly <==>
              cfg.lockGradeCells && IsGrade(c) && !(cfg.lockSolutionCells && IsSolution(c))
              && !(IsSolution(c) && IsGrade(c))
    ensures r == ReadOnly <==>
              cfg.lockReadonlyCells && IsLocked(c)
              && !(cfg.lockSolutionCells && IsSolution(c)) && !(cfg.lockGradeCells && IsGrade(c))
    ensures r == All <==>
              cfg.lockAllCells && !(cfg.lockReadonlyCells && IsLocked(c))
              && !(cfg.lockSolutionCells && IsSolution(c)) && !(cfg.lockGradeCells && IsGrade(c))
    ensures r == NoRule <==>
              !cfg.lockAllCells && !(cfg.lockReadonlyCells && IsLocked(c))
              && !(cfg.lockSolutionCells && IsSolution(c)) && !(cfg.lockGradeCells && IsGrade(c))
  {
    if (cfg.lockSolutionCells || cfg.lockGradeCells) && IsSolution(c) && IsGrade(c) then SolutionAndGrade
    else if cfg.lockSolutionCells && IsSolution(c) then SolutionOnly
    else if cfg.lockGradeCells && IsGrade(c) then GradeOnly
    else if cfg.lockReadonlyCells && IsLocked(c) then ReadOnly
    else if cfg.lockAllCells then All
    else NoRule
  }

  /**
   * `LockCells.preprocess_cell`: writes `deletable` and possibly `editable`,
   * only ever to false, and touches nothing else.
   */
  function LockCell(cfg: LockConfig, c: Cell): (r: Cell)
    ensures r == c.(deletable := r.deletable, editable := r.editable)
    ensures r.deletable == c.deletable || r.deletable == Some(false)
    ensures r.editable == c.editable || r.editable == Some(false)
    ensures FiredRule(cfg, c) != NoRule ==> r.deletable == Some(false)
    ensures FiredRule(cfg, c) in {GradeOnly, ReadOnly, All} ==> r.editable == Some(false)
    ensures FiredRule(cfg, c) in {SolutionAndGrade, SolutionOnly, NoRule} ==> r.editable == c.editable
    ensures FiredRule(cfg, c) == NoRule ==> r == c
    ensures cfg.lockReadonlyCells && IsLocked(c) ==> r.deletable == Some(false)
    ensures cfg.lockAllCells ==> r.deletable == Some(false)
    ensures cfg.lockReadonlyCells && IsLocked(c) && !IsSolution(c) ==> r.editable == Some(false)
  {
    match FiredRule(cfg, c)
    case SolutionAndGrade => c.(deletable := Some(false))
    case SolutionOnly => c.(deletable := Some(false))
    case GradeOnly => c.(deletable := Some(false), editable := Some(false))
    case ReadOnly => c.(deletable := Some(false), editable := Some(false))
    case All => c.(deletable := Some(false), editable := Some(false))
    case NoRule => c
  }

  /** The stage over a whole notebook: every cell is locked on its own. */
  function LockNotebook(cfg: LockConfig, cells: seq<Cell>): (r: seq<Cell>)
    ensures |r| == |cells|
    ensures forall i :: 0 <= i < |cells| ==> r[i] == LockCell(cfg, cells[i])
  {
    seq(|cells|, i requires 0 <= i < |cells| => LockCell(cfg, cells[i]))
  }

  /** Locking never changes which rule applies, since it reads only the classification. */
  lemma {:induction false} LockKeepsRule(cfg: LockConfig, c: Cell)
    ensures FiredRule(cfg, LockCell(cfg, c)) == FiredRule(cfg, c)
  {
    var r := LockCell(cfg, c);
    assert r.grading == c.grading;
  }

  /** Applying the stage twice is the same as applying it once. */
  lemma {:induction false} LockIdempotent(cfg: LockConfig, cells: seq<Cell>)
    ensures LockNotebook(cfg, LockNotebook(cfg, cells)) == LockNotebook(cfg, cells)
  {
    var once := LockNotebook(cfg, cells);
    forall i | 0 <= i < |cells|
      ensures LockCell(cfg, once[i]) == once[i]
    {
      LockKeepsRule(cfg, cells[i]);
    }
  }

  /** A cell that is both solution and grade keeps its editability even when grade cells are locked. */
  lemma SolutionGradeStaysEditable(cfg: LockConfig, c: Cell)
    requires cfg.lockSolutionCells || cfg.lockGradeCells
    requires IsSolution(c) && IsGrade(c)
    ensures LockCell(cfg, c).deletable == Some(false)
    ensures LockCell(cfg, c).editable == c.editable
  {
  }

  /** Under lock_all, a solution cell whose solution lock also applies still keeps its editability. */
  lemma LockAllDefersToSolutionRule(cfg: LockConfig, c: Cell)
    requires cfg.lockAllCells && cfg.lockSolutionCells && IsSolution(c)
    ensures LockCell(cfg, c).editable == c.editable
    ensures LockCell(cfg, c).deletable == Some(false)
  {
  }

  /** With the defaults, a plain cell that is none of solution, grade or read-only is left alone. */
  lemma DefaultsLeavePlainCells(c: Cell)
    requires !IsSolution(c) && !IsGrade(c) && !IsLocked(c)
    ensures LockCell(Defaults, c) == c
  {
  }
}
