/**
 * The Save-Autograde-Scores stage: records, for every grade cell, the
 * automatic score in the gradebook, and for every solution or task cell the
 * automatic comment, keyed by (grade_id, notebook id). Manual scores and
 * comments belong to human graders and are never written.
 *
 * The gradebook store is a pair of maps; `determine_grade` and
 * `compute_checksum` are given functions.
 */
module SaveAutoGrades {
  import opened Common
  import opened Cells

  /** (grade_id, notebook id). */
  type Key = (string, string)

  datatype Grade = Grade(autoScore: Option<real>, manualScore: Option<real>, needsManualGrade: bool)

  datatype Comment = Comment(autoComment: Option<string>, manualComment: Option<string>)

  datatype Gradebook = Gradebook(grades: map<Key, Grade>, comments: map<Key, Comment>)

  /** The automatic score `determine_grade` extracts from a cell, and `compute_checksum`. */
  datatype Extractors = Extractors(determineGrade: Cell -> Option<real>, checksum: Cell -> string)

  const NoResponse := "No response."
  const MissingGradeIdMsg := "KeyError: 'grade_id'"

  function Lookup<V>(m: map<Key, V>, k: Key): Option<V> {
    if k in m then Some(m[k]) else None
  }

  /** `find_grade`: the stored grade, or a fresh one with no scores. */
  function FindGrade(gb: Gradebook, k: Key): Grade {
    if k in gb.grades then gb.grades[k] else Grade(None, None, false)
  }

  /** `find_comment`: the stored comment, or a fresh empty one. */
  function FindComment(gb: Gradebook, k: Key): Comment {
    if k in gb.comments then gb.comments[k] else Comment(None, None)
  }

  function ManualScore(gb: Gradebook, k: Key): Option<real> { FindGrade(gb, k).manualScore }
  function ManualComment(gb: Gradebook, k: Key): Option<string> { FindComment(gb, k).manualComment }

  /** Cells the stage records something for. */
  predicate Recorded(c: Cell) { IsGrade(c) || IsSolution(c) || IsTask(c) }

  function KeyOf(c: Cell, nbId: string): Key
    requires c.grading.gradeId.Some?
  {
    (c.grading.gradeId.value, nbId)
  }

  /** The grade stored for a grade cell: the automatic score, the old manual score, and the review flag. */
  function ScoreEntry(c: Cell, manual: Option<real>, ex: Extractors): (g: Grade)
    ensures g.autoScore == ex.determineGrade(c) && g.manualScore == manual
    ensures g.needsManualGrade <==> manual.Some? || ex.determineGrade(c).None?
  {
    var auto := ex.determineGrade(c);
    Grade(auto, manual, manual.Some? || auto.None?)
  }

  /** The automatic comment: "No response." for an untouched non-task cell, nothing otherwise. */
  function AutoComment(c: Cell, ex: Extractors): (r: Option<string>)
    ensures r.Some? <==> c.grading.checksum == Some(ex.checksum(c)) && !IsTask(c)
    ensures r.Some? ==> r.value == NoResponse
  {
    if c.grading.checksum == Some(ex.checksum(c)) && !IsTask(c) then Some(NoResponse) else None
  }

  /** `_add_score`. */
  function AddScore(gb: Gradebook, k: Key, c: Cell, ex: Extractors): Gradebook {
    gb.(grades := gb.grades[k := ScoreEntry(c, ManualScore(gb, k), ex)])
  }

  /** `_add_comment`: only the automatic comment of the stored (or fresh) comment changes. */
  function AddComment(gb: Gradebook, k: Key, c: Cell, ex: Extractors): Gradebook {
    gb.(comments := gb.comments[k := FindComment(gb, k).(autoComment := AutoComment(c, ex))])
  }

  /** `preprocess_cell`: score for a grade cell, comment for a solution cell, comment again for a task cell. */
  function SaveCell(gb: Gradebook, nbId: string, c: Cell, ex: Extractors): (r: Result<Gradebook, string>)
    ensures r.Ok? <==> !Recorded(c) || c.grading.gradeId.Some?
    ensures !Recorded(c) ==> r == Ok(gb)
    ensures r.Ok? && Recorded(c) ==>
              var k := KeyOf(c, nbId);
              && r.value.grades - {k} == gb.grades - {k}
              && r.value.comments - {k} == gb.comments - {k}
    ensures r.Ok? && IsGrade(c) ==>
              var k := KeyOf(c, nbId);
              && k in r.value.grades
              && r.value.grades[k].autoScore == ex.determineGrade(c)
              && r.value.grades[k].manualScore == ManualScore(gb, k)
              && (r.value.grades[k].needsManualGrade <==>
                    r.value.grades[k].manualScore.Some? || r.value.grades[k].autoScore.None?)
    ensures r.Ok? && !IsGrade(c) ==> r.value.grades == gb.grades
    ensures r.Ok? && (IsSolution(c) || IsTask(c)) ==>
              var k := KeyOf(c, nbId);
              && k in r.value.comments
              && r.value.comments[k].manualComment == ManualComment(gb, k)
              && (r.value.comments[k].autoComment == Some(NoResponse) <==>
                    c.grading.checksum == Some(ex.checksum(c)) && !IsTask(c))
              && (r.value.comments[k].autoComment.Some? ==> r.value.comments[k].autoComment == Some(NoResponse))
    ensures r.Ok? && !IsSolution(c) && !IsTask(c) ==> r.value.comments == gb.comments
  {
    if !Recorded(c) then Ok(gb)
    else if c.grading.gradeId.None? then Err(MissingGradeIdMsg)
    else
      var k := KeyOf(c, nbId);
      var g1 := if IsGrade(c) then AddScore(gb, k, c, ex) else gb;
      var g2 := if IsSolution(c) then AddComment(g1, k, c, ex) else g1;
      var g3 := if IsTask(c) then AddComment(g2, k, c, ex) else g2;
      Ok(g3)
  }

  /** The stage over the notebook's cells in order; the first cell without a grade_id aborts it. */
  function SaveCells(gb: Gradebook, nbId: string, cells: seq<Cell>, ex: Extractors): (r: Result<Gradebook, string>)
    ensures r.Ok? <==> forall i :: 0 <= i < |cells| ==> !Recorded(cells[i]) || cells[i].grading.gradeId.Some?
  {
    if |cells| == 0 then Ok(gb)
    else
      var init := cells[..|cells| - 1];
      assert forall i :: 0 <= i < |init| ==> init[i] == cells[i];
      match SaveCells(gb, nbId, init, ex)
      case Err(e) => Err(e)
      case Ok(g) => SaveCell(g, nbId, cells[|cells| - 1], ex)
  }

  predicate WritesGrade(c: Cell, nbId: string, k: Key) {
    IsGrade(c) && c.grading.gradeId.Some? && KeyOf(c, nbId) == k
  }

  predicate WritesComment(c: Cell, nbId: string, k: Key) {
    (IsSolution(c) || IsTask(c)) && c.grading.gradeId.Some? && KeyOf(c, nbId) == k
  }

  /** The last cell that writes the grade under `k`. */
  function LastGradeWriter(cells: seq<Cell>, nbId: string, k: Key): Option<Cell> {
    if |cells| == 0 then None
    else if WritesGrade(cells[|cells| - 1], nbId, k) then Some(cells[|cells| - 1])
    else LastGradeWriter(cells[..|cells| - 1], nbId, k)
  }

  /** The last cell that writes the comment under `k`. */
  function LastCommentWriter(cells: seq<Cell>, nbId: string, k: Key): Option<Cell> {
    if |cells| == 0 then None
    else if WritesComment(cells[|cells| - 1], nbId, k) then Some(cells[|cells| - 1])
    else LastCommentWriter(cells[..|cells| - 1], nbId, k)
  }

  /**
   * What the stage leaves under one key: the entry of the last cell that
   * writes it, built on the key's original manual score or comment; an entry
   * no cell writes stays as it was.
   */
  lemma {:induction false} SavedEntry(gb: Gradebook, nbId: string, cells: seq<Cell>, ex: Extractors, k: Key)
    requires SaveCells(gb, nbId, cells, ex).Ok?
    ensures var after := SaveCells(gb, nbId, cells, ex).value;
            && Lookup(after.grades, k) ==
                 (match LastGradeWriter(cells, nbId, k)
                  case None => Lookup(gb.grades, k)
                  case Some(c) => Some(ScoreEntry(c, ManualScore(gb, k), ex)))
            && Lookup(after.comments, k) ==
                 (match LastCommentWriter(cells, nbId, k)
                  case None => Lookup(gb.comments, k)
                  case Some(c) => Some(Comment(AutoComment(c, ex), ManualComment(gb, k))))
    decreases |cells|
  {
    if |cells| > 0 {
      var init := cells[..|cells| - 1];
      var last := cells[|cells| - 1];
      SavedEntry(gb, nbId, init, ex, k);
      var g := SaveCells(gb, nbId, init, ex).value;
      assert ManualScore(g, k) == ManualScore(gb, k);
      assert ManualComment(g, k) == ManualComment(gb, k);
      var after := SaveCell(g, nbId, last, ex).value;
      if Recorded(last) && KeyOf(last, nbId) != k {
        assert k in after.grades - {KeyOf(last, nbId)} <==> k in g.grades - {KeyOf(last, nbId)};
        assert k in after.comments - {KeyOf(last, nbId)} <==> k in g.comments - {KeyOf(last, nbId)};
        assert Lookup(after.grades, k) == Lookup(g.grades, k);
        assert Lookup(after.comments, k) == Lookup(g.comments, k);
      }
    }
  }

  /** Manual scores and manual comments come out of the stage exactly as they went in. */
  lemma ManualPreserved(gb: Gradebook, nbId: string, cells: seq<Cell>, ex: Extractors, k: Key)
    requires SaveCells(gb, nbId, cells, ex).Ok?
    ensures ManualScore(SaveCells(gb, nbId, cells, ex).value, k) == ManualScore(gb, k)
    ensures ManualComment(SaveCells(gb, nbId, cells, ex).value, k) == ManualComment(gb, k)
  {
    SavedEntry(gb, nbId, cells, ex, k);
  }

  lemma LookupExtensional<V>(m1: map<Key, V>, m2: map<Key, V>)
    requires forall k :: Lookup(m1, k) == Lookup(m2, k)
    ensures m1 == m2
  {
    assert forall k :: k in m1 <==> Lookup(m1, k).Some?;
    assert forall k :: k in m2 <==> Lookup(m2, k).Some?;
    assert m1.Keys == m2.Keys;
    forall k | k in m1 ensures m1[k] == m2[k] {
      assert Lookup(m1, k) == Lookup(m2, k);
    }
  }

  /** Re-grading the same notebook leaves the gradebook as the first grading left it. */
  lemma SaveIdempotent(gb: Gradebook, nbId: string, cells: seq<Cell>, ex: Extractors)
    requires SaveCells(gb, nbId, cells, ex).Ok?
    ensures var once := SaveCells(gb, nbId, cells, ex).value;
            SaveCells(once, nbId, cells, ex) == Ok(once)
  {
    var once := SaveCells(gb, nbId, cells, ex).value;
    var twice := SaveCells(once, nbId, cells, ex).value;
    forall k ensures Lookup(twice.grades, k) == Lookup(once.grades, k)
                  && Lookup(twice.comments, k) == Lookup(once.comments, k)
    {
      SavedEntry(gb, nbId, cells, ex, k);
      SavedEntry(once, nbId, cells, ex, k);
      ManualPreserved(gb, nbId, cells, ex, k);
    }
    LookupExtensional(twice.grades, once.grades);
    LookupExtensional(twice.comments, once.comments);
  }

  /** A task cell always ends with no automatic comment. */
  lemma TaskCellsGetNoComment(gb: Gradebook, nbId: string, c: Cell, ex: Extractors)
    requires IsTask(c) && c.grading.gradeId.Some?
    ensures SaveCell(gb, nbId, c, ex).Ok?
    ensures SaveCell(gb, nbId, c, ex).value.comments[KeyOf(c, nbId)].autoComment.None?
  {
  }
}
