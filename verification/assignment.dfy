/**
 * The decision logic of the assignment HTTP handlers: the checks run before
 * an assignment is created or updated, the full-auto-grading consistency
 * check, the properties update and the recalculation of submission scores.
 * Database access, routing and authorization are outside the model: a name
 * clash is given as a flag, stored properties are parsed by a given function.
 */
module Assignment {
  import opened Common
  import opened LateSubmission

  /** An HTTP error raised by a handler: status code and reason. */
  datatype HttpError = HttpError(status: int, reason: string)

  const BadRequest := 400
  const Conflict := 409
  const InternalServerError := 500

  /** The per-notebook part of the gradebook model stored as assignment properties. */
  datatype NotebookModel = NotebookModel(
    gradeCells: set<string>,      // keys of grade_cells_dict
    solutionCells: set<string>,   // keys of solution_cells_dict
    taskCells: set<string>)       // keys of task_cells_dict

  /** The gradebook model: its notebooks in dictionary order, and the total score. */
  datatype GradeBookModel = GradeBookModel(notebooks: seq<NotebookModel>, maxScore: real)

  datatype Assignment = Assignment(
    name: string,
    status: string,
    settings: AssignmentSettings,
    properties: Option<string>,
    points: real)

  /** The JSON body of a create or update request (`settings` may be missing). */
  datatype AssignmentBody = AssignmentBody(name: string, status: string, settings: Option<AssignmentSettings>)

  datatype Submission = Submission(date: int, gradingScore: real, score: real, scoreScaling: real)

  const TaskCellsMsg := "Fully autograded notebook cannot contain task cells!"
  const ManualCellsMsg := "Fully autograded notebook cannot contain manually graded cells!"

  /** A notebook a fully automatic assignment may contain: no task cells, no cell both graded and a solution. */
  predicate FullyAutomatic(nb: NotebookModel) {
    |nb.taskCells| == 0 && nb.gradeCells * nb.solutionCells == {}
  }

  /** The conflict one notebook raises, task cells being reported before manually graded ones. */
  function NotebookConflict(nb: NotebookModel): (r: Option<HttpError>)
    ensures r.None? <==> FullyAutomatic(nb)
    ensures |nb.taskCells| > 0 ==> r == Some(HttpError(Conflict, TaskCellsMsg))
    ensures |nb.taskCells| == 0 && nb.gradeCells * nb.solutionCells != {} ==> r == Some(HttpError(Conflict, ManualCellsMsg))
  {
    if |nb.taskCells| > 0 then Some(HttpError(Conflict, TaskCellsMsg))
    else if |nb.gradeCells * nb.solutionCells| > 0 then Some(HttpError(Conflict, ManualCellsMsg))
    else None
  }

  /** `_check_full_auto_grading`: the first offending notebook decides the conflict. */
  function CheckFullAutoGrading(notebooks: seq<NotebookModel>): (r: Option<HttpError>)
    ensures r.None? <==> forall i :: 0 <= i < |notebooks| ==> FullyAutomatic(notebooks[i])
    ensures r.Some? ==> exists i :: 0 <= i < |notebooks| && r == NotebookConflict(notebooks[i])
                          && forall j :: 0 <= j < i ==> FullyAutomatic(notebooks[j])
  {
    if |notebooks| == 0 then None
    else if NotebookConflict(notebooks[0]).Some? then NotebookConflict(notebooks[0])
    else
      var r := CheckFullAutoGrading(notebooks[1..]);
      assert forall i :: 1 <= i < |notebooks| ==> notebooks[i] == notebooks[1..][i - 1];
      r
  }

  /** `max_submissions` may be absent, but a given value must be at least 1. */
  predicate MaxSubmissionsOk(s: AssignmentSettings) {
    s.maxSubmissions.None? || s.maxSubmissions.value >= 1
  }

  /** The checks of the create (POST) handler, in order; `None` means the assignment is stored. */
  method CheckCreate(nameTaken: bool, body: AssignmentBody) returns (err: Option<HttpError>)
    ensures err.None? <==> !nameTaken && body.settings.Some? && MaxSubmissionsOk(body.settings.value)
                           && WellFormedPolicy(Policy(body.settings.value))
    ensures nameTaken ==> err == Some(HttpError(Conflict, "Assignment name is already being used"))
    ensures !nameTaken && body.settings.None? ==> err == Some(HttpError(BadRequest, "Assignment missing settings key"))
    ensures !nameTaken && body.settings.Some? && !MaxSubmissionsOk(body.settings.value) ==>
              err == Some(HttpError(BadRequest, "Maximum number of submissions cannot be smaller than 1!"))
    ensures !nameTaken && body.settings.Some? && MaxSubmissionsOk(body.settings.value)
            && !WellFormedPolicy(Policy(body.settings.value)) ==>
              err == Some(HttpError(BadRequest, PolicyError(Policy(body.settings.value)).value.Reason()))
  {
    if nameTaken {
      return Some(HttpError(Conflict, "Assignment name is already being used"));
    }
    if body.settings.None? {
      return Some(HttpError(BadRequest, "Assignment missing settings key"));
    }
    if !MaxSubmissionsOk(body.settings.value) {
      return Some(HttpError(BadRequest, "Maximum number of submissions cannot be smaller than 1!"));
    }
    var e := ValidateSettings(body.settings);
    if e.Some? {
      return Some(HttpError(BadRequest, e.value.Reason()));
    }
    return None;
  }

  /**
   * Recomputes the score of each submission whose stored scaling differs from
   * the current late-submission scaling; `scaling` stands for the scaling
   * computation of the submission handler, which is not part of this model.
   */
  function RecalcScores(subs: seq<Submission>, scaling: int -> real): (r: seq<Submission>)
    ensures |r| == |subs|
    ensures forall i :: 0 <= i < |subs| ==> r[i].scoreScaling == scaling(subs[i].date)
    ensures forall i :: 0 <= i < |subs| ==>
              r[i].date == subs[i].date && r[i].gradingScore == subs[i].gradingScore
    ensures forall i :: 0 <= i < |subs| && subs[i].scoreScaling == scaling(subs[i].date) ==> r[i] == subs[i]
    ensures forall i :: 0 <= i < |subs| && subs[i].scoreScaling != scaling(subs[i].date) ==>
              r[i].score == scaling(subs[i].date) * subs[i].gradingScore
  {
    seq(|subs|, i requires 0 <= i < |subs| =>
      var s := scaling(subs[i].date);
      if subs[i].scoreScaling != s then subs[i].(score := s * subs[i].gradingScore, scoreScaling := s)
      else subs[i])
  }

  /** Recalculating twice changes nothing the first recalculation did not. */
  lemma RecalcIdempotent(subs: seq<Submission>, scaling: int -> real)
    ensures RecalcScores(RecalcScores(subs, scaling), scaling) == RecalcScores(subs, scaling)
  {
  }

  /**
   * The update (PUT) handler: the name-clash, settings and full-auto checks,
   * then the new name, status and settings, then (when asked) the score
   * recalculation with the scaling of the updated assignment.
   */
  method UpdateAssignment(a: Assignment, body: AssignmentBody, nameTakenByOther: bool,
                          parse: string -> GradeBookModel, recalc: bool,
                          subs: seq<Submission>, scaling: (AssignmentSettings, int) -> real)
    returns (r: Result<(Assignment, seq<Submission>), HttpError>)
    ensures nameTakenByOther ==> r == Err(HttpError(Conflict, "Assignment name is already being used"))
    ensures !nameTakenByOther && body.settings.None? ==> r.Err? && r.error.status == InternalServerError
    ensures !nameTakenByOther && body.settings.Some? && !MaxSubmissionsOk(body.settings.value) ==>
              r == Err(HttpError(BadRequest, "Max num submissions < 1!"))
    ensures !nameTakenByOther && body.settings.Some? && MaxSubmissionsOk(body.settings.value)
            && !WellFormedPolicy(Policy(body.settings.value)) ==>
              r == Err(HttpError(BadRequest, PolicyError(Policy(body.settings.value)).value.Reason()))
    ensures (!nameTakenByOther && body.settings.Some? && MaxSubmissionsOk(body.settings.value)
             && WellFormedPolicy(Policy(body.settings.value))
             && body.settings.value.autogradeType == "full_auto" && a.properties.Some?
             && CheckFullAutoGrading(parse(a.properties.value).notebooks).Some?) ==>
              r == Err(CheckFullAutoGrading(parse(a.properties.value).notebooks).value)
    ensures r.Ok? <==>
              && !nameTakenByOther && body.settings.Some?
              && MaxSubmissionsOk(body.settings.value)
              && WellFormedPolicy(Policy(body.settings.value))
              && (body.settings.value.autogradeType == "full_auto" && a.properties.Some? ==>
                    CheckFullAutoGrading(parse(a.properties.value).notebooks).None?)
    ensures r.Ok? ==> r.value.0 == a.(name := body.name, status := body.status, settings := body.settings.value)
    ensures r.Ok? && recalc ==> r.value.1 == RecalcScores(subs, d => scaling(body.settings.value, d))
    ensures r.Ok? && !recalc ==> r.value.1 == subs
  {
    if nameTakenByOther {
      return Err(HttpError(Conflict, "Assignment name is already being used"));
    }
    if body.settings.None? {
      // `assignment_model.settings.max_submissions` on a missing settings object
      return Err(HttpError(InternalServerError, "AttributeError: settings is None"));
    }
    var settings := body.settings.value;
    if !MaxSubmissionsOk(settings) {
      return Err(HttpError(BadRequest, "Max num submissions < 1!"));
    }
    var e := ValidateSettings(body.settings);
    if e.Some? {
      return Err(HttpError(BadRequest, e.value.Reason()));
    }
    if settings.autogradeType == "full_auto" && a.properties.Some? {
      var conflict := CheckFullAutoGrading(parse(a.properties.value).notebooks);
      if conflict.Some? {
        return Err(conflict.value);
      }
    }
    var updated := a.(name := body.name, status := body.status, settings := settings);
    var newSubs := subs;
    if recalc {
      newSubs := RecalcScores(subs, d => scaling(settings, d));
    }
    return Ok((updated, newSubs));
  }

  /**
   * The properties (PUT) handler: on a fully automatic assignment the new
   * model must pass the full-auto check, and on a conflict nothing is stored;
   * otherwise the properties are replaced and the points become the model's
   * maximum score. The second component is the error raised, if any. The
   * model is the request body as `parse` reads it.
   */
  function PutProperties(a: Assignment, body: string, parse: string -> GradeBookModel)
    : (r: (Assignment, Option<HttpError>))
    ensures r.1.Some? ==> r.0 == a
    ensures r.1.Some? <==> a.settings.autogradeType == "full_auto"
                           && exists i :: 0 <= i < |parse(body).notebooks| && !FullyAutomatic(parse(body).notebooks[i])
    ensures r.1.Some? ==> r.1 == CheckFullAutoGrading(parse(body).notebooks)
    ensures r.1.None? ==> r.0 == a.(properties := Some(body), points := parse(body).maxScore)
  {
    var model := parse(body);
    var conflict := if a.settings.autogradeType == "full_auto" then CheckFullAutoGrading(model.notebooks) else None;
    if conflict.Some? then (a, conflict)
    else (a.(properties := Some(body), points := model.maxScore), None)
  }
}
