# Grading logic of grader-service, modelled in Dafny

This project models the deterministic decision logic of grader-service, a
server that manages programming assignments built from Jupyter notebooks.
It covers six parts:

- the checks the assignment HTTP handlers run before they store an
  assignment:
  - late-submission policy validation;
  - `max_submissions`;
  - name clashes;
  - the consistency check for fully automatic grading;
- the properties update and the recalculation of submission scores;
- four notebook preprocessing stages of the autograder:
  - Lock-Cells;
  - Clear-Mark-Scheme;
  - Limit-Output;
  - Include-Header-Footer;
- the Save-Autograde-Scores stage, which writes scores and comments into a
  gradebook;
- three string utilities:
  - `url_path_join`;
  - `get_browser_protocol`, which reads the `Forwarded` header of RFC 7239
    and the `X-Scheme` and `X-Forwarded-Proto` headers;
  - the Accept-header parser (section 12.5.1 of RFC 9110) and
    `get_accepted_mimetype`.

Modules follow the source files:

| file | module | source |
|---|---|---|
| common.dfy | Common | `Option`, `Result`, Python's `dict(pairs)` and "map or raise on the first failure" |
| strings.dfy | Strings | `str.split`, `join`, `strip`, `partition`, `rpartition`, `in` |
| cells.dfy | Cells | notebook cells, outputs and nbgrader metadata |
| late_submission.dfy | LateSubmission | `validate_assignment_settings` |
| assignment.dfy | Assignment | the assignment handlers' checks, properties PUT, score recalculation |
| lock_cells.dfy | LockCells | `lockcells.py` |
| clear_mark_scheme.dfy | ClearMarkScheme | `clearmarkingscheme.py` |
| limit_output.dfy | LimitOutput | `limitoutput.py` |
| save_autogrades.dfy | SaveAutoGrades | `saveautogrades.py` |
| header_footer.dfy | HeaderFooter | `headerfooter.py` |
| url_path.dfy | UrlPath | `url_path_join` |
| browser_protocol.dfy | BrowserProtocol | `get_browser_protocol` |
| accept_header.dfy | AcceptHeader | `_parse_accept_header`, `get_accepted_mimetype` |

Each stage is a pure function, or a method when the source is a loop, over
immutable datatypes. A Python exception becomes the `Err` case of a
`Result`, or the `Some` case of an `Option<Error>` for checks that return
nothing. Each operation is paired with a declarative definition, an
invariant or an inverse, and lemmas connect the two.

Where the source delegates to code that is not part of this model, that code
becomes a parameter:

- the nbgrader cell classification (`is_grade`, `is_solution`, `is_task`,
  `is_locked`) is a set of flags on the cell;
- `determine_grade` and `compute_checksum` are the fields of
  `SaveAutoGrades.Extractors`;
- Python's `float()` on the Accept header is a function `string -> Option<real>`;
- reading the header and footer notebooks is a function
  `string -> Result<seq<Cell>, string>`;
- parsing stored properties is a function `string -> GradeBookModel`;
- the late-submission scaling of a submission is a function of its date.

## Model

| member | source | states |
|---|---|---|
| LateSubmission.EntryError | grader_service/handlers/assignment.py:36-52 | One policy entry passes iff it parses to a non-negative duration with a float scaling, its period exceeds the previous one, and its scaling lies in (0,1) below the previous scaling; the checks run in the order `validate_assignment_settings` runs them, so an unparsable entry is "Invalid settings!", then a period not above the previous one is "not increasing", then a scaling outside (0,1) is "between 0.0 and 1.0", and only then a scaling not below the previous one is "not decreasing" |
| LateSubmission.PolicyError | grader_service/handlers/assignment.py:32-54 | Defined entry by entry over prefixes: no error iff the policy is well formed; otherwise the error of an entry that is the first to fail, i.e. all entries before it form a well-formed policy |
| LateSubmission.FirstFailureUnique | grader_service/handlers/assignment.py:32-54 | At most one entry is the first to fail, so the reported error is determined |
| LateSubmission.ValidateLateSubmission | grader_service/handlers/assignment.py:32-54 | The policy is accepted iff periods strictly increase from above zero and scalings lie in (0,1) and strictly decrease; a rejection is the error of the first failing entry, checked against its predecessor (or zero and 1.0), and equals PolicyError |
| LateSubmission.ValidateSettings | grader_service/handlers/assignment.py:28-31 | `None` settings are accepted; otherwise an absent `late_submission` list is treated as an empty one, the settings are accepted iff that policy is well formed, and the error is PolicyError of that policy |
| LateSubmission.ZeroFirstPeriodRejected | grader_service/handlers/assignment.py:32-45 | A zero-length first period (P0D) is rejected as "not increasing" |
| LateSubmission.WellFormedIsMonotone | grader_service/handlers/assignment.py:44-52 | In an accepted policy every later period is longer and every later scaling smaller than every earlier one, not just the neighbouring one |
| Assignment.NotebookConflict | grader_service/handlers/assignment.py:411-419 | A notebook conflicts iff it has task cells or a cell that is both graded and a solution; task cells are reported first, and either conflict is a 409 with its own message |
| Assignment.CheckFullAutoGrading | grader_service/handlers/assignment.py:404-419 | No error iff every notebook is fully automatic; otherwise the error is the first conflicting notebook's |
| Assignment.CheckCreate | grader_service/handlers/assignment.py:145-152 | Creation proceeds iff the name is free, settings are present, `max_submissions` is absent or at least 1, and the policy is well formed; the checks run in that order, each failure with its own status and reason, a bad policy giving 400 with the reason of its PolicyError |
| Assignment.UpdateAssignment | grader_service/handlers/assignment.py:210-241 | The update succeeds iff the name is free, settings are present with `max_submissions` absent or at least 1, the policy is valid, and a full_auto assignment's stored properties pass the full-auto check; a bad policy gives 400 with its PolicyError reason and a failed full-auto check gives that check's 409; on success only the name, status and settings change, and submissions are recalculated only when asked |
| Assignment.RecalcScores | grader_service/handlers/assignment.py:228-240 | A submission whose stored scaling equals the current one is untouched; any other gets score = scaling × grading score and the new scaling; dates and grading scores never change |
| Assignment.RecalcIdempotent | grader_service/handlers/assignment.py:229-240 | Recalculating a second time changes nothing |
| Assignment.PutProperties | grader_service/handlers/assignment.py:391-401 | With the model parsed from the body: on a full_auto assignment whose model has a non-automatic notebook nothing is stored and the error is the full-auto check's; otherwise the properties become the body and the points the model's maximum score |
| LockCells.FiredRule | grader_service/convert/preprocessors/lockcells.py:33-49 | Each of the six outcomes (five rules and none) holds exactly when its own condition holds and no earlier rule's does: read-only when the cell is read-only and locked and neither solution nor grade lock applies, lock-all when lock_all is on and no earlier rule applies, and no rule when none of the switches applies |
| LockCells.LockCell | grader_service/convert/preprocessors/lockcells.py:30-50 | Only `deletable` and `editable` change, and only to false; any rule makes the cell non-deletable, so a locked read-only cell or any cell under lock_all always does; the grade-only, read-only and lock-all rules also make it non-editable, so a locked read-only cell that is not a solution does; the solution rules keep its editability; no rule leaves the cell as it was |
| LockCells.LockIdempotent | grader_service/convert/preprocessors/lockcells.py:33-50 | Locking a notebook twice equals locking it once |
| LockCells.SolutionGradeStaysEditable | grader_service/convert/preprocessors/lockcells.py:33-38 | A cell that is both solution and grade, under either lock, becomes non-deletable and keeps its editability |
| LockCells.LockAllDefersToSolutionRule | grader_service/convert/preprocessors/lockcells.py:39-49 | Under lock_all together with lock_solution, a solution cell keeps its editability, because the earlier solution rule fires |
| LockCells.DefaultsLeavePlainCells | grader_service/convert/preprocessors/lockcells.py:14-28 | With the default switches, a cell that is not solution, grade or read-only is not changed |
| ClearMarkScheme.RemoveMarkSchemeRegion | grader_service/convert/preprocessors/clearmarkingscheme.py:34-76 | The one-pass scan equals the declarative result: a "nested" error if a begin line occurs inside an open region, otherwise a "no end" error if a region is left open, otherwise the lines without delimiters outside every region joined with newlines, and whether any begin line occurred |
| ClearMarkScheme.KeptLines | grader_service/convert/preprocessors/clearmarkingscheme.py:52-66 | Every kept line is an input line containing neither delimiter |
| ClearMarkScheme.NoDelimitersUnchanged | grader_service/convert/preprocessors/clearmarkingscheme.py:44-76 | A source without delimiter lines comes back unchanged, with "nothing removed" |
| ClearMarkScheme.EmptyBeginAlwaysFails | grader_service/convert/preprocessors/clearmarkingscheme.py:52-71 | An empty begin delimiter matches every line, so every source raises |
| ClearMarkScheme.ClearIdempotent | grader_service/convert/preprocessors/clearmarkingscheme.py:44-76 | Clearing a cleared source gives it back unchanged, with "nothing removed" |
| ClearMarkScheme.PreprocessCell | grader_service/convert/preprocessors/clearmarkingscheme.py:86-106 | A cell passes iff its regions clear and it is a task cell, or enforcement is off, or nothing was removed; only its source changes, to the cleared source |
| ClearMarkScheme.PreprocessNotebook | grader_service/convert/preprocessors/clearmarkingscheme.py:78-84 | The notebook passes iff every cell does, and each cell is processed on its own; the first failing cell's error is raised; `celltoolbar` leaves the metadata and every other key keeps its value |
| LimitOutput.LimitStreamOutput | grader_service/convert/preprocessors/limitoutput.py:21-43 | With no limit or a non-code cell nothing changes; only the outputs change; non-stream outputs are kept in order; for a budget of zero or more the result is the budgeted list, each stream judged against the lines before it |
| LimitOutput.LimitedWithinBudget | grader_service/convert/preprocessors/limitoutput.py:25-38 | The kept stream lines are exactly the input's, capped at `max_lines` |
| LimitOutput.LimitedFits | grader_service/convert/preprocessors/limitoutput.py:30-38 | When all stream lines fit the budget, the outputs are unchanged |
| LimitOutput.CutLines | grader_service/convert/preprocessors/limitoutput.py:32-35 | A stream that overflows is cut to its first n−1 lines followed by the marker line, exactly the remaining budget n |
| LimitOutput.TracebackGrowsAsWritten | grader_service/convert/preprocessors/limitoutput.py:50-57 | As written, with `max_traceback` 1 or 2, a longer traceback grows by `max_traceback` entries instead of shrinking |
| LimitOutput.TruncatedShape | grader_service/convert/preprocessors/limitoutput.py:50-57 | A traceback longer than `max_traceback` ≥ 1 becomes its first ⌊max/2⌋ entries, the marker, and its last max−⌊max/2⌋−1 entries, exactly `max_traceback` in all |
| LimitOutput.AsWrittenAgrees | grader_service/convert/preprocessors/limitoutput.py:53-57 | For every `max_traceback` other than 1 and 2, the corrected cut equals the code as written |
| LimitOutput.LimitTraceback | grader_service/convert/preprocessors/limitoutput.py:45-59 | With no limit or a non-code cell nothing changes; only error outputs change, and only their tracebacks; tracebacks within the limit are kept, longer ones become their truncated form; afterwards no traceback exceeds a positive limit |
| LimitOutput.PreprocessCell | grader_service/convert/preprocessors/limitoutput.py:61-66 | A non-code cell, or a cell with both limits at -1, is unchanged; with `max_lines` -1 only the traceback pass applies; otherwise the result is the traceback pass over the budgeted outputs; afterwards the stream lines of a code cell are within `max_lines` and its tracebacks within `max_traceback` |
| SaveAutoGrades.ScoreEntry | grader_service/convert/preprocessors/saveautogrades.py:40-49 | The stored automatic score is `determine_grade`'s, the manual score is the old one, and review is needed iff a manual score exists or no automatic score does |
| SaveAutoGrades.AutoComment | grader_service/convert/preprocessors/saveautogrades.py:57-62 | The automatic comment is "No response." iff the stored checksum equals the computed one and the cell is not a task cell; otherwise it is none |
| SaveAutoGrades.SaveCell | grader_service/convert/preprocessors/saveautogrades.py:66-79 | A recorded cell without grade_id raises; other cells leave the gradebook alone; only the entries under (grade_id, notebook id) change; a grade cell gets a grade entry, a solution or task cell a comment entry; manual fields are kept |
| SaveAutoGrades.SaveCells | grader_service/convert/preprocessors/saveautogrades.py:14-26 | The stage over a notebook succeeds iff every grade, solution or task cell has a grade_id |
| SaveAutoGrades.SavedEntry | grader_service/convert/preprocessors/saveautogrades.py:28-79 | After the stage each key holds the entry of the last cell writing it, built on the key's original manual score or comment; a key no cell writes keeps its old entry |
| SaveAutoGrades.ManualPreserved | grader_service/convert/preprocessors/saveautogrades.py:28-64 | Manual scores and manual comments are never changed |
| SaveAutoGrades.SaveIdempotent | grader_service/convert/preprocessors/saveautogrades.py:28-64 | A second pass over the same notebook gives the same gradebook |
| SaveAutoGrades.TaskCellsGetNoComment | grader_service/convert/preprocessors/saveautogrades.py:57-77 | A task cell always ends with no automatic comment |
| HeaderFooter.IncludeHeaderFooter | grader_service/convert/preprocessors/headerfooter.py:25-57 | The stage succeeds iff both parts can be read, and a header failure wins; the cells are the header's, then the notebook's, then the footer's, with their lengths adding up; the metadata is unchanged |
| HeaderFooter.NoPartsNoChange | grader_service/convert/preprocessors/headerfooter.py:18-49 | With the default empty paths the notebook comes back unchanged |
| HeaderFooter.HeaderThenFooter | grader_service/convert/preprocessors/headerfooter.py:32-49 | Adding the header in one run and the footer in a second gives the same notebook as adding both in one run |
| UrlPath.Clean | grader_service/utils.py:408-409 | Every component left after stripping slashes and dropping empty results is non-empty and has no slash at either end |
| UrlPath.UrlPathJoin | grader_service/utils.py:398-418 | No components is an error; the result stripped of end slashes is the cleaned components joined by single slashes; it never starts or ends with "//"; a leading slash of the first and a trailing slash of the last component are kept, and only those when the core is non-empty; an empty core gives "/" when either of those slashes is there and "" otherwise |
| UrlPath.CleanPiecesJoinPlainly | grader_service/utils.py:406-418 | Components that are non-empty and slash-free at both ends are joined with single slashes and nothing else |
| UrlPath.UrlPathJoinIdempotent | grader_service/utils.py:406-418 | Joining a joined path on its own gives it back |
| BrowserProtocol.ForwardedProto | grader_service/utils.py:655-663 | The `Forwarded` header names a protocol iff the fields of its first element have a `proto` key (case-insensitive) whose value is http or https ignoring case; the answer is that field's value, lower-cased |
| BrowserProtocol.ProxyProto | grader_service/utils.py:668-672 | A proxy header names a protocol iff its first comma element, trimmed and lower-cased, is http or https |
| BrowserProtocol.GetBrowserProtocol | grader_service/utils.py:640-675 | The result is http, https or the connection's protocol; a usable `Forwarded` header decides first, then `X-Scheme` if present (else `X-Forwarded-Proto`), then the connection |
| BrowserProtocol.ForwardedDominates | grader_service/utils.py:655-665 | A usable `Forwarded` header makes `X-Scheme` and `X-Forwarded-Proto` irrelevant |
| BrowserProtocol.XSchemeShadowsForwardedProto | grader_service/utils.py:668-669 | When `X-Scheme` is present, even empty, `X-Forwarded-Proto` has no effect |
| BrowserProtocol.NoProxyHeaders | grader_service/utils.py:675 | Without any proxy header the connection's protocol is returned |
| BrowserProtocol.LastProtoFieldWins | grader_service/utils.py:658-663 | When the last `proto` field of the first `Forwarded` element is http or https in any case, that value lower-cased is the answer |
| AcceptHeader.SplitVendor | grader_service/utils.py:582-590 | A subtype is a vendor type iff it has a `+` and its part before the first `+` starts with `vnd`; the suffix is the text after the first `+`; a version is split off iff that part contains `-v`, at its last `-v`; vendor code, version and suffix put back together give the subtype |
| AcceptHeader.VendorOf | grader_service/utils.py:586-590 | A version is split off iff the vendor part contains `-v`; the code, `-v` and a version without `-v` put back together give the vendor part |
| AcceptHeader.VendorRoundTrip | grader_service/utils.py:582-590 | Splitting a written vendor subtype (code starting with `vnd`, no `+` in code or version, no `-v` in the version) gives back its vendor code, version and suffix |
| AcceptHeader.VendorParams | grader_service/utils.py:588-598 | A vendor type contributes its version (1.0 if unparsable) when a non-empty one follows `-v`, then its vendor code |
| AcceptHeader.ClassifyParam | grader_service/utils.py:606-614 | A parameter without `=` after leading whitespace is malformed; otherwise its key and value are the trimmed text before and after the first `=`; a key `q` makes it a quality with `float()` of the value, and any other key a named parameter with that key and value |
| AcceptHeader.ParseParams | grader_service/utils.py:605-614 | The parameter loop succeeds iff no parameter lacks `=` and every `q` value parses |
| AcceptHeader.ParseParamsNamed | grader_service/utils.py:612-614 | Every named parameter is kept, and only named (non-`q`) parameters are |
| AcceptHeader.ParseParamsInOrder | grader_service/utils.py:612-614 | The named parameters come out as the header lists them, in order, as key and text pairs |
| AcceptHeader.ParseParamsQuality | grader_service/utils.py:605-611 | The quality is that of the last `q` parameter, or 1.0 when there is none |
| AcceptHeader.RewriteType | grader_service/utils.py:580-602 | A vendor media type becomes `type/suffix` and contributes exactly its vendor parameters (version, then vendor code); any other media type is kept with no parameters |
| AcceptHeader.ParseRange | grader_service/utils.py:577-615 | One range parses iff its media type has exactly one `/` and its parameters parse; its media type is the rewritten one, its quality the parameters' quality, its parameters the dictionary of the vendor parameters followed by the named parameters in order (a later key wins), and `q` is not among them |
| AcceptHeader.SortStable | grader_service/utils.py:616 | Sorting keeps the ranges of each quality in header order |
| AcceptHeader.ParseAcceptHeader | grader_service/utils.py:562-617 | The header parses iff every range does, and otherwise raises the first range's error; the result is sorted ascending by quality, a permutation of the parsed ranges, and stable |
| AcceptHeader.FirstAcceptableIsLowest | grader_service/utils.py:629-636 | In the ascending list the first acceptable range has the lowest quality of the acceptable ones |
| AcceptHeader.GetAcceptedMimetypeAsWritten | grader_service/utils.py:620-637 | As written: none iff no range is acceptable (with no choices every range is); otherwise the type of the first acceptable range of the ascending list, which has the LOWEST quality |
| AcceptHeader.LeastWantedTypeChosen | grader_service/utils.py:616-637 | Starting from the already parsed ranges `text/html` at 0.1 and `application/json` at 1.0 (the parsing of the header text is not part of this lemma), the sort keeps them in that order, the code as written picks `text/html` and the preferred choice is `application/json` |
| AcceptHeader.Preferred | grader_service/utils.py:620-627 | The first acceptable range of highest quality: none iff nothing is acceptable, otherwise no acceptable range rates higher and no earlier one rates as high |
| AcceptHeader.GetAcceptedMimetype | grader_service/utils.py:620-627 | As documented: none iff no range is acceptable; otherwise the type of an acceptable range of the HIGHEST quality, the earliest in the sorted list among equals |
| Common.Dict | grader_service/utils.py:615 | The keys of `dict(pairs)` are exactly the pairs' keys, and a key holds the value of its last pair |
| Common.MapAll | grader_service/convert/preprocessors/clearmarkingscheme.py:81 | Mapping a raising step over a list succeeds iff every step does, with the results in order; otherwise the first failure's error is raised |

## Left out

- Database access, routing, `@authorize`, soft-delete, commits and the git reset handler. Name clashes are a flag; stored properties are parsed by a given function. The assignment's `points = 0` on create and the commit are also left out.
- Handler state changed before a raise is discarded in the model, since a raising request does not commit.
- ISO 8601 duration parsing (`isodate`) and calendar durations: a period is its length in whole seconds, or `None` when it does not parse; calendar durations (months, years) and sub-second durations are not modelled, although the source's `timedelta`s compare to the microsecond (PT0.4S and PT0.5S differ there but have no distinct value here). Python's `isinstance(scaling, float)` is a scaling of `None`.
- The late-submission scaling step function (`calculate_late_submission_scaling`) is not part of this model. It is a function parameter of the recalculation.
- Floating-point arithmetic: scores, scalings, `q` and vendor versions are exact reals. NaN and infinities are not modelled; `float()` is a parameter.
- The nbgrader cell predicates, `determine_grade`, `compute_checksum` and the `Gradebook` store are not part of this model. They are flags, function parameters and a pair of maps.
- Reading header and footer notebooks is a function parameter; `nbformat` validation and file errors are its `Err` results.
- The nbconvert driver loop and trait configuration are reduced to a map over a cell sequence. `DeduplicateIds` and the metadata validator are not part of this model.
- `str.lower()` is ASCII-only. The comparisons against "http", "https" and "proto" come out the same, except for non-ASCII letters whose Unicode lower-casing is ASCII (such as the Kelvin sign), which are not modelled.
- Tornado's joining of repeated headers into one value: each header is one string.
- `choices=None` is the empty sequence: the source treats `None` and an empty list alike.
- LimitOutput.LimitStreamOutput: for `max_lines` below -1 only the preservation of non-stream outputs is stated; the budget does not apply to negative values.
- LimitOutput.LimitTraceback and LimitOutput.PreprocessCell use the corrected traceback cut. The as-written cut differs only for `max_traceback` 1 and 2, see Findings.
- The LTI 1.3 login handlers, sockets, SSL, polling, crypto, clocks and the other helpers of `utils.py` are outside the grading logic.

## Findings

| source | as written | input that shows it | evidently intended | confidence | as-written member | corrected member |
|---|---|---|---|---|---|---|
| grader_service/convert/preprocessors/limitoutput.py:53-57 | `end = max_traceback - start - 1` is 0 for `max_traceback` 1 or 2, and `traceback[-0:]` is the whole traceback | `max_traceback = 1` and a 3-line traceback give 4 lines: the marker followed by all 3 | a tail of `end` entries, empty when `end` is 0, so the result has exactly `max_traceback` lines for every `max_traceback` of 1 or more (a `max_traceback` of 0 gives `end` = -1 and keeps as many lines as the traceback has, in both the written and the corrected cut) | high; not executed | LimitOutput.TruncateTracebackAsWritten, exhibited by LimitOutput.TracebackGrowsAsWritten | LimitOutput.TruncateTraceback, proved by LimitOutput.TruncatedShape |
| grader_service/utils.py:616-637 | the ranges are sorted ascending by `q` and the first acceptable one is returned | `Accept: text/html;q=0.1, application/json` with no choices returns `text/html` (exhibited on the two parsed ranges, not on the header text) | the preferred mimetype (the docstring's words), i.e. the acceptable range of highest `q` | medium; not executed | AcceptHeader.GetAcceptedMimetypeAsWritten, exhibited by AcceptHeader.LeastWantedTypeChosen | AcceptHeader.GetAcceptedMimetype, built on AcceptHeader.Preferred |
