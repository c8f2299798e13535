/**
 * The Clear-Mark-Scheme stage: removes the regions between a begin and an
 * end delimiter line from every cell's source, rejects nested and
 * unterminated regions, and insists that cells which had a region are task
 * cells.
 */
module ClearMarkScheme {
  import opened Common
  import opened Strings
  import opened Cells

  datatype MarkSchemeConfig = MarkSchemeConfig(begin: string, end: string, enforceMetadata: bool)

  const Defaults := MarkSchemeConfig("BEGIN MARK SCHEME", "END MARK SCHEME", true)

  const NestedMsg := "Encountered nested begin mark scheme statements"
  const NoEndMsg := "No end mark scheme tests statement found"
  const NotTaskMsg := "Mark scheme region detected in a non-grade cell; please make sure all mark scheme regions are within 'Manually graded task' cells."

  /** How the scan reads one line: the begin test comes first, so a line with both delimiters is a begin line. */
  datatype LineKind = Begin | End | Plain

  function Kind(cfg: MarkSchemeConfig, line: string): (k: LineKind)
    ensures k == Plain <==> !Contains(line, cfg.begin) && !Contains(line, cfg.end)
    ensures k == Begin <==> Contains(line, cfg.begin)
  {
    if Contains(line, cfg.begin) then Begin
    else if Contains(line, cfg.end) then End
    else Plain
  }

  /** A region is open after `lines` when the last delimiter line among them is a begin line. */
  predicate Open(cfg: MarkSchemeConfig, lines: seq<string>) {
    exists j | 0 <= j < |lines| ::
      Kind(cfg, lines[j]) == Begin && forall k | j < k < |lines| :: Kind(cfg, lines[k]) == Plain
  }

  /** Some begin line appears while a region is already open. */
  predicate NestedBegin(cfg: MarkSchemeConfig, lines: seq<string>) {
    exists i | 0 <= i < |lines| :: Kind(cfg, lines[i]) == Begin && Open(cfg, lines[..i])
  }

  /** Some line contains the begin delimiter. */
  predicate HasBegin(cfg: MarkSchemeConfig, lines: seq<string>) {
    exists i | 0 <= i < |lines| :: Kind(cfg, lines[i]) == Begin
  }

  /** The lines that survive: lines without a delimiter that lie outside every region, in order. */
  function Kept(cfg: MarkSchemeConfig, lines: seq<string>): seq<string>
  {
    if |lines| == 0 then []
    else
      var init := lines[..|lines| - 1];
      var last := lines[|lines| - 1];
      Kept(cfg, init) + (if Kind(cfg, last) == Plain && !Open(cfg, init) then [last] else [])
  }

  /**
   * The declarative meaning of `_remove_mark_scheme_region`: the new source
   * and whether a region was removed, or the error raised.
   */
  function ClearRegions(cfg: MarkSchemeConfig, source: string): Result<(string, bool), string>
  {
    var lines := Split(source, '\n');
    if NestedBegin(cfg, lines) then Err(NestedMsg)
    else if Open(cfg, lines) then Err(NoEndMsg)
    else Ok((Join(Kept(cfg, lines), '\n'), HasBegin(cfg, lines)))
  }

  lemma OpenStep(cfg: MarkSchemeConfig, lines: seq<string>, x: string)
    ensures Open(cfg, lines + [x]) <==> Kind(cfg, x) == Begin || (Kind(cfg, x) == Plain && Open(cfg, lines))
  {
    var ls := lines + [x];
    assert forall k :: 0 <= k < |lines| ==> ls[k] == lines[k];
    if Kind(cfg, x) == Begin {
      assert Kind(cfg, ls[|lines|]) == Begin;
    }
    if Open(cfg, ls) && Kind(cfg, x) != Begin {
      var j :| 0 <= j < |ls| && Kind(cfg, ls[j]) == Begin && forall k | j < k < |ls| :: Kind(cfg, ls[k]) == Plain;
      assert ls[|lines|] == x;
      assert j < |lines|;
      assert Kind(cfg, x) == Plain;
      assert Kind(cfg, lines[j]) == Begin;
      forall k | j < k < |lines| ensures Kind(cfg, lines[k]) == Plain {
        assert ls[k] == lines[k];
      }
      assert Open(cfg, lines);
    }
    if Kind(cfg, x) == Plain && Open(cfg, lines) {
      var j :| 0 <= j < |lines| && Kind(cfg, lines[j]) == Begin && forall k | j < k < |lines| :: Kind(cfg, lines[k]) == Plain;
      assert ls[|lines|] == x;
      assert Kind(cfg, ls[j]) == Begin;
      forall k | j < k < |ls| ensures Kind(cfg, ls[k]) == Plain {
        if k < |lines| {
          assert ls[k] == lines[k];
        }
      }
      assert Open(cfg, ls);
    }
  }

  lemma NestedStep(cfg: MarkSchemeConfig, lines: seq<string>, x: string)
    ensures NestedBegin(cfg, lines + [x]) <==>
              NestedBegin(cfg, lines) || (Kind(cfg, x) == Begin && Open(cfg, lines))
  {
    var ls := lines + [x];
    assert ls[..|lines|] == lines;
    assert forall i :: 0 <= i < |lines| ==> ls[i] == lines[i] && ls[..i] == lines[..i];
  }

  lemma HasBeginStep(cfg: MarkSchemeConfig, lines: seq<string>, x: string)
    ensures HasBegin(cfg, lines + [x]) <==> HasBegin(cfg, lines) || Kind(cfg, x) == Begin
  {
    var ls := lines + [x];
    assert forall i :: 0 <= i < |lines| ==> ls[i] == lines[i];
    assert ls[|lines|] == x;
  }

  /** How the declarative notions grow when the scan takes line `i`. */
  lemma ScanStep(cfg: MarkSchemeConfig, lines: seq<string>, i: int)
    requires 0 <= i < |lines|
    ensures var p, x := lines[..i], lines[i];
            && (Open(cfg, lines[..i + 1]) <==> Kind(cfg, x) == Begin || (Kind(cfg, x) == Plain && Open(cfg, p)))
            && (NestedBegin(cfg, lines[..i + 1]) <==> NestedBegin(cfg, p) || (Kind(cfg, x) == Begin && Open(cfg, p)))
            && (HasBegin(cfg, lines[..i + 1]) <==> HasBegin(cfg, p) || Kind(cfg, x) == Begin)
            && Kept(cfg, lines[..i + 1]) == Kept(cfg, p) + (if Kind(cfg, x) == Plain && !Open(cfg, p) then [x] else [])
  {
    var p, x := lines[..i], lines[i];
    assert lines[..i + 1] == p + [x];
    assert lines[..i + 1][..i] == p;
    OpenStep(cfg, p, x);
    NestedStep(cfg, p, x);
    HasBeginStep(cfg, p, x);
  }

  /**
   * `_remove_mark_scheme_region` as written: one pass over the lines with an
   * "inside a region" flag, raising on a nested begin and on a region left
   * open. It computes exactly the declarative `ClearRegions`.
   */
  method RemoveMarkSchemeRegion(cfg: MarkSchemeConfig, source: string) returns (r: Result<(string, bool), string>)
    ensures r == ClearRegions(cfg, source)
  {
    var lines := Split(source, '\n');
    var newLines: seq<string> := [];
    var inMs := false;
    var removedMs := false;
    var i := 0;
    while i < |lines|
      invariant 0 <= i <= |lines|
      invariant inMs == Open(cfg, lines[..i])
      invariant removedMs == HasBegin(cfg, lines[..i])
      invariant newLines == Kept(cfg, lines[..i])
      invariant !NestedBegin(cfg, lines[..i])
    {
      var line := lines[i];
      ScanStep(cfg, lines, i);
      if Contains(line, cfg.begin) {
        if inMs {
          assert Kind(cfg, lines[i]) == Begin && Open(cfg, lines[..i]);
          return Err(NestedMsg);
        }
        inMs := true;
        removedMs := true;
      } else if Contains(line, cfg.end) {
        inMs := false;
      } else if !inMs {
        newLines := newLines + [line];
      }
      i := i + 1;
    }
    assert lines[..i] == lines;
    if inMs {
      return Err(NoEndMsg);
    }
    return Ok((Join(newLines, '\n'), removedMs));
  }

  /** Every kept line is one of the input lines and carries no delimiter. */
  lemma {:induction false} KeptLines(cfg: MarkSchemeConfig, lines: seq<string>)
    ensures forall k :: 0 <= k < |Kept(cfg, lines)| ==>
              Kind(cfg, Kept(cfg, lines)[k]) == Plain && Kept(cfg, lines)[k] in lines
    decreases |lines|
  {
    if |lines| > 0 {
      var init := lines[..|lines| - 1];
      KeptLines(cfg, init);
      assert forall x :: x in init ==> x in lines;
    }
  }

  /** Without begin lines no region is ever open. */
  lemma NeverOpen(cfg: MarkSchemeConfig, lines: seq<string>)
    requires !HasBegin(cfg, lines)
    ensures !Open(cfg, lines) && !NestedBegin(cfg, lines)
  {
  }

  /** Without delimiter lines every line is kept. */
  lemma {:induction false} KeptAllPlain(cfg: MarkSchemeConfig, lines: seq<string>)
    requires forall k :: 0 <= k < |lines| ==> Kind(cfg, lines[k]) == Plain
    ensures Kept(cfg, lines) == lines
    decreases |lines|
  {
    if |lines| > 0 {
      var init := lines[..|lines| - 1];
      KeptAllPlain(cfg, init);
      NeverOpen(cfg, init);
      assert lines == init + [lines[|lines| - 1]];
    }
  }

  /** A source none of whose lines holds a delimiter comes back unchanged, with no region removed. */
  lemma NoDelimitersUnchanged(cfg: MarkSchemeConfig, source: string)
    requires forall k :: 0 <= k < |Split(source, '\n')| ==> Kind(cfg, Split(source, '\n')[k]) == Plain
    ensures ClearRegions(cfg, source) == Ok((source, false))
  {
    var lines := Split(source, '\n');
    NeverOpen(cfg, lines);
    KeptAllPlain(cfg, lines);
    JoinSplit(source, '\n');
  }

  /** An empty begin delimiter occurs in every line, so every source is rejected. */
  lemma EmptyBeginAlwaysFails(cfg: MarkSchemeConfig, source: string)
    requires cfg.begin == ""
    ensures ClearRegions(cfg, source).Err?
  {
    var lines := Split(source, '\n');
    assert SubAt(lines[0], cfg.begin, 0);
    assert Kind(cfg, lines[0]) == Begin;
    if |lines| == 1 {
      assert Open(cfg, lines);
    } else {
      assert SubAt(lines[1], cfg.begin, 0);
      assert lines[..1][0] == lines[0];
      assert Open(cfg, lines[..1]);
      assert Kind(cfg, lines[1]) == Begin && Open(cfg, lines[..1]);
    }
  }

  /** Clearing is idempotent: a cleared source has no delimiter lines left and passes through unchanged. */
  lemma ClearIdempotent(cfg: MarkSchemeConfig, source: string)
    requires ClearRegions(cfg, source).Ok?
    ensures var t := ClearRegions(cfg, source).value.0;
            ClearRegions(cfg, t) == Ok((t, false))
  {
    var lines := Split(source, '\n');
    var kept := Kept(cfg, lines);
    var t := Join(kept, '\n');
    KeptLines(cfg, lines);
    if |kept| > 0 {
      SplitJoin(kept, '\n');
      NoDelimitersUnchanged(cfg, t);
    } else {
      if cfg.begin == "" {
        EmptyBeginAlwaysFails(cfg, source);
      }
      assert t == "";
      assert Split(t, '\n') == [""];
      if Kind(cfg, "") == Plain {
        NoDelimitersUnchanged(cfg, t);
      } else {
        assert !SubAt("", cfg.begin, 0);
        assert Kind(cfg, "") == End;
        var ls := [""];
        assert !HasBegin(cfg, ls);
        NeverOpen(cfg, ls);
        assert ls[..0] == [];
        assert Kept(cfg, ls) == [];
      }
    }
  }

  /** `preprocess_cell`: clear the regions, then reject a cleared cell that is not a task cell. */
  function PreprocessCell(cfg: MarkSchemeConfig, c: Cell): (r: Result<Cell, string>)
    ensures r.Ok? ==> r.value == c.(source := r.value.source)
    ensures r.Ok? <==> ClearRegions(cfg, c.source).Ok?
                       && (IsTask(c) || !cfg.enforceMetadata || !ClearRegions(cfg, c.source).value.1)
    ensures r.Ok? ==> r.value.source == ClearRegions(cfg, c.source).value.0
  {
    match ClearRegions(cfg, c.source)
    case Err(e) => Err(e)
    case Ok((src, removed)) =>
      if !IsTask(c) && removed && cfg.enforceMetadata then Err(NotTaskMsg)
      else Ok(c.(source := src))
  }

  /** `preprocess`: every cell in order, then the `celltoolbar` key leaves the notebook metadata. */
  function PreprocessNotebook(cfg: MarkSchemeConfig, nb: Notebook): (r: Result<Notebook, string>)
    ensures r.Ok? <==> forall k :: 0 <= k < |nb.cells| ==> PreprocessCell(cfg, nb.cells[k]).Ok?
    ensures r.Ok? ==> "celltoolbar" !in r.value.metadata
    ensures r.Ok? ==> r.value.metadata.Keys == nb.metadata.Keys - {"celltoolbar"}
    ensures r.Ok? ==> forall key :: key in r.value.metadata ==> r.value.metadata[key] == nb.metadata[key]
    ensures r.Ok? ==> |r.value.cells| == |nb.cells|
    ensures r.Ok? ==> forall k :: 0 <= k < |nb.cells| ==> r.value.cells[k] == PreprocessCell(cfg, nb.cells[k]).value
    ensures r.Err? ==> exists k :: 0 <= k < |nb.cells| && PreprocessCell(cfg, nb.cells[k]) == Err(r.error)
                         && forall j :: 0 <= j < k ==> PreprocessCell(cfg, nb.cells[j]).Ok?
  {
    match MapAll(c => PreprocessCell(cfg, c), nb.cells)
    case Err(e) => Err(e)
    case Ok(cells) => Ok(Notebook(cells, nb.metadata - {"celltoolbar"}))
  }
}
