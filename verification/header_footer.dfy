/**
 * The Include-Header-Footer stage: surrounds a notebook's cells with the
 * cells of a header notebook and a footer notebook. Reading a notebook file
 * is a given function that may fail; an empty path means "no such part".
 */
module HeaderFooter {
  import opened Common
  import opened Cells

  datatype HeaderFooterConfig = HeaderFooterConfig(header: string, footer: string)

  /** Both paths default to the empty string, so by default nothing is added. */
  const Defaults := HeaderFooterConfig("", "")

  /** The cells contributed by one configured path: none for the empty path, otherwise the notebook read from it. */
  function PartCells(path: string, read: string -> Result<seq<Cell>, string>): (r: Result<seq<Cell>, string>)
    ensures path == [] ==> r == Ok([])
    ensures path != [] ==> r == read(path)
  {
    if path == [] then Ok([]) else read(path)
  }

  /**
   * `IncludeHeaderFooter.preprocess`: the header is read first and its
   * failure ends the stage before the footer is read; on success the cells
   * are header, body, footer in that order and the metadata is untouched.
   * Its `preprocess_cell` returns every cell unchanged, so the per-cell pass
   * adds nothing.
   */
  function IncludeHeaderFooter(cfg: HeaderFooterConfig, read: string -> Result<seq<Cell>, string>, nb: Notebook)
    : (r: Result<Notebook, string>)
    ensures r.Ok? <==> PartCells(cfg.header, read).Ok? && PartCells(cfg.footer, read).Ok?
    ensures PartCells(cfg.header, read).Err? ==> r == Err(PartCells(cfg.header, read).error)
    ensures PartCells(cfg.header, read).Ok? && PartCells(cfg.footer, read).Err? ==>
              r == Err(PartCells(cfg.footer, read).error)
    ensures r.Ok? ==> r.value.metadata == nb.metadata
    ensures r.Ok? ==>
              var h := PartCells(cfg.header, read).value;
              var f := PartCells(cfg.footer, read).value;
              && |r.value.cells| == |h| + |nb.cells| + |f|
              && r.value.cells[..|h|] == h
              && r.value.cells[|h|..|h| + |nb.cells|] == nb.cells
              && r.value.cells[|h| + |nb.cells|..] == f
  {
    match PartCells(cfg.header, read)
    case Err(e) => Err(e)
    case Ok(h) =>
      match PartCells(cfg.footer, read)
      case Err(e) => Err(e)
      case Ok(f) =>
        var cells := h + nb.cells + f;
        assert cells[..|h|] == h;
        assert cells[|h|..|h| + |nb.cells|] == nb.cells;
        assert cells[|h| + |nb.cells|..] == f;
        Ok(nb.(cells := cells))
  }

  /** With both paths empty the notebook comes back as it was, and no file is read. */
  lemma NoPartsNoChange(read: string -> Result<seq<Cell>, string>, nb: Notebook)
    ensures IncludeHeaderFooter(Defaults, read, nb) == Ok(nb)
  {
    assert [] + nb.cells + [] == nb.cells;
  }

  /**
   * Adding a header and then a footer in two runs gives the same notebook as
   * adding both in one run.
   */
  lemma {:induction false} HeaderThenFooter(header: string, footer: string,
                                            read: string -> Result<seq<Cell>, string>, nb: Notebook)
    requires PartCells(header, read).Ok? && PartCells(footer, read).Ok?
    ensures var first := IncludeHeaderFooter(HeaderFooterConfig(header, ""), read, nb);
            && first.Ok?
            && IncludeHeaderFooter(HeaderFooterConfig("", footer), read, first.value)
                 == IncludeHeaderFooter(HeaderFooterConfig(header, footer), read, nb)
  {
    var h := PartCells(header, read).value;
    var f := PartCells(footer, read).value;
    assert h + nb.cells + [] == h + nb.cells;
    assert [] + (h + nb.cells) + f == h + nb.cells + f;
  }
}
