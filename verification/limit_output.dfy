/**
 * The Limit-Output stage: caps the number of stream-output lines of a code
 * cell under a running budget, and cuts long tracebacks down to a head, a
 * marker line and a tail.
 */
module LimitOutput {
  import opened Common
  import opened Strings
  import opened Cells

  /** `max_lines` and `max_traceback`; -1 means "no limit" for either. */
  datatype LimitConfig = LimitConfig(maxLines: int, maxTraceback: int)

  const Defaults := LimitConfig(1000, 100)

  const OutputMarker := "... Output truncated ..."
  const TracebackMarker := "... Traceback truncated ..."

  function Min(a: int, b: int): int { if a <= b then a else b }

  /** Python's `s[:k]`, negative `k` counting from the end. */
  function PyTake<T>(s: seq<T>, k: int): (r: seq<T>)
    ensures 0 <= k <= |s| ==> r == s[..k]
  {
    if k >= 0 then s[..Min(k, |s|)]
    else if |s| + k >= 0 then s[..|s| + k]
    else []
  }

  /** Python's `s[k:]`, negative `k` counting from the end. */
  function PyDrop<T>(s: seq<T>, k: int): (r: seq<T>)
    ensures 0 <= k <= |s| ==> r == s[k..]
    ensures -|s| <= k < 0 ==> r == s[|s| + k..]
  {
    if k >= 0 then s[Min(k, |s|)..]
    else if |s| + k >= 0 then s[|s| + k..]
    else s
  }

  /** Python's `int(m / 2)`: division rounded toward zero. */
  function HalfTowardZero(m: int): (h: int)
    ensures m >= 0 ==> h == m / 2
  {
    if m >= 0 then m / 2 else -((-m) / 2)
  }

  // ---------------------------------------------------------------- streams

  /** The number of lines of a stream output, as `text.split("\n")` counts them; 0 for other outputs. */
  function LineCount(o: Output): nat {
    if o.Stream? then |Split(o.text, '\n')| else 0
  }

  /** The stream lines of a list of outputs. */
  function StreamLines(outs: seq<Output>): nat {
    if |outs| == 0 then 0
    else StreamLines(outs[..|outs| - 1]) + LineCount(outs[|outs| - 1])
  }

  /** The outputs that are not streams, in order. */
  function NonStreams(outs: seq<Output>): seq<Output> {
    if |outs| == 0 then []
    else NonStreams(outs[..|outs| - 1]) + (if outs[|outs| - 1].Stream? then [] else [outs[|outs| - 1]])
  }

  /** A stream cut to `n` lines: its first `n - 1` lines and the marker. */
  function Cut(o: Output, n: int): Output
    requires o.Stream? && 1 <= n < LineCount(o)
  {
    o.(text := Join(Split(o.text, '\n')[..n - 1] + [OutputMarker], '\n'))
  }

  /**
   * What becomes of one output when `used` stream lines (at most `max`) went
   * before it: other outputs stay; a stream is dropped when the budget is
   * spent, kept when it fits, and cut to the rest of the budget otherwise.
   */
  function Emit(o: Output, used: int, max: int): seq<Output>
    requires 0 <= used <= max
  {
    if !o.Stream? then [o]
    else if used == max then []
    else if used + LineCount(o) <= max then [o]
    else [Cut(o, max - used)]
  }

  /**
   * The budgeted outputs: each output is treated against the stream lines of
   * the input before it, capped at `max`.
   */
  function Limited(outs: seq<Output>, max: nat): seq<Output> {
    if |outs| == 0 then []
    else
      var init := outs[..|outs| - 1];
      Limited(init, max) + Emit(outs[|outs| - 1], Min(max, StreamLines(init)), max)
  }

  /** How the budgeted notions grow by one more input output. */
  lemma PrefixStep(outs: seq<Output>, i: int, max: int)
    requires 0 <= i < |outs|
    ensures StreamLines(outs[..i + 1]) == StreamLines(outs[..i]) + LineCount(outs[i])
    ensures NonStreams(outs[..i + 1]) == NonStreams(outs[..i]) + (if outs[i].Stream? then [] else [outs[i]])
    ensures max >= 0 ==>
              Limited(outs[..i + 1], max) == Limited(outs[..i], max) + Emit(outs[i], Min(max, StreamLines(outs[..i])), max)
  {
    assert outs[..i + 1][..i] == outs[..i];
  }

  /** Appending one output extends the non-stream list by that output when it is not a stream. */
  lemma NonStreamsSnoc(s: seq<Output>, o: Output)
    ensures NonStreams(s + [o]) == NonStreams(s) + (if o.Stream? then [] else [o])
  {
    assert (s + [o])[..|s|] == s;
  }

  /** The lines one stream keeps when `length` lines went before it: all, or a cut ending in the marker. */
  function StepText(text: seq<string>, length: int, maxLines: int): seq<string> {
    if |text| + length > maxLines then PyTake(text, maxLines - length - 1) + [OutputMarker] else text
  }

  /** One step of the loop on a stream while budget remains is the budgeted `Emit`, and it spends the lines it keeps. */
  lemma StreamStep(o: Output, length: int, maxLines: int)
    requires o.Stream? && 0 <= length < maxLines
    ensures var text := StepText(Split(o.text, '\n'), length, maxLines);
            && [o.(text := Join(text, '\n'))] == Emit(o, length, maxLines)
            && length + |text| == Min(maxLines, length + LineCount(o))
  {
    var lines := Split(o.text, '\n');
    if |lines| + length > maxLines {
      var n := maxLines - length;
      assert PyTake(lines, maxLines - length - 1) == lines[..n - 1];
      assert Emit(o, length, maxLines) == [Cut(o, n)];
    } else {
      JoinSplit(o.text, '\n');
    }
  }

  /** What one pass of the loop appends for output `o` after `length` stream lines. */
  function StepOut(o: Output, length: int, maxLines: int): seq<Output> {
    if !o.Stream? then [o]
    else if length == maxLines then []
    else [o.(text := Join(StepText(Split(o.text, '\n'), length, maxLines), '\n'))]
  }

  /** The running count after output `o`. */
  function StepLength(o: Output, length: int, maxLines: int): int {
    if !o.Stream? || length == maxLines then length
    else length + |StepText(Split(o.text, '\n'), length, maxLines)|
  }

  /** One pass of the loop keeps exactly the non-stream outputs of the prefix. */
  lemma NonStreamsStep(pre: seq<Output>, o: Output, maxLines: int, length: int, newOutputs: seq<Output>)
    requires NonStreams(newOutputs) == NonStreams(pre)
    ensures NonStreams(newOutputs + StepOut(o, length, maxLines)) == NonStreams(pre + [o])
  {
    NonStreamsSnoc(pre, o);
    var step := StepOut(o, length, maxLines);
    if !o.Stream? {
      NonStreamsSnoc(newOutputs, o);
    } else if length == maxLines {
      assert newOutputs + step == newOutputs;
    } else {
      NonStreamsSnoc(newOutputs, step[0]);
    }
  }

  /** One pass of the loop keeps the running count at the capped stream lines of the prefix. */
  lemma LengthStep(pre: seq<Output>, o: Output, maxLines: int, length: int)
    requires maxLines >= 0 && length == Min(maxLines, StreamLines(pre))
    ensures StepLength(o, length, maxLines) == Min(maxLines, StreamLines(pre + [o]))
  {
    assert (pre + [o])[..|pre|] == pre;
    if o.Stream? && length != maxLines {
      StreamStep(o, length, maxLines);
    }
  }

  /** One pass of the loop appends what the budgeted list `Limited` holds for the next output. */
  lemma LimitedStep(pre: seq<Output>, o: Output, maxLines: int, length: int, newOutputs: seq<Output>)
    requires maxLines >= 0 && length == Min(maxLines, StreamLines(pre))
    requires newOutputs == Limited(pre, maxLines)
    ensures newOutputs + StepOut(o, length, maxLines) == Limited(pre + [o], maxLines)
  {
    assert (pre + [o])[..|pre|] == pre;
    if o.Stream? && length != maxLines {
      StreamStep(o, length, maxLines);
    }
  }

  /**
   * `_limit_stream_output` as written: one pass with a running line count.
   * Non-stream outputs are kept in order; for a non-negative budget the
   * result is the budgeted list `Limited`.
   */
  method LimitStreamOutput(maxLines: int, cell: Cell) returns (r: Cell)
    ensures maxLines == -1 || cell.cellType != Code ==> r == cell
    ensures r == cell.(outputs := r.outputs)
    ensures NonStreams(r.outputs) == NonStreams(cell.outputs)
    ensures maxLines >= 0 && cell.cellType == Code ==> r.outputs == Limited(cell.outputs, maxLines)
  {
    if maxLines == -1 || cell.cellType != Code {
      return cell;
    }
    var outs := cell.outputs;
    var length := 0;
    var newOutputs: seq<Output> := [];
    var i := 0;
    while i < |outs|
      invariant 0 <= i <= |outs|
      invariant NonStreams(newOutputs) == NonStreams(outs[..i])
      invariant maxLines >= 0 ==> length == Min(maxLines, StreamLines(outs[..i]))
      invariant maxLines >= 0 ==> newOutputs == Limited(outs[..i], maxLines)
    {
      var o := outs[i];
      ghost var pre := outs[..i];
      ghost var step := StepOut(o, length, maxLines);
      ghost var next := StepLength(o, length, maxLines);
      assert outs[..i + 1] == pre + [o];
      NonStreamsStep(pre, o, maxLines, length, newOutputs);
      if maxLines >= 0 {
        LengthStep(pre, o, maxLines, length);
        LimitedStep(pre, o, maxLines, length, newOutputs);
      }
      if o.Stream? {
        if length == maxLines {
          assert newOutputs + step == newOutputs;
          i := i + 1;
          continue;
        }
        var text := Split(o.text, '\n');
        if |text| + length > maxLines {
          text := PyTake(text, maxLines - length - 1) + [OutputMarker];
        }
        assert text == StepText(Split(o.text, '\n'), length, maxLines);
        length := length + |text|;
        o := o.(text := Join(text, '\n'));
      }
      assert [o] == step && length == next;
      newOutputs := newOutputs + [o];
      i := i + 1;
    }
    assert outs[..i] == outs;
    return cell.(outputs := newOutputs);
  }

  /** The marker fits on one line. */
  lemma MarkerIsOneLine()
    ensures '\n' !in OutputMarker
  {
  }

  /** A cut stream's lines are the first `n - 1` lines of the stream followed by the marker. */
  lemma CutLines(o: Output, n: int)
    requires o.Stream? && 1 <= n < LineCount(o)
    ensures Split(Cut(o, n).text, '\n') == Split(o.text, '\n')[..n - 1] + [OutputMarker]
    ensures LineCount(Cut(o, n)) == n
  {
    var lines := Split(o.text, '\n');
    var pieces := lines[..n - 1] + [OutputMarker];
    MarkerIsOneLine();
    forall k | 0 <= k < |pieces| ensures '\n' !in pieces[k] {
      if k < n - 1 {
        assert pieces[k] == lines[k];
      } else {
        assert pieces[k] == OutputMarker;
      }
    }
    SplitJoin(pieces, '\n');
    assert Cut(o, n).text == Join(pieces, '\n');
  }

  lemma {:induction false} StreamLinesAppend(a: seq<Output>, b: seq<Output>)
    ensures StreamLines(a + b) == StreamLines(a) + StreamLines(b)
    decreases |b|
  {
    if |b| > 0 {
      var b' := b[..|b| - 1];
      assert (a + b)[..|a + b| - 1] == a + b';
      assert (a + b)[|a + b| - 1] == b[|b| - 1];
      StreamLinesAppend(a, b');
    } else {
      assert a + b == a;
    }
  }

  /** What one output contributes to the budgeted list: the lines it brings, capped by what is left. */
  lemma EmitLines(o: Output, used: int, max: int)
    requires 0 <= used <= max
    ensures StreamLines(Emit(o, used, max)) == Min(max, used + LineCount(o)) - used
  {
    var e := Emit(o, used, max);
    if |e| == 1 {
      assert e[..0] == [];
      assert StreamLines(e) == LineCount(e[0]);
      if o.Stream? && used < max && used + LineCount(o) > max {
        assert LineCount(Cut(o, max - used)) == max - used by {
          CutLines(o, max - used);
        }
      }
    }
  }

  /** The budget is never exceeded: the kept stream lines are the input's, capped at `max`. */
  lemma {:induction false} LimitedWithinBudget(outs: seq<Output>, max: nat)
    ensures StreamLines(Limited(outs, max)) == Min(max, StreamLines(outs))
    decreases |outs|
  {
    if |outs| > 0 {
      var init := outs[..|outs| - 1];
      var o := outs[|outs| - 1];
      var used := Min(max, StreamLines(init));
      LimitedWithinBudget(init, max);
      StreamLinesAppend(Limited(init, max), Emit(o, used, max));
      EmitLines(o, used, max);
    }
  }

  /** When all stream lines fit the budget, the outputs are left exactly as they were. */
  lemma {:induction false} LimitedFits(outs: seq<Output>, max: nat)
    requires StreamLines(outs) <= max
    ensures Limited(outs, max) == outs
    decreases |outs|
  {
    if |outs| > 0 {
      var init := outs[..|outs| - 1];
      LimitedFits(init, max);
      assert outs == init + [outs[|outs| - 1]];
    }
  }

  // ------------------------------------------------------------- tracebacks

  /**
   * `_limit_traceback`'s cut as written: `tb[:start] + [marker] + tb[-end:]`.
   * For `max` 1 or 2, `end` is 0 and `tb[-0:]` is the whole traceback.
   */
  function TruncateTracebackAsWritten(tb: seq<string>, max: int): seq<string> {
    var start := HalfTowardZero(max);
    var end := max - start - 1;
    PyTake(tb, start) + [TracebackMarker] + PyDrop(tb, -end)
  }

  /** The cut as intended: an empty tail when there is no room left for one. */
  function TruncateTraceback(tb: seq<string>, max: int): seq<string> {
    var start := HalfTowardZero(max);
    var end := max - start - 1;
    PyTake(tb, start) + [TracebackMarker] + (if end == 0 then [] else PyDrop(tb, -end))
  }

  /** For `max` 1 and 2 the as-written cut makes a long traceback longer still. */
  lemma TracebackGrowsAsWritten(tb: seq<string>, max: int)
    requires max == 1 || max == 2
    requires |tb| > max
    ensures |TruncateTracebackAsWritten(tb, max)| == |tb| + max
    ensures |TruncateTracebackAsWritten(tb, max)| > |tb|
  {
  }

  /** The intended cut of a traceback longer than `max >= 1`: head, marker, tail, exactly `max` entries. */
  lemma TruncatedShape(tb: seq<string>, max: int)
    requires max >= 1 && |tb| > max
    ensures TruncateTraceback(tb, max) ==
              tb[..max / 2] + [TracebackMarker] + tb[|tb| - (max - max / 2 - 1)..]
    ensures |TruncateTraceback(tb, max)| == max
  {
  }

  /** Outside `max` 1 and 2 the as-written and the intended cuts agree. */
  lemma AsWrittenAgrees(tb: seq<string>, max: int)
    requires max != 1 && max != 2
    ensures TruncateTracebackAsWritten(tb, max) == TruncateTraceback(tb, max)
  {
    if max < 0 {
      assert max - HalfTowardZero(max) - 1 < 0;
    }
  }

  /** One output under the traceback limit: only error outputs longer than `max` change. */
  function LimitOneTraceback(o: Output, max: int): Output {
    if o.Error? && |o.traceback| > max then o.(traceback := TruncateTraceback(o.traceback, max)) else o
  }

  /** The traceback half of the stage: every error output of a code cell is cut on its own. */
  function LimitTraceback(maxTraceback: int, cell: Cell): (r: Cell)
    ensures maxTraceback == -1 || cell.cellType != Code ==> r == cell
    ensures r == cell.(outputs := r.outputs) && |r.outputs| == |cell.outputs|
    ensures forall i :: 0 <= i < |cell.outputs| && !cell.outputs[i].Error? ==> r.outputs[i] == cell.outputs[i]
    ensures forall i :: 0 <= i < |cell.outputs| && cell.outputs[i].Error? ==>
              r.outputs[i].Error? && r.outputs[i] == cell.outputs[i].(traceback := r.outputs[i].traceback)
    ensures forall i :: (0 <= i < |cell.outputs| && cell.outputs[i].Error?
                         && |cell.outputs[i].traceback| <= maxTraceback) ==> r.outputs[i] == cell.outputs[i]
    ensures maxTraceback != -1 && cell.cellType == Code ==>
              forall i :: (0 <= i < |cell.outputs| && cell.outputs[i].Error?
                           && |cell.outputs[i].traceback| > maxTraceback) ==>
                r.outputs[i].traceback == TruncateTraceback(cell.outputs[i].traceback, maxTraceback)
    ensures maxTraceback >= 1 && cell.cellType == Code ==>
              forall i :: 0 <= i < |r.outputs| && r.outputs[i].Error? ==> |r.outputs[i].traceback| <= maxTraceback
  {
    if maxTraceback == -1 || cell.cellType != Code then cell
    else
      var outs := cell.outputs;
      var r := cell.(outputs := seq(|outs|, i requires 0 <= i < |outs| => LimitOneTraceback(outs[i], maxTraceback)));
      assert forall i :: 0 <= i < |outs| && outs[i].Error? && |outs[i].traceback| > maxTraceback >= 1 ==>
               |r.outputs[i].traceback| == maxTraceback by {
        forall i | 0 <= i < |outs| && outs[i].Error? && |outs[i].traceback| > maxTraceback >= 1 {
          TruncatedShape(outs[i].traceback, maxTraceback);
        }
      }
      r
  }

  lemma {:induction false} StreamLinesPointwise(a: seq<Output>, b: seq<Output>)
    requires |a| == |b|
    requires forall i :: 0 <= i < |a| && (a[i].Stream? || b[i].Stream?) ==> a[i] == b[i]
    ensures StreamLines(a) == StreamLines(b)
    decreases |a|
  {
    if |a| > 0 {
      StreamLinesPointwise(a[..|a| - 1], b[..|b| - 1]);
    }
  }

  /** `preprocess_cell`: streams first, then tracebacks; both limits hold of the result. */
  method PreprocessCell(cfg: LimitConfig, cell: Cell) returns (r: Cell)
    ensures r == cell.(outputs := r.outputs)
    ensures cell.cellType != Code ==> r == cell
    ensures cfg.maxLines == -1 && cfg.maxTraceback == -1 ==> r == cell
    ensures cfg.maxLines == -1 ==> r == LimitTraceback(cfg.maxTraceback, cell)
    ensures cfg.maxLines >= 0 && cell.cellType == Code ==>
              r == LimitTraceback(cfg.maxTraceback, cell.(outputs := Limited(cell.outputs, cfg.maxLines)))
    ensures cfg.maxLines >= 0 && cell.cellType == Code ==> StreamLines(r.outputs) <= cfg.maxLines
    ensures (cfg.maxLines >= 0 && cell.cellType == Code && StreamLines(cell.outputs) <= cfg.maxLines
             && cfg.maxTraceback == -1) ==> r == cell
    ensures cfg.maxTraceback >= 1 && cell.cellType == Code ==>
              forall i :: 0 <= i < |r.outputs| && r.outputs[i].Error? ==> |r.outputs[i].traceback| <= cfg.maxTraceback
  {
    var c := LimitStreamOutput(cfg.maxLines, cell);
    if cfg.maxLines >= 0 && cell.cellType == Code {
      LimitedWithinBudget(cell.outputs, cfg.maxLines);
      if StreamLines(cell.outputs) <= cfg.maxLines {
        LimitedFits(cell.outputs, cfg.maxLines);
      }
    }
    r := LimitTraceback(cfg.maxTraceback, c);
    StreamLinesPointwise(c.outputs, r.outputs);
  }
}
