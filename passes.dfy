/** update_gr_block and update_file of the Edge.Cuts stroke-width tool: the
    stroke-width pass over one gr_* block and the pass over a whole file that
    finds the blocks. Both are defined for any line syntax (the three line
    classifiers and the rewrite of a width line); WidthSyntax instantiates it
    with the matchers of EdgeCuts and a given width text. */
module EdgeCutsPass {
  import opened Base
  import opened EdgeCuts

  /** What the passes need to know about a line. */
  datatype Syntax = Syntax(grStart: string -> bool, edgeCuts: string -> bool,
                           strokeStart: string -> bool, rewrite: string -> string)

  /** The syntax of the tool: GR_START_RE, LAYER_EDGE_CUTS, STROKE_START_RE
      and the width line rewrite with width text w. */
  function WidthSyntax(w: string): Syntax
  {
    Syntax(IsGrStart, HasEdgeCuts, HasStrokeStart, line => Rewrite(line, w))
  }

  /** The rewrite of l rewrites to itself and is classified like l. */
  predicate Settled(syn: Syntax, l: string)
  {
    var o := syn.rewrite(l);
    && syn.rewrite(o) == o
    && ParenDelta(o) == ParenDelta(l)
    && syn.grStart(o) == syn.grStart(l)
    && syn.edgeCuts(o) == syn.edgeCuts(l)
    && syn.strokeStart(o) == syn.strokeStart(l)
  }

  ghost predicate Stable(syn: Syntax)
  {
    forall l :: Settled(syn, l)
  }

  /** With a width text that has no whitespace and no parenthesis, the tool's
      syntax is stable. */
  lemma WidthStable(w: string)
    requires WidthText(w)
    ensures Stable(WidthSyntax(w))
  {
    forall l ensures Settled(WidthSyntax(w), l) {
      RewriteStable(l, w);
    }
  }

  // ---------------------------------------------------------------------
  // update_gr_block: the stroke-width pass over one gr_* block

  /** Each output line is its input line, or that line rewritten. */
  predicate Related(lines: seq<string>, out: seq<string>, syn: Syntax)
  {
    |lines| == |out| &&
    forall j | 0 <= j < |lines| :: out[j] == lines[j] || out[j] == syn.rewrite(lines[j])
  }

  /** Number of indices where a and b differ. */
  function DiffCount(a: seq<string>, b: seq<string>): (n: nat)
    requires |a| == |b|
    ensures n <= |a|
  {
    if a == [] then 0
    else DiffCount(a[..|a| - 1], b[..|b| - 1]) + (if a[|a| - 1] != b[|b| - 1] then 1 else 0)
  }

  /** No difference counted means no difference. */
  lemma {:induction false} DiffCountZero(a: seq<string>, b: seq<string>)
    requires |a| == |b|
    ensures DiffCount(a, b) == 0 <==> a == b
  {
    if a != [] {
      var n := |a|;
      DiffCountZero(a[..n - 1], b[..n - 1]);
      assert a == a[..n - 1] + [a[n - 1]] && b == b[..n - 1] + [b[n - 1]];
    }
  }

  /** The loop state of update_gr_block: the lines emitted so far, the change
      count, the running depth, whether a stroke region is open and the depth
      at which it opened. */
  datatype BlockState = BlockState(out: seq<string>, changes: nat, depth: int, inStroke: bool, start: int)

  /** One line of the pass: a stroke region opens at a stroke opener, the width
      line of an open region is rewritten, the depth moves by the balance of
      the emitted line, and the region closes once the depth is back at or
      below its opening depth. */
  function BlockStep(st: BlockState, line: string, syn: Syntax): BlockState
  {
    var opens := !st.inStroke && syn.strokeStart(line);
    var inStroke := st.inStroke || opens;
    var start := if opens then st.depth else st.start;
    Advance(st.out, st.changes, st.depth, inStroke, start, line, Emitted(line, syn, inStroke))
  }

  /** The line emitted for an input line: rewritten inside a stroke region. */
  function Emitted(line: string, syn: Syntax, inStroke: bool): string
  {
    if inStroke then syn.rewrite(line) else line
  }

  /** The bookkeeping after a line is emitted: the output grows by it, a change
      is counted when it differs from the input, the depth moves by its
      balance and the region closes at or below its opening depth. */
  function Advance(out: seq<string>, changes: nat, depth: int, inStroke: bool, start: int,
                   line: string, emitted: string): BlockState
  {
    var depth' := depth + ParenDelta(emitted);
    BlockState(out + [emitted], changes + (if emitted != line then 1 else 0),
               depth', inStroke && depth' > start, start)
  }

  function BlockRun(lines: seq<string>, syn: Syntax): (st: BlockState)
    ensures |st.out| == |lines|
  {
    if lines == [] then BlockState([], 0, 0, false, 0)
    else BlockStep(BlockRun(lines[..|lines| - 1], syn), lines[|lines| - 1], syn)
  }

  predicate AnyEdgeCuts(lines: seq<string>, syn: Syntax)
  {
    exists k | 0 <= k < |lines| :: syn.edgeCuts(lines[k])
  }

  /** update_gr_block: a block with no Edge.Cuts line is returned as it is;
      otherwise the pass runs over it. Either way the result has one line per
      input line, each the input line or its rewrite, and the count is the
      number of lines that differ. */
  function GrBlock(lines: seq<string>, syn: Syntax): (seq<string>, nat)
  {
    if !AnyEdgeCuts(lines, syn) then (lines, 0)
    else (BlockRun(lines, syn).out, BlockRun(lines, syn).changes)
  }

  lemma GrBlockShape(lines: seq<string>, syn: Syntax)
    ensures Related(lines, GrBlock(lines, syn).0, syn)
    ensures GrBlock(lines, syn).1 == DiffCount(lines, GrBlock(lines, syn).0)
  {
    BlockRunShape(lines, syn);
    DiffCountZero(lines, lines);
  }

  lemma {:induction false} BlockRunShape(lines: seq<string>, syn: Syntax)
    ensures var st := BlockRun(lines, syn);
      Related(lines, st.out, syn) && st.changes == DiffCount(lines, st.out)
  {
    if lines != [] {
      var n := |lines|;
      var init := lines[..n - 1];
      var st0 := BlockRun(init, syn);
      BlockRunShape(init, syn);
      BlockStepShape(st0, lines[n - 1], syn);
      var st := BlockRun(lines, syn);
      LastSplit(lines);
      ShapeAppend(lines, init, lines[n - 1], st0.out, st.out[n - 1..], st0.changes, st.changes, syn);
    }
  }

  /** One step emits one line, related to its input, and counts it when it
      differs. */
  lemma BlockStepShape(st0: BlockState, line: string, syn: Syntax)
    ensures var st := BlockStep(st0, line, syn);
      && st.out == st0.out + st.out[|st0.out|..]
      && Related([line], st.out[|st0.out|..], syn)
      && st.changes == st0.changes + DiffCount([line], st.out[|st0.out|..])
  {
    var st := BlockStep(st0, line, syn);
    var tail := st.out[|st0.out|..];
    assert tail == [st.out[|st0.out|]];
    assert DiffCount([line], tail) == DiffCount([], []) + (if line != tail[0] then 1 else 0);
  }

  /** Related lines and their count extend by one related line. */
  lemma ShapeAppend(lines: seq<string>, init: seq<string>, line: string, out0: seq<string>, tail: seq<string>,
                    c0: nat, c: nat, syn: Syntax)
    requires lines == init + [line]
    requires Related(init, out0, syn) && c0 == DiffCount(init, out0)
    requires Related([line], tail, syn) && c == c0 + DiffCount([line], tail)
    ensures Related(lines, out0 + tail, syn) && c == DiffCount(lines, out0 + tail)
  {
    RelatedAppend(init, out0, [line], tail, syn);
    DiffCountAppend(init, out0, [line], tail);
  }

  /** The emitted lines of a prefix are a prefix of the emitted lines. */
  lemma {:induction false} BlockOutPrefix(lines: seq<string>, syn: Syntax, k: nat)
    requires k <= |lines|
    ensures BlockRun(lines[..k], syn).out == BlockRun(lines, syn).out[..k]
  {
    BlockRunShape(lines, syn);
    if k < |lines| {
      var init := lines[..|lines| - 1];
      BlockOutPrefix(init, syn, k);
      BlockRunShape(init, syn);
      assert init[..k] == lines[..k];
    } else {
      assert lines[..k] == lines;
    }
  }

  /** The stroke region is open at line k when it was open after the lines
      before it or the line itself opens one. */
  predicate InStroke(lines: seq<string>, syn: Syntax, k: nat)
    requires k < |lines|
  {
    BlockRun(lines[..k], syn).inStroke || syn.strokeStart(lines[k])
  }

  /** Only lines inside a stroke region are rewritten, and inside one every
      width line is. */
  lemma BlockLine(lines: seq<string>, syn: Syntax, k: nat)
    requires k < |lines|
    ensures BlockRun(lines, syn).out[k] == if InStroke(lines, syn, k) then syn.rewrite(lines[k]) else lines[k]
  {
    var pre := lines[..k + 1];
    BlockOutPrefix(lines, syn, k + 1);
    assert pre[..k] == lines[..k] && pre[k] == lines[k];
    var st := BlockRun(lines[..k], syn);
    assert BlockRun(pre, syn) == BlockStep(st, lines[k], syn);
    StepEmits(st, lines[k], syn);
  }

  lemma StepEmits(st: BlockState, line: string, syn: Syntax)
    ensures BlockStep(st, line, syn).out[|st.out|] ==
      if st.inStroke || syn.strokeStart(line) then syn.rewrite(line) else line
  {
  }

  /** update_gr_block, for a block with an Edge.Cuts line: line k of the result
      is line k rewritten exactly when a stroke region is open at it; the count
      is the number of lines that changed. A block without one is unchanged. */
  lemma GrBlockSpec(lines: seq<string>, syn: Syntax)
    ensures !AnyEdgeCuts(lines, syn) ==> GrBlock(lines, syn) == (lines, 0)
    ensures AnyEdgeCuts(lines, syn) ==>
      forall k | 0 <= k < |lines| ::
        GrBlock(lines, syn).0[k] == if InStroke(lines, syn, k) then syn.rewrite(lines[k]) else lines[k]
  {
    if AnyEdgeCuts(lines, syn) {
      forall k | 0 <= k < |lines|
        ensures GrBlock(lines, syn).0[k] == if InStroke(lines, syn, k) then syn.rewrite(lines[k]) else lines[k]
      {
        BlockLine(lines, syn, k);
      }
    }
  }

  /** Running the pass over its own output changes nothing: the emitted lines
      are classified as the input lines were, so the regions are the same, and
      a rewritten line rewrites to itself. */
  lemma {:induction false} BlockIdempotent(lines: seq<string>, syn: Syntax)
    requires Stable(syn)
    ensures var st := BlockRun(lines, syn);
      BlockRun(st.out, syn) == st.(changes := 0)
  {
    if lines != [] {
      var n := |lines|;
      var init, line := lines[..n - 1], lines[n - 1];
      var st0 := BlockRun(init, syn);
      var st := BlockRun(lines, syn);
      BlockRunShape(init, syn);
      BlockIdempotent(init, syn);
      assert st.out[..n - 1] == st0.out;
      StepOnEmitted(st0, line, syn);
    }
  }

  /** One step of the pass, repeated on the line it emitted, emits the same
      line and reaches the same state without a change. */
  lemma StepOnEmitted(st0: BlockState, line: string, syn: Syntax)
    requires Stable(syn)
    ensures var st := BlockStep(st0, line, syn);
      BlockStep(st0.(changes := 0), st.out[|st.out| - 1], syn) == st.(changes := 0)
  {
    assert Settled(syn, line);
  }

  lemma GrBlockIdempotent(lines: seq<string>, syn: Syntax)
    requires Stable(syn)
    ensures GrBlock(GrBlock(lines, syn).0, syn) == (GrBlock(lines, syn).0, 0)
  {
    var out := GrBlock(lines, syn).0;
    if AnyEdgeCuts(lines, syn) {
      var k :| 0 <= k < |lines| && syn.edgeCuts(lines[k]);
      GrBlockShape(lines, syn);
      assert Settled(syn, lines[k]);
      assert syn.edgeCuts(out[k]);
      BlockIdempotent(lines, syn);
    }
  }

  /** update_gr_block as written: a pass over the lines with the stroke state
      in local variables. */
  method UpdateGrBlock(lines: seq<string>, w: string) returns (out: seq<string>, changes: nat)
    ensures (out, changes) == GrBlock(lines, WidthSyntax(w))
  {
    if !AnyEdgeCuts(lines, WidthSyntax(w)) {
      return lines, 0;
    }
    out, changes := [], 0;
    var depth, inStroke, start := 0, false, 0;
    var k := 0;
    while k < |lines|
      invariant k <= |lines|
      invariant BlockState(out, changes, depth, inStroke, start) == BlockRun(lines[..k], WidthSyntax(w))
    {
      out, changes, depth, inStroke, start := StrokeLine(out, changes, depth, inStroke, start, lines[k], w);
      BlockRunStep(lines, WidthSyntax(w), k);
      k := k + 1;
    }
    TakeAll(lines);
  }

  /** The pass over one more line is one more step. */
  lemma BlockRunStep(lines: seq<string>, syn: Syntax, k: nat)
    requires k < |lines|
    ensures BlockRun(lines[..k + 1], syn) == BlockStep(BlockRun(lines[..k], syn), lines[k], syn)
  {
    assert lines[..k + 1][..k] == lines[..k];
  }

  /** The body of update_gr_block's loop, for one line. */
  method StrokeLine(out: seq<string>, changes: nat, depth: int, inStroke: bool, start: int, line: string, w: string)
    returns (out': seq<string>, changes': nat, depth': int, inStroke': bool, start': int)
    ensures BlockState(out', changes', depth', inStroke', start')
         == BlockStep(BlockState(out, changes, depth, inStroke, start), line, WidthSyntax(w))
  {
    var opens := !inStroke && HasStrokeStart(line);
    start' := if opens then depth else start;
    var emitted, changed := EmitLine(line, w, inStroke || opens);
    out', changes', depth', inStroke' :=
      AdvanceLine(out, changes, depth, inStroke || opens, start', line, emitted, changed);
  }

  /** The line the loop body emits: inside a stroke region the width line
      rewrite, elsewhere the line itself; and whether it differs. */
  method EmitLine(line: string, w: string, inStroke: bool) returns (emitted: string, changed: bool)
    ensures emitted == Emitted(line, WidthSyntax(w), inStroke)
    ensures changed <==> emitted != line
  {
    emitted, changed := line, false;
    if inStroke {
      emitted, changed := RewriteWidth(line, w);
    }
  }

  /** The end of the loop body: emit the line, count a change, move the depth
      and close the region at or below its opening depth. */
  method AdvanceLine(out: seq<string>, changes: nat, depth: int, inStroke: bool, start: int,
                     line: string, emitted: string, changed: bool)
    returns (out': seq<string>, changes': nat, depth': int, inStroke': bool)
    requires changed <==> emitted != line
    ensures BlockState(out', changes', depth', inStroke', start)
         == Advance(out, changes, depth, inStroke, start, line, emitted)
  {
    changes' := if changed then changes + 1 else changes;
    out' := out + [emitted];
    depth' := depth + ParenDelta(emitted);
    inStroke' := inStroke;
    if inStroke && depth' <= start {
      inStroke' := false;
    }
  }

  /** The width line rewrite of the loop body: the line with the width text
      in place of its number when it is a width line; whether it changed. */
  method RewriteWidth(line: string, w: string) returns (emitted: string, changed: bool)
    ensures emitted == Rewrite(line, w)
    ensures changed <==> emitted != line
  {
    emitted, changed := line, false;
    var m := MatchWidth(line);
    if m.Some? {
      var newLine := m.value.prefix + w + m.value.suffix;
      if newLine != line {
        emitted, changed := newLine, true;
      }
    }
  }

  // ---------------------------------------------------------------------
  // update_file: finding the gr_* blocks

  /** The loop state of update_file: the lines emitted so far, the change
      count, the running depth, whether a gr_* block is open, the depth at
      which it opened and its lines so far. */
  datatype FileState = FileState(out: seq<string>, changes: nat, depth: int,
                                 inBlock: bool, blockStart: int, block: seq<string>)

  /** One line of update_file: a gr_* start opens a block, a line inside a
      block is collected, any other line is copied; the depth moves by the
      line's balance, and a block closes, and is passed through
      update_gr_block, exactly when the depth is back at its opening depth. */
  function FileStep(st: FileState, line: string, syn: Syntax): FileState
  {
    var st1 :=
      if !st.inBlock && syn.grStart(line) then st.(inBlock := true, blockStart := st.depth, block := [line])
      else if st.inBlock then st.(block := st.block + [line])
      else st.(out := st.out + [line]);
    var depth := st.depth + ParenDelta(line);
    if st1.inBlock && depth == st1.blockStart then
      var r := GrBlock(st1.block, syn);
      FileState(st1.out + r.0, st1.changes + r.1, depth, false, st1.blockStart, [])
    else st1.(depth := depth)
  }

  function FileRun(lines: seq<string>, syn: Syntax): FileState
  {
    if lines == [] then FileState([], 0, 0, false, 0, [])
    else FileStep(FileRun(lines[..|lines| - 1], syn), lines[|lines| - 1], syn)
  }

  /** The result of update_file: the new lines and the change count, or the
      ValueError raised for a gr_* block still open at the end. */
  datatype Outcome = Updated(lines: seq<string>, changes: nat) | UnclosedBlock

  function UpdatedFile(lines: seq<string>, syn: Syntax): Outcome
  {
    var st := FileRun(lines, syn);
    if st.inBlock then UnclosedBlock else Updated(st.out, st.changes)
  }

  /** update_file as written: one pass over the lines, collecting each gr_*
      block and passing it through update_gr_block when it closes; an
      unclosed block at the end is an error. */
  method UpdateFile(contents: seq<string>, w: string) returns (res: Outcome)
    ensures res == UpdatedFile(contents, WidthSyntax(w))
  {
    var out, changes := [], 0;
    var depth, inBlock, blockStart, block := 0, false, 0, [];
    var k := 0;
    while k < |contents|
      invariant k <= |contents|
      invariant FileState(out, changes, depth, inBlock, blockStart, block) == FileRun(contents[..k], WidthSyntax(w))
    {
      out, changes, depth, inBlock, blockStart, block :=
        FileLine(out, changes, depth, inBlock, blockStart, block, contents[k], w);
      RunStep(contents, WidthSyntax(w), k);
      k := k + 1;
    }
    TakeAll(contents);
    if inBlock {
      return UnclosedBlock;
    }
    return Updated(out, changes);
  }

  /** The body of update_file's loop, for one line. */
  method FileLine(out: seq<string>, changes: nat, depth: int, inBlock: bool, blockStart: int,
                  block: seq<string>, line: string, w: string)
    returns (out': seq<string>, changes': nat, depth': int, inBlock': bool, blockStart': int,
             block': seq<string>)
    ensures FileState(out', changes', depth', inBlock', blockStart', block')
         == FileStep(FileState(out, changes, depth, inBlock, blockStart, block), line, WidthSyntax(w))
  {
    out', changes', inBlock', blockStart', block' := out, changes, inBlock, blockStart, block;
    if !inBlock && IsGrStart(line) {
      inBlock', blockStart', block' := true, depth, [line];
    } else if inBlock {
      block' := block + [line];
    } else {
      out' := out + [line];
    }
    depth' := depth + ParenDelta(line);
    if inBlock' && depth' == blockStart' {
      inBlock' := false;
      out', changes' := FlushBlock(out', changes', block', w);
      block' := [];
    }
  }

  /** The flush_block closure: the collected block, passed through
      update_gr_block, is appended to the output and its changes counted. */
  method FlushBlock(out: seq<string>, changes: nat, block: seq<string>, w: string)
    returns (out': seq<string>, changes': nat)
    ensures out' == out + GrBlock(block, WidthSyntax(w)).0 && changes' == changes + GrBlock(block, WidthSyntax(w)).1
  {
    var updated, blockChanges := UpdateGrBlock(block, w);
    out', changes' := out + updated, changes + blockChanges;
  }

  lemma {:induction false} RelatedAppend(a1: seq<string>, b1: seq<string>, a2: seq<string>, b2: seq<string>, syn: Syntax)
    requires Related(a1, b1, syn) && Related(a2, b2, syn)
    ensures Related(a1 + a2, b1 + b2, syn)
  {
    forall j | 0 <= j < |a1| + |a2|
      ensures (b1 + b2)[j] == (a1 + a2)[j] || (b1 + b2)[j] == syn.rewrite((a1 + a2)[j])
    {
      if j >= |a1| {
        assert (b1 + b2)[j] == b2[j - |a1|] && (a1 + a2)[j] == a2[j - |a1|];
      }
    }
  }

  lemma {:induction false} DiffCountAppend(a1: seq<string>, b1: seq<string>, a2: seq<string>, b2: seq<string>)
    requires |a1| == |b1| && |a2| == |b2|
    ensures DiffCount(a1 + a2, b1 + b2) == DiffCount(a1, b1) + DiffCount(a2, b2)
    decreases |a2|
  {
    if a2 == [] {
      assert a1 + a2 == a1 && b1 + b2 == b1;
    } else {
      var n := |a2|;
      DiffCountAppend(a1, b1, a2[..n - 1], b2[..n - 1]);
      assert (a1 + a2)[..|a1| + n - 1] == a1 + a2[..n - 1];
      assert (b1 + b2)[..|b1| + n - 1] == b1 + b2[..n - 1];
    }
  }

  /** Emitting a related piece for lines[p..n] after a related output for
      lines[..p] gives a related output for lines[..n], the counts adding up. */
  lemma Extend(lines: seq<string>, p: nat, n: nat, out: seq<string>, piece: seq<string>, syn: Syntax)
    requires p <= n <= |lines|
    requires Related(lines[..p], out, syn) && Related(lines[p..n], piece, syn)
    ensures Related(lines[..n], out + piece, syn)
    ensures DiffCount(lines[..n], out + piece) == DiffCount(lines[..p], out) + DiffCount(lines[p..n], piece)
  {
    PrefixSplit(lines, p, n);
    RelatedAppend(lines[..p], out, lines[p..n], piece, syn);
    DiffCountAppend(lines[..p], out, lines[p..n], piece);
  }

  /** The state of update_file: the output covers a prefix of the input, to
      which it is related, the change count is the number of lines that differ,
      and the open block holds the rest of the input; with no open block the
      output covers all of it. */
  predicate FileShape(lines: seq<string>, st: FileState, syn: Syntax)
  {
    && |st.out| <= |lines|
    && st.block == lines[|st.out|..]
    && Related(lines[..|st.out|], st.out, syn)
    && st.changes == DiffCount(lines[..|st.out|], st.out)
    && (!st.inBlock ==> |st.out| == |lines|)
  }

  lemma {:induction false} FileRunShape(lines: seq<string>, syn: Syntax)
    ensures FileShape(lines, FileRun(lines, syn), syn)
  {
    if lines != [] {
      var n := |lines|;
      var init, line := lines[..n - 1], lines[n - 1];
      FileRunShape(init, syn);
      StepShape(lines, FileRun(init, syn), syn);
    }
  }

  lemma StepShape(lines: seq<string>, st0: FileState, syn: Syntax)
    requires lines != []
    requires FileShape(lines[..|lines| - 1], st0, syn)
    ensures FileShape(lines, FileStep(st0, lines[|lines| - 1], syn), syn)
  {
    var n := |lines|;
    var line := lines[n - 1];
    var depth := st0.depth + ParenDelta(line);
    if !st0.inBlock && syn.grStart(line) {
      var st1 := st0.(inBlock := true, blockStart := st0.depth, block := [line]);
      BlockShape(lines, st0, syn);
      if depth == st1.blockStart {
        FlushShape(lines, st1, depth, syn);
      }
    } else if st0.inBlock {
      var st1 := st0.(block := st0.block + [line]);
      BlockShape(lines, st0, syn);
      if depth == st1.blockStart {
        FlushShape(lines, st1, depth, syn);
      }
    } else {
      CopyShape(lines, st0, depth, syn);
    }
  }

  /** After its last line joins the open block (or opens one), the block holds
      the rest of the input. */
  lemma BlockShape(lines: seq<string>, st0: FileState, syn: Syntax)
    requires lines != []
    requires FileShape(lines[..|lines| - 1], st0, syn)
    requires st0.inBlock || syn.grStart(lines[|lines| - 1])
    ensures var line := lines[|lines| - 1];
      var block := if st0.inBlock then st0.block + [line] else [line];
      && |st0.out| <= |lines| && block == lines[|st0.out|..]
      && Related(lines[..|st0.out|], st0.out, syn)
      && st0.changes == DiffCount(lines[..|st0.out|], st0.out)
  {
    InitSlices(lines, |st0.out|);
  }

  /** Closing a block that holds the rest of the input. */
  lemma FlushShape(lines: seq<string>, st1: FileState, depth: int, syn: Syntax)
    requires |st1.out| <= |lines| && st1.block == lines[|st1.out|..]
    requires Related(lines[..|st1.out|], st1.out, syn) && st1.changes == DiffCount(lines[..|st1.out|], st1.out)
    ensures var r := GrBlock(st1.block, syn);
      FileShape(lines, FileState(st1.out + r.0, st1.changes + r.1, depth, false, st1.blockStart, []), syn)
  {
    var r := GrBlock(st1.block, syn);
    GrBlockShape(st1.block, syn);
    Extend(lines, |st1.out|, |lines|, st1.out, r.0, syn);
    assert lines[..|lines|] == lines;
  }

  /** Copying the last input line after an output that covers the others. */
  lemma CopyShape(lines: seq<string>, st0: FileState, depth: int, syn: Syntax)
    requires lines != []
    requires FileShape(lines[..|lines| - 1], st0, syn) && !st0.inBlock
    ensures FileShape(lines, st0.(out := st0.out + [lines[|lines| - 1]], depth := depth), syn)
  {
    var p := |st0.out|;
    InitSlices(lines, p);
    assert lines[p..p + 1] == [lines[p]];
    DiffCountZero([lines[p]], [lines[p]]);
    Extend(lines, p, p + 1, st0.out, [lines[p]], syn);
    assert lines[..p + 1] == lines;
  }

  /** update_file succeeds with one output line per input line, each the input
      line or its rewrite, and counts the lines that differ. */
  lemma UpdatedFileSpec(lines: seq<string>, syn: Syntax)
    ensures UpdatedFile(lines, syn).Updated? ==>
      var o := UpdatedFile(lines, syn);
      Related(lines, o.lines, syn) && o.changes == DiffCount(lines, o.lines)
  {
    FileRunShape(lines, syn);
    assert lines[..|lines|] == lines;
  }

  // ---------------------------------------------------------------------
  // update_file: further properties

  /** A step of update_file only appends to the output. */
  lemma StepExtends(st0: FileState, line: string, syn: Syntax)
    ensures var st := FileStep(st0, line, syn);
      |st0.out| <= |st.out| && st.out[..|st0.out|] == st0.out
  {
  }

  /** The output after a prefix of the input is a prefix of the output. */
  lemma {:induction false} FileOutPrefix(lines: seq<string>, syn: Syntax, k: nat)
    requires k <= |lines|
    ensures var a, b := FileRun(lines[..k], syn).out, FileRun(lines, syn).out;
      |a| <= |b| && b[..|a|] == a
  {
    if k < |lines| {
      var n := |lines|;
      var init := lines[..n - 1];
      FileOutPrefix(init, syn, k);
      assert init[..k] == lines[..k];
      StepExtends(FileRun(init, syn), lines[n - 1], syn);
      var a, b0, b := FileRun(lines[..k], syn).out, FileRun(init, syn).out, FileRun(lines, syn).out;
      assert b[..|a|] == b[..|b0|][..|a|];
    } else {
      assert lines[..k] == lines;
    }
  }

  /** Lines outside every gr_* block are copied unchanged: a line read while
      no block is open that does not start one is output as it is. */
  lemma OutsideUnchanged(lines: seq<string>, syn: Syntax, k: nat)
    requires k < |lines| && UpdatedFile(lines, syn).Updated?
    requires !FileRun(lines[..k], syn).inBlock && !syn.grStart(lines[k])
    ensures |UpdatedFile(lines, syn).lines| == |lines| && UpdatedFile(lines, syn).lines[k] == lines[k]
  {
    var f := FileRun(lines[..k], syn);
    UpdatedFileSpec(lines, syn);
    FileRunShape(lines[..k], syn);
    RunStep(lines, syn, k);
    CopyStep(f, lines[k], syn);
    FileOutPrefix(lines, syn, k + 1);
    var a1, o := FileRun(lines[..k + 1], syn).out, FileRun(lines, syn).out;
    assert a1[k] == lines[k];
    assert o[..|a1|][k] == o[k];
  }

  /** The bracket balance of a sequence of lines. */
  function Balance(lines: seq<string>): int
  {
    if lines == [] then 0 else Balance(lines[..|lines| - 1]) + ParenDelta(lines[|lines| - 1])
  }

  /** global_depth is the bracket balance of the lines read so far. */
  lemma {:induction false} FileDepth(lines: seq<string>, syn: Syntax)
    ensures FileRun(lines, syn).depth == Balance(lines)
  {
    if lines != [] {
      FileDepth(lines[..|lines| - 1], syn);
    }
  }

  /** local_depth is the bracket balance of the emitted lines, which is that
      of the input lines when the width text has no parenthesis. */
  lemma {:induction false} BlockDepth(lines: seq<string>, syn: Syntax)
    requires Stable(syn)
    ensures BlockRun(lines, syn).depth == Balance(BlockRun(lines, syn).out) == Balance(lines)
  {
    if lines != [] {
      var n := |lines|;
      var st0 := BlockRun(lines[..n - 1], syn);
      var st := BlockRun(lines, syn);
      BlockDepth(lines[..n - 1], syn);
      BlockStepShape(st0, lines[n - 1], syn);
      assert Settled(syn, lines[n - 1]);
      assert st.out[..n - 1] == st0.out;
    }
  }

  // ---------------------------------------------------------------------
  // update_file run on its own output

  /** The state of a pass over the output, given the state f of the pass over
      the input and the output lines gb of f's open block: same depths and
      block, no change counted. */
  function Replay(f: FileState, gb: seq<string>): FileState
  {
    FileState(f.out, 0, f.depth, f.inBlock, f.blockStart, gb)
  }

  /** An output line is classified as its input line was. */
  lemma SameClass(l: string, o: string, syn: Syntax)
    requires Stable(syn)
    requires o == l || o == syn.rewrite(l)
    ensures syn.grStart(o) == syn.grStart(l) && ParenDelta(o) == ParenDelta(l)
  {
    assert Settled(syn, l);
  }

  /** One step of the pass over the output, against the same step over the
      input: rest is what the input step appended to the output, a prefix of
      the output lines of the block. */
  lemma StepOnOutput(f: FileState, l: string, o: string, gb: seq<string>, rest: seq<string>, syn: Syntax)
    requires Stable(syn)
    requires o == l || o == syn.rewrite(l)
    requires (f.inBlock || gb == []) && |gb| == |f.block|
    requires FileStep(f, l, syn).out == f.out + rest && |rest| <= |gb| + 1
    requires rest == (gb + [o])[..|rest|]
    ensures FileStep(Replay(f, gb), o, syn) == Replay(FileStep(f, l, syn), (gb + [o])[|rest|..])
  {
    SameClass(l, o, syn);
    if !f.inBlock && !syn.grStart(l) {
      CopyOnOutput(f, l, o, rest, syn);
      CopyStep(f, l, syn);
      CopyStep(Replay(f, gb), o, syn);
    } else {
      JoinOnOutput(f, l, o, gb, rest, syn);
    }
  }

  /** The replay step for a line that joins a block. */
  lemma JoinOnOutput(f: FileState, l: string, o: string, gb: seq<string>, rest: seq<string>, syn: Syntax)
    requires Stable(syn)
    requires f.inBlock || syn.grStart(l)
    requires ParenDelta(o) == ParenDelta(l) && syn.grStart(o) == syn.grStart(l)
    requires (f.inBlock || gb == []) && |gb| == |f.block|
    requires FileStep(f, l, syn).out == f.out + rest && |rest| <= |gb| + 1
    requires rest == (gb + [o])[..|rest|]
    ensures FileStep(Replay(f, gb), o, syn) == Replay(FileStep(f, l, syn), (gb + [o])[|rest|..])
  {
    var fb := if f.inBlock then f.block + [l] else [l];
    var depth := f.depth + ParenDelta(l);
    var start := if f.inBlock then f.blockStart else f.depth;
    JoinStep(f, l, syn);
    JoinStep(Replay(f, gb), o, syn);
    if depth == start {
      GrBlockShape(fb, syn);
      AppendCancel(f.out, rest, GrBlock(fb, syn).0);
      FlushOnOutput(fb, gb + [o], rest, syn);
      assert (gb + [o])[|rest|..] == [];
    } else {
      assert (gb + [o])[|rest|..] == gb + [o];
    }
  }

  /** A line read outside a block that does not open one is copied. */
  lemma CopyStep(st: FileState, line: string, syn: Syntax)
    requires !st.inBlock && !syn.grStart(line)
    ensures FileStep(st, line, syn) == st.(out := st.out + [line], depth := st.depth + ParenDelta(line))
  {
  }

  /** A line that opens a block or is read inside one joins the block, which
      is flushed when the depth is back at its opening depth. */
  lemma JoinStep(st: FileState, line: string, syn: Syntax)
    requires st.inBlock || syn.grStart(line)
    ensures var block := if st.inBlock then st.block + [line] else [line];
      var start := if st.inBlock then st.blockStart else st.depth;
      var depth := st.depth + ParenDelta(line);
      FileStep(st, line, syn) ==
        if depth == start then
          FileState(st.out + GrBlock(block, syn).0, st.changes + GrBlock(block, syn).1, depth, false, start, [])
        else FileState(st.out, st.changes, depth, true, start, block)
  {
  }

  lemma CopyOnOutput(f: FileState, l: string, o: string, rest: seq<string>, syn: Syntax)
    requires !f.inBlock && !syn.grStart(l)
    requires FileStep(f, l, syn).out == f.out + rest && rest == [o][..|rest|]
    ensures rest == [o] && o == l
  {
    CopyStep(f, l, syn);
    AppendCancel(f.out, rest, [l]);
  }

  lemma FlushOnOutput(fb: seq<string>, ob: seq<string>, rest: seq<string>, syn: Syntax)
    requires Stable(syn)
    requires rest == GrBlock(fb, syn).0 && |ob| == |fb| && rest == ob[..|rest|]
    ensures rest == ob && GrBlock(ob, syn) == (ob, 0)
  {
    GrBlockShape(fb, syn);
    GrBlockIdempotent(fb, syn);
  }

  /** After k lines, the pass over the output O is the replay of the pass over
      the input: same output so far, no change, same depths, and its open
      block holds the output lines of the input's open block. */
  predicate IdemAt(lines: seq<string>, o: seq<string>, syn: Syntax, k: nat)
    requires k <= |lines| == |o|
  {
    var f := FileRun(lines[..k], syn);
    |f.out| <= k && FileRun(o[..k], syn) == Replay(f, o[|f.out|..k])
  }

  lemma IdemStep(lines: seq<string>, o: seq<string>, syn: Syntax, k: nat)
    requires Stable(syn)
    requires k < |lines| && o == FileRun(lines, syn).out && |o| == |lines| && Related(lines, o, syn)
    requires IdemAt(lines, o, syn, k)
    ensures IdemAt(lines, o, syn, k + 1)
  {
    var f, f1 := FileRun(lines[..k], syn), FileRun(lines[..k + 1], syn);
    ReplayFacts(lines, o, syn, k);
    RunStep(o, syn, k);
    var p := |f.out|;
    assert o[k] == lines[k] || o[k] == syn.rewrite(lines[k]);
    IdemCore(f, f1, FileRun(o[..k], syn), FileRun(o[..k + 1], syn), lines[k], o[k],
             o[p..k], f1.out[p..], o[|f1.out|..k + 1], syn);
  }

  /** The replay step on states: g replays f, and one step on each keeps it so. */
  lemma IdemCore(f: FileState, f1: FileState, g: FileState, g1: FileState, l: string, ol: string,
                 gb: seq<string>, rest: seq<string>, block: seq<string>, syn: Syntax)
    requires Stable(syn)
    requires f1 == FileStep(f, l, syn) && g1 == FileStep(g, ol, syn) && g == Replay(f, gb)
    requires ol == l || ol == syn.rewrite(l)
    requires (f.inBlock || gb == []) && |gb| == |f.block|
    requires f1.out == f.out + rest && |rest| <= |gb| + 1
    requires rest == (gb + [ol])[..|rest|] && block == (gb + [ol])[|rest|..]
    ensures g1 == Replay(f1, block)
  {
    StepOnOutput(f, l, ol, gb, rest, syn);
  }

  /** What the replay step needs to know about the two passes after k lines:
      how the output after k + 1 lines extends the output after k, and how
      both sit in the final output o. */
  lemma ReplayFacts(lines: seq<string>, o: seq<string>, syn: Syntax, k: nat)
    requires k < |lines| && o == FileRun(lines, syn).out && |o| == |lines|
    ensures var f, f1 := FileRun(lines[..k], syn), FileRun(lines[..k + 1], syn);
      var p := |f.out|;
      && p <= k && p <= |f1.out| <= k + 1
      && f1 == FileStep(f, lines[k], syn)
      && (f.inBlock || o[p..k] == [])
      && |o[p..k]| == |f.block|
      && f1.out == f.out + f1.out[p..]
      && |f1.out[p..]| <= |o[p..k]| + 1
      && f1.out[p..] == (o[p..k] + [o[k]])[..|f1.out[p..]|]
      && o[|f1.out|..k + 1] == (o[p..k] + [o[k]])[|f1.out[p..]|..]
  {
    var f, f1 := FileRun(lines[..k], syn), FileRun(lines[..k + 1], syn);
    OutputsInO(lines, o, syn, k);
    ReplaySlices(o, f.out, f1.out, k);
  }

  /** The outputs after k and k + 1 lines are prefixes of o, the second
      extending the first. */
  lemma OutputsInO(lines: seq<string>, o: seq<string>, syn: Syntax, k: nat)
    requires k < |lines| && o == FileRun(lines, syn).out && |o| == |lines|
    ensures var f, f1 := FileRun(lines[..k], syn), FileRun(lines[..k + 1], syn);
      && f1 == FileStep(f, lines[k], syn)
      && |f.out| + |f.block| == k && (!f.inBlock ==> |f.out| == k)
      && |f.out| <= |f1.out| <= k + 1
      && o[..|f.out|] == f.out && o[..|f1.out|] == f1.out && f1.out[..|f.out|] == f.out
  {
    var f := FileRun(lines[..k], syn);
    RunStep(lines, syn, k);
    FileRunLengths(lines[..k], syn);
    FileRunLengths(lines[..k + 1], syn);
    FileOutPrefix(lines, syn, k);
    FileOutPrefix(lines, syn, k + 1);
    StepExtends(f, lines[k], syn);
  }

  /** The output and the open block together account for every line read. */
  lemma FileRunLengths(lines: seq<string>, syn: Syntax)
    ensures var st := FileRun(lines, syn);
      && |st.out| + |st.block| == |lines|
      && (!st.inBlock ==> |st.out| == |lines|)
  {
    FileRunShape(lines, syn);
  }

  /** The pass over one more line is one more step. */
  lemma RunStep(lines: seq<string>, syn: Syntax, k: nat)
    requires k < |lines|
    ensures FileRun(lines[..k + 1], syn) == FileStep(FileRun(lines[..k], syn), lines[k], syn)
  {
    assert lines[..k + 1][..k] == lines[..k];
  }

  /** The slices of the output that the replay step works on. */
  lemma ReplaySlices(o: seq<string>, a: seq<string>, a1: seq<string>, k: nat)
    requires |a| <= k && |a| <= |a1| <= k + 1 <= |o|
    requires o[..|a|] == a && o[..|a1|] == a1 && a1[..|a|] == a
    ensures a1 == a + a1[|a|..]
    ensures |a| == k ==> o[|a|..k] == []
    ensures var gb, rest := o[|a|..k], a1[|a|..];
      && |rest| <= |gb| + 1
      && rest == (gb + [o[k]])[..|rest|]
      && (gb + [o[k]])[|rest|..] == o[|a1|..k + 1]
  {
    var gb, rest := o[|a|..k], a1[|a|..];
    assert gb + [o[k]] == o[|a|..k + 1];
  }

  lemma {:induction false} FileIdemPrefix(lines: seq<string>, o: seq<string>, syn: Syntax, k: nat)
    requires Stable(syn)
    requires k <= |lines| && o == FileRun(lines, syn).out && |o| == |lines| && Related(lines, o, syn)
    ensures IdemAt(lines, o, syn, k)
  {
    if k > 0 {
      FileIdemPrefix(lines, o, syn, k - 1);
      IdemStep(lines, o, syn, k - 1);
    }
  }

  /** Running update_file on its own output with the same width text changes
      nothing: every block closes where it did, and update_gr_block finds
      nothing to change in it. */
  lemma FileIdempotent(lines: seq<string>, syn: Syntax)
    requires Stable(syn)
    requires UpdatedFile(lines, syn).Updated?
    ensures var o := UpdatedFile(lines, syn).lines;
      UpdatedFile(o, syn) == Updated(o, 0)
  {
    var n, o := |lines|, FileRun(lines, syn).out;
    UpdatedFileSpec(lines, syn);
    FileIdemPrefix(lines, o, syn, n);
    assert lines[..n] == lines && o[..n] == o;
  }

  /** With the tool's syntax: update_file run again on its output, with the
      same width text, reports zero changes and returns the output unchanged. */
  lemma WidthIdempotent(lines: seq<string>, w: string)
    requires WidthText(w)
    requires UpdatedFile(lines, WidthSyntax(w)).Updated?
    ensures var o := UpdatedFile(lines, WidthSyntax(w)).lines;
      UpdatedFile(o, WidthSyntax(w)) == Updated(o, 0)
  {
    WidthStable(w);
    FileIdempotent(lines, WidthSyntax(w));
  }

  /** A gr_* block still open at the end of the input is an error. */
  lemma UnclosedExample(w: string)
    ensures UpdatedFile(["(gr_line"], WidthSyntax(w)) == UnclosedBlock
  {
    var line := "(gr_line";
    var lines: seq<string> := [line];
    var syn := WidthSyntax(w);
    OpenLine();
    var st := FileState([], 0, 0, false, 0, []);
    JoinStep(st, line, syn);
    assert lines[..0] == [];
    assert FileRun(lines, syn) == FileStep(st, line, syn);
  }
}
