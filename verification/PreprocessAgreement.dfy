/** When the parser and the renderer of `!command` blocks agree, and where parsed blocks lie
    (internal/infrastructure/skill/preprocess_parser.go, internal/usecase/skill/preprocess_renderer.go). */
module PreprocessAgreement {
  import opened Text
  import opened Preprocess

  // ---------- blank text ----------

  lemma {:induction false} TrimRightBlank(s: string)
    ensures TrimRight(s) == "" <==> AllSpace(s)
  {
    if s != "" && IsSpace(s[|s| - 1]) {
      TrimRightBlank(s[..|s| - 1]);
      assert AllSpace(s[..|s| - 1]) ==> AllSpace(s);
    }
  }

  lemma {:induction false} TrimBlank(s: string)
    ensures TrimSpace(s) == "" <==> AllSpace(s)
  {
    if s != "" && IsSpace(s[0]) {
      TrimBlank(s[1..]);
      assert AllSpace(s[1..]) ==> forall i :: 1 <= i < |s| ==> s[1..][i - 1] == s[i] && IsSpace(s[i]);
    } else {
      TrimRightBlank(s);
    }
  }

  lemma JoinStartsWithFirst(lines: seq<string>)
    requires lines != []
    ensures lines[0] <= Join(lines, "\n")
  {
  }

  /** The command of a block that has lines is never the empty command. */
  lemma CommandNotEmpty(lines: seq<string>)
    requires lines != [] && !IsBlank(lines[0])
    ensures CommandText(lines) != ""
  {
    TrimBlank(lines[0]);
    JoinStartsWithFirst(lines);
    var s := Join(lines, "\n");
    TrimBlank(s);
    var i :| 0 <= i < |lines[0]| && !IsSpace(lines[0][i]);
    assert s[i] == lines[0][i];
  }

  // ---------- the shape of parsed segments ----------

  /** The block lies in `all` from line `first` on: a `!command` line, then its non-blank lines. */
  ghost predicate Placed(all: seq<string>, s: Segment) {
    s.Block? ==>
      && s.first + 1 + |s.lines| <= |all|
      && s.marker == all[s.first] && IsCommand(s.marker)
      && s.lines == all[s.first + 1..s.first + 1 + |s.lines|]
      && forall i :: 0 <= i < |s.lines| ==> !IsBlank(s.lines[i]) && !IsCommand(s.lines[i])
  }

  ghost predicate AllPlaced(all: seq<string>, segs: seq<Segment>) {
    forall i :: 0 <= i < |segs| ==> Placed(all, segs[i])
  }

  /** A block just opened at line i. */
  lemma OpenIsPlaced(all: seq<string>, i: nat)
    requires i < |all| && IsCommand(all[i])
    ensures Placed(all, OpenBlock(all[i], [], i).Close(ByEnd))
  {
    assert all[i + 1..i + 1] == [];
  }

  /** A block that takes line i. */
  lemma GrownIsPlaced(all: seq<string>, i: nat, b: OpenBlock)
    requires i < |all| && Placed(all, b.Close(ByEnd)) && b.first + 1 + |b.lines| == i
    requires !IsBlank(all[i]) && !IsCommand(all[i])
    ensures Placed(all, b.(lines := b.lines + [all[i]]).Close(ByEnd))
  {
    hide IsBlank, IsCommand;
    assert all[b.first + 1..i + 1] == all[b.first + 1..i] + [all[i]];
  }

  lemma ClosedIsPlaced(all: seq<string>, b: OpenBlock, ending: Ending, segs: seq<Segment>)
    requires Placed(all, b.Close(ByEnd)) && AllPlaced(all, segs)
    ensures AllPlaced(all, [b.Close(ending)] + segs)
  {
    assert Placed(all, b.Close(ending));
  }

  lemma {:induction false} SegmentsArePlaced(all: seq<string>, i: nat, open: Option<OpenBlock>)
    requires i <= |all|
    requires open.Some? ==> Placed(all, open.value.Close(ByEnd)) && open.value.first + 1 + |open.value.lines| == i
    ensures AllPlaced(all, Parse(all, i, open))
    decreases |all| - i
  {
    hide IsBlank, IsCommand, Placed, OpenBlock.Close;
    if i == |all| {
      if open.Some? {
        assert open.value.Close(ByEnd) == Parse(all, i, open)[0];
      }
    } else if IsCommand(all[i]) {
      var next := Some(OpenBlock(all[i], [], i));
      OpenIsPlaced(all, i);
      SegmentsArePlaced(all, i + 1, next);
      if open.Some? {
        ClosedIsPlaced(all, open.value, ByCommand, Parse(all, i + 1, next));
      }
    } else if open.None? {
      SegmentsArePlaced(all, i + 1, None);
      assert Placed(all, Line(all[i])) by { LineIsPlaced(all, all[i]); }
    } else if IsBlank(all[i]) {
      SegmentsArePlaced(all, i + 1, None);
      ClosedIsPlaced(all, open.value, ByBlank(all[i]), Parse(all, i + 1, None));
    } else {
      GrownIsPlaced(all, i, open.value);
      SegmentsArePlaced(all, i + 1, Some(open.value.(lines := open.value.lines + [all[i]])));
    }
  }

  lemma LineIsPlaced(all: seq<string>, text: string)
    ensures Placed(all, Line(text))
  {
  }

  // ---------- agreement ----------

  /** The two automata treat every block alike: none with lines is cut off by another `!command`, and
      none without lines is ended by a blank line. */
  predicate Agreeable(segs: seq<Segment>) {
    forall i :: 0 <= i < |segs| && segs[i].Block? ==>
      if segs[i].lines != [] then !segs[i].ending.ByCommand? else !segs[i].ending.ByBlank?
  }

  lemma {:induction false} AgreeableAgree(segs: seq<Segment>)
    requires Agreeable(segs)
    ensures Commands(segs) == Executed(segs)
  {
    if segs != [] {
      assert forall i :: 0 <= i < |segs[1..]| ==> segs[1..][i] == segs[i + 1];
      AgreeableAgree(segs[1..]);
      assert Kept(segs[0]) <==> IsRun(segs[0]);
    }
  }

  lemma {:induction false} CommandsNotEmpty(all: seq<string>, segs: seq<Segment>)
    requires AllPlaced(all, segs)
    ensures "" !in Commands(segs)
  {
    if segs != [] {
      assert forall i :: 0 <= i < |segs[1..]| ==> segs[1..][i] == segs[i + 1];
      CommandsNotEmpty(all, segs[1..]);
      if Kept(segs[0]) {
        assert Placed(all, segs[0]);
        CommandNotEmpty(segs[0].lines);
      }
    }
  }

  lemma {:induction false} EmptyBlockRunsEmpty(segs: seq<Segment>, k: nat)
    requires k < |segs| && segs[k].Block? && segs[k].lines == [] && segs[k].ending.ByBlank?
    ensures "" in Executed(segs)
  {
    if k == 0 {
      TrimBlank("");
      assert CommandText([]) == "";
    } else {
      EmptyBlockRunsEmpty(segs[1..], k - 1);
    }
  }

  lemma {:induction false} CutBlockIsMissing(segs: seq<Segment>)
    requires forall i :: 0 <= i < |segs| && segs[i].Block? && segs[i].lines == [] ==> !segs[i].ending.ByBlank?
    ensures |Executed(segs)| <= |Commands(segs)|
    ensures |Executed(segs)| == |Commands(segs)| ==> Agreeable(segs)
  {
    if segs != [] {
      assert forall i :: 0 <= i < |segs[1..]| ==> segs[1..][i] == segs[i + 1];
      CutBlockIsMissing(segs[1..]);
      assert IsRun(segs[0]) ==> Kept(segs[0]);
      if |Executed(segs)| == |Commands(segs)| {
        forall i | 0 <= i < |segs| && segs[i].Block?
          ensures if segs[i].lines != [] then !segs[i].ending.ByCommand? else !segs[i].ending.ByBlank?
        {
          if i > 0 {
            assert segs[1..][i - 1] == segs[i];
          }
        }
      }
    }
  }

  lemma SameSegmentsAgreeIff(all: seq<string>, segs: seq<Segment>)
    requires AllPlaced(all, segs)
    ensures Commands(segs) == Executed(segs) <==> Agreeable(segs)
  {
    if Agreeable(segs) {
      AgreeableAgree(segs);
    } else if exists k :: 0 <= k < |segs| && segs[k].Block? && segs[k].lines == [] && segs[k].ending.ByBlank? {
      var k :| 0 <= k < |segs| && segs[k].Block? && segs[k].lines == [] && segs[k].ending.ByBlank?;
      EmptyBlockRunsEmpty(segs, k);
      CommandsNotEmpty(all, segs);
    } else {
      CutBlockIsMissing(segs);
    }
  }

  /** The extra empty line that Split sees after a final newline changes nothing for the parser. */
  lemma {:induction false} FinalBlankIsNeutral(lines: seq<string>, i: nat, open: Option<OpenBlock>)
    requires i <= |lines|
    ensures Commands(Parse(lines + [""], i, open)) == Commands(Parse(lines, i, open))
    decreases |lines| - i
  {
    var more := lines + [""];
    if i == |lines| {
      TrimBlank("");
      assert IsBlank("") && !IsCommand("");
      match open
      case None =>
        var x: Segment := Line("");
        assert Parse(more, i, open) == [x] && [x][1..] == [];
        assert Commands([x]) == [] + Commands([]);
      case Some(b) =>
        var x, y := b.Close(ByBlank("")), b.Close(ByEnd);
        assert Parse(more, i, open) == [x] && [x][1..] == [];
        assert Parse(lines, i, open) == [y] && [y][1..] == [];
        assert Commands([x]) == (if Kept(x) then [CommandText(x.lines)] else []) + Commands([]);
        assert Commands([y]) == (if Kept(y) then [CommandText(y.lines)] else []) + Commands([]);
    } else {
      var line := lines[i];
      assert more[i] == line;
      if IsCommand(line) {
        FinalBlankIsNeutral(lines, i + 1, Some(OpenBlock(line, [], i)));
        CommandsTail(more, i, open);
        CommandsTail(lines, i, open);
      } else if open.None? || IsBlank(line) {
        FinalBlankIsNeutral(lines, i + 1, None);
        CommandsTail(more, i, open);
        CommandsTail(lines, i, open);
      } else {
        FinalBlankIsNeutral(lines, i + 1, Some(open.value.(lines := open.value.lines + [line])));
      }
    }
  }

  /** Commands of a parse whose first segment ends at line i. */
  lemma CommandsTail(lines: seq<string>, i: nat, open: Option<OpenBlock>)
    requires i < |lines| && (IsCommand(lines[i]) || open.None? || IsBlank(lines[i]))
    ensures var next := if IsCommand(lines[i]) then Some(OpenBlock(lines[i], [], i)) else None;
            Commands(Parse(lines, i, open))
            == (if open.Some? && open.value.lines != [] then [CommandText(open.value.lines)] else [])
               + Commands(Parse(lines, i + 1, next))
  {
    var next := if IsCommand(lines[i]) then Some(OpenBlock(lines[i], [], i)) else None;
    var segs, rest := Parse(lines, i, open), Parse(lines, i + 1, next);
    if open.Some? || !IsCommand(lines[i]) {
      assert segs == [segs[0]] + rest && segs[1..] == rest;
    }
  }

  lemma {:induction false} SplitHasNoCR(content: string)
    requires '\r' !in content
    ensures forall i :: 0 <= i < |Split(content)| ==> '\r' !in Split(content)[i]
  {
    if content != "" {
      SplitHasNoCR(content[1..]);
    }
  }

  lemma ScanIsSplit(content: string)
    requires '\r' !in content
    ensures var lines := Split(content);
            ScanLines(content) == if lines[|lines| - 1] == "" then lines[..|lines| - 1] else lines
  {
    SplitHasNoCR(content);
    var lines := Split(content);
    forall i | 0 <= i < |lines| ensures DropCR(lines[i]) == lines[i] {
      assert lines[i] != "" ==> lines[i][|lines[i]| - 1] in lines[i];
    }
  }

  /** On content without carriage returns the parser's command list is what the renderer executes, in
      order, exactly if every block with lines is ended by a blank line or the end of the input and no
      block without lines is ended by a blank line. */
  lemma ParserMeetsRenderer(content: string)
    requires '\r' !in content
    ensures Commands(Segments(ScanLines(content))) == Executed(Segments(Split(content)))
       <==> Agreeable(Segments(Split(content)))
  {
    var lines := Split(content);
    ScanIsSplit(content);
    if lines[|lines| - 1] == "" {
      var kept := lines[..|lines| - 1];
      assert kept + [""] == lines;
      FinalBlankIsNeutral(kept, 0, None);
    }
    SegmentsArePlaced(lines, 0, None);
    SameSegmentsAgreeIff(lines, Segments(lines));
  }

  // ---------- Parse, and the positions of its blocks ----------

  function BlockCommands(blocks: seq<CommandBlock>): seq<string> {
    if blocks == [] then [] else [blocks[0].command] + BlockCommands(blocks[1..])
  }

  lemma {:induction false} BlocksCarryCommands(all: seq<string>, segs: seq<Segment>)
    requires AllPlaced(all, segs)
    ensures BlockCommands(ParserBlocks(all, segs)) == Commands(segs)
  {
    if segs != [] {
      assert forall i :: 0 <= i < |segs[1..]| ==> segs[1..][i] == segs[i + 1];
      BlocksCarryCommands(all, segs[1..]);
      assert Placed(all, segs[0]);
      if Kept(segs[0]) {
        assert ParserBlocks(all, segs)[1..] == ParserBlocks(all, segs[1..]);
      } else {
        assert ParserBlocks(all, segs) == ParserBlocks(all, segs[1..]);
      }
    }
  }

  /** `Parse`: the commands of the blocks, in order. */
  method ParseCommands(content: string) returns (commands: seq<string>)
    ensures commands == Commands(Segments(ScanLines(content)))
    ensures '\r' !in content && Agreeable(Segments(Split(content))) ==> commands == Executed(Segments(Split(content)))
  {
    var blocks := ParseWithPositions(content);
    commands := [];
    for i := 0 to |blocks|
      invariant commands + BlockCommands(blocks[i..]) == BlockCommands(blocks)
    {
      assert blocks[i..][0] == blocks[i] && blocks[i..][1..] == blocks[i + 1..];
      commands := commands + [blocks[i].command];
    }
    SegmentsArePlaced(ScanLines(content), 0, None);
    BlocksCarryCommands(ScanLines(content), Segments(ScanLines(content)));
    if '\r' !in content {
      ParserMeetsRenderer(content);
    }
  }

  lemma {:induction false} OffsetsGrow(lines: seq<string>, i: nat, j: nat)
    requires i <= j <= |lines|
    ensures Offset(lines, i) + (j - i) <= Offset(lines, j)
    decreases j
  {
    if i < j {
      OffsetsGrow(lines, i, j - 1);
    }
  }

  /** Blocks come after offset `from`, each starts at a `!command` line, ends after it starts, and ends
      no later than the next one starts. */
  ghost predicate InOrder(all: seq<string>, blocks: seq<CommandBlock>, from: nat) {
    blocks != [] ==>
      && from <= blocks[0].startPos < blocks[0].endPos <= Offset(all, |all|)
      && (exists k :: 0 <= k < |all| && IsCommand(all[k]) && blocks[0].startPos == Offset(all, k))
      && InOrder(all, blocks[1..], blocks[0].endPos)
  }

  lemma {:induction false} BlocksInOrder(all: seq<string>, i: nat, open: Option<OpenBlock>, from: nat)
    requires i <= |all|
    requires open.Some? ==> Placed(all, open.value.Close(ByEnd)) && open.value.first + 1 + |open.value.lines| == i
    requires from <= Offset(all, if open.Some? then open.value.first else i)
    ensures InOrder(all, BlocksFrom(all, i, open), from)
    decreases |all| - i
  {
    hide IsCommand, IsBlank, Placed, OpenBlock.Close, InOrder, Offset, BlocksFrom, Saved;
    OffsetsGrow(all, i, |all|);
    if open.Some? {
      PlacedMarker(all, open.value);
      OffsetsGrow(all, open.value.first, i);
    }
    if i == |all| {
      BlocksEnd(all, open);
      NoBlocksInOrder(all, from);
      if open.Some? {
        NoBlocksInOrder(all, Offset(all, i));
        SavedInOrder(all, open.value, i, [], from);
        assert Saved(all, open.value, i) + [] == Saved(all, open.value, i);
      }
    } else {
      BlocksStep(all, i, open);
      OffsetsGrow(all, i, i + 1);
      var line := all[i];
      if IsCommand(line) {
        var next := Some(OpenBlock(line, [], i));
        OpenIsPlaced(all, i);
        var rest := BlocksFrom(all, i + 1, next);
        if open.Some? {
          BlocksInOrder(all, i + 1, next, Offset(all, i));
          SavedInOrder(all, open.value, i, rest, from);
        } else {
          BlocksInOrder(all, i + 1, next, from);
          assert [] + rest == rest;
        }
      } else if open.None? {
        BlocksInOrder(all, i + 1, None, from);
      } else if IsBlank(line) {
        BlocksInOrder(all, i + 1, None, Offset(all, i));
        SavedInOrder(all, open.value, i, BlocksFrom(all, i + 1, None), from);
      } else {
        GrownIsPlaced(all, i, open.value);
        BlocksInOrder(all, i + 1, Some(open.value.(lines := open.value.lines + [line])), from);
      }
    }
  }

  lemma PlacedMarker(all: seq<string>, b: OpenBlock)
    requires Placed(all, b.Close(ByEnd))
    ensures b.first < |all| && IsCommand(all[b.first])
  {
  }

  lemma NoBlocksInOrder(all: seq<string>, from: nat)
    ensures InOrder(all, [], from)
  {
  }

  lemma SavedInOrder(all: seq<string>, b: OpenBlock, i: nat, rest: seq<CommandBlock>, from: nat)
    requires i <= |all| && b.first < i && IsCommand(all[b.first]) && from <= Offset(all, b.first)
    requires InOrder(all, rest, Offset(all, i))
    ensures InOrder(all, Saved(all, b, i) + rest, from)
  {
    OffsetsGrow(all, b.first, i);
    OffsetsGrow(all, i, |all|);
    if b.lines == [] {
      assert [] + rest == rest;
      OrderWeakens(all, rest, Offset(all, i), from);
    } else {
      assert (Saved(all, b, i) + rest)[1..] == rest;
    }
  }

  lemma OrderWeakens(all: seq<string>, blocks: seq<CommandBlock>, from: nat, less: nat)
    requires InOrder(all, blocks, from) && less <= from
    ensures InOrder(all, blocks, less)
  {
  }

  /** The parsed blocks are increasing and disjoint, and each starts at its `!command` line. */
  lemma PositionsInOrder(content: string)
    ensures InOrder(ScanLines(content), ParserBlocks(ScanLines(content), Segments(ScanLines(content))), 0)
  {
    BlocksInOrder(ScanLines(content), 0, None, 0);
  }

  // ---------- positions against the length of the content ----------

  lemma {:induction false} ByteLengthSnoc(s: string, c: char)
    ensures ByteLength(s + [c]) == ByteLength(s) + Utf8Length(c)
  {
    if s == "" {
      assert s + [c] == [c] && [c][1..] == "";
    } else {
      assert (s + [c])[1..] == s[1..] + [c];
      ByteLengthSnoc(s[1..], c);
    }
  }

  lemma {:induction false} OffsetCons(line: string, lines: seq<string>, k: nat)
    requires k <= |lines|
    ensures Offset([line] + lines, k + 1) == ByteLength(line) + 1 + Offset(lines, k)
  {
    if k > 0 {
      OffsetCons(line, lines, k - 1);
      assert ([line] + lines)[k] == lines[k - 1];
    } else {
      assert Offset([line] + lines, 0) == 0;
    }
  }

  lemma {:induction false} SplitOffset(content: string)
    ensures Offset(Split(content), |Split(content)|) == ByteLength(content) + 1
  {
    if content == "" {
      assert Offset([""], 0) == 0;
      assert ByteLength([""][0]) == 0;
    } else {
      SplitOffset(content[1..]);
      var rest := Split(content[1..]);
      OffsetCons(rest[0], rest[1..], |rest| - 1);
      assert rest == [rest[0]] + rest[1..];
      if content[0] == '\n' {
        OffsetCons("", rest, |rest|);
      } else {
        var first := [content[0]] + rest[0];
        assert first[1..] == rest[0];
        OffsetCons(first, rest[1..], |rest| - 1);
      }
    }
  }

  /** The scanner counts a newline after every line, so its positions reach one byte past the content
      exactly if the content does not end in a newline. */
  lemma EndOffset(content: string)
    requires '\r' !in content
    ensures var lines := ScanLines(content);
            Offset(lines, |lines|) == ByteLength(content) + if Split(content)[|Split(content)| - 1] == "" then 0 else 1
  {
    ScanIsSplit(content);
    SplitOffset(content);
    var lines := Split(content);
    var n := |lines| - 1;
    if lines[n] == "" {
      OffsetOfPrefix(lines, n, n);
    }
  }

  lemma {:induction false} OffsetOfPrefix(lines: seq<string>, n: nat, k: nat)
    requires k <= n <= |lines|
    ensures Offset(lines[..n], k) == Offset(lines, k)
    decreases k
  {
    if k > 0 {
      OffsetOfPrefix(lines, n, k - 1);
    }
  }

  // ---------- text outside blocks ----------

  lemma {:induction false} JoinSplit(content: string)
    ensures Join(Split(content), "\n") == content
  {
    if content != "" {
      JoinSplit(content[1..]);
      var rest := Split(content[1..]);
      if content[0] == '\n' {
        assert ([""] + rest)[1..] == rest;
      } else {
        var first := [content[0]] + rest[0];
        assert ([first] + rest[1..])[1..] == rest[1..];
      }
    }
  }

  lemma {:induction false} NoMarkerNoChange(lines: seq<string>, i: nat, n: nat, output: (nat, string) -> string)
    requires i <= |lines| && forall k :: 0 <= k < |lines| ==> !IsCommand(lines[k])
    ensures TextFrom(lines, i, None, n, output) == lines[i..] && RunFrom(lines, i, None) == []
    decreases |lines| - i
  {
    hide IsCommand, TextFrom, RunFrom;
    if i < |lines| {
      RenderStep(lines, i, None, n, output);
      assert lines[i..] == [lines[i]] + lines[i + 1..];
      NoMarkerNoChange(lines, i + 1, n, output);
    } else {
      RenderEnd(lines, None, n, output);
    }
  }

  /** Content without a `!command` line is rendered unchanged. */
  lemma PlainContentUnchanged(content: string, output: (nat, string) -> string)
    requires forall k :: 0 <= k < |Split(content)| ==> !IsCommand(Split(content)[k])
    ensures Join(Rendered(Segments(Split(content)), 0, output), "\n") == content
  {
    RenderAll(Split(content), output);
    NoMarkerNoChange(Split(content), 0, 0, output);
    JoinSplit(content);
  }

  function Outside(segs: seq<Segment>): seq<string> {
    if segs == [] then [] else (if segs[0].Line? then [segs[0].text] else []) + Outside(segs[1..])
  }

  ghost predicate Subsequence(xs: seq<string>, ys: seq<string>)
    decreases |ys|
  {
    xs == [] || (ys != [] && ((xs[0] == ys[0] && Subsequence(xs[1..], ys[1..])) || Subsequence(xs, ys[1..])))
  }

  lemma {:induction false} SubsequenceSkips(xs: seq<string>, front: seq<string>, ys: seq<string>)
    requires Subsequence(xs, ys)
    ensures Subsequence(xs, front + ys)
    decreases |front|
  {
    if front == [] {
      assert front + ys == ys;
    } else {
      assert (front + ys)[1..] == front[1..] + ys;
      SubsequenceSkips(xs, front[1..], ys);
    }
  }

  /** Lines outside blocks survive rendering, in order. */
  lemma {:induction false} OutsideLinesSurvive(segs: seq<Segment>, n: nat, output: (nat, string) -> string)
    ensures Subsequence(Outside(segs), Rendered(segs, n, output))
    decreases |segs|
  {
    if segs != [] {
      var s := segs[0];
      assert !s.Line? ==> Outside(segs) == Outside(segs[1..]);
      if s.Line? {
        OutsideLinesSurvive(segs[1..], n, output);
        assert Outside(segs)[1..] == Outside(segs[1..]);
        assert Rendered(segs, n, output)[1..] == Rendered(segs[1..], n, output);
      } else if IsRun(s) {
        OutsideLinesSurvive(segs[1..], n + 1, output);
        var front := Fence(output(n, CommandText(s.lines))) + (if s.ending.ByBlank? then [""] else []);
        SubsequenceSkips(Outside(segs[1..]), front, Rendered(segs[1..], n + 1, output));
        assert Rendered(segs, n, output) == front + Rendered(segs[1..], n + 1, output);
      } else {
        OutsideLinesSurvive(segs[1..], n, output);
      }
    }
  }
}
