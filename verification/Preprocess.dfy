/** `!command` blocks in a skill body: one grammar, read by two independent line automata, the parser
    (internal/infrastructure/skill/preprocess_parser.go) and the renderer
    (internal/usecase/skill/preprocess_renderer.go). */
module Preprocess {
  import opened Text

  // ---------- lines ----------

  predicate IsCommand(line: string) {
    TrimSpace(line) == "!command"
  }

  predicate IsBlank(line: string) {
    TrimSpace(line) == ""
  }

  /** strings.Split(content, "\n"). */
  function Split(content: string): (lines: seq<string>)
    ensures lines != []
  {
    if content == "" then [""]
    else
      var rest := Split(content[1..]);
      if content[0] == '\n' then [""] + rest else [[content[0]] + rest[0]] + rest[1..]
  }

  function DropCR(line: string): string {
    if line != "" && line[|line| - 1] == '\r' then line[..|line| - 1] else line
  }

  /** The lines of a bufio.Scanner: no empty line after a final newline, one carriage return dropped. */
  function ScanLines(content: string): seq<string> {
    var lines := Split(content);
    var kept := if lines[|lines| - 1] == "" then lines[..|lines| - 1] else lines;
    seq(|kept|, i requires 0 <= i < |kept| => DropCR(kept[i]))
  }

  function Utf8Length(c: char): nat {
    if c < '\U{0080}' then 1 else if c < '\U{0800}' then 2 else if c < '\U{10000}' then 3 else 4
  }

  function ByteLength(s: string): nat {
    if s == "" then 0 else Utf8Length(s[0]) + ByteLength(s[1..])
  }

  /** The byte offset at which line k starts, each line counted with a newline. */
  function Offset(lines: seq<string>, k: nat): nat
    requires k <= |lines|
  {
    if k == 0 then 0 else Offset(lines, k - 1) + ByteLength(lines[k - 1]) + 1
  }

  // ---------- the grammar ----------

  datatype Ending = ByBlank(line: string) | ByCommand | ByEnd

  /** A line outside every block, or a block: its `!command` line, its command lines, what ended it,
      and the index of its first line. */
  datatype Segment =
    | Line(text: string)
    | Block(marker: string, lines: seq<string>, ending: Ending, first: nat)

  datatype OpenBlock = OpenBlock(marker: string, lines: seq<string>, first: nat) {
    function Close(ending: Ending): Segment {
      Block(marker, lines, ending, first)
    }
  }

  /** The segments of `lines` from index i on, inside the block `open` if there is one. */
  function Parse(lines: seq<string>, i: nat, open: Option<OpenBlock>): seq<Segment>
    requires i <= |lines|
    decreases |lines| - i
  {
    if i == |lines| then (match open case None => [] case Some(b) => [b.Close(ByEnd)])
    else
      var line := lines[i];
      match open
      case None =>
        if IsCommand(line) then Parse(lines, i + 1, Some(OpenBlock(line, [], i)))
        else [Line(line)] + Parse(lines, i + 1, None)
      case Some(b) =>
        if IsCommand(line) then [b.Close(ByCommand)] + Parse(lines, i + 1, Some(OpenBlock(line, [], i)))
        else if IsBlank(line) then [b.Close(ByBlank(line))] + Parse(lines, i + 1, None)
        else Parse(lines, i + 1, Some(b.(lines := b.lines + [line])))
  }

  function Segments(lines: seq<string>): seq<Segment> {
    Parse(lines, 0, None)
  }

  function SourceLines(s: Segment): seq<string> {
    match s
    case Line(text) => [text]
    case Block(marker, lines, ending, _) => [marker] + lines + (if ending.ByBlank? then [ending.line] else [])
  }

  function Unparse(segs: seq<Segment>): seq<string> {
    if segs == [] then [] else SourceLines(segs[0]) + Unparse(segs[1..])
  }

  function OpenLines(open: Option<OpenBlock>): seq<string> {
    match open case None => [] case Some(b) => [b.marker] + b.lines
  }

  lemma UnparseCons(s: Segment, rest: seq<Segment>)
    ensures Unparse([s] + rest) == SourceLines(s) + Unparse(rest)
  {
    assert ([s] + rest)[1..] == rest;
  }

  /** The lines a closed block spells out. */
  lemma ClosedLines(b: OpenBlock, line: string)
    ensures SourceLines(b.Close(ByBlank(line))) == OpenLines(Some(b)) + [line]
    ensures SourceLines(b.Close(ByCommand)) == OpenLines(Some(b)) == SourceLines(b.Close(ByEnd))
    ensures OpenLines(Some(b.(lines := b.lines + [line]))) == OpenLines(Some(b)) + [line]
  {
    assert [b.marker] + (b.lines + [line]) == [b.marker] + b.lines + [line];
  }

  lemma Regroup<T>(a: seq<T>, x: T, rest: seq<T>, i: nat)
    requires i < |rest| && rest[i] == x
    ensures a + [x] + rest[i + 1..] == a + rest[i..] && a + ([x] + rest[i + 1..]) == a + rest[i..]
  {
    assert rest[i..] == [x] + rest[i + 1..];
  }

  /** The grammar loses nothing: the segments spell out the lines. */
  lemma {:induction false} ParseIsLossless(lines: seq<string>, i: nat, open: Option<OpenBlock>)
    requires i <= |lines|
    ensures Unparse(Parse(lines, i, open)) == OpenLines(open) + lines[i..]
    decreases |lines| - i
  {
    hide IsCommand, IsBlank, Unparse, SourceLines, OpenLines, OpenBlock.Close;
    if i < |lines| {
      var line := lines[i];
      Regroup(OpenLines(open), line, lines, i);
      var next := if IsCommand(line) then Some(OpenBlock(line, [], i)) else None;
      match open
      case None =>
        ParseIsLossless(lines, i + 1, next);
        OpenedLines(line, i);
        UnparseCons(Line(line), Parse(lines, i + 1, None));
      case Some(b) =>
        ClosedLines(b, line);
        OpenedLines(line, i);
        if IsCommand(line) {
          ParseIsLossless(lines, i + 1, next);
          UnparseCons(b.Close(ByCommand), Parse(lines, i + 1, next));
        } else if IsBlank(line) {
          ParseIsLossless(lines, i + 1, None);
          UnparseCons(b.Close(ByBlank(line)), Parse(lines, i + 1, None));
        } else {
          ParseIsLossless(lines, i + 1, Some(b.(lines := b.lines + [line])));
        }
    } else {
      EndLines(open);
      assert OpenLines(open) + lines[i..] == OpenLines(open);
    }
  }

  lemma OpenedLines(line: string, i: nat)
    ensures OpenLines(Some(OpenBlock(line, [], i))) == [line] == SourceLines(Line(line)) && OpenLines(None) == []
  {
  }

  lemma EndLines(open: Option<OpenBlock>)
    ensures Unparse(match open case None => [] case Some(b) => [b.Close(ByEnd)]) == OpenLines(open)
  {
    if open.Some? {
      UnparseCons(open.value.Close(ByEnd), []);
      ClosedLines(open.value, "");
    }
  }

  // ---------- what each automaton makes of the segments ----------

  function CommandText(lines: seq<string>): string {
    TrimSpace(Join(lines, "\n"))
  }

  datatype CommandBlock = CommandBlock(command: string, startPos: nat, endPos: nat)

  /** The parser keeps every non-empty block. */
  function ParserBlocks(all: seq<string>, segs: seq<Segment>): seq<CommandBlock> {
    if segs == [] then []
    else
      var s := segs[0];
      (if s.Block? && s.lines != [] && s.first + 1 + |s.lines| <= |all|
       then [CommandBlock(CommandText(s.lines), Offset(all, s.first), Offset(all, s.first + 1 + |s.lines|))]
       else [])
      + ParserBlocks(all, segs[1..])
  }

  predicate Kept(s: Segment) {
    s.Block? && s.lines != []
  }

  /** The renderer runs what a blank line ends, and a non-empty block at the end of the input. */
  predicate IsRun(s: Segment) {
    s.Block? && (s.ending.ByBlank? || (s.ending.ByEnd? && s.lines != []))
  }

  function Commands(segs: seq<Segment>): seq<string> {
    if segs == [] then []
    else (if Kept(segs[0]) then [CommandText(segs[0].lines)] else []) + Commands(segs[1..])
  }

  function Executed(segs: seq<Segment>): seq<string> {
    if segs == [] then []
    else (if IsRun(segs[0]) then [CommandText(segs[0].lines)] else []) + Executed(segs[1..])
  }

  function Fence(text: string): seq<string> {
    ["```", text, "```"]
  }

  /** The rendered lines; `output(n, c)` is the text that running c as the n-th command gives. */
  function Rendered(segs: seq<Segment>, n: nat, output: (nat, string) -> string): seq<string> {
    if segs == [] then []
    else
      var s := segs[0];
      if s.Line? then [s.text] + Rendered(segs[1..], n, output)
      else if IsRun(s) then
        Fence(output(n, CommandText(s.lines))) + (if s.ending.ByBlank? then [""] else [])
        + Rendered(segs[1..], n + 1, output)
      else Rendered(segs[1..], n, output)
  }

  // ---------- the parser ----------

  lemma {:induction false} JoinSnoc(lines: seq<string>, line: string)
    ensures Join(lines + [line], "\n") == if lines == [] then line else Join(lines, "\n") + "\n" + line
  {
    if |lines| > 1 {
      JoinSnoc(lines[1..], line);
      assert (lines + [line])[1..] == lines[1..] + [line];
    } else if |lines| == 1 {
      assert (lines + [line])[1..] == [line];
    }
  }

  lemma NonBlankNonEmpty(line: string)
    ensures !IsBlank(line) ==> line != ""
  {
  }

  /** The blocks still to come from line i on, inside `open`. */
  function BlocksFrom(lines: seq<string>, i: nat, open: Option<OpenBlock>): seq<CommandBlock>
    requires i <= |lines|
  {
    ParserBlocks(lines, Parse(lines, i, open))
  }

  /** The block that closing `b` before line i saves. */
  function Saved(lines: seq<string>, b: OpenBlock, i: nat): seq<CommandBlock>
    requires i <= |lines| && b.first < |lines|
  {
    if b.lines == [] then []
    else [CommandBlock(CommandText(b.lines), Offset(lines, b.first), Offset(lines, i))]
  }

  lemma BlocksStep(lines: seq<string>, i: nat, open: Option<OpenBlock>)
    requires i < |lines| && (open.Some? ==> open.value.first + 1 + |open.value.lines| == i)
    ensures var line := lines[i];
            && Offset(lines, i + 1) == Offset(lines, i) + (ByteLength(line) + 1)
            && BlocksFrom(lines, i, open) ==
               if IsCommand(line) then
                 (if open.Some? then Saved(lines, open.value, i) else [])
                     + BlocksFrom(lines, i + 1, Some(OpenBlock(line, [], i)))
               else if open.None? then BlocksFrom(lines, i + 1, None)
               else if IsBlank(line) then Saved(lines, open.value, i) + BlocksFrom(lines, i + 1, None)
               else BlocksFrom(lines, i + 1, Some(open.value.(lines := open.value.lines + [line])))
  {
    hide IsCommand, IsBlank, ByteLength, ParserBlocks, Saved, OpenBlock.Close;
    var line := lines[i];
    if open.None? {
      if !IsCommand(line) {
        LineGivesNoBlock(lines, line, Parse(lines, i + 1, None));
      }
    } else if IsCommand(line) {
      ClosedGivesBlock(lines, open.value, ByCommand, i, Parse(lines, i + 1, Some(OpenBlock(line, [], i))));
    } else if IsBlank(line) {
      ClosedGivesBlock(lines, open.value, ByBlank(line), i, Parse(lines, i + 1, None));
    }
  }

  lemma LineGivesNoBlock(lines: seq<string>, line: string, rest: seq<Segment>)
    ensures ParserBlocks(lines, [Line(line)] + rest) == ParserBlocks(lines, rest)
  {
    assert ([Line(line)] + rest)[1..] == rest;
  }

  lemma ClosedGivesBlock(lines: seq<string>, b: OpenBlock, ending: Ending, i: nat, rest: seq<Segment>)
    requires i <= |lines| && b.first + 1 + |b.lines| == i
    ensures ParserBlocks(lines, [b.Close(ending)] + rest) == Saved(lines, b, i) + ParserBlocks(lines, rest)
  {
    assert ([b.Close(ending)] + rest)[1..] == rest;
  }

  lemma BlocksEnd(lines: seq<string>, open: Option<OpenBlock>)
    requires open.Some? ==> open.value.first + 1 + |open.value.lines| == |lines|
    ensures BlocksFrom(lines, |lines|, open) == if open.Some? then Saved(lines, open.value, |lines|) else []
  {
    if open.Some? {
      var s := open.value.Close(ByEnd);
      assert Parse(lines, |lines|, open) == [s] && [s][1..] == [];
      assert ParserBlocks(lines, [s]) == Saved(lines, open.value, |lines|) + ParserBlocks(lines, []);
    }
  }

  /** The builder holds the joined lines, and is empty exactly while the block is. */
  ghost predicate BuilderHolds(current: string, lines: seq<string>) {
    current == Join(lines, "\n") && (current == "" <==> lines == [])
  }

  lemma EmptyBuilder()
    ensures BuilderHolds("", [])
  {
  }

  lemma OffsetZero(lines: seq<string>)
    ensures Offset(lines, 0) == 0
  {
  }

  lemma BlocksOfAll(lines: seq<string>)
    ensures BlocksFrom(lines, 0, None) == ParserBlocks(lines, Segments(lines))
  {
  }

  method ParseWithPositions(content: string) returns (blocks: seq<CommandBlock>)
    ensures blocks == ParserBlocks(ScanLines(content), Segments(ScanLines(content)))
  {
    hide ScanLines, Parse, ParserBlocks, BlocksFrom, Offset, ByteLength, TrimLeft, TrimRight, Join;
    var lines := ScanLines(content);
    blocks := [];
    assert BlocksFrom(lines, 0, None) == ParserBlocks(lines, Segments(lines)) by { BlocksOfAll(lines); }
    OffsetZero(lines);
    var current := "";
    var inCommandBlock := false;
    var startPos, currentPos := 0, 0;
    ghost var open: Option<OpenBlock> := None;
    var i := 0;
    while i < |lines|
      invariant i <= |lines| && currentPos == Offset(lines, i)
      invariant inCommandBlock == open.Some?
      invariant open.None? ==> current == ""
      invariant open.Some? ==> BuilderHolds(current, open.value.lines)
                               && open.value.first + 1 + |open.value.lines| == i
                               && startPos == Offset(lines, open.value.first)
      invariant blocks + BlocksFrom(lines, i, open) == BlocksFrom(lines, 0, None)
    {
      var line := lines[i];
      var lineLength := ByteLength(line) + 1;
      BlocksStep(lines, i, open);
      if TrimSpace(line) == "!command" {
        if inCommandBlock && current != "" {
          blocks := blocks + [CommandBlock(TrimSpace(current), startPos, currentPos)];
          current := "";
        }
        EmptyBuilder();
        inCommandBlock := true;
        open := Some(OpenBlock(line, [], i));
        startPos := currentPos;
        currentPos := currentPos + lineLength;
        i := i + 1;
        continue;
      }
      if inCommandBlock {
        if TrimSpace(line) == "" {
          if current != "" {
            blocks := blocks + [CommandBlock(TrimSpace(current), startPos, currentPos)];
            current := "";
          }
          inCommandBlock := false;
          open := None;
        } else {
          JoinSnoc(open.value.lines, line);
          NonBlankNonEmpty(line);
          if current != "" {
            current := current + "\n";
          }
          current := current + line;
          open := Some(open.value.(lines := open.value.lines + [line]));
        }
      }
      currentPos := currentPos + lineLength;
      i := i + 1;
    }
    BlocksEnd(lines, open);
    if inCommandBlock && current != "" {
      blocks := blocks + [CommandBlock(TrimSpace(current), startPos, currentPos)];
    }
  }

  // ---------- the renderer ----------

  function RunFrom(lines: seq<string>, i: nat, open: Option<OpenBlock>): seq<string>
    requires i <= |lines|
  {
    Executed(Parse(lines, i, open))
  }

  function TextFrom(lines: seq<string>, i: nat, open: Option<OpenBlock>, n: nat,
      output: (nat, string) -> string): seq<string>
    requires i <= |lines|
  {
    Rendered(Parse(lines, i, open), n, output)
  }

  lemma RenderStep(lines: seq<string>, i: nat, open: Option<OpenBlock>, n: nat, output: (nat, string) -> string)
    requires i < |lines|
    ensures var line := lines[i];
            if IsCommand(line) then
              var next := Some(OpenBlock(line, [], i));
              RunFrom(lines, i, open) == RunFrom(lines, i + 1, next)
              && TextFrom(lines, i, open, n, output) == TextFrom(lines, i + 1, next, n, output)
            else if open.None? then
              RunFrom(lines, i, open) == RunFrom(lines, i + 1, None)
              && TextFrom(lines, i, open, n, output) == [line] + TextFrom(lines, i + 1, None, n, output)
            else if IsBlank(line) then
              var c := CommandText(open.value.lines);
              RunFrom(lines, i, open) == [c] + RunFrom(lines, i + 1, None)
              && TextFrom(lines, i, open, n, output) == Fence(output(n, c)) + [""]
                  + TextFrom(lines, i + 1, None, n + 1, output)
            else
              var next := Some(open.value.(lines := open.value.lines + [line]));
              RunFrom(lines, i, open) == RunFrom(lines, i + 1, next)
              && TextFrom(lines, i, open, n, output) == TextFrom(lines, i + 1, next, n, output)
  {
    var segs := Parse(lines, i, open);
    if open.None? {
      if !IsCommand(lines[i]) {
        assert segs[1..] == Parse(lines, i + 1, None);
      }
    } else if IsCommand(lines[i]) {
      assert segs[1..] == Parse(lines, i + 1, Some(OpenBlock(lines[i], [], i)));
    } else if IsBlank(lines[i]) {
      assert segs[1..] == Parse(lines, i + 1, None);
    }
  }

  lemma RenderEnd(lines: seq<string>, open: Option<OpenBlock>, n: nat, output: (nat, string) -> string)
    ensures if open.Some? && open.value.lines != [] then
              var c := CommandText(open.value.lines);
              RunFrom(lines, |lines|, open) == [c] && TextFrom(lines, |lines|, open, n, output) == Fence(output(n, c))
            else RunFrom(lines, |lines|, open) == [] && TextFrom(lines, |lines|, open, n, output) == []
  {
    if open.Some? {
      var s := open.value.Close(ByEnd);
      assert Parse(lines, |lines|, open) == [s] && [s][1..] == [];
      assert Executed([s]) == (if IsRun(s) then [CommandText(s.lines)] else []) + Executed([]);
      if IsRun(s) {
        assert Rendered([s], n, output) == Fence(output(n, CommandText(s.lines))) + [] + Rendered([], n + 1, output);
      } else {
        assert Rendered([s], n, output) == Rendered([], n, output);
      }
    }
  }

  lemma RenderAll(lines: seq<string>, output: (nat, string) -> string)
    ensures RunFrom(lines, 0, None) == Executed(Segments(lines))
    ensures TextFrom(lines, 0, None, 0, output) == Rendered(Segments(lines), 0, output)
  {
  }

  method ExecutePreprocessing(content: string, output: (nat, string) -> string)
      returns (text: string, executed: seq<string>)
    ensures executed == Executed(Segments(Split(content)))
    ensures text == Join(Rendered(Segments(Split(content)), 0, output), "\n")
  {
    hide Split, Parse, Executed, Rendered, RunFrom, TextFrom, TrimLeft, TrimRight, Join;
    var lines := Split(content);
    var result: seq<string> := [];
    executed := [];
    var inCommandBlock := false;
    var commandLines: seq<string> := [];
    ghost var open: Option<OpenBlock> := None;
    RenderAll(lines, output);
    for i := 0 to |lines|
      invariant inCommandBlock == open.Some? && (open.Some? ==> open.value.lines == commandLines)
      invariant executed + RunFrom(lines, i, open) == RunFrom(lines, 0, None)
      invariant result + TextFrom(lines, i, open, |executed|, output) == TextFrom(lines, 0, None, 0, output)
    {
      var line := lines[i];
      RenderStep(lines, i, open, |executed|, output);
      if TrimSpace(line) == "!command" {
        inCommandBlock := true;
        commandLines := [];
        open := Some(OpenBlock(line, [], i));
        continue;
      }
      if inCommandBlock {
        if TrimSpace(line) == "" {
          var command := TrimSpace(Join(commandLines, "\n"));
          result := result + ["```"];
          result := result + [output(|executed|, command)];
          result := result + ["```"];
          result := result + [""];
          executed := executed + [command];
          inCommandBlock := false;
          commandLines := [];
          open := None;
          continue;
        }
        commandLines := commandLines + [line];
        open := Some(open.value.(lines := commandLines));
        continue;
      }
      result := result + [line];
    }
    RenderEnd(lines, open, |executed|, output);
    if inCommandBlock && |commandLines| > 0 {
      var command := TrimSpace(Join(commandLines, "\n"));
      result := result + ["```"];
      result := result + [output(|executed|, command)];
      result := result + ["```"];
      executed := executed + [command];
      assert result == TextFrom(lines, 0, None, 0, output);
    } else {
      assert result + [] == result && executed + [] == executed;
    }
    text := Join(result, "\n");
  }

  // ---------- a block, line by line ----------

  /** A line of a command: neither blank nor a `!command` line. */
  predicate IsCommandLine(line: string) {
    TrimSpace(line) != "" && TrimSpace(line) != "!command"
  }

  lemma {:induction false} BlockBody(lines: seq<string>, k: nat, j: nat, b: OpenBlock, n: nat,
                                     output: (nat, string) -> string)
    requires k <= j < |lines| && b.first + 1 + |b.lines| == k && b.first + 1 < j
    requires (forall i :: k <= i < j ==> IsCommandLine(lines[i])) && TrimSpace(lines[j]) == ""
    ensures var c := TrimSpace(Join(b.lines + lines[k..j], "\n"));
            && RunFrom(lines, k, Some(b)) == [c] + RunFrom(lines, j + 1, None)
            && TextFrom(lines, k, Some(b), n, output)
               == ["```", output(n, c), "```", ""] + TextFrom(lines, j + 1, None, n + 1, output)
            && BlocksFrom(lines, k, Some(b))
               == [CommandBlock(c, Offset(lines, b.first), Offset(lines, j))] + BlocksFrom(lines, j + 1, None)
    decreases j - k
  {
    hide TrimLeft, TrimRight, Join, Offset, RunFrom, TextFrom, BlocksFrom;
    RenderStep(lines, k, Some(b), n, output);
    BlocksStep(lines, k, Some(b));
    if k < j {
      var more := b.(lines := b.lines + [lines[k]]);
      assert b.lines + lines[k..j] == more.lines + lines[k + 1..j];
      BlockBody(lines, k + 1, j, more, n, output);
    } else {
      assert b.lines + lines[k..j] == b.lines;
      SavedIs(lines, b, k);
    }
  }

  lemma SavedIs(lines: seq<string>, b: OpenBlock, i: nat)
    requires i <= |lines| && b.first < |lines| && b.lines != []
    ensures Saved(lines, b, i)
         == [CommandBlock(TrimSpace(Join(b.lines, "\n")), Offset(lines, b.first), Offset(lines, i))]
  {
  }

  /** A `!command` line, command lines and a blank line: the parser gives this one block, the renderer runs its
      command and puts the fenced output in its place, and both go on behind the blank line. */
  lemma BlockIsRead(lines: seq<string>, i: nat, j: nat, n: nat, output: (nat, string) -> string)
    requires i + 1 < j < |lines| && TrimSpace(lines[i]) == "!command" && TrimSpace(lines[j]) == ""
    requires forall k :: i < k < j ==> IsCommandLine(lines[k])
    ensures var c := TrimSpace(Join(lines[i + 1..j], "\n"));
            && RunFrom(lines, i, None) == [c] + RunFrom(lines, j + 1, None)
            && TextFrom(lines, i, None, n, output)
               == ["```", output(n, c), "```", ""] + TextFrom(lines, j + 1, None, n + 1, output)
            && BlocksFrom(lines, i, None)
               == [CommandBlock(c, Offset(lines, i), Offset(lines, j))] + BlocksFrom(lines, j + 1, None)
  {
    hide TrimLeft, TrimRight, Join, Offset, RunFrom, TextFrom, BlocksFrom;
    RenderStep(lines, i, None, n, output);
    BlocksStep(lines, i, None);
    assert [] + lines[i + 1..j] == lines[i + 1..j];
    BlockBody(lines, i + 1, j, OpenBlock(lines[i], [], i), n, output);
  }

  /** Any other line outside blocks stays where it is, and is no command. */
  lemma LineIsKept(lines: seq<string>, i: nat, n: nat, output: (nat, string) -> string)
    requires i < |lines| && TrimSpace(lines[i]) != "!command"
    ensures RunFrom(lines, i, None) == RunFrom(lines, i + 1, None)
    ensures TextFrom(lines, i, None, n, output) == [lines[i]] + TextFrom(lines, i + 1, None, n, output)
    ensures BlocksFrom(lines, i, None) == BlocksFrom(lines, i + 1, None)
  {
    RenderStep(lines, i, None, n, output);
    BlocksStep(lines, i, None);
  }
}
