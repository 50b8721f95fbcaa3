/** Properties of `MarkdownRenderer`: how each kind of line moves the
    renderer's locals, and what holds of the whole output. */
module MarkdownProps {
  import opened Seqs
  import opened Text
  import opened Emphasis
  import opened Markdown

  // ---------------------------------------------------------------------
  // Classification
  // ---------------------------------------------------------------------

  /** Below the table test the first matching prefix wins: `###`, then `##`,
      then `#`, then `-` or `*`; what is left is a paragraph or blank. A line
      with two pipes is a table line whatever its prefix. */
  lemma ClassifyPrecedence(t: string)
    ensures Count(t, '|') >= 2 ==> Classify(t) == TableLine(Cells(t), Contains(t, "---"))
    ensures Count(t, '|') < 2 && StartsWith(t, "###") ==>
              Classify(t) == HeadingLine(3, Trim(Drop(t, 3)))
    ensures Count(t, '|') < 2 && !StartsWith(t, "###") && StartsWith(t, "##") ==>
              Classify(t) == HeadingLine(2, Trim(Drop(t, 2)))
    ensures Count(t, '|') < 2 && !StartsWith(t, "##") && StartsWith(t, "#") ==>
              Classify(t) == HeadingLine(1, Trim(Drop(t, 1)))
    ensures Count(t, '|') < 2 && !StartsWith(t, "#") && (StartsWith(t, "-") || StartsWith(t, "*")) ==>
              Classify(t) == ItemLine(Trim(Drop(t, 1)))
    ensures Count(t, '|') < 2 && t != [] && !StartsWith(t, "#") && !StartsWith(t, "-") && !StartsWith(t, "*") ==>
              Classify(t) == TextLine(t)
  {
    TableTextIffTwoPipes(t);
    if Count(t, '|') < 2 {
      assert Classify(t) == ClassifyUnpiped(t);
      UnpipedPrecedence(t);
    }
  }

  lemma UnpipedPrecedence(t: string)
    ensures StartsWith(t, "###") ==> ClassifyUnpiped(t) == HeadingLine(3, Trim(Drop(t, 3)))
    ensures !StartsWith(t, "###") && StartsWith(t, "##") ==>
              ClassifyUnpiped(t) == HeadingLine(2, Trim(Drop(t, 2)))
    ensures !StartsWith(t, "##") && StartsWith(t, "#") ==>
              ClassifyUnpiped(t) == HeadingLine(1, Trim(Drop(t, 1)))
    ensures !StartsWith(t, "#") && (StartsWith(t, "-") || StartsWith(t, "*")) ==>
              ClassifyUnpiped(t) == ItemLine(Trim(Drop(t, 1)))
    ensures t != [] && !StartsWith(t, "#") && !StartsWith(t, "-") && !StartsWith(t, "*") ==>
              ClassifyUnpiped(t) == TextLine(t)
  {
    StartsWithPrefix(t, "###", 2);
    StartsWithPrefix(t, "##", 1);
    StartsWithPrefix(t, "####", 3);
    StartsWithPrefix(t, "---", 1);
    assert "###"[..2] == "##" && "##"[..1] == "#";
    assert "####"[..3] == "###" && "---"[..1] == "-";
  }

  /** `####` is read as a level-3 heading ... */
  lemma FourHashesIsLevelThree(t: string)
    requires Count(t, '|') < 2 && StartsWith(t, "####")
    ensures Classify(t) == HeadingLine(3, Trim(Drop(t, 3)))
  {
    ClassifyPrecedence(t);
    StartsWithPrefix(t, "####", 3);
    assert "####"[..3] == "###";
  }

  /** ... whose text keeps the fourth `#` */
  lemma FourthHashKept(t: string)
    requires StartsWith(t, "####")
    ensures Trim(Drop(t, 3)) != [] && Trim(Drop(t, 3))[0] == '#'
  {
    assert t[3] == "####"[3] == '#';
    var d := Drop(t, 3);
    assert d[0] == '#';
    assert TrimStart(d) == d;
  }

  /** A `---` line is never a rule: it is the list item `--` */
  lemma DashesAreItem()
    ensures Classify("---") == ItemLine("--")
  {
    DashesUnpiped();
    NoPipe("---");
    TableTextIffTwoPipes("---");
  }

  lemma DashesUnpiped()
    ensures ClassifyUnpiped("---") == ItemLine("--")
  {
    var t := "---";
    assert t[1..] == "--";
    DashStart(t);
    TwoDashesTrimmed();
  }

  lemma TwoDashesTrimmed()
    ensures Trim("--") == "--"
  {
    assert IsTrimmed("--");
  }

  /** Below the table test, a line starting with `-` is an item */
  lemma DashStart(t: string)
    requires t != [] && t[0] == '-'
    ensures ClassifyUnpiped(t) == ItemLine(Trim(t[1..]))
  {
    assert t[..1] == "-";
    assert !StartsWith(t, "#") by {
      assert t[..1][0] != "#"[0];
    }
    UnpipedPrecedence(t);
  }

  lemma NoPipe(t: string)
    requires forall i :: 0 <= i < |t| ==> t[i] != '|'
    ensures Count(t, '|') == 0
  {
  }

  /** One step on a table line */
  lemma StepTable(st: State, line: string)
    requires Classify(Trim(line)).TableLine?
    ensures var k := Classify(Trim(line));
            Step(st, line) == TableStep(st, k.cells, k.separator)
  {
  }

  /** One step on any other line: an open table is flushed first */
  lemma StepOther(st: State, line: string)
    requires !Classify(Trim(line)).TableLine?
    ensures Step(st, line) == OtherStep(if st.inTable then FlushTable(st) else st, Classify(Trim(line)))
  {
  }

  // ---------------------------------------------------------------------
  // Tables
  // ---------------------------------------------------------------------

  /** A table line with cells flushes the list. Outside a table it becomes the
      header, even when it holds `---`; inside a table a `---` row is dropped
      and any other row is appended as data. */
  lemma TableRowStep(st: State, line: string)
    requires Good(st)
    requires Classify(Trim(line)).TableLine? && Classify(Trim(line)).cells != []
    ensures var r := Step(st, line);
            && r.list == []
            && r.out == st.out + (if st.list != [] then [List(st.list)] else [])
            && r.inTable
            && (!st.inTable ==> r.headers == Classify(Trim(line)).cells && r.rows == [])
            && (st.inTable && Contains(Trim(line), "---") ==> r.headers == st.headers && r.rows == st.rows)
            && (st.inTable && !Contains(Trim(line), "---") ==>
                  r.headers == st.headers && r.rows == st.rows + [Classify(Trim(line)).cells])
  {
    StepTable(st, line);
  }

  /** A line made only of pipes and white space, such as `||`, has no cells:
      it flushes the pending list and changes nothing else */
  lemma PipeOnlyLine(st: State, line: string)
    requires Count(Trim(line), '|') >= 2
    requires forall i :: 0 <= i < |line| ==> line[i] == '|' || IsWhite(line[i])
    ensures Step(st, line) == FlushList(st)
  {
    PipesAndWhiteTrimmed(line);
    PipeOnlyCells(Trim(line));
    StepTable(st, line);
  }

  lemma PipeOnlyCells(t: string)
    requires Count(t, '|') >= 2
    requires forall i :: 0 <= i < |t| ==> t[i] == '|' || IsWhite(t[i])
    ensures Classify(t) == TableLine([], Contains(t, "---"))
  {
    NoCells(t);
  }

  lemma PipesAndWhiteTrimmed(line: string)
    requires forall i :: 0 <= i < |line| ==> line[i] == '|' || IsWhite(line[i])
    ensures forall i :: 0 <= i < |Trim(line)| ==> Trim(line)[i] == '|' || IsWhite(Trim(line)[i])
  {
    var t := Trim(line);
    forall i | 0 <= i < |t|
      ensures t[i] == '|' || IsWhite(t[i])
    {
      assert t[i] in line;
    }
  }

  lemma NoCells(t: string)
    requires forall i :: 0 <= i < |t| ==> t[i] == '|' || IsWhite(t[i])
    ensures Cells(t) == []
  {
    BlankPieces(t);
  }

  /** Between the pipes of such a line there is only white space */
  lemma BlankPieces(t: string)
    requires forall i :: 0 <= i < |t| ==> t[i] == '|' || IsWhite(t[i])
    ensures forall i :: 0 <= i < |TrimmedPieces(t)| ==> TrimmedPieces(t)[i] == []
  {
    var pieces := SplitOn(t, '|');
    var trimmed := TrimmedPieces(t);
    forall i | 0 <= i < |trimmed|
      ensures trimmed[i] == []
    {
      assert trimmed[i] == Trim(pieces[i]);
      forall j | 0 <= j < |pieces[i]|
        ensures IsWhite(pieces[i][j])
      {
        assert pieces[i][j] in pieces[i];
        assert pieces[i][j] in t;
      }
    }
  }

  /** Any other line first flushes a table that has data rows */
  lemma OtherLineClosesTable(st: State, line: string)
    requires Good(st) && st.inTable && st.rows != []
    requires Count(Trim(line), '|') < 2
    ensures var r := Step(st, line);
            && r.out[|st.out|] == Table(st.headers, st.rows)
            && !r.inTable && r.headers == [] && r.rows == []
  {
    StepOther(st, line);
    var st1 := FlushTable(st);
    var r := OtherStep(st1, Classify(Trim(line)));
    assert st1.out == st.out + [Table(st.headers, st.rows)];
    assert IsPrefix(st1.out, r.out);
    assert r.out[|st.out|] == st1.out[|st.out|];
  }

  /** A table without data rows is never emitted: the table state survives
      every other line, so a later table line is appended to the same header */
  lemma HeaderOnlyTableLingers(st: State, line: string)
    requires Good(st) && st.inTable && st.rows == []
    requires Count(Trim(line), '|') < 2
    ensures var r := Step(st, line);
            && r.inTable && r.headers == st.headers && r.rows == []
            && forall i :: |st.out| <= i < |r.out| ==> !r.out[i].Table?
  {
    StepOther(st, line);
    assert FlushTable(st) == st;
  }

  // ---------------------------------------------------------------------
  // Lists
  // ---------------------------------------------------------------------

  /** An item line appends its trimmed text when it is not empty and never
      flushes the list; only a table with data rows can be emitted before it */
  lemma ItemLineStep(st: State, line: string)
    requires Good(st)
    requires Classify(Trim(line)).ItemLine?
    ensures var text := Classify(Trim(line)).text;
            var r := Step(st, line);
            && r.list == (if st.inTable && st.rows != [] then [] else st.list) + (if text != [] then [text] else [])
            && r.out == st.out + (if st.inTable && st.rows != [] then [Table(st.headers, st.rows)] else [])
  {
    StepOther(st, line);
  }

  /** Every line that is not an item line closes a pending list: the items
      come out as one `List` block, in the order they were read */
  lemma OtherLineClosesList(st: State, line: string)
    requires Good(st) && st.list != []
    requires !Classify(Trim(line)).ItemLine?
    ensures var r := Step(st, line);
            && r.list == []
            && |r.out| > |st.out|
            && r.out[|st.out|] == List(st.list)
  {
    var k := Classify(Trim(line));
    if k.TableLine? {
      StepTable(st, line);
    } else {
      StepOther(st, line);
      assert FlushTable(st) == st;
      var r := OtherStep(st, k);
      assert FlushList(st).out == st.out + [List(st.list)];
      assert IsPrefix(FlushList(st).out, r.out);
      assert r.out[|st.out|] == FlushList(st).out[|st.out|];
    }
  }

  /** A blank line emits nothing of its own but closes the list, so the items
      before and after it never share a block */
  lemma BlankLineStep(st: State, line: string)
    requires Good(st)
    requires Trim(line) == []
    ensures var r := Step(st, line);
            && r.list == []
            && r.out == st.out + (if st.inTable && st.rows != [] then [Table(st.headers, st.rows)] else [])
                              + (if st.list != [] then [List(st.list)] else [])
  {
    StepOther(st, line);
  }

  // ---------------------------------------------------------------------
  // Paragraphs and end of input
  // ---------------------------------------------------------------------

  /** A text line ends the output with a paragraph holding the whole
      trimmed line */
  lemma ParagraphStep(st: State, line: string)
    requires Classify(Trim(line)).TextLine?
    ensures var r := Step(st, line);
            |r.out| > 0 && r.out[|r.out| - 1] == Paragraph(Trim(line))
  {
    StepOther(st, line);
    LastParagraph(if st.inTable then FlushTable(st) else st, Trim(line));
  }

  lemma LastParagraph(st: State, t: string)
    requires Classify(t).TextLine?
    ensures var r := OtherStep(st, Classify(t));
            |r.out| > 0 && r.out[|r.out| - 1] == Paragraph(t)
  {
  }

  /** At the end the pending list is emitted before the pending table, and
      nothing stays pending */
  lemma FinishOrder(st: State)
    ensures st.list != [] && st.rows != [] && st.headers != [] ==>
              Finish(st).out == st.out + [List(st.list), Table(st.headers, st.rows)]
    ensures Good(st) ==>
              Finish(st).out == st.out + (if st.list != [] then [List(st.list)] else [])
                                       + (if st.rows != [] then [Table(st.headers, st.rows)] else [])
  {
  }

  /** Stored items and cells are already trimmed, so the second trim at render
      time changes nothing: each is exactly its `processBold` */
  lemma PresentRetrimIsIdentity(b: Block)
    requires GoodBlock(b)
    ensures b.List? ==> Present(b) == List(seq(|b.items|, i requires 0 <= i < |b.items| => ProcessBold(b.items[i])))
    ensures b.Table? ==> Present(b).headers == seq(|b.headers|, i requires 0 <= i < |b.headers| => ProcessBold(b.headers[i]))
  {
  }

  // ---------------------------------------------------------------------
  // The whole output
  // ---------------------------------------------------------------------

  /** Number of lines that are not blank after trimming */
  function NonBlank(lines: seq<string>): nat
  {
    if lines == [] then 0
    else NonBlank(lines[..|lines| - 1]) + (if Trim(lines[|lines| - 1]) == [] then 0 else 1)
  }

  lemma {:induction false} FoldWeight(lines: seq<string>)
    ensures Weight(Fold(lines)) <= NonBlank(lines)
  {
    if lines != [] {
      FoldWeight(lines[..|lines| - 1]);
    }
  }

  /** Every block is well formed: headings have level 1 to 3, lists are never
      empty and hold trimmed non-empty items, tables have a header and at
      least one data row, and no rule is ever produced. There are at most as
      many blocks as non-blank lines. */
  lemma ParseShape(lines: seq<string>)
    ensures forall i :: 0 <= i < |ParseLines(lines)| ==> GoodBlock(ParseLines(lines)[i])
    ensures forall i :: 0 <= i < |ParseLines(lines)| ==> !ParseLines(lines)[i].Rule?
    ensures |ParseLines(lines)| <= NonBlank(lines)
  {
    FoldWeight(lines);
  }

  lemma {:induction false} AllBlankLines(lines: seq<string>)
    requires forall i :: 0 <= i < |lines| ==> Trim(lines[i]) == []
    ensures NonBlank(lines) == 0
  {
    if lines != [] {
      AllBlankLines(lines[..|lines| - 1]);
    }
  }

  /** Empty content, or content of white space only, renders nothing */
  lemma BlankContent(content: string)
    requires forall i :: 0 <= i < |content| ==> IsWhite(content[i])
    ensures Parse(content) == []
  {
    var lines := SplitOn(content, '\n');
    BlankLines(content);
    AllBlankLines(lines);
    assert NonBlank(lines) == 0;
    ParseShape(lines);
    assert |ParseLines(lines)| == 0;
  }

  /** ... and so the page shows no block for it */
  lemma BlankRender(content: string)
    requires forall i :: 0 <= i < |content| ==> IsWhite(content[i])
    ensures Render(content) == []
  {
    BlankContent(content);
  }

  lemma BlankLines(content: string)
    requires forall i :: 0 <= i < |content| ==> IsWhite(content[i])
    ensures forall i :: 0 <= i < |SplitOn(content, '\n')| ==> Trim(SplitOn(content, '\n')[i]) == []
  {
    var lines := SplitOn(content, '\n');
    forall i | 0 <= i < |lines|
      ensures Trim(lines[i]) == []
    {
      forall j | 0 <= j < |lines[i]|
        ensures IsWhite(lines[i][j])
      {
        assert lines[i][j] in lines[i];
        assert lines[i][j] in content;
      }
    }
  }

  /** One more line keeps what has been emitted so far */
  lemma FoldOneMore(lines: seq<string>)
    requires lines != []
    ensures IsPrefix(Fold(lines[..|lines| - 1]).out, Fold(lines).out)
  {
    var st := Fold(lines[..|lines| - 1]);
    assert Extends(st, Step(st, lines[|lines| - 1]));
  }

  /** Blocks come out in source order: what has been emitted after the first
      `k` lines is kept, unchanged and in place, by every later line */
  lemma {:induction false} EmittedBlocksStay(lines: seq<string>, k: nat)
    requires k <= |lines|
    ensures IsPrefix(Fold(lines[..k]).out, Fold(lines).out)
  {
    if k < |lines| {
      var init := lines[..|lines| - 1];
      assert init[..k] == lines[..k];
      EmittedBlocksStay(init, k);
      FoldOneMore(lines);
      PrefixTrans(Fold(lines[..k]).out, Fold(init).out, Fold(lines).out);
    } else {
      assert lines[..k] == lines;
    }
  }

  /** ... and by the end of input */
  lemma EmittedBlocksReachOutput(lines: seq<string>, k: nat)
    requires k <= |lines|
    ensures IsPrefix(Fold(lines[..k]).out, ParseLines(lines))
  {
    EmittedBlocksStay(lines, k);
    var st := Fold(lines);
    assert Extends(st, Finish(st));
    PrefixTrans(Fold(lines[..k]).out, st.out, Finish(st).out);
  }
}
