/** `MarkdownRenderer`, the line-oriented renderer of analysis reports. The
    same function appears in the assets-simulation page and in the
    deduction-expectation page; the two differ only in indentation.

    The content is split on `\n`, every line is trimmed and classified, and a
    left fold over the lines threads the renderer's mutable locals (the
    pending list, the table flag, the pending table header and rows, and the
    emitted elements) as an immutable `State`. The classifier is written with
    every branch of `MarkdownRenderer`, in its order, including the two
    that can never be taken (`####` and the `---` rule). */
module Markdown {
  import opened Seqs
  import opened Text
  import opened Emphasis

  /** What one trimmed line is */
  datatype LineKind =
    | TableLine(cells: seq<string>, separator: bool)
    | HeadingLine(level: int, text: string)
    | ItemLine(text: string)
    | RuleLine
    | TextLine(text: string)
    | BlankLine

  /** One rendered element: `h1`..`h4`, `p`, `ul`, `table` or `hr` */
  datatype Block =
    | Heading(level: int, text: string)
    | Paragraph(text: string)
    | List(items: seq<string>)
    | Table(headers: seq<string>, rows: seq<seq<string>>)
    | Rule

  /** The renderer's locals: `currentList`, `inTable`, `tableHeaders`,
      `tableRows` and `elements` */
  datatype State = State(
    list: seq<string>,
    inTable: bool,
    headers: seq<string>,
    rows: seq<seq<string>>,
    out: seq<Block>)

  const Initial: State := State([], false, [], [], [])

  // ---------------------------------------------------------------------
  // Line classification
  // ---------------------------------------------------------------------

  /** `trimmed.includes("|") && trimmed.split("|").length > 2` */
  predicate IsTableText(t: string) {
    Contains(t, "|") && |SplitOn(t, '|')| > 2
  }

  /** The table test holds exactly for lines with at least two pipes */
  lemma TableTextIffTwoPipes(t: string)
    ensures IsTableText(t) <==> Count(t, '|') >= 2
  {
    ContainsChar(t, '|');
  }

  /** The cells of a table line: the pieces between pipes, trimmed, with the
      empty ones dropped */
  function Cells(t: string): (r: seq<string>)
    ensures forall i :: 0 <= i < |r| ==> r[i] != [] && IsTrimmed(r[i]) && '|' !in r[i]
    ensures forall i :: 0 <= i < |r| ==> r[i] in TrimmedPieces(t)
    ensures IsSubseq(r, TrimmedPieces(t))
    ensures forall i :: 0 <= i < |TrimmedPieces(t)| && TrimmedPieces(t)[i] != [] ==> TrimmedPieces(t)[i] in r
    ensures forall c :: multiset(r)[c] == if c != [] then multiset(TrimmedPieces(t))[c] else 0
  {
    var nonEmpty := (c: string) => c != [];
    FilterMultiset(TrimmedPieces(t), nonEmpty);
    Filter(TrimmedPieces(t), nonEmpty)
  }

  function TrimmedPieces(t: string): (r: seq<string>)
    ensures |r| == |SplitOn(t, '|')|
    ensures forall i :: 0 <= i < |r| ==> IsTrimmed(r[i]) && '|' !in r[i]
  {
    var p := SplitOn(t, '|');
    seq(|p|, i requires 0 <= i < |p| => Trim(p[i]))
  }

  /** The tests of the renderer, in its order. A line is a table line when it
      has two pipes, whatever it starts with. */
  function Classify(t: string): (k: LineKind)
    ensures k.TableLine? <==> Count(t, '|') >= 2
    ensures k.TableLine? ==> k.cells == Cells(t) && (k.separator <==> Contains(t, "---"))
    ensures !k.RuleLine?
    ensures k.TextLine? ==> k.text == t && t != []
    ensures k.BlankLine? <==> t == []
    ensures IsTrimmed(t) ==> GoodKind(k)
  {
    TableTextIffTwoPipes(t);
    if IsTableText(t) then TableLine(Cells(t), Contains(t, "---"))
    else ClassifyUnpiped(t)
  }

  /** The tests after the table test. `###` is tested before `####`, so the
      level-4 branch is never taken; a line starting with `---` starts with
      `-`, so the rule branch is never taken. */
  function ClassifyUnpiped(t: string): (k: LineKind)
    ensures !k.TableLine?
    ensures k.HeadingLine? ==> 1 <= k.level <= 3 && IsTrimmed(k.text)
    ensures k.ItemLine? ==> IsTrimmed(k.text)
    ensures !k.RuleLine?
    ensures k.TextLine? ==> k.text == t && t != []
    ensures k.BlankLine? <==> t == []
    ensures IsTrimmed(t) ==> GoodKind(k)
  {
    assert "####"[..3] == "###" && "---"[..1] == "-";
    StartsWithPrefix(t, "####", 3);
    StartsWithPrefix(t, "---", 1);
    if StartsWith(t, "###") then HeadingLine(3, Trim(Drop(t, 3)))
    else if StartsWith(t, "####") then HeadingLine(4, Trim(Drop(t, 4)))
    else if StartsWith(t, "##") then HeadingLine(2, Trim(Drop(t, 2)))
    else if StartsWith(t, "#") then HeadingLine(1, Trim(Drop(t, 1)))
    else if StartsWith(t, "-") || StartsWith(t, "*") then ItemLine(Trim(Drop(t, 1)))
    else if t == "---" || StartsWith(t, "---") then RuleLine
    else if |t| > 0 then TextLine(t)
    else BlankLine
  }

  // ---------------------------------------------------------------------
  // The accumulator
  // ---------------------------------------------------------------------

  /** Well-formed text of a list item, paragraph or cell */
  predicate GoodText(t: string) {
    t != [] && IsTrimmed(t)
  }

  predicate GoodCells(cells: seq<string>) {
    cells != [] && forall i :: 0 <= i < |cells| ==> GoodText(cells[i]) && '|' !in cells[i]
  }

  /** The blocks the renderer can produce: headings of level 1 to 3 only,
      lists that are never empty, tables with a header and at least one data
      row, and never a rule */
  predicate GoodBlock(b: Block) {
    match b
    case Heading(level, text) => 1 <= level <= 3 && IsTrimmed(text)
    case Paragraph(text) => GoodText(text)
    case List(items) => items != [] && forall i :: 0 <= i < |items| ==> GoodText(items[i])
    case Table(headers, rows) =>
      GoodCells(headers) && rows != [] && forall i :: 0 <= i < |rows| ==> GoodCells(rows[i])
    case Rule => false
  }

  /** What holds of the locals between two lines */
  predicate Good(st: State) {
    && (!st.inTable ==> st.headers == [] && st.rows == [])
    && (st.inTable ==> GoodCells(st.headers))
    && (forall i :: 0 <= i < |st.rows| ==> GoodCells(st.rows[i]))
    && (st.rows != [] ==> st.list == [])
    && (forall i :: 0 <= i < |st.list| ==> GoodText(st.list[i]))
    && (forall i :: 0 <= i < |st.out| ==> GoodBlock(st.out[i]))
  }

  /** Runs still open: a pending list and a table with data rows each count
      one block to come */
  function Pending(st: State): nat {
    (if st.list != [] then 1 else 0) + (if st.rows != [] then 1 else 0)
  }

  /** Emitted blocks plus open runs: what a step may raise by one per
      non-blank line */
  function Weight(st: State): nat {
    |st.out| + Pending(st)
  }

  predicate IsPrefix<T(==)>(a: seq<T>, b: seq<T>) {
    |a| <= |b| && b[..|a|] == a
  }

  /** The renderer's `flushList`/`flushTable` and line steps only ever
      append to the output */
  predicate Extends(st: State, r: State) {
    IsPrefix(st.out, r.out)
  }

  function Emit(st: State, b: Block): (r: State)
    ensures r.out == st.out + [b] && Extends(st, r)
    ensures r.(out := st.out) == st
  {
    st.(out := st.out + [b])
  }

  /** `flushList`: a non-empty pending list becomes one `List` block with the
      items in order, and the list is emptied; nothing else changes */
  function FlushList(st: State): (r: State)
    ensures r.list == [] && r.inTable == st.inTable && r.headers == st.headers && r.rows == st.rows
    ensures r.out == st.out + (if st.list != [] then [List(st.list)] else [])
    ensures Good(st) ==> Good(r)
    ensures Weight(r) == Weight(st)
  {
    if |st.list| > 0 then Emit(st, List(st.list)).(list := []) else st
  }

  /** `flushTable`: only a table with a header and at least one data row is
      emitted, and only then is the table state reset */
  function FlushTable(st: State): (r: State)
    ensures |st.rows| > 0 && |st.headers| > 0 ==>
              r.out == st.out + [Table(st.headers, st.rows)] && r.rows == [] && r.headers == [] && !r.inTable
    ensures !(|st.rows| > 0 && |st.headers| > 0) ==> r == st
    ensures r.list == st.list
    ensures Good(st) ==> Good(r) && r.rows == []
    ensures Weight(r) == Weight(st)
  {
    if |st.rows| > 0 && |st.headers| > 0 then
      Emit(st, Table(st.headers, st.rows)).(rows := [], headers := [], inTable := false)
    else st
  }

  /** A table line: the list is flushed; the first row outside a table is
      the header, even a `---` row; a row holding `---` inside a table is
      dropped and any other row is data; a line without cells changes nothing
      more */
  function TableStep(st: State, cells: seq<string>, separator: bool): (r: State)
    ensures Good(st) && (cells == [] || GoodCells(cells)) ==> Good(r)
    ensures Extends(st, r)
    ensures r.list == [] && r.out == st.out + (if st.list != [] then [List(st.list)] else [])
    ensures Weight(r) <= Weight(st) + 1
  {
    var s1 := FlushList(st);
    if |cells| == 0 then s1
    else if !s1.inTable then s1.(headers := cells, inTable := true)
    else if separator then s1
    else s1.(rows := s1.rows + [cells])
  }

  /** The kinds `Classify` gives for a trimmed line */
  predicate GoodKind(k: LineKind) {
    match k
    case TableLine(cells, _) => cells == [] || GoodCells(cells)
    case HeadingLine(level, text) => 1 <= level <= 3 && IsTrimmed(text)
    case ItemLine(text) => IsTrimmed(text)
    case RuleLine => false
    case TextLine(text) => GoodText(text)
    case BlankLine => true
  }

  /** Every other kind of line, once an open table has been flushed */
  function OtherStep(st: State, k: LineKind): (r: State)
    requires !k.TableLine?
    ensures Good(st) && st.rows == [] && GoodKind(k) ==> Good(r)
    ensures Extends(st, r)
    ensures r.inTable == st.inTable && r.headers == st.headers && r.rows == st.rows
    ensures forall i :: |st.out| <= i < |r.out| ==> !r.out[i].Table?
    ensures !k.ItemLine? ==> r.list == [] && IsPrefix(FlushList(st).out, r.out)
    ensures k.TextLine? ==> |r.out| > 0 && r.out[|r.out| - 1] == Paragraph(k.text)
    ensures Weight(r) <= Weight(st) + (if k.BlankLine? then 0 else 1)
  {
    match k
    case HeadingLine(level, text) =>
      FlushThenEmit(st, Heading(level, text));
      Emit(FlushList(st), Heading(level, text))
    case ItemLine(text) =>
      AddItem(st, text);
      if |text| > 0 then st.(list := st.list + [text]) else st
    case RuleLine =>
      FlushThenEmit(st, Rule);
      Emit(FlushList(st), Rule)
    case TextLine(text) =>
      FlushThenEmit(st, Paragraph(text));
      Emit(FlushList(st), Paragraph(text))
    case BlankLine =>
      FlushOnly(st);
      FlushList(st)
  }

  /** An item line: a non-empty text joins the pending list, and nothing is
      emitted */
  lemma AddItem(st: State, text: string)
    ensures var r := if |text| > 0 then st.(list := st.list + [text]) else st;
            && r.out == st.out && r.inTable == st.inTable && r.headers == st.headers && r.rows == st.rows
            && (Good(st) && st.rows == [] && IsTrimmed(text) ==> Good(r))
            && Weight(r) <= Weight(st) + 1
  {
    if |text| > 0 {
      var r := st.(list := st.list + [text]);
      if Good(st) && st.rows == [] && IsTrimmed(text) {
        assert forall i :: 0 <= i < |r.list| ==> GoodText(r.list[i]) by {
          assert forall i :: 0 <= i < |st.list| ==> r.list[i] == st.list[i];
        }
      }
    }
  }

  /** A blank line only flushes the pending list */
  lemma FlushOnly(st: State)
    ensures var r := FlushList(st);
            && IsPrefix(FlushList(st).out, r.out)
            && (forall i :: |st.out| <= i < |r.out| ==> !r.out[i].Table?)
  {
  }

  /** A heading, rule or paragraph: the pending list is flushed, then the
      block is emitted; the table state is left alone */
  lemma FlushThenEmit(st: State, b: Block)
    requires !b.Table?
    ensures var r := Emit(FlushList(st), b);
            && r.inTable == st.inTable && r.headers == st.headers && r.rows == st.rows
            && r.list == []
            && r.out == FlushList(st).out + [b]
            && (forall i :: |st.out| <= i < |r.out| ==> !r.out[i].Table?)
            && (Good(st) && GoodBlock(b) ==> Good(r))
            && Weight(r) <= Weight(st) + 1
  {
    var s1 := FlushList(st);
    var r := Emit(s1, b);
    assert r.out == st.out + (if st.list != [] then [List(st.list)] else []) + [b];
  }

  /** One iteration of `lines.forEach`. It keeps the locals well formed,
      never removes or reorders an emitted block, and opens or emits at most
      one block per non-blank line. */
  function Step(st: State, line: string): (r: State)
    ensures Good(st) ==> Good(r)
    ensures Extends(st, r)
    ensures Weight(r) <= Weight(st) + (if Trim(line) == [] then 0 else 1)
  {
    var t := Trim(line);
    var k := Classify(t);
    if k.TableLine? then
      TableBranch(st, t);
      TableStep(st, k.cells, k.separator)
    else
      OtherBranch(st, t);
      OtherStep(if st.inTable then FlushTable(st) else st, k)
  }

  lemma TableBranch(st: State, t: string)
    requires IsTrimmed(t) && Classify(t).TableLine?
    ensures var k := Classify(t);
            var r := TableStep(st, k.cells, k.separator);
            && (Good(st) ==> Good(r))
            && Extends(st, r)
            && Weight(r) <= Weight(st) + (if t == [] then 0 else 1)
  {
    var k := Classify(t);
    assert GoodKind(k);
    assert t != [] by {
      assert !k.BlankLine?;
    }
  }

  /** Any other line: a flushed table leaves no rows behind, so the kind's
      step keeps the locals well formed */
  lemma OtherBranch(st: State, t: string)
    requires IsTrimmed(t) && !Classify(t).TableLine?
    ensures var st1 := if st.inTable then FlushTable(st) else st;
            var r := OtherStep(st1, Classify(t));
            && (Good(st) ==> Good(r))
            && Extends(st, r)
            && Weight(r) <= Weight(st) + (if t == [] then 0 else 1)
  {
    var k := Classify(t);
    var st1 := if st.inTable then FlushTable(st) else st;
    var r := OtherStep(st1, k);
    assert Good(st) ==> Good(st1) && st1.rows == [];
    assert GoodKind(k);
    assert k.BlankLine? <==> t == [];
    assert Weight(st1) == Weight(st);
    PrefixTrans(st.out, st1.out, r.out);
  }

  lemma PrefixTrans<T>(a: seq<T>, b: seq<T>, c: seq<T>)
    requires IsPrefix(a, b) && IsPrefix(b, c)
    ensures IsPrefix(a, c)
  {
    assert c[..|a|] == c[..|b|][..|a|];
  }

  /** The state after the first lines, folded from the left */
  function Fold(lines: seq<string>): (r: State)
    ensures Good(r)
  {
    if lines == [] then Initial
    else Step(Fold(lines[..|lines| - 1]), lines[|lines| - 1])
  }

  /** End of input: the pending list, then the pending table */
  function Finish(st: State): (r: State)
    ensures Good(st) ==> Good(r) && r.list == [] && r.rows == []
    ensures Extends(st, r)
    ensures |r.out| <= Weight(st)
  {
    FlushTable(FlushList(st))
  }

  /** The blocks of a sequence of lines */
  function ParseLines(lines: seq<string>): seq<Block>
  {
    Finish(Fold(lines)).out
  }

  /** The blocks of a report, before bold processing */
  function Parse(content: string): seq<Block>
  {
    ParseLines(SplitOn(content, '\n'))
  }

  // ---------------------------------------------------------------------
  // Presentation
  // ---------------------------------------------------------------------

  function BoldTrimmed(texts: seq<string>): (r: seq<string>)
    ensures |r| == |texts|
  {
    seq(|texts|, i requires 0 <= i < |texts| => ProcessBold(Trim(texts[i])))
  }

  /** Each text field as the renderer injects it: headings and paragraphs
      through `processBold`, list items and cells trimmed again first */
  function Present(b: Block): Block
  {
    match b
    case Heading(level, text) => Heading(level, ProcessBold(text))
    case Paragraph(text) => Paragraph(ProcessBold(text))
    case List(items) => List(BoldTrimmed(items))
    case Table(headers, rows) =>
      Table(BoldTrimmed(headers), seq(|rows|, i requires 0 <= i < |rows| => BoldTrimmed(rows[i])))
    case Rule => Rule
  }

  /** `MarkdownRenderer({ content })`: the elements in order */
  function Render(content: string): seq<Block>
  {
    PresentAll(Parse(content))
  }

  function PresentAll(blocks: seq<Block>): seq<Block>
  {
    seq(|blocks|, i requires 0 <= i < |blocks| => Present(blocks[i]))
  }
}
