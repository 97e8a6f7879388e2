/** MarkdownParser's methods as loops over the lines, each proved to compute the block function
    of the same name: the parser reads the lines with an index and returns the element it built
    and the number of lines it consumed. The parser's only state is its immutable list of lines,
    which every method takes as a parameter. */
module Parser {
  import opened Strings
  import opened Inline
  import opened LineKinds
  import opened Blocks

  /** Parse: walks the lines, appending the element each step produces and moving on by the lines
      it consumed. Where a step consumes nothing the source's loop never ends; here Parse returns
      Stuck with that line. */
  method Parse(markdown: string) returns (r: Outcome)
    ensures r == ParseMarkdown(markdown)
  {
    var lines := Split(markdown, '\n');
    var elements: seq<Element> := [];
    var i := 0;
    Started(markdown);
    while i < |lines|
      invariant i <= |lines|
      invariant ParseMarkdown(markdown) == Then(elements, ParseFrom(lines, i))
    {
      var e, consumed := ParseLineAt(lines, i, elements);
      if consumed == 0 {
        return Stuck(i);
      }
      elements := elements + Emitted(e);
      i := i + consumed;
    }
    Finished(lines, elements);
    return Parsed(elements);
  }

  /** One pass of Parse's loop body, stated as its effect on the outcome of the whole loop. */
  method ParseLineAt(lines: seq<string>, i: nat, ghost done: seq<Element>)
    returns (e: Option<Element>, consumed: nat)
    requires i < |lines|
    ensures consumed == 0 ==> Then(done, ParseFrom(lines, i)) == Stuck(i)
    ensures consumed > 0 ==> i + consumed <= |lines|
    ensures consumed > 0 ==>
      Then(done, ParseFrom(lines, i)) == Then(done + Emitted(e), ParseFrom(lines, i + consumed))
  {
    e, consumed := ParseStep(lines, i);
    Advance(lines, i, done, e, consumed);
  }

  /** Parse's loop after one step: a step that consumes lines appends its element and moves on,
      one that consumes nothing is where the walk gets stuck. */
  lemma Advance(lines: seq<string>, i: nat, done: seq<Element>, e: Option<Element>, consumed: nat)
    requires i < |lines| && (e, consumed) == Steps(lines)[i]
    ensures consumed == 0 ==> Then(done, ParseFrom(lines, i)) == Stuck(i)
    ensures consumed > 0 ==> i + consumed <= |lines|
    ensures consumed > 0 ==>
      Then(done, ParseFrom(lines, i)) == Then(done + Emitted(e), ParseFrom(lines, i + consumed))
  {
    var steps := Steps(lines);
    if consumed == 0 {
      WalkStalls(steps, i, done);
    } else {
      WalkOn(steps, i, done, e, consumed);
    }
  }

  lemma Started(markdown: string)
    ensures ParseMarkdown(markdown) == Then([], ParseFrom(Split(markdown, '\n'), 0))
  {
    var rest := ParseFrom(Split(markdown, '\n'), 0);
    if rest.Parsed? {
      assert [] + rest.elements == rest.elements;
    }
  }

  lemma Finished(lines: seq<string>, done: seq<Element>)
    ensures Then(done, ParseFrom(lines, |lines|)) == Parsed(done)
  {
    assert done + [] == done;
  }

  /** A step that consumes lines appends its element and moves the walk on. */
  lemma WalkOn(steps: seq<(Option<Element>, nat)>, i: nat, done: seq<Element>,
               e: Option<Element>, consumed: nat)
    requires Bounded(steps) && i < |steps| && steps[i] == (e, consumed) && consumed > 0
    ensures Then(done, Walk(steps, i)) == Then(done + Emitted(e), Walk(steps, i + consumed))
  {
    var rest := Walk(steps, i + consumed);
    if rest.Parsed? {
      assert done + (Emitted(e) + rest.elements) == (done + Emitted(e)) + rest.elements;
    }
  }

  /** A step that consumes nothing is where the walk gets stuck. */
  lemma WalkStalls(steps: seq<(Option<Element>, nat)>, i: nat, done: seq<Element>)
    requires Bounded(steps) && i < |steps| && steps[i].1 == 0
    ensures Then(done, Walk(steps, i)) == Stuck(i)
  {
  }

  /** One pass of Parse's loop body at line i. */
  method ParseStep(lines: seq<string>, i: nat) returns (e: Option<Element>, consumed: nat)
    requires i < |lines|
    ensures (e, consumed) == Steps(lines)[i]
  {
    StepAt(lines, i);
    var line := lines[i];
    var trimmed := TrimSpace(line);
    if trimmed == [] {
      return None, 1;
    }
    if "#" <= trimmed {
      var header, n := ParseHeader(lines, i);
      if n > 0 {
        return header, n;
      }
    }
    if i + 1 < |lines| {
      var nextLine := TrimSpace(lines[i + 1]);
      if IsSetextHeader(nextLine) {
        var level := 1;
        if "-" <= nextLine {
          level := 2;
        }
        var children := ParseInline(trimmed);
        return Some(Header(level, trimmed, children)), 2;
      }
    }
    if IsHorizontalRule(trimmed) {
      return Some(Rule), 1;
    }
    var block, n := ParseBlock(lines, i);
    return Some(block), n;
  }

  /** The branches of Parse's loop body that hand the lines to a block parser. */
  method ParseBlock(lines: seq<string>, i: nat) returns (e: Element, consumed: nat)
    requires i < |lines|
    ensures (e, consumed) == BlockAt(lines, i)
  {
    var line := lines[i];
    var trimmed := TrimSpace(line);
    if "```" <= trimmed || "~~~" <= trimmed {
      e, consumed := ParseCodeBlock(lines, i);
    } else if |line| > 0 && ("    " <= line || "\t" <= line) {
      e, consumed := ParseIndentedCodeBlock(lines, i);
    } else if ">" <= trimmed {
      e, consumed := ParseBlockquote(lines, i);
    } else if i + 1 < |lines| && IsTableSeparator(TrimSpace(lines[i + 1])) {
      e, consumed := ParseTable(lines, i);
    } else if IsUnorderedListItem(trimmed) {
      e, consumed := ParseList(lines, i, false);
    } else if IsOrderedListItem(trimmed) {
      e, consumed := ParseList(lines, i, true);
    } else if IsTaskListItem(trimmed) {
      e, consumed := ParseTaskList(lines, i);
    } else {
      e, consumed := ParseParagraph(lines, i);
    }
  }

  /** parseHeader: count the leading `#`, then take the rest without spaces and closing `#`s. */
  method ParseHeader(lines: seq<string>, start: nat) returns (e: Option<Element>, consumed: nat)
    requires start < |lines|
    ensures e == HeaderAt(TrimSpace(lines[start]))
    ensures consumed == (if e.Some? then 1 else 0)
  {
    var line := TrimSpace(lines[start]);
    var level := 0;
    while level < |line| && line[level] == '#'
      invariant level <= |line|
      invariant Hashes(line) == level + Hashes(line[level..])
    {
      assert line[level..][1..] == line[level + 1..];
      level := level + 1;
    }
    if 0 < level <= 6 {
      var content := TrimSpace(line[level..]);
      content := TrimRightChar(content, '#');
      content := TrimSpace(content);
      var children := ParseInline(content);
      return Some(Header(level, content, children)), 1;
    }
    return None, 0;
  }

  /** parseCodeBlock: the lines up to the closing fence, which is consumed too. */
  method ParseCodeBlock(lines: seq<string>, start: nat) returns (e: Element, consumed: nat)
    requires start < |lines|
    ensures (e, consumed) == CodeBlockAt(lines, start)
  {
    var line := TrimSpace(lines[start]);
    var fence := "```";
    if "~~~" <= line {
      fence := "~~~";
    }
    assert fence == Fence(line);
    var language := TrimSpace(TrimPrefix(line, fence));
    var codeLines: seq<string> := [];
    var i := start + 1;
    ghost var close := FenceClose(lines, start + 1, fence);
    while i < |lines|
      invariant start + 1 <= i <= close
      invariant codeLines == lines[start + 1..i]
    {
      if fence <= TrimSpace(lines[i]) {
        assert i == close;
        i := i + 1;
        break;
      }
      codeLines := codeLines + [lines[i]];
      i := i + 1;
    }
    assert codeLines == lines[start + 1..close];
    assert i - start == CodeBlockAt(lines, start).1;
    return CodeBlock(Join(codeLines, "\n"), language), i - start;
  }

  /** parseIndentedCodeBlock: blank lines and lines indented by four spaces or a tab, without
      their indentation. */
  method ParseIndentedCodeBlock(lines: seq<string>, start: nat) returns (e: Element, consumed: nat)
    requires start < |lines|
    ensures (e, consumed) == IndentedAt(lines, start)
  {
    var codeLines, i := IndentedLines(lines, start);
    return CodeBlock(Join(codeLines, "\n"), []), i - start;
  }

  /** The loop of parseIndentedCodeBlock. */
  method IndentedLines(lines: seq<string>, start: nat) returns (codeLines: seq<string>, i: nat)
    requires start < |lines|
    ensures codeLines == ScanFrom(Indented, lines, start).items
    ensures i == ScanFrom(Indented, lines, start).end
  {
    codeLines := [];
    i := start;
    ghost var whole := ScanFrom(Indented, lines, start);
    while i < |lines|
      invariant start <= i <= |lines|
      invariant whole.items == codeLines + ScanFrom(Indented, lines, i).items
      invariant whole.end == ScanFrom(Indented, lines, i).end
    {
      var line := lines[i];
      if |line| == 0 || TrimSpace(line) == [] {
        KeptLine(Indented, lines, i, codeLines, []);
        codeLines := codeLines + [[]];
        i := i + 1;
        continue;
      }
      if "    " <= line {
        KeptLine(Indented, lines, i, codeLines, line[4..]);
        codeLines := codeLines + [line[4..]];
        i := i + 1;
      } else if "\t" <= line {
        KeptLine(Indented, lines, i, codeLines, line[1..]);
        codeLines := codeLines + [line[1..]];
        i := i + 1;
      } else {
        ScanDone(Indented, lines, i);
        break;
      }
    }
    assert codeLines + [] == codeLines;
  }

  /** parseBlockquote: the text after each `>`, and an empty piece for a blank line that another
      `>` line follows, joined with spaces. */
  method ParseBlockquote(lines: seq<string>, start: nat) returns (e: Element, consumed: nat)
    requires start < |lines|
    ensures (e, consumed) == QuoteAt(lines, start)
  {
    var quoteLines, i := QuoteLines(lines, start);
    var content := Join(quoteLines, " ");
    var children := ParseInline(content);
    return Quote(content, children), i - start;
  }

  /** The loop of parseBlockquote. */
  method QuoteLines(lines: seq<string>, start: nat) returns (quoteLines: seq<string>, i: nat)
    requires start < |lines|
    ensures quoteLines == ScanFrom(Quoted, lines, start).items
    ensures i == ScanFrom(Quoted, lines, start).end
  {
    quoteLines := [];
    i := start;
    ghost var whole := ScanFrom(Quoted, lines, start);
    while i < |lines|
      invariant start <= i <= |lines|
      invariant whole.items == quoteLines + ScanFrom(Quoted, lines, i).items
      invariant whole.end == ScanFrom(Quoted, lines, i).end
    {
      var line := TrimSpace(lines[i]);
      if ">" <= line {
        var content := TrimSpace(TrimPrefix(line, ">"));
        KeptLine(Quoted, lines, i, quoteLines, content);
        quoteLines := quoteLines + [content];
        i := i + 1;
      } else if line == [] && i + 1 < |lines| && ">" <= TrimSpace(lines[i + 1]) {
        KeptLine(Quoted, lines, i, quoteLines, []);
        quoteLines := quoteLines + [[]];
        i := i + 1;
      } else {
        ScanDone(Quoted, lines, i);
        break;
      }
    }
    assert quoteLines + [] == quoteLines;
  }

  /** parseParagraph: the trimmed lines up to one that breaks the paragraph, joined with spaces. */
  method ParseParagraph(lines: seq<string>, start: nat) returns (e: Element, consumed: nat)
    requires start < |lines|
    ensures (e, consumed) == ParagraphAt(lines, start)
  {
    var paragraphLines, i := ParagraphLines(lines, start);
    var content := Join(paragraphLines, " ");
    var children := ParseInline(content);
    return Paragraph(content, children), i - start;
  }

  /** The loop of parseParagraph. */
  method ParagraphLines(lines: seq<string>, start: nat) returns (paragraphLines: seq<string>, i: nat)
    requires start < |lines|
    ensures paragraphLines == ScanFrom(Prose, lines, start).items
    ensures i == ScanFrom(Prose, lines, start).end
  {
    paragraphLines := [];
    i := start;
    ghost var whole := ScanFrom(Prose, lines, start);
    while i < |lines|
      invariant start <= i <= |lines|
      invariant whole.items == paragraphLines + ScanFrom(Prose, lines, i).items
      invariant whole.end == ScanFrom(Prose, lines, i).end
    {
      var line := TrimSpace(lines[i]);
      if line == [] {
        ScanDone(Prose, lines, i);
        break;
      }
      if "#" <= line || "```" <= line || "~~~" <= line || IsUnorderedListItem(line)
         || "> " <= line || IsHorizontalRule(line) || IsOrderedListItem(line)
         || IsTaskListItem(line) {
        ScanDone(Prose, lines, i);
        break;
      }
      KeptLine(Prose, lines, i, paragraphLines, line);
      paragraphLines := paragraphLines + [line];
      i := i + 1;
    }
    assert paragraphLines + [] == paragraphLines;
  }

  /** parseList: the text of each item of the list's kind, and a blank line is stepped over when
      another such item follows it. */
  method ParseList(lines: seq<string>, start: nat, ordered: bool) returns (e: Element, consumed: nat)
    requires start < |lines|
    ensures (e, consumed) == ListAt(lines, start, ordered)
  {
    var items, itemChildren, i := ListLines(lines, start, ordered);
    return List(ordered, items, itemChildren), i - start;
  }

  /** The loop of parseList. */
  method ListLines(lines: seq<string>, start: nat, ordered: bool)
    returns (items: seq<string>, itemChildren: seq<seq<Run>>, i: nat)
    requires start < |lines|
    ensures items == ScanFrom(Listed(ordered), lines, start).items
    ensures itemChildren == AllInlineRuns(ScanFrom(Listed(ordered), lines, start).inlines)
    ensures i == ScanFrom(Listed(ordered), lines, start).end
  {
    items, itemChildren := [], [];
    i := start;
    ghost var inlines: seq<string> := [];
    ghost var act := ActionOf(Listed(ordered));
    ghost var whole := ScanWith(act, lines, start);
    while i < |lines|
      invariant start <= i <= |lines|
      invariant whole.items == items + ScanWith(act, lines, i).items
      invariant whole.inlines == inlines + ScanWith(act, lines, i).inlines
      invariant whole.end == ScanWith(act, lines, i).end
      invariant itemChildren == AllInlineRuns(inlines)
    {
      var a := ListLineStep(lines, i, ordered);
      assert act(lines, i) == a;
      if a.Stop? {
        DoneWith(act, lines, i);
        break;
      }
      if a.Keep? {
        var content := a.item;
        KeptWith(act, lines, i, items, inlines, content, content);
        var children := ParseInline(content);
        AllInlineRunsSnoc(inlines, content);
        items, itemChildren := items + [content], itemChildren + [children];
        inlines := inlines + [content];
      } else {
        SkippedWith(act, lines, i);
      }
      i := i + 1;
    }
    if i == |lines| {
      DoneWith(act, lines, i);
    }
    assert items + [] == items && inlines + [] == inlines;
  }

  /** The body of parseList's loop at line i: step over a blank line that another item of the
      list's kind follows (Skip), end the list (Stop), or keep the item's text (Keep). */
  method ListLineStep(lines: seq<string>, i: nat, ordered: bool) returns (a: Action)
    requires i < |lines|
    ensures a == LineAction(Listed(ordered), lines, i)
    ensures a.Keep? ==> a.inline == a.item
  {
    var line := TrimSpace(lines[i]);
    if line == [] {
      ListBlank(lines, i, ordered);
      if i + 1 < |lines| {
        var nextLine := TrimSpace(lines[i + 1]);
        if (ordered && IsOrderedListItem(nextLine)) || (!ordered && IsUnorderedListItem(nextLine)) {
          return Skip;
        }
      }
      return Stop;
    }
    TrimSpaceOfTrimmed(line);
    var content: string;
    if ordered && IsOrderedListItem(line) {
      var dotIdx := Index(line, ".");
      // isOrderedListItem has already found the first `.` strictly inside the line, so the
      // guard parseList puts on its position always holds.
      assert dotIdx > 0 && dotIdx < |line| - 1;
      content := TrimSpace(line[dotIdx + 1..]);
      OrderedKept(lines, i, content);
    } else if !ordered && IsUnorderedListItem(line) {
      content := line[1..];
      if |content| > 0 && content[0] == ' ' {
        content := content[1..];
      }
      content := TrimSpace(content);
      UnorderedKept(lines, i, content);
    } else {
      ListOther(lines, i, ordered);
      return Stop;
    }
    return Keep(content, content);
  }

  /** At a blank line a list steps over it into another item of its kind, or ends. */
  lemma ListBlank(lines: seq<string>, i: nat, ordered: bool)
    requires i < |lines| && TrimSpace(lines[i]) == []
    ensures LineAction(Listed(ordered), lines, i)
            == if i + 1 < |lines| && SameKind(ordered, TrimSpace(lines[i + 1])) then Skip else Stop
  {
  }

  /** At a line that is not an item of its kind a list ends. */
  lemma ListOther(lines: seq<string>, i: nat, ordered: bool)
    requires i < |lines| && TrimSpace(lines[i]) != [] && !SameKind(ordered, TrimSpace(lines[i]))
    ensures LineAction(Listed(ordered), lines, i) == Stop
  {
  }

  /** The text the loop computes for an ordered item is the one the list keeps. */
  lemma OrderedKept(lines: seq<string>, i: nat, content: string)
    requires i < |lines|
    requires var line := TrimSpace(lines[i]);
      IsOrderedListItem(line) && content == TrimSpace(line[Index(line, ".") + 1..])
    ensures LineAction(Listed(true), lines, i) == Keep(content, content)
  {
    TrimSpaceOfTrimmed(TrimSpace(lines[i]));
  }

  /** The text the loop computes for an unordered item is the one the list keeps. */
  lemma UnorderedKept(lines: seq<string>, i: nat, content: string)
    requires i < |lines|
    requires var line := TrimSpace(lines[i]);
      && IsUnorderedListItem(line)
      && content == TrimSpace(if line[1] == ' ' then line[2..] else line[1..])
    ensures LineAction(Listed(false), lines, i) == Keep(content, content)
  {
    var line := TrimSpace(lines[i]);
    TrimSpaceOfTrimmed(line);
    assert line[1..][1..] == line[2..];
  }

  /** parseTaskList: each task line gives its checkbox and text; the item's inline runs are those
      of the text. */
  method ParseTaskList(lines: seq<string>, start: nat) returns (e: Element, consumed: nat)
    requires start < |lines|
    ensures e == TaskListAt(lines, start).0 && consumed == TaskListAt(lines, start).1
  {
    var items, itemChildren, i := TaskLines(lines, start);
    TaskListResult(lines, start, items, itemChildren, i);
    return TaskList(items, itemChildren), i - start;
  }

  /** The loop of parseTaskList. */
  method TaskLines(lines: seq<string>, start: nat)
    returns (items: seq<string>, itemChildren: seq<seq<Run>>, i: nat)
    requires start < |lines|
    ensures items == ScanFrom(Tasks, lines, start).items
    ensures itemChildren == AllInlineRuns(ScanFrom(Tasks, lines, start).inlines)
    ensures i == ScanFrom(Tasks, lines, start).end
  {
    items, itemChildren := [], [];
    i := start;
    ghost var inlines: seq<string> := [];
    ghost var act := ActionOf(Tasks);
    ghost var whole := ScanWith(act, lines, start);
    while i < |lines|
      invariant start <= i <= |lines|
      invariant whole.items == items + ScanWith(act, lines, i).items
      invariant whole.inlines == inlines + ScanWith(act, lines, i).inlines
      invariant whole.end == ScanWith(act, lines, i).end
      invariant itemChildren == AllInlineRuns(inlines)
    {
      var a := TaskLineStep(lines, i);
      assert act(lines, i) == a;
      if a.Stop? {
        DoneWith(act, lines, i);
        break;
      }
      if a.Keep? {
        var displayText, text := a.item, a.inline;
        KeptWith(act, lines, i, items, inlines, displayText, text);
        var children := ParseInline(text);
        AllInlineRunsSnoc(inlines, text);
        items, itemChildren := items + [displayText], itemChildren + [children];
        inlines := inlines + [text];
      } else {
        SkippedWith(act, lines, i);
      }
      i := i + 1;
    }
    if i == |lines| {
      DoneWith(act, lines, i);
    }
    assert items + [] == items && inlines + [] == inlines;
  }

  /** The body of parseTaskList's loop at line i: end the list at a line that is not a task item
      (Stop), or keep the checkbox and text of the match (Keep); a task line the expression then
      fails to match is stepped over (Skip). */
  method TaskLineStep(lines: seq<string>, i: nat) returns (a: Action)
    requires i < |lines|
    ensures a == LineAction(Tasks, lines, i)
  {
    var line := TrimSpace(lines[i]);
    if line == [] || !IsTaskListItem(line) {
      return Stop;
    }
    var matches := TaskMatch(line);
    if matches.Some? {
      var checked := matches.value.checked;
      var text := matches.value.text;
      var displayText := if checked then "[x] " + text else "[ ] " + text;
      return Keep(displayText, text);
    }
    return Skip;
  }

  /** parseTable: the header row, the alignments of the separator row when there is one, then the
      data rows. */
  method ParseTable(lines: seq<string>, start: nat) returns (e: Element, consumed: nat)
    requires start < |lines|
    ensures (e, consumed) == TableAt(lines, start)
  {
    var headerLine := TrimSpace(lines[start]);
    var headerCells := ParseTableRow(headerLine);
    var align: seq<Alignment> := [];
    if start + 1 < |lines| {
      var sepLine := TrimSpace(lines[start + 1]);
      align := ParseTableAlignment(sepLine);
    }
    var dataRows, i := TableRows(lines, start + 2);
    return Table(WithHeader(headerCells, dataRows), align), i - start;
  }

  /** The loop of parseTable over the data rows, which starts past the end of the lines when the
      table has no separator row. */
  method TableRows(lines: seq<string>, j: nat) returns (rows: seq<seq<string>>, i: nat)
    ensures (rows, i) == DataRows(lines, j)
  {
    rows := [];
    i := j;
    ghost var kept: seq<string> := [];
    while i < |lines|
      invariant j <= i && (i <= |lines| || (i == j && kept == []))
      invariant j <= |lines| ==>
                  && ScanFrom(Rows, lines, j).items == kept + ScanFrom(Rows, lines, i).items
                  && ScanFrom(Rows, lines, j).end == ScanFrom(Rows, lines, i).end
      invariant rows == AllCells(kept)
    {
      var a := RowLineStep(lines, i);
      if a.Stop? {
        ScanDone(Rows, lines, i);
        break;
      }
      var line := a.item;
      var cells := ParseTableRow(line);
      KeptLine(Rows, lines, i, kept, line);
      AllCellsSnoc(kept, line);
      rows := rows + [cells];
      kept := kept + [line];
      i := i + 1;
    }
    if i == |lines| {
      ScanDone(Rows, lines, i);
    }
    RowsDone(lines, j, kept, i);
  }

  /** Once the scan from i keeps nothing, the rows kept are all the table's data rows. */
  lemma RowsDone(lines: seq<string>, j: nat, kept: seq<string>, i: nat)
    requires j <= |lines| ==>
               && j <= i <= |lines|
               && ScanFrom(Rows, lines, j).items == kept + ScanFrom(Rows, lines, i).items
               && ScanFrom(Rows, lines, j).end == ScanFrom(Rows, lines, i).end
               && ScanFrom(Rows, lines, i) == Scan([], [], i)
    requires j > |lines| ==> i == j && kept == []
    ensures DataRows(lines, j) == (AllCells(kept), i)
  {
    if j <= |lines| {
      assert kept + [] == kept;
    }
  }

  /** The test at the head of parseTable's loop at line i: a blank line or one without `|` ends
      the table (Stop); any other line is a row, trimmed (Keep). */
  method RowLineStep(lines: seq<string>, i: nat) returns (a: Action)
    requires i < |lines|
    ensures a == LineAction(Rows, lines, i)
    ensures a.Stop? || a.Keep?
  {
    var line := TrimSpace(lines[i]);
    if line == [] || '|' !in line {
      return Stop;
    }
    return Keep(line, []);
  }

  /** Keeping item x from line k moves the rest of a scan on by one line. */
  lemma KeptLine(s: Scanner, lines: seq<string>, k: nat, kept: seq<string>, x: string)
    requires k < |lines| && LineAction(s, lines, k).Keep? && LineAction(s, lines, k).item == x
    ensures kept + ScanFrom(s, lines, k).items == (kept + [x]) + ScanFrom(s, lines, k + 1).items
    ensures ScanFrom(s, lines, k).end == ScanFrom(s, lines, k + 1).end
  {
    KeptWith(ActionOf(s), lines, k, kept, [], x, LineAction(s, lines, k).inline);
  }

  /** A scan at the end of the lines, or at a line its scanner stops at, keeps nothing. */
  lemma ScanDone(s: Scanner, lines: seq<string>, k: nat)
    requires k <= |lines|
    requires k < |lines| ==> LineAction(s, lines, k).Stop?
    ensures ScanFrom(s, lines, k) == Scan([], [], k)
  {
    DoneWith(ActionOf(s), lines, k);
  }

  /** Keeping item x, with inline text y, from line k moves the rest of a scan on by one line. */
  lemma KeptItem(s: Scanner, lines: seq<string>, k: nat, kept: seq<string>, inlines: seq<string>,
                 x: string, y: string)
    requires k < |lines| && LineAction(s, lines, k) == Keep(x, y)
    ensures kept + ScanFrom(s, lines, k).items == (kept + [x]) + ScanFrom(s, lines, k + 1).items
    ensures inlines + ScanFrom(s, lines, k).inlines
            == (inlines + [y]) + ScanFrom(s, lines, k + 1).inlines
    ensures ScanFrom(s, lines, k).end == ScanFrom(s, lines, k + 1).end
  {
    KeptWith(ActionOf(s), lines, k, kept, inlines, x, y);
  }

  /** Stepping over line k leaves a scan unchanged. */
  lemma SkippedLine(s: Scanner, lines: seq<string>, k: nat)
    requires k < |lines| && LineAction(s, lines, k).Skip?
    ensures ScanFrom(s, lines, k) == ScanFrom(s, lines, k + 1)
  {
    SkippedWith(ActionOf(s), lines, k);
  }

  lemma KeptWith(act: (seq<string>, nat) -> Action, lines: seq<string>, k: nat,
                 kept: seq<string>, inlines: seq<string>, x: string, y: string)
    requires k < |lines| && act(lines, k) == Keep(x, y)
    ensures kept + ScanWith(act, lines, k).items == (kept + [x]) + ScanWith(act, lines, k + 1).items
    ensures inlines + ScanWith(act, lines, k).inlines
            == (inlines + [y]) + ScanWith(act, lines, k + 1).inlines
    ensures ScanWith(act, lines, k).end == ScanWith(act, lines, k + 1).end
  {
  }

  lemma DoneWith(act: (seq<string>, nat) -> Action, lines: seq<string>, k: nat)
    requires k <= |lines|
    requires k < |lines| ==> act(lines, k).Stop?
    ensures ScanWith(act, lines, k) == Scan([], [], k)
  {
  }

  lemma SkippedWith(act: (seq<string>, nat) -> Action, lines: seq<string>, k: nat)
    requires k < |lines| && act(lines, k).Skip?
    ensures ScanWith(act, lines, k) == ScanWith(act, lines, k + 1)
  {
  }

  lemma AllInlineRunsSnoc(texts: seq<string>, t: string)
    ensures AllInlineRuns(texts + [t]) == AllInlineRuns(texts) + [InlineRuns(t)]
  {
    assert forall k :: 0 <= k < |texts| ==> (texts + [t])[k] == texts[k];
  }

  lemma AllCellsSnoc(rows: seq<string>, row: string)
    ensures AllCells(rows + [row]) == AllCells(rows) + [TableRowCells(row)]
  {
    assert forall k :: 0 <= k < |rows| ==> (rows + [row])[k] == rows[k];
  }

  /** How parseTaskList's element is put together from the scan of its lines. */
  lemma TaskListResult(lines: seq<string>, start: nat, items: seq<string>, itemChildren: seq<seq<Run>>, end: nat)
    requires start < |lines|
    requires items == ScanFrom(Tasks, lines, start).items
    requires itemChildren == AllInlineRuns(ScanFrom(Tasks, lines, start).inlines)
    requires end == ScanFrom(Tasks, lines, start).end
    ensures TaskList(items, itemChildren) == TaskListAt(lines, start).0
    ensures end - start == TaskListAt(lines, start).1
  {
  }
}
