/** The block level of the Markdown parser: the input is split into lines, and Parse walks them
    with an index, trying each kind of block in a fixed order. Each kind reads some lines and
    reports how many it consumed. */
module Blocks {
  import opened Strings
  import opened Inline
  import opened LineKinds

  /** A parsed block. The constructor stands for MarkdownElement's Type:
      Header is "h1".."h6", Paragraph "p", CodeBlock "code", List "list" or "ordered-list",
      TaskList "task-list", Quote "blockquote", Table "table" and Rule "hr". */
  datatype Element =
    | Header(level: nat, content: string, children: seq<Run>)
    | Paragraph(content: string, children: seq<Run>)
    | CodeBlock(content: string, language: string)
    | List(ordered: bool, items: seq<string>, itemChildren: seq<seq<Run>>)
    | TaskList(items: seq<string>, itemChildren: seq<seq<Run>>)
    | Quote(content: string, children: seq<Run>)
    | Table(rows: seq<seq<string>>, align: seq<Alignment>)
    | Rule

  /** What Parse produces. A line that no branch consumes makes the parser loop forever on it;
      Stuck names that line. */
  datatype Outcome = Parsed(elements: seq<Element>) | Stuck(line: nat)

  /** The lines of a document (NewMarkdownParser). */
  function Lines(markdown: string): seq<string> {
    Split(markdown, '\n')
  }

  // ---------------------------------------------------------------------------------------------
  // ATX headers

  /** The number of leading `#` of a line. */
  function Hashes(t: string): (n: nat)
    ensures n <= |t|
    ensures n < |t| ==> t[n] != '#'
  {
    if t != [] && t[0] == '#' then 1 + Hashes(t[1..]) else 0
  }

  /** What follows the hashes, without the surrounding spaces and the closing `#`s. */
  function HeaderContent(rest: string): (content: string)
    ensures Trimmed(content)
  {
    TrimSpace(TrimRightChar(TrimSpace(rest), '#'))
  }

  /** parseHeader on a trimmed line: a header when it has one to six leading `#`. */
  function HeaderAt(t: string): (e: Option<Element>)
    ensures e.Some? <==> 1 <= Hashes(t) <= 6
    ensures e.Some? ==> e.value.Header? && e.value.level == Hashes(t) && Trimmed(e.value.content)
    ensures e.Some? ==> e.value.children == InlineRuns(e.value.content)
  {
    var level := Hashes(t);
    if 0 < level <= 6 then
      var content := HeaderContent(t[level..]);
      Some(Header(level, content, InlineRuns(content)))
    else None
  }

  function Repeat(c: char, n: nat): (r: string)
    ensures |r| == n && AllOf(r, c)
  {
    if n == 0 then [] else [c] + Repeat(c, n - 1)
  }

  lemma {:induction false} HashesOf(n: nat, rest: string)
    requires rest == [] || rest[0] != '#'
    ensures Hashes(Repeat('#', n) + rest) == n
  {
    if n > 0 {
      assert (Repeat('#', n) + rest)[1..] == Repeat('#', n - 1) + rest;
      HashesOf(n - 1, rest);
    } else {
      assert Repeat('#', n) + rest == rest;
    }
  }

  /** A header written as `### text` reads back with its level and text. */
  lemma HeaderRoundTrip(level: nat, content: string)
    requires 1 <= level <= 6 && Trimmed(content)
    requires content == [] || (content[0] != '#' && content[|content| - 1] != '#')
    ensures var e := HeaderAt(TrimSpace(Repeat('#', level) + " " + content));
            e.Some? && e.value.level == level && e.value.content == content
  {
    if content == [] {
      EmptyHeaderRoundTrip(level);
    } else {
      TextHeaderRoundTrip(level, content);
    }
  }

  lemma EmptyHeaderRoundTrip(level: nat)
    requires 1 <= level <= 6
    ensures var e := HeaderAt(TrimSpace(Repeat('#', level) + " " + []));
            e.Some? && e.value.level == level && e.value.content == []
  {
    EmptyHeaderLine(Repeat('#', level));
    HeaderAtHashes(level, []);
    HeaderContentOf([]);
  }

  lemma TextHeaderRoundTrip(level: nat, content: string)
    requires 1 <= level <= 6 && Trimmed(content)
    requires content != [] && content[0] != '#' && content[|content| - 1] != '#'
    ensures var e := HeaderAt(TrimSpace(Repeat('#', level) + " " + content));
            e.Some? && e.value.level == level && e.value.content == content
  {
    TextHeaderLine(Repeat('#', level), content);
    HeaderAtHashes(level, " " + content);
    HeaderContentOf(content);
  }

  lemma TextHeaderLine(hashes: string, content: string)
    requires hashes != [] && AllOf(hashes, '#')
    requires content != [] && Trimmed(content)
    ensures TrimSpace(hashes + " " + content) == hashes + (" " + content)
  {
    var line := hashes + " " + content;
    assert Trimmed(line);
    TrimSpaceOfTrimmed(line);
  }

  lemma EmptyHeaderLine(hashes: string)
    requires hashes != [] && AllOf(hashes, '#')
    ensures TrimSpace(hashes + " " + []) == hashes + []
  {
    assert hashes + " " + [] == [] + hashes + " ";
    TrimSpaceAround([], hashes, " ");
    assert hashes + [] == hashes;
  }

  lemma HeaderAtHashes(level: nat, rest: string)
    requires 1 <= level <= 6
    requires rest == [] || rest[0] != '#'
    ensures HeaderAt(Repeat('#', level) + rest).Some?
    ensures HeaderAt(Repeat('#', level) + rest).value.level == level
    ensures HeaderAt(Repeat('#', level) + rest).value.content == HeaderContent(rest)
  {
    HashesOf(level, rest);
    assert (Repeat('#', level) + rest)[level..] == rest;
  }

  lemma HeaderContentOf(content: string)
    requires Trimmed(content)
    requires content == [] || content[|content| - 1] != '#'
    ensures HeaderContent(" " + content) == content
    ensures HeaderContent(content) == content
  {
    TrimSpaceAround(" ", content, []);
    assert " " + content + [] == " " + content;
    TrimSpaceOfTrimmed(content);
    assert TrimRightChar(content, '#') == content;
  }

  /** strings.TrimRight drops a run of the cut rune and stops at the first other rune. */
  lemma {:induction false} TrimRightCharRepeat(x: string, c: char, k: nat)
    requires x == [] || x[|x| - 1] != c
    ensures TrimRightChar(x + Repeat(c, k), c) == x
  {
    if k == 0 {
      assert x + Repeat(c, k) == x;
    } else {
      assert Repeat(c, k) == Repeat(c, k - 1) + [c] by {
        RepeatSnoc(c, k);
      }
      assert (x + Repeat(c, k))[..|x| + k - 1] == x + Repeat(c, k - 1);
      TrimRightCharRepeat(x, c, k - 1);
    }
  }

  lemma {:induction false} RepeatSnoc(c: char, k: nat)
    requires k > 0
    ensures Repeat(c, k) == Repeat(c, k - 1) + [c]
  {
    if k > 1 {
      RepeatSnoc(c, k - 1);
      assert [c] + (Repeat(c, k - 2) + [c]) == [c] + Repeat(c, k - 2) + [c];
    }
  }

  /** A closing sequence of `#` after a space is dropped: `## text ##` reads back as the level-2
      header with that text, whatever the text ends with. */
  lemma HeaderClosingHashes(level: nat, content: string, k: nat)
    requires 1 <= level <= 6 && 1 <= k
    requires content != [] && Trimmed(content)
    ensures var e := HeaderAt(TrimSpace(Repeat('#', level) + " " + content + " " + Repeat('#', k)));
            e.Some? && e.value.level == level && e.value.content == content
  {
    var closing := Repeat('#', k);
    var rest := " " + content + " " + closing;
    ClosedHeaderLine(Repeat('#', level), content, closing);
    HeaderAtHashes(level, rest);
    ClosedHeaderContent(content, k);
  }

  lemma ClosedHeaderLine(hashes: string, content: string, closing: string)
    requires hashes != [] && hashes[0] == '#' && closing != [] && closing[|closing| - 1] == '#'
    ensures TrimSpace(hashes + " " + content + " " + closing) == hashes + (" " + content + " " + closing)
  {
    var line := hashes + " " + content + " " + closing;
    assert line[0] == '#' && line[|line| - 1] == '#';
    TrimSpaceOfTrimmed(line);
  }

  lemma ClosedHeaderContent(content: string, k: nat)
    requires 1 <= k && content != [] && Trimmed(content)
    ensures HeaderContent(" " + content + " " + Repeat('#', k)) == content
  {
    var closing := Repeat('#', k);
    var body := content + " " + closing;
    ClosedHeaderTrim(content, closing);
    assert " " + content + " " + closing == " " + body + [];
    TrimSpaceAround(" ", body, []);
    TrimRightCharRepeat(content + " ", '#', k);
    TrimSpaceAround([], content, " ");
    assert [] + content + " " == content + " ";
  }

  lemma ClosedHeaderTrim(content: string, closing: string)
    requires content != [] && Trimmed(content) && closing != [] && closing[|closing| - 1] == '#'
    ensures Trimmed(content + " " + closing)
  {
    assert (content + " " + closing)[0] == content[0];
    assert (content + " " + closing)[|content| + |closing|] == closing[|closing| - 1];
  }

  /** More than six `#` is not a header. */
  lemma SevenHashesNoHeader(rest: string)
    requires rest == [] || rest[0] != '#'
    ensures HeaderAt(Repeat('#', 7) + rest).None?
  {
    HashesOf(7, rest);
  }

  // ---------------------------------------------------------------------------------------------
  // Fenced code blocks

  /** The fence a code block opens with: `~~~` or, by default, three backticks. */
  function Fence(t: string): string {
    if "~~~" <= t then "~~~" else "```"
  }

  predicate Closes(line: string, fence: string) {
    fence <= TrimSpace(line)
  }

  /** The first line at or after j that closes the fence, or the number of lines if none does. */
  function FenceClose(lines: seq<string>, j: nat, fence: string): (c: nat)
    requires j <= |lines|
    ensures j <= c <= |lines|
    ensures forall k :: j <= k < c ==> !Closes(lines[k], fence)
    ensures c < |lines| ==> Closes(lines[c], fence)
    decreases |lines| - j
  {
    if j == |lines| || Closes(lines[j], fence) then j else FenceClose(lines, j + 1, fence)
  }

  /** parseCodeBlock: the lines up to the closing fence, which is consumed too; the language is
      whatever follows the opening fence. */
  function CodeBlockAt(lines: seq<string>, i: nat): (r: (Element, nat))
    requires i < |lines|
    ensures 1 <= r.1 <= |lines| - i
    ensures r.0.CodeBlock?
  {
    var t := TrimSpace(lines[i]);
    var fence := Fence(t);
    var close := FenceClose(lines, i + 1, fence);
    var consumed := if close < |lines| then close + 1 - i else close - i;
    (CodeBlock(Join(lines[i + 1..close], "\n"), TrimSpace(TrimPrefix(t, fence))), consumed)
  }

  /** A fenced block reads back as the code between its fences and the language after the first. */
  lemma FencedRoundTrip(fence: string, language: string, code: seq<string>, close: string,
                        rest: seq<string>)
    requires fence == "```" || fence == "~~~"
    requires Trimmed(language) && (language == [] || language[0] != '~')
    requires forall k :: 0 <= k < |code| ==> !Closes(code[k], fence)
    requires Closes(close, fence)
    ensures var (e, consumed) := CodeBlockAt([fence + language] + code + [close] + rest, 0);
            e.content == Join(code, "\n") && e.language == language && consumed == |code| + 2
  {
    var lines := [fence + language] + code + [close] + rest;
    OpeningFence(fence, language);
    Framed(fence + language, code, close, rest);
    FenceCloseAfter(lines, code, fence);
  }

  /** Where the parts of `[open] + body + [close] + rest` sit. */
  lemma Framed(open: string, body: seq<string>, close: string, rest: seq<string>)
    ensures var lines := [open] + body + [close] + rest;
            lines[0] == open && lines[1..|body| + 1] == body && lines[|body| + 1] == close
  {
    var lines := [open] + body + [close] + rest;
    assert lines[1..|body| + 1] == body;
  }

  /** The code lines, none of which closes the fence, end at the line after them. */
  lemma FenceCloseAfter(lines: seq<string>, code: seq<string>, fence: string)
    requires |code| + 1 < |lines| && lines[1..|code| + 1] == code
    requires forall k :: 0 <= k < |code| ==> !Closes(code[k], fence)
    requires Closes(lines[|code| + 1], fence)
    ensures FenceClose(lines, 1, fence) == |code| + 1
  {
    forall k | 1 <= k < |code| + 1
      ensures !Closes(lines[k], fence)
    {
      assert lines[k] == code[k - 1];
    }
  }

  /** The opening line `fence language` names its fence and its language. */
  lemma OpeningFence(fence: string, language: string)
    requires fence == "```" || fence == "~~~"
    requires Trimmed(language) && (language == [] || language[0] != '~')
    ensures Fence(TrimSpace(fence + language)) == fence
    ensures TrimSpace(TrimPrefix(TrimSpace(fence + language), fence)) == language
  {
    var open := fence + language;
    assert Trimmed(open);
    TrimSpaceOfTrimmed(open);
    assert open[..3] == fence;
    assert Fence(open) == fence;
    assert TrimPrefix(open, fence) == language;
    TrimSpaceOfTrimmed(language);
  }

  /** An unclosed fenced block runs to the end of the input. */
  lemma UnclosedFenceRunsToEnd(lines: seq<string>, i: nat)
    requires i < |lines|
    requires forall k :: i < k < |lines| ==> !Closes(lines[k], Fence(TrimSpace(lines[i])))
    ensures CodeBlockAt(lines, i).1 == |lines| - i
    ensures CodeBlockAt(lines, i).0.content == Join(lines[i + 1..], "\n")
  {
    var c := FenceClose(lines, i + 1, Fence(TrimSpace(lines[i])));
    assert c == |lines|;
    assert lines[i + 1..c] == lines[i + 1..];
  }

  // ---------------------------------------------------------------------------------------------
  // Line scanners: the loops of the block parsers that read one line at a time

  /** The block parsers that read a run of lines. */
  datatype Scanner = Indented | Quoted | Listed(ordered: bool) | Tasks | Rows | Prose

  /** What the loop of a block parser does with line k: keep something from it (and, for list
      items, the text whose inline runs become the item's children), step over it, or stop. */
  datatype Action = Keep(item: string, inline: string) | Skip | Stop

  /** parseIndentedCodeBlock: a blank line gives an empty code line, otherwise four spaces or one
      tab of indentation are removed. */
  function IndentedLine(line: string): Option<string> {
    if line == [] || TrimSpace(line) == [] then Some([])
    else if "    " <= line then Some(line[4..])
    else if "\t" <= line then Some(line[1..])
    else None
  }

  /** The trimmed line if it holds a task item: the checkbox as `[x] ` or `[ ] `, then the text. */
  function TaskDisplay(item: TaskItem): string {
    (if item.checked then "[x] " else "[ ] ") + item.text
  }

  /** The per-line decision of each scanner. */
  function LineAction(s: Scanner, lines: seq<string>, k: nat): Action
    requires k < |lines|
  {
    match s
    case Indented => IndentedAction(lines[k])
    case Quoted => QuoteAction(lines, k)
    case Listed(ordered) => ListAction(lines, k, ordered)
    case Tasks => TaskAction(TrimSpace(lines[k]))
    case Rows => RowAction(TrimSpace(lines[k]))
    case Prose => ProseAction(TrimSpace(lines[k]))
  }

  /** The same decision as a function of the lines and the index; past the end, a stop. */
  function ActionOf(s: Scanner): (seq<string>, nat) -> Action {
    (lines: seq<string>, k: nat) => if k < |lines| then LineAction(s, lines, k) else Stop
  }

  function IndentedAction(line: string): Action {
    match IndentedLine(line)
    case Some(code) => Keep(code, [])
    case None => Stop
  }

  /** parseBlockquote keeps the text after `>`, and a blank line that another `>` line follows. */
  function QuoteAction(lines: seq<string>, k: nat): Action
    requires k < |lines|
  {
    var t := TrimSpace(lines[k]);
    if ">" <= t then Keep(TrimSpace(TrimPrefix(t, ">")), [])
    else if t == [] && k + 1 < |lines| && ">" <= TrimSpace(lines[k + 1]) then Keep([], [])
    else Stop
  }

  /** parseList keeps the text of each item of its kind and steps over a blank line that another
      such item follows. */
  function ListAction(lines: seq<string>, k: nat, ordered: bool): Action
    requires k < |lines|
  {
    var t := TrimSpace(lines[k]);
    if t == [] then
      if k + 1 < |lines| && SameKind(ordered, TrimSpace(lines[k + 1])) then Skip else Stop
    else if ordered && IsOrderedListItem(t) then Keep(OrderedItemText(t), OrderedItemText(t))
    else if !ordered && IsUnorderedListItem(t) then Keep(UnorderedItemText(t), UnorderedItemText(t))
    else Stop
  }

  /** parseTaskList keeps the checkbox and text of each task item; its inline runs are those of
      the text alone. */
  function TaskAction(t: string): Action {
    if t == [] || !IsTaskListItem(t) then Stop
    else
      match TaskMatch(t)
      case Some(item) => Keep(TaskDisplay(item), item.text)
      case None => Skip
  }

  /** parseTable keeps every non-blank line that holds a `|`. */
  function RowAction(t: string): Action {
    if !HoldsRow(t) then Stop else Keep(t, [])
  }

  /** parseParagraph keeps every line up to one that breaks the paragraph. */
  function ProseAction(t: string): Action {
    if ParagraphBreak(t) then Stop else Keep(t, [])
  }

  /** Line k continues a list: an item of its kind, or a blank line with such an item after it. */
  predicate ListGoesOn(lines: seq<string>, k: nat, ordered: bool)
    requires k < |lines|
  {
    SameKind(ordered, TrimSpace(lines[k]))
    || (TrimSpace(lines[k]) == [] && k + 1 < |lines| && SameKind(ordered, TrimSpace(lines[k + 1])))
  }

  /** Line k continues a blockquote: it starts with `>`, or it is blank with such a line after it. */
  predicate QuoteGoesOn(lines: seq<string>, k: nat)
    requires k < |lines|
  {
    ">" <= TrimSpace(lines[k])
    || (TrimSpace(lines[k]) == [] && k + 1 < |lines| && ">" <= TrimSpace(lines[k + 1]))
  }

  /** A table row: a non-blank line holding a `|`. */
  predicate HoldsRow(t: string) {
    t != [] && '|' in t
  }

  /** A list continues over a blank line only into an item of its own kind. */
  predicate SameKind(ordered: bool, t: string) {
    (ordered && IsOrderedListItem(t)) || (!ordered && IsUnorderedListItem(t))
  }

  /** parseParagraph ends at a blank line or at a line that starts another kind of block. */
  predicate ParagraphBreak(t: string) {
    t == [] || "#" <= t || "```" <= t || "~~~" <= t || IsUnorderedListItem(t) || "> " <= t
    || IsHorizontalRule(t) || IsOrderedListItem(t) || IsTaskListItem(t)
  }

  /** What a scanner keeps from lines j.., and the line it stops at. */
  datatype Scan = Scan(items: seq<string>, inlines: seq<string>, end: nat)

  function ScanFrom(s: Scanner, lines: seq<string>, j: nat): (r: Scan)
    requires j <= |lines|
    ensures j <= r.end <= |lines|
    ensures |r.items| == |r.inlines| <= r.end - j
  {
    ScanWith(ActionOf(s), lines, j)
  }

  /** The scan of lines j.. under a per-line decision act. */
  function ScanWith(act: (seq<string>, nat) -> Action, lines: seq<string>, j: nat): (r: Scan)
    requires j <= |lines|
    ensures j <= r.end <= |lines|
    ensures |r.items| == |r.inlines| <= r.end - j
    decreases |lines| - j
  {
    if j == |lines| then Scan([], [], j)
    else
      match act(lines, j)
      case Stop => Scan([], [], j)
      case Skip => ScanWith(act, lines, j + 1)
      case Keep(x, y) =>
        var r := ScanWith(act, lines, j + 1);
        Scan([x] + r.items, [y] + r.inlines, r.end)
  }

  /** A scan keeps line j exactly when the line is kept and the scan goes on. */
  lemma ScanKeeps(s: Scanner, lines: seq<string>, j: nat)
    requires j < |lines| && LineAction(s, lines, j).Keep?
    ensures ScanFrom(s, lines, j).end > j
    ensures ScanFrom(s, lines, j).items != []
    ensures ScanFrom(s, lines, j).items[0] == LineAction(s, lines, j).item
  {
  }

  /** A scan consumes exactly the lines up to the first one its decision stops at. */
  lemma ScanStops(s: Scanner, lines: seq<string>, j: nat)
    requires j <= |lines|
    ensures forall k :: j <= k < ScanFrom(s, lines, j).end ==> !LineAction(s, lines, k).Stop?
    ensures ScanFrom(s, lines, j).end < |lines| ==> LineAction(s, lines, ScanFrom(s, lines, j).end).Stop?
  {
    var act := ActionOf(s);
    ScanWithStops(act, lines, j);
    forall k | j <= k < |lines|
      ensures act(lines, k) == LineAction(s, lines, k)
    {
    }
  }

  lemma {:induction false} ScanWithStops(act: (seq<string>, nat) -> Action, lines: seq<string>, j: nat)
    requires j <= |lines|
    ensures forall k :: j <= k < ScanWith(act, lines, j).end ==> !act(lines, k).Stop?
    ensures ScanWith(act, lines, j).end < |lines| ==> act(lines, ScanWith(act, lines, j).end).Stop?
    decreases |lines| - j
  {
    if j < |lines| && !act(lines, j).Stop? {
      ScanWithStops(act, lines, j + 1);
    }
  }

  /** The row scanner never steps over a line, so it keeps one row per line it consumes. */
  lemma {:induction false} RowScanCount(lines: seq<string>, j: nat)
    requires j <= |lines|
    ensures |ScanFrom(Rows, lines, j).items| == ScanFrom(Rows, lines, j).end - j
    decreases |lines| - j
  {
    if j < |lines| && LineAction(Rows, lines, j).Keep? {
      RowScanCount(lines, j + 1);
    }
  }

  /** The list scanner consumes the lines that continue the list. */
  lemma ListScanStops(lines: seq<string>, i: nat, ordered: bool)
    requires i <= |lines|
    ensures var e := ScanFrom(Listed(ordered), lines, i).end;
            forall k :: i <= k < e ==> ListGoesOn(lines, k, ordered)
    ensures var e := ScanFrom(Listed(ordered), lines, i).end;
            e < |lines| ==> !ListGoesOn(lines, e, ordered)
  {
    ScanStops(Listed(ordered), lines, i);
    var e := ScanFrom(Listed(ordered), lines, i).end;
    forall k | i <= k < e
      ensures ListGoesOn(lines, k, ordered)
    {
      assert !LineAction(Listed(ordered), lines, k).Stop?;
    }
    if e < |lines| {
      assert LineAction(Listed(ordered), lines, e).Stop?;
    }
  }

  /** A kept line followed by the scan of the lines after it. */
  lemma ScanKeepOn(s: Scanner, lines: seq<string>, j: nat)
    requires j < |lines| && LineAction(s, lines, j).Keep?
    ensures ScanFrom(s, lines, j).items == [LineAction(s, lines, j).item] + ScanFrom(s, lines, j + 1).items
    ensures ScanFrom(s, lines, j).end == ScanFrom(s, lines, j + 1).end
  {
  }

  /** The inline runs of each text. */
  function AllInlineRuns(texts: seq<string>): (runs: seq<seq<Run>>)
    ensures |runs| == |texts|
  {
    seq(|texts|, k requires 0 <= k < |texts| => InlineRuns(texts[k]))
  }

  /** The cells of each row. */
  function AllCells(rows: seq<string>): (cells: seq<seq<string>>)
    ensures |cells| == |rows|
  {
    seq(|rows|, k requires 0 <= k < |rows| => TableRowCells(rows[k]))
  }

  /** parseIndentedCodeBlock: a code block without language, over the indented or blank lines
      from i on, up to the first line that is neither. */
  function IndentedAt(lines: seq<string>, i: nat): (r: (Element, nat))
    requires i < |lines|
    ensures r.1 <= |lines| - i
    ensures r.0.CodeBlock? && r.0.language == []
  {
    var r := ScanFrom(Indented, lines, i);
    (CodeBlock(Join(r.items, "\n"), []), r.end - i)
  }

  /** parseBlockquote: the lines from i on that start with `>`, or are blank with such a line
      after them, up to the first other line. */
  function QuoteAt(lines: seq<string>, i: nat): (r: (Element, nat))
    requires i < |lines|
    ensures r.1 <= |lines| - i
    ensures r.0.Quote? && r.0.children == InlineRuns(r.0.content)
  {
    var r := ScanFrom(Quoted, lines, i);
    var content := Join(r.items, " ");
    (Quote(content, InlineRuns(content)), r.end - i)
  }

  /** parseList: the items of one kind from i on, stepping over a blank line that another such
      item follows, up to the first other line. */
  function ListAt(lines: seq<string>, i: nat, ordered: bool): (r: (Element, nat))
    requires i < |lines|
    ensures r.1 <= |lines| - i
    ensures r.0.List? && r.0.ordered == ordered && |r.0.itemChildren| == |r.0.items|
  {
    var r := ScanFrom(Listed(ordered), lines, i);
    (List(ordered, r.items, AllInlineRuns(r.inlines)), r.end - i)
  }

  /** parseTaskList: the task items from i on, up to the first line that is not one. */
  function TaskListAt(lines: seq<string>, i: nat): (r: (Element, nat))
    requires i < |lines|
    ensures r.1 <= |lines| - i
    ensures r.0.TaskList? && |r.0.itemChildren| == |r.0.items|
  {
    var r := ScanFrom(Tasks, lines, i);
    (TaskList(r.items, AllInlineRuns(r.inlines)), r.end - i)
  }

  /** parseParagraph: the lines from i on up to the first that breaks a paragraph. */
  function ParagraphAt(lines: seq<string>, i: nat): (r: (Element, nat))
    requires i < |lines|
    ensures r.1 <= |lines| - i
    ensures r.0.Paragraph? && r.0.children == InlineRuns(r.0.content)
  {
    var r := ScanFrom(Prose, lines, i);
    var content := Join(r.items, " ");
    (Paragraph(content, InlineRuns(content)), r.end - i)
  }

  /** parseTable: the header row, the alignments of the separator row, then the data rows, which
      run up to a blank line or a line without `|`. */
  function TableAt(lines: seq<string>, i: nat): (r: (Element, nat))
    requires i < |lines|
    ensures r.1 >= 2
    ensures i + 1 < |lines| ==> r.1 <= |lines| - i
    ensures r.0.Table? && |r.0.rows| == r.1 - 1
    ensures r.0.rows[0] == TableRowCells(TrimSpace(lines[i]))
  {
    DataRowsConsume(lines, i + 2);
    var data := DataRows(lines, i + 2);
    (Table(WithHeader(TableRowCells(TrimSpace(lines[i])), data.0), TableAlign(lines, i + 1)), data.1 - i)
  }

  /** An indented code block takes the indented or blank lines from i on and stops at the first
      line that is neither. */
  lemma IndentedAtConsumes(lines: seq<string>, i: nat)
    requires i < |lines|
    ensures var n := IndentedAt(lines, i).1;
            && (forall k :: i <= k < i + n ==> IndentedLine(lines[k]).Some?)
            && (i + n < |lines| ==> IndentedLine(lines[i + n]).None?)
  {
    ScanStops(Indented, lines, i);
    var e := ScanFrom(Indented, lines, i).end;
    forall k | i <= k < e
      ensures IndentedLine(lines[k]).Some?
    {
      assert !LineAction(Indented, lines, k).Stop?;
    }
    if e < |lines| {
      assert LineAction(Indented, lines, e).Stop?;
    }
  }

  /** A blockquote takes the lines from i on that continue it and stops at the first that does
      not. */
  lemma QuoteAtConsumes(lines: seq<string>, i: nat)
    requires i < |lines|
    ensures var n := QuoteAt(lines, i).1;
            && (forall k :: i <= k < i + n ==> QuoteGoesOn(lines, k))
            && (i + n < |lines| ==> !QuoteGoesOn(lines, i + n))
  {
    ScanStops(Quoted, lines, i);
    var e := ScanFrom(Quoted, lines, i).end;
    forall k | i <= k < e
      ensures QuoteGoesOn(lines, k)
    {
      QuoteLine(lines, k);
    }
    if e < |lines| {
      QuoteLine(lines, e);
    }
  }

  lemma QuoteLine(lines: seq<string>, k: nat)
    requires k < |lines|
    ensures LineAction(Quoted, lines, k).Stop? <==> !QuoteGoesOn(lines, k)
  {
  }

  /** A list takes the lines from i on that continue it and stops at the first that does not. */
  lemma ListAtConsumes(lines: seq<string>, i: nat, ordered: bool)
    requires i < |lines|
    ensures var n := ListAt(lines, i, ordered).1;
            && (forall k :: i <= k < i + n ==> ListGoesOn(lines, k, ordered))
            && (i + n < |lines| ==> !ListGoesOn(lines, i + n, ordered))
  {
    ListScanStops(lines, i, ordered);
  }

  /** A task list takes the task items from i on and stops at the first line that is not one. */
  lemma TaskListAtConsumes(lines: seq<string>, i: nat)
    requires i < |lines|
    ensures var n := TaskListAt(lines, i).1;
            && (forall k :: i <= k < i + n ==> IsTaskListItem(TrimSpace(lines[k])))
            && (i + n < |lines| ==> !IsTaskListItem(TrimSpace(lines[i + n])))
  {
    var e := ScanFrom(Tasks, lines, i).end;
    assert TaskListAt(lines, i).1 == e - i;
    TaskScanStops(lines, i);
  }

  lemma TaskScanStops(lines: seq<string>, i: nat)
    requires i <= |lines|
    ensures var e := ScanFrom(Tasks, lines, i).end;
            && (forall k :: i <= k < e ==> IsTaskListItem(TrimSpace(lines[k])))
            && (e < |lines| ==> !IsTaskListItem(TrimSpace(lines[e])))
  {
    ScanStops(Tasks, lines, i);
    var e := ScanFrom(Tasks, lines, i).end;
    forall k | i <= k < e
      ensures IsTaskListItem(TrimSpace(lines[k]))
    {
      TaskLineStops(lines, k);
    }
    if e < |lines| {
      TaskLineStops(lines, e);
    }
  }

  lemma TaskLineStops(lines: seq<string>, k: nat)
    requires k < |lines|
    ensures LineAction(Tasks, lines, k).Stop? <==> !IsTaskListItem(TrimSpace(lines[k]))
  {
  }

  /** A paragraph takes the lines from i on up to the first that breaks it. */
  lemma ParagraphAtConsumes(lines: seq<string>, i: nat)
    requires i < |lines|
    ensures var n := ParagraphAt(lines, i).1;
            && (forall k :: i <= k < i + n ==> !ParagraphBreak(TrimSpace(lines[k])))
            && (i + n < |lines| ==> ParagraphBreak(TrimSpace(lines[i + n])))
  {
    ScanStops(Prose, lines, i);
    var e := ScanFrom(Prose, lines, i).end;
    forall k | i <= k < e
      ensures !ParagraphBreak(TrimSpace(lines[k]))
    {
      assert !LineAction(Prose, lines, k).Stop?;
    }
    if e < |lines| {
      assert LineAction(Prose, lines, e).Stop?;
    }
  }

  /** After the header and separator lines, a table takes the lines that hold a row and stops
      at the first that does not. */
  lemma TableAtConsumes(lines: seq<string>, i: nat)
    requires i < |lines|
    ensures var n := TableAt(lines, i).1;
            && (i + 1 < |lines| ==> forall k :: i + 2 <= k < i + n ==> HoldsRow(TrimSpace(lines[k])))
            && (i + n < |lines| ==> !HoldsRow(TrimSpace(lines[i + n])))
  {
    DataRowsConsume(lines, i + 2);
  }

  /** A fenced block takes the lines up to and including the first that closes its fence, or all
      remaining lines when none does. */
  lemma CodeBlockAtConsumes(lines: seq<string>, i: nat)
    requires i < |lines|
    ensures var n := CodeBlockAt(lines, i).1;
            var fence := Fence(TrimSpace(lines[i]));
            && (forall k :: i < k < i + n - 1 ==> !Closes(lines[k], fence))
            && (i + n == |lines| || (n >= 2 && Closes(lines[i + n - 1], fence)))
  {
  }

  function WithHeader(header: seq<string>, rows: seq<seq<string>>): seq<seq<string>> {
    [header] + rows
  }

  /** The data rows are the lines from j on that hold a row, one row per line, up to the first
      line that does not. */
  lemma DataRowsConsume(lines: seq<string>, j: nat)
    ensures |DataRows(lines, j).0| == DataRows(lines, j).1 - j
    ensures j <= |lines| ==> forall k :: j <= k < DataRows(lines, j).1 ==> HoldsRow(TrimSpace(lines[k]))
    ensures DataRows(lines, j).1 < |lines| ==> !HoldsRow(TrimSpace(lines[DataRows(lines, j).1]))
  {
    if j <= |lines| {
      ScanStops(Rows, lines, j);
      RowScanCount(lines, j);
      var e := ScanFrom(Rows, lines, j).end;
      forall k | j <= k < e
        ensures HoldsRow(TrimSpace(lines[k]))
      {
        assert !LineAction(Rows, lines, k).Stop?;
      }
      if e < |lines| {
        assert LineAction(Rows, lines, e).Stop?;
      }
    }
  }

  /** The data rows from line j on, and the line after them; none when j is past the end. */
  function DataRows(lines: seq<string>, j: nat): (r: (seq<seq<string>>, nat))
    ensures j <= r.1
    ensures j <= |lines| ==> r.1 <= |lines|
  {
    if j > |lines| then ([], j)
    else
      var scan := ScanFrom(Rows, lines, j);
      (AllCells(scan.items), scan.end)
  }

  /** The alignments of the separator row, when there is one. */
  function TableAlign(lines: seq<string>, k: nat): seq<Alignment> {
    if k < |lines| then ParseTableAlignment(TrimSpace(lines[k])) else []
  }

  // ---------------------------------------------------------------------------------------------
  // The dispatch of Parse

  predicate IsIndented(line: string) {
    |line| > 0 && ("    " <= line || "\t" <= line)
  }

  predicate SetextNext(lines: seq<string>, i: nat) {
    i + 1 < |lines| && IsSetextHeader(TrimSpace(lines[i + 1]))
  }

  predicate TableNext(lines: seq<string>, i: nat) {
    i + 1 < |lines| && IsTableSeparator(TrimSpace(lines[i + 1]))
  }

  /** One iteration of Parse's loop at line i: the element it appends, if any, and the number of
      lines it consumes. */
  function Step(lines: seq<string>, i: nat): (r: (Option<Element>, nat))
    requires i < |lines|
    ensures r.1 <= |lines| - i
  {
    var t := TrimSpace(lines[i]);
    if t == [] then (None, 1)
    else if "#" <= t && HeaderAt(t).Some? then (HeaderAt(t), 1)
    else if SetextNext(lines, i) then
      var level := if "-" <= TrimSpace(lines[i + 1]) then 2 else 1;
      (Some(Header(level, t, InlineRuns(t))), 2)
    else if IsHorizontalRule(t) then (Some(Rule), 1)
    else
      var (e, consumed) := BlockAt(lines, i);
      (Some(e), consumed)
  }

  /** The branches of Parse's loop that hand the lines to a block parser. */
  function BlockAt(lines: seq<string>, i: nat): (r: (Element, nat))
    requires i < |lines|
    ensures r.1 <= |lines| - i
  {
    var line := lines[i];
    var t := TrimSpace(line);
    if "```" <= t || "~~~" <= t then CodeBlockAt(lines, i)
    else if IsIndented(line) then IndentedAt(lines, i)
    else if ">" <= t then QuoteAt(lines, i)
    else if TableNext(lines, i) then TableAt(lines, i)
    else if IsUnorderedListItem(t) then ListAt(lines, i, false)
    else if IsOrderedListItem(t) then ListAt(lines, i, true)
    else if IsTaskListItem(t) then TaskListAt(lines, i)
    else ParagraphAt(lines, i)
  }

  /** What Parse's loop does at each line: the element it emits and the lines it consumes. */
  function Steps(lines: seq<string>): (steps: seq<(Option<Element>, nat)>)
    ensures |steps| == |lines| && Bounded(steps)
  {
    StepsBounded(lines);
    Tabulate(StepOf(lines), 0, |lines|)
  }

  /** Step as a total function of the line number (past the end it stands still). */
  function StepOf(lines: seq<string>): nat -> (Option<Element>, nat) {
    (k: nat) => if k < |lines| then Step(lines, k) else (None, 0)
  }

  /** The values f(j), .., f(n - 1). */
  /** The values f(j), ..., f(n - 1). The element is added in a second function, so that one
      unfolding of Tabulate does not yet apply f. */
  function Tabulate<T>(f: nat -> T, j: nat, n: nat): (s: seq<T>)
    ensures |s| == if j <= n then n - j else 0
    decreases n - j, 1
  {
    if j >= n then [] else TabulateCons(f, j, n)
  }

  function TabulateCons<T>(f: nat -> T, j: nat, n: nat): (s: seq<T>)
    requires j < n
    ensures |s| == n - j
    decreases n - j, 0
  {
    [f(j)] + Tabulate(f, j + 1, n)
  }

  lemma {:induction false} TabulateAt<T>(f: nat -> T, j: nat, n: nat, k: nat)
    requires j <= k < n
    ensures Tabulate(f, j, n)[k - j] == f(k)
    decreases k - j
  {
    assert Tabulate(f, j, n) == [f(j)] + Tabulate(f, j + 1, n);
    if j < k {
      TabulateAt(f, j + 1, n, k);
    }
  }

  /** The step Parse's loop takes at line k. */
  lemma StepAt(lines: seq<string>, k: nat)
    requires k < |lines|
    ensures Steps(lines)[k] == Step(lines, k)
  {
    TabulateAt(StepOf(lines), 0, |lines|, k);
    StepOfAt(lines, k);
  }

  lemma StepOfAt(lines: seq<string>, k: nat)
    requires k < |lines|
    ensures StepOf(lines)(k) == Step(lines, k)
  {
  }

  lemma StepsBounded(lines: seq<string>)
    ensures Bounded(Tabulate(StepOf(lines), 0, |lines|))
  {
    forall k: nat | k < |lines|
      ensures StepOf(lines)(k).1 <= |lines| - k
    {
      StepBound(lines, k);
    }
    TabulateBounded(StepOf(lines), |lines|);
  }

  lemma StepBound(lines: seq<string>, k: nat)
    requires k < |lines|
    ensures StepOf(lines)(k).1 <= |lines| - k
  {
    assert StepOf(lines)(k) == Step(lines, k);
  }

  lemma TabulateBounded<T>(f: nat -> (T, nat), n: nat)
    requires forall k: nat :: k < n ==> f(k).1 <= n - k
    ensures Bounded(Tabulate(f, 0, n))
  {
    forall k | 0 <= k < n
      ensures Tabulate(f, 0, n)[k].1 <= n - k
    {
      TabulateAt(f, 0, n, k);
    }
  }

  /** No step consumes lines past the end of the document. */
  predicate Bounded<T>(steps: seq<(T, nat)>) {
    forall j :: 0 <= j < |steps| ==> steps[j].1 <= |steps| - j
  }

  /** The loop driven by precomputed steps from line i on: a step that consumes nothing stalls it. */
  function Walk(steps: seq<(Option<Element>, nat)>, i: nat): Outcome
    requires Bounded(steps) && i <= |steps|
    decreases |steps| - i
  {
    if i == |steps| then Parsed([])
    else
      var (e, consumed) := steps[i];
      if consumed == 0 then Stuck(i)
      else Then(Emitted(e), Walk(steps, i + consumed))
  }

  /** Parse's loop from line i on. */
  function ParseFrom(lines: seq<string>, i: nat): Outcome
    requires i <= |lines|
  {
    Walk(Steps(lines), i)
  }

  function Emitted(e: Option<Element>): seq<Element> {
    match e case Some(x) => [x] case None => []
  }

  /** Elements already produced, followed by the outcome of the rest. */
  function Then(done: seq<Element>, rest: Outcome): Outcome {
    match rest
    case Parsed(es) => Parsed(done + es)
    case Stuck(k) => Stuck(k)
  }

  /** MarkdownParser.Parse. */
  function ParseMarkdown(markdown: string): Outcome {
    ParseFrom(Lines(markdown), 0)
  }

  // ---------------------------------------------------------------------------------------------
  // Progress

  /** The lines Parse never gets past: more than six leading `#` after trimming, with no setext
      underline, no indentation and no table separator to turn them into another block. */
  predicate Stalls(lines: seq<string>, i: nat)
    requires i < |lines|
  {
    Hashes(TrimSpace(lines[i])) > 6 && !SetextNext(lines, i) && !IsIndented(lines[i])
    && !TableNext(lines, i)
  }

  /** A line that starts with `#` is no rule, list item or task item. */
  lemma HashLine(t: string)
    requires Trimmed(t) && t != [] && t[0] == '#'
    ensures !IsHorizontalRule(t) && !IsUnorderedListItem(t) && !IsOrderedListItem(t)
    ensures !IsTaskListItem(t)
  {
    TrimSpaceOfTrimmed(t);
    HorizontalRuleIff(t);
    assert '#' in RemoveChar(t, ' ');
    OrderedItemStartsWithDigit(t);
  }

  lemma OrderedItemStartsWithDigit(line: string)
    ensures IsOrderedListItem(line) ==> IsDigit(TrimSpace(line)[0])
  {
    if IsOrderedListItem(line) {
      var t := TrimSpace(line);
      var d := Index(t, ".");
      assert t[..d][0] == t[0];
    }
  }

  /** The block branches consume nothing only when a `#` line falls through to the paragraph
      branch; every other branch consumes its first line at least. */
  lemma BlockProgress(lines: seq<string>, i: nat)
    requires i < |lines| && TrimSpace(lines[i]) != [] && !IsHorizontalRule(TrimSpace(lines[i]))
    ensures BlockAt(lines, i).1 == 0 <==>
              "#" <= TrimSpace(lines[i]) && !IsIndented(lines[i]) && !TableNext(lines, i)
  {
    var line := lines[i];
    var t := TrimSpace(line);
    TrimSpaceOfTrimmed(t);
    if "#" <= t {
      HashLine(t);
    }
    if "```" <= t || "~~~" <= t {
    } else if IsIndented(line) {
      FirstLineKept(Indented, lines, i);
    } else if ">" <= t {
      FirstLineKept(Quoted, lines, i);
    } else if TableNext(lines, i) {
    } else if IsUnorderedListItem(t) {
      FirstLineKept(Listed(false), lines, i);
    } else if IsOrderedListItem(t) {
      FirstLineKept(Listed(true), lines, i);
    } else if IsTaskListItem(t) {
      FirstLineKept(Tasks, lines, i);
    } else if "#" <= t {
      assert ProseAction(t) == Stop;
    } else {
      FirstLineKept(Prose, lines, i);
    }
  }

  /** The scanner a block branch uses keeps the line that selected the branch. */
  lemma FirstLineKept(s: Scanner, lines: seq<string>, i: nat)
    requires i < |lines|
    requires var t := TrimSpace(lines[i]);
      match s
      case Indented => IsIndented(lines[i]) && t != []
      case Quoted => ">" <= t
      case Listed(ordered) => if ordered then IsOrderedListItem(t) else IsUnorderedListItem(t)
      case Tasks => IsTaskListItem(t)
      case Rows => false
      case Prose => t != [] && !ParagraphBreak(t)
    ensures ScanFrom(s, lines, i).end > i
  {
    var t := TrimSpace(lines[i]);
    TrimSpaceOfTrimmed(t);
    if s.Tasks? {
      assert t != [];
    }
    ScanKeeps(s, lines, i);
  }

  /** Parse's loop moves on from line i exactly when the line does not stall it. */
  lemma StepProgress(lines: seq<string>, i: nat)
    requires i < |lines|
    ensures Step(lines, i).1 == 0 <==> Stalls(lines, i)
  {
    var t := TrimSpace(lines[i]);
    if t != [] {
      if "#" <= t {
        HashLine(t);
      }
      if !IsHorizontalRule(t) {
        BlockProgress(lines, i);
      }
      if Hashes(t) > 6 {
        assert "#" <= t;
      }
    }
  }

  /** The walk stops early only at a step that consumes nothing. */
  lemma {:induction false} WalkStuck(steps: seq<(Option<Element>, nat)>, i: nat)
    requires Bounded(steps) && i <= |steps|
    ensures Walk(steps, i).Stuck? ==>
              i <= Walk(steps, i).line < |steps| && steps[Walk(steps, i).line].1 == 0
    decreases |steps| - i
  {
    if i < |steps| && steps[i].1 > 0 {
      WalkStuck(steps, i + steps[i].1);
    }
  }

  /** Steps that consume one line and emit nothing leave the outcome empty. */
  lemma {:induction false} WalkSkips(steps: seq<(Option<Element>, nat)>, i: nat)
    requires Bounded(steps) && i <= |steps|
    requires forall k :: i <= k < |steps| ==> steps[k] == (None, 1)
    ensures Walk(steps, i) == Parsed([])
    decreases |steps| - i
  {
    if i < |steps| {
      WalkSkips(steps, i + 1);
    }
  }

  /** Parse gets stuck only on a line that stalls it. */
  lemma StuckOnlyAtStall(lines: seq<string>, i: nat)
    requires i <= |lines|
    ensures ParseFrom(lines, i).Stuck? ==>
              i <= ParseFrom(lines, i).line < |lines| && Stalls(lines, ParseFrom(lines, i).line)
  {
    var r := ParseFrom(lines, i);
    WalkStuck(Steps(lines), i);
    if r.Stuck? {
      StepAt(lines, r.line);
      StepProgress(lines, r.line);
    }
  }

  /** A line that stalls Parse is where it gets stuck, when the walk reaches it. */
  lemma StallIsStuck(lines: seq<string>, i: nat)
    requires i < |lines| && Stalls(lines, i)
    ensures ParseFrom(lines, i) == Stuck(i)
  {
    StepAt(lines, i);
    StepProgress(lines, i);
  }

  /** A document none of whose lines has more than six leading `#` is parsed to the end. */
  lemma ParsesWithoutDeepHashes(lines: seq<string>)
    requires forall k :: 0 <= k < |lines| ==> Hashes(TrimSpace(lines[k])) <= 6
    ensures ParseFrom(lines, 0).Parsed?
  {
    StuckOnlyAtStall(lines, 0);
  }

  /** Blank lines produce no element. */
  lemma BlankLinesVanish(lines: seq<string>, i: nat)
    requires i <= |lines|
    requires forall k :: i <= k < |lines| ==> TrimSpace(lines[k]) == []
    ensures ParseFrom(lines, i) == Parsed([])
  {
    forall k | i <= k < |lines|
      ensures Steps(lines)[k] == (None, 1)
    {
      StepAt(lines, k);
    }
    WalkSkips(Steps(lines), i);
  }

  // ---------------------------------------------------------------------------------------------
  // Blocks written out and read back

  lemma Unfold<T>(s: seq<T>, j: nat)
    requires j < |s|
    ensures s[j..] == [s[j]] + s[j + 1..]
  {
  }

  /** Each line is the prefix followed by the text. */
  function Prefixed(prefix: string, texts: seq<string>): (lines: seq<string>)
    ensures |lines| == |texts|
    ensures forall k :: 0 <= k < |texts| ==> lines[k] == prefix + texts[k]
  {
    seq(|texts|, k requires 0 <= k < |texts| => prefix + texts[k])
  }

  predicate ItemTexts(items: seq<string>) {
    forall k :: 0 <= k < |items| ==> items[k] != [] && Trimmed(items[k])
  }

  lemma {:induction false} BulletScan(marker: char, items: seq<string>, j: nat)
    requires marker == '-' || marker == '*' || marker == '+'
    requires ItemTexts(items) && j <= |items|
    ensures ScanFrom(Listed(false), Prefixed([marker, ' '], items), j).items == items[j..]
    ensures ScanFrom(Listed(false), Prefixed([marker, ' '], items), j).end == |items|
    decreases |items| - j
  {
    if j < |items| {
      BulletKept(marker, items, j);
      ScanKeepOn(Listed(false), Prefixed([marker, ' '], items), j);
      BulletScan(marker, items, j + 1);
      Unfold(items, j);
    }
  }

  lemma BulletKept(marker: char, items: seq<string>, j: nat)
    requires marker == '-' || marker == '*' || marker == '+'
    requires ItemTexts(items) && j < |items|
    ensures LineAction(Listed(false), Prefixed([marker, ' '], items), j).Keep?
    ensures LineAction(Listed(false), Prefixed([marker, ' '], items), j).item == items[j]
  {
    UnorderedItemRoundTrip(marker, items[j]);
  }

  /** `- item` lines read back as an unordered list of those items, consuming all of them. */
  lemma UnorderedListRoundTrip(marker: char, items: seq<string>)
    requires marker == '-' || marker == '*' || marker == '+'
    requires |items| >= 1 && ItemTexts(items)
    ensures ListAt(Prefixed([marker, ' '], items), 0, false).0.items == items
    ensures ListAt(Prefixed([marker, ' '], items), 0, false).1 == |items|
  {
    BulletScan(marker, items, 0);
  }

  /** Items written as `1. item`, `2. item`, … */
  function Numbered(items: seq<string>): (lines: seq<string>)
    ensures |lines| == |items|
    ensures forall k :: 0 <= k < |items| ==> lines[k] == Dec(k + 1) + ". " + items[k]
  {
    seq(|items|, k requires 0 <= k < |items| => Dec(k + 1) + ". " + items[k])
  }

  lemma {:induction false} NumberedScan(items: seq<string>, j: nat)
    requires ItemTexts(items) && j <= |items|
    ensures ScanFrom(Listed(true), Numbered(items), j).items == items[j..]
    ensures ScanFrom(Listed(true), Numbered(items), j).end == |items|
    decreases |items| - j
  {
    if j < |items| {
      NumberedKept(items, j);
      ScanKeepOn(Listed(true), Numbered(items), j);
      NumberedScan(items, j + 1);
      Unfold(items, j);
    }
  }

  lemma NumberedKept(items: seq<string>, j: nat)
    requires ItemTexts(items) && j < |items|
    ensures LineAction(Listed(true), Numbered(items), j).Keep?
    ensures LineAction(Listed(true), Numbered(items), j).item == items[j]
  {
    OrderedItemRoundTrip(Dec(j + 1), items[j]);
  }

  /** `1. item` lines read back as an ordered list of those items, consuming all of them. */
  lemma OrderedListRoundTrip(items: seq<string>)
    requires |items| >= 1 && ItemTexts(items)
    ensures ListAt(Numbered(items), 0, true).0.items == items
    ensures ListAt(Numbered(items), 0, true).1 == |items|
  {
    NumberedScan(items, 0);
  }

  /** Code lines indented by four spaces are scanned back to the code. */
  lemma {:induction false} IndentScan(code: seq<string>, j: nat)
    requires forall k :: 0 <= k < |code| ==> code[k] == [] || !AllSpace(code[k])
    requires j <= |code|
    ensures ScanFrom(Indented, Prefixed("    ", code), j).items == code[j..]
    ensures ScanFrom(Indented, Prefixed("    ", code), j).end == |code|
    decreases |code| - j
  {
    if j < |code| {
      var lines := Prefixed("    ", code);
      IndentedLineOf(code[j]);
      IndentScan(code, j + 1);
      Unfold(code, j);
    }
  }

  lemma IndentedLineOf(c: string)
    requires c == [] || !AllSpace(c)
    ensures IndentedLine("    " + c) == Some(c)
  {
    var line := "    " + c;
    TrimSpaceEmpty(line);
    if c != [] {
      var k :| 0 <= k < |c| && !IsSpace(c[k]);
      assert line[k + 4] == c[k];
      assert line[4..] == c;
    } else {
      assert AllSpace(line);
    }
  }

  /** A tab of indentation is removed like four spaces. */
  lemma TabIndentedLineOf(c: string)
    requires c == [] || !AllSpace(c)
    ensures IndentedLine("\t" + c) == Some(c)
  {
    var line := "\t" + c;
    TrimSpaceEmpty(line);
    if c != [] {
      var k :| 0 <= k < |c| && !IsSpace(c[k]);
      assert line[k + 1] == c[k];
      assert line[1..] == c;
    } else {
      assert AllSpace(line);
    }
  }

  /** Code indented by four spaces reads back as the code, one line per line; an empty code line
      is written as a blank line and reads back empty. */
  lemma IndentedRoundTrip(code: seq<string>)
    requires |code| >= 1
    requires forall k :: 0 <= k < |code| ==> code[k] == [] || !AllSpace(code[k])
    ensures IndentedAt(Prefixed("    ", code), 0).0.content == Join(code, "\n")
    ensures IndentedAt(Prefixed("    ", code), 0).1 == |code|
  {
    IndentScan(code, 0);
  }

  /** Text lines quoted with `> ` are scanned back to the texts. */
  lemma {:induction false} QuoteScan(texts: seq<string>, j: nat)
    requires ItemTexts(texts) && j <= |texts|
    ensures ScanFrom(Quoted, Prefixed("> ", texts), j).items == texts[j..]
    ensures ScanFrom(Quoted, Prefixed("> ", texts), j).end == |texts|
    decreases |texts| - j
  {
    if j < |texts| {
      var lines := Prefixed("> ", texts);
      QuoteStep(lines, j, texts[j]);
      QuoteScan(texts, j + 1);
      Unfold(texts, j);
    }
  }

  lemma QuoteStep(lines: seq<string>, j: nat, x: string)
    requires j < |lines| && lines[j] == "> " + x
    requires x != [] && Trimmed(x)
    ensures ScanFrom(Quoted, lines, j).items == [x] + ScanFrom(Quoted, lines, j + 1).items
    ensures ScanFrom(Quoted, lines, j).end == ScanFrom(Quoted, lines, j + 1).end
  {
    QuoteLineOf(x);
    assert LineAction(Quoted, lines, j) == Keep(x, []);
  }

  lemma QuoteLineOf(x: string)
    requires x != [] && Trimmed(x)
    ensures TrimSpace("> " + x) == "> " + x
    ensures ">" <= TrimSpace("> " + x)
    ensures TrimSpace(TrimPrefix(TrimSpace("> " + x), ">")) == x
  {
    assert Trimmed("> " + x);
    TrimSpaceOfTrimmed("> " + x);
    assert TrimPrefix("> " + x, ">") == " " + x;
    TrimSpaceAround(" ", x, []);
    assert " " + x + [] == " " + x;
  }

  /** Lines quoted with `> ` read back as one blockquote whose text is theirs, joined by spaces. */
  lemma QuoteRoundTrip(texts: seq<string>)
    requires |texts| >= 1 && ItemTexts(texts)
    ensures QuoteAt(Prefixed("> ", texts), 0).0.content == Join(texts, " ")
    ensures QuoteAt(Prefixed("> ", texts), 0).1 == |texts|
  {
    QuoteScan(texts, 0);
  }

  /** A scan that keeps lines j..n-1 and stops at line n, or at the end, keeps exactly those. */
  lemma ScanRun(s: Scanner, lines: seq<string>, j: nat, n: nat,
                items: seq<string>, inlines: seq<string>)
    requires j <= n <= |lines| && |items| == n - j && |inlines| == n - j
    requires forall k :: j <= k < n ==> LineAction(s, lines, k) == Keep(items[k - j], inlines[k - j])
    requires n < |lines| ==> LineAction(s, lines, n).Stop?
    ensures ScanFrom(s, lines, j) == Scan(items, inlines, n)
  {
    var act := ActionOf(s);
    forall k | j <= k < n
      ensures act(lines, k) == Keep(items[k - j], inlines[k - j])
    {
    }
    ScanWithRun(act, lines, j, n, items, inlines);
  }

  lemma {:induction false} ScanWithRun(act: (seq<string>, nat) -> Action, lines: seq<string>,
                                       j: nat, n: nat, items: seq<string>, inlines: seq<string>)
    requires j <= n <= |lines| && |items| == n - j && |inlines| == n - j
    requires forall k :: j <= k < n ==> act(lines, k) == Keep(items[k - j], inlines[k - j])
    requires n < |lines| ==> act(lines, n).Stop?
    ensures ScanWith(act, lines, j) == Scan(items, inlines, n)
    decreases n - j
  {
    if j < n {
      ScanWithRun(act, lines, j + 1, n, items[1..], inlines[1..]);
      assert items == [items[0]] + items[1..];
      assert inlines == [inlines[0]] + inlines[1..];
    }
  }

  /** n empty strings: what the prose, row and code scanners keep as inline text. */
  function NoInlines(n: nat): (r: seq<string>)
    ensures |r| == n && forall k :: 0 <= k < n ==> r[k] == []
  {
    seq(n, k => [])
  }

  /** Prose lines, ended by the end of input or by a line that breaks a paragraph (a blank line
      or the start of another block), read back as one paragraph of those lines joined by
      spaces, and exactly those lines are consumed. */
  lemma ParagraphRoundTrip(texts: seq<string>, tail: seq<string>)
    requires |texts| >= 1 && ItemTexts(texts)
    requires forall k :: 0 <= k < |texts| ==> !ParagraphBreak(texts[k])
    requires tail == [] || ParagraphBreak(TrimSpace(tail[0]))
    ensures ParagraphAt(texts + tail, 0)
            == (Paragraph(Join(texts, " "), InlineRuns(Join(texts, " "))), |texts|)
  {
    var lines := texts + tail;
    forall k | 0 <= k < |texts|
      ensures LineAction(Prose, lines, k) == Keep(texts[k], [])
    {
      ProseKept(lines, k, texts[k]);
    }
    if tail != [] {
      ProseStops(lines, |texts|, tail[0]);
    }
    ScanRun(Prose, lines, 0, |texts|, texts, NoInlines(|texts|));
  }

  lemma ProseKept(lines: seq<string>, j: nat, x: string)
    requires j < |lines| && lines[j] == x && Trimmed(x) && !ParagraphBreak(x)
    ensures LineAction(Prose, lines, j) == Keep(x, [])
  {
    TrimSpaceOfTrimmed(x);
  }

  lemma ProseStops(lines: seq<string>, j: nat, x: string)
    requires j < |lines| && lines[j] == x && ParagraphBreak(TrimSpace(x))
    ensures LineAction(Prose, lines, j).Stop?
  {
  }

  /** Each row written as a table row. */
  function RowLines(rows: seq<seq<string>>): (lines: seq<string>)
    ensures |lines| == |rows|
    ensures forall k :: 0 <= k < |rows| ==> lines[k] == Row(rows[k])
  {
    seq(|rows|, k requires 0 <= k < |rows| => Row(rows[k]))
  }

  /** Cells a written row gives back: at least one, each trimmed and without `|`. */
  predicate CleanCells(cells: seq<string>) {
    |cells| >= 1 && forall k :: 0 <= k < |cells| ==> '|' !in cells[k] && Trimmed(cells[k])
  }

  /** A written row is its own trimmed line, and holds a `|`. */
  lemma RowLine(cells: seq<string>)
    ensures TrimSpace(Row(cells)) == Row(cells)
    ensures Row(cells) != [] && Row(cells)[0] == '|'
  {
    var r := Row(cells);
    assert r[0] == '|' && r[|r| - 1] == '|';
    TrimSpaceOfTrimmed(r);
  }

  /** A header row, a separator row and data rows, ended by the end of input, a blank line or a
      line without `|`, read back as the table of those rows with the separator's alignments;
      all of them are consumed. */
  lemma TableRoundTrip(header: seq<string>, align: seq<Alignment>, rows: seq<seq<string>>,
                       tail: seq<string>)
    requires CleanCells(header) && |align| >= 1
    requires forall k :: 0 <= k < |rows| ==> CleanCells(rows[k])
    requires tail == [] || !HoldsRow(TrimSpace(tail[0]))
    ensures TableAt([Row(header), SeparatorRow(align)] + RowLines(rows) + tail, 0)
            == (Table([header] + rows, align), 2 + |rows|)
  {
    var lines := [Row(header), SeparatorRow(align)] + RowLines(rows) + tail;
    RowLine(header);
    TableRowRoundTrip(header);
    RowLine(SeparatorCells(align));
    AlignmentRoundTrip(align);
    assert TableAlign(lines, 1) == align;
    TableData(rows, lines, tail);
  }

  lemma TableData(rows: seq<seq<string>>, lines: seq<string>, tail: seq<string>)
    requires forall k :: 0 <= k < |rows| ==> CleanCells(rows[k])
    requires |lines| >= 2 && lines[2..] == RowLines(rows) + tail
    requires tail == [] || !HoldsRow(TrimSpace(tail[0]))
    ensures DataRows(lines, 2) == (rows, 2 + |rows|)
  {
    var written := RowLines(rows);
    forall k | 2 <= k < 2 + |rows|
      ensures LineAction(Rows, lines, k) == Keep(written[k - 2], [])
    {
      assert lines[k] == lines[2..][k - 2];
      RowKept(lines, k, rows[k - 2]);
    }
    if tail != [] {
      assert lines[2 + |rows|] == lines[2..][|rows|];
      RowStops(lines, 2 + |rows|, tail[0]);
    }
    ScanRun(Rows, lines, 2, 2 + |rows|, written, NoInlines(|rows|));
    CellsOfRows(rows);
  }

  /** Written rows read back cell by cell. */
  lemma CellsOfRows(rows: seq<seq<string>>)
    requires forall k :: 0 <= k < |rows| ==> CleanCells(rows[k])
    ensures AllCells(RowLines(rows)) == rows
  {
    var written := RowLines(rows);
    forall k | 0 <= k < |rows|
      ensures TableRowCells(written[k]) == rows[k]
    {
      TableRowRoundTrip(rows[k]);
    }
  }

  lemma RowKept(lines: seq<string>, j: nat, cells: seq<string>)
    requires j < |lines| && lines[j] == Row(cells)
    ensures LineAction(Rows, lines, j) == Keep(Row(cells), [])
  {
    RowLine(cells);
  }

  lemma RowStops(lines: seq<string>, j: nat, x: string)
    requires j < |lines| && lines[j] == x && !HoldsRow(TrimSpace(x))
    ensures LineAction(Rows, lines, j).Stop?
  {
  }

  /** The box a task item is written with. */
  function Mark(checked: bool): char {
    if checked then 'x' else ' '
  }

  /** Task items written with a marker, white space, the box, white space and the text. */
  function TaskLines(marker: char, w1: string, w2: string, items: seq<TaskItem>): (lines: seq<string>)
    ensures |lines| == |items|
    ensures forall k :: 0 <= k < |items| ==>
              lines[k] == TaskLine(marker, w1, Mark(items[k].checked), w2, items[k].text)
  {
    seq(|items|, k requires 0 <= k < |items| =>
      TaskLine(marker, w1, Mark(items[k].checked), w2, items[k].text))
  }

  /** Task lines of the item pattern, ended by the end of input or a line that is not a task
      item, read back as a task list with each box and text, the text's inline runs as the
      item's children; exactly those lines are consumed. */
  lemma TaskListRoundTrip(marker: char, w1: string, w2: string, items: seq<TaskItem>,
                          tail: seq<string>)
    requires |items| >= 1
    requires forall k :: 0 <= k < |items| ==>
               TaskParts(marker, w1, Mark(items[k].checked), w2, items[k].text)
               && Trimmed(items[k].text)
    requires tail == [] || !IsTaskListItem(tail[0])
    ensures var r := TaskListAt(TaskLines(marker, w1, w2, items) + tail, 0);
            && r.1 == |items| && r.0.TaskList? && |r.0.items| == |items|
            && forall k :: 0 <= k < |items| ==>
                 r.0.items[k] == TaskDisplay(items[k]) && r.0.itemChildren[k] == InlineRuns(items[k].text)
  {
    var lines := TaskLines(marker, w1, w2, items) + tail;
    var shown := seq(|items|, k requires 0 <= k < |items| => TaskDisplay(items[k]));
    var texts := seq(|items|, k requires 0 <= k < |items| => items[k].text);
    forall k | 0 <= k < |items|
      ensures LineAction(Tasks, lines, k) == Keep(shown[k], texts[k])
    {
      TaskLineKept(marker, w1, w2, items[k]);
      TaskKept(lines, k, TaskLine(marker, w1, Mark(items[k].checked), w2, items[k].text), items[k]);
    }
    if tail != [] {
      TaskStops(lines, |items|, tail[0]);
    }
    ScanRun(Tasks, lines, 0, |items|, shown, texts);
  }

  lemma TaskKept(lines: seq<string>, j: nat, line: string, item: TaskItem)
    requires j < |lines| && lines[j] == line
    requires TaskAction(TrimSpace(line)) == Keep(TaskDisplay(item), item.text)
    ensures LineAction(Tasks, lines, j) == Keep(TaskDisplay(item), item.text)
  {
  }

  lemma TaskStops(lines: seq<string>, j: nat, x: string)
    requires j < |lines| && lines[j] == x && !IsTaskListItem(x)
    ensures LineAction(Tasks, lines, j).Stop?
  {
    TrimSpaceOfTrimmed(TrimSpace(x));
  }

  lemma TaskLineKept(marker: char, w1: string, w2: string, item: TaskItem)
    requires TaskParts(marker, w1, Mark(item.checked), w2, item.text) && Trimmed(item.text)
    ensures var line := TaskLine(marker, w1, Mark(item.checked), w2, item.text);
            TaskAction(TrimSpace(line)) == Keep(TaskDisplay(item), item.text)
  {
    var line := TaskLine(marker, w1, Mark(item.checked), w2, item.text);
    assert line[0] == marker;
    assert line[|line| - 1] == item.text[|item.text| - 1];
    TrimSpaceOfTrimmed(line);
    assert !RegexSpace(item.text[0]);
    TaskMatchComplete(marker, w1, Mark(item.checked), w2, item.text);
    assert TaskMatch(line) == Some(item);
  }

  // ---------------------------------------------------------------------------------------------
  // Priorities between the branches

  /** A task line with the usual space after its marker is an unordered list item, because that
      branch comes first: its checkbox stays part of the item's text. */
  lemma DashTaskIsListItem(lines: seq<string>, i: nat, text: string)
    requires i < |lines| && lines[i] == "- [x] " + text
    requires text != [] && Trimmed(text)
    requires !SetextNext(lines, i) && !TableNext(lines, i)
    ensures Step(lines, i).0 == Some(ListAt(lines, i, false).0)
    ensures ListAt(lines, i, false).0.items != []
    ensures ListAt(lines, i, false).0.items[0] == "[x] " + text
  {
    DashTaskLine(text);
    StepIsList(lines, i);
    FirstLineKept(Listed(false), lines, i);
    ScanKeeps(Listed(false), lines, i);
  }

  /** Parse's loop hands an unordered list item line that opens no other block to parseList. */
  lemma StepIsList(lines: seq<string>, i: nat)
    requires i < |lines|
    requires var t := TrimSpace(lines[i]);
      && t != [] && t[0] == '-' && !IsHorizontalRule(t) && !IsIndented(lines[i])
      && IsUnorderedListItem(t)
    requires !SetextNext(lines, i) && !TableNext(lines, i)
    ensures Step(lines, i).0 == Some(ListAt(lines, i, false).0)
  {
    var t := TrimSpace(lines[i]);
    assert !("#" <= t) && !(">" <= t) && !("```" <= t) && !("~~~" <= t);
  }

  lemma DashTaskLine(text: string)
    requires text != [] && Trimmed(text)
    ensures var t := "- [x] " + text;
      && TrimSpace(t) == t && !IsHorizontalRule(t) && !IsIndented(t)
      && IsUnorderedListItem(t) && UnorderedItemText(t) == "[x] " + text
  {
    var t := "- [x] " + text;
    var item := "[x] " + text;
    TrimmedPrepend("[x] ", text);
    DashTaskSplit(text);
    UnorderedItemRoundTrip('-', item);
    DashTaskNoRule(t);
  }

  /** A line whose first non-space characters after the marker include `[` is no rule. */
  lemma DashTaskNoRule(t: string)
    requires Trimmed(t) && '[' in t
    ensures !IsHorizontalRule(t)
  {
    TrimSpaceOfTrimmed(t);
    HorizontalRuleIff(t);
    RemoveCharKeeps(t, ' ', '[');
    var cleaned := RemoveChar(t, ' ');
    var k :| 0 <= k < |cleaned| && cleaned[k] == '[';
  }

  lemma RemoveCharKeeps(t: string, c: char, x: char)
    requires x != c && x in t
    ensures x in RemoveChar(t, c)
  {
  }

  lemma DashTaskSplit(text: string)
    ensures "- [x] " + text == ['-', ' '] + ("[x] " + text)
  {
  }

  /** Parse reaches its task-list branch only for a marker followed by a carriage return, a form
      feed or a newline, since a space or a tab makes the line an unordered list item. */
  lemma TaskListBranch(lines: seq<string>, i: nat)
    requires i < |lines|
    requires var t := TrimSpace(lines[i]); IsTaskListItem(t) && !IsUnorderedListItem(t)
    ensures var t := TrimSpace(lines[i]); t[1] == '\r' || t[1] == '\U{C}' || t[1] == '\n'
  {
    var t := TrimSpace(lines[i]);
    TrimSpaceOfTrimmed(t);
    assert SpaceRun(t, 1) > 0;
  }

  /** A setext underline turns the line above into a header even when it looks like a list
      item. */
  lemma SetextOverridesList(lines: seq<string>, i: nat, text: string)
    requires i + 1 < |lines| && lines[i] == "- " + text && lines[i + 1] == "---"
    requires text != [] && Trimmed(text)
    ensures Step(lines, i).0.Some? && Step(lines, i).1 == 2
    ensures var e := Step(lines, i).0.value; e.Header? && e.level == 2 && e.content == "- " + text
  {
    assert Trimmed("- " + text);
    TrimSpaceOfTrimmed("- " + text);
    TrimSpaceOfTrimmed("---");
    assert IsSetextHeader("---");
  }

  // ---------------------------------------------------------------------------------------------
  // The parser as evidently intended

  /** A line Parse stalls on is evidently meant to be read as a paragraph of its own: the
      paragraph branch keeps its first line whatever it starts with. Every other step is
      Parse's own. */
  function FixedStep(lines: seq<string>, i: nat): (r: (Option<Element>, nat))
    requires i < |lines|
    ensures 1 <= r.1 <= |lines| - i
    ensures !Stalls(lines, i) ==> r == Step(lines, i)
  {
    StepProgress(lines, i);
    if Stalls(lines, i) then
      var t := TrimSpace(lines[i]);
      (Some(Paragraph(t, InlineRuns(t))), 1)
    else Step(lines, i)
  }

  /** FixedStep as a total function of the line number. */
  function FixedStepOf(lines: seq<string>): nat -> (Option<Element>, nat) {
    (k: nat) => if k < |lines| then FixedStep(lines, k) else (None, 1)
  }

  /** What the corrected loop does at each line. */
  function FixedSteps(lines: seq<string>): (steps: seq<(Option<Element>, nat)>)
    ensures |steps| == |lines| && Bounded(steps)
    ensures forall k :: 0 <= k < |steps| ==> steps[k].1 >= 1
  {
    var f := FixedStepOf(lines);
    forall k: nat | k < |lines|
      ensures 1 <= f(k).1 <= |lines| - k
    {
      assert f(k) == FixedStep(lines, k);
    }
    TabulateBounded(f, |lines|);
    forall k | 0 <= k < |lines|
      ensures Tabulate(f, 0, |lines|)[k].1 >= 1
    {
      TabulateAt(f, 0, |lines|, k);
    }
    Tabulate(f, 0, |lines|)
  }

  /** The corrected MarkdownParser.Parse. */
  function ParseFixed(markdown: string): Outcome {
    Walk(FixedSteps(Lines(markdown)), 0)
  }

  /** A walk whose every step consumes a line reaches the end. */
  lemma {:induction false} WalkFinishes(steps: seq<(Option<Element>, nat)>, i: nat)
    requires Bounded(steps) && i <= |steps|
    requires forall k :: i <= k < |steps| ==> steps[k].1 >= 1
    ensures Walk(steps, i).Parsed?
    decreases |steps| - i
  {
    if i < |steps| {
      WalkFinishes(steps, i + steps[i].1);
    }
  }

  /** Two walks that take the same steps wherever the first one advances end alike, when the
      first one finishes. */
  lemma {:induction false} WalkAgrees(steps: seq<(Option<Element>, nat)>,
                                      fixed: seq<(Option<Element>, nat)>, i: nat)
    requires Bounded(steps) && Bounded(fixed) && |fixed| == |steps| && i <= |steps|
    requires forall k :: i <= k < |steps| && steps[k].1 > 0 ==> fixed[k] == steps[k]
    requires Walk(steps, i).Parsed?
    ensures Walk(fixed, i) == Walk(steps, i)
    decreases |steps| - i
  {
    if i < |steps| {
      WalkAgrees(steps, fixed, i + steps[i].1);
    }
  }

  /** The corrected steps are Parse's wherever Parse advances. */
  lemma FixedStepsAgree(lines: seq<string>, k: nat)
    requires k < |lines| && Steps(lines)[k].1 > 0
    ensures FixedSteps(lines)[k] == Steps(lines)[k]
  {
    assert Steps(lines)[k] == Step(lines, k) by { StepAt(lines, k); }
    assert !Stalls(lines, k) by { StepProgress(lines, k); }
    FixedStepAt(lines, k);
  }

  lemma FixedStepAt(lines: seq<string>, k: nat)
    requires k < |lines|
    ensures FixedSteps(lines)[k] == FixedStep(lines, k)
  {
    TabulateAt(FixedStepOf(lines), 0, |lines|, k);
    assert FixedStepOf(lines)(k) == FixedStep(lines, k);
  }

  /** ParseFixed always finishes, and agrees with Parse on every document Parse finishes. */
  lemma ParseFixedTotal(markdown: string)
    ensures ParseFixed(markdown).Parsed?
    ensures ParseMarkdown(markdown).Parsed? ==> ParseFixed(markdown) == ParseMarkdown(markdown)
  {
    var lines := Lines(markdown);
    WalkFinishes(FixedSteps(lines), 0);
    if ParseMarkdown(markdown).Parsed? {
      forall k | 0 <= k < |lines| && Steps(lines)[k].1 > 0
        ensures FixedSteps(lines)[k] == Steps(lines)[k]
      {
        FixedStepsAgree(lines, k);
      }
      WalkAgrees(Steps(lines), FixedSteps(lines), 0);
    }
  }

  /** A document of one line of seven `#` hangs Parse at its first line; the corrected parser
      reads it as a paragraph. */
  lemma SevenHashesHang()
    ensures ParseMarkdown("#######") == Stuck(0)
    ensures ParseFixed("#######") == Parsed([Paragraph("#######", InlineRuns("#######"))])
  {
    var s := "#######";
    SevenHashesStall();
    StallIsStuck([s], 0);
    FixedSingleStall(s);
  }

  lemma SevenHashesStall()
    ensures Lines("#######") == ["#######"]
    ensures TrimSpace("#######") == "#######" && Stalls(["#######"], 0)
  {
    var s := "#######";
    assert s == Repeat('#', 7) + [];
    HashesOf(7, []);
    SplitWithoutSeparator(s, '\n');
    TrimSpaceOfTrimmed(s);
  }

  /** The corrected parser reads a one-line document that stalls Parse as one paragraph. */
  lemma FixedSingleStall(s: string)
    requires Stalls([s], 0)
    ensures Walk(FixedSteps([s]), 0) == Parsed([Paragraph(TrimSpace(s), InlineRuns(TrimSpace(s)))])
  {
    var steps := FixedSteps([s]);
    FixedStepAt([s], 0);
    assert Walk(steps, 1) == Parsed([]);
  }
}
