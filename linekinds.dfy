/** The line classifiers of markdown.go (isSetextHeader, isHorizontalRule, isUnorderedListItem,
    isOrderedListItem, isTaskListItem, isTableSeparator) and the table-row helpers
    (parseTableRow, parseTableAlignment). */
module LineKinds {
  import opened Strings

  // ---------------------------------------------------------------------------------------------
  // Setext underlines and horizontal rules

  /** isSetextHeader, applied to the trimmed line under a candidate header. */
  predicate IsSetextHeader(line: string) {
    |line| >= 1
    && ((TrimChar(line, '=') == [] && '=' in line) || (TrimChar(line, '-') == [] && '-' in line))
  }

  /** An underline is a non-empty run of `=` (level 1) or of `-` (level 2), nothing else. */
  lemma SetextHeaderIff(line: string)
    ensures IsSetextHeader(line) <==> line != [] && (AllOf(line, '=') || AllOf(line, '-'))
  {
    TrimCharEmpty(line, '=');
    TrimCharEmpty(line, '-');
    if line != [] {
      assert line[0] in line;
    }
  }

  /** isHorizontalRule: after trimming and removing every space, at least three copies of one of
      `-`, `*`, `_`. */
  predicate IsHorizontalRule(line: string) {
    var t := TrimSpace(line);
    if |t| < 3 then false
    else
      var cleaned := RemoveChar(t, ' ');
      if |cleaned| < 3 then false
      else
        var c := cleaned[0];
        if c != '-' && c != '*' && c != '_' then false
        else AllOf(cleaned, c) && |cleaned| >= 3
  }

  lemma HorizontalRuleIff(line: string)
    ensures IsHorizontalRule(line) <==>
              var cleaned := RemoveChar(TrimSpace(line), ' ');
              |cleaned| >= 3 && (AllOf(cleaned, '-') || AllOf(cleaned, '*') || AllOf(cleaned, '_'))
  {
  }

  // ---------------------------------------------------------------------------------------------
  // List items

  /** isUnorderedListItem: a `-`, `*` or `+` marker followed by a space or a tab. */
  predicate IsUnorderedListItem(line: string) {
    var t := TrimSpace(line);
    |t| >= 2 && (t[0] == '-' || t[0] == '*' || t[0] == '+') && (t[1] == ' ' || t[1] == '\t')
  }

  /** isOrderedListItem, which locates the number through the first `.` of the trimmed line. */
  predicate IsOrderedListItem(line: string) {
    var t := TrimSpace(line);
    if |t| < 3 then false
    else
      var dot := Index(t, ".");
      if dot <= 0 || dot >= |t| - 1 then false
      else AllDigits(t[..dot]) && (t[dot + 1] == ' ' || t[dot + 1] == '\t')
  }

  /** An ordered item is one or more digits, a `.`, then a space or a tab. */
  lemma OrderedListItemIff(line: string)
    ensures IsOrderedListItem(line) <==>
              var t := TrimSpace(line);
              exists d :: 0 < d < |t| - 1 && AllDigits(t[..d]) && t[d] == '.'
                          && (t[d + 1] == ' ' || t[d + 1] == '\t')
  {
    var t := TrimSpace(line);
    if IsOrderedListItem(line) {
      var d := Index(t, ".");
      assert t[d..d + 1] == ".";
      assert t[d] == '.';
    }
    if exists d :: 0 < d < |t| - 1 && AllDigits(t[..d]) && t[d] == '.'
                   && (t[d + 1] == ' ' || t[d + 1] == '\t')
    {
      var d :| 0 < d < |t| - 1 && AllDigits(t[..d]) && t[d] == '.'
               && (t[d + 1] == ' ' || t[d + 1] == '\t');
      FirstDot(t, d);
    }
  }

  /** A `.` after a run of digits is the first `.` of the string. */
  lemma FirstDot(t: string, d: nat)
    requires d < |t| && AllDigits(t[..d]) && t[d] == '.'
    ensures Index(t, ".") == d
  {
    assert t[d..d + 1] == ".";
    NoDotInDigits(t, d);
    var k := Index(t, ".");
    if k == -1 || d < k {
      IndexIsFirst(t, ".", d);
    }
  }

  lemma NoDotInDigits(t: string, d: nat)
    requires d <= |t| && AllDigits(t[..d])
    ensures Index(t, ".") == -1 || Index(t, ".") >= d
  {
    forall j | 0 <= j < d
      ensures !OccursAt(t, ".", j)
    {
      assert t[..d][j] == t[j];
      assert t[j..j + 1][0] == t[j];
    }
  }

  /** What parseList keeps of an ordered item: the text after the first `.`, trimmed. */
  function OrderedItemText(line: string): (text: string)
    requires IsOrderedListItem(line)
    ensures Trimmed(text)
  {
    var t := TrimSpace(line);
    TrimSpace(t[Index(t, ".") + 1..])
  }

  /** What parseList keeps of an unordered item: the text after the marker, trimmed. */
  function UnorderedItemText(line: string): (text: string)
    requires IsUnorderedListItem(line)
    ensures Trimmed(text)
  {
    var t := TrimSpace(line);
    var content := t[1..];
    var content := if |content| > 0 && content[0] == ' ' then content[1..] else content;
    TrimSpace(content)
  }

  /** `n. text` is an ordered item whose text comes back unchanged. */
  lemma OrderedItemRoundTrip(number: string, text: string)
    requires number != [] && AllDigits(number)
    requires text != [] && Trimmed(text)
    ensures TrimSpace(number + ". " + text) == number + ". " + text
    ensures IsOrderedListItem(number + ". " + text)
    ensures OrderedItemText(number + ". " + text) == text
  {
    var line := number + ". " + text;
    assert !IsSpace(line[0]);
    assert Trimmed(line);
    TrimSpaceOfTrimmed(line);
    assert line[..|number|] == number;
    FirstDot(line, |number|);
    assert line[|number| + 1..] == " " + text;
    TrimSpaceAround(" ", text, []);
    assert " " + text + [] == " " + text;
  }

  /** `- text` is an unordered item whose text comes back unchanged. */
  lemma UnorderedItemRoundTrip(marker: char, text: string)
    requires marker == '-' || marker == '*' || marker == '+'
    requires text != [] && Trimmed(text)
    ensures TrimSpace([marker, ' '] + text) == [marker, ' '] + text
    ensures IsUnorderedListItem([marker, ' '] + text)
    ensures UnorderedItemText([marker, ' '] + text) == text
  {
    var line := [marker, ' '] + text;
    assert Trimmed(line);
    TrimSpaceOfTrimmed(line);
    assert line[1..][1..] == text;
    TrimSpaceOfTrimmed(text);
  }

  // ---------------------------------------------------------------------------------------------
  // Task items: the regular expression ^[-*+]\s+\[([ xX])\]\s+(.+)$

  /** `\s` of Go's regexp syntax: ASCII white space only. */
  predicate RegexSpace(c: char) {
    c == '\t' || c == '\n' || c == '\U{C}' || c == '\r' || c == ' '
  }

  predicate AllRegexSpace(s: string) {
    forall k :: 0 <= k < |s| ==> RegexSpace(s[k])
  }

  /** The length of the run of `\s` runes starting at j. */
  function SpaceRun(s: string, j: nat): (n: nat)
    requires j <= |s|
    ensures j + n <= |s|
    ensures forall k :: j <= k < j + n ==> RegexSpace(s[k])
    ensures j + n == |s| || !RegexSpace(s[j + n])
    decreases |s| - j
  {
    if j < |s| && RegexSpace(s[j]) then 1 + SpaceRun(s, j + 1) else 0
  }

  lemma {:induction false} SpaceRunCovers(s: string, j: nat, n: nat)
    requires j + n <= |s|
    requires forall k :: j <= k < j + n ==> RegexSpace(s[k])
    ensures SpaceRun(s, j) >= n
    decreases n
  {
    if n > 0 {
      SpaceRunCovers(s, j + 1, n - 1);
    }
  }

  /** A task box: whether it is ticked, and the text after it (the second capture group). */
  datatype TaskItem = TaskItem(checked: bool, text: string)

  /** The match of the task-item expression against the whole of s, with Go's leftmost-first
      choice: each `\s+` takes the longest run, and the second gives back its last rune when
      that is the only way for `(.+)` to match something. `.` matches any rune but a newline. */
  function TaskMatch(s: string): Option<TaskItem> {
    if s == [] || !(s[0] == '-' || s[0] == '*' || s[0] == '+') then None
    else
      var a := 1 + SpaceRun(s, 1);
      if a == 1 || !(a + 2 < |s| && s[a] == '[' && (s[a + 1] == ' ' || s[a + 1] == 'x' || s[a + 1] == 'X')
                     && s[a + 2] == ']')
      then None
      else
        TaskTail(s, s[a + 1] != ' ', a + 3)
  }

  /** The rest of the match once the box has matched, from b on: `\s+(.+)$`. */
  function TaskTail(s: string, checked: bool, b: nat): Option<TaskItem>
    requires b <= |s|
  {
    var w := SpaceRun(s, b);
    if w == 0 || '\n' in s[b + w..] then None
    else if b + w < |s| then Some(TaskItem(checked, s[b + w..]))
    else if w >= 2 && s[|s| - 1] != '\n' then Some(TaskItem(checked, [s[|s| - 1]]))
    else None
  }

  /** isTaskListItem. */
  predicate IsTaskListItem(line: string) {
    TaskMatch(TrimSpace(line)).Some?
  }

  /** The strings the expression describes, piece by piece. */
  predicate TaskParts(marker: char, w1: string, mark: char, w2: string, text: string) {
    && (marker == '-' || marker == '*' || marker == '+')
    && w1 != [] && AllRegexSpace(w1)
    && (mark == ' ' || mark == 'x' || mark == 'X')
    && w2 != [] && AllRegexSpace(w2)
    && text != [] && '\n' !in text
  }

  function TaskLine(marker: char, w1: string, mark: char, w2: string, text: string): string {
    [marker] + w1 + ['[', mark, ']'] + w2 + text
  }

  /** Every match is a string of the expression's language; the captured text is its tail. */
  lemma TaskMatchSound(s: string) returns (w1: string, mark: char, w2: string)
    requires TaskMatch(s).Some?
    ensures TaskParts(s[0], w1, mark, w2, TaskMatch(s).value.text)
    ensures s == TaskLine(s[0], w1, mark, w2, TaskMatch(s).value.text)
    ensures TaskMatch(s).value.checked <==> mark == 'x' || mark == 'X'
  {
    var a := 1 + SpaceRun(s, 1);
    var e := TaskTailSound(s, s[a + 1] != ' ', a + 3);
    w1, mark, w2 := s[1..a], s[a + 1], s[a + 3..e];
    TaskPieces(s, a, e);
  }

  /** A line cut at the box (a) and at the text (e) is the expression's pieces put together. */
  lemma TaskPieces(s: string, a: nat, e: nat)
    requires 1 < a && a + 3 < e < |s|
    requires s[0] == '-' || s[0] == '*' || s[0] == '+'
    requires forall k :: 1 <= k < a ==> RegexSpace(s[k])
    requires s[a] == '[' && (s[a + 1] == ' ' || s[a + 1] == 'x' || s[a + 1] == 'X') && s[a + 2] == ']'
    requires forall k :: a + 3 <= k < e ==> RegexSpace(s[k])
    requires '\n' !in s[e..]
    ensures TaskParts(s[0], s[1..a], s[a + 1], s[a + 3..e], s[e..])
    ensures s == TaskLine(s[0], s[1..a], s[a + 1], s[a + 3..e], s[e..])
  {
    RunSlice(s, 1, a - 1);
    RunSlice(s, a + 3, e - a - 3);
    TaskLineOf(s, a, e);
  }


  /** A tail that matches is white space up to some e and the captured text from e on. */
  lemma TaskTailSound(s: string, checked: bool, b: nat) returns (e: nat)
    requires b <= |s| && TaskTail(s, checked, b).Some?
    ensures b < e < |s|
    ensures forall k :: b <= k < e ==> RegexSpace(s[k])
    ensures TaskTail(s, checked, b).value == TaskItem(checked, s[e..])
    ensures '\n' !in s[e..]
  {
    var w := SpaceRun(s, b);
    if b + w < |s| {
      e := b + w;
    } else {
      e := |s| - 1;
      assert s[e..] == [s[|s| - 1]];
    }
  }

  /** A run of `\s` runes, cut out of s, is all white space. */
  lemma RunSlice(s: string, j: nat, n: nat)
    requires j + n <= |s|
    requires forall k :: j <= k < j + n ==> RegexSpace(s[k])
    ensures AllRegexSpace(s[j..j + n])
  {
    var t := s[j..j + n];
    forall k | 0 <= k < |t|
      ensures RegexSpace(t[k])
    {
      assert t[k] == s[j + k];
    }
  }

  /** A line with a box at a, and its text from e on, is the concatenation of its pieces. */
  lemma TaskLineOf(s: string, a: nat, e: nat)
    requires 1 < a && a + 3 <= e < |s|
    requires s[a] == '[' && s[a + 2] == ']'
    ensures s == TaskLine(s[0], s[1..a], s[a + 1], s[a + 3..e], s[e..])
  {
    assert s[a..a + 3] == ['[', s[a + 1], ']'];
    assert s == [s[0]] + s[1..a] + s[a..a + 3] + s[a + 3..e] + s[e..];
  }

  /** Every string of the expression's language matches; the box decides `checked`, and the
      captured text is the tail whenever the tail does not start with white space. */
  lemma TaskMatchComplete(marker: char, w1: string, mark: char, w2: string, text: string)
    requires TaskParts(marker, w1, mark, w2, text)
    ensures TaskMatch(TaskLine(marker, w1, mark, w2, text)).Some?
    ensures TaskMatch(TaskLine(marker, w1, mark, w2, text)).value.checked
            <==> mark == 'x' || mark == 'X'
    ensures !RegexSpace(text[0]) ==> TaskMatch(TaskLine(marker, w1, mark, w2, text)).value.text == text
  {
    var s := TaskLine(marker, w1, mark, w2, text);
    var a := 1 + |w1|;
    TaskLineAt(marker, w1, mark, w2, text);
    SpaceRunExact(s, 1, |w1|);
    TaskTailComplete(s, mark != ' ', a + 3, |w2|);
  }

  /** After the box: n white-space runes and then a text without newlines always match, and
      the text is captured whole when it does not start with white space. */
  lemma TaskTailComplete(s: string, checked: bool, b: nat, n: nat)
    requires 0 < n && b + n < |s|
    requires forall k :: b <= k < b + n ==> RegexSpace(s[k])
    requires '\n' !in s[b + n..]
    ensures TaskTail(s, checked, b).Some? && TaskTail(s, checked, b).value.checked == checked
    ensures !RegexSpace(s[b + n]) ==> TaskTail(s, checked, b).value.text == s[b + n..]
  {
    SpaceRunCovers(s, b, n);
    var w := SpaceRun(s, b);
    if !RegexSpace(s[b + n]) {
      SpaceRunExact(s, b, n);
    } else {
      NoNewlineAfter(s, b + n, b + w);
      if b + w == |s| {
        assert s[|s| - 1] in s[b + n..];
      }
    }
  }


  /** A run of exactly n white-space runes, followed by the end or by another rune. */
  lemma SpaceRunExact(s: string, j: nat, n: nat)
    requires j + n <= |s|
    requires forall k :: j <= k < j + n ==> RegexSpace(s[k])
    requires j + n == |s| || !RegexSpace(s[j + n])
    ensures SpaceRun(s, j) == n
  {
    SpaceRunCovers(s, j, n);
  }

  /** A tail of a tail without newlines has none either. */
  lemma NoNewlineAfter(s: string, c: nat, d: nat)
    requires c <= d <= |s|
    requires '\n' !in s[c..]
    ensures '\n' !in s[d..]
  {
    var t := s[d..];
    forall i | 0 <= i < |t|
      ensures t[i] != '\n'
    {
      assert t[i] == s[c..][i + d - c];
    }
  }


  /** Where the pieces of a task line sit. */
  lemma TaskLineAt(marker: char, w1: string, mark: char, w2: string, text: string)
    ensures var s, a := TaskLine(marker, w1, mark, w2, text), 1 + |w1|;
      && |s| == a + 3 + |w2| + |text|
      && s[0] == marker
      && (forall k :: 1 <= k < a ==> s[k] == w1[k - 1])
      && s[a] == '[' && s[a + 1] == mark && s[a + 2] == ']'
      && (forall k :: a + 3 <= k < a + 3 + |w2| ==> s[k] == w2[k - a - 3])
      && s[a + 3 + |w2|..] == text
  {
  }


  // ---------------------------------------------------------------------------------------------
  // Tables

  /** isTableSeparator: holds a `|`, and after removing spaces only `|`, `-` and `:` remain, at
      least one of them a `-` (strings.Count(cleaned, "-") >= 1). */
  predicate IsTableSeparator(line: string) {
    '|' in line
    && var cleaned := RemoveChar(line, ' ');
    (forall c :: c in cleaned ==> c == '|' || c == '-' || c == ':') && '-' in cleaned
  }

  predicate SeparatorChar(c: char) {
    c == '|' || c == '-' || c == ':' || c == ' '
  }

  /** A separator is made of `|`, `-`, `:` and spaces only, with at least one `|` and one `-`. */
  lemma TableSeparatorIff(line: string)
    ensures IsTableSeparator(line) <==>
              '|' in line && '-' in line && forall k :: 0 <= k < |line| ==> SeparatorChar(line[k])
  {
    var cleaned := RemoveChar(line, ' ');
    if IsTableSeparator(line) {
      forall k | 0 <= k < |line|
        ensures SeparatorChar(line[k])
      {
        if line[k] != ' ' {
          assert line[k] in line;
        }
      }
    }
  }

  /** parseTableRow's cells: the trimmed line without its outer `|`s, split at every `|`, each
      piece trimmed. */
  function TableRowCells(line: string): (cells: seq<string>)
    ensures |cells| >= 1
  {
    TrimCells(Split(TrimChar(TrimSpace(line), '|'), '|'))
  }

  function TrimCells(pieces: seq<string>): (cells: seq<string>)
    ensures |cells| == |pieces|
    ensures forall k :: 0 <= k < |pieces| ==> cells[k] == TrimSpace(pieces[k])
  {
    seq(|pieces|, k requires 0 <= k < |pieces| => TrimSpace(pieces[k]))
  }

  /** parseTableRow: split the line without its outer `|`s, then trim the cells in place. */
  method ParseTableRow(line: string) returns (cells: seq<string>)
    ensures cells == TableRowCells(line)
  {
    cells := Split(TrimChar(TrimSpace(line), '|'), '|');
    cells := TrimEach(cells);
  }

  /** The loop of parseTableRow that trims every cell in place. */
  method TrimEach(pieces: seq<string>) returns (cells: seq<string>)
    ensures cells == TrimCells(pieces)
  {
    cells := pieces;
    ghost var target := TrimCells(pieces);
    for i := 0 to |cells|
      invariant |cells| == |target|
      invariant forall k :: 0 <= k < i ==> cells[k] == target[k]
      invariant forall k :: i <= k < |cells| ==> TrimSpace(cells[k]) == target[k]
    {
      cells := cells[i := TrimSpace(cells[i])];
    }
  }

  /** No cell holds a `|` or starts or ends with white space. */
  lemma TableRowCellsClean(line: string)
    ensures forall k :: 0 <= k < |TableRowCells(line)| ==>
              '|' !in TableRowCells(line)[k] && Trimmed(TableRowCells(line)[k])
  {
    CleanSplitCells(TrimChar(TrimSpace(line), '|'));
  }

  lemma CleanSplitCells(inner: string)
    ensures forall k :: 0 <= k < |TrimCells(Split(inner, '|'))| ==>
              '|' !in TrimCells(Split(inner, '|'))[k] && Trimmed(TrimCells(Split(inner, '|'))[k])
  {
    SplitPieces(inner, '|');
    CleanCells(Split(inner, '|'));
  }

  lemma CleanCells(pieces: seq<string>)
    requires forall k :: 0 <= k < |pieces| ==> '|' !in pieces[k]
    ensures forall k :: 0 <= k < |pieces| ==>
              '|' !in TrimCells(pieces)[k] && Trimmed(TrimCells(pieces)[k])
  {
    forall k | 0 <= k < |pieces|
      ensures '|' !in TrimSpace(pieces[k]) && Trimmed(TrimSpace(pieces[k]))
    {
      TrimSpaceWithin(pieces[k]);
    }
  }

  /** A row written as `| c1 | c2 | … |`. */
  function Row(cells: seq<string>): string {
    "|" + Join(Padded(cells), "|") + "|"
  }

  function Padded(cells: seq<string>): seq<string> {
    seq(|cells|, k requires 0 <= k < |cells| => " " + cells[k] + " ")
  }

  /** Reading a written row gives its cells back, for trimmed cells without `|`. */
  lemma TableRowRoundTrip(cells: seq<string>)
    requires |cells| >= 1
    requires forall k :: 0 <= k < |cells| ==> '|' !in cells[k] && Trimmed(cells[k])
    ensures TableRowCells(Row(cells)) == cells
  {
    RowInner(cells);
    PaddedCellsBack(cells);
  }

  /** Trimming a written row and its outer `|`s leaves the padded cells joined by `|`. */
  lemma RowInner(cells: seq<string>)
    requires |cells| >= 1
    ensures TrimChar(TrimSpace(Row(cells)), '|') == Join(Padded(cells), "|")
  {
    var ps := Padded(cells);
    var inner := Join(ps, "|");
    JoinEnds(ps, "|");
    var row := Row(cells);
    assert row == ['|'] + inner + ['|'];
    assert Trimmed(row);
    TrimSpaceOfTrimmed(row);
    TrimCharAround('|', inner);
  }

  /** Splitting the padded cells at `|` and trimming each gives the cells back. */
  lemma PaddedCellsBack(cells: seq<string>)
    requires |cells| >= 1
    requires forall k :: 0 <= k < |cells| ==> '|' !in cells[k] && Trimmed(cells[k])
    ensures TrimCells(Split(Join(Padded(cells), "|"), '|')) == cells
  {
    var ps := Padded(cells);
    SplitJoin(ps, '|');
    forall k | 0 <= k < |cells|
      ensures TrimSpace(ps[k]) == cells[k]
    {
      TrimSpaceAround(" ", cells[k], " ");
    }
  }

  datatype Alignment = Left | Center | Right

  /** One separator cell: `:x:` is centred, `x:` right-aligned, anything else left-aligned. */
  function AlignmentOf(cell: string): Alignment {
    var hasLeft := ":" <= cell;
    var hasRight := HasSuffix(cell, ":");
    if hasLeft && hasRight then Center else if hasRight then Right else Left
  }

  /** parseTableAlignment: one alignment per cell of the separator row. */
  function ParseTableAlignment(line: string): (align: seq<Alignment>)
    ensures |align| == |TableRowCells(line)|
  {
    Alignments(TableRowCells(line))
  }

  function Alignments(cells: seq<string>): (align: seq<Alignment>)
    ensures |align| == |cells|
    ensures forall k :: 0 <= k < |cells| ==> align[k] == AlignmentOf(cells[k])
  {
    seq(|cells|, k requires 0 <= k < |cells| => AlignmentOf(cells[k]))
  }

  /** The separator cell that asks for an alignment. */
  function SeparatorCell(a: Alignment): string {
    match a
    case Left => "---"
    case Center => ":---:"
    case Right => "---:"
  }

  function SeparatorRow(align: seq<Alignment>): string {
    Row(SeparatorCells(align))
  }

  /** A separator row written for some alignments reads back as them. */
  lemma AlignmentRoundTrip(align: seq<Alignment>)
    requires |align| >= 1
    ensures ParseTableAlignment(SeparatorRow(align)) == align
  {
    var cells := SeparatorCells(align);
    forall k | 0 <= k < |cells|
      ensures '|' !in cells[k] && Trimmed(cells[k])
    {
      SeparatorCellClean(align[k]);
    }
    TableRowRoundTrip(cells);
    var got := ParseTableAlignment(SeparatorRow(align));
    forall k | 0 <= k < |align|
      ensures got[k] == align[k]
    {
      SeparatorCellAlignment(align[k]);
    }
  }

  lemma SeparatorCellClean(a: Alignment)
    ensures '|' !in SeparatorCell(a) && Trimmed(SeparatorCell(a))
  {
  }

  lemma SeparatorCellAlignment(a: Alignment)
    ensures AlignmentOf(SeparatorCell(a)) == a
  {
    var cell := SeparatorCell(a);
    assert (":" <= cell) <==> cell[0] == ':';
    assert HasSuffix(cell, ":") <==> cell[|cell| - 1] == ':';
  }

  function SeparatorCells(align: seq<Alignment>): (cells: seq<string>)
    ensures |cells| == |align|
    ensures forall k :: 0 <= k < |align| ==> cells[k] == SeparatorCell(align[k])
  {
    seq(|align|, k requires 0 <= k < |align| => SeparatorCell(align[k]))
  }

  /** A separator row written for some alignments is recognised as a separator. */
  lemma SeparatorRowIsSeparator(align: seq<Alignment>)
    requires |align| >= 1
    ensures IsTableSeparator(SeparatorRow(align))
  {
    var cells := SeparatorCells(align);
    var ps := Padded(cells);
    forall k | 0 <= k < |ps|
      ensures forall j :: 0 <= j < |ps[k]| ==> SeparatorChar(ps[k][j])
    {
      forall j | 0 <= j < |ps[k]|
        ensures SeparatorChar(ps[k][j])
      {
        if 0 < j < |ps[k]| - 1 {
          assert ps[k][j] == cells[k][j - 1];
        }
      }
    }
    JoinChars(ps, "|");
    var inner := Join(ps, "|");
    var row := SeparatorRow(align);
    assert row == "|" + inner + "|";
    forall k | 0 <= k < |row|
      ensures SeparatorChar(row[k])
    {
      if 0 < k < |row| - 1 {
        assert row[k] == inner[k - 1];
      }
    }
    JoinFirstPiece(ps, "|");
    assert ps[0][2] == '-';
    assert inner[2] == '-';
    assert row[3] == '-';
    TableSeparatorIff(row);
  }

  // ---------------------------------------------------------------------------------------------
  // Helpers about trimming and joining

  lemma TrimSpaceWithin(s: string)
    ensures forall c :: c in TrimSpace(s) ==> c in s
  {
    var l := TrimLeftSpace(s);
    TrimLeftSpaceSuffix(s);
    var r := TrimSpace(s);
    assert r == TrimRightSpace(l);
    forall c | c in r
      ensures c in s
    {
      var k :| 0 <= k < |r| && r[k] == c;
      assert l[k] == c;
      assert s[|s| - |l| + k] == c;
    }
  }

  lemma {:induction false} JoinEnds(ps: seq<string>, sep: string)
    requires |ps| >= 1 && forall k :: 0 <= k < |ps| ==> ps[k] != []
    ensures Join(ps, sep) != []
    ensures Join(ps, sep)[0] == ps[0][0]
    ensures Join(ps, sep)[|Join(ps, sep)| - 1] == ps[|ps| - 1][|ps[|ps| - 1]| - 1]
  {
    if |ps| > 1 {
      JoinEnds(ps[1..], sep);
    }
  }

  lemma {:induction false} JoinChars(ps: seq<string>, sep: string)
    requires forall k :: 0 <= k < |ps| ==> forall j :: 0 <= j < |ps[k]| ==> SeparatorChar(ps[k][j])
    requires forall j :: 0 <= j < |sep| ==> SeparatorChar(sep[j])
    ensures forall j :: 0 <= j < |Join(ps, sep)| ==> SeparatorChar(Join(ps, sep)[j])
  {
    if |ps| > 1 {
      JoinChars(ps[1..], sep);
      var rest := Join(ps[1..], sep);
      var whole := Join(ps, sep);
      assert whole == ps[0] + sep + rest;
      forall j | 0 <= j < |whole|
        ensures SeparatorChar(whole[j])
      {
        if j < |ps[0]| {
        } else if j < |ps[0]| + |sep| {
          assert whole[j] == sep[j - |ps[0]|];
        } else {
          assert whole[j] == rest[j - |ps[0]| - |sep|];
        }
      }
    }
  }

  lemma JoinFirstPiece(ps: seq<string>, sep: string)
    requires |ps| >= 1
    ensures ps[0] <= Join(ps, sep)
  {
  }
}
