/** The converter: it parses the Markdown, turns every element into a fixed sequence of writer
    calls (spacing, text lines, a rule), wraps running text greedily to the width of the text
    area, and finally builds the file. */
module Mark2Pdf {
  import opened Strings
  import opened Inline
  import opened Blocks
  import opened Parser
  import opened PdfFile
  import opened Pdf

  // ---------------------------------------------------------------------------------------------
  // Line capacity

  /** The width of the text area between the margins. */
  const MaxWidth: real := PageWidth - Margin * 2.0

  /** How many characters writeWrappedText puts on a line at fontSize: the text area's width over
      an average character width of half the font size, truncated, and at least 10. */
  function Capacity(fontSize: real): (cap: nat)
    requires fontSize > 0.0
    ensures cap >= 10
    ensures cap > 10 ==>
      cap as real * (fontSize * 0.5) <= MaxWidth < (cap as real + 1.0) * (fontSize * 0.5)
    ensures cap == 10 ==> MaxWidth < 11.0 * (fontSize * 0.5)
  {
    var w := fontSize * 0.5;
    var n := (MaxWidth / w).Floor;
    FloorScaled(MaxWidth, w, n);
    if n < 10 then 10 else n
  }

  /** n is the floor of x / w exactly when n copies of w fit in x and n + 1 do not. */
  lemma FloorScaled(x: real, w: real, n: int)
    requires w > 0.0 && n == (x / w).Floor
    ensures (n as real) * w <= x
    ensures x < (n as real + 1.0) * w
  {
    var q := x / w;
    var lo, hi := n as real, n as real + 1.0;
    assert lo <= q < hi;
    MulMono(lo, q, w);
    MulMonoStrict(q, hi, w);
    assert q * w == x;
    assert q * w < hi * w;
    assert x < hi * w;
  }

  lemma MulMono(a: real, b: real, w: real)
    requires a <= b && w > 0.0
    ensures a * w <= b * w
  {
    assert b * w - a * w == (b - a) * w;
  }

  lemma MulMonoStrict(a: real, b: real, w: real)
    requires a < b && w > 0.0
    ensures a * w < b * w
  {
    assert b * w - a * w == (b - a) * w;
    assert (b - a) * w > 0.0;
  }

  /** Body text wraps at 99 characters. */
  lemma NormalCapacity()
    ensures Capacity(GetFontSize("normal")) == 99
  {
    assert GetFontSize("normal") == 10.0;
    assert MaxWidth == 495.28;
    assert (495.28 / 5.0).Floor == 99;
  }

  // ---------------------------------------------------------------------------------------------
  // Greedy word wrap

  /** The word groups writeWrappedText makes of words, when the line being built holds the words
      of g: each word joins the line if the line then still fits in cap bytes; otherwise the line
      is finished (when it holds anything) and the word starts the next one. */
  function Groups(words: seq<string>, g: seq<string>, cap: nat): seq<seq<string>>
    decreases |words|
  {
    if words == [] then (if g == [] then [] else [g])
    else
      var t := g + [words[0]];
      if ByteLen(Join(t, " ")) <= cap then Groups(words[1..], t, cap)
      else (if g == [] then [] else [g]) + Groups(words[1..], [words[0]], cap)
  }

  function GroupLines(gs: seq<seq<string>>): (lines: seq<string>)
    ensures |lines| == |gs|
  {
    seq(|gs|, k requires 0 <= k < |gs| => Join(gs[k], " "))
  }

  /** The lines writeWrappedText writes for words at capacity cap. */
  function WrapLines(words: seq<string>, cap: nat): seq<string> {
    GroupLines(Groups(words, [], cap))
  }

  function Flatten<T>(xss: seq<seq<T>>): seq<T> {
    if xss == [] then [] else xss[0] + Flatten(xss[1..])
  }

  /** The words of lines, line after line. */
  function WordsOf(lines: seq<string>): seq<string> {
    Flatten(seq(|lines|, k requires 0 <= k < |lines| => Fields(lines[k])))
  }

  predicate AllWords(ws: seq<string>) {
    forall k :: 0 <= k < |ws| ==> IsWord(ws[k])
  }

  /** A group the wrap can hold as its current line: a single word, or words fitting in cap. */
  predicate Holds(g: seq<string>, cap: nat) {
    g != [] && AllWords(g) && (|g| == 1 || ByteLen(Join(g, " ")) <= cap)
  }

  /** The wrapped lines of a text are non-empty, each is its words joined by single spaces, and
      their words, in order, are the text's words: nothing dropped, repeated or reordered. No
      words give no lines. */
  lemma WrapKeepsWords(words: seq<string>, cap: nat)
    requires AllWords(words)
    ensures var lines := WrapLines(words, cap);
            (forall k :: 0 <= k < |lines| ==>
               lines[k] != [] && lines[k] == Join(Fields(lines[k]), " "))
            && WordsOf(lines) == words
            && (lines == [] <==> words == [])
  {
    var gs := Groups(words, [], cap);
    var lines := WrapLines(words, cap);
    GroupsFlatten(words, [], cap);
    LineFields(words, cap);
    assert seq(|lines|, k requires 0 <= k < |lines| => Fields(lines[k])) == gs;
    if words != [] {
      assert Flatten(gs) != [];
    }
  }

  /** Each wrapped line fits in cap bytes, unless it is a single word longer than that. */
  lemma WrapFits(words: seq<string>, cap: nat)
    requires AllWords(words)
    ensures var lines := WrapLines(words, cap);
            forall k :: 0 <= k < |lines| ==> ByteLen(lines[k]) <= cap || |Fields(lines[k])| == 1
  {
    LineFields(words, cap);
  }

  /** The wrap is greedy: the first word of each line would not have fitted on the line before. */
  lemma WrapGreedy(words: seq<string>, cap: nat)
    requires AllWords(words)
    ensures var lines := WrapLines(words, cap);
            forall k :: 0 < k < |lines| ==>
              Fields(lines[k]) != [] && ByteLen(lines[k - 1] + " " + Fields(lines[k])[0]) > cap
  {
    var gs := Groups(words, [], cap);
    var lines := WrapLines(words, cap);
    GroupsGreedy(words, [], cap);
    LineFields(words, cap);
    forall k | 0 < k < |lines|
      ensures ByteLen(lines[k - 1] + " " + Fields(lines[k])[0]) > cap
    {
      JoinSnoc(gs[k - 1], gs[k][0]);
    }
  }

  /** The words of each wrapped line are its group. */
  lemma LineFields(words: seq<string>, cap: nat)
    requires AllWords(words)
    ensures var gs := Groups(words, [], cap);
            var lines := WrapLines(words, cap);
            forall k :: 0 <= k < |lines| ==> Holds(gs[k], cap) && Fields(lines[k]) == gs[k] && lines[k] != []
  {
    var gs := Groups(words, [], cap);
    var lines := WrapLines(words, cap);
    GroupsHold(words, [], cap);
    forall k | 0 <= k < |lines|
      ensures Fields(lines[k]) == gs[k] && lines[k] != []
    {
      FieldsJoin(gs[k]);
      JoinWordsNonEmpty(gs[k]);
    }
  }

  /** Every group the wrap makes can be held as a line. */
  lemma {:induction false} GroupsHold(words: seq<string>, g: seq<string>, cap: nat)
    requires AllWords(words) && (g == [] || Holds(g, cap))
    ensures forall k :: 0 <= k < |Groups(words, g, cap)| ==> Holds(Groups(words, g, cap)[k], cap)
    decreases |words|
  {
    if words != [] {
      var t := g + [words[0]];
      if ByteLen(Join(t, " ")) <= cap {
        assert AllWords(t) by { assert forall k :: 0 <= k < |g| ==> t[k] == g[k]; }
        GroupsHold(words[1..], t, cap);
      } else {
        assert Holds([words[0]], cap);
        GroupsHold(words[1..], [words[0]], cap);
      }
    }
  }

  /** The groups, put together, are the words of the current line followed by the rest. */
  lemma {:induction false} GroupsFlatten(words: seq<string>, g: seq<string>, cap: nat)
    ensures Flatten(Groups(words, g, cap)) == g + words
    decreases |words|
  {
    if words == [] {
      if g != [] {
        assert Flatten([g]) == g + Flatten([g][1..]);
      }
    } else {
      var w, rest := words[0], words[1..];
      var t := g + [w];
      assert words == [w] + rest;
      if ByteLen(Join(t, " ")) <= cap {
        GroupsFlatten(rest, t, cap);
      } else {
        GroupsFlatten(rest, [w], cap);
        var later := Groups(rest, [w], cap);
        if g != [] {
          assert ([g] + later)[1..] == later;
          assert Flatten([g] + later) == g + Flatten(later);
          assert g + ([w] + rest) == g + words;
        } else {
          assert [] + later == later;
          assert [] + words == words;
        }
      }
    }
  }

  /** A non-empty current line starts the first group. */
  lemma {:induction false} GroupsStart(words: seq<string>, g: seq<string>, cap: nat)
    requires g != []
    ensures Groups(words, g, cap) != [] && g <= Groups(words, g, cap)[0]
    decreases |words|
  {
    if words != [] {
      var t := g + [words[0]];
      if ByteLen(Join(t, " ")) <= cap {
        GroupsStart(words[1..], t, cap);
      }
    }
  }

  /** The first word of each group does not fit on the group before it. */
  predicate Greedy(gs: seq<seq<string>>, cap: nat) {
    forall k :: 0 < k < |gs| ==> gs[k] != [] && ByteLen(Join(gs[k - 1] + [gs[k][0]], " ")) > cap
  }

  lemma {:induction false} GroupsGreedy(words: seq<string>, g: seq<string>, cap: nat)
    ensures Greedy(Groups(words, g, cap), cap)
    decreases |words|
  {
    if words != [] {
      var w, rest := words[0], words[1..];
      var t := g + [w];
      if ByteLen(Join(t, " ")) <= cap {
        GroupsGreedy(rest, t, cap);
      } else {
        GroupsGreedy(rest, [w], cap);
        GroupsStart(rest, [w], cap);
        if g != [] {
          GreedyCons(g, Groups(rest, [w], cap), cap);
        } else {
          assert [] + Groups(rest, [w], cap) == Groups(rest, [w], cap);
        }
      }
    }
  }

  lemma GreedyCons(g: seq<string>, later: seq<seq<string>>, cap: nat)
    requires Greedy(later, cap) && later != [] && later[0] != []
    requires ByteLen(Join(g + [later[0][0]], " ")) > cap
    ensures Greedy([g] + later, cap)
  {
    var gs := [g] + later;
    forall k | 0 < k < |gs|
      ensures gs[k] != [] && ByteLen(Join(gs[k - 1] + [gs[k][0]], " ")) > cap
    {
      assert gs[k] == later[k - 1];
      if k > 1 {
        assert gs[k - 1] == later[k - 2];
      }
    }
  }

  lemma {:induction false} JoinSnoc(g: seq<string>, w: string)
    requires g != []
    ensures Join(g + [w], " ") == Join(g, " ") + " " + w
    decreases |g|
  {
    if |g| == 1 {
      assert (g + [w])[1..] == [w];
    } else {
      JoinSnoc(g[1..], w);
      assert (g + [w])[1..] == g[1..] + [w];
    }
  }

  lemma {:induction false} JoinWordsNonEmpty(g: seq<string>)
    requires g != [] && AllWords(g)
    ensures Join(g, " ") != []
  {
    if |g| > 1 {
      assert |Join(g, " ")| >= |g[0]|;
    }
  }

  // ---------------------------------------------------------------------------------------------
  // Writer calls

  /** A call renderElement makes on the page writer. */
  datatype Call =
    | SpaceCall(points: real)
    | TextCall(line: string, size: real)
    | LineCall(width: real)

  /** The writer's drawing state after one call. */
  function Perform(c: Canvas, call: Call): Canvas {
    match call
    case SpaceCall(points) => SpaceOn(c, points)
    case TextCall(line, size) => TextOn(c, line, size, "F1")
    case LineCall(width) => LineOn(c, width)
  }

  /** The drawing state after the calls, one after the other. */
  function Apply(c: Canvas, calls: seq<Call>): Canvas {
    if calls == [] then c else Perform(Apply(c, calls[..|calls| - 1]), calls[|calls| - 1])
  }

  function TextCalls(lines: seq<string>, size: real): (calls: seq<Call>)
    ensures |calls| == |lines|
  {
    seq(|lines|, k requires 0 <= k < |lines| => TextCall(lines[k], size))
  }

  /** writeWrappedText's calls: one text call per wrapped line. */
  function WrapCalls(text: string, size: real): seq<Call>
    requires size > 0.0
  {
    TextCalls(WrapLines(Fields(text), Capacity(size)), size)
  }

  function HeaderKind(level: nat): string
    requires 1 <= level <= 6
  {
    "h" + [DigitChar(level)]
  }

  /** The space added before and after a header of each level. */
  function SpaceBefore(level: nat): real
    requires 1 <= level <= 6
  {
    [10.0, 8.0, 6.0, 5.0, 4.0, 3.0][level - 1]
  }

  function SpaceAfter(level: nat): real
    requires 1 <= level <= 6
  {
    [5.0, 4.0, 3.0, 2.0, 2.0, 2.0][level - 1]
  }

  /** An indented line led by a marker: "  - item", "  N. item" or "  | quote". */
  function Marked(marker: string, text: string): string {
    "  " + marker + " " + text
  }

  /** The text of item i of a list: "  - " or "  N. " with N = i + 1, then the item. */
  function ItemText(ordered: bool, i: nat, item: string): string {
    Marked(Marker(ordered, i), item)
  }

  /** The marker word that starts the lines of item i. */
  function Marker(ordered: bool, i: nat): string {
    if ordered then Dec(i + 1) + "." else "-"
  }

  /** The calls for the items of a list, item by item. */
  function ItemCalls(ordered: bool, items: seq<string>, strip: string -> string): seq<Call> {
    if items == [] then []
    else
      var i := |items| - 1;
      ItemCalls(ordered, items[..i], strip)
      + WrapCalls(ItemText(ordered, i, strip(items[i])), GetFontSize("normal"))
  }

  /** The calls renderElement makes for an element; strip stands for stripInlineFormatting. */
  function RenderCalls(e: Element, strip: string -> string): seq<Call> {
    match e
    case Header(level, content, _) =>
      if 1 <= level <= 6 then
        [SpaceCall(SpaceBefore(level)), TextCall(content, GetFontSize(HeaderKind(level))),
         SpaceCall(SpaceAfter(level))]
      else []
    case Paragraph(content, _) =>
      WrapCalls(strip(content), GetFontSize("normal")) + [SpaceCall(8.0)]
    case CodeBlock(content, _) =>
      [SpaceCall(5.0)] + TextCalls(Split(content, '\n'), GetFontSize("code")) + [SpaceCall(5.0)]
    case List(ordered, items, _) =>
      [SpaceCall(3.0)] + ItemCalls(ordered, items, strip) + [SpaceCall(5.0)]
    case Quote(content, _) =>
      [SpaceCall(5.0)] + WrapCalls(Marked("|", strip(content)), GetFontSize("normal")) + [SpaceCall(5.0)]
    case Rule => [SpaceCall(5.0), LineCall(MaxWidth), SpaceCall(5.0)]
    case TaskList(_, _) => []
    case Table(_, _) => []
  }

  /** The calls for a sequence of elements. */
  function AllCalls(es: seq<Element>, strip: string -> string): seq<Call> {
    if es == [] then [] else AllCalls(es[..|es| - 1], strip) + RenderCalls(es[|es| - 1], strip)
  }

  /** What Build does to the drawing state: a first, empty page if nothing was drawn. */
  function Completed(c: Canvas): Canvas {
    if c.pages == [] then NewPageOn(c) else c
  }

  /** The lines written by text calls. */
  function TextsOf(calls: seq<Call>): seq<string> {
    if calls == [] then []
    else
      var last := calls[|calls| - 1];
      TextsOf(calls[..|calls| - 1]) + if last.TextCall? then [last.line] else []
  }

  /** The texts drawn by text operators. */
  function Drawn(ops: seq<Op>): seq<string> {
    if ops == [] then []
    else
      var last := ops[|ops| - 1];
      Drawn(ops[..|ops| - 1]) + if last.ShowText? then [last.text] else []
  }

  // ---------------------------------------------------------------------------------------------
  // The converter

  datatype Conversion = Converted(pdf: seq<byte>) | Hangs(line: nat)

  class Converter {
    const markdown: string
    const pdf: PdfWriter
    /** stripInlineFormatting, which is not part of this model. */
    const strip: string -> string

    constructor(markdown: string, strip: string -> string)
      ensures this.markdown == markdown && this.strip == strip
      ensures fresh(pdf) && pdf.Valid() && pdf.State() == Canvas([], 0.0)
    {
      this.markdown := markdown;
      this.strip := strip;
      pdf := new PdfWriter();
    }

    /** Parses, renders every element, and builds the file. Where the parser would loop forever
        on a line, the result is Hangs with that line and nothing is drawn. */
    method Convert(num: real -> string, compress: seq<byte> -> seq<byte>) returns (r: Conversion)
      requires pdf.Valid()
      modifies pdf
      ensures pdf.Valid()
      ensures ParseMarkdown(markdown).Stuck? ==>
        r == Hangs(ParseMarkdown(markdown).line) && pdf.State() == old(pdf.State())
      ensures ParseMarkdown(markdown).Parsed? ==>
        var c := Completed(Apply(old(pdf.State()), AllCalls(ParseMarkdown(markdown).elements, strip)));
        pdf.State() == c && r == Converted(Document(num, compress, PageTexts(num, c.pages)))
    {
      var outcome := Parse(markdown);
      if outcome.Stuck? {
        return Hangs(outcome.line);
      }
      var elements := outcome.elements;
      ghost var c0 := pdf.State();
      for k := 0 to |elements|
        invariant pdf.Valid()
        invariant pdf.State() == Apply(c0, AllCalls(elements[..k], strip))
      {
        RenderElement(elements[k]);
        assert elements[..k + 1][..k] == elements[..k];
        ApplyAppend(c0, AllCalls(elements[..k], strip), RenderCalls(elements[k], strip));
      }
      assert elements[..|elements|] == elements;
      var bytes := pdf.Build(num, compress);
      r := Converted(bytes);
    }

    /** renderElement: the writer calls for the element's type; tables and task lists, which
        have no case, draw nothing. */
    method RenderElement(e: Element)
      requires pdf.Valid()
      modifies pdf
      ensures pdf.Valid() && pdf.State() == Apply(old(pdf.State()), RenderCalls(e, strip))
    {
      match e
      case Header(level, content, _) =>
        if 1 <= level <= 6 {
          RenderHeader(level, content);
        }
      case Paragraph(content, _) => RenderParagraph(content);
      case CodeBlock(content, _) => RenderCode(content);
      case List(ordered, items, _) => RenderList(ordered, items);
      case Quote(content, _) => RenderQuote(content);
      case Rule => RenderRule();
      case TaskList(_, _) =>
      case Table(_, _) =>
    }

    method RenderHeader(level: nat, content: string)
      requires pdf.Valid() && 1 <= level <= 6
      modifies pdf
      ensures pdf.Valid()
      ensures pdf.State() == Apply(old(pdf.State()), RenderCalls(Header(level, content, []), strip))
    {
      ghost var c0 := pdf.State();
      var before, after, size := SpaceBefore(level), SpaceAfter(level), GetFontSize(HeaderKind(level));
      pdf.AddSpace(before);
      pdf.WriteText(content, size, true);
      pdf.AddSpace(after);
      ApplyThree(c0, SpaceCall(before), TextCall(content, size), SpaceCall(after));
    }

    method RenderParagraph(content: string)
      requires pdf.Valid()
      modifies pdf
      ensures pdf.Valid()
      ensures pdf.State() == Apply(old(pdf.State()), RenderCalls(Paragraph(content, []), strip))
    {
      ghost var c0 := pdf.State();
      var text := strip(content);
      FontSizeRange("normal");
      WriteWrappedText(text, GetFontSize("normal"), false);
      pdf.AddSpace(8.0);
      ApplySnoc(c0, WrapCalls(text, GetFontSize("normal")), SpaceCall(8.0));
    }

    method RenderCode(content: string)
      requires pdf.Valid()
      modifies pdf
      ensures pdf.Valid()
      ensures pdf.State() == Apply(old(pdf.State()), RenderCalls(CodeBlock(content, []), strip))
    {
      ghost var c0 := pdf.State();
      pdf.AddSpace(5.0);
      var lines := Split(content, '\n');
      var size := GetFontSize("code");
      ApplySnoc(c0, [], SpaceCall(5.0));
      assert [] + [SpaceCall(5.0)] == [SpaceCall(5.0)] + TextCalls(lines[..0], size);
      for i := 0 to |lines|
        invariant pdf.Valid()
        invariant pdf.State() == Apply(c0, [SpaceCall(5.0)] + TextCalls(lines[..i], size))
      {
        pdf.WriteText(lines[i], size, false);
        CodeLineStep(c0, lines, i, size);
      }
      assert lines[..|lines|] == lines;
      pdf.AddSpace(5.0);
      ApplySnoc(c0, [SpaceCall(5.0)] + TextCalls(lines, size), SpaceCall(5.0));
    }

    method RenderList(ordered: bool, items: seq<string>)
      requires pdf.Valid()
      modifies pdf
      ensures pdf.Valid()
      ensures pdf.State() == Apply(old(pdf.State()), RenderCalls(List(ordered, items, []), strip))
    {
      ghost var c0 := pdf.State();
      pdf.AddSpace(3.0);
      FontSizeRange("normal");
      ApplySnoc(c0, [], SpaceCall(3.0));
      assert [] + [SpaceCall(3.0)] == [SpaceCall(3.0)] + ItemCalls(ordered, items[..0], strip);
      for i := 0 to |items|
        invariant pdf.Valid()
        invariant pdf.State() == Apply(c0, [SpaceCall(3.0)] + ItemCalls(ordered, items[..i], strip))
      {
        var text := ItemText(ordered, i, strip(items[i]));
        WriteWrappedText(text, GetFontSize("normal"), false);
        ItemStep(c0, ordered, items, i, strip);
      }
      assert items[..|items|] == items;
      pdf.AddSpace(5.0);
      ApplySnoc(c0, [SpaceCall(3.0)] + ItemCalls(ordered, items, strip), SpaceCall(5.0));
    }

    method RenderQuote(content: string)
      requires pdf.Valid()
      modifies pdf
      ensures pdf.Valid()
      ensures pdf.State() == Apply(old(pdf.State()), RenderCalls(Quote(content, []), strip))
    {
      ghost var c0 := pdf.State();
      pdf.AddSpace(5.0);
      var text := Marked("|", strip(content));
      FontSizeRange("normal");
      WriteWrappedText(text, GetFontSize("normal"), false);
      pdf.AddSpace(5.0);
      ApplySnoc(c0, [], SpaceCall(5.0));
      assert [] + [SpaceCall(5.0)] == [SpaceCall(5.0)];
      ApplyAppend(c0, [SpaceCall(5.0)], WrapCalls(text, GetFontSize("normal")));
      ApplySnoc(c0, [SpaceCall(5.0)] + WrapCalls(text, GetFontSize("normal")), SpaceCall(5.0));
    }

    method RenderRule()
      requires pdf.Valid()
      modifies pdf
      ensures pdf.Valid() && pdf.State() == Apply(old(pdf.State()), RenderCalls(Rule, strip))
    {
      ghost var c0 := pdf.State();
      pdf.AddSpace(5.0);
      pdf.WriteLine(PageWidth - Margin * 2.0);
      pdf.AddSpace(5.0);
      ApplyThree(c0, SpaceCall(5.0), LineCall(MaxWidth), SpaceCall(5.0));
    }

    /** Greedy word wrap of text at fontSize: writes each finished line as soon as the next word
        does not fit, and the last line at the end. */
    method WriteWrappedText(text: string, fontSize: real, isBold: bool)
      requires pdf.Valid() && fontSize > 0.0
      modifies pdf
      ensures pdf.Valid() && pdf.State() == Apply(old(pdf.State()), WrapCalls(text, fontSize))
    {
      var maxCharsPerLine := Capacity(fontSize);
      var words := Fields(text);
      var currentLine := "";
      ghost var g: seq<string> := [];
      ghost var done: seq<seq<string>> := [];
      ghost var c0 := pdf.State();
      var i := 0;
      while i < |words|
        invariant i <= |words| && pdf.Valid()
        invariant AllWords(g) && currentLine == Join(g, " ") && (g == [] <==> currentLine == "")
        invariant Groups(words, [], maxCharsPerLine) == done + Groups(words[i..], g, maxCharsPerLine)
        invariant pdf.State() == Apply(c0, TextCalls(GroupLines(done), fontSize))
      {
        var word := words[i];
        var testLine := currentLine;
        if testLine != "" {
          testLine := testLine + " ";
        }
        testLine := testLine + word;
        assert testLine == Join(g + [word], " ") by {
          if g != [] {
            JoinSnoc(g, word);
          } else {
            assert g + [word] == [word];
          }
        }
        GroupsAdvance(words, i, g, done, maxCharsPerLine);
        assert IsWord(word);
        if ByteLen(testLine) <= maxCharsPerLine {
          currentLine := testLine;
          g := g + [word];
          assert Groups(words, [], maxCharsPerLine) == done + Groups(words[i + 1..], g, maxCharsPerLine);
        } else {
          if currentLine != "" {
            pdf.WriteText(currentLine, fontSize, isBold);
            DoneSnoc(c0, done, g, fontSize);
            done := done + [g];
          }
          currentLine := word;
          g := [word];
          assert Groups(words, [], maxCharsPerLine) == done + Groups(words[i + 1..], g, maxCharsPerLine);
        }
        JoinWordsNonEmpty(g);
        i := i + 1;
      }
      assert words[i..] == [];
      if currentLine != "" {
        pdf.WriteText(currentLine, fontSize, isBold);
        DoneSnoc(c0, done, g, fontSize);
        done := done + [g];
      } else {
        assert done + [] == done;
      }
      assert done == Groups(words, [], maxCharsPerLine);
      assert WrapCalls(text, fontSize) == TextCalls(GroupLines(done), fontSize);
    }
  }

  // ---------------------------------------------------------------------------------------------
  // Lemmas about calls

  lemma ApplySnoc(c: Canvas, calls: seq<Call>, call: Call)
    ensures Apply(c, calls + [call]) == Perform(Apply(c, calls), call)
  {
    assert (calls + [call])[..|calls|] == calls;
  }

  lemma ApplyThree(c: Canvas, a: Call, b: Call, d: Call)
    ensures Apply(c, [a, b, d]) == Perform(Perform(Perform(c, a), b), d)
  {
    assert [a, b, d][..2] == [a, b] && [a, b][..1] == [a] && [a][..0] == [];
    assert Apply(c, [a]) == Perform(c, a);
    assert Apply(c, [a, b]) == Perform(Apply(c, [a]), b);
  }

  /** Performing two call sequences one after the other is performing their concatenation. */
  lemma {:induction false} ApplyAppend(c: Canvas, a: seq<Call>, b: seq<Call>)
    ensures Apply(c, a + b) == Apply(Apply(c, a), b)
    decreases |b|
  {
    if b == [] {
      assert a + b == a;
    } else {
      var init := b[..|b| - 1];
      ApplyAppend(c, a, init);
      assert (a + b)[..|a + b| - 1] == a + init;
    }
  }

  /** One more code line written. */
  lemma CodeLineStep(c0: Canvas, lines: seq<string>, i: nat, size: real)
    requires i < |lines|
    ensures Apply(c0, [SpaceCall(5.0)] + TextCalls(lines[..i + 1], size))
         == TextOn(Apply(c0, [SpaceCall(5.0)] + TextCalls(lines[..i], size)), lines[i], size, "F1")
  {
    var before := [SpaceCall(5.0)] + TextCalls(lines[..i], size);
    assert [SpaceCall(5.0)] + TextCalls(lines[..i + 1], size) == before + [TextCall(lines[i], size)];
    ApplySnoc(c0, before, TextCall(lines[i], size));
  }

  /** One more list item written. */
  lemma ItemStep(c0: Canvas, ordered: bool, items: seq<string>, i: nat, strip: string -> string)
    requires i < |items|
    ensures Apply(c0, [SpaceCall(3.0)] + ItemCalls(ordered, items[..i + 1], strip))
         == Apply(Apply(c0, [SpaceCall(3.0)] + ItemCalls(ordered, items[..i], strip)),
                  WrapCalls(ItemText(ordered, i, strip(items[i])), GetFontSize("normal")))
  {
    var text := ItemText(ordered, i, strip(items[i]));
    var before := [SpaceCall(3.0)] + ItemCalls(ordered, items[..i], strip);
    assert items[..i + 1][..i] == items[..i];
    assert [SpaceCall(3.0)] + ItemCalls(ordered, items[..i + 1], strip)
        == before + WrapCalls(text, GetFontSize("normal"));
    ApplyAppend(c0, before, WrapCalls(text, GetFontSize("normal")));
  }

  /** One word of the wrap loop: it joins the current group or starts the next one. */
  lemma GroupsAdvance(words: seq<string>, i: nat, g: seq<string>, done: seq<seq<string>>, cap: nat)
    requires i < |words| && Groups(words, [], cap) == done + Groups(words[i..], g, cap)
    ensures var t := g + [words[i]];
            if ByteLen(Join(t, " ")) <= cap
            then Groups(words, [], cap) == done + Groups(words[i + 1..], t, cap)
            else Groups(words, [], cap)
                 == (if g == [] then done else done + [g]) + Groups(words[i + 1..], [words[i]], cap)
  {
    assert words[i..][0] == words[i] && words[i..][1..] == words[i + 1..];
    var t := g + [words[i]];
    if ByteLen(Join(t, " ")) > cap && g != [] {
      var later := Groups(words[i + 1..], [words[i]], cap);
      assert done + ([g] + later) == done + [g] + later;
    }
  }

  /** Writing the finished group g as a line extends the calls for the lines already written. */
  lemma DoneSnoc(c0: Canvas, done: seq<seq<string>>, g: seq<string>, size: real)
    ensures Apply(c0, TextCalls(GroupLines(done + [g]), size))
         == TextOn(Apply(c0, TextCalls(GroupLines(done), size)), Join(g, " "), size, "F1")
  {
    var calls := TextCalls(GroupLines(done), size);
    assert TextCalls(GroupLines(done + [g]), size) == calls + [TextCall(Join(g, " "), size)];
    ApplySnoc(c0, calls, TextCall(Join(g, " "), size));
  }

  // ---------------------------------------------------------------------------------------------
  // What the rendering draws

  /** The texts drawn by performing calls are the lines of their text calls, in order. */
  lemma {:induction false} ApplyDraws(c: Canvas, calls: seq<Call>)
    ensures Drawn(Ops(Apply(c, calls).pages)) == Drawn(Ops(c.pages)) + TextsOf(calls)
    decreases |calls|
  {
    if calls != [] {
      var init, last := calls[..|calls| - 1], calls[|calls| - 1];
      ApplyDraws(c, init);
      PerformDraws(Apply(c, init), last);
    }
  }

  lemma PerformDraws(c: Canvas, call: Call)
    ensures Drawn(Ops(Perform(c, call).pages))
         == Drawn(Ops(c.pages)) + if call.TextCall? then [call.line] else []
  {
    var ops := Ops(c.pages);
    var y0 := if Breaks(c) then Top else c.y;
    match call
    case SpaceCall(points) =>
      SpaceOnMoves(c, points);
    case TextCall(line, size) =>
      TextOnDraws(c, line, size, "F1");
      DrawnSnoc(ops, ShowText("F1", size, Margin, y0, line));
    case LineCall(width) =>
      LineOnDraws(c, width);
      DrawnSnoc(ops, StrokeLine(Margin, Margin + width, y0));
  }

  lemma DrawnSnoc(ops: seq<Op>, op: Op)
    ensures Drawn(ops + [op]) == Drawn(ops) + if op.ShowText? then [op.text] else []
  {
    assert (ops + [op])[..|ops|] == ops;
  }

  /** A call the source can make: spacing and font sizes are never negative. */
  predicate Forward(call: Call) {
    match call
    case SpaceCall(points) => points >= 0.0
    case TextCall(_, size) => size >= 0.0
    case LineCall(_) => true
  }

  predicate AllForward(calls: seq<Call>) {
    forall k :: 0 <= k < |calls| ==> Forward(calls[k])
  }

  /** Starting with every operator between Bottom and Top and the cursor not above Top, calls
      keep it so: no operator is ever drawn outside the margins. */
  lemma {:induction false} ApplyWithin(c: Canvas, calls: seq<Call>)
    requires Within(Ops(c.pages)) && c.y <= Top && AllForward(calls)
    ensures Within(Ops(Apply(c, calls).pages)) && Apply(c, calls).y <= Top
    decreases |calls|
  {
    if calls != [] {
      var init, last := calls[..|calls| - 1], calls[|calls| - 1];
      ApplyWithin(c, init);
      PerformWithin(Apply(c, init), last);
    }
  }

  lemma PerformWithin(c: Canvas, call: Call)
    requires Within(Ops(c.pages)) && c.y <= Top && Forward(call)
    ensures Within(Ops(Perform(c, call).pages)) && Perform(c, call).y <= Top
  {
    var ops := Ops(c.pages);
    var y0 := if Breaks(c) then Top else c.y;
    assert Bottom <= y0 <= Top;
    match call
    case SpaceCall(points) =>
      SpaceOnMoves(c, points);
    case TextCall(line, size) =>
      TextOnDraws(c, line, size, "F1");
      WithinSnoc(ops, ShowText("F1", size, Margin, y0, line));
    case LineCall(width) =>
      LineOnDraws(c, width);
      WithinSnoc(ops, StrokeLine(Margin, Margin + width, y0));
  }

  lemma WithinSnoc(ops: seq<Op>, op: Op)
    requires Within(ops) && Bottom <= op.y <= Top
    ensures Within(ops + [op])
  {
  }

  lemma {:induction false} AllCallsForward(es: seq<Element>, strip: string -> string)
    ensures AllForward(AllCalls(es, strip))
    decreases |es|
  {
    if es != [] {
      AllCallsForward(es[..|es| - 1], strip);
      RenderForward(es[|es| - 1], strip);
    }
  }

  lemma RenderForward(e: Element, strip: string -> string)
    ensures AllForward(RenderCalls(e, strip))
  {
    FontSizeRange("normal");
    FontSizeRange("code");
    match e
    case Header(level, _, _) =>
      if 1 <= level <= 6 {
        FontSizeRange(HeaderKind(level));
      }
    case List(ordered, items, _) =>
      ItemCallsForward(ordered, items, strip);
    case _ =>
  }

  lemma {:induction false} ItemCallsForward(ordered: bool, items: seq<string>, strip: string -> string)
    ensures AllForward(ItemCalls(ordered, items, strip))
    decreases |items|
  {
    if items != [] {
      ItemCallsForward(ordered, items[..|items| - 1], strip);
    }
  }

  /** Every operator of a converted document lies between Bottom and Top of its page. */
  lemma ConvertedWithinMargins(es: seq<Element>, strip: string -> string)
    ensures Within(Ops(Completed(Apply(Canvas([], 0.0), AllCalls(es, strip))).pages))
  {
    var c := Apply(Canvas([], 0.0), AllCalls(es, strip));
    AllCallsForward(es, strip);
    ApplyWithin(Canvas([], 0.0), AllCalls(es, strip));
    OpsNewPage(c.pages);
  }

  /** The texts a converted document draws are the lines of its elements' text calls. */
  lemma ConvertedTexts(es: seq<Element>, strip: string -> string)
    ensures Drawn(Ops(Completed(Apply(Canvas([], 0.0), AllCalls(es, strip))).pages))
         == TextsOf(AllCalls(es, strip))
  {
    var c := Apply(Canvas([], 0.0), AllCalls(es, strip));
    ApplyDraws(Canvas([], 0.0), AllCalls(es, strip));
    OpsNewPage(c.pages);
  }

  lemma OpsNewPage(pages: seq<seq<Op>>)
    ensures Ops(pages + [[]]) == Ops(pages)
  {
    assert (pages + [[]])[..|pages|] == pages;
  }

  // ---------------------------------------------------------------------------------------------
  // What each element draws

  lemma {:induction false} TextsOfAppend(a: seq<Call>, b: seq<Call>)
    ensures TextsOf(a + b) == TextsOf(a) + TextsOf(b)
    decreases |b|
  {
    if b == [] {
      assert a + b == a;
    } else {
      TextsOfAppend(a, b[..|b| - 1]);
      assert (a + b)[..|a + b| - 1] == a + b[..|b| - 1];
    }
  }

  lemma {:induction false} TextsOfLines(lines: seq<string>, size: real)
    ensures TextsOf(TextCalls(lines, size)) == lines
    decreases |lines|
  {
    if lines != [] {
      var init := lines[..|lines| - 1];
      TextsOfLines(init, size);
      assert TextCalls(lines, size)[..|lines| - 1] == TextCalls(init, size);
    }
  }

  /** The words of a wrapped text are the text's words. */
  lemma WrapWords(text: string, size: real)
    requires size > 0.0
    ensures WordsOf(TextsOf(WrapCalls(text, size))) == Fields(text)
  {
    TextsOfLines(WrapLines(Fields(text), Capacity(size)), size);
    WrapKeepsWords(Fields(text), Capacity(size));
  }

  /** A paragraph draws exactly its stripped content's words, wrapped. */
  lemma ParagraphWords(content: string, children: seq<Run>, strip: string -> string)
    ensures WordsOf(TextsOf(RenderCalls(Paragraph(content, children), strip)))
         == Fields(strip(content))
  {
    FontSizeRange("normal");
    var wrapped := WrapCalls(strip(content), GetFontSize("normal"));
    TextsOfAppend(wrapped, [SpaceCall(8.0)]);
    WrapWords(strip(content), GetFontSize("normal"));
    assert TextsOf(wrapped) + [] == TextsOf(wrapped);
  }

  /** A block quote draws the marker "|" and then its stripped content's words. */
  lemma QuoteWords(content: string, children: seq<Run>, strip: string -> string)
    ensures WordsOf(TextsOf(RenderCalls(Quote(content, children), strip)))
         == ["|"] + Fields(strip(content))
  {
    var text := Marked("|", strip(content));
    assert WordsOf(TextsOf(RenderCalls(Quote(content, children), strip))) == Fields(text) by {
      FontSizeRange("normal");
      SpacedTexts(5.0, WrapCalls(text, GetFontSize("normal")), 5.0);
      WrapWords(text, GetFontSize("normal"));
    }
    MarkedFields("|", strip(content));
  }

  /** The lines of item i of a list draw the item's marker, "-" or "N." with N = i + 1, then the
      stripped item's words. */
  lemma ItemWords(ordered: bool, i: nat, item: string)
    ensures WordsOf(TextsOf(WrapCalls(ItemText(ordered, i, item), GetFontSize("normal"))))
         == [Marker(ordered, i)] + Fields(item)
  {
    FontSizeRange("normal");
    WrapWords(ItemText(ordered, i, item), GetFontSize("normal"));
    MarkerIsWord(ordered, i);
    MarkedFields(Marker(ordered, i), item);
  }

  lemma MarkerIsWord(ordered: bool, i: nat)
    ensures IsWord(Marker(ordered, i))
  {
    var d := Dec(i + 1);
    if ordered {
      forall k | 0 <= k < |d + "."|
        ensures !IsSpace((d + ".")[k])
      {
        if k < |d| { assert IsDigit(d[k]); }
      }
    }
  }

  /** The words of a marked line are the marker and then the text's words. */
  lemma MarkedFields(marker: string, s: string)
    requires IsWord(marker)
    ensures Fields(Marked(marker, s)) == [marker] + Fields(s)
  {
    var indent := "  ";
    assert AllSpace(indent);
    assert Marked(marker, s) == indent + (marker + " " + s);
    FieldsAfterSpace(indent, marker + " " + s);
    FieldsAfterWord(marker, " ", s);
  }

  /** The spacing calls around some calls draw no text. */
  lemma SpacedTexts(before: real, calls: seq<Call>, after: real)
    ensures TextsOf([SpaceCall(before)] + calls + [SpaceCall(after)]) == TextsOf(calls)
  {
    TextsOfAppend([SpaceCall(before)], calls);
    TextsOfAppend([SpaceCall(before)] + calls, [SpaceCall(after)]);
    assert [SpaceCall(before)][..0] == [];
    assert TextsOf([SpaceCall(before)]) == [];
    assert TextsOf(calls) + [] == TextsOf(calls);
  }

  /** A code block draws its content's lines, unwrapped, and they give back the content when
      joined with newlines. */
  lemma CodeLines(content: string, language: string, strip: string -> string)
    ensures TextsOf(RenderCalls(CodeBlock(content, language), strip)) == Split(content, '\n')
    ensures Join(TextsOf(RenderCalls(CodeBlock(content, language), strip)), "\n") == content
  {
    var lines := Split(content, '\n');
    SpacedTexts(5.0, TextCalls(lines, GetFontSize("code")), 5.0);
    TextsOfLines(lines, GetFontSize("code"));
    SplitPieces(content, '\n');
  }

  /** A header of level 1 to 6 draws its content once, at its level's font size; any other level
      draws nothing. */
  lemma HeaderDrawnOnce(level: nat, content: string, children: seq<Run>, strip: string -> string)
    ensures var calls := RenderCalls(Header(level, content, children), strip);
            if 1 <= level <= 6
            then TextsOf(calls) == [content]
                 && forall k :: 0 <= k < |calls| && calls[k].TextCall? ==>
                      calls[k].size == GetFontSize(HeaderKind(level))
            else calls == []
  {
    if 1 <= level <= 6 {
      var text := TextCall(content, GetFontSize(HeaderKind(level)));
      SpacedTexts(SpaceBefore(level), [text], SpaceAfter(level));
      assert [SpaceCall(SpaceBefore(level))] + [text] + [SpaceCall(SpaceAfter(level))]
          == RenderCalls(Header(level, content, children), strip);
      assert [text][..0] == [];
    }
  }

  /** Only a thematic break strokes a line, and it spans the text area. */
  lemma OnlyRulesStroke(e: Element, strip: string -> string)
    ensures var calls := RenderCalls(e, strip);
            (e.Rule? <==> exists k :: 0 <= k < |calls| && calls[k].LineCall?)
            && forall k :: 0 <= k < |calls| && calls[k].LineCall? ==> calls[k].width == MaxWidth
  {
    var calls := RenderCalls(e, strip);
    if e.Rule? {
      assert calls[1].LineCall?;
    } else {
      RenderNoLines(e, strip);
    }
  }

  lemma RenderNoLines(e: Element, strip: string -> string)
    requires !e.Rule?
    ensures forall k :: 0 <= k < |RenderCalls(e, strip)| ==> !RenderCalls(e, strip)[k].LineCall?
  {
    if e.List? {
      ItemCallsNoLines(e.ordered, e.items, strip);
    }
  }

  lemma {:induction false} ItemCallsNoLines(ordered: bool, items: seq<string>, strip: string -> string)
    ensures forall k :: 0 <= k < |ItemCalls(ordered, items, strip)| ==>
              !ItemCalls(ordered, items, strip)[k].LineCall?
    decreases |items|
  {
    if items != [] {
      ItemCallsNoLines(ordered, items[..|items| - 1], strip);
    }
  }

  /** Tables, task lists and headers of other levels have no case in renderElement: exactly they
      leave the page untouched. */
  lemma SilentElements(e: Element, strip: string -> string, c: Canvas)
    ensures RenderCalls(e, strip) == [] <==>
            e.Table? || e.TaskList? || (e.Header? && !(1 <= e.level <= 6))
    ensures e.Table? || e.TaskList? ==> Apply(c, RenderCalls(e, strip)) == c
  {
  }
}
