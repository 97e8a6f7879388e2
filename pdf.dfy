/** The PDF page writer: string escaping for literal strings, the font-size table, the page and
    cursor state that the writing operations update, and Build, which serialises the pages into
    the file laid out by PdfFile. */
module Pdf {
  import opened Strings
  import opened PdfFile

  // ---------------------------------------------------------------------------------------------
  // Escaping for PDF literal strings (section 7.3.4.2 of ISO 32000-1)

  /** What escapeString writes for one rune. */
  function EscapeRune(r: char): (e: string)
    ensures forall i :: 0 <= i < |e| ==> Printable(e[i])
    ensures Printable(r) && r != '(' && r != ')' && r != '\\' ==> e == [r]
  {
    if r == '(' || r == ')' || r == '\\' then ['\\', r]
    else if r == '\n' || r == '\r' then []
    else if r == '\t' then "    "
    else if (r as int) < 32 || (r as int) > 126 then " "
    else [r]
  }

  predicate Printable(c: char) {
    32 <= c as int <= 126
  }

  /** The text put between the parentheses of a `Tj` operand. */
  function EscapeString(s: string): (r: string)
    ensures forall i :: 0 <= i < |r| ==> Printable(r[i])
  {
    if s == [] then [] else EscapeString(s[..|s| - 1]) + EscapeRune(s[|s| - 1])
  }

  /** What a reader should see of one rune: line breaks vanish, a tab is four spaces, and any
      rune outside printable ASCII is one space. */
  function VisibleRune(r: char): string {
    if r == '\n' || r == '\r' then []
    else if r == '\t' then "    "
    else if Printable(r) then [r]
    else " "
  }

  function Visible(s: string): string {
    if s == [] then [] else Visible(s[..|s| - 1]) + VisibleRune(s[|s| - 1])
  }

  /** A reader of the body of a literal string: a backslash before `(`, `)` or `\` stands for that
      character; any other backslash, and any unescaped parenthesis, is refused (an unescaped
      parenthesis would change where the string ends). */
  function Unescape(t: string): Option<string>
    decreases |t|
  {
    if t == [] then Some([])
    else if t[0] == '\\' then
      if |t| >= 2 && (t[1] == '(' || t[1] == ')' || t[1] == '\\') then
        match Unescape(t[2..])
        case None => None
        case Some(rest) => Some([t[1]] + rest)
      else None
    else if t[0] == '(' || t[0] == ')' then None
    else
      match Unescape(t[1..])
      case None => None
      case Some(rest) => Some([t[0]] + rest)
  }

  // ---------------------------------------------------------------------------------------------
  // Font sizes

  const FontSizes: map<string, real> := map["h1" := 24.0, "h2" := 20.0, "h3" := 16.0,
    "h4" := 14.0, "h5" := 12.0, "h6" := 11.0, "normal" := 10.0, "code" := 9.0]

  /** The size for a kind of text; kinds not in the table get the normal size. */
  function GetFontSize(textType: string): real {
    if textType in FontSizes then FontSizes[textType] else FontSizes["normal"]
  }

  // ---------------------------------------------------------------------------------------------
  // Pages as sequences of drawing operators

  /** A drawing operator in a page's content stream: a BT..ET text block, or a stroked
      horizontal line. */
  datatype Op =
    | ShowText(font: string, size: real, x: real, y: real, text: string)
    | StrokeLine(x1: real, x2: real, y: real)

  /** The operator text of op; num renders a number as `%.2f` does. */
  function Render(num: real -> string, op: Op): string {
    match op
    case ShowText(font, size, x, y, text) =>
      "BT\n" + "/" + font + " " + num(size) + " Tf\n" + num(x) + " " + num(y) + " Td\n"
      + "(" + EscapeString(text) + ") Tj\n" + "ET\n"
    case StrokeLine(x1, x2, y) =>
      num(x1) + " " + num(y) + " m\n" + num(x2) + " " + num(y) + " l\n" + "S\n"
  }

  /** The content of a page: its operators one after the other. */
  function PageText(num: real -> string, ops: seq<Op>): string {
    Joined((op: Op) => Render(num, op), ops)
  }

  function PageTexts(num: real -> string, pages: seq<seq<Op>>): (r: seq<string>)
    ensures |r| == |pages|
  {
    seq(|pages|, i requires 0 <= i < |pages| => PageText(num, pages[i]))
  }

  /** The writer's drawing state: the operators of each page so far, and the vertical cursor. */
  datatype Canvas = Canvas(pages: seq<seq<Op>>, y: real)

  /** Where newPage puts the cursor, and below which the next write starts a new page. */
  const Top: real := PageHeight - Margin
  const Bottom: real := Margin + 20.0

  function NewPageOn(c: Canvas): Canvas {
    Canvas(c.pages + [[]], Top)
  }

  /** The page break every writing operation does first: a first page if there is none, a new
      page if the cursor is below Bottom. */
  function Ready(c: Canvas): (r: Canvas)
    ensures r.pages != [] && r.y >= Bottom
  {
    var c1 := if c.pages == [] then NewPageOn(c) else c;
    if c1.y < Bottom then NewPageOn(c1) else c1
  }

  /** op appended to the last page. */
  function Draw(c: Canvas, op: Op): Canvas
    requires c.pages != []
  {
    var last := |c.pages| - 1;
    c.(pages := c.pages[last := c.pages[last] + [op]])
  }

  function TextOn(c: Canvas, text: string, fontSize: real, fontName: string): Canvas {
    var r := Ready(c);
    Draw(r, ShowText(fontName, fontSize, Margin, r.y, text)).(y := r.y - fontSize * 1.5)
  }

  function InlineOn(c: Canvas, text: string, fontSize: real, fontName: string, xOffset: real)
    : Canvas
  {
    var r := Ready(c);
    Draw(r, ShowText(fontName, fontSize, Margin + xOffset, r.y, text))
  }

  function LineOn(c: Canvas, width: real): Canvas {
    var r := Ready(c);
    Draw(r, StrokeLine(Margin, Margin + width, r.y)).(y := r.y - 10.0)
  }

  function SpaceOn(c: Canvas, points: real): Canvas {
    var d := c.(y := c.y - points);
    if d.y < Bottom then NewPageOn(d) else d
  }

  /** All operators of all pages, in order. */
  function Ops(pages: seq<seq<Op>>): seq<Op> {
    if pages == [] then [] else Ops(pages[..|pages| - 1]) + pages[|pages| - 1]
  }

  /** Every operator is drawn between Bottom and Top. */
  predicate Within(ops: seq<Op>) {
    forall k :: 0 <= k < |ops| ==> Bottom <= ops[k].y <= Top
  }

  /** Whether an operation on c starts a new page before it draws. */
  predicate Breaks(c: Canvas) {
    c.pages == [] || c.y < Bottom
  }

  // ---------------------------------------------------------------------------------------------
  // Properties of escaping, font sizes and the canvas operations

  /** An escaped text reads back as the visible form of the original: every parenthesis and
      backslash survives, and no unescaped parenthesis can end the literal early. */
  lemma {:induction false} EscapeReadsBack(s: string)
    ensures Unescape(EscapeString(s)) == Some(Visible(s))
    decreases |s|
  {
    if s != [] {
      var init, r := s[..|s| - 1], s[|s| - 1];
      EscapeReadsBack(init);
      RuneReadsBack(r);
      UnescapeAppend(EscapeString(init), EscapeRune(r));
    }
  }

  lemma RuneReadsBack(r: char)
    ensures Unescape(EscapeRune(r)) == Some(VisibleRune(r))
  {
    var t := EscapeRune(r);
    assert Unescape([]) == Some([]);
    if r == '(' || r == ')' || r == '\\' {
      UnescapeEscaped(r, []);
      assert t == ['\\', r] + [] && [r] + [] == [r] && VisibleRune(r) == [r];
    } else if r == '\n' || r == '\r' {
    } else if r == '\t' {
      UnescapePlain(' ', []);
      UnescapePlain(' ', " ");
      UnescapePlain(' ', "  ");
      UnescapePlain(' ', "   ");
      assert t == [' '] + "   " && "   " == [' '] + "  " && "  " == [' '] + " " && " " == [' '] + [];
    } else {
      var c := if Printable(r) then r else ' ';
      UnescapePlain(c, []);
      assert t == [c] + [];
    }
  }

  /** One step of Unescape over a character that needs no escape. */
  lemma UnescapePlain(c: char, t: string)
    requires c != '\\' && c != '(' && c != ')' && Unescape(t).Some?
    ensures Unescape([c] + t) == Some([c] + Unescape(t).value)
  {
    assert ([c] + t)[1..] == t;
  }

  /** One step of Unescape over an escaped parenthesis or backslash. */
  lemma UnescapeEscaped(c: char, t: string)
    requires (c == '(' || c == ')' || c == '\\') && Unescape(t).Some?
    ensures Unescape(['\\', c] + t) == Some([c] + Unescape(t).value)
  {
    assert (['\\', c] + t)[2..] == t;
  }

  /** Reading two literals one after the other is reading their concatenation. */
  lemma {:induction false} UnescapeAppend(a: string, b: string)
    requires Unescape(a).Some? && Unescape(b).Some?
    ensures Unescape(a + b) == Some(Unescape(a).value + Unescape(b).value)
    decreases |a|
  {
    var y := Unescape(b).value;
    if a == [] {
      assert a + b == b && Unescape(a).value + y == y;
    } else {
      var esc := a[0] == '\\';
      var c := if esc then a[1] else a[0];
      var head := if esc then ['\\', c] else [c];
      var rest := a[|head|..];
      assert a == head + rest;
      assert Unescape(rest).Some?;
      var x := Unescape(rest).value;
      calc {
        Unescape(a + b);
        { assert a + b == head + (rest + b); }
        Unescape(head + (rest + b));
        { UnescapeAppend(rest, b);
          if esc { UnescapeEscaped(c, rest + b); } else { UnescapePlain(c, rest + b); } }
        Some([c] + (x + y));
        { assert [c] + (x + y) == [c] + x + y; }
        Some([c] + x + y);
        { if esc { UnescapeEscaped(c, rest); } else { UnescapePlain(c, rest); } }
        Some(Unescape(a).value + y);
      }
    }
  }

  /** Every size lies between the code size and the h1 size, and an unknown kind gets 10. */
  lemma FontSizeRange(textType: string)
    ensures 9.0 <= GetFontSize(textType) <= 24.0
    ensures textType !in FontSizes ==> GetFontSize(textType) == 10.0
  {
    if textType in FontSizes {
      assert textType in {"h1", "h2", "h3", "h4", "h5", "h6", "normal", "code"};
    }
  }

  /** Headers shrink with their level, and body text and code are smaller still. */
  lemma HeaderSizesDecrease()
    ensures GetFontSize("h1") > GetFontSize("h2") > GetFontSize("h3") > GetFontSize("h4")
            > GetFontSize("h5") > GetFontSize("h6") > GetFontSize("normal") > GetFontSize("code")
  {
  }

  /** Appending an operator to the last page appends it to the whole operator sequence. */
  lemma DrawAppends(c: Canvas, op: Op)
    requires c.pages != []
    ensures Ops(Draw(c, op).pages) == Ops(c.pages) + [op]
    ensures |Draw(c, op).pages| == |c.pages|
  {
    var p, q := c.pages, Draw(c, op).pages;
    assert q[..|q| - 1] == p[..|p| - 1];
  }

  lemma ReadyKeepsOps(c: Canvas)
    ensures Ops(Ready(c).pages) == Ops(c.pages)
    ensures Ready(c).y == if Breaks(c) then Top else c.y
    ensures |Ready(c).pages| == |c.pages| + if Breaks(c) then 1 else 0
    ensures Ready(c).pages[..|c.pages|] == c.pages
  {
    var p := c.pages;
    assert (p + [[]])[..|p|] == p;
    if Breaks(c) {
      assert Ops(p + [[]]) == Ops(p) + [];
    }
  }

  /** writeTextWithFont draws its text at the cursor, after a page break if the cursor was below
      Bottom or there was no page, and moves the cursor down by one and a half font sizes. */
  lemma TextOnDraws(c: Canvas, text: string, fontSize: real, fontName: string)
    ensures var y0 := if Breaks(c) then Top else c.y;
            var r := TextOn(c, text, fontSize, fontName);
            Ops(r.pages) == Ops(c.pages) + [ShowText(fontName, fontSize, Margin, y0, text)]
            && |r.pages| == |c.pages| + (if Breaks(c) then 1 else 0)
            && (forall i :: 0 <= i < |c.pages| - 1 ==> r.pages[i] == c.pages[i])
            && r.y == y0 - fontSize * 1.5
  {
    var r := Ready(c);
    ReadyKeepsOps(c);
    DrawAppends(r, ShowText(fontName, fontSize, Margin, r.y, text));
    DrawKeepsEarlier(c, r, ShowText(fontName, fontSize, Margin, r.y, text));
  }

  /** writeInlineText draws at Margin + xOffset on the cursor's line and leaves the cursor. */
  lemma InlineOnDraws(c: Canvas, text: string, fontSize: real, fontName: string, xOffset: real)
    ensures var y0 := if Breaks(c) then Top else c.y;
            var r := InlineOn(c, text, fontSize, fontName, xOffset);
            Ops(r.pages) == Ops(c.pages) + [ShowText(fontName, fontSize, Margin + xOffset, y0, text)]
            && |r.pages| == |c.pages| + (if Breaks(c) then 1 else 0)
            && (forall i :: 0 <= i < |c.pages| - 1 ==> r.pages[i] == c.pages[i])
            && r.y == y0
  {
    var r := Ready(c);
    ReadyKeepsOps(c);
    DrawAppends(r, ShowText(fontName, fontSize, Margin + xOffset, r.y, text));
    DrawKeepsEarlier(c, r, ShowText(fontName, fontSize, Margin + xOffset, r.y, text));
  }

  /** writeLine strokes from Margin to Margin + width at the cursor and moves it down by 10. */
  lemma LineOnDraws(c: Canvas, width: real)
    ensures var y0 := if Breaks(c) then Top else c.y;
            var r := LineOn(c, width);
            Ops(r.pages) == Ops(c.pages) + [StrokeLine(Margin, Margin + width, y0)]
            && |r.pages| == |c.pages| + (if Breaks(c) then 1 else 0)
            && (forall i :: 0 <= i < |c.pages| - 1 ==> r.pages[i] == c.pages[i])
            && r.y == y0 - 10.0
  {
    var r := Ready(c);
    ReadyKeepsOps(c);
    DrawAppends(r, StrokeLine(Margin, Margin + width, r.y));
    DrawKeepsEarlier(c, r, StrokeLine(Margin, Margin + width, r.y));
  }

  /** addSpace draws nothing; it moves the cursor down, to the top of a new page when it would
      pass Bottom, so afterwards the cursor is never below Bottom. */
  lemma SpaceOnMoves(c: Canvas, points: real)
    ensures var r := SpaceOn(c, points);
            Ops(r.pages) == Ops(c.pages)
            && r.pages[..|c.pages|] == c.pages
            && (if c.y - points < Bottom then |r.pages| == |c.pages| + 1 && r.y == Top
                else r.pages == c.pages && r.y == c.y - points)
            && r.y >= Bottom
  {
    var p := c.pages;
    assert (p + [[]])[..|p|] == p;
    assert Ops(p + [[]]) == Ops(p) + [];
  }

  /** The pages before c's last page are untouched by a write. */
  lemma DrawKeepsEarlier(c: Canvas, r: Canvas, op: Op)
    requires r == Ready(c)
    ensures forall i :: 0 <= i < |c.pages| - 1 ==> Draw(r, op).pages[i] == c.pages[i]
  {
    ReadyKeepsOps(c);
  }

  // ---------------------------------------------------------------------------------------------
  // The writer

  class PdfWriter {
    var pageContents: seq<seq<Op>>
    var currentPage: int
    var yPosition: real

    /** currentPage indexes the last page; no page yet is currentPage -1. */
    predicate Valid()
      reads this
    {
      currentPage == |pageContents| - 1
    }

    function State(): Canvas
      reads this
    {
      Canvas(pageContents, yPosition)
    }

    constructor()
      ensures Valid() && State() == Canvas([], 0.0)
    {
      pageContents := [];
      currentPage := -1;
      yPosition := 0.0;
    }

    method NewPage()
      requires Valid()
      modifies this
      ensures Valid() && State() == NewPageOn(old(State()))
    {
      currentPage := currentPage + 1;
      yPosition := PageHeight - Margin;
      pageContents := pageContents + [[]];
    }

    /** The page-break checks at the start of every writing operation. */
    method BreakIfNeeded()
      requires Valid()
      modifies this
      ensures Valid() && State() == Ready(old(State()))
    {
      if pageContents == [] {
        NewPage();
      }
      if yPosition < Margin + 20.0 {
        NewPage();
      }
    }

    method WriteTextWithFont(text: string, fontSize: real, fontName: string)
      requires Valid()
      modifies this
      ensures Valid() && State() == TextOn(old(State()), text, fontSize, fontName)
    {
      BreakIfNeeded();
      var last := |pageContents| - 1;
      pageContents := pageContents[last := pageContents[last] + [ShowText(fontName, fontSize, Margin, yPosition, text)]];
      yPosition := yPosition - fontSize * 1.5;
    }

    /** writeText: always font F1; isBold is not used. */
    method WriteText(text: string, fontSize: real, isBold: bool)
      requires Valid()
      modifies this
      ensures Valid() && State() == TextOn(old(State()), text, fontSize, "F1")
    {
      WriteTextWithFont(text, fontSize, "F1");
    }

    method WriteInlineText(text: string, fontSize: real, fontName: string, xOffset: real)
      requires Valid()
      modifies this
      ensures Valid() && State() == InlineOn(old(State()), text, fontSize, fontName, xOffset)
    {
      BreakIfNeeded();
      var last := |pageContents| - 1;
      pageContents := pageContents[last := pageContents[last]
                                            + [ShowText(fontName, fontSize, Margin + xOffset, yPosition, text)]];
    }

    method WriteLine(width: real)
      requires Valid()
      modifies this
      ensures Valid() && State() == LineOn(old(State()), width)
    {
      BreakIfNeeded();
      var last := |pageContents| - 1;
      pageContents := pageContents[last := pageContents[last] + [StrokeLine(Margin, Margin + width, yPosition)]];
      yPosition := yPosition - 10.0;
    }

    method AddSpace(points: real)
      requires Valid()
      modifies this
      ensures Valid() && State() == SpaceOn(old(State()), points)
    {
      yPosition := yPosition - points;
      if yPosition < Margin + 20.0 {
        NewPage();
      }
    }

    /** Build: with no page yet, one empty page first; then the whole file. */
    method Build(num: real -> string, compress: seq<byte> -> seq<byte>) returns (output: seq<byte>)
      requires Valid()
      modifies this
      ensures Valid()
      ensures State() == if old(pageContents) == [] then NewPageOn(old(State())) else old(State())
      ensures output == Document(num, compress, PageTexts(num, pageContents))
    {
      if |pageContents| == 0 {
        NewPage();
      }
      var texts := PageTexts(num, pageContents);
      output := WriteFile(texts, num, compress);
    }
  }

  // ---------------------------------------------------------------------------------------------
  // The steps of Build

  /** The bytes Build writes for page contents texts. */
  method WriteFile(texts: seq<string>, num: real -> string, compress: seq<byte> -> seq<byte>)
    returns (output: seq<byte>)
    ensures output == Document(num, compress, texts)
  {
    ghost var rests := Rests(num, compress, texts);
    DocumentShaped(num, compress, texts);
    var xref;
    output, xref := WriteObjects(texts, num, compress, Framed(rests));
    ghost var body := output;
    output := WriteXref(output, xref);
    WroteAll(body, xref, rests);
  }

  /** The header and objects 1 to 6 + 2n, each after recording its offset. */
  method WriteObjects(texts: seq<string>, num: real -> string, compress: seq<byte> -> seq<byte>,
                      ghost objs: seq<seq<byte>>)
    returns (output: seq<byte>, xref: seq<nat>)
    requires Shaped(objs, num, compress, texts)
    ensures Wrote(output, xref, objs, |objs|)
  {
    var n := |texts|;
    output := Encode(Header);
    xref := [0];
    assert objs[..0] == [];
    output, xref := WriteCatalog(output, xref, objs, n);
    output, xref := WritePageTree(output, xref, objs, n);
    output, xref := WriteFonts(output, xref, objs);
    output, xref := WritePageObjects(output, xref, objs, num, n);
    output, xref := WriteContentStreams(output, xref, objs, compress, texts);
  }

  /** The four font objects, in the order of FontNames. */
  method WriteFonts(output: seq<byte>, xref: seq<nat>, ghost objs: seq<seq<byte>>)
    returns (output': seq<byte>, xref': seq<nat>)
    requires FontsShaped(objs) && FontNum + 3 <= |objs| && Wrote(output, xref, objs, FontNum - 1)
    ensures Wrote(output', xref', objs, FontNum + 3)
  {
    output', xref' := output, xref;
    var j := 0;
    while j < 4
      invariant j <= 4 && Wrote(output', xref', objs, FontNum - 1 + j)
    {
      output', xref' := WriteFont(output', xref', objs, j);
      j := j + 1;
    }
  }

  /** One page object per page, in page order. */
  method WritePageObjects(output: seq<byte>, xref: seq<nat>, ghost objs: seq<seq<byte>>,
                          num: real -> string, n: nat)
    returns (output': seq<byte>, xref': seq<nat>)
    requires PagesShaped(objs, num, n) && PageNum - 1 + n <= |objs|
    requires Wrote(output, xref, objs, PageNum - 1)
    ensures Wrote(output', xref', objs, PageNum - 1 + n)
  {
    output', xref' := output, xref;
    var i := 0;
    while i < n
      invariant i <= n && Wrote(output', xref', objs, PageNum - 1 + i)
    {
      output', xref' := WritePageObject(output', xref', objs, num, n, i);
      i := i + 1;
    }
  }

  /** One compressed content stream per page, in page order, after the page objects. */
  method WriteContentStreams(output: seq<byte>, xref: seq<nat>, ghost objs: seq<seq<byte>>,
                             compress: seq<byte> -> seq<byte>, texts: seq<string>)
    returns (output': seq<byte>, xref': seq<nat>)
    requires StreamsShaped(objs, compress, texts) && |objs| == PageNum - 1 + 2 * |texts|
    requires Wrote(output, xref, objs, PageNum - 1 + |texts|)
    ensures Wrote(output', xref', objs, |objs|)
  {
    output', xref' := output, xref;
    var i := 0;
    while i < |texts|
      invariant i <= |texts| && Wrote(output', xref', objs, PageNum - 1 + |texts| + i)
    {
      output', xref' := WriteContentStream(output', xref', objs, compress, texts, i);
      i := i + 1;
    }
  }

  method WriteCatalog(output: seq<byte>, xref: seq<nat>, ghost objs: seq<seq<byte>>, ghost n: nat)
    returns (output': seq<byte>, xref': seq<nat>)
    requires HeadShaped(objs, n) && Wrote(output, xref, objs, 0)
    ensures Wrote(output', xref', objs, 1)
  {
    xref' := xref + [|output|];
    output' := output + (Encode(ObjStart(CatalogNum)) + Encode(CatalogRest()));
    WroteNext(output, xref, objs, 0);
  }

  method WritePageTree(output: seq<byte>, xref: seq<nat>, ghost objs: seq<seq<byte>>, n: nat)
    returns (output': seq<byte>, xref': seq<nat>)
    requires HeadShaped(objs, n) && Wrote(output, xref, objs, 1)
    ensures Wrote(output', xref', objs, 2)
  {
    xref' := xref + [|output|];
    output' := output + Encode(ObjStart(PagesNum));
    output' := output' + Encode(PagesOpen);
    output' := WriteKids(output', n);
    output' := output' + Encode(PagesClose(n));
    PagesRestBytes(n);
    Assoc5(output, Encode(ObjStart(PagesNum)), Encode(PagesOpen), Encode(Kids(PageNum, n)),
           Encode(PagesClose(n)));
    WroteNext(output, xref, objs, 1);
  }

  /** The references to the n page objects, in page order. */
  method WriteKids(output: seq<byte>, n: nat) returns (output': seq<byte>)
    ensures output' == output + Encode(Kids(PageNum, n))
  {
    output' := output;
    var i := 0;
    while i < n
      invariant i <= n && output' == output + Encode(Kids(PageNum, i))
    {
      EncodeAppend(Kids(PageNum, i), Ref(PageNum + i));
      AppendAssoc(output, Encode(Kids(PageNum, i)), Encode(Ref(PageNum + i)));
      output' := output' + Encode(Ref(PageNum + i));
      i := i + 1;
    }
  }

  method WriteFont(output: seq<byte>, xref: seq<nat>, ghost objs: seq<seq<byte>>, j: nat)
    returns (output': seq<byte>, xref': seq<nat>)
    requires j < 4 && FontNum + j <= |objs|
    requires FontsShaped(objs) && Wrote(output, xref, objs, FontNum - 1 + j)
    ensures Wrote(output', xref', objs, FontNum + j)
  {
    xref' := xref + [|output|];
    output' := output + (Encode(ObjStart(FontNum + j)) + Encode(FontRest(j)));
    WroteNext(output, xref, objs, FontNum - 1 + j);
  }

  method WritePageObject(output: seq<byte>, xref: seq<nat>, ghost objs: seq<seq<byte>>,
                         num: real -> string, n: nat, i: nat)
    returns (output': seq<byte>, xref': seq<nat>)
    requires i < n && PageNum + i <= |objs|
    requires PagesShaped(objs, num, n) && Wrote(output, xref, objs, PageNum - 1 + i)
    ensures Wrote(output', xref', objs, PageNum + i)
  {
    xref' := xref + [|output|];
    output' := output + (Encode(ObjStart(PageNum + i)) + Encode(PageRest(num, n, i)));
    WroteNext(output, xref, objs, PageNum - 1 + i);
  }

  method WriteContentStream(output: seq<byte>, xref: seq<nat>, ghost objs: seq<seq<byte>>,
                            compress: seq<byte> -> seq<byte>, texts: seq<string>, i: nat)
    returns (output': seq<byte>, xref': seq<nat>)
    requires i < |texts| && PageNum + |texts| + i <= |objs|
    requires StreamsShaped(objs, compress, texts)
    requires Wrote(output, xref, objs, PageNum - 1 + |texts| + i)
    ensures Wrote(output', xref', objs, PageNum + |texts| + i)
  {
    var k := PageNum + |texts| + i;
    var data := compress(Encode(texts[i]));
    xref' := xref + [|output|];
    output' := output + (Encode(ObjStart(k)) + (Encode(StreamOpen(|data|)) + data + Encode(StreamClose)));
    WroteNext(output, xref, objs, k - 1);
  }

  /** The cross-reference table and the trailer, after all objects. */
  method WriteXref(output: seq<byte>, xref: seq<nat>) returns (output': seq<byte>)
    requires |xref| >= 1
    ensures output' == output + Encode("xref\n") + Encode(XrefOpen(|xref|))
      + Encode(Entries(xref[1..])) + Encode(Trailer(|xref|, |output|))
  {
    var xrefPos := |output|;
    output' := output + Encode("xref\n");
    output' := output' + Encode(XrefOpen(|xref|));
    output' := WriteEntries(output', xref);
    output' := output' + Encode(Trailer(|xref|, xrefPos));
  }

  /** One 20-byte entry of the cross-reference table per object, in object order. */
  method WriteEntries(output: seq<byte>, xref: seq<nat>) returns (output': seq<byte>)
    requires |xref| >= 1
    ensures output' == output + Encode(Entries(xref[1..]))
  {
    output' := output;
    var offsets := xref[1..];
    for i := 0 to |offsets|
      invariant output' == output + Encode(Entries(offsets[..i]))
    {
      EntriesStep(output, offsets, i);
      output' := output' + Encode(Entry(offsets[i]));
    }
    assert offsets[..|offsets|] == offsets;
  }

  lemma EntriesStep(output: seq<byte>, offsets: seq<nat>, i: nat)
    requires i < |offsets|
    ensures output + Encode(Entries(offsets[..i])) + Encode(Entry(offsets[i]))
         == output + Encode(Entries(offsets[..i + 1]))
  {
    EntriesNext(offsets, i);
    EncodeAppend(Entries(offsets[..i]), Entry(offsets[i]));
    AppendAssoc(output, Encode(Entries(offsets[..i])), Encode(Entry(offsets[i])));
  }
}
