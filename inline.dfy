/** The inline scanner of markdown.go (parseInline): splits a block's text into plain, bold,
    italic, strikethrough, code, link and image runs. */
module Inline {
  import opened Strings

  datatype Run =
    | Text(content: string)
    | Bold(content: string)
    | Italic(content: string)
    | Strikethrough(content: string)
    | Code(content: string)
    | Link(content: string, url: string)
    | Image(alt: string, url: string)

  /** A markup run recognised at some position, and the position just after it. */
  datatype Markup = Markup(run: Run, next: nat)

  /** The doubled delimiter `cc` starts at i. */
  predicate PairAt(text: string, i: nat, c: char) {
    i + 1 < |text| && text[i] == c && text[i + 1] == c
  }

  predicate ImageOpensAt(text: string, i: nat)
    requires i < |text|
  {
    text[i] == '!' && i + 1 < |text| && text[i + 1] == '['
  }

  /** The positions where the loop flushes the pending text before trying a markup branch. */
  predicate Opens(text: string, i: nat)
    requires i < |text|
  {
    PairAt(text, i, '*') || PairAt(text, i, '_') || text[i] == '*' || text[i] == '_'
    || PairAt(text, i, '~') || text[i] == '`' || text[i] == '[' || ImageOpensAt(text, i)
  }

  /** A delimiter written twice. */
  function Doubled(c: char): string {
    [c, c]
  }

  /** The opening pair of a bold span. */
  predicate BoldOpens(text: string, i: nat) {
    PairAt(text, i, '*') || PairAt(text, i, '_')
  }

  /** `**text**` or `__text__`, closed by the first later occurrence of the same pair. */
  function BoldAt(text: string, i: nat): (m: Option<Markup>)
    requires i < |text|
    ensures !BoldOpens(text, i) ==> m.None?
    ensures m.Some? ==>
              var close := m.value.next - 2;
              && BoldOpens(text, i) && i + 2 <= close
              && OccursAt(text, Doubled(text[i]), close)
              && m.value.run == Bold(text[i + 2..close])
              && forall j :: i + 2 <= j < close ==> !OccursAt(text, Doubled(text[i]), j)
    ensures BoldOpens(text, i) && m.None? ==>
              forall j :: i + 2 <= j ==> !OccursAt(text, Doubled(text[i]), j)
  {
    if BoldOpens(text, i) then
      IndexAfter(text, Doubled(text[i]), i + 2);
      var end := Index(text[i + 2..], [text[i], text[i]]);
      if end != -1 then Some(Markup(Bold(text[i + 2..i + 2 + end]), i + 2 + end + 2)) else None
    else None
  }

  /** `*text*` or `_text_` with non-empty text, unless a neighbouring delimiter makes it bold:
      the span ends at the first later delimiter, which must not be doubled on either side. */
  function ItalicAt(text: string, i: nat): (m: Option<Markup>)
    requires i < |text|
    ensures !(text[i] == '*' || text[i] == '_') ==> m.None?
    ensures m.Some? ==>
              var close := m.value.next - 1;
              && (text[i] == '*' || text[i] == '_') && i + 1 < close < |text|
              && text[close] == text[i]
              && m.value.run == Italic(text[i + 1..close])
              && (forall j :: i < j < close ==> text[j] != text[i])
              && !(i > 0 && text[i - 1] == text[i])
              && !(close + 1 < |text| && text[close + 1] == text[i])
    ensures (text[i] == '*' || text[i] == '_') && m.None? && !(i > 0 && text[i - 1] == text[i]) ==>
              forall j :: i + 1 < j < |text| && text[j] == text[i]
                          && (forall k :: i < k < j ==> text[k] != text[i])
                          ==> j + 1 < |text| && text[j + 1] == text[i]
  {
    if text[i] == '*' || text[i] == '_' then
      IndexRuneAfter(text, text[i], i + 1);
      var end := Index(text[i + 1..], [text[i]]);
      if end != -1 && end > 0
         && !(i > 0 && text[i - 1] == text[i])
         && !(i + 1 + end + 1 < |text| && text[i + 1 + end + 1] == text[i])
      then Some(Markup(Italic(text[i + 1..i + 1 + end]), i + 1 + end + 1))
      else None
    else None
  }

  /** `~~text~~`, closed by the first later `~~`. */
  function StrikeAt(text: string, i: nat): (m: Option<Markup>)
    requires i < |text|
    ensures !PairAt(text, i, '~') ==> m.None?
    ensures m.Some? ==>
              var close := m.value.next - 2;
              && PairAt(text, i, '~') && i + 2 <= close
              && OccursAt(text, "~~", close)
              && m.value.run == Strikethrough(text[i + 2..close])
              && forall j :: i + 2 <= j < close ==> !OccursAt(text, "~~", j)
    ensures PairAt(text, i, '~') && m.None? ==> forall j :: i + 2 <= j ==> !OccursAt(text, "~~", j)
  {
    if PairAt(text, i, '~') then
      IndexAfter(text, "~~", i + 2);
      var end := Index(text[i + 2..], "~~");
      if end != -1 then Some(Markup(Strikethrough(text[i + 2..i + 2 + end]), i + 2 + end + 2))
      else None
    else None
  }

  /** `` `text` ``, closed by the next backquote. */
  function CodeAt(text: string, i: nat): (m: Option<Markup>)
    requires i < |text|
    ensures text[i] != '`' ==> m.None?
    ensures m.Some? ==>
              var close := m.value.next - 1;
              && text[i] == '`' && i < close < |text| && text[close] == '`'
              && m.value.run == Code(text[i + 1..close])
              && forall j :: i < j < close ==> text[j] != '`'
    ensures text[i] == '`' && m.None? ==> forall j :: i < j < |text| ==> text[j] != '`'
  {
    if text[i] == '`' then
      IndexRuneAfter(text, '`', i + 1);
      var end := Index(text[i + 1..], "`");
      if end != -1 then Some(Markup(Code(text[i + 1..i + 1 + end]), i + 1 + end + 1)) else None
    else None
  }

  /** `[text](url)` or `![alt](url)`: the first `](` after the bracket, then the first `)`. */
  function LinkAt(text: string, i: nat): (m: Option<Markup>)
    requires i < |text|
    ensures m.Some? ==> i < m.value.next <= |text|
    ensures m.Some? ==> m.value.run.Link? || m.value.run.Image?
    ensures m.Some? ==> (m.value.run.Link? <==> text[i] == '[')
  {
    if text[i] == '[' || ImageOpensAt(text, i) then
      var isImage := text[i] == '!';
      var start := if isImage then i + 1 else i;
      var closeBracket := Index(text[start..], "](");
      if closeBracket == -1 then None
      else
        assert text[start..][0] == '[';
        assert !OccursAt(text[start..], "](", 0);
        var closeParen := Index(text[start + closeBracket + 2..], ")");
        if closeParen == -1 then None
        else
          var linkText := text[start + 1..start + closeBracket];
          var url := text[start + closeBracket + 2..start + closeBracket + 2 + closeParen];
          Some(Markup(if isImage then Image(linkText, url) else Link(linkText, url),
                      start + closeBracket + 2 + closeParen + 1))
    else None
  }

  /** The branches in the order the loop tries them; the first that matches wins. */
  function MarkupAt(text: string, i: nat): (m: Option<Markup>)
    requires i < |text|
    ensures m.Some? ==> i < m.value.next <= |text|
    ensures m.Some? ==> Opens(text, i)
    ensures m.Some? ==> !m.value.run.Text?
  {
    var b := BoldAt(text, i);
    if b.Some? then b
    else
      var it := ItalicAt(text, i);
      if it.Some? then it
      else
        var s := StrikeAt(text, i);
        if s.Some? then s
        else
          var c := CodeAt(text, i);
          if c.Some? then c else LinkAt(text, i)
  }

  /** string(b) for each byte b: the rune whose code point is the byte's value. */
  function Latin1(bs: seq<byte>): (s: string)
    ensures |s| == |bs|
  {
    if bs == [] then [] else [(bs[0] as int) as char] + Latin1(bs[1..])
  }

  /** What the loop appends to the pending text for the rune at hand. As written the loop copies
      the rune byte by byte, turning each byte of its UTF-8 encoding into the rune with that code;
      the corrected loop copies the rune. */
  function Literal(c: char, asWritten: bool): (r: string)
    ensures |r| == if asWritten then Utf8Len(c) else 1
  {
    if asWritten then Latin1(Utf8Bytes(c)) else [c]
  }

  /** The text run emitted for the pending text, if it is not empty. */
  function Flush(current: string): seq<Run> {
    if current == [] then [] else [Text(current)]
  }

  /** The runs the loop emits from position i on, with `current` pending. */
  function RunsFrom(text: string, i: nat, current: string, asWritten: bool): seq<Run>
    requires i <= |text|
    decreases |text| - i
  {
    if i == |text| then Flush(current)
    else if Opens(text, i) then
      match MarkupAt(text, i)
      case Some(m) => Flush(current) + [m.run] + RunsFrom(text, m.next, [], asWritten)
      case None => Flush(current) + RunsFrom(text, i + 1, Literal(text[i], asWritten), asWritten)
    else RunsFrom(text, i + 1, current + Literal(text[i], asWritten), asWritten)
  }

  /** The runs of a text, with literal runes copied whole. */
  function InlineRuns(text: string): seq<Run> {
    RunsFrom(text, 0, [], false)
  }

  /** The runs of a text as the source computes them, byte by byte. */
  function InlineRunsAsWritten(text: string): seq<Run> {
    RunsFrom(text, 0, [], true)
  }

  /** One markup step of the loop keeps the runs still to come equal to the target. */
  lemma StepMarkup(text: string, i: nat, el0: seq<Run>, cur0: string, m: Markup)
    requires i < |text| && MarkupAt(text, i) == Some(m)
    ensures m.next <= |text|
    ensures (el0 + Flush(cur0)) + [m.run] + RunsFrom(text, m.next, [], false)
            == el0 + RunsFrom(text, i, cur0, false)
  {
    assert RunsFrom(text, i, cur0, false) == Flush(cur0) + [m.run] + RunsFrom(text, m.next, [], false);
  }

  /** One literal step of the loop, for a rune where no markup branch matched. */
  lemma StepLiteral(text: string, i: nat, el0: seq<Run>, cur0: string)
    requires i < |text| && MarkupAt(text, i).None?
    ensures Opens(text, i) ==>
              (el0 + Flush(cur0)) + RunsFrom(text, i + 1, [] + [text[i]], false)
              == el0 + RunsFrom(text, i, cur0, false)
    ensures !Opens(text, i) ==>
              el0 + RunsFrom(text, i + 1, cur0 + [text[i]], false) == el0 + RunsFrom(text, i, cur0, false)
  {
    assert Literal(text[i], false) == [] + [text[i]] == [text[i]];
  }

  /** LinkAt in terms of the two searches the loop performs. */
  lemma LinkAtSearches(text: string, i: nat, start: nat, closeBracket: int)
    requires i < |text| && (text[i] == '[' || ImageOpensAt(text, i))
    requires start == if text[i] == '!' then i + 1 else i
    requires closeBracket == Index(text[start..], "](")
    ensures closeBracket == -1 ==> LinkAt(text, i).None?
    ensures closeBracket != -1 ==> 1 <= closeBracket && start + closeBracket + 2 <= |text|
    ensures closeBracket != -1 ==>
              var closeParen := Index(text[start + closeBracket + 2..], ")");
              closeParen == -1 ==> LinkAt(text, i).None?
    ensures closeBracket != -1 ==>
              var closeParen := Index(text[start + closeBracket + 2..], ")");
              closeParen != -1 ==>
                var linkText := text[start + 1..start + closeBracket];
                var url := text[start + closeBracket + 2..start + closeBracket + 2 + closeParen];
                LinkAt(text, i)
                == Some(Markup(if text[i] == '!' then Image(linkText, url) else Link(linkText, url),
                               start + closeBracket + 2 + closeParen + 1))
  {
    assert text[start..][0] == '[';
    assert !OccursAt(text[start..], "](", 0);
  }

  /** A run as the scanner can produce it: text runs are never empty, italic spans are never
      empty, and a code span holds no backtick, since it ends at the first one. */
  predicate RunOk(r: Run) {
    && (r.Text? ==> r.content != [])
    && (r.Italic? ==> r.content != [])
    && (r.Code? ==> '`' !in r.content)
  }

  predicate AllRunsOk(rs: seq<Run>) {
    forall k :: 0 <= k < |rs| ==> RunOk(rs[k])
  }

  lemma AllRunsOkAppend(a: seq<Run>, b: seq<Run>)
    requires AllRunsOk(a) && AllRunsOk(b)
    ensures AllRunsOk(a + b)
  {
    forall k | 0 <= k < |a + b|
      ensures RunOk((a + b)[k])
    {
      if k >= |a| {
        assert (a + b)[k] == b[k - |a|];
      }
    }
  }

  /** Every markup run recognised at a position is well formed. */
  lemma MarkupRunOk(text: string, i: nat)
    requires i < |text| && MarkupAt(text, i).Some?
    ensures RunOk(MarkupAt(text, i).value.run)
  {
    var r := MarkupAt(text, i).value.run;
    if BoldAt(text, i).None? && ItalicAt(text, i).Some? {
      assert r == ItalicAt(text, i).value.run;
    }
    if r.Code? {
      assert CodeAt(text, i) == MarkupAt(text, i);
      var end := Index(text[i + 1..], "`");
      assert end != -1 && r.content == text[i + 1..i + 1 + end];
      forall j | 0 <= j < |r.content|
        ensures r.content[j] != '`'
      {
        IndexIsFirst(text[i + 1..], "`", j);
        assert text[i + 1..][j..j + 1] == [r.content[j]];
      }
    }
  }

  /** Every run the scanner emits is well formed, whichever way literal runes are copied. */
  lemma {:induction false} RunsFromOk(text: string, i: nat, current: string, asWritten: bool)
    requires i <= |text|
    requires current == [] || RunOk(Text(current))
    ensures AllRunsOk(RunsFrom(text, i, current, asWritten))
    decreases |text| - i
  {
    if i < |text| {
      if Opens(text, i) {
        match MarkupAt(text, i)
        case Some(m) =>
          MarkupRunOk(text, i);
          RunsFromOk(text, m.next, [], asWritten);
          AllRunsOkAppend(Flush(current), [m.run]);
          AllRunsOkAppend(Flush(current) + [m.run], RunsFrom(text, m.next, [], asWritten));
        case None =>
          RunsFromOk(text, i + 1, Literal(text[i], asWritten), asWritten);
          AllRunsOkAppend(Flush(current), RunsFrom(text, i + 1, Literal(text[i], asWritten), asWritten));
      } else {
        RunsFromOk(text, i + 1, current + Literal(text[i], asWritten), asWritten);
      }
    }
  }

  /** parseInline never emits an empty text or italic run, nor a code span holding a backtick. */
  lemma InlineRunsOk(text: string)
    ensures AllRunsOk(InlineRuns(text))
    ensures AllRunsOk(InlineRunsAsWritten(text))
  {
    RunsFromOk(text, 0, [], false);
    RunsFromOk(text, 0, [], true);
  }

  /** No character that can open a markup branch. */
  predicate Plain(s: string) {
    forall k :: 0 <= k < |s| ==> s[k] !in "*_~`["
  }

  lemma {:induction false} PlainRunsFrom(text: string, i: nat, current: string)
    requires i <= |text|
    requires forall k :: i <= k < |text| ==> text[k] !in "*_~`["
    ensures RunsFrom(text, i, current, false) == Flush(current + text[i..])
    decreases |text| - i
  {
    if i == |text| {
      assert current + text[i..] == current;
    } else {
      PlainRunsFrom(text, i + 1, current + [text[i]]);
      assert current + [text[i]] + text[i + 1..] == current + text[i..];
    }
  }

  /** Text without markup characters comes back as a single text run, unchanged. */
  lemma PlainTextRuns(text: string)
    requires Plain(text)
    ensures InlineRuns(text) == if text == [] then [] else [Text(text)]
  {
    PlainRunsFrom(text, 0, []);
    assert [] + text[0..] == text;
  }

  /** Runes where no branch can open are appended to the pending text one by one. */
  lemma {:induction false} QuietRuns(text: string, i: nat, j: nat, current: string)
    requires i <= j <= |text|
    requires forall k :: i <= k < j ==> !Opens(text, k)
    ensures RunsFrom(text, i, current, false) == RunsFrom(text, j, current + text[i..j], false)
    decreases j - i
  {
    if i < j {
      assert Literal(text[i], false) == [text[i]];
      QuietRuns(text, i + 1, j, current + [text[i]]);
      assert current + [text[i]] + text[i + 1..j] == current + text[i..j];
    } else {
      assert current + text[i..j] == current;
    }
  }

  /** A delimiter that opens no span still splits the text: the pending text is flushed before
      the attempt, and the delimiter starts a new text run that takes the rest. */
  lemma FailedMarkupSplitsText(a: string, c: char, b: string)
    requires Plain(a) && Plain(b) && c in "*_`"
    ensures InlineRuns(a + [c] + b) == Flush(a) + [Text([c] + b)]
  {
    var text := a + [c] + b;
    forall k | 0 <= k < |a|
      ensures !Opens(text, k)
    {
      assert text[k] == a[k];
      assert text[k + 1] == if k + 1 < |a| then a[k + 1] else c;
    }
    QuietRuns(text, 0, |a|, []);
    assert [] + text[0..|a|] == a;
    assert Opens(text, |a|) && text[|a|] == c;
    assert forall k :: |a| < k < |text| ==> text[k] == b[k - |a| - 1];
    assert MarkupAt(text, |a|).None?;
    assert Literal(c, false) == [c];
    PlainRunsFrom(text, |a| + 1, [c]);
    assert text[|a| + 1..] == b;
  }

  /** No `](` inside a link text, so the first `](` is the one that closes it. */
  predicate NoLinkClose(t: string) {
    forall j :: 0 <= j && j + 1 < |t| ==> !(t[j] == ']' && t[j + 1] == '(')
  }

  /** The two searches of the link branch on `[t](u)` followed by anything. */
  lemma LinkSearches(t: string, u: string, r: string)
    requires NoLinkClose(t) && ')' !in u
    ensures var s := "[" + t + "](" + u + ")" + r;
            Index(s, "](") == |t| + 1 && Index(s[|t| + 3..], ")") == |u|
  {
    var s := "[" + t + "](" + u + ")" + r;
    assert s[..|t| + 1] == "[" + t;
    forall j | 0 <= j < |t| + 1
      ensures !OccursAt(s, "](", j)
    {
      if j == 0 {
        assert s[0] == '[';
      } else {
        assert s[j] == t[j - 1];
        assert s[j + 1] == if j < |t| then t[j] else ']';
      }
    }
    assert s[|t| + 1..|t| + 3] == "](";
    IndexOfFirst(s, "](", |t| + 1);
    var v := s[|t| + 3..];
    assert v == u + ")" + r;
    assert v[|u|..|u| + 1] == ")";
    forall j | 0 <= j < |u|
      ensures !OccursAt(v, ")", j)
    {
      assert v[j..j + 1] == [u[j]];
    }
    IndexOfFirst(v, ")", |u|);
  }

  lemma LinkAtLink(t: string, u: string, r: string)
    requires NoLinkClose(t) && ')' !in u
    ensures LinkAt("[" + t + "](" + u + ")" + r, 0) == Some(Markup(Link(t, u), |t| + |u| + 4))
  {
    var s := "[" + t + "](" + u + ")" + r;
    LinkSearches(t, u, r);
    assert s[1..|t| + 1] == t;
    assert s[|t| + 3..|t| + 3 + |u|] == u;
  }

  lemma LinkAtImage(t: string, u: string, r: string)
    requires NoLinkClose(t) && ')' !in u
    ensures LinkAt("![" + t + "](" + u + ")" + r, 0) == Some(Markup(Image(t, u), |t| + |u| + 5))
  {
    var s := "[" + t + "](" + u + ")" + r;
    var image := "![" + t + "](" + u + ")" + r;
    LinkSearches(t, u, r);
    assert image[1..] == s;
    assert image[2..|t| + 2] == t;
    assert image[|t| + 4..|t| + 4 + |u|] == u;
  }

  /** `[t](u)` and `![t](u)` read back as the link or image with that text and url, and a text
      that is just a link is one link run. */
  lemma LinkRoundTrip(t: string, u: string, r: string)
    requires NoLinkClose(t) && ')' !in u
    ensures LinkAt("[" + t + "](" + u + ")" + r, 0) == Some(Markup(Link(t, u), |t| + |u| + 4))
    ensures LinkAt("![" + t + "](" + u + ")" + r, 0) == Some(Markup(Image(t, u), |t| + |u| + 5))
    ensures InlineRuns("[" + t + "](" + u + ")") == [Link(t, u)]
  {
    LinkAtLink(t, u, r);
    LinkAtImage(t, u, r);
    LinkAlone(t, u);
  }

  lemma LinkAlone(t: string, u: string)
    requires NoLinkClose(t) && ')' !in u
    ensures InlineRuns("[" + t + "](" + u + ")") == [Link(t, u)]
  {
    var link := "[" + t + "](" + u + ")";
    LinkAtLink(t, u, []);
    assert link + [] == link;
    var m := Markup(Link(t, u), |link|);
    assert link[0] == '[';
    assert MarkupAt(link, 0) == Some(m) by {
      assert BoldAt(link, 0).None? && ItalicAt(link, 0).None?;
      assert StrikeAt(link, 0).None? && CodeAt(link, 0).None?;
    }
    assert RunsFrom(link, |link|, [], false) == [];
    assert RunsFrom(link, 0, [], false) == Flush([]) + [m.run] + RunsFrom(link, |link|, [], false);
  }

  /** As written, the loop copies a non-ASCII rune byte by byte, so "é" (bytes C3 A9) comes back
      as the two runes U+00C3 U+00A9; copying the rune keeps it. */
  lemma InlineAsWrittenGarbles()
    ensures InlineRunsAsWritten("\U{E9}") == [Text("\U{C3}\U{A9}")]
    ensures InlineRuns("\U{E9}") == [Text("\U{E9}")]
  {
    assert Utf8Bytes('\U{E9}') == [0xC3, 0xA9];
    assert Latin1([0xA9]) == "\U{A9}";
    assert Latin1([0xC3, 0xA9]) == "\U{C3}\U{A9}";
    assert !Opens("\U{E9}", 0);
    assert [] + Literal('\U{E9}', true) == "\U{C3}\U{A9}";
    assert [] + Literal('\U{E9}', false) == "\U{E9}";
    assert RunsFrom("\U{E9}", 1, "\U{C3}\U{A9}", true) == [Text("\U{C3}\U{A9}")];
    assert RunsFrom("\U{E9}", 1, "\U{E9}", false) == [Text("\U{E9}")];
  }

  /** parseInline, with literal runes copied whole. */
  method ParseInline(text: string) returns (elements: seq<Run>)
    ensures elements == InlineRuns(text)
  {
    elements := [];
    var current: string := [];
    var i := 0;
    while i < |text|
      invariant i <= |text|
      invariant elements + RunsFrom(text, i, current, false) == InlineRuns(text)
      decreases |text| - i
    {
      if MarkupAt(text, i).Some? {
        StepMarkup(text, i, elements, current, MarkupAt(text, i).value);
      } else {
        StepLiteral(text, i, elements, current);
      }
      elements, current, i := InlineStep(text, i, elements, current);
    }
    elements := elements + Flush(current);
  }

  /** One pass of parseInline's loop body at position i: each markup branch whose opening
      delimiter is present flushes the pending text and tries its match; the first match is
      emitted, and a rune no branch matched joins the pending text. */
  method InlineStep(text: string, i: nat, elements: seq<Run>, current: string)
    returns (elements': seq<Run>, current': string, next: nat)
    requires i < |text|
    ensures MarkupAt(text, i).Some? ==>
              elements' == elements + Flush(current) + [MarkupAt(text, i).value.run]
              && current' == [] && next == MarkupAt(text, i).value.next
    ensures MarkupAt(text, i).None? && Opens(text, i) ==>
              elements' == elements + Flush(current) && current' == [] + [text[i]] && next == i + 1
    ensures MarkupAt(text, i).None? && !Opens(text, i) ==>
              elements' == elements && current' == current + [text[i]] && next == i + 1
  {
    elements', current' := elements, current;
    var m: Option<Markup> := None;

    if i + 1 < |text| && text[i] == text[i + 1] && (text[i] == '*' || text[i] == '_') {
      elements', current' := elements' + Flush(current'), [];
      m := MatchBold(text, i);
    }
    if m.None? && (text[i] == '*' || text[i] == '_') {
      elements', current' := elements' + Flush(current'), [];
      m := MatchItalic(text, i);
    }
    if m.None? && i + 1 < |text| && text[i] == '~' && text[i + 1] == '~' {
      elements', current' := elements' + Flush(current'), [];
      m := MatchStrike(text, i);
    }
    if m.None? && text[i] == '`' {
      elements', current' := elements' + Flush(current'), [];
      m := MatchCode(text, i);
    }
    if m.None? && (text[i] == '[' || (text[i] == '!' && i + 1 < |text| && text[i + 1] == '[')) {
      elements', current' := elements' + Flush(current'), [];
      m := MatchLink(text, i);
    }

    if m.Some? {
      elements', next := elements' + [m.value.run], m.value.next;
    } else {
      current', next := current' + [text[i]], i + 1;
    }
  }

  /** The bold branch: the first closing pair after the opening one. */
  method MatchBold(text: string, i: nat) returns (m: Option<Markup>)
    requires i + 1 < |text| && text[i] == text[i + 1] && (text[i] == '*' || text[i] == '_')
    ensures m == BoldAt(text, i)
  {
    var delimiter := [text[i], text[i]];
    var end := Index(text[i + 2..], delimiter);
    if end != -1 {
      return Some(Markup(Bold(text[i + 2..i + 2 + end]), i + 2 + end + 2));
    }
    return None;
  }

  /** The italic branch: a non-empty span up to the next delimiter, with no doubled delimiter at
      either end. */
  method MatchItalic(text: string, i: nat) returns (m: Option<Markup>)
    requires i < |text| && (text[i] == '*' || text[i] == '_')
    ensures m == ItalicAt(text, i)
  {
    var end := Index(text[i + 1..], [text[i]]);
    if end != -1 && end > 0 {
      if !(i > 0 && text[i - 1] == text[i])
         && !(i + 1 + end + 1 < |text| && text[i + 1 + end + 1] == text[i])
      {
        return Some(Markup(Italic(text[i + 1..i + 1 + end]), i + 1 + end + 1));
      }
    }
    return None;
  }

  /** The strikethrough branch. */
  method MatchStrike(text: string, i: nat) returns (m: Option<Markup>)
    requires i + 1 < |text| && text[i] == '~' && text[i + 1] == '~'
    ensures m == StrikeAt(text, i)
  {
    var end := Index(text[i + 2..], "~~");
    if end != -1 {
      return Some(Markup(Strikethrough(text[i + 2..i + 2 + end]), i + 2 + end + 2));
    }
    return None;
  }

  /** The inline code branch. */
  method MatchCode(text: string, i: nat) returns (m: Option<Markup>)
    requires i < |text| && text[i] == '`'
    ensures m == CodeAt(text, i)
  {
    var end := Index(text[i + 1..], "`");
    if end != -1 {
      return Some(Markup(Code(text[i + 1..i + 1 + end]), i + 1 + end + 1));
    }
    return None;
  }

  /** The link and image branch. */
  method MatchLink(text: string, i: nat) returns (m: Option<Markup>)
    requires i < |text| && (text[i] == '[' || ImageOpensAt(text, i))
    ensures m == LinkAt(text, i)
  {
    var isImage := text[i] == '!';
    var startPos := i;
    if isImage {
      startPos := startPos + 1;
    }
    var closeBracket := Index(text[startPos..], "](");
    LinkAtSearches(text, i, startPos, closeBracket);
    if closeBracket != -1 {
      var closeParen := Index(text[startPos + closeBracket + 2..], ")");
      if closeParen != -1 {
        var linkText := text[startPos + 1..startPos + closeBracket];
        var url := text[startPos + closeBracket + 2..startPos + closeBracket + 2 + closeParen];
        var run := if isImage then Image(linkText, url) else Link(linkText, url);
        return Some(Markup(run, startPos + closeBracket + 2 + closeParen + 1));
      }
    }
    return None;
  }
}
