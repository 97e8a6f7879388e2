# Mark2PDF, modelled in Dafny

Mark2PDF converts a Markdown document to a PDF file in three stages:

- **Parsing.** `MarkdownParser` splits the text into lines and walks them with an index. At each line it tries the block kinds in a fixed order:
  - ATX and setext headers;
  - horizontal rules;
  - fenced and indented code;
  - block quotes and tables;
  - unordered, ordered and task lists;
  - paragraphs.

  Each kind reports the element it read and how many lines it consumed. The text of headers, paragraphs, quotes and list items is then parsed into inline runs: bold, italic, strikethrough, code, links, images and plain text.
- **Drawing.** `PDFWriter` keeps one content buffer per page and a vertical position. Writing text moves the position down. When the position would fall under the bottom margin, it first starts a new page.
- **Building.** `Build` writes the file in this order:
  1. the header;
  2. a catalog (object 1) and a page tree (object 2);
  3. the four standard fonts (objects 3 to 6);
  4. one page object per page, then one compressed content stream per page;
  5. a cross-reference table and the trailer.

`Converter` glues these stages together. It renders every parsed element as a fixed sequence of spacing, text and rule calls. Running text is wrapped greedily to the width of the text area.

The model has one module per layer:

- `Strings`: the Go library functions the source relies on, such as `strings.TrimSpace`, `Split`, `Fields`, UTF-8 encoding and `%d`.
- `Inline`: `parseInline`.
- `LineKinds`: the line classifiers and the table-row helpers.
- `Blocks`: the specification of `Parse` and of every block parser, as functions.
- `Parser`: the parser's loops, as methods proved equal to those functions.
- `Pdf`: the `PDFWriter` class, its drawing operations and `Build`.
- `PdfFile`: the layout of the file `Build` writes and where its objects lie.
- `Mark2Pdf`: the `Converter` class and text wrapping.

Methods that change state follow the source's form. The writer is a class whose fields are the page buffers and the position, and the converter is a class holding a writer. Parsing loops are methods with loop invariants. Every method is proved equal to a specification function, and the lemmas state what those functions promise:

- round trips, such as writing a block and parsing it back;
- the exact conditions for parser progress;
- wrapped lines fit and keep every word;
- every cross-reference offset points at the object it names;
- every drawing operator starts between the bottom margin and the top of the page.

## Model

| member | source | states |
|---|---|---|
| Strings.TrimSpace | markdown.go:48 | the result starts and ends with a non-space character or is empty |
| Strings.TrimSpaceEmpty | markdown.go:51-54 | a line trims to the empty string exactly when it is all white space |
| Strings.TrimPrefix | markdown.go:198 | when the prefix is present the input is prefix + result, otherwise the input is returned unchanged |
| Strings.RemoveChar | markdown.go:580 | the result is the input with every copy of the character removed: none remains, and every other character keeps its number of occurrences |
| Strings.RemoveCharAppend | markdown.go:580-583 | removing a character distributes over concatenation, so the kept characters stay in the input's order |
| Strings.Index | markdown.go:613 | -1, or a position where the pattern occurs |
| Strings.IndexIsFirst | markdown.go:613 | no occurrence of the pattern lies before the position Index returns |
| Strings.SplitPieces | markdown.go:37 | no piece of Split contains the separator, and joining the pieces with it gives back the input |
| Strings.SplitJoin | markdown.go:651 | splitting a join of separator-free pieces gives back the pieces |
| Strings.FieldsJoin | mark2pdf.go:145 | Fields of words joined by single spaces gives back the words |
| Strings.FieldsAfterSpace | mark2pdf.go:145 | leading white space does not change Fields |
| Strings.FieldsAfterWord | mark2pdf.go:145 | a word followed by white space is the first field |
| Strings.EncodeAppend | pdf.go:173-175 | UTF-8 encoding distributes over concatenation |
| Strings.DecRoundTrip | pdf.go:183 | the decimal digits `%d` writes read back as the number |
| Strings.Dec10RoundTrip | pdf.go:283 | the zero-padded ten digits `%010d` writes read back as the number |
| Strings.TrimCharEmpty | markdown.go:569-570 | trimming a character leaves nothing exactly when the line consists of that character |
| Strings.TrimCharAround | markdown.go:650 | trimming `\|` from `\|x\|` gives x when x neither starts nor ends with `\|` |
| Inline.BoldAt | markdown.go:443-458 | at `**` or `__`, the match closes at the first later copy of the same pair and its content is the text between the pairs; there is no match exactly when no later copy exists or no pair opens at the position |
| Inline.ItalicAt | markdown.go:460-478 | at `*` or `_`, the match closes at the first later copy of the delimiter, with non-empty content between; it is refused when the same delimiter comes right before the opener or right after the closer; with no delimiter before the opener, no match means the first later delimiter is adjacent to the opener or doubled |
| Inline.StrikeAt | markdown.go:480-494 | at `~~`, the match closes at the first later `~~` and its content is the text between; there is no match exactly when no later `~~` exists |
| Inline.CodeAt | markdown.go:496-510 | at a backquote, the match closes at the next backquote and its content is the text between; there is no match exactly when no later backquote exists |
| Inline.LinkAt | markdown.go:512-550 | a match is a link when it starts at `[` and an image otherwise, and ends inside the text |
| Inline.LinkRoundTrip | markdown.go:512-550 | `[t](u)` and `![t](u)`, followed by anything, match as Link(t, u) and Image(t, u) and end after the `)`, when t holds no `](` and u no `)`; a bare link parses to that one Link run |
| Inline.MarkupAt | markdown.go:441-553 | a recognised markup run starts at an opening character and always advances |
| Inline.RunsFromOk | markdown.go:437-561 | the runs produced from any position have non-empty text and italic content and no backquote inside code |
| Inline.InlineRunsOk | markdown.go:437-561 | the same for whole texts, as written and as corrected |
| Inline.PlainTextRuns | markdown.go:552-558 | a text without markup characters is one Text run, or none when empty |
| Inline.FailedMarkupSplitsText | markdown.go:460-510 | an unmatched `*`, `_` or backquote between two plain texts flushes the text before it and starts a new run holding itself and the rest |
| Inline.QuietRuns | markdown.go:552-553 | characters at which no markup opens are appended to the pending text run |
| Inline.InlineAsWrittenGarbles | markdown.go:552-553 | as written, `é` comes back as the two characters of its UTF-8 bytes; corrected, it is kept |
| Inline.ParseInline | markdown.go:437-561 | the loop produces exactly the runs of InlineRuns |
| Inline.InlineStep | markdown.go:441-554 | one iteration: a match flushes the text and appends the run; an unmatched opener flushes and starts a new run; any other character extends the current run |
| LineKinds.SetextHeaderIff | markdown.go:565-571 | a setext underline is a non-empty line of only `=` or only `-` |
| LineKinds.HorizontalRuleIff | markdown.go:573-599 | a rule is at least three `-`, `*` or `_`, all the same, spaces ignored |
| LineKinds.OrderedListItemIff | markdown.go:607-626 | an ordered item is digits, a dot at position > 0, then a space or tab |
| LineKinds.OrderedItemRoundTrip | markdown.go:296-305 | `n. text` is an ordered item and its text reads back |
| LineKinds.UnorderedItemRoundTrip | markdown.go:601-605 | `- text`, `* text` and `+ text` are unordered items and their text reads back |
| LineKinds.TaskMatchSound | markdown.go:628-632 | every line the task-item pattern accepts is marker, white space, `[ ]`/`[x]`/`[X]`, white space, text; checked iff the mark is x or X |
| LineKinds.TaskMatchComplete | markdown.go:346-349 | every line of that shape is accepted with the right checked flag and its text |
| LineKinds.TableSeparatorIff | markdown.go:634-646 | a separator row holds `\|` and `-` and only `\|`, `-`, `:` and spaces |
| LineKinds.TableRowCellsClean | markdown.go:648-658 | every cell is trimmed and holds no `\|` |
| LineKinds.TableRowCells | markdown.go:648-658 | a row has at least one cell |
| LineKinds.TableRowRoundTrip | markdown.go:648-658 | a row written from clean cells parses back to those cells |
| LineKinds.ParseTableRow | markdown.go:648-658 | the loop computes TableRowCells |
| LineKinds.TrimEach | markdown.go:653-655 | every cell is trimmed in place |
| LineKinds.ParseTableAlignment | markdown.go:660-678 | one alignment per cell of the row |
| LineKinds.AlignmentRoundTrip | markdown.go:660-678 | a separator row written for given alignments parses back to them |
| LineKinds.SeparatorRowIsSeparator | markdown.go:634-646 | such a row is recognised as a separator |
| Blocks.HeaderAt | markdown.go:160-187 | a header exists exactly for 1 to 6 leading `#`; its level is that count; its content is trimmed; its children are the inline runs of the content |
| Blocks.HeaderRoundTrip | markdown.go:160-187 | `### text` reads back with its level and text |
| Blocks.HeaderClosingHashes | markdown.go:160-187 | `## text ##`, with any number of closing `#`s, reads back with its level and text: the closing `#`s and the space before them are dropped |
| Blocks.SevenHashesNoHeader | markdown.go:171 | seven `#` are not a header |
| Blocks.CodeBlockAt | markdown.go:190-217 | a fenced block is a code block and consumes at least its opening line, and no line past the end |
| Blocks.CodeBlockAtConsumes | markdown.go:203-216 | the fenced block ends at the first later line that closes its fence, taking it, or runs to the end |
| Blocks.IndentedAt | markdown.go:220-248 | an indented block is a code block with no language, within the remaining lines |
| Blocks.IndentedAtConsumes | markdown.go:224-242 | it takes the indented or blank lines and stops at the first that is neither |
| Blocks.QuoteAt | markdown.go:251-275 | a quote whose children are the inline runs of its content |
| Blocks.QuoteAtConsumes | markdown.go:255-267 | it takes the `>` lines and the blank lines another `>` line follows, and stops at the first other line |
| Blocks.ListAt | markdown.go:278-331 | a list of the requested kind with one run sequence per item |
| Blocks.ListAtConsumes | markdown.go:283-318 | it takes the items of its kind and the blank lines another such item follows, and stops at the first other line |
| Blocks.TaskListAt | markdown.go:334-368 | a task list with one run sequence per item |
| Blocks.TaskListAtConsumes | markdown.go:339-363 | it takes the task items and stops at the first line that is not one |
| Blocks.TaskListRoundTrip | markdown.go:334-368 | task lines written from items read back as those items, each shown with its checkbox and parsed from its text, consuming every line |
| Blocks.ParagraphAt | markdown.go:406-434 | a paragraph whose children are the inline runs of its content |
| Blocks.ParagraphAtConsumes | markdown.go:410-426 | it takes the lines up to the first that is blank or opens another block |
| Blocks.ParagraphRoundTrip | markdown.go:406-434 | prose lines ended by a break or the end read back as one paragraph of the lines joined by spaces, consuming them all |
| Blocks.TableAt | markdown.go:371-403 | a table whose first row is the header line's cells, with one row per consumed line other than the separator |
| Blocks.TableAtConsumes | markdown.go:386-396 | after the header and separator it takes the lines holding a row and stops at the first blank line or line without `\|` |
| Blocks.DataRowsConsume | markdown.go:386-396 | one row per line taken; every line taken holds a row and the line after does not |
| Blocks.TableRoundTrip | markdown.go:371-403 | a header row, a separator row for the alignments and data rows of clean cells read back as that table, consuming every line |
| Blocks.FenceClose | markdown.go:203-210 | the closing line is the first one starting with the fence, or the end of the document |
| Blocks.FencedRoundTrip | markdown.go:190-217 | a fenced block reads back with its lines joined by newlines and its language, consuming both fences |
| Blocks.UnclosedFenceRunsToEnd | markdown.go:203-216 | an unclosed fence takes every remaining line |
| Blocks.IndentedRoundTrip | markdown.go:220-248 | code lines indented by four spaces read back without the indentation, blank lines as empty lines, and are all consumed |
| Blocks.IndentedLineOf | markdown.go:226-235 | a line of four spaces and code gives the code; a blank line gives an empty line |
| Blocks.TabIndentedLineOf | markdown.go:226-238 | a tab of indentation is removed like four spaces |
| Blocks.QuoteRoundTrip | markdown.go:251-275 | `> ` lines read back as their texts joined by spaces |
| Blocks.UnorderedListRoundTrip | markdown.go:278-331 | a bulleted list reads back with its items and consumes its lines |
| Blocks.OrderedListRoundTrip | markdown.go:278-331 | a numbered list reads back with its items and consumes its lines |
| Blocks.DashTaskIsListItem | markdown.go:126-132 | `- [x] text` is taken by the unordered list branch, with item text `[x] text` |
| Blocks.TaskListBranch | markdown.go:142-148 | the task-list branch is reached only when the marker is followed by `\r`, form feed or newline |
| Blocks.SetextOverridesList | markdown.go:66-83 | `- text` over `---` is a level-2 header, not a list |
| Blocks.BlockProgress | markdown.go:94-153 | the block branches consume no line exactly when the line starts with `#`, is not indented and no table follows |
| Blocks.BlockAt | markdown.go:94-153 | the chosen block parser never consumes past the end |
| Blocks.StepProgress | markdown.go:46-154 | one iteration of Parse consumes no line exactly when the line stalls |
| Blocks.Step | markdown.go:46-154 | one iteration never consumes past the end |
| Blocks.StuckOnlyAtStall | markdown.go:46-154 | Parse gets stuck only on a stalling line |
| Blocks.StallIsStuck | markdown.go:56-64 | Parse is stuck on any stalling line it reaches |
| Blocks.ParsesWithoutDeepHashes | markdown.go:42-157 | a document with no line of more than six leading `#` is parsed to the end |
| Blocks.BlankLinesVanish | markdown.go:50-54 | blank lines produce no element |
| Blocks.FixedStep | markdown.go:150-153 | the corrected step always consumes a line and is Parse's own step wherever Parse does not stall |
| Blocks.ParseFixedTotal | markdown.go:42-157 | the corrected parser always finishes, and agrees with Parse on every document Parse finishes |
| Blocks.SevenHashesHang | markdown.go:56-64 | `#######` hangs Parse at line 0; the corrected parser reads it as a paragraph |
| Parser.Parse | markdown.go:42-157 | the loop computes ParseMarkdown: the elements, or the line it would loop on forever |
| Parser.ParseStep | markdown.go:46-154 | one iteration equals Step |
| Parser.ParseBlock | markdown.go:94-153 | the branch chosen equals BlockAt |
| Parser.ParseHeader | markdown.go:160-187 | equals HeaderAt and consumes one line exactly when a header is found |
| Parser.ParseCodeBlock | markdown.go:190-217 | equals CodeBlockAt |
| Parser.ParseIndentedCodeBlock | markdown.go:220-248 | equals IndentedAt |
| Parser.IndentedLines | markdown.go:224-242 | the loop collects the lines of the indented scanner and stops where it stops |
| Parser.ParseBlockquote | markdown.go:251-275 | equals QuoteAt |
| Parser.QuoteLines | markdown.go:255-267 | the loop collects the quoted lines and stops where the quote scanner stops |
| Parser.ParseParagraph | markdown.go:406-434 | equals ParagraphAt |
| Parser.ParagraphLines | markdown.go:410-426 | the loop collects the prose lines and stops at a blank line or a block opener |
| Parser.ParseList | markdown.go:278-331 | equals ListAt |
| Parser.ListLines | markdown.go:283-318 | the loop collects the item texts and their inline runs |
| Parser.ListLineStep | markdown.go:284-316 | one line of a list: keep its text, skip a blank between items, or stop |
| Parser.ParseTaskList | markdown.go:334-368 | equals TaskListAt |
| Parser.TaskLines | markdown.go:339-363 | the loop collects the task texts and their inline runs |
| Parser.ParseTable | markdown.go:371-403 | equals TableAt |
| Parser.TableRows | markdown.go:386-396 | the loop collects the data rows, up to a blank line or a line without `\|` |
| Pdf.EscapeString | pdf.go:140-162 | the escaped text holds only printable ASCII |
| Pdf.EscapeRune | pdf.go:143-160 | the escape of one character is printable ASCII, and a printable character other than `(`, `)` and `\` stands for itself |
| Pdf.RuneReadsBack | pdf.go:143-160 | un-escaping the escape of one character gives its visible form |
| Pdf.EscapeReadsBack | pdf.go:140-162 | a PDF reader un-escaping the string gets the text back, with tabs, line breaks and non-ASCII shown as the source maps them |
| Pdf.FontSizeRange | pdf.go:319-324 | every size is between 9 and 24 points; an unknown kind gets the normal 10 |
| Pdf.HeaderSizesDecrease | pdf.go:36-45 | h1 > h2 > … > h6 > normal > code |
| Pdf.ReadyKeepsOps | pdf.go:71-78 | the page check draws nothing; it starts a page exactly when the position is under the bottom margin |
| Pdf.TextOnDraws | pdf.go:70-90 | writing text adds one text operator at the margin and the current height, and moves down 1.5 times the font size |
| Pdf.InlineOnDraws | pdf.go:93-111 | inline text is drawn at the offset and does not move the position |
| Pdf.LineOnDraws | pdf.go:114-129 | a rule strokes from the margin across the given width and moves down 10 points |
| Pdf.SpaceOnMoves | pdf.go:132-137 | space moves down, or starts a new page at the top when it would pass the bottom |
| Pdf.DrawKeepsEarlier | pdf.go:70-90 | drawing never changes a page before the current one |
| Pdf.PdfWriter.constructor | pdf.go:26-48 | no pages, position 0 |
| Pdf.PdfWriter.NewPage | pdf.go:57-62 | appends an empty page and moves to its top |
| Pdf.PdfWriter.BreakIfNeeded | pdf.go:71-78 | the page check of every drawing operation |
| Pdf.PdfWriter.WriteTextWithFont | pdf.go:70-90 | the new state is TextOn of the old |
| Pdf.PdfWriter.WriteText | pdf.go:65-67 | always the regular font F1 |
| Pdf.PdfWriter.WriteInlineText | pdf.go:93-111 | the new state is InlineOn of the old |
| Pdf.PdfWriter.WriteLine | pdf.go:114-129 | the new state is LineOn of the old |
| Pdf.PdfWriter.AddSpace | pdf.go:132-137 | the new state is SpaceOn of the old |
| Pdf.PdfWriter.Build | pdf.go:165-296 | adds a page when there is none and returns the Document of the rendered pages |
| Pdf.WriteFile | pdf.go:171-295 | the bytes written are the Document |
| Pdf.WriteCatalog | pdf.go:180-185 | writes object 1 and records its offset |
| Pdf.WritePageTree | pdf.go:201-212 | writes object 2 and records its offset |
| Pdf.WriteFonts | pdf.go:214-237 | writes objects 3 to 6 and records their offsets |
| Pdf.WritePageObjects | pdf.go:242-257 | writes one page object per page and records the offsets |
| Pdf.WriteContentStreams | pdf.go:260-277 | writes one content stream per page and records the offsets |
| Pdf.WriteXref | pdf.go:279-293 | writes the table of the recorded offsets and the trailer pointing at it |
| Pdf.WriteEntries | pdf.go:282-284 | one 20-byte entry per recorded offset, in order |
| PdfFile.XrefPointsAtObjects | pdf.go:279-284 | entry k of the cross-reference table is the offset where `k 0 obj` is written |
| PdfFile.OffsetsAscend | pdf.go:179-277 | the object offsets strictly increase |
| PdfFile.StartXrefPointsAtXref | pdf.go:279-291 | the `startxref` value is the offset of the `xref` keyword |
| PdfFile.XrefSize | pdf.go:289 | /Size is 7 + 2 × pages: the free entry, 6 fixed objects, and a page and a stream per page |
| PdfFile.CatalogIsObject1 | pdf.go:180-185 | object 1 is the catalog naming object 2 as its pages |
| PdfFile.PageTreeIsObject2 | pdf.go:201-212 | object 2 is the page tree listing every page object and their count |
| PdfFile.FontIsObject | pdf.go:214-237 | objects 3 to 6 are Helvetica, Helvetica-Bold, Helvetica-Oblique and Courier |
| PdfFile.PageIsObject | pdf.go:242-257 | object 7 + i is page i, with its parent, media box, content stream and fonts |
| PdfFile.StreamIsObject | pdf.go:260-277 | object 7 + n + i is the compressed content of page i with its length |
| PdfFile.KidsInOrder | pdf.go:205-207 | the /Kids written for the first i pages are a prefix of those for all pages |
| PdfFile.EntryShape | pdf.go:283 | an entry is 20 bytes starting with the zero-padded offset |
| PdfFile.WroteAll | pdf.go:279-293 | after the last object, the cross-reference section completes the Layout |
| Mark2Pdf.Capacity | mark2pdf.go:137-143 | the line capacity is the largest number of half-font-size characters that fit the text area, and at least 10 |
| Mark2Pdf.NormalCapacity | mark2pdf.go:137-143 | at the normal size of 10 points, a line holds 99 bytes |
| Mark2Pdf.WrapKeepsWords | mark2pdf.go:145-169 | wrapping keeps every word in order, joined by single spaces, with no empty line |
| Mark2Pdf.WrapFits | mark2pdf.go:153-163 | each line fits the capacity unless it is a single longer word |
| Mark2Pdf.WrapGreedy | mark2pdf.go:153-163 | no line could take the first word of the next one |
| Mark2Pdf.Converter.WriteWrappedText | mark2pdf.go:136-170 | writes exactly the wrapped lines at the given size |
| Mark2Pdf.Converter.constructor | mark2pdf.go:17-22 | a converter with a fresh, empty writer |
| Mark2Pdf.Converter.Convert | mark2pdf.go:25-35 | renders every parsed element in order and builds the file; on a document the parser hangs on, draws nothing |
| Mark2Pdf.Converter.RenderElement | mark2pdf.go:59-133 | each element draws exactly its RenderCalls |
| Mark2Pdf.Converter.RenderHeader | mark2pdf.go:61-89 | space before, the text at the level's size, space after |
| Mark2Pdf.Converter.RenderParagraph | mark2pdf.go:91-94 | wrapped text at the normal size, then 8 points |
| Mark2Pdf.Converter.RenderCode | mark2pdf.go:96-102 | each line of the code at the code size, between 5-point spaces |
| Mark2Pdf.Converter.RenderList | mark2pdf.go:104-118 | each item wrapped behind its bullet or number |
| Mark2Pdf.Converter.RenderQuote | mark2pdf.go:120-124 | the text wrapped behind a `\|` marker |
| Mark2Pdf.Converter.RenderRule | mark2pdf.go:126-129 | a rule across the text area between 5-point spaces |
| Mark2Pdf.ApplyDraws | mark2pdf.go:59-133 | the texts drawn by a sequence of calls are the texts of its text calls, in order |
| Mark2Pdf.ApplyWithin | pdf.go:70-137 | every operator drawn starts at a height between the bottom margin and the top of the page |
| Mark2Pdf.ConvertedWithinMargins | mark2pdf.go:25-35 | every operator of a whole conversion starts at a height between the bottom margin and the top of the page |
| Mark2Pdf.ConvertedTexts | mark2pdf.go:25-35 | a whole conversion draws exactly the texts of its calls |
| Mark2Pdf.ParagraphWords | mark2pdf.go:91-94 | a paragraph draws exactly the words of its stripped text |
| Mark2Pdf.QuoteWords | mark2pdf.go:120-124 | a quote draws `\|` followed by the words of its text |
| Mark2Pdf.ItemWords | mark2pdf.go:104-118 | an item draws its marker followed by its words |
| Mark2Pdf.CodeLines | mark2pdf.go:96-102 | a code block draws its lines, which join back to its content |
| Mark2Pdf.HeaderDrawnOnce | mark2pdf.go:61-89 | a header draws its content once at its level's size; a level outside 1 to 6 draws nothing |
| Mark2Pdf.OnlyRulesStroke | mark2pdf.go:126-129 | only a rule strokes a line, across the full text width |
| Mark2Pdf.SilentElements | mark2pdf.go:59-133 | tables and task lists draw nothing and leave the canvas unchanged |

## Left out

- Input and output: ConvertToFile, ConvertToWriter, ConvertFile and PDFWriter.WriteTo only write the bytes Convert and Build return to a file or a writer.
- ConvertString is NewConverter followed by Convert, both modelled.
- Library behaviour that enters the model as parameters:
  - zlib compression is the `compress` parameter;
  - `%.2f` formatting of reals is the `num` parameter;
  - stripInlineFormatting, which is not part of this model, is the converter's `strip` parameter.
- Floating point: sizes and positions are exact reals, with no rounding.
- Mark2Pdf.Capacity: Go's `int()` conversion and overflow for huge or non-positive font sizes are not modelled. The function requires a positive size, which every call site passes.
- Mark2Pdf.ApplyWithin: only heights are bounded. A word longer than a line is drawn past the right margin, as Mark2Pdf.WrapFits allows.
- Mark2Pdf.ConvertedWithinMargins: the same bound, on heights only.
- Invalid UTF-8: strings are sequences of Unicode scalar values. Encode writes their UTF-8 bytes.
- Pdf.PdfWriter.WriteText: the isBold argument is ignored, as the source ignores it.
- Helpers outside the conversion path are not modelled: PDFWriter.addObject (never called), WriteMetadata, GetCurrentY and SetY.
- Page buffers: the model keeps each page as a sequence of drawing operators. The text those operators stand for is produced when Build renders the pages.
- Pdf.WriteFile writes each object with one append instead of several WriteString calls. The bytes are the same, but the intermediate buffer states are not modelled.
- Mark2Pdf.Converter.Convert: where Parse would loop forever, the model returns Hangs with the stuck line instead of diverging.
- The task-item regular expression is modelled by a hand-written matcher, proved sound and complete for the shape the expression describes.
- The `Children`, `Items` and `Level` fields the renderer never reads are carried, but no property is stated about them.

## Findings

| source | as written | input that shows it | evidently intended | confidence | as-written member | corrected member |
|---|---|---|---|---|---|---|
| markdown.go:552-553 | non-ASCII characters are copied into the current run one byte at a time as `rune(text[i])`, so each UTF-8 byte becomes a separate Latin-1 character | `é` comes back as `Ã©` | copy the character unchanged | high, not executed | Inline.InlineAsWrittenGarbles | Inline.ParseInline |
| markdown.go:150-153 | a line with more than six leading `#` is no header (lines 56-64), and parseParagraph stops before its first line because it starts with `#` (line 417); the paragraph branch adds `i += 0` and Parse loops forever | the document `#######` | the line becomes a paragraph of its own | high, not executed | Blocks.SevenHashesHang | Blocks.ParseFixedTotal |

The inline parser and every block that uses it follow the corrected reading: InlineRuns copies characters unchanged.

The block parser and Convert follow the code as written, with Stuck and Hangs standing for the endless loop. Blocks.ParseFixedTotal proves that the corrected parser returns the same elements on every document Parse finishes, so Convert's result on those documents is also the corrected one.
