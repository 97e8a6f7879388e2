/** The file PDFWriter.Build writes: a header, a fixed graph of numbered objects (catalog, page
    tree, four fonts, one page object and one content stream per page), a cross-reference table
    and a trailer, laid out as in sections 7.5.2 to 7.5.5 of ISO 32000-1. The `%.2f` rendering of
    numbers and the zlib compressor are parameters. */
module PdfFile {
  import opened Strings

  /** A4 in points, and the margin on every side. */
  const PageWidth: real := 595.28
  const PageHeight: real := 841.89
  const Margin: real := 50.0

  /** The object numbers Build assigns: catalog 1, page tree 2, fonts 3 to 6, then the pages. */
  const CatalogNum: nat := 1
  const PagesNum: nat := 2
  const FontNum: nat := 3
  const PageNum: nat := 7

  const FontNames: seq<string> := ["Helvetica", "Helvetica-Bold", "Helvetica-Oblique", "Courier"]

  /** `%PDF-1.4` and the comment line of non-ASCII characters that marks the file as binary. */
  const Header: string := "%PDF-1.4\n" + "%\U{E2}\U{103}\U{10E}\U{D3}\n"

  function ObjStart(k: nat): string {
    Dec(k) + " 0 obj\n"
  }

  /** The `/Kids` entries: references to objects start, .., start + n - 1. */
  function Kids(start: nat, n: nat): string {
    if n == 0 then [] else Kids(start, n - 1) + Ref(start + n - 1)
  }

  /** An indirect reference to object k, followed by a space. */
  function Ref(k: nat): string {
    Dec(k) + " 0 R "
  }

  /** What follows the `k 0 obj` line of the catalog: it names object 2 as the page tree. */
  function CatalogRest(): string {
    "<< /Type /Catalog /Pages 2 0 R >>\n" + "endobj\n"
  }

  /** The page tree of n pages: its /Kids are the page objects, its /Count is n. */
  function PagesRest(n: nat): string {
    PagesOpen + Kids(PageNum, n) + PagesClose(n)
  }

  const PagesOpen: string := "<< /Type /Pages " + "/Kids ["

  function PagesClose(n: nat): string {
    "] " + "/Count " + Dec(n) + " " + ">>\n" + "endobj\n"
  }

  /** Font j of the four standard Type 1 fonts F1 to F4. */
  function FontRest(j: nat): string
    requires j < 4
  {
    "<< /Type /Font /Subtype /Type1 /BaseFont /" + FontNames[j] + " >>\n" + "endobj\n"
  }

  /** Page object i of n: its parent, its media box, its content stream and the four fonts. */
  function PageRest(num: real -> string, n: nat, i: nat): string {
    "<< /Type /Page " + "/Parent " + Dec(PagesNum) + " 0 R "
    + "/MediaBox [0 0 " + num(PageWidth) + " " + num(PageHeight) + "] "
    + "/Contents " + Dec(PageNum + n + i) + " 0 R "
    + "/Resources << /Font << /F1 " + Dec(FontNum) + " 0 R /F2 " + Dec(FontNum + 1)
    + " 0 R /F3 " + Dec(FontNum + 2) + " 0 R /F4 " + Dec(FontNum + 3) + " 0 R >> >> "
    + ">>\n" + "endobj\n"
  }

  /** The dictionary and `stream` keyword in front of the data of a content stream. */
  function StreamOpen(length: nat): string {
    "<< /Length " + Dec(length) + " /Filter /FlateDecode >>\n" + "stream\n"
  }

  const StreamClose: string := "\nendstream\n" + "endobj\n"

  /** What follows the `k 0 obj` line of a content stream holding data. */
  function StreamRest(data: seq<byte>): seq<byte> {
    Encode(StreamOpen(|data|)) + data + Encode(StreamClose)
  }

  /** The bytes of object k of a document with the given pages after its `k 0 obj` line. */
  function ObjectRest(num: real -> string, compress: seq<byte> -> seq<byte>, pages: seq<string>,
                      k: nat): seq<byte>
    requires 1 <= k <= 6 + 2 * |pages|
  {
    var n := |pages|;
    if k == CatalogNum then Encode(CatalogRest())
    else if k == PagesNum then Encode(PagesRest(n))
    else if k < PageNum then Encode(FontRest(k - FontNum))
    else if k < PageNum + n then Encode(PageRest(num, n, k - PageNum))
    else StreamRest(compress(Encode(pages[k - PageNum - n])))
  }

  /** What follows the `k 0 obj` line of each object k = 1, 2, .., in the order Build writes them. */
  function Rests(num: real -> string, compress: seq<byte> -> seq<byte>, pages: seq<string>)
    : (rests: seq<seq<byte>>)
    ensures |rests| == 6 + 2 * |pages|
  {
    seq(6 + 2 * |pages|, k requires 0 <= k < 6 + 2 * |pages| => ObjectRest(num, compress, pages, k + 1))
  }

  /** The objects as written: object k + 1 is its `k + 1 0 obj` line and then rests[k]. */
  function Framed(rests: seq<seq<byte>>): (objs: seq<seq<byte>>)
    ensures |objs| == |rests|
  {
    seq(|rests|, k requires 0 <= k < |rests| => Encode(ObjStart(k + 1)) + rests[k])
  }

  function Concat(xs: seq<seq<byte>>): seq<byte> {
    if xs == [] then [] else Concat(xs[..|xs| - 1]) + xs[|xs| - 1]
  }

  /** Where each of xs starts when they are written one after the other from position base. */
  function Offsets(base: nat, xs: seq<seq<byte>>): (r: seq<nat>)
    ensures |r| == |xs|
  {
    if xs == [] then [] else Offsets(base, xs[..|xs| - 1]) + [base + |Concat(xs[..|xs| - 1])|]
  }

  /** The in-use entry of the cross-reference table for an object at the given offset. */
  function Entry(offset: nat): string {
    Dec10(offset) + " 00000 n \n"
  }

  /** The in-use entries of the cross-reference table, one per offset. */
  function Entries(offsets: seq<nat>): string {
    Joined(Entry, offsets)
  }

  /** f of each of xs, one after the other. */
  function Joined<T>(f: T -> string, xs: seq<T>): string {
    if xs == [] then [] else Joined(f, xs[..|xs| - 1]) + f(xs[|xs| - 1])
  }

  /** The cross-reference table's opening lines: one subsection starting at object 0, and the
      free entry for object 0. */
  function XrefOpen(size: nat): string {
    "0 " + Dec(size) + "\n" + "0000000000 65535 f \n"
  }

  function Trailer(size: nat, xrefPos: nat): string {
    "trailer\n" + "<< /Size " + Dec(size) + " /Root 1 0 R >>\n" + "startxref\n" + Dec(xrefPos) + "\n"
    + "%%EOF\n"
  }

  /** What follows the `xref` keyword line: the table and the trailer. */
  function XrefRest(offsets: seq<nat>, xrefPos: nat): string {
    XrefOpen(|offsets| + 1) + Entries(offsets) + Trailer(|offsets| + 1, xrefPos)
  }

  /** A file of the shape Build writes whose objects 1, 2, .. have the given rests: the header,
      the objects, the cross-reference table of their offsets, and the trailer. */
  function Layout(rests: seq<seq<byte>>): seq<byte> {
    Assembled(Encode(Header), rests)
  }

  /** head, then the objects with the given rests, then the cross-reference table of their
      offsets and the trailer. */
  function Assembled(head: seq<byte>, rests: seq<seq<byte>>): seq<byte> {
    var objs := Framed(rests);
    var body := head + Concat(objs);
    body + XrefSection(Offsets(|head|, objs), |body|)
  }

  /** The `xref` keyword line, the table of the given offsets, and the trailer. */
  function XrefSection(offsets: seq<nat>, xrefPos: nat): seq<byte> {
    Encode("xref\n" + XrefRest(offsets, xrefPos))
  }

  /** The file Build writes for the given page contents. */
  function Document(num: real -> string, compress: seq<byte> -> seq<byte>, pages: seq<string>)
    : seq<byte>
  {
    Layout(Rests(num, compress, pages))
  }

  // ---------------------------------------------------------------------------------------------
  // Properties of the layout

  lemma {:induction false} ConcatSplit(xs: seq<seq<byte>>, k: nat)
    requires k <= |xs|
    ensures Concat(xs) == Concat(xs[..k]) + Concat(xs[k..])
    decreases |xs|
  {
    if k < |xs| {
      var m := |xs| - 1;
      ConcatSplit(xs[..m], k);
      assert xs[..m][..k] == xs[..k];
      assert xs[k..][..|xs[k..]| - 1] == xs[..m][k..];
      assert Concat(xs[k..]) == Concat(xs[..m][k..]) + xs[m];
    } else {
      assert xs[..k] == xs;
      assert xs[k..] == [];
    }
  }

  /** Each piece sits in the concatenation at the offset recorded for it. */
  lemma {:induction false} OffsetsAt(base: nat, xs: seq<seq<byte>>, k: nat)
    requires k < |xs|
    ensures Offsets(base, xs)[k] == base + |Concat(xs[..k])|
    decreases |xs|
  {
    var m := |xs| - 1;
    if k < m {
      OffsetsAt(base, xs[..m], k);
      assert xs[..m][..k] == xs[..k];
    }
  }

  /** The cross-reference table is right: the offset it records for object k is where the file
      has `k 0 obj`. */
  lemma XrefPointsAtObjects(head: seq<byte>, rests: seq<seq<byte>>, k: nat)
    requires 1 <= k <= |rests|
    ensures var d := Assembled(head, rests);
      var off := Offsets(|head|, Framed(rests))[k - 1];
      off + |Encode(ObjStart(k))| <= |d| && d[off..off + |Encode(ObjStart(k))|] == Encode(ObjStart(k))
  {
    var objs := Framed(rests);
    var tail := XrefSection(Offsets(|head|, objs), |head + Concat(objs)|);
    var o := Encode(ObjStart(k));
    var before := head + Concat(objs[..k - 1]);
    var after := Concat(objs[k..]) + tail;
    AroundPiece(head, objs, tail, k - 1);
    assert objs[k - 1] == o + rests[k - 1];
    Regroup(before, o, rests[k - 1], after);
    OffsetsAt(|head|, objs, k - 1);
    Middle(before, o, rests[k - 1] + after);
  }

  /** The bytes of b in the middle of a + b + c. */
  lemma Middle<T>(a: seq<T>, b: seq<T>, c: seq<T>)
    ensures |a| + |b| <= |a + b + c| && (a + b + c)[|a|..|a| + |b|] == b
  {
  }

  lemma Regroup<T>(p: seq<T>, o: seq<T>, r: seq<T>, q: seq<T>)
    ensures p + (o + r) + q == p + o + (r + q)
  {
  }

  /** head, xs one after the other, and tail, cut around xs[k]. */
  lemma AroundPiece(head: seq<byte>, xs: seq<seq<byte>>, tail: seq<byte>, k: nat)
    requires k < |xs|
    ensures head + Concat(xs) + tail == head + Concat(xs[..k]) + xs[k] + (Concat(xs[k + 1..]) + tail)
  {
    ConcatSplit(xs, k);
    ConcatSplit(xs[k..], 1);
    assert xs[k..][..1] == [xs[k]] && xs[k..][1..] == xs[k + 1..];
    assert Concat([xs[k]]) == xs[k] by {
      assert [xs[k]][..0] == [];
    }
    Regroup(head, Concat(xs[..k]), xs[k] + Concat(xs[k + 1..]), tail);
    Regroup(head + Concat(xs[..k]), xs[k], Concat(xs[k + 1..]), tail);
  }

  lemma ConcatTake(xs: seq<seq<byte>>, k: nat)
    requires k < |xs|
    ensures Concat(xs[..k + 1]) == Concat(xs[..k]) + xs[k]
  {
    assert xs[..k + 1][..k] == xs[..k];
  }

  /** Objects appear in ascending number: each starts after the one before it. */
  lemma OffsetsAscend(head: seq<byte>, rests: seq<seq<byte>>, k: nat)
    requires 1 <= k < |rests|
    ensures var offs := Offsets(|head|, Framed(rests)); offs[k - 1] < offs[k]
  {
    var objs := Framed(rests);
    OffsetsAt(|head|, objs, k - 1);
    OffsetsAt(|head|, objs, k);
    assert objs[k - 1] == Encode(ObjStart(k)) + rests[k - 1];
    ConcatTake(objs, k - 1);
  }

  /** `startxref` gives the position of the `xref` keyword. */
  lemma StartXrefPointsAtXref(head: seq<byte>, rests: seq<seq<byte>>)
    ensures var xrefPos := |head + Concat(Framed(rests))|; var d := Assembled(head, rests);
      xrefPos + 5 <= |d| && d[xrefPos..xrefPos + 5] == Encode("xref\n")
  {
    var objs := Framed(rests);
    var body := head + Concat(objs);
    var rest := XrefRest(Offsets(|head|, objs), |body|);
    EncodeAppend("xref\n", rest);
    AppendAssoc(body, Encode("xref\n"), Encode(rest));
    Middle(body, Encode("xref\n"), Encode(rest));
  }

  /** The table and the trailer of a document of n pages both declare 7 + 2n objects, counting
      the free object 0. */
  lemma XrefSize(num: real -> string, compress: seq<byte> -> seq<byte>, pages: seq<string>)
    ensures |Offsets(|Encode(Header)|, Framed(Rests(num, compress, pages)))| + 1 == 7 + 2 * |pages|
  {
  }

  /** Object 1 is the catalog. */
  lemma CatalogIsObject1(num: real -> string, compress: seq<byte> -> seq<byte>, pages: seq<string>)
    ensures Framed(Rests(num, compress, pages))[CatalogNum - 1]
      == Encode(ObjStart(CatalogNum)) + Encode(CatalogRest())
  {
  }

  /** Object 2 is the page tree. */
  lemma PageTreeIsObject2(num: real -> string, compress: seq<byte> -> seq<byte>, pages: seq<string>)
    ensures Framed(Rests(num, compress, pages))[PagesNum - 1]
      == Encode(ObjStart(PagesNum)) + Encode(PagesRest(|pages|))
  {
  }

  /** Objects 3 to 6 are the fonts F1 to F4. */
  lemma FontIsObject(num: real -> string, compress: seq<byte> -> seq<byte>, pages: seq<string>,
                     j: nat)
    requires j < 4
    ensures Framed(Rests(num, compress, pages))[FontNum + j - 1]
      == Encode(ObjStart(FontNum + j)) + Encode(FontRest(j))
  {
  }

  /** Object 7 + i is the page object of page i. */
  lemma PageIsObject(num: real -> string, compress: seq<byte> -> seq<byte>, pages: seq<string>,
                     i: nat)
    requires i < |pages|
    ensures Framed(Rests(num, compress, pages))[PageNum + i - 1]
      == Encode(ObjStart(PageNum + i)) + Encode(PageRest(num, |pages|, i))
  {
    var k := PageNum + i;
    assert Rests(num, compress, pages)[k - 1] == Encode(PageRest(num, |pages|, i)) by {
      assert k - PageNum == i;
    }
  }

  /** Object 7 + n + i is the content stream of page i: between `stream` and `endstream` are the
      compressed bytes of that page, as many as its /Length says. */
  lemma StreamIsObject(num: real -> string, compress: seq<byte> -> seq<byte>, pages: seq<string>,
                       i: nat)
    requires i < |pages|
    ensures var k := PageNum + |pages| + i; var data := compress(Encode(pages[i]));
      Framed(Rests(num, compress, pages))[k - 1]
      == Encode(ObjStart(k)) + (Encode(StreamOpen(|data|)) + data + Encode(StreamClose))
  {
    var k := PageNum + |pages| + i;
    assert Rests(num, compress, pages)[k - 1] == StreamRest(compress(Encode(pages[i]))) by {
      assert k - PageNum - |pages| == i;
    }
  }

  /** The objects of a document of the given pages, group by group: catalog and page tree,
      fonts, page objects, content streams. */
  ghost predicate Shaped(objs: seq<seq<byte>>, num: real -> string, compress: seq<byte> -> seq<byte>,
                         pages: seq<string>)
  {
    |objs| == 6 + 2 * |pages| && HeadShaped(objs, |pages|) && FontsShaped(objs)
    && PagesShaped(objs, num, |pages|) && StreamsShaped(objs, compress, pages)
  }

  ghost predicate HeadShaped(objs: seq<seq<byte>>, n: nat) {
    |objs| >= 2
    && objs[CatalogNum - 1] == Encode(ObjStart(CatalogNum)) + Encode(CatalogRest())
    && objs[PagesNum - 1] == Encode(ObjStart(PagesNum)) + Encode(PagesRest(n))
  }

  ghost predicate FontsShaped(objs: seq<seq<byte>>) {
    forall j :: 0 <= j < 4 && FontNum - 1 + j < |objs| ==>
      objs[FontNum - 1 + j] == Encode(ObjStart(FontNum + j)) + Encode(FontRest(j))
  }

  ghost predicate PagesShaped(objs: seq<seq<byte>>, num: real -> string, n: nat) {
    forall i :: 0 <= i < n && PageNum - 1 + i < |objs| ==>
      objs[PageNum - 1 + i] == Encode(ObjStart(PageNum + i)) + Encode(PageRest(num, n, i))
  }

  ghost predicate StreamsShaped(objs: seq<seq<byte>>, compress: seq<byte> -> seq<byte>,
                                pages: seq<string>)
  {
    forall i :: 0 <= i < |pages| && PageNum - 1 + |pages| + i < |objs| ==>
      objs[PageNum - 1 + |pages| + i]
      == Encode(ObjStart(PageNum + |pages| + i)) + StreamRest(compress(Encode(pages[i])))
  }

  /** The objects of a document are shaped as Build writes them. */
  lemma DocumentShaped(num: real -> string, compress: seq<byte> -> seq<byte>, pages: seq<string>)
    ensures Shaped(Framed(Rests(num, compress, pages)), num, compress, pages)
  {
    var objs := Framed(Rests(num, compress, pages));
    CatalogIsObject1(num, compress, pages);
    PageTreeIsObject2(num, compress, pages);
    FontsAreObjects(num, compress, pages);
    PagesAreObjects(num, compress, pages);
    StreamsAreObjects(num, compress, pages);
  }

  lemma FontsAreObjects(num: real -> string, compress: seq<byte> -> seq<byte>, pages: seq<string>)
    ensures FontsShaped(Framed(Rests(num, compress, pages)))
  {
    forall j | 0 <= j < 4 {
      FontIsObject(num, compress, pages, j);
    }
  }

  lemma PagesAreObjects(num: real -> string, compress: seq<byte> -> seq<byte>, pages: seq<string>)
    ensures PagesShaped(Framed(Rests(num, compress, pages)), num, |pages|)
  {
    forall i | 0 <= i < |pages| {
      PageIsObject(num, compress, pages, i);
    }
  }

  lemma StreamsAreObjects(num: real -> string, compress: seq<byte> -> seq<byte>, pages: seq<string>)
    ensures StreamsShaped(Framed(Rests(num, compress, pages)), compress, pages)
  {
    forall i | 0 <= i < |pages| {
      StreamIsObject(num, compress, pages, i);
    }
  }

  /** Output holds the header and the first m objects, and xref the free entry's 0 and their
      offsets. */
  ghost predicate Wrote(output: seq<byte>, xref: seq<nat>, objs: seq<seq<byte>>, m: nat) {
    m <= |objs| && output == Encode(Header) + Concat(objs[..m])
    && xref == [0] + Offsets(|Encode(Header)|, objs[..m])
  }

  /** Writing the next object after recording its offset keeps Wrote. */
  lemma WroteNext(output: seq<byte>, xref: seq<nat>, objs: seq<seq<byte>>, m: nat)
    requires Wrote(output, xref, objs, m) && m < |objs|
    ensures Wrote(output + objs[m], xref + [|output|], objs, m + 1)
  {
    ConcatTake(objs, m);
    assert objs[..m + 1][..m] == objs[..m];
  }

  /** Once all objects are written, the table and trailer written after them complete the file. */
  lemma WroteAll(output: seq<byte>, xref: seq<nat>, rests: seq<seq<byte>>)
    requires Wrote(output, xref, Framed(rests), |rests|)
    ensures |xref| == |rests| + 1
    ensures Layout(rests) == output + Encode("xref\n") + Encode(XrefOpen(|xref|))
      + Encode(Entries(xref[1..])) + Encode(Trailer(|xref|, |output|))
  {
    var objs := Framed(rests);
    assert objs[..|objs|] == objs;
    var offsets := Offsets(|Encode(Header)|, objs);
    assert xref[1..] == offsets;
    assert Layout(rests) == output + XrefSection(offsets, |output|);
    XrefBytes(offsets, |output|);
    Assoc4(output, Encode("xref\n"), Encode(XrefOpen(|xref|)), Encode(Entries(offsets)),
           Encode(Trailer(|xref|, |output|)));
  }

  lemma AppendAssoc<T>(a: seq<T>, b: seq<T>, c: seq<T>)
    ensures a + (b + c) == a + b + c
  {
  }

  lemma Assoc5<T>(o: seq<T>, a: seq<T>, b: seq<T>, c: seq<T>, d: seq<T>)
    ensures o + a + b + c + d == o + (a + (b + c + d))
  {
  }

  lemma Assoc4<T>(o: seq<T>, a: seq<T>, b: seq<T>, c: seq<T>, d: seq<T>)
    ensures o + (a + b + c + d) == o + a + b + c + d
  {
  }

  lemma XrefBytes(offsets: seq<nat>, pos: nat)
    ensures Encode("xref\n" + XrefRest(offsets, pos)) == Encode("xref\n") + Encode(XrefOpen(|offsets| + 1))
      + Encode(Entries(offsets)) + Encode(Trailer(|offsets| + 1, pos))
  {
    EncodeAppend4("xref\n", XrefOpen(|offsets| + 1), Entries(offsets), Trailer(|offsets| + 1, pos));
  }

  lemma EncodeAppend4(w: string, a: string, b: string, c: string)
    ensures Encode(w + (a + b + c)) == Encode(w) + Encode(a) + Encode(b) + Encode(c)
  {
    EncodeAppend(w, a + b + c);
    EncodeAppend(a + b, c);
    EncodeAppend(a, b);
  }

  /** The page tree's bytes, as Build writes them piece by piece. */
  lemma PagesRestBytes(n: nat)
    ensures Encode(PagesRest(n)) == Encode(PagesOpen) + Encode(Kids(PageNum, n)) + Encode(PagesClose(n))
  {
    EncodeAppend(PagesOpen + Kids(PageNum, n), PagesClose(n));
    EncodeAppend(PagesOpen, Kids(PageNum, n));
  }

  lemma EntriesNext(offsets: seq<nat>, i: nat)
    requires i < |offsets|
    ensures Entries(offsets[..i + 1]) == Entries(offsets[..i]) + Entry(offsets[i])
  {
    assert offsets[..i + 1][..i] == offsets[..i];
  }

  /** The page tree lists the page objects in page order: the references to the first i pages
      come first. */
  lemma {:induction false} KidsInOrder(start: nat, i: nat, n: nat)
    requires i <= n
    ensures Kids(start, i) <= Kids(start, n)
    decreases n
  {
    if i < n {
      KidsInOrder(start, i, n - 1);
    }
  }

  /** Entry k of the table is the ten-digit offset of object k + 1, which reads back as that
      offset. */
  lemma EntryAt(offsets: seq<nat>, k: nat)
    requires k < |offsets|
    requires forall j :: 0 <= j < |offsets| ==> offsets[j] < 10000000000
    ensures |Entries(offsets)| == 20 * |offsets|
    ensures Entries(offsets)[20 * k..20 * k + 10] == Dec10(offsets[k])
    ensures DecValue(Entries(offsets)[20 * k..20 * k + 10]) == offsets[k]
  {
    forall j | 0 <= j < |offsets| ensures |Entry(offsets[j])| == 20 {
      EntryShape(offsets[j]);
    }
    JoinedAt(Entry, offsets, k);
    EntryShape(offsets[k]);
    Dec10RoundTrip(offsets[k]);
  }

  lemma EntryShape(offset: nat)
    requires offset < 10000000000
    ensures |Entry(offset)| == 20 && Entry(offset)[..10] == Dec10(offset)
  {
    Dec10Width(offset);
  }

  /** Pieces of width 20 joined: piece k sits at 20 k. */
  lemma {:induction false} JoinedAt<T>(f: T -> string, xs: seq<T>, k: nat)
    requires k < |xs|
    requires forall j :: 0 <= j < |xs| ==> |f(xs[j])| == 20
    ensures |Joined(f, xs)| == 20 * |xs|
    ensures Joined(f, xs)[20 * k..20 * k + 20] == f(xs[k])
    decreases |xs|
  {
    var m := |xs| - 1;
    var init := xs[..m];
    if k < m {
      JoinedAt(f, init, k);
      assert Joined(f, xs)[20 * k..20 * k + 20] == Joined(f, init)[20 * k..20 * k + 20];
    } else if m > 0 {
      JoinedAt(f, init, 0);
    } else {
      assert init == [];
    }
  }

  /** An offset below 10^10 prints in exactly ten digits. */
  lemma Dec10Width(n: nat)
    requires n < 10000000000
    ensures |Dec10(n)| == 10
  {
    DecWidth(n, 10000000000, 10);
  }

  lemma {:induction false} DecWidth(n: nat, bound: nat, w: nat)
    requires w >= 1 && n < bound && bound == Pow10(w)
    ensures |Dec(n)| <= w
    decreases w
  {
    if n >= 10 {
      DecWidth(n / 10, bound / 10, w - 1);
    }
  }

  function Pow10(w: nat): nat {
    if w == 0 then 1 else 10 * Pow10(w - 1)
  }
}
