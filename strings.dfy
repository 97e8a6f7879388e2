/** The parts of Go's `strings`, `unicode`, `unicode/utf8` and `fmt` packages that the converter
    relies on. Text is a sequence of runes (Unicode scalar values); where Go measures a string
    in bytes, ByteLen gives its UTF-8 length. */
module Strings {

  newtype byte = b: int | 0 <= b < 256

  datatype Option<T> = None | Some(value: T)

  /** Go's unicode.IsSpace. */
  predicate IsSpace(c: char) {
    var n := c as int;
    (9 <= n <= 13) || n == 32 || n == 0x85 || n == 0xA0 || n == 0x1680
    || (0x2000 <= n <= 0x200A) || n == 0x2028 || n == 0x2029 || n == 0x202F
    || n == 0x205F || n == 0x3000
  }

  /** Every rune of s is c. */
  predicate AllOf(s: string, c: char) {
    forall i :: 0 <= i < |s| ==> s[i] == c
  }

  /** No leading or trailing white space: what TrimSpace leaves. */
  predicate Trimmed(s: string) {
    s == [] || (!IsSpace(s[0]) && !IsSpace(s[|s| - 1]))
  }

  /** Text that starts with a non-space stays trimmed when it is put in front of trimmed text. */
  lemma TrimmedPrepend(p: string, s: string)
    requires p != [] && !IsSpace(p[0]) && s != [] && Trimmed(s)
    ensures Trimmed(p + s)
  {
    assert (p + s)[0] == p[0];
    assert (p + s)[|p + s| - 1] == s[|s| - 1];
  }

  predicate AllSpace(s: string) {
    forall i :: 0 <= i < |s| ==> IsSpace(s[i])
  }

  predicate NoSpace(s: string) {
    forall i :: 0 <= i < |s| ==> !IsSpace(s[i])
  }

  /** A field of strings.Fields: a non-empty run of non-space runes. */
  predicate IsWord(w: string) {
    w != [] && NoSpace(w)
  }

  function TrimLeftSpace(s: string): (r: string)
    ensures |r| <= |s|
    ensures r == [] || !IsSpace(r[0])
  {
    if s != [] && IsSpace(s[0]) then TrimLeftSpace(s[1..]) else s
  }

  function TrimRightSpace(s: string): (r: string)
    ensures r <= s
    ensures r == [] || !IsSpace(r[|r| - 1])
  {
    if s != [] && IsSpace(s[|s| - 1]) then TrimRightSpace(s[..|s| - 1]) else s
  }

  /** strings.TrimSpace: removes leading and trailing white space. */
  function TrimSpace(s: string): (r: string)
    ensures r == [] || (!IsSpace(r[0]) && !IsSpace(r[|r| - 1]))
  {
    var l := TrimLeftSpace(s);
    var r := TrimRightSpace(l);
    assert r != [] ==> r[0] == l[0];
    r
  }

  /** TrimLeftSpace keeps a suffix of its input. */
  lemma {:induction false} TrimLeftSpaceSuffix(s: string)
    ensures TrimLeftSpace(s) == s[|s| - |TrimLeftSpace(s)|..]
    decreases |s|
  {
    if s != [] && IsSpace(s[0]) {
      TrimLeftSpaceSuffix(s[1..]);
    }
  }

  /** TrimSpace leaves nothing exactly when the string is all white space. */
  lemma TrimSpaceEmpty(s: string)
    ensures TrimSpace(s) == [] <==> AllSpace(s)
  {
    var l := TrimLeftSpace(s);
    TrimLeftSpaceSuffix(s);
    TrimLeftSpaceDrops(s);
    TrimRightSpaceDrops(l);
    if TrimSpace(s) == [] {
      assert s == s[..|s| - |l|] + l;
    }
  }

  lemma {:induction false} TrimLeftSpaceDrops(s: string)
    ensures AllSpace(s[..|s| - |TrimLeftSpace(s)|])
    decreases |s|
  {
    if s != [] && IsSpace(s[0]) {
      TrimLeftSpaceDrops(s[1..]);
      assert s[..|s| - |TrimLeftSpace(s)|] == [s[0]] + s[1..][..|s| - 1 - |TrimLeftSpace(s[1..])|];
    }
  }

  lemma {:induction false} TrimRightSpaceDrops(s: string)
    ensures AllSpace(s[|TrimRightSpace(s)|..])
    decreases |s|
  {
    if s != [] && IsSpace(s[|s| - 1]) {
      TrimRightSpaceDrops(s[..|s| - 1]);
      assert s[|TrimRightSpace(s)|..] == s[..|s| - 1][|TrimRightSpace(s)|..] + [s[|s| - 1]];
    }
  }

  /** strings.TrimLeft with a one-rune cut set. */
  function TrimLeftChar(s: string, c: char): (r: string)
    ensures |r| <= |s|
    ensures r == [] || r[0] != c
  {
    if s != [] && s[0] == c then TrimLeftChar(s[1..], c) else s
  }

  /** strings.TrimRight with a one-rune cut set. */
  function TrimRightChar(s: string, c: char): (r: string)
    ensures r <= s
    ensures r == [] || r[|r| - 1] != c
  {
    if s != [] && s[|s| - 1] == c then TrimRightChar(s[..|s| - 1], c) else s
  }

  /** strings.Trim with a one-rune cut set. */
  function TrimChar(s: string, c: char): string {
    TrimRightChar(TrimLeftChar(s, c), c)
  }

  /** strings.TrimPrefix. */
  function TrimPrefix(s: string, p: string): (r: string)
    ensures p <= s ==> s == p + r
    ensures !(p <= s) ==> r == s
  {
    if p <= s then s[|p|..] else s
  }

  /** strings.HasSuffix. */
  predicate HasSuffix(s: string, suffix: string) {
    |suffix| <= |s| && s == s[..|s| - |suffix|] + suffix
  }

  /** strings.ReplaceAll(s, string(c), ""). */
  function RemoveChar(s: string, c: char): (r: string)
    ensures |r| <= |s|
    ensures c !in r
    ensures forall x :: x != c ==> (x in r <==> x in s)
    ensures multiset(r) == multiset(s)[c := 0]
  {
    if s == [] then []
    else
      assert s == [s[0]] + s[1..];
      if s[0] == c then RemoveChar(s[1..], c)
      else [s[0]] + RemoveChar(s[1..], c)
  }

  /** Removing a rune distributes over concatenation, so the kept runes stay in order. */
  lemma {:induction false} RemoveCharAppend(a: string, b: string, c: char)
    ensures RemoveChar(a + b, c) == RemoveChar(a, c) + RemoveChar(b, c)
  {
    if a != [] {
      assert (a + b)[1..] == a[1..] + b;
      RemoveCharAppend(a[1..], b, c);
    } else {
      assert a + b == b;
    }
  }

  predicate OccursAt(s: string, pat: string, j: int) {
    0 <= j && j + |pat| <= |s| && s[j..j + |pat|] == pat
  }

  /** strings.Index for a non-empty pattern: the first occurrence, or -1 (IndexIsFirst). */
  function Index(s: string, pat: string): (r: int)
    requires pat != []
    ensures r == -1 || 0 <= r <= |s| - |pat|
    ensures r >= 0 ==> OccursAt(s, pat, r)
  {
    IndexFrom(s, pat, 0)
  }

  /** No occurrence of the pattern starts before the index Index returns. */
  lemma IndexIsFirst(s: string, pat: string, j: int)
    requires pat != [] && 0 <= j
    requires Index(s, pat) == -1 || j < Index(s, pat)
    ensures !OccursAt(s, pat, j)
  {
    IndexFromIsFirst(s, pat, 0, j);
  }

  /** An occurrence in a suffix is an occurrence in the whole string, shifted. */
  lemma OccursShift(s: string, pat: string, k: nat, j: int)
    requires k <= |s|
    ensures OccursAt(s[k..], pat, j) <==> 0 <= j && OccursAt(s, pat, k + j)
  {
    if 0 <= j && j + |pat| <= |s| - k {
      assert s[k..][j..j + |pat|] == s[k + j..k + j + |pat|];
    }
  }

  /** Index on the suffix from k finds the first occurrence in s at or after k. */
  lemma IndexAfter(s: string, pat: string, k: nat)
    requires pat != [] && k <= |s|
    ensures Index(s[k..], pat) == -1 ==> forall j :: k <= j ==> !OccursAt(s, pat, j)
    ensures Index(s[k..], pat) != -1 ==>
              OccursAt(s, pat, k + Index(s[k..], pat))
              && forall j :: k <= j < k + Index(s[k..], pat) ==> !OccursAt(s, pat, j)
  {
    var r := Index(s[k..], pat);
    if r != -1 {
      OccursShift(s, pat, k, r);
    }
    forall j | k <= j && (r == -1 || j < k + r)
      ensures !OccursAt(s, pat, j)
    {
      IndexIsFirst(s[k..], pat, j - k);
      OccursShift(s, pat, k, j - k);
    }
  }

  /** Index of a one-rune pattern on the suffix from k: the first position at or after k
      holding that rune, or -1 when there is none. */
  lemma IndexRuneAfter(s: string, c: char, k: nat)
    requires k <= |s|
    ensures Index(s[k..], [c]) == -1 ==> forall j :: k <= j < |s| ==> s[j] != c
    ensures Index(s[k..], [c]) != -1 ==>
              var e := k + Index(s[k..], [c]);
              e < |s| && s[e] == c && forall j :: k <= j < e ==> s[j] != c
  {
    IndexAfter(s, [c], k);
    forall j | k <= j < |s|
      ensures OccursAt(s, [c], j) <==> s[j] == c
    {
      assert s[j..j + 1] == [s[j]];
    }
  }

  /** The first occurrence is what Index returns. */
  lemma IndexOfFirst(s: string, pat: string, r: nat)
    requires pat != [] && OccursAt(s, pat, r)
    requires forall j :: 0 <= j < r ==> !OccursAt(s, pat, j)
    ensures Index(s, pat) == r
  {
    var x := Index(s, pat);
    if x == -1 || r < x {
      IndexIsFirst(s, pat, r);
    }
  }

  /** The first occurrence at or after k, or -1. */
  function IndexFrom(s: string, pat: string, k: nat): (r: int)
    requires pat != []
    ensures r == -1 || k <= r <= |s| - |pat|
    ensures r >= 0 ==> OccursAt(s, pat, r)
    decreases |s| - k
  {
    if k + |pat| > |s| then -1
    else if s[k..k + |pat|] == pat then k
    else IndexFrom(s, pat, k + 1)
  }

  lemma {:induction false} IndexFromIsFirst(s: string, pat: string, k: nat, j: int)
    requires pat != [] && k <= j
    requires IndexFrom(s, pat, k) == -1 || j < IndexFrom(s, pat, k)
    ensures !OccursAt(s, pat, j)
    decreases |s| - k
  {
    if k + |pat| <= |s| && s[k..k + |pat|] != pat && k < j {
      IndexFromIsFirst(s, pat, k + 1, j);
    }
  }

  /** strings.Split with a one-rune separator: the pieces between separators, always at least one. */
  function Split(s: string, sep: char): (r: seq<string>)
    ensures |r| >= 1
  {
    if s == [] then [[]]
    else
      var rest := Split(s[1..], sep);
      if s[0] == sep then [[]] + rest else [[s[0]] + rest[0]] + rest[1..]
  }

  /** strings.Join. */
  function Join(ss: seq<string>, sep: string): string {
    if ss == [] then []
    else if |ss| == 1 then ss[0]
    else ss[0] + sep + Join(ss[1..], sep)
  }

  /** The longest prefix of s that holds no white space. */
  function LeadingWord(s: string): (w: string)
    ensures w <= s && NoSpace(w)
    ensures |w| < |s| ==> IsSpace(s[|w|])
  {
    if s == [] || IsSpace(s[0]) then [] else [s[0]] + LeadingWord(s[1..])
  }

  /** strings.Fields: the maximal runs of non-space runes, in order. */
  function Fields(s: string): (ws: seq<string>)
    ensures forall k :: 0 <= k < |ws| ==> IsWord(ws[k])
    decreases |s|
  {
    if s == [] then []
    else if IsSpace(s[0]) then Fields(s[1..])
    else
      var w := LeadingWord(s);
      [w] + Fields(s[|w|..])
  }

  /** Number of UTF-8 bytes that encode c. */
  function Utf8Len(c: char): nat {
    var n := c as int;
    if n < 0x80 then 1 else if n < 0x800 then 2 else if n < 0x10000 then 3 else 4
  }

  /** len(s) in Go: the UTF-8 length of s. */
  function ByteLen(s: string): nat {
    if s == [] then 0 else Utf8Len(s[0]) + ByteLen(s[1..])
  }

  /** The UTF-8 encoding of one rune. */
  function Utf8Bytes(c: char): (r: seq<byte>)
    ensures |r| == Utf8Len(c)
  {
    var n := c as int;
    if n < 0x80 then [n as byte]
    else if n < 0x800 then [(0xC0 + n / 64) as byte, (0x80 + n % 64) as byte]
    else if n < 0x10000 then
      [(0xE0 + n / 4096) as byte, (0x80 + (n / 64) % 64) as byte, (0x80 + n % 64) as byte]
    else
      [(0xF0 + n / 262144) as byte, (0x80 + (n / 4096) % 64) as byte,
       (0x80 + (n / 64) % 64) as byte, (0x80 + n % 64) as byte]
  }

  /** []byte(s): the UTF-8 encoding of a string. */
  function Encode(s: string): (r: seq<byte>)
    ensures |r| == ByteLen(s)
  {
    if s == [] then [] else Utf8Bytes(s[0]) + Encode(s[1..])
  }

  predicate IsDigit(c: char) {
    '0' <= c <= '9'
  }

  predicate AllDigits(s: string) {
    forall i :: 0 <= i < |s| ==> IsDigit(s[i])
  }

  function DigitChar(d: nat): (c: char)
    requires d < 10
    ensures IsDigit(c) && c as int - '0' as int == d
  {
    ('0' as int + d) as char
  }

  /** fmt's %d of a non-negative integer. */
  function Dec(n: nat): (r: string)
    ensures r != [] && AllDigits(r)
  {
    if n < 10 then [DigitChar(n)] else Dec(n / 10) + [DigitChar(n % 10)]
  }

  /** fmt's %010d of a non-negative integer: zero-padded on the left to at least ten digits. */
  function Dec10(n: nat): (r: string)
    ensures AllDigits(r) && |r| >= 10
  {
    var d := Dec(n);
    if |d| >= 10 then d else Zeros(10 - |d|) + d
  }

  function Zeros(k: nat): (r: string)
    ensures |r| == k && AllDigits(r)
    ensures forall i :: 0 <= i < k ==> r[i] == '0'
  {
    if k == 0 then [] else "0" + Zeros(k - 1)
  }

  /** The value of a string of decimal digits, as a reader of the number would compute it. */
  function DecValue(s: string): nat
    requires AllDigits(s)
  {
    if s == [] then 0 else DecValue(s[..|s| - 1]) * 10 + (s[|s| - 1] as int - '0' as int)
  }

  // ---------------------------------------------------------------------------------------------
  // Properties

  /** TrimSpace removes exactly the white space around a trimmed core. */
  lemma TrimSpaceAround(a: string, x: string, b: string)
    requires AllSpace(a) && AllSpace(b) && Trimmed(x)
    ensures TrimSpace(a + x + b) == x
  {
    if x == [] {
      assert AllSpace(a + x + b);
      TrimSpaceEmpty(a + x + b);
    } else {
      TrimLeftSpaceOf(a, x + b);
      assert a + x + b == a + (x + b);
      TrimRightSpaceOf(x, b);
    }
  }

  lemma TrimSpaceOfTrimmed(s: string)
    requires Trimmed(s)
    ensures TrimSpace(s) == s
  {
    TrimSpaceAround([], s, []);
    assert [] + s + [] == s;
  }

  lemma {:induction false} TrimLeftSpaceOf(a: string, y: string)
    requires AllSpace(a)
    requires y == [] || !IsSpace(y[0])
    ensures TrimLeftSpace(a + y) == y
    decreases |a|
  {
    if a == [] {
      assert a + y == y;
    } else {
      assert (a + y)[1..] == a[1..] + y;
      TrimLeftSpaceOf(a[1..], y);
    }
  }

  lemma {:induction false} TrimRightSpaceOf(x: string, b: string)
    requires AllSpace(b)
    requires x == [] || !IsSpace(x[|x| - 1])
    ensures TrimRightSpace(x + b) == x
    decreases |b|
  {
    if b == [] {
      assert x + b == x;
    } else {
      assert (x + b)[..|x + b| - 1] == x + b[..|b| - 1];
      TrimRightSpaceOf(x, b[..|b| - 1]);
    }
  }

  /** strings.Trim(s, c) is empty exactly when every rune of s is c. */
  lemma TrimCharEmpty(s: string, c: char)
    ensures TrimChar(s, c) == [] <==> AllOf(s, c)
  {
    TrimLeftCharAll(s, c);
    var l := TrimLeftChar(s, c);
    if l != [] {
      TrimRightCharKeepsFirst(l, c);
    }
  }

  lemma {:induction false} TrimLeftCharAll(s: string, c: char)
    ensures TrimLeftChar(s, c) == [] <==> AllOf(s, c)
    decreases |s|
  {
    if s != [] && s[0] == c {
      TrimLeftCharAll(s[1..], c);
      assert AllOf(s, c) <==> AllOf(s[1..], c);
    }
  }

  lemma {:induction false} TrimRightCharKeepsFirst(s: string, c: char)
    requires s != [] && s[0] != c
    ensures TrimRightChar(s, c) != []
    decreases |s|
  {
    if s[|s| - 1] == c {
      TrimRightCharKeepsFirst(s[..|s| - 1], c);
    }
  }

  /** strings.Trim(c + x + c, c) is x when x neither starts nor ends with c. */
  lemma TrimCharAround(c: char, x: string)
    requires x != [] && x[0] != c && x[|x| - 1] != c
    ensures TrimChar([c] + x + [c], c) == x
  {
    assert ([c] + x + [c])[1..] == x + [c];
    assert TrimLeftChar(x + [c], c) == x + [c];
    assert TrimLeftChar([c] + x + [c], c) == x + [c];
    assert (x + [c])[..|x|] == x;
    assert TrimRightChar(x, c) == x;
  }

  lemma {:induction false} SplitWithoutSeparator(s: string, sep: char)
    requires sep !in s
    ensures Split(s, sep) == [s]
  {
    if s != [] {
      SplitWithoutSeparator(s[1..], sep);
      assert [s[0]] + s[1..] == s;
    }
  }

  lemma {:induction false} SplitAfterPiece(a: string, sep: char, b: string)
    requires sep !in a
    ensures Split(a + [sep] + b, sep) == [a] + Split(b, sep)
  {
    if a == [] {
      assert ([sep] + b)[1..] == b;
    } else {
      SplitAfterPiece(a[1..], sep, b);
      assert (a + [sep] + b)[1..] == a[1..] + [sep] + b;
      assert (a + [sep] + b)[0] == a[0];
      assert [a[0]] + a[1..] == a;
    }
  }

  /** Splitting a join on a separator no piece contains gives the pieces back. */
  lemma {:induction false} SplitJoin(xs: seq<string>, sep: char)
    requires |xs| >= 1
    requires forall k :: 0 <= k < |xs| ==> sep !in xs[k]
    ensures Split(Join(xs, [sep]), sep) == xs
  {
    if |xs| == 1 {
      SplitWithoutSeparator(xs[0], sep);
    } else {
      SplitJoin(xs[1..], sep);
      SplitAfterPiece(xs[0], sep, Join(xs[1..], [sep]));
      assert Join(xs, [sep]) == xs[0] + [sep] + Join(xs[1..], [sep]);
    }
  }

  /** Split cuts at every separator and loses nothing: no piece holds the separator, and
      joining the pieces with it rebuilds the string. */
  lemma {:induction false} SplitPieces(s: string, sep: char)
    ensures forall k :: 0 <= k < |Split(s, sep)| ==> sep !in Split(s, sep)[k]
    ensures Join(Split(s, sep), [sep]) == s
  {
    if s != [] {
      SplitPieces(s[1..], sep);
      var rest := Split(s[1..], sep);
      if s[0] == sep {
        assert Join([[]] + rest, [sep]) == [] + [sep] + Join(rest, [sep]);
      } else {
        var r := Split(s, sep);
        assert r[1..] == rest[1..];
        if |rest| == 1 {
          assert Join(r, [sep]) == [s[0]] + rest[0];
        } else {
          assert Join(rest, [sep]) == rest[0] + [sep] + Join(rest[1..], [sep]);
          assert Join(r, [sep]) == ([s[0]] + rest[0]) + [sep] + Join(rest[1..], [sep]);
        }
      }
    }
  }

  lemma {:induction false} LeadingWordOf(w: string, t: string)
    requires NoSpace(w)
    requires t == [] || IsSpace(t[0])
    ensures LeadingWord(w + t) == w
  {
    if w != [] {
      LeadingWordOf(w[1..], t);
      assert (w + t)[1..] == w[1..] + t;
    }
  }

  lemma {:induction false} FieldsAfterSpace(sp: string, s: string)
    requires AllSpace(sp)
    ensures Fields(sp + s) == Fields(s)
  {
    if sp != [] {
      FieldsAfterSpace(sp[1..], s);
      assert (sp + s)[1..] == sp[1..] + s;
    } else {
      assert sp + s == s;
    }
  }

  /** A word followed by white space is the first field. */
  lemma FieldsAfterWord(w: string, sp: string, s: string)
    requires IsWord(w) && sp != [] && AllSpace(sp)
    ensures Fields(w + sp + s) == [w] + Fields(s)
  {
    LeadingWordOf(w, sp + s);
    assert w + sp + s == w + (sp + s);
    assert (w + (sp + s))[|w|..] == sp + s;
    FieldsAfterSpace(sp, s);
  }

  /** Joining words with single spaces and splitting the result into fields gives the words back. */
  lemma {:induction false} FieldsJoin(ws: seq<string>)
    requires forall k :: 0 <= k < |ws| ==> IsWord(ws[k])
    ensures Fields(Join(ws, " ")) == ws
  {
    if |ws| == 1 {
      LeadingWordOf(ws[0], []);
      assert ws[0] + [] == ws[0];
      assert ws[0][|ws[0]|..] == [];
    } else if |ws| > 1 {
      FieldsJoin(ws[1..]);
      FieldsAfterWord(ws[0], " ", Join(ws[1..], " "));
    }
  }

  lemma {:induction false} ByteLenAppend(a: string, b: string)
    ensures ByteLen(a + b) == ByteLen(a) + ByteLen(b)
  {
    if a != [] {
      ByteLenAppend(a[1..], b);
      assert (a + b)[1..] == a[1..] + b;
    } else {
      assert a + b == b;
    }
  }

  lemma {:induction false} EncodeAppend(a: string, b: string)
    ensures Encode(a + b) == Encode(a) + Encode(b)
  {
    if a != [] {
      EncodeAppend(a[1..], b);
      assert (a + b)[1..] == a[1..] + b;
    } else {
      assert a + b == b;
    }
  }

  /** Reading back what %d printed gives the number. */
  lemma {:induction false} DecRoundTrip(n: nat)
    ensures DecValue(Dec(n)) == n
  {
    if n >= 10 {
      DecRoundTrip(n / 10);
      var d := Dec(n);
      assert d[..|d| - 1] == Dec(n / 10);
    }
  }

  lemma {:induction false} DecValueLeadingZeros(z: string, s: string)
    requires forall i :: 0 <= i < |z| ==> z[i] == '0'
    requires AllDigits(s)
    ensures AllDigits(z + s) && DecValue(z + s) == DecValue(s)
  {
    if s == [] {
      assert z + s == z;
      if z != [] {
        DecValueLeadingZeros(z[..|z| - 1], []);
        assert z[..|z| - 1] + [] == z[..|z| - 1];
      }
    } else {
      DecValueLeadingZeros(z, s[..|s| - 1]);
      assert (z + s)[..|z + s| - 1] == z + s[..|s| - 1];
    }
  }

  /** Reading back what %010d printed gives the number. */
  lemma Dec10RoundTrip(n: nat)
    ensures DecValue(Dec10(n)) == n
  {
    DecRoundTrip(n);
    var d := Dec(n);
    if |d| < 10 {
      DecValueLeadingZeros(Zeros(10 - |d|), d);
    }
  }
}
