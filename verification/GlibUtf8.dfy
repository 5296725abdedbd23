/** The one- to six-byte forms of 32-bit words. */
module GlibUtf8 {
  // Section 2 of RFC 2279 gives the table; its last row is extended to every 32-bit word.

  import opened Bytes
  import opened Sequences
  import opened Outcomes
  import Lexicographic

  type Word = w: int | 0 <= w < WORD_COUNT

  datatype Shape = Shape(limit: int, first: int, length: nat)

  const SHAPES := [Shape(0x80, 0, 1), Shape(0x800, 0xC0, 2), Shape(0x1_0000, 0xE0, 3),
                   Shape(0x20_0000, 0xF0, 4), Shape(0x400_0000, 0xF8, 5), Shape(WORD_COUNT, 0xFC, 6)]

  /** The index of the first row whose limit is above the word. */
  function ShapeIndex(w: Word): (i: nat)
    ensures i < 6 && w < SHAPES[i].limit && (i > 0 ==> w >= SHAPES[i - 1].limit)
  {
    if w < 0x80 then 0 else if w < 0x800 then 1 else if w < 0x1_0000 then 2
    else if w < 0x20_0000 then 3 else if w < 0x400_0000 then 4 else 5
  }

  /** `r * 64^n`. */
  function Scaled(r: nat, n: nat): (p: nat) {
    if n == 0 then r else 64 * Scaled(r, n - 1)
  }

  /** A lead byte over `n` continuation bytes of six bits each. */
  function Form(first: byte, n: nat, w: nat): (d: Data)
    requires w < Scaled(256 - first, n)
    ensures |d| == n + 1
  {
    if n == 0 then [first + w] else Form(first, n - 1, w / 64) + [0x80 + w % 64]
  }

  /** How many lead bytes each row may use. */
  function Leads(i: nat): (r: nat)
    requires i < 6
    ensures 0 < r && SHAPES[i].first + r <= 256
    ensures i < 5 ==> SHAPES[i].first + r <= SHAPES[i + 1].first
  {
    [128, 32, 16, 8, 4, 4][i]
  }

  lemma RowFits(i: nat)
    requires i < 6
    ensures Scaled(Leads(i), SHAPES[i].length - 1) == SHAPES[i].limit
  {
    assert Scaled(32, 1) == 0x800 && Scaled(16, 2) == 0x1_0000 by { assert Scaled(16, 1) == 1024; }
    assert Scaled(8, 3) == 0x20_0000 by { assert Scaled(8, 1) == 512 && Scaled(8, 2) == 32768; }
    assert Scaled(4, 1) == 256 && Scaled(4, 2) == 16384 && Scaled(4, 3) == 0x10_0000 && Scaled(4, 4) == 0x400_0000;
    assert Scaled(4, 5) == WORD_COUNT;
  }

  lemma {:induction false} ScaledGrows(r: nat, s: nat, n: nat)
    requires r <= s
    ensures Scaled(r, n) <= Scaled(s, n)
  {
    if n > 0 { ScaledGrows(r, s, n - 1); }
  }

  lemma WordFits(w: Word)
    ensures var row := SHAPES[ShapeIndex(w)];
      && w < Scaled(Leads(ShapeIndex(w)), row.length - 1) <= Scaled(256 - row.first, row.length - 1)
  {
    var i := ShapeIndex(w);
    RowFits(i);
    ScaledGrows(Leads(i), 256 - SHAPES[i].first, SHAPES[i].length - 1);
  }

  function EncodeWord(w: Word): (d: Data)
    ensures |d| == SHAPES[ShapeIndex(w)].length
  {
    WordFits(w);
    var row := SHAPES[ShapeIndex(w)];
    Form(row.first, row.length - 1, w)
  }

  function EncodeWords(ws: seq<Word>): (d: Data) {
    if ws == [] then [] else EncodeWord(ws[0]) + EncodeWords(ws[1..])
  }

  // ---- the loops of the source ----

  method FindShape(w: Word) returns (row: Shape)
    ensures row == SHAPES[ShapeIndex(w)]
  {
    var i := 0;
    row := SHAPES[0];
    while true
      invariant i < 6 && row == SHAPES[i]
      invariant i > 0 ==> w >= SHAPES[i - 1].limit
      decreases 6 - i
    {
      if w < row.limit { break; }
      i := i + 1;
      row := SHAPES[i];
    }
    assert i == ShapeIndex(w);
  }

  lemma OneDigit(first: byte, n: nat, word: nat, tail: Data)
    requires n > 0 && word < Scaled(256 - first, n)
    ensures Form(first, n, word) + Reversed(tail) == Form(first, n - 1, word / 64) + Reversed(tail + [0x80 + word % 64])
  {
    ReversedSnoc(tail, 0x80 + word % 64);
  }

  lemma EncodeStart(w: Word, row: Shape)
    requires row == SHAPES[ShapeIndex(w)]
    ensures 0 <= row.first < 256 && row.length >= 1 && w < Scaled(256 - row.first, row.length - 1)
    ensures EncodeWord(w) == Form(row.first, row.length - 1, w) + Reversed([])
  {
    WordFits(w);
  }

  lemma NoDigits(first: byte, word: nat)
    requires word < Scaled(256 - first, 0)
    ensures first + word < 256 && Form(first, 0, word) == [first + word]
  {
  }

  method EncodeOne(w: Word) returns (d: Data)
    ensures d == EncodeWord(w)
  {
    hide EncodeWord, Form, Reversed, SHAPES, ShapeIndex;
    var row := FindShape(w);
    EncodeStart(w, row);
    var tail: Data := [];
    var word: nat := w;
    var n := row.length - 1;
    while n > 0
      invariant 0 <= n <= row.length - 1 && word < Scaled(256 - row.first, n)
      invariant Form(row.first, n, word) + Reversed(tail) == EncodeWord(w)
    {
      OneDigit(row.first, n, word, tail);
      tail := tail + [0x80 + word % 64];
      word := word / 64;
      n := n - 1;
    }
    NoDigits(row.first, word);
    d := [row.first + word] + Reversed(tail);
  }

  method Encode(words: seq<Word>) returns (out: Data)
    ensures out == EncodeWords(words)
  {
    out := [];
    for i := 0 to |words|
      invariant out + EncodeWords(words[i..]) == EncodeWords(words)
    {
      var d := EncodeOne(words[i]);
      assert words[i..][0] == words[i] && words[i..][1..] == words[i + 1..];
      assert out + (d + EncodeWords(words[i + 1..])) == (out + d) + EncodeWords(words[i + 1..]);
      out := out + d;
    }
    assert words[|words|..] == [] && out + [] == out;
  }

  // ---- decoding ----

  /** The row a lead byte belongs to; none for a continuation byte. */
  function RowOfLead(b: byte): (i: Option<nat>)
    ensures i.Some? ==> i.value < 6 && SHAPES[i.value].first <= b < SHAPES[i.value].first + Leads(i.value)
  {
    if b < 0x80 then Some(0) else if b < 0xC0 then None else if b < 0xE0 then Some(1) else if b < 0xF0 then Some(2)
    else if b < 0xF8 then Some(3) else if b < 0xFC then Some(4) else Some(5)
  }

  function Value(first: byte, d: Data): (w: int)
    requires d != []
  {
    if |d| == 1 then d[0] as int - first as int else 64 * Value(first, d[..|d| - 1]) + (d[|d| - 1] as int - 0x80)
  }

  /** The words of an encoding. */
  function Decode(d: Data): (r: Option<seq<int>>)
    decreases |d|
  {
    if d == [] then Some([])
    else match RowOfLead(d[0])
      case None => None
      case Some(i) =>
        var n := SHAPES[i].length;
        if |d| < n then None
        else match Decode(d[n..])
          case None => None
          case Some(rest) => Some([Value(SHAPES[i].first, d[..n])] + rest)
  }

  lemma {:induction false} FormLead(first: byte, n: nat, w: nat, r: nat)
    requires w < Scaled(r, n) && first + r <= 256 && w < Scaled(256 - first, n)
    ensures first <= Form(first, n, w)[0] < first + r
  {
    if n > 0 { FormLead(first, n - 1, w / 64, r); }
  }

  lemma {:induction false} FormValue(first: byte, n: nat, w: nat)
    requires w < Scaled(256 - first, n)
    ensures Value(first, Form(first, n, w)) == w
  {
    if n > 0 {
      FormValue(first, n - 1, w / 64);
      var d := Form(first, n, w);
      assert d[..|d| - 1] == Form(first, n - 1, w / 64);
    }
  }

  lemma LeadOfWord(w: Word)
    ensures RowOfLead(EncodeWord(w)[0]) == Some(ShapeIndex(w))
  {
    var i := ShapeIndex(w);
    WordFits(w);
    FormLead(SHAPES[i].first, SHAPES[i].length - 1, w, Leads(i));
  }

  /** Decoding returns the words. */
  lemma {:induction false} DecodeInverts(ws: seq<Word>)
    ensures Decode(EncodeWords(ws)) == Some(ws)
  {
    if ws != [] {
      var w := ws[0];
      var i := ShapeIndex(w);
      LeadOfWord(w);
      WordFits(w);
      FormValue(SHAPES[i].first, SHAPES[i].length - 1, w);
      DecodeInverts(ws[1..]);
      var d := EncodeWords(ws);
      var n := SHAPES[i].length;
      assert d[0] == EncodeWord(w)[0] && d[..n] == EncodeWord(w) && d[n..] == EncodeWords(ws[1..]);
      assert ws == [w] + ws[1..];
    }
  }

  /** No word's form is a prefix of another's, so a stream of forms has one reading. */
  lemma PrefixFree(a: Word, b: Word)
    requires EncodeWord(a) <= EncodeWord(b)
    ensures a == b
  {
    LeadOfWord(a);
    LeadOfWord(b);
    assert EncodeWord(a)[0] == EncodeWord(b)[0];
    assert ShapeIndex(a) == ShapeIndex(b);
    assert EncodeWord(a) == EncodeWord(b);
    WordFits(a);
    WordFits(b);
    FormValue(SHAPES[ShapeIndex(a)].first, SHAPES[ShapeIndex(a)].length - 1, a);
    FormValue(SHAPES[ShapeIndex(b)].first, SHAPES[ShapeIndex(b)].length - 1, b);
  }

  /** The shortest form is chosen: no row with fewer bytes has room for the word. */
  lemma ShortestForm(w: Word, i: nat)
    requires i < 6 && SHAPES[i].length < |EncodeWord(w)|
    ensures w >= Scaled(Leads(i), SHAPES[i].length - 1)
  {
    RowFits(i);
  }

  // ---- order ----

  function WordRank(w: Word): (n: int) { w as int }

  predicate BytesAtMost(a: Data, b: Data) { Lexicographic.AtMost(ByteRank, a, b) }

  /** The smaller word's bytes come first, whatever follows either. */
  lemma {:induction false} FormOrder(first: byte, n: nat, a: nat, b: nat, s: Data, t: Data)
    requires a < b < Scaled(256 - first, n)
    ensures BytesAtMost(Form(first, n, a) + s, Form(first, n, b) + t)
    ensures !BytesAtMost(Form(first, n, b) + t, Form(first, n, a) + s)
  {
    if n > 0 {
      var x: byte, y: byte := 0x80 + a % 64, 0x80 + b % 64;
      var p, q := Form(first, n - 1, a / 64), Form(first, n - 1, b / 64);
      assert Form(first, n, a) + s == p + ([x] + s) && Form(first, n, b) + t == q + ([y] + t);
      if a / 64 < b / 64 {
        FormOrder(first, n - 1, a / 64, b / 64, [x] + s, [y] + t);
      } else {
        Lexicographic.CommonPrefix(ByteRank, p, [x] + s, [y] + t);
        Lexicographic.CommonPrefix(ByteRank, p, [y] + t, [x] + s);
      }
    }
  }

  lemma WordOrder(a: Word, b: Word, s: Data, t: Data)
    requires a < b
    ensures BytesAtMost(EncodeWord(a) + s, EncodeWord(b) + t)
    ensures !BytesAtMost(EncodeWord(b) + t, EncodeWord(a) + s)
  {
    var i, j := ShapeIndex(a), ShapeIndex(b);
    WordFits(a);
    WordFits(b);
    if i == j {
      FormOrder(SHAPES[i].first, SHAPES[i].length - 1, a, b, s, t);
    } else {
      FormLead(SHAPES[i].first, SHAPES[i].length - 1, a, Leads(i));
      FormLead(SHAPES[j].first, SHAPES[j].length - 1, b, Leads(j));
      assert i < j;
      LeadsAscend(i, j);
      assert (EncodeWord(a) + s)[0] < (EncodeWord(b) + t)[0];
    }
  }

  lemma LeadsAscend(i: nat, j: nat)
    requires i < j < 6
    ensures SHAPES[i].first + Leads(i) <= SHAPES[j].first
  {
  }

  /** Comparing encodings byte by byte is comparing the words. */
  lemma {:induction false} EncodingKeepsOrder(a: seq<Word>, b: seq<Word>)
    ensures BytesAtMost(EncodeWords(a), EncodeWords(b)) <==> Lexicographic.AtMost(WordRank, a, b)
  {
    if a == [] {
    } else if b == [] {
      assert EncodeWords(a) != [];
    } else if a[0] == b[0] {
      Lexicographic.CommonPrefix(ByteRank, EncodeWord(a[0]), EncodeWords(a[1..]), EncodeWords(b[1..]));
      EncodingKeepsOrder(a[1..], b[1..]);
    } else if a[0] < b[0] {
      WordOrder(a[0], b[0], EncodeWords(a[1..]), EncodeWords(b[1..]));
    } else {
      WordOrder(b[0], a[0], EncodeWords(b[1..]), EncodeWords(a[1..]));
    }
  }

  /** The forms, byte by byte, with the last byte and the lead byte of the two longest. */
  lemma FormsAre(w: Word)
    ensures w < 0x80 ==> EncodeWord(w) == [w]
    ensures 0x80 <= w < 0x800 ==> EncodeWord(w) == [0xC0 + w / 64, 0x80 + w % 64]
    ensures 0x800 <= w < 0x1_0000 ==> EncodeWord(w) == [0xE0 + w / 4096, 0x80 + w / 64 % 64, 0x80 + w % 64]
    ensures 0x1_0000 <= w < 0x20_0000 ==>
      EncodeWord(w) == [0xF0 + w / 0x4_0000, 0x80 + w / 4096 % 64, 0x80 + w / 64 % 64, 0x80 + w % 64]
    ensures 0x20_0000 <= w < 0x400_0000 ==>
      EncodeWord(w) == [0xF8 + w / 0x100_0000, 0x80 + w / 0x4_0000 % 64, 0x80 + w / 4096 % 64, 0x80 + w / 64 % 64,
                        0x80 + w % 64]
    ensures 0x400_0000 <= w ==>
      EncodeWord(w) == [0xFC + w / 0x4000_0000, 0x80 + w / 0x100_0000 % 64, 0x80 + w / 0x4_0000 % 64,
                        0x80 + w / 4096 % 64, 0x80 + w / 64 % 64, 0x80 + w % 64]
  {
    hide Form, Scaled, Leads, Shifted;
    WordFits(w);
    var row := SHAPES[ShapeIndex(w)];
    assert EncodeWord(w) == Form(row.first, row.length - 1, w);
    FormDigits(row.first, row.length - 1, w);
    ShiftedIs(w);
  }

  /** The word without its last `k` digits of six bits. */
  function Shifted(w: nat, k: nat): (r: nat)
    ensures r <= w
  {
    if k == 0 then w else Shifted(w / 64, k - 1)
  }

  lemma ShiftedIs(w: nat)
    ensures Shifted(w, 0) == w && Shifted(w, 1) == w / 64 && Shifted(w, 2) == w / 4096 && Shifted(w, 3) == w / 0x4_0000
      && Shifted(w, 4) == w / 0x100_0000 && Shifted(w, 5) == w / 0x4000_0000
  {
    OneMoreShift(w, 1);
    OneMoreShift(w, 2);
    OneMoreShift(w, 3);
    OneMoreShift(w, 4);
    assert w / 64 / 64 == w / 4096 && w / 4096 / 64 == w / 0x4_0000;
    assert w / 0x4_0000 / 64 == w / 0x100_0000 && w / 0x100_0000 / 64 == w / 0x4000_0000;
  }

  lemma {:induction false} OneMoreShift(w: nat, k: nat)
    ensures Shifted(w, k + 1) == Shifted(w, k) / 64
  {
    if k > 0 { OneMoreShift(w / 64, k - 1); }
  }

  lemma {:induction false} FormDigits(first: byte, n: nat, w: nat)
    requires w < Scaled(256 - first, n)
    ensures Form(first, n, w)[0] == first + Shifted(w, n)
    ensures forall j :: 0 < j <= n ==> Form(first, n, w)[j] == 0x80 + Shifted(w, n - j) % 64
    decreases n
  {
    if n > 0 {
      FormDigits(first, n - 1, w / 64);
    }
  }
}
