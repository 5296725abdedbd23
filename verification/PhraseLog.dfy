/** The records of a phrase-index log, their encoding, and the reference decoder. */
module PhraseLog {
  import opened Bytes
  import opened Outcomes

  /** A token names one of these slots in its low 24 bits. */
  const SLOT_COUNT := 0x100_0000

  /** A record of the log; `Totals` is the header record with the old and the new total run. */
  datatype Record =
    | Added(token: nat, item: Data)
    | Removed(token: nat, item: Data)
    | Modified(token: nat, before: Data, after: Data)
    | Totals(token: nat, before: Data, after: Data)

  predicate Encodable(r: Record) {
    && r.token < Pow256(4)
    && match r
       case Added(_, item) => |item| < Pow256(2)
       case Removed(_, item) => |item| < Pow256(2)
       case Modified(_, before, after) => |before| < Pow256(2) && |after| < Pow256(2)
       case Totals(_, before, after) => |before| == |after| < Pow256(2)
  }

  function Kind(r: Record): (k: nat)
    ensures 1 <= k <= 4
  {
    match r case Added(_, _) => 1 case Removed(_, _) => 2 case Modified(_, _, _) => 3 case Totals(_, _, _) => 4
  }

  function Body(r: Record): (d: Data) {
    match r
    case Added(_, item) => ToLittle(|item|, 2) + item
    case Removed(_, item) => ToLittle(|item|, 2) + item
    case Modified(_, before, after) => ToLittle(|before|, 2) + ToLittle(|after|, 2) + before + after
    case Totals(_, before, after) => ToLittle(|before|, 2) + before + after
  }

  function Encode(r: Record): (d: Data)
    ensures |d| >= 10
  {
    ToLittle(Kind(r), 4) + ToLittle(r.token, 4) + Body(r)
  }

  function EncodeAll(rs: seq<Record>): (d: Data) {
    if rs == [] then [] else Encode(rs[0]) + EncodeAll(rs[1..])
  }

  /** The records byte by byte: kind, token, sizes, items; numbers have their lowest byte first. */
  lemma LayoutOf(r: Record)
    ensures match r
      case Added(t, item) => Encode(r) == [1, 0, 0, 0] + Four(t) + Two(|item|) + item
      case Removed(t, item) => Encode(r) == [2, 0, 0, 0] + Four(t) + Two(|item|) + item
      case Modified(t, before, after) =>
        Encode(r) == [3, 0, 0, 0] + Four(t) + Two(|before|) + Two(|after|) + before + after
      case Totals(t, before, after) => Encode(r) == [4, 0, 0, 0] + Four(t) + Two(|before|) + before + after
  {
    LittleBytes(Kind(r));
    KindBytes(Kind(r));
    hide ToLittle, Two, Four;
    LittleBytes(r.token);
    match r
    case Added(t, item) =>
      LittleBytes(|item|);
      JoinsThree([1, 0, 0, 0] + Four(t), Two(|item|), item, []);
    case Removed(t, item) =>
      LittleBytes(|item|);
      JoinsThree([2, 0, 0, 0] + Four(t), Two(|item|), item, []);
    case Modified(t, before, after) =>
      LittleBytes(|before|);
      LittleBytes(|after|);
      JoinsThree([3, 0, 0, 0] + Four(t), Two(|before|) + Two(|after|), before, after);
      JoinsThree([3, 0, 0, 0] + Four(t), Two(|before|), Two(|after|), before + after);
    case Totals(t, before, after) =>
      LittleBytes(|before|);
      JoinsThree([4, 0, 0, 0] + Four(t), Two(|before|), before, after);
  }

  lemma KindBytes(k: nat)
    requires k < 256
    ensures Four(k) == [k, 0, 0, 0]
  {
  }

  lemma JoinsThree(a: Data, b: Data, c: Data, d: Data)
    ensures a + (b + c + d) == a + b + c + d && a + (b + c) == a + b + c
  {
  }

  // ---- the reference decoder ----

  /** The little-endian number in `size` bytes at `at`. */
  function Number(d: Data, at: nat, size: nat): (n: nat)
    requires at + size <= |d|
  {
    Little(d[at..at + size])
  }

  function DecodeBody(kind: nat, token: nat, b: Data): (r: Option<Record>)
    requires |b| >= 2
  {
    var size := Number(b, 0, 2);
    if kind == 1 || kind == 2 then
      if |b| < 2 + size then None
      else if kind == 1 then Some(Added(token, b[2..2 + size])) else Some(Removed(token, b[2..2 + size]))
    else if kind == 3 then
      if |b| < 4 || |b| < 4 + size + Number(b, 2, 2) then None
      else Some(Modified(token, b[4..4 + size], b[4 + size..4 + size + Number(b, 2, 2)]))
    else if kind == 4 then
      if |b| < 2 + 2 * size then None
      else Some(Totals(token, b[2..2 + size], b[2 + size..2 + 2 * size]))
    else None
  }

  /** The record at the front of the data, if it is whole. */
  function Decode(d: Data): (r: Option<Record>) {
    if |d| < 10 then None else DecodeBody(Number(d, 0, 4), Number(d, 4, 4), d[8..])
  }

  function DecodeAll(d: Data): (r: Option<seq<Record>>)
    decreases |d|
  {
    if d == [] then Some([])
    else match Decode(d)
      case None => None
      case Some(first) =>
        if |Encode(first)| > |d| then None
        else match DecodeAll(d[|Encode(first)|..])
          case None => None
          case Some(rest) => Some([first] + rest)
  }

  lemma NumberReads(prefix: Data, n: nat, size: nat, rest: Data)
    requires n < Pow256(size)
    ensures Number(prefix + ToLittle(n, size) + rest, |prefix|, size) == n
  {
    var d := prefix + ToLittle(n, size) + rest;
    assert d[|prefix|..|prefix| + size] == ToLittle(n, size);
    LittleRoundTrip(n, size);
  }

  lemma FieldsRead(kind: nat, token: nat, body: Data)
    requires kind < Pow256(4) && token < Pow256(4)
    ensures var d := ToLittle(kind, 4) + ToLittle(token, 4) + body;
      Number(d, 0, 4) == kind && Number(d, 4, 4) == token && d[8..] == body
  {
    var d := ToLittle(kind, 4) + ToLittle(token, 4) + body;
    NumberReads([], kind, 4, ToLittle(token, 4) + body);
    assert [] + ToLittle(kind, 4) + (ToLittle(token, 4) + body) == d;
    NumberReads(ToLittle(kind, 4), token, 4, body);
  }

  lemma BodyDecodes(r: Record, rest: Data)
    requires Encodable(r)
    ensures |Body(r) + rest| >= 2 && DecodeBody(Kind(r), r.token, Body(r) + rest) == Some(r)
  {
    hide ToLittle;
    hide Little;
    match r
    case Added(_, item) => OneRunReads(item, rest);
    case Removed(_, item) => OneRunReads(item, rest);
    case Modified(_, before, after) => TwoSizesRead(before, after, rest);
    case Totals(_, before, after) => SameSizeReads(before, after, rest);
  }

  lemma OneRunReads(item: Data, rest: Data)
    requires |item| < Pow256(2)
    ensures var b := ToLittle(|item|, 2) + item + rest;
      Number(b, 0, 2) == |item| && b[2..2 + |item|] == item
  {
    hide ToLittle;
    hide Number;
    hide Pow256;
    NumberReads([], |item|, 2, item + rest);
    Joins2(ToLittle(|item|, 2), item, rest);
  }

  lemma Joins2(a: Data, c: Data, rest: Data)
    ensures var s := a + c + rest; s == [] + a + (c + rest) && s[|a|..|a| + |c|] == c
  {
  }

  lemma TwoSizesRead(before: Data, after: Data, rest: Data)
    requires |before| < Pow256(2) && |after| < Pow256(2)
    ensures var b := ToLittle(|before|, 2) + ToLittle(|after|, 2) + before + after + rest;
      && Number(b, 0, 2) == |before| && Number(b, 2, 2) == |after|
      && b[4..4 + |before|] == before && b[4 + |before|..4 + |before| + |after|] == after
  {
    hide ToLittle;
    hide Number;
    hide Pow256;
    var b := ToLittle(|before|, 2) + ToLittle(|after|, 2) + before + after + rest;
    var tail := before + after + rest;
    Joins(ToLittle(|before|, 2), ToLittle(|after|, 2), before, after, rest);
    NumberReads([], |before|, 2, ToLittle(|after|, 2) + tail);
    NumberReads(ToLittle(|before|, 2), |after|, 2, tail);
  }

  lemma Joins(a: Data, b: Data, c: Data, d: Data, rest: Data)
    ensures var s := a + b + c + d + rest;
      && s == [] + a + (b + (c + d + rest)) && s == a + b + (c + d + rest)
      && s[|a| + |b|..|a| + |b| + |c|] == c && s[|a| + |b| + |c|..|a| + |b| + |c| + |d|] == d
  {
  }

  lemma Pieces(b: Data, i: nat, j: nat, k: nat)
    requires 2 <= i <= j <= k <= |b|
    ensures b[..k] == b[0..2] + b[2..i] + b[i..j] + b[j..k]
    ensures b[..k] == b[0..2] + b[2..j] + b[j..k]
    ensures b[..k] == b[0..2] + b[2..k]
  {
  }

  lemma SameSizeReads(before: Data, after: Data, rest: Data)
    requires |before| == |after| < Pow256(2)
    ensures var b := ToLittle(|before|, 2) + before + after + rest;
      && Number(b, 0, 2) == |before|
      && b[2..2 + |before|] == before && b[2 + |before|..2 + 2 * |before|] == after
  {
    hide ToLittle;
    hide Number;
    hide Pow256;
    var b := ToLittle(|before|, 2) + before + after + rest;
    Joins3(ToLittle(|before|, 2), before, after, rest);
    NumberReads([], |before|, 2, before + after + rest);
  }

  lemma Joins3(a: Data, c: Data, d: Data, rest: Data)
    ensures var s := a + c + d + rest;
      && s == [] + a + (c + d + rest)
      && s[|a|..|a| + |c|] == c && s[|a| + |c|..|a| + |c| + |d|] == d
  {
  }

  /** The decoder reads back one encoded record and stops at its end, whatever follows. */
  lemma DecodeInverts(r: Record, rest: Data)
    requires Encodable(r)
    ensures Decode(Encode(r) + rest) == Some(r)
  {
    hide DecodeBody;
    hide Body;
    hide ToLittle;
    PowersOf256();
    var d := Encode(r) + rest;
    assert d == ToLittle(Kind(r), 4) + ToLittle(r.token, 4) + (Body(r) + rest);
    FieldsRead(Kind(r), r.token, Body(r) + rest);
    BodyDecodes(r, rest);
  }

  lemma DecodeAllCons(r: Record, rest: Data)
    requires Decode(Encode(r) + rest) == Some(r) && Encode(r) != []
    ensures DecodeAll(Encode(r) + rest) == if DecodeAll(rest).None? then None else Some([r] + DecodeAll(rest).value)
  {
    hide Decode, Encode;
    assert (Encode(r) + rest)[|Encode(r)|..] == rest;
  }

  lemma {:induction false} DecodeAllInverts(rs: seq<Record>)
    requires forall i :: 0 <= i < |rs| ==> Encodable(rs[i])
    ensures DecodeAll(EncodeAll(rs)) == Some(rs)
    decreases |rs|
  {
    if rs != [] {
      hide Decode, Encode, Encodable;
      var rest := EncodeAll(rs[1..]);
      DecodeInverts(rs[0], rest);
      DecodeAllInverts(rs[1..]);
      DecodeAllCons(rs[0], rest);
      assert rs == [rs[0]] + rs[1..];
    }
  }

  lemma NumberWrites(d: Data, at: nat, size: nat)
    requires at + size <= |d|
    ensures ToLittle(Number(d, at, size), size) == d[at..at + size] && Number(d, at, size) < Pow256(size)
  {
    ToLittleRoundTrip(d[at..at + size]);
    LittleBound(d[at..at + size]);
  }

  lemma OneRunWrites(b: Data, size: nat)
    requires |b| >= 2 + size && size == Number(b, 0, 2)
    ensures size < Pow256(2) && ToLittle(size, 2) + b[2..2 + size] == b[..2 + size]
  {
    hide ToLittle;
    hide Number;
    NumberWrites(b, 0, 2);
    Pieces(b, 2, 2, 2 + size);
  }

  lemma SameSizeWrites(b: Data, size: nat)
    requires |b| >= 2 + 2 * size && size == Number(b, 0, 2)
    ensures size < Pow256(2) && ToLittle(size, 2) + b[2..2 + size] + b[2 + size..2 + 2 * size] == b[..2 + 2 * size]
  {
    hide ToLittle;
    hide Number;
    NumberWrites(b, 0, 2);
    Pieces(b, 2, 2 + size, 2 + 2 * size);
  }

  lemma TwoSizesWrite(b: Data, size: nat, more: nat)
    requires |b| >= 4 + size + more && size == Number(b, 0, 2) && more == Number(b, 2, 2)
    ensures size < Pow256(2) && more < Pow256(2)
    ensures ToLittle(size, 2) + ToLittle(more, 2) + b[4..4 + size] + b[4 + size..4 + size + more] ==
      b[..4 + size + more]
  {
    hide ToLittle;
    hide Number;
    NumberWrites(b, 0, 2);
    NumberWrites(b, 2, 2);
    Pieces(b, 4, 4 + size, 4 + size + more);
  }

  lemma BodyEncodes(kind: nat, token: nat, b: Data)
    requires |b| >= 2 && DecodeBody(kind, token, b).Some? && token < Pow256(4)
    ensures var r := DecodeBody(kind, token, b).value;
      Encodable(r) && Kind(r) == kind && r.token == token && Body(r) <= b
  {
    if kind == 3 {
      ModifiedEncodes(token, b);
    } else if kind == 4 {
      TotalsEncode(token, b);
    } else {
      ItemEncodes(kind, token, b);
    }
  }

  lemma ModifiedEncodes(token: nat, b: Data)
    requires |b| >= 2 && DecodeBody(3, token, b).Some? && token < Pow256(4)
    ensures var r := DecodeBody(3, token, b).value;
      Encodable(r) && Kind(r) == 3 && r.token == token && Body(r) <= b
  {
    hide ToLittle, Number;
    TwoSizesWrite(b, Number(b, 0, 2), Number(b, 2, 2));
  }

  lemma TotalsEncode(token: nat, b: Data)
    requires |b| >= 2 && DecodeBody(4, token, b).Some? && token < Pow256(4)
    ensures var r := DecodeBody(4, token, b).value;
      Encodable(r) && Kind(r) == 4 && r.token == token && Body(r) <= b
  {
    hide ToLittle, Number;
    SameSizeWrites(b, Number(b, 0, 2));
  }

  lemma ItemEncodes(kind: nat, token: nat, b: Data)
    requires kind != 3 && kind != 4 && |b| >= 2 && DecodeBody(kind, token, b).Some? && token < Pow256(4)
    ensures var r := DecodeBody(kind, token, b).value;
      Encodable(r) && Kind(r) == kind && r.token == token && Body(r) <= b
  {
    hide ToLittle, Number;
    OneRunWrites(b, Number(b, 0, 2));
  }

  /** Whatever the decoder accepts is the encoding of what it answers. */
  lemma DecodeIsEncode(d: Data)
    requires Decode(d).Some?
    ensures Encodable(Decode(d).value) && Encode(Decode(d).value) <= d
  {
    hide DecodeBody;
    hide Body;
    hide ToLittle;
    NumberWrites(d, 0, 4);
    NumberWrites(d, 4, 4);
    BodyEncodes(Number(d, 0, 4), Number(d, 4, 4), d[8..]);
    assert d == d[0..4] + d[4..8] + d[8..];
  }

  lemma {:induction false} DecodeAllIsEncode(d: Data)
    requires DecodeAll(d).Some?
    ensures var rs := DecodeAll(d).value;
      EncodeAll(rs) == d && forall i :: 0 <= i < |rs| ==> Encodable(rs[i])
    decreases |d|
  {
    hide Decode, Encode, Encodable;
    if d != [] {
      DecodeIsEncode(d);
      var first := Decode(d).value;
      var n := |Encode(first)|;
      var rest := DecodeAll(d[n..]).value;
      DecodeAllIsEncode(d[n..]);
      EncodeAllCons(first, rest);
      assert DecodeAll(d).value == [first] + rest;
      assert d == d[..n] + d[n..] && d[..n] == Encode(first);
    }
  }

  lemma EncodeAllCons(first: Record, rest: seq<Record>)
    ensures EncodeAll([first] + rest) == Encode(first) + EncodeAll(rest)
  {
    hide Encode;
    assert ([first] + rest)[1..] == rest;
  }
}
