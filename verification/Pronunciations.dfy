/** The stored readings of a phrase log, one row each. */
module Pronunciations {
  import opened Bytes
  import opened Outcomes
  import opened PhraseLog
  import opened LogWalkers

  /** The slot, which side of the record the item is on, and the raw key and frequency bytes. */
  datatype Row = Row(slot: nat, side: nat, keys: Data, frequency: Data)

  // ---- one item ----

  function RowAt(item: Data, length: nat, at: nat, slot: nat, side: nat): (r: Row) {
    Row(slot, side, Clip(item, at, at + 2 * length), Clip(item, at + 2 * length, at + 2 * length + 4))
  }

  /** `count` readings from `at`. */
  function Readings(item: Data, length: nat, at: nat, count: nat, slot: nat, side: nat): (r: seq<Row>)
    decreases count
  {
    if count == 0 then []
    else [RowAt(item, length, at, slot, side)] + Readings(item, length, at + 2 * length + 4, count - 1, slot, side)
  }

  /** Where `count` readings from `at` end. */
  function EndOf(length: nat, at: nat, count: nat): (n: nat)
    decreases count
  {
    if count == 0 then at else EndOf(length, at + 2 * length + 4, count - 1)
  }

  /** What the reader raises: a header cut short, a record kind it does not know, an item without its two leading
      bytes, or readings that do not end with their item. */
  datatype ReadError = ShortHeader | UnknownRecord | ShortItem | WrongExtent

  /** An item's rows, when its readings end exactly at its end. */
  function ItemRows(item: Data, slot: nat, side: nat): (r: Result<seq<Row>, ReadError>) {
    if |item| < 2 then Err(ShortItem)
    else
      var length, count := item[0] as int, item[1] as int;
      if EndOf(length, 6 + 4 * length, count) != |item| then Err(WrongExtent)
      else Ok(Readings(item, length, 6 + 4 * length, count, slot, side))
  }

  method ReadReadings(item: Data, length: nat, start: nat, count: nat, slot: nat, side: nat)
                      returns (rows: seq<Row>, at: nat)
    ensures rows == Readings(item, length, start, count, slot, side) && at == EndOf(length, start, count)
  {
    hide RowAt;
    rows, at := [], start;
    var left := count;
    while left > 0
      invariant EndOf(length, at, left) == EndOf(length, start, count)
      invariant rows + Readings(item, length, at, left, slot, side) == Readings(item, length, start, count, slot, side)
    {
      var row := RowAt(item, length, at, slot, side);
      assert Readings(item, length, at, left, slot, side)
          == [row] + Readings(item, length, at + 2 * length + 4, left - 1, slot, side);
      rows := rows + [row];
      at, left := at + 2 * length + 4, left - 1;
    }
  }

  method ReadItem(item: Data, slot: nat, side: nat) returns (r: Result<seq<Row>, ReadError>)
    ensures r == ItemRows(item, slot, side)
  {
    if |item| < 2 { return Err(ShortItem); }
    var length: nat, count: nat := item[0], item[1];
    var rows, at := ReadReadings(item, length, 6 + 4 * length, count, slot, side);
    if at != |item| { return Err(WrongExtent); }
    r := Ok(rows);
  }

  // ---- one record ----

  /** The rows of the record at the front of `d`, and the bytes it takes; the errors in the order the reader meets
      them. */
  function RecordRows(d: Data): (r: Result<(nat, seq<Row>), ReadError>)
    ensures r.Ok? ==> r.value.0 >= 10 && |d| >= 10
  {
    if |d| < 8 then Err(ShortHeader)
    else
      var kind, slot := Number(d, 0, 4), Number(d, 4, 4) % SLOT_COUNT;
      if kind == 0 || kind > 4 then Err(UnknownRecord)
      else if |d| < (if kind == 3 then 12 else 10) then Err(ShortHeader)
      else
        var size := Number(d, 8, 2);
        if kind == 4 then Ok((10 + 2 * size, []))
        else if kind == 3 then
          var more := Number(d, 10, 2);
          var before, after := ItemRows(Clip(d, 12, 12 + size), slot, 0),
              ItemRows(Clip(d, 12 + size, 12 + size + more), slot, 1);
          if before.Err? then Err(before.error)
          else if after.Err? then Err(after.error)
          else Ok((12 + size + more, before.value + after.value))
        else
          var rows := ItemRows(Clip(d, 10, 10 + size), slot, 0);
          if rows.Err? then Err(rows.error) else Ok((10 + size, rows.value))
  }

  /** Every row of a payload, in record order, or the first error. */
  function Rows(d: Data): (r: Result<seq<Row>, ReadError>)
    decreases |d|
  {
    if d == [] then Ok([])
    else match RecordRows(d)
      case Err(e) => Err(e)
      case Ok(found) => Onto(found.1, Rows(Drop(d, found.0)))
  }

  /** Rows already read, before those still to come. */
  function Onto(rows: seq<Row>, r: Result<seq<Row>, ReadError>): (all: Result<seq<Row>, ReadError>) {
    match r
    case Err(e) => Err(e)
    case Ok(rest) => Ok(rows + rest)
  }

  lemma OntoTwice(a: seq<Row>, b: seq<Row>, r: Result<seq<Row>, ReadError>)
    ensures Onto(a, Onto(b, r)) == Onto(a + b, r) && Onto([], r) == r && Onto(a, Ok([])) == Ok(a)
  {
    if r.Ok? { assert a + (b + r.value) == a + b + r.value && [] + r.value == r.value; }
    assert a + [] == a;
  }

  method ReadRecord(payload: Data, offset: nat) returns (r: Result<(nat, seq<Row>), ReadError>)
    requires offset < |payload|
    ensures r == RecordRows(Drop(payload, offset))
  {
    hide Number, ItemRows;
    if offset + 8 > |payload| { return Err(ShortHeader); }
    NumbersAt(payload, offset);
    var kind, slot := Number(payload, offset, 4), Number(payload, offset + 4, 4) % SLOT_COUNT;
    if kind == 4 {
      if offset + 10 > |payload| { return Err(ShortHeader); }
      return Ok((10 + 2 * Number(payload, offset + 8, 2), []));
    }
    if kind == 3 {
      if offset + 12 > |payload| { return Err(ShortHeader); }
      var size, more := Number(payload, offset + 8, 2), Number(payload, offset + 10, 2);
      ClipShift(payload, offset, 12, 12 + size);
      ClipShift(payload, offset, 12 + size, 12 + size + more);
      var before := ReadItem(Clip(payload, offset + 12, offset + 12 + size), slot, 0);
      if before.Err? { return Err(before.error); }
      var after := ReadItem(Clip(payload, offset + 12 + size, offset + 12 + size + more), slot, 1);
      if after.Err? { return Err(after.error); }
      return Ok((12 + size + more, before.value + after.value));
    }
    if kind == 1 || kind == 2 {
      if offset + 10 > |payload| { return Err(ShortHeader); }
      var size := Number(payload, offset + 8, 2);
      ClipShift(payload, offset, 10, 10 + size);
      var rows := ReadItem(Clip(payload, offset + 10, offset + 10 + size), slot, 0);
      if rows.Err? { return Err(rows.error); }
      return Ok((10 + size, rows.value));
    }
    r := Err(UnknownRecord);
  }

  lemma NumbersAt(p: Data, pos: nat)
    requires pos + 8 <= |p|
    ensures var d := Drop(p, pos);
      && Number(d, 0, 4) == Number(p, pos, 4) && Number(d, 4, 4) == Number(p, pos + 4, 4)
      && (pos + 10 <= |p| ==> Number(d, 8, 2) == Number(p, pos + 8, 2))
      && (pos + 12 <= |p| ==> Number(d, 10, 2) == Number(p, pos + 10, 2))
  {
    var d := p[pos..];
    assert d[0..4] == p[pos..pos + 4] && d[4..8] == p[pos + 4..pos + 8];
    if pos + 10 <= |p| { assert d[8..10] == p[pos + 8..pos + 10]; }
    if pos + 12 <= |p| { assert d[10..12] == p[pos + 10..pos + 12]; }
  }

  method PronunciationFields(data: Data) returns (r: Result<seq<Row>, ReadError>)
    ensures r == Rows(Payload(data))
  {
    hide RecordRows, Onto;
    var payload := Payload(data);
    var offset := 0;
    var rows: seq<Row> := [];
    OntoTwice([], [], Rows(payload));
    while offset < |payload|
      invariant Rows(payload) == Onto(rows, Rows(Drop(payload, offset)))
      decreases |payload| - offset
    {
      var found := ReadRecord(payload, offset);
      if found.Err? {
        OntoError(rows, found.error);
        return Err(found.error);
      }
      DropTwice(payload, offset, found.value.0);
      OntoTwice(rows, found.value.1, Rows(Drop(payload, offset + found.value.0)));
      rows := rows + found.value.1;
      offset := offset + found.value.0;
    }
    assert Drop(payload, offset) == [];
    OntoTwice(rows, [], Ok([]));
    r := Ok(rows);
  }

  lemma OntoError(rows: seq<Row>, e: ReadError)
    ensures Onto(rows, Err(e)) == Err(e)
  {
  }

  // ---- phrase items ----

  datatype Reading = Reading(keys: Data, frequency: Data)

  /** A phrase of `length` characters: its frequency, its text, and its readings. */
  datatype Phrase = Phrase(length: byte, frequency: Data, text: Data, readings: seq<Reading>)

  predicate PhraseOk(p: Phrase) {
    && |p.frequency| == 4 && |p.text| == 4 * (p.length as int) && |p.readings| < 256
    && forall i :: 0 <= i < |p.readings| ==>
        |p.readings[i].keys| == 2 * (p.length as int) && |p.readings[i].frequency| == 4
  }

  function SpellReadings(rs: seq<Reading>): (d: Data) {
    if rs == [] then [] else rs[0].keys + rs[0].frequency + SpellReadings(rs[1..])
  }

  function Spell(p: Phrase): (d: Data)
    requires |p.readings| < 256
  {
    [p.length, |p.readings|] + p.frequency + p.text + SpellReadings(p.readings)
  }

  function RowsOfReadings(rs: seq<Reading>, slot: nat, side: nat): (rows: seq<Row>)
    ensures |rows| == |rs|
  {
    if rs == [] then [] else [Row(slot, side, rs[0].keys, rs[0].frequency)] + RowsOfReadings(rs[1..], slot, side)
  }

  function RowsOfPhrase(p: Phrase, slot: nat, side: nat): (rows: seq<Row>) {
    RowsOfReadings(p.readings, slot, side)
  }

  lemma {:induction false} ReadingsRead(pre: Data, rs: seq<Reading>, length: nat, slot: nat, side: nat)
    requires forall i :: 0 <= i < |rs| ==> |rs[i].keys| == 2 * length && |rs[i].frequency| == 4
    ensures EndOf(length, |pre|, |rs|) == |pre + SpellReadings(rs)|
    ensures Readings(pre + SpellReadings(rs), length, |pre|, |rs|, slot, side) == RowsOfReadings(rs, slot, side)
    decreases |rs|
  {
    hide RowAt;
    if rs == [] {
      assert pre + SpellReadings(rs) == pre;
    } else {
      var first, rest := rs[0].keys + rs[0].frequency, SpellReadings(rs[1..]);
      ReadingsRead(pre + first, rs[1..], length, slot, side);
      assert pre + SpellReadings(rs) == pre + first + rest;
      assert |pre + first| == |pre| + 2 * length + 4;
      FirstReading(pre, rs[0], rest, length, slot, side);
    }
  }

  lemma FirstReading(pre: Data, r: Reading, rest: Data, length: nat, slot: nat, side: nat)
    requires |r.keys| == 2 * length && |r.frequency| == 4
    ensures RowAt(pre + (r.keys + r.frequency) + rest, length, |pre|, slot, side) ==
      Row(slot, side, r.keys, r.frequency)
  {
    var item := pre + (r.keys + r.frequency) + rest;
    assert item[|pre|..|pre| + 2 * length] == r.keys;
    assert item[|pre| + 2 * length..|pre| + 2 * length + 4] == r.frequency;
  }

  lemma PhraseRead(p: Phrase, slot: nat, side: nat)
    requires PhraseOk(p)
    ensures ItemRows(Spell(p), slot, side) == Ok(RowsOfPhrase(p, slot, side))
  {
    var pre: Data := [p.length, |p.readings|] + p.frequency + p.text;
    ReadingsRead(pre, p.readings, p.length as int, slot, side);
    assert Spell(p) == pre + SpellReadings(p.readings);
    assert |pre| == 6 + 4 * (p.length as int) && Spell(p)[0] == p.length && Spell(p)[1] == |p.readings|;
  }

  // ---- logs of phrases ----

  /** A record whose items are phrases. */
  datatype Entry =
    | AddedPhrase(token: nat, phrase: Phrase)
    | RemovedPhrase(token: nat, phrase: Phrase)
    | ModifiedPhrase(token: nat, before: Phrase, after: Phrase)
    | NewTotals(token: nat, was: Data, becomes: Data)

  predicate EntryOk(e: Entry) {
    match e
    case AddedPhrase(_, p) => PhraseOk(p)
    case RemovedPhrase(_, p) => PhraseOk(p)
    case ModifiedPhrase(_, b, a) => PhraseOk(b) && PhraseOk(a)
    case NewTotals(_, _, _) => true
  }

  function RecordOf(e: Entry): (r: Record)
    requires EntryOk(e)
  {
    match e
    case AddedPhrase(t, p) => Added(t, Spell(p))
    case RemovedPhrase(t, p) => Removed(t, Spell(p))
    case ModifiedPhrase(t, b, a) => Modified(t, Spell(b), Spell(a))
    case NewTotals(t, was, becomes) => Totals(t, was, becomes)
  }

  function RowsOf(e: Entry): (rows: seq<Row>) {
    match e
    case AddedPhrase(t, p) => RowsOfPhrase(p, t % SLOT_COUNT, 0)
    case RemovedPhrase(t, p) => RowsOfPhrase(p, t % SLOT_COUNT, 0)
    case ModifiedPhrase(t, b, a) => RowsOfPhrase(b, t % SLOT_COUNT, 0) + RowsOfPhrase(a, t % SLOT_COUNT, 1)
    case NewTotals(_, _, _) => []
  }

  ghost predicate AllOk(es: seq<Entry>) {
    forall i :: 0 <= i < |es| ==> EntryOk(es[i]) && Encodable(RecordOf(es[i]))
  }

  function RecordsOf(es: seq<Entry>): (rs: seq<Record>)
    requires forall i :: 0 <= i < |es| ==> EntryOk(es[i])
  {
    if es == [] then [] else [RecordOf(es[0])] + RecordsOf(es[1..])
  }

  function AllRowsOf(es: seq<Entry>): (rows: seq<Row>) {
    if es == [] then [] else RowsOf(es[0]) + AllRowsOf(es[1..])
  }

  lemma TokenReads(r: Record, rest: Data)
    requires Encodable(r)
    ensures Number(Encode(r) + rest, 4, 4) == r.token
  {
    hide Body;
    hide ToLittle;
    PowersOf256();
    assert Encode(r) + rest == ToLittle(Kind(r), 4) + ToLittle(r.token, 4) + (Body(r) + rest);
    FieldsRead(Kind(r), r.token, Body(r) + rest);
  }

  lemma RunsRead(r: Record, rest: Data)
    requires Encodable(r)
    ensures var d := Encode(r) + rest;
      match r
      case Added(_, item) => Clip(d, 10, 10 + |item|) == item
      case Removed(_, item) => Clip(d, 10, 10 + |item|) == item
      case Modified(_, before, after) =>
        Clip(d, 12, 12 + |before|) == before && Clip(d, 12 + |before|, 12 + |before| + |after|) == after
      case Totals(_, _, _) => true
  {
    hide ToLittle;
  }

  /** The reader passes one encoded record whole and yields one row per stored reading. */
  lemma EntryRead(e: Entry, rest: Data)
    requires EntryOk(e) && Encodable(RecordOf(e))
    ensures RecordRows(Encode(RecordOf(e)) + rest) == Ok((|Encode(RecordOf(e))|, RowsOf(e)))
  {
    hide ItemRows;
    hide Spell;
    hide RowsOfPhrase;
    hide Number;
    hide ToLittle;
    var r := RecordOf(e);
    Reads(r, rest);
    SizesOf(r, rest);
    TokenReads(r, rest);
    RunsRead(r, rest);
    match e
    case AddedPhrase(t, p) => PhraseRead(p, t % SLOT_COUNT, 0);
    case RemovedPhrase(t, p) => PhraseRead(p, t % SLOT_COUNT, 0);
    case ModifiedPhrase(t, b, a) =>
      PhraseRead(b, t % SLOT_COUNT, 0);
      PhraseRead(a, t % SLOT_COUNT, 1);
    case NewTotals(_, _, _) =>
  }

  /** On a framed log of phrases the reader yields exactly one row per stored reading, in record order. */
  lemma {:induction false} PronunciationsAreExact(es: seq<Entry>)
    requires AllOk(es)
    ensures Rows(EncodeAll(RecordsOf(es))) == Ok(AllRowsOf(es))
    decreases |es|
  {
    if es != [] {
      hide Encode;
      hide RecordRows;
      hide RowsOf;
      hide RecordOf;
      var rest := EncodeAll(RecordsOf(es[1..]));
      var d := Encode(RecordOf(es[0])) + rest;
      assert EncodeAll(RecordsOf(es)) == d by {
        assert RecordsOf(es)[0] == RecordOf(es[0]) && RecordsOf(es)[1..] == RecordsOf(es[1..]);
      }
      EntryRead(es[0], rest);
      assert Drop(d, |Encode(RecordOf(es[0]))|) == rest;
      PronunciationsAreExact(es[1..]);
    }
  }
}
