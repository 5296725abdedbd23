/** The sorted unigram state of one framed log: the comparison's canonical form. */
module UnigramFields {
  import opened Bytes
  import opened Outcomes
  import opened Sorting
  import opened Chunk
  import opened PhraseLog
  import Lexicographic

  datatype LogError = BadFrame(why: FrameError) | Truncated | InvalidTotals | ShortItem | UnknownKind | UnknownLibrary

  /** The payload and the offset that the reader's helpers advance. */
  class Cursor {
    const payload: Data
    var offset: nat

    ghost predicate Valid()
      reads this
    {
      offset <= |payload|
    }

    ghost function Rest(): (d: Data)
      reads this
      requires Valid()
    {
      payload[offset..]
    }

    constructor (payload: Data)
      ensures Valid() && this.payload == payload && offset == 0
    {
      this.payload := payload;
      offset := 0;
    }

    /** Consumes `size` bytes, or none when they extend past the payload. */
    method Take(size: nat) returns (r: Option<Data>)
      requires Valid()
      modifies this`offset
      ensures Valid()
      ensures r.Some? <==> size <= |old(Rest())|
      ensures r.Some? ==> r.value == old(Rest())[..size] && Rest() == old(Rest())[size..]
      ensures r.None? ==> offset == old(offset)
    {
      var end := offset + size;
      if end > |payload| { return None; }
      r := Some(payload[offset..end]);
      offset := end;
    }

    /** Consumes a two-byte number. */
    method TakeU16() returns (r: Option<nat>)
      requires Valid()
      modifies this`offset
      ensures Valid()
      ensures r.Some? <==> 2 <= |old(Rest())|
      ensures r.Some? ==> r.value == Number(old(Rest()), 0, 2) && Rest() == old(Rest())[2..]
      ensures r.None? ==> offset == old(offset)
    {
      var bytes := Take(2);
      r := if bytes.None? then None else Some(Little(bytes.value));
    }
  }

  // ---- the token of a field ----

  /** The slot in the low 24 bits and the library above them. */
  function PublicToken(token: nat, library: nat): (t: nat) {
    token % SLOT_COUNT + library * SLOT_COUNT
  }

  /** `PHRASE_INDEX_MAKE_TOKEN` and `PHRASE_INDEX_LIBRARY_INDEX`: four bits of library above the slot. */
  function MakeToken(library: nat, token: nat): (t: nat) {
    library % 16 * SLOT_COUNT + token % SLOT_COUNT
  }

  function LibraryIndex(token: nat): (l: nat) { token / SLOT_COUNT % 16 }

  /** For the libraries a log can name, the normalised token is the public one: it keeps the slot and carries
      the library, whatever library bits the log held. */
  lemma TokenIsPublic(token: nat, library: nat)
    requires library < 16
    ensures PublicToken(token, library) == MakeToken(library, token)
    ensures LibraryIndex(PublicToken(token, library)) == library
    ensures PublicToken(token, library) % SLOT_COUNT == token % SLOT_COUNT
    ensures forall other: nat :: PublicToken(PublicToken(token, other), library) == PublicToken(token, library)
  {
    forall other: nat
      ensures PublicToken(token, other) % SLOT_COUNT == token % SLOT_COUNT
    {
    }
  }

  // ---- one record ----

  /** The field of the record at the front of `d`, and the bytes it takes, in the order the reader checks. */
  function FieldAt(d: Data, library: Option<nat>): (r: Result<(Data, nat), LogError>) {
    if |d| < 8 then Err(Truncated)
    else
      var kind := Number(d, 0, 4);
      if kind != 4 && library.None? then Err(UnknownLibrary)
      else
        var token := if kind == 4 then d[4..8] else ToLittle(PublicToken(Number(d, 4, 4), library.value), 4);
        if kind == 4 then
          if |d| < 10 then Err(Truncated)
          else if Number(d, 4, 4) != 0 || Number(d, 8, 2) != 4 then Err(InvalidTotals)
          else if |d| < 18 then Err(Truncated)
          else Ok((token + d[10..14] + d[14..18], 18))
        else if kind == 3 then
          if |d| < 12 then Err(Truncated)
          else
            var before, after := Number(d, 8, 2), Number(d, 10, 2);
            if |d| < 12 + before + after then Err(Truncated)
            else if before < 6 || after < 6 then Err(ShortItem)
            else Ok((token + d[14..18] + d[12 + before + 2..12 + before + 6], 12 + before + after))
        else if kind == 1 || kind == 2 then
          if |d| < 10 then Err(Truncated)
          else
            var size := Number(d, 8, 2);
            if |d| < 10 + size then Err(Truncated)
            else if size < 6 then Err(ShortItem)
            else Ok((token + ToLittle(kind, 4) + d[12..16], 10 + size))
        else Err(UnknownKind)
  }

  /** Every field has exactly twelve bytes. */
  lemma FieldsAreTwelve(d: Data, library: Option<nat>)
    requires FieldAt(d, library).Ok?
    ensures |FieldAt(d, library).value.0| == 12 && 10 <= FieldAt(d, library).value.1 <= |d|
  {
  }

  function Fields(d: Data, library: Option<nat>): (r: Result<seq<Data>, LogError>)
    decreases |d|
  {
    if d == [] then Ok([])
    else match FieldAt(d, library)
      case Err(e) => Err(e)
      case Ok(first) =>
        FieldsAreTwelve(d, library);
        match Fields(d[first.1..], library)
        case Err(e) => Err(e)
        case Ok(rest) => Ok([first.0] + rest)
  }

  lemma ZeroToken(d: Data)
    requires |d| >= 8
    ensures d[4..8] == [0, 0, 0, 0] <==> Number(d, 4, 4) == 0
  {
    LittleOfFour(d[4..8]);
  }

  /** Reads one record through the cursor. */
  method ReadField(cursor: Cursor, library: Option<nat>) returns (r: Result<Data, LogError>)
    requires cursor.Valid()
    modifies cursor`offset
    ensures cursor.Valid()
    ensures var spec := FieldAt(old(cursor.Rest()), library);
      match spec
      case Err(e) => r == Err(e)
      case Ok(found) =>
        && found.1 <= |old(cursor.Rest())| && r == Ok(found.0)
        && cursor.Rest() == old(cursor.Rest())[found.1..]
  {
    hide ToLittle;
    hide Little;
    ghost var d := cursor.Rest();
    var kindBytes := cursor.Take(4);
    if kindBytes.None? { return Err(Truncated); }
    var kind := Little(kindBytes.value);
    var tokenBytes := cursor.Take(4);
    if tokenBytes.None? { return Err(Truncated); }
    var token := tokenBytes.value;
    assert token == d[4..8] && kind == Number(d, 0, 4);
    if kind != 4 {
      if library.None? { return Err(UnknownLibrary); }
      token := ToLittle(PublicToken(Little(token), library.value), 4);
    }
    assert cursor.Rest() == d[8..];
    if kind == 4 {
      r := ReadTotals(cursor, token);
      ZeroToken(d);
    } else if kind == 3 {
      r := ReadModified(cursor, token);
    } else if kind == 1 || kind == 2 {
      r := ReadItem(cursor, token, kind);
    } else {
      r := Err(UnknownKind);
    }
    SliceNumbers(d);
  }

  lemma SliceNumbers(d: Data)
    requires |d| >= 8
    ensures |d| >= 10 ==> Number(d[8..], 0, 2) == Number(d, 8, 2)
    ensures |d| >= 12 ==> Number(d[8..], 2, 2) == Number(d, 10, 2)
    ensures forall n :: 0 <= n <= |d| - 8 ==> d[8..][n..] == d[8 + n..]
    ensures forall i, j :: 0 <= i <= j <= |d| - 8 ==> d[8..][i..j] == d[8 + i..8 + j]
  {
    if |d| >= 10 { assert d[8..][0..2] == d[8..10]; }
    if |d| >= 12 { assert d[8..][2..4] == d[10..12]; }
  }

  method ReadTotals(cursor: Cursor, token: Data) returns (r: Result<Data, LogError>)
    requires cursor.Valid()
    modifies cursor`offset
    ensures cursor.Valid()
    ensures var b := old(cursor.Rest());
      if |b| < 2 then r == Err(Truncated)
      else if token != [0, 0, 0, 0] || Number(b, 0, 2) != 4 then r == Err(InvalidTotals)
      else if |b| < 10 then r == Err(Truncated)
      else r == Ok(token + b[2..6] + b[6..10]) && cursor.Rest() == b[10..]
  {
    hide Little;
    ghost var b := cursor.Rest();
    var size := cursor.TakeU16();
    if size.None? { return Err(Truncated); }
    if token != [0, 0, 0, 0] || size.value != 4 { return Err(InvalidTotals); }
    var before := cursor.Take(size.value);
    if before.None? { return Err(Truncated); }
    var after := cursor.Take(size.value);
    if after.None? { return Err(Truncated); }
    assert before.value == b[2..6] && after.value == b[6..10];
    r := Ok(token + before.value + after.value);
  }

  method ReadModified(cursor: Cursor, token: Data) returns (r: Result<Data, LogError>)
    requires cursor.Valid()
    modifies cursor`offset
    ensures cursor.Valid()
    ensures var b := old(cursor.Rest());
      if |b| < 4 then r == Err(Truncated)
      else
        var m, n := Number(b, 0, 2), Number(b, 2, 2);
        if |b| < 4 + m + n then r == Err(Truncated)
        else if m < 6 || n < 6 then r == Err(ShortItem)
        else r == Ok(token + b[6..10] + b[4 + m + 2..4 + m + 6]) && cursor.Rest() == b[4 + m + n..]
  {
    hide Number;
    ghost var b := cursor.Rest();
    var m := cursor.TakeU16();
    if m.None? { return Err(Truncated); }
    var n := cursor.TakeU16();
    SecondSize(b);
    if n.None? { return Err(Truncated); }
    var runs := TakeRuns(cursor, m.value, n.value);
    if runs.None? { return Err(Truncated); }
    if m.value < 6 || n.value < 6 { return Err(ShortItem); }
    var (before, after) := runs.value;
    FrequencySlices(b, m.value, n.value);
    r := Ok(token + before[2..6] + after[2..6]);
  }

  /** Two runs of bytes, one after the other. */
  method TakeRuns(cursor: Cursor, m: nat, n: nat) returns (r: Option<(Data, Data)>)
    requires cursor.Valid()
    modifies cursor`offset
    ensures cursor.Valid()
    ensures var b := old(cursor.Rest());
      && (r.Some? <==> m + n <= |b|)
      && (r.Some? ==> r.value == (b[..m], b[m..][..n]) && cursor.Rest() == b[m..][n..])
  {
    var before := cursor.Take(m);
    if before.None? { return None; }
    var after := cursor.Take(n);
    if after.None? { return None; }
    r := Some((before.value, after.value));
  }

  /** The second size stands behind the first. */
  lemma SecondSize(b: Data)
    ensures |b| >= 4 ==> b[2..][2..] == b[4..] && Number(b[2..], 0, 2) == Number(b, 2, 2)
  {
    if |b| >= 4 { assert b[2..][0..2] == b[2..4] && b[2..][2..] == b[4..]; }
  }

  lemma FrequencySlices(b: Data, m: nat, n: nat)
    requires 6 <= m && 6 <= n && |b| >= 4 + m + n
    ensures b[4..][..m][2..6] == b[6..10] && b[4..][m..][..n][2..6] == b[4 + m + 2..4 + m + 6]
    ensures b[4..][m..][n..] == b[4 + m + n..]
  {
    RunAfter(b, 4, m);
    RunAfter(b, 4 + m, n);
    SliceOfSlice(b, 4, 4 + m, 2, 6);
    SliceOfSlice(b, 4 + m, 4 + m + n, 2, 6);
  }

  lemma RunAfter(d: Data, from: nat, n: nat)
    requires from + n <= |d|
    ensures d[from..][..n] == d[from..from + n] && d[from..][n..] == d[from + n..]
  {
    var a, b := d[from..][..n], d[from..from + n];
    assert |a| == |b| && forall k :: 0 <= k < |a| ==> a[k] == b[k];
    var x, y := d[from..][n..], d[from + n..];
    assert |x| == |y| && forall k :: 0 <= k < |x| ==> x[k] == y[k];
  }

  method ReadItem(cursor: Cursor, token: Data, kind: nat) returns (r: Result<Data, LogError>)
    requires cursor.Valid()
    modifies cursor`offset
    ensures cursor.Valid()
    ensures var b := old(cursor.Rest());
      if |b| < 2 then r == Err(Truncated)
      else
        var n := Number(b, 0, 2);
        if |b| < 2 + n then r == Err(Truncated)
        else if n < 6 then r == Err(ShortItem)
        else r == Ok(token + ToLittle(kind, 4) + b[4..8]) && cursor.Rest() == b[2 + n..]
  {
    hide Little;
    ghost var b := cursor.Rest();
    var n := cursor.TakeU16();
    if n.None? { return Err(Truncated); }
    var item := cursor.Take(n.value);
    if item.None? { return Err(Truncated); }
    if n.value < 6 { return Err(ShortItem); }
    assert item.value[2..6] == b[4..8];
    r := Ok(token + ToLittle(kind, 4) + item.value[2..6]);
  }

  // ---- the whole log ----

  predicate AtMost(a: Data, b: Data) { Lexicographic.AtMost(ByteRank, a, b) }

  function Concat(xs: seq<Data>): (d: Data) {
    if xs == [] then [] else xs[0] + Concat(xs[1..])
  }

  /** The unigram state of a log: its fields, sorted and joined. */
  function State(data: Data, library: Option<nat>): (r: Result<Data, LogError>) {
    match Unframed(data)
    case Err(e) => Err(BadFrame(e))
    case Ok(payload) =>
      match Fields(payload, library)
      case Err(e) => Err(e)
      case Ok(fields) => Ok(Concat(Sort(AtMost, fields)))
  }

  method Extract(data: Data, library: Option<nat>) returns (r: Result<Data, LogError>)
    ensures r == State(data, library)
  {
    var frame := CheckFrame(data);
    if frame.Err? { return Err(BadFrame(frame.error)); }
    var fields := ReadFields(frame.value, library);
    if fields.Err? { return Err(fields.error); }
    r := Ok(Concat(Sort(AtMost, fields.value)));
  }

  method ReadFields(payload: Data, library: Option<nat>) returns (r: Result<seq<Data>, LogError>)
    ensures r == Fields(payload, library)
  {
    hide Fields;
    var cursor := new Cursor(payload);
    var fields: seq<Data> := [];
    assert cursor.Rest() == payload;
    OntoNone(Fields(payload, library));
    while cursor.offset < |cursor.payload|
      invariant cursor.Valid() && cursor.payload == payload
      invariant Fields(payload, library) == Onto(fields, Fields(cursor.Rest(), library))
      decreases |cursor.payload| - cursor.offset
    {
      hide FieldAt, Onto;
      ghost var d := cursor.Rest();
      FieldsUnfold(d, library);
      var field := ReadField(cursor, library);
      OntoError(fields, Fields(d, library));
      if field.Err? { return Err(field.error); }
      FieldsAreTwelve(d, library);
      OntoTwice(fields, field.value, Fields(cursor.Rest(), library));
      fields := fields + [field.value];
    }
    FieldsOfNone(cursor.Rest(), library);
    assert fields + [] == fields;
    r := Ok(fields);
  }

  /** Fields already read, before those still to come. */
  ghost function Onto(fields: seq<Data>, r: Result<seq<Data>, LogError>): (all: Result<seq<Data>, LogError>) {
    match r
    case Err(e) => Err(e)
    case Ok(rest) => Ok(fields + rest)
  }

  lemma OntoNone(r: Result<seq<Data>, LogError>)
    ensures Onto([], r) == r
  {
    if r.Ok? { assert [] + r.value == r.value; }
  }

  lemma OntoError(fields: seq<Data>, r: Result<seq<Data>, LogError>)
    ensures r.Err? ==> Onto(fields, r) == r
  {
  }

  lemma OntoTwice(fields: seq<Data>, field: Data, r: Result<seq<Data>, LogError>)
    ensures Onto(fields, Onto([field], r)) == Onto(fields + [field], r)
  {
    if r.Ok? { assert fields + ([field] + r.value) == fields + [field] + r.value; }
  }

  lemma FieldsOfNone(d: Data, library: Option<nat>)
    requires d == []
    ensures Fields(d, library) == Ok([])
  {
    hide FieldAt;
  }

  lemma FieldsUnfold(d: Data, library: Option<nat>)
    requires d != []
    ensures FieldAt(d, library).Err? ==> Fields(d, library) == Err(FieldAt(d, library).error)
    ensures FieldAt(d, library).Ok? ==>
      var first := FieldAt(d, library).value;
      first.1 <= |d| && Fields(d, library) == Onto([first.0], Fields(d[first.1..], library))
  {
    hide FieldAt;
    if FieldAt(d, library).Ok? { FieldsAreTwelve(d, library); }
  }

  // ---- what is accepted ----

  predicate Readable(r: Record, library: Option<nat>) {
    match r
    case Totals(token, before, _) => token == 0 && |before| == 4
    case Modified(_, before, after) => library.Some? && |before| >= 6 && |after| >= 6
    case Added(_, item) => library.Some? && |item| >= 6
    case Removed(_, item) => library.Some? && |item| >= 6
  }

  /** The field of a record: its public token and its two four-byte values. */
  function FieldOf(r: Record, library: Option<nat>): (d: Data)
    requires Readable(r, library) && Encodable(r)
  {
    match r
    case Totals(_, before, after) => [0, 0, 0, 0] + before + after
    case Modified(token, before, after) => ToLittle(PublicToken(token, library.value), 4) + before[2..6] + after[2..6]
    case Added(token, item) => ToLittle(PublicToken(token, library.value), 4) + ToLittle(1, 4) + item[2..6]
    case Removed(token, item) => ToLittle(PublicToken(token, library.value), 4) + ToLittle(2, 4) + item[2..6]
  }

  lemma TotalsMatch(d: Data, library: Option<nat>)
    requires |d| >= 10 && Number(d, 0, 4) == 4
    ensures FieldAt(d, library).Ok? <==> Decode(d).Some? && Readable(Decode(d).value, library)
    ensures FieldAt(d, library).Ok? ==>
      Encodable(Decode(d).value)
          && FieldAt(d, library).value == (FieldOf(Decode(d).value, library), |Encode(Decode(d).value)|)
  {
    hide Little;
    hide ToLittle;
    SliceNumbers(d);
    ZeroToken(d);
    if Decode(d).Some? { DecodeIsEncode(d); }
  }

  lemma ModifiedMatch(d: Data, library: Option<nat>)
    requires |d| >= 10 && Number(d, 0, 4) == 3
    ensures FieldAt(d, library).Ok? <==> Decode(d).Some? && Readable(Decode(d).value, library)
    ensures FieldAt(d, library).Ok? ==>
      Encodable(Decode(d).value)
          && FieldAt(d, library).value == (FieldOf(Decode(d).value, library), |Encode(Decode(d).value)|)
  {
    hide Little, ToLittle;
    SliceNumbers(d);
    if Decode(d).Some? {
      DecodeIsEncode(d);
      RunFrequencies(d, Number(d, 8, 2), Number(d, 10, 2));
    }
  }

  /** The frequencies of two runs that follow their sizes. */
  lemma RunFrequencies(d: Data, m: nat, n: nat)
    requires |d| >= 12 + m + n
    ensures m >= 6 ==> d[12..12 + m][2..6] == d[14..18]
    ensures n >= 6 ==> d[12 + m..12 + m + n][2..6] == d[12 + m + 2..12 + m + 6]
  {
    if m >= 6 { SliceOfSlice(d, 12, 12 + m, 2, 6); }
    if n >= 6 { SliceOfSlice(d, 12 + m, 12 + m + n, 2, 6); }
  }

  lemma SliceOfSlice(d: Data, from: nat, end: nat, i: nat, j: nat)
    requires from <= end <= |d| && i <= j <= end - from
    ensures d[from..end][i..j] == d[from + i..from + j]
  {
    var a, b := d[from..end][i..j], d[from + i..from + j];
    assert |a| == |b| && forall k :: 0 <= k < |a| ==> a[k] == b[k];
  }

  lemma ItemMatch(d: Data, library: Option<nat>)
    requires |d| >= 10 && Number(d, 0, 4) in {1, 2}
    ensures FieldAt(d, library).Ok? <==> Decode(d).Some? && Readable(Decode(d).value, library)
    ensures FieldAt(d, library).Ok? ==>
      Encodable(Decode(d).value)
          && FieldAt(d, library).value == (FieldOf(Decode(d).value, library), |Encode(Decode(d).value)|)
  {
    hide Little;
    hide ToLittle;
    SliceNumbers(d);
    if Decode(d).Some? {
      DecodeIsEncode(d);
      var size := Number(d, 8, 2);
      assert Decode(d).value.item == d[10..10 + size];
      if size >= 6 { assert d[10..10 + size][2..6] == d[12..16]; }
    }
  }

  /** The reader takes a record exactly when the reference decoder does and the record is readable. */
  lemma FieldMatchesDecode(d: Data, library: Option<nat>)
    ensures FieldAt(d, library).Ok? <==> Decode(d).Some? && Readable(Decode(d).value, library)
    ensures FieldAt(d, library).Ok? ==>
      Encodable(Decode(d).value)
          && FieldAt(d, library).value == (FieldOf(Decode(d).value, library), |Encode(Decode(d).value)|)
  {
    if |d| >= 10 {
      var kind := Number(d, 0, 4);
      if kind == 4 { TotalsMatch(d, library); }
      else if kind == 3 { ModifiedMatch(d, library); }
      else if kind == 1 || kind == 2 { ItemMatch(d, library); }
    }
  }

  ghost predicate AllReadable(rs: seq<Record>, library: Option<nat>) {
    forall i :: 0 <= i < |rs| ==> Encodable(rs[i]) && Readable(rs[i], library)
  }

  ghost function FieldsOf(rs: seq<Record>, library: Option<nat>): (fs: seq<Data>)
    requires AllReadable(rs, library)
    ensures |fs| == |rs|
  {
    seq(|rs|, i requires 0 <= i < |rs| => FieldOf(rs[i], library))
  }

  /** A payload is accepted exactly when it is the encoding of readable records; the fields are then theirs, one
      each, in order. */
  lemma {:induction false} AcceptedIff(d: Data, library: Option<nat>)
    ensures Fields(d, library).Ok? <==> DecodeAll(d).Some? && AllReadable(DecodeAll(d).value, library)
    ensures Fields(d, library).Ok? ==> Fields(d, library).value == FieldsOf(DecodeAll(d).value, library)
    decreases |d|
  {
    if d != [] {
      hide FieldAt;
      hide Decode;
      hide Readable;
      hide FieldOf;
      hide Encode;
      FieldMatchesDecode(d, library);
      if Decode(d).Some? {
        DecodeIsEncode(d);
        var n := |Encode(Decode(d).value)|;
        AcceptedIff(d[n..], library);
        if DecodeAll(d[n..]).Some? {
          AcceptedStep(Decode(d).value, DecodeAll(d[n..]).value, library);
        }
      }
    }
  }

  lemma AcceptedStep(first: Record, rest: seq<Record>, library: Option<nat>)
    requires Encodable(first)
    ensures AllReadable([first] + rest, library) <==> Readable(first, library) && AllReadable(rest, library)
    ensures AllReadable([first] + rest, library) ==>
              FieldsOf([first] + rest, library) == [FieldOf(first, library)] + FieldsOf(rest, library)
  {
    hide FieldOf;
    hide Readable;
    hide Encodable;
    var all := [first] + rest;
    assert all[0] == first && forall i :: 0 <= i < |rest| ==> all[i + 1] == rest[i];
    if AllReadable(all, library) {
      forall i | 0 <= i < |rest|
        ensures Encodable(rest[i]) && Readable(rest[i], library)
      {
        assert all[i + 1] == rest[i];
      }
    }
  }

  const FIELD := 12

  /** The state cut into twelve-byte fields, as the re-reading of its three words does. */
  function Cut(d: Data): (xs: seq<Data>) {
    if |d| < FIELD then [] else [d[..FIELD]] + Cut(d[FIELD..])
  }

  ghost predicate AllTwelve(xs: seq<Data>) {
    forall i :: 0 <= i < |xs| ==> |xs[i]| == FIELD
  }

  lemma {:induction false} CutInverts(xs: seq<Data>)
    requires AllTwelve(xs)
    ensures Cut(Concat(xs)) == xs && |Concat(xs)| == FIELD * |xs|
  {
    if xs != [] {
      CutInverts(xs[1..]);
      var d := Concat(xs);
      assert d[..FIELD] == xs[0] && d[FIELD..] == Concat(xs[1..]);
      assert xs == [xs[0]] + xs[1..];
    }
  }

  lemma {:induction false} FieldsTwelve(d: Data, library: Option<nat>)
    requires Fields(d, library).Ok?
    ensures AllTwelve(Fields(d, library).value)
    decreases |d|
  {
    if d != [] {
      hide FieldAt;
      FieldsAreTwelve(d, library);
      FieldsTwelve(d[FieldAt(d, library).value.1..], library);
    }
  }

  lemma AtMostIsAnOrder()
    ensures TotalPreorder(AtMost)
    ensures forall a, b :: AtMost(a, b) && AtMost(b, a) ==> a == b
  {
    forall a: Data, b: Data
      ensures AtMost(a, b) || AtMost(b, a)
      ensures AtMost(a, b) && AtMost(b, a) ==> a == b
    {
      Lexicographic.Total(ByteRank, a, b);
      assert Lexicographic.Injective(ByteRank);
      if AtMost(a, b) && AtMost(b, a) { Lexicographic.Antisymmetric(ByteRank, a, b); }
    }
    forall a: Data, b: Data, c: Data | AtMost(a, b) && AtMost(b, c)
      ensures AtMost(a, c)
    {
      Lexicographic.Transitive(ByteRank, a, b, c);
    }
  }

  /** Bytes `a` come strictly before bytes `b`: they are a proper beginning of them, or have the smaller byte where they
      first differ. */
  ghost predicate BytesLess(a: Data, b: Data) {
    exists n: nat :: n <= |a| && n < |b| && a[..n] == b[..n] && (n < |a| ==> a[n] < b[n])
  }

  lemma AtMostMeans(a: Data, b: Data)
    ensures AtMost(a, b) <==> a == b || BytesLess(a, b)
  {
    assert Lexicographic.Injective(ByteRank);
    Lexicographic.AtMostIsParting(ByteRank, a, b);
    if n: nat :| Lexicographic.Parts(ByteRank, a, b, n) { assert a[..n] == b[..n]; }
    if n: nat :| n <= |a| && n < |b| && a[..n] == b[..n] && (n < |a| ==> a[n] < b[n]) {
      assert Lexicographic.Parts(ByteRank, a, b, n);
    }
  }

  lemma FieldsAscend(xs: seq<Data>)
    ensures multiset(Sort(AtMost, xs)) == multiset(xs)
    ensures forall i, j :: 0 <= i < j < |Sort(AtMost, xs)| ==>
      Sort(AtMost, xs)[i] == Sort(AtMost, xs)[j] || BytesLess(Sort(AtMost, xs)[i], Sort(AtMost, xs)[j])
  {
    hide BytesLess;
    AtMostIsAnOrder();
    SortSorts(AtMost, xs);
    SortKeepsElements(AtMost, xs);
    hide AtMost;
    var ys := Sort(AtMost, xs);
    forall i, j | 0 <= i < j < |ys|
      ensures ys[i] == ys[j] || BytesLess(ys[i], ys[j])
    {
      AtMostMeans(ys[i], ys[j]);
    }
  }

  lemma SortedTwelve(xs: seq<Data>)
    requires AllTwelve(xs)
    ensures AllTwelve(Sort(AtMost, xs)) && Cut(Concat(Sort(AtMost, xs))) == Sort(AtMost, xs)
  {
    var ys := Sort(AtMost, xs);
    SortMembers(AtMost, xs);
    forall i | 0 <= i < |ys|
      ensures |ys[i]| == FIELD
    {
      assert ys[i] in xs;
    }
    CutInverts(ys);
  }

  /** Twelve bytes per record, and re-reading them gives the fields back, sorted. */
  lemma StateReadsBack(data: Data, library: Option<nat>)
    requires State(data, library).Ok?
    ensures var fields := Fields(data[FRAME..], library);
      && fields.Ok?
      && |State(data, library).value| == FIELD * |fields.value|
      && Cut(State(data, library).value) == Sort(AtMost, fields.value)
    ensures var fields, cut := Fields(data[FRAME..], library).value, Cut(State(data, library).value);
      && multiset(cut) == multiset(fields)
      && forall i, j :: 0 <= i < j < |cut| ==> cut[i] == cut[j] || BytesLess(cut[i], cut[j])
  {
    FieldsAscend(Fields(data[FRAME..], library).value);
    var fields := Fields(data[FRAME..], library).value;
    FieldsTwelve(data[FRAME..], library);
    SortedTwelve(fields);
    CutInverts(Sort(AtMost, fields));
  }

  /** Two accepted logs have the same state exactly when they hold the same fields, each as often, in any order
      of their records. */
  lemma StateIsCanonical(data: Data, data': Data, library: Option<nat>, library': Option<nat>)
    requires State(data, library).Ok? && State(data', library').Ok?
    ensures State(data, library) == State(data', library') <==>
            multiset(Fields(data[FRAME..], library).value) == multiset(Fields(data'[FRAME..], library').value)
  {
    hide Fields;
    hide Sort;
    var xs, ys := Fields(data[FRAME..], library).value, Fields(data'[FRAME..], library').value;
    StateReadsBack(data, library);
    StateReadsBack(data', library');
    SortKeepsElements(AtMost, xs);
    SortKeepsElements(AtMost, ys);
    if multiset(xs) == multiset(ys) {
      AtMostIsAnOrder();
      SortSorts(AtMost, xs);
      SortSorts(AtMost, ys);
      SortedIsCanonical(AtMost, Sort(AtMost, xs), Sort(AtMost, ys));
    }
  }
}
