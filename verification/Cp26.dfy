/** Keystrokes for the CP26 keyboard: deriving them from a syllable, and the probe that reads them back. */
module Cp26 {
  import opened Outcomes
  import opened Cp26Taps

  const YI := "ㄧ"
  const WU := "ㄨ"
  const YU := "ㄩ"
  const FINAL_A := "ㄚ"
  const FINAL_OU := "ㄡ"

  datatype ToneRow = ToneRow(key: char, tone: int)

  datatype Keyboard = Keyboard(initials: seq<Row>, middles: seq<Row>, finals: seq<Row>, tones: seq<ToneRow>)

  datatype Entry = Entry(symbols: seq<string>, tone: int)

  datatype Error = NoKey(symbol: string) | NoMiddle(symbol: string) | TooMany(count: nat) | NoTone(tone: int)

  // ---- table lookups ----

  predicate Has(table: seq<Row>, symbol: string) { exists i :: 0 <= i < |table| && table[i].symbol == symbol }

  /** The key of the last row with the symbol, NUL if there is none. */
  function LastKey(table: seq<Row>, symbol: string): (key: char) {
    if table == [] then '\0'
    else
      var n := |table| - 1;
      if table[n].symbol == symbol then table[n].key else LastKey(table[..n], symbol)
  }

  /** The first row of a tone, and the first row of a key. */
  function ToneKey(tones: seq<ToneRow>, tone: int): (key: Option<char>) {
    if tones == [] then None else if tones[0].tone == tone then Some(tones[0].key) else ToneKey(tones[1..], tone)
  }

  function ToneOf(tones: seq<ToneRow>, key: char): (tone: Option<int>) {
    if tones == [] then None else if tones[0].key == key then Some(tones[0].tone) else ToneOf(tones[1..], key)
  }

  method Scan(table: seq<Row>, symbol: string) returns (found: bool, key: char)
    ensures found == Has(table, symbol) && key == LastKey(table, symbol)
  {
    found, key := false, '\0';
    for i := 0 to |table|
      invariant found == Has(table[..i], symbol) && key == LastKey(table[..i], symbol)
    {
      assert table[..i + 1][..i] == table[..i];
      if table[i].symbol == symbol {
        assert table[..i + 1][i].symbol == symbol;
        found, key := true, table[i].key;
      }
    }
    assert table[..|table|] == table;
  }

  method KeyForTone(tones: seq<ToneRow>, tone: int) returns (key: Option<char>)
    ensures key == ToneKey(tones, tone)
  {
    for i := 0 to |tones|
      invariant ToneKey(tones, tone) == ToneKey(tones[i..], tone)
    {
      assert tones[i..][1..] == tones[i + 1..];
      if tones[i].tone == tone { return Some(tones[i].key); }
    }
    return None;
  }

  // ---- deriving the keystrokes ----

  function InitialPieces(kb: Keyboard, symbols: seq<string>): (r: seq<Piece>) {
    if symbols == [] then []
    else match PieceOf(kb.initials, symbols[0])
      case Some(p) => [p]
      case None => []
  }

  function FinalPiece(kb: Keyboard, symbol: string): (r: Result<Piece, Error>) {
    match PieceOf(kb.finals, symbol)
    case Some(p) => Ok(p)
    case None => Err(NoKey(symbol))
  }

  /** The final after a middle: its own key once for the two finals that share a key with a middle. */
  function FinalAfter(kb: Keyboard, symbol: string): (r: Result<Piece, Error>) {
    if symbol == FINAL_A then Ok(Piece('u', 1))
    else if symbol == FINAL_OU then Ok(Piece('m', 1))
    else FinalPiece(kb, symbol)
  }

  /** The final without a middle: two taps for those two, since their keys land at the middle probe first. */
  function FinalAlone(kb: Keyboard, symbol: string): (r: Result<Piece, Error>) {
    if symbol == FINAL_A then Ok(Piece('u', 2))
    else if symbol == FINAL_OU then Ok(Piece('m', 2))
    else FinalPiece(kb, symbol)
  }

  function RestPieces(kb: Keyboard, rest: seq<string>): (r: Result<seq<Piece>, Error>) {
    if |rest| == 0 then Ok([])
    else if |rest| == 1 then
      if Has(kb.middles, rest[0]) then Ok([Piece(LastKey(kb.middles, rest[0]), 1)])
      else match FinalAlone(kb, rest[0])
        case Ok(p) => Ok([p])
        case Err(e) => Err(e)
    else if |rest| == 2 then
      if rest[0] == YI && rest[1] == FINAL_A then Ok([Piece('u', 3)])
      else if LastKey(kb.middles, rest[0]) == '\0' then Err(NoMiddle(rest[0]))
      else match FinalAfter(kb, rest[1])
        case Ok(p) => Ok([Piece(LastKey(kb.middles, rest[0]), 1), p])
        case Err(e) => Err(e)
    else Err(TooMany(|rest|))
  }

  function RestSymbols(kb: Keyboard, entry: Entry): (r: seq<string>) {
    if InitialPieces(kb, entry.symbols) == [] then entry.symbols else entry.symbols[1..]
  }

  /** The pieces of a syllable before its tone. */
  function BodyPieces(kb: Keyboard, entry: Entry): (r: Result<seq<Piece>, Error>) {
    match RestPieces(kb, RestSymbols(kb, entry))
    case Ok(rest) => Ok(InitialPieces(kb, entry.symbols) + rest)
    case Err(e) => Err(e)
  }

  function ToneKeys(kb: Keyboard, tone: int): (r: Result<string, Error>) {
    if tone == 0 then Ok("")
    else match ToneKey(kb.tones, tone)
      case Some(key) => Ok([key])
      case None => Err(NoTone(tone))
  }

  function Derive(kb: Keyboard, entry: Entry): (r: Result<string, Error>) {
    match BodyPieces(kb, entry)
    case Err(e) => Err(e)
    case Ok(pieces) =>
      match ToneKeys(kb, entry.tone)
      case Err(e) => Err(e)
      case Ok(tone) => Ok(Keys(pieces) + tone)
  }

  /** No key has more than two rows. */
  ghost predicate AtMostTwo(table: seq<Row>) { forall key :: |KeyRows(table, key)| <= 2 }

  // ---- writing them into a buffer ----

  method EmitTaps(key: char, taps: nat, out: array<char>, len: nat) returns (end: nat)
    requires len + taps <= out.Length
    modifies out
    ensures end == len + taps
    ensures out[..end] == old(out[..len]) + Taps(key, taps) && out[end..] == old(out[end..])
  {
    end := len;
    for i := 0 to taps
      invariant end == len + i
      invariant out[..end] == old(out[..len]) + Taps(key, i) && out[end..] == old(out[end..])
    {
      out[end] := key;
      end := end + 1;
      assert old(out[end - 1..])[1..] == old(out[end..]);
      assert Taps(key, i) + [key] == Taps(key, i + 1);
    }
  }

  /** The pieces of the symbols after the initial, written one by one. */
  method EmitRest(kb: Keyboard, rest: seq<string>, out: array<char>, len: nat) returns (r: Result<nat, Error>)
    requires Grouped(kb.finals) && AtMostTwo(kb.finals) && len + 3 <= out.Length
    modifies out
    ensures r.Ok? <==> RestPieces(kb, rest).Ok?
    ensures r.Err? ==> r.error == RestPieces(kb, rest).error
    ensures r.Ok? ==>
      r.value <= len + 3 && r.value <= out.Length
      && out[..r.value] == old(out[..len]) + Keys(RestPieces(kb, rest).value)
  {
    hide Grouped, AtMostTwo, KeyRows, PieceOf, Has, LastKey, Decode;
    var end := len;
    if |rest| == 2 {
      if rest[0] == YI && rest[1] == FINAL_A {
        end := EmitTaps('u', 3, out, end);
        OnePiece(Piece('u', 3));
      } else {
        var _, middle := Scan(kb.middles, rest[0]);
        if middle == '\0' { return Err(NoMiddle(rest[0])); }
        end := EmitTaps(middle, 1, out, end);
        var piece: Piece;
        if rest[1] == FINAL_A {
          piece := Piece('u', 1);
        } else if rest[1] == FINAL_OU {
          piece := Piece('m', 1);
        } else {
          var found := KeyTaps(kb.finals, rest[1]);
          if found.None? { return Err(NoKey(rest[1])); }
          piece := found.value;
          FewTaps(kb.finals, rest[1]);
        }
        end := EmitTaps(piece.key, piece.taps, out, end);
        TwoPieces(Piece(middle, 1), piece);
      }
    } else if |rest| > 2 {
      return Err(TooMany(|rest|));
    } else if |rest| == 1 {
      var piece: Piece;
      var found, key := Scan(kb.middles, rest[0]);
      if found {
        piece := Piece(key, 1);
      } else if rest[0] == FINAL_A {
        piece := Piece('u', 2);
      } else if rest[0] == FINAL_OU {
        piece := Piece('m', 2);
      } else {
        var final := KeyTaps(kb.finals, rest[0]);
        if final.None? { return Err(NoKey(rest[0])); }
        piece := final.value;
        FewTaps(kb.finals, rest[0]);
      }
      end := EmitTaps(piece.key, piece.taps, out, end);
      OnePiece(piece);
    }
    return Ok(end);
  }

  /** One syllable into a buffer of at least 16 characters: at most six are written. */
  method DeriveSyllable(kb: Keyboard, entry: Entry, out: array<char>) returns (r: Result<nat, Error>)
    requires Grouped(kb.initials) && AtMostTwo(kb.initials) && Grouped(kb.finals) && AtMostTwo(kb.finals)
    requires out.Length >= 16
    modifies out
    ensures r.Ok? <==> Derive(kb, entry).Ok?
    ensures r.Err? ==> r.error == Derive(kb, entry).error
    ensures r.Ok? ==> r.value <= 6 && out[..r.value] == Derive(kb, entry).value
  {
    hide Grouped, AtMostTwo, KeyRows, PieceOf, Has, LastKey, Decode, RestPieces;
    var end, at := 0, 0;
    if |entry.symbols| > 0 {
      var found := KeyTaps(kb.initials, entry.symbols[0]);
      if found.Some? {
        FewTaps(kb.initials, entry.symbols[0]);
        end := EmitTaps(found.value.key, found.value.taps, out, end);
        OnePiece(found.value);
        at := 1;
      }
    }
    ghost var initials := InitialPieces(kb, entry.symbols);
    assert out[..end] == Keys(initials);
    var rest := EmitRest(kb, entry.symbols[at..], out, end);
    assert entry.symbols[at..] == RestSymbols(kb, entry);
    if rest.Err? { return Err(rest.error); }
    KeysConcat(initials, RestPieces(kb, RestSymbols(kb, entry)).value);
    end := rest.value;
    if entry.tone != 0 {
      var key := KeyForTone(kb.tones, entry.tone);
      if key.None? { return Err(NoTone(entry.tone)); }
      out[end] := key.value;
      end := end + 1;
    }
    return Ok(end);
  }

  lemma FewTaps(table: seq<Row>, symbol: string)
    requires Grouped(table) && AtMostTwo(table)
    ensures PieceOf(table, symbol).Some? ==> 1 <= PieceOf(table, symbol).value.taps <= 2
  {
    hide KeyRows, PieceOf, Grouped, Decode;
    FoundDecodes(table, symbol);
  }

  lemma OnePiece(p: Piece)
    ensures Keys([p]) == Taps(p.key, p.taps)
  {
    assert [p][1..] == [];
  }

  lemma TwoPieces(p: Piece, q: Piece)
    ensures Keys([p, q]) == Taps(p.key, p.taps) + Taps(q.key, q.taps)
  {
    assert [p, q][1..] == [q];
    OnePiece(q);
  }

  lemma {:induction false} KeysConcat(ps: seq<Piece>, qs: seq<Piece>)
    ensures Keys(ps + qs) == Keys(ps) + Keys(qs)
  {
    if ps == [] {
      assert ps + qs == qs;
    } else {
      assert (ps + qs)[1..] == ps[1..] + qs;
      KeysConcat(ps[1..], qs);
    }
  }
}
