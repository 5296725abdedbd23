/** The engine's repeat-count probe, and when it reads derived keystrokes back. */
module Cp26Probe {
  import opened Outcomes
  import opened Cp26Taps
  import opened Cp26

  datatype Reading = Reading(initial: string, middle: string, final: string, tone: int)

  // ---- the probe ----

  /** The row a run of `count` taps picks from the first two rows of its key. */
  function Cycled(rows: seq<string>, count: nat): (symbol: string)
    requires rows != [] && count >= 1
  {
    if |rows| == 1 || (count - 1) % 2 == 0 then rows[0] else rows[1]
  }

  /** A slot probe: the symbol picked, and what is left of the input. */
  function ProbeTable(table: seq<Row>, s: string): (r: (string, string)) {
    if s == "" || KeyRows(table, s[0]) == [] then ("", s)
    else (Cycled(KeyRows(table, s[0]), Run(s)), s[Run(s)..])
  }

  /** The middle a run of a key stands for, with the specials of three keys. */
  function MiddleOf(key: char, count: nat): (symbol: string)
    requires count >= 1
  {
    if key == 'u' then if (count - 1) % 3 == 1 then "" else YI
    else if key == 'm' then if (count - 1) % 2 == 0 then YU else ""
    else if key == 'j' then WU
    else ""
  }

  /** The final the same run already carries. */
  function EarlyFinal(key: char, count: nat): (symbol: string)
    requires count >= 1
  {
    if key == 'u' then if (count - 1) % 3 == 0 then "" else FINAL_A
    else if key == 'm' then if (count - 1) % 2 == 0 then "" else FINAL_OU
    else ""
  }

  /** The middle and final probes: both symbols, and what is left. */
  function ProbeRest(kb: Keyboard, s: string): (r: (string, string, string)) {
    if s == "" then ("", "", "")
    else
      var n := Run(s);
      var middle, early := MiddleOf(s[0], n), EarlyFinal(s[0], n);
      var left := if KeyRows(kb.middles, s[0]) == [] then s else s[n..];
      if left == "" || early != "" then (middle, early, left)
      else var (final, end) := ProbeTable(kb.finals, left); (middle, final, end)
  }

  function ProbeBody(kb: Keyboard, s: string, tone: int): (r: Option<Reading>) {
    var (initial, left) := ProbeTable(kb.initials, s);
    var (middle, final, end) := ProbeRest(kb, left);
    if end != "" then None else Some(Reading(initial, middle, final, tone))
  }

  /** One key of the CP26 parser; where tones are used, a tone key at the end is cut off first. */
  function Probe(kb: Keyboard, input: string, useTone: bool): (r: Option<Reading>) {
    if input == "" then None
    else
      var n := |input| - 1;
      var tone := if useTone then ToneOf(kb.tones, input[n]) else None;
      var body := if tone.Some? then input[..n] else input;
      if body == "" then None else ProbeBody(kb, body, if tone.Some? then tone.value else 0)
  }

  /** The key of an input: what the index holds for the joined symbols, with the tone. */
  function ParseKey<K>(kb: Keyboard, input: string, useTone: bool, index: string -> Option<K>): (r: Option<(K, int)>) {
    match Probe(kb, input, useTone)
    case None => None
    case Some(found) =>
      match index(found.initial + found.middle + found.final)
      case None => None
      case Some(key) => Some((key, found.tone))
  }

  // ---- what an entry should read as ----

  function RestReading(kb: Keyboard, rest: seq<string>): (r: (string, string)) {
    if |rest| == 0 then ("", "")
    else if |rest| == 1 then if Has(kb.middles, rest[0]) then (rest[0], "") else ("", rest[0])
    else (rest[0], rest[1])
  }

  function Meant(kb: Keyboard, entry: Entry): (r: Reading) {
    var initial := if InitialPieces(kb, entry.symbols) == [] then "" else entry.symbols[0];
    var (middle, final) := RestReading(kb, RestSymbols(kb, entry));
    Reading(initial, middle, final, entry.tone)
  }

  /** What the pinned tables satisfy: rows of a key are adjacent and at most two; three middles, whose keys are no
      initial keys and carry one final (none for `j`); and each tone has a key of its own. */
  ghost predicate WellFormed(kb: Keyboard) {
    && Grouped(kb.initials) && AtMostTwo(kb.initials) && Grouped(kb.finals) && AtMostTwo(kb.finals)
    && !Has(kb.initials, "") && !Has(kb.finals, "")
    && kb.middles == [Row('j', WU), Row('m', YU), Row('u', YI)]
    && KeyRows(kb.initials, 'u') == KeyRows(kb.initials, 'm') == KeyRows(kb.initials, 'j') == []
    && KeyRows(kb.finals, 'u') == [FINAL_A] && KeyRows(kb.finals, 'm') == [FINAL_OU] && KeyRows(kb.finals, 'j') == []
    && TonesDistinct(kb.tones)
  }

  ghost predicate TonesDistinct(tones: seq<ToneRow>) {
    && (forall i :: 0 <= i < |tones| ==> tones[i].tone != 0)
    && (forall i, j :: 0 <= i < j < |tones| ==> tones[i].key != tones[j].key)
  }

  // ---- single probes ----

  predicate MiddleKey(key: char) { key == 'u' || key == 'm' || key == 'j' }

  lemma Snoc(table: seq<Row>, row: Row, key: char, symbol: string)
    ensures KeyRows(table + [row], key) == KeyRows(table, key) + if row.key == key then [row.symbol] else []
    ensures LastKey(table + [row], symbol) == if row.symbol == symbol then row.key else LastKey(table, symbol)
  {
    assert (table + [row])[..|table|] == table;
  }

  lemma ThreeRows(table: seq<Row>, a: Row, b: Row, c: Row, key: char, symbol: string)
    requires table == [a, b, c]
    ensures KeyRows(table, key) == [] <==> key != a.key && key != b.key && key != c.key
    ensures LastKey(table, symbol) ==
      if symbol == c.symbol then c.key
      else if symbol == b.symbol then b.key
      else if symbol == a.symbol then a.key
      else '\0'
  {
    assert [] + [a] == [a] && [a] + [b] == [a, b] && [a, b] + [c] == [a, b, c];
    Snoc([], a, key, symbol);
    Snoc([a], b, key, symbol);
    Snoc([a, b], c, key, symbol);
  }

  lemma MiddleRows(kb: Keyboard, key: char)
    requires WellFormed(kb)
    ensures KeyRows(kb.middles, key) != [] <==> MiddleKey(key)
  {
    hide Grouped, AtMostTwo, KeyRows, TonesDistinct, Has;
    ThreeRows(kb.middles, Row('j', WU), Row('m', YU), Row('u', YI), key, "");
  }

  lemma MiddleSymbols(kb: Keyboard, symbol: string)
    requires WellFormed(kb)
    ensures Has(kb.middles, symbol) <==> symbol in {YI, YU, WU}
    ensures LastKey(kb.middles, symbol) ==
      if symbol == YI then 'u' else if symbol == YU then 'm' else if symbol == WU then 'j' else '\0'
  {
    hide Grouped, AtMostTwo, KeyRows, TonesDistinct, LastKey;
    ThreeRows(kb.middles, Row('j', WU), Row('m', YU), Row('u', YI), 'u', symbol);
    assert kb.middles[0].symbol == WU && kb.middles[1].symbol == YU && kb.middles[2].symbol == YI;
  }

  /** With at most two rows the probe's choice is the repeat-count law. */
  lemma CycledIsDecode(table: seq<Row>, p: Piece)
    requires p.taps >= 1 && 1 <= |KeyRows(table, p.key)| <= 2
    ensures Decode(table, p) == Some(Cycled(KeyRows(table, p.key), p.taps))
  {
    hide KeyRows;
    ModuloOne(p.taps - 1);
  }

  lemma ModuloOne(n: nat)
    ensures n % 1 == 0
  {
  }

  /** Probing a table with a piece that stands apart from what follows. */
  lemma ProbePiece(table: seq<Row>, p: Piece, symbol: string, rest: string)
    requires AtMostTwo(table) && p.taps >= 1 && Decode(table, p) == Some(symbol) && (rest == "" || rest[0] != p.key)
    ensures ProbeTable(table, Taps(p.key, p.taps) + rest) == (symbol, rest)
  {
    hide KeyRows, Cycled, Run;
    CycledIsDecode(table, p);
    RunOfPiece(p.key, p.taps, rest);
    assert (Taps(p.key, p.taps) + rest)[0] == p.key;
  }

  /** The middle probe on a run of a middle key. */
  lemma ProbeMiddleRun(kb: Keyboard, key: char, n: nat, rest: string)
    requires WellFormed(kb) && MiddleKey(key) && n >= 1 && (rest == "" || rest[0] != key)
    ensures ProbeRest(kb, Taps(key, n) + rest) ==
      if rest == "" || EarlyFinal(key, n) != "" then (MiddleOf(key, n), EarlyFinal(key, n), rest)
      else (MiddleOf(key, n), ProbeTable(kb.finals, rest).0, ProbeTable(kb.finals, rest).1)
  {
    hide KeyRows, Run, MiddleOf, EarlyFinal, ProbeTable, WellFormed;
    MiddleRows(kb, key);
    RunOfPiece(key, n, rest);
    assert (Taps(key, n) + rest)[0] == key;
  }

  /** The middle probe passes over any other key. */
  lemma ProbeOtherRun(kb: Keyboard, s: string)
    requires WellFormed(kb) && s != "" && !MiddleKey(s[0])
    ensures ProbeRest(kb, s) == ("", ProbeTable(kb.finals, s).0, ProbeTable(kb.finals, s).1)
  {
    hide KeyRows, Run, ProbeTable, WellFormed;
    MiddleRows(kb, s[0]);
  }

  // ---- the symbols after the initial ----

  /** A final found in the table: its key is no middle key unless it is one of the two finals that share one. */
  lemma FinalFound(kb: Keyboard, symbol: string)
    requires WellFormed(kb) && PieceOf(kb.finals, symbol).Some?
    ensures var p := PieceOf(kb.finals, symbol).value;
      1 <= p.taps <= 2 && Decode(kb.finals, p) == Some(symbol)
          && (symbol != FINAL_A && symbol != FINAL_OU ==> !MiddleKey(p.key))
  {
    hide KeyRows, PieceOf, Grouped, TonesDistinct;
    FoundDecodes(kb.finals, symbol);
    ModuloOne(PieceOf(kb.finals, symbol).value.taps - 1);
  }

  lemma SharedFinals(kb: Keyboard)
    requires WellFormed(kb)
    ensures Decode(kb.finals, Piece('u', 1)) == Some(FINAL_A) && Decode(kb.finals, Piece('m', 1)) == Some(FINAL_OU)
  {
    hide KeyRows, Grouped, AtMostTwo, TonesDistinct, Has;
  }

  /** A final on its own reads back. */
  lemma FinalAloneReads(kb: Keyboard, symbol: string)
    requires WellFormed(kb) && FinalAlone(kb, symbol).Ok?
    ensures var p := FinalAlone(kb, symbol).value;
      && 1 <= p.taps <= 2 && ProbeRest(kb, Taps(p.key, p.taps)) == ("", symbol, "")
      && (MiddleKey(p.key) || Decode(kb.finals, p) == Some(symbol))
  {
    hide WellFormed, KeyRows, PieceOf, Decode, ProbeRest, ProbeTable, AtMostTwo;
    var p := FinalAlone(kb, symbol).value;
    assert Taps(p.key, p.taps) + "" == Taps(p.key, p.taps);
    if symbol == FINAL_A || symbol == FINAL_OU {
      ProbeMiddleRun(kb, p.key, 2, "");
    } else {
      FinalFound(kb, symbol);
      WellFormedFinals(kb);
      ProbePiece(kb.finals, p, symbol, "");
      ProbeOtherRun(kb, Taps(p.key, p.taps));
    }
  }

  lemma WellFormedFinals(kb: Keyboard)
    requires WellFormed(kb)
    ensures AtMostTwo(kb.finals) && AtMostTwo(kb.initials) && Grouped(kb.initials) && Grouped(kb.finals)
  {
    hide AtMostTwo, Grouped, KeyRows;
  }

  /** A middle and a final read back exactly when their keys differ. */
  lemma PairReads(kb: Keyboard, middle: string, final: string)
    requires WellFormed(kb) && middle in {YI, YU, WU} && !(middle == YI && final == FINAL_A)
      && FinalAfter(kb, final).Ok?
    ensures var key, p := LastKey(kb.middles, middle), FinalAfter(kb, final).value;
      && 1 <= p.taps <= 2 && MiddleKey(key)
      && (ProbeRest(kb, Taps(key, 1) + Taps(p.key, p.taps)) == (middle, final, "") <==> key != p.key)
  {
    hide WellFormed, KeyRows, PieceOf, Decode, ProbeRest, ProbeTable, AtMostTwo, LastKey;
    var key, p := LastKey(kb.middles, middle), FinalAfter(kb, final).value;
    MiddleSymbols(kb, middle);
    SharedFinals(kb);
    WellFormedFinals(kb);
    if final != FINAL_A && final != FINAL_OU { FinalFound(kb, final); }
    if key != p.key {
      ProbeMiddleRun(kb, key, 1, Taps(p.key, p.taps));
      assert Taps(p.key, p.taps) + "" == Taps(p.key, p.taps);
      ProbePiece(kb.finals, p, final, "");
    } else {
      assert Taps(key, 1) + Taps(p.key, p.taps) == Taps(key, 2) + "";
      ProbeMiddleRun(kb, key, 2, "");
    }
  }

  /** What the pieces after the initial are like, and when they read back. */
  ghost predicate RestReadsAs(kb: Keyboard, rest: seq<string>, pieces: seq<Piece>) {
    var (middle, final) := RestReading(kb, rest);
    && Tapped(pieces) && (pieces == [] <==> rest == [])
    && (pieces != [] ==> middle != "" || final != "")
    && (pieces != [] && !MiddleKey(pieces[0].key) ==> |pieces| == 1)
    && (ProbeRest(kb, Keys(pieces)) == (middle, final, "") <==> NeighboursDiffer(pieces))
  }

  lemma RestReads(kb: Keyboard, rest: seq<string>)
    requires WellFormed(kb) && RestPieces(kb, rest).Ok?
    ensures RestReadsAs(kb, rest, RestPieces(kb, rest).value)
  {
    hide WellFormed, Has, LastKey, PieceOf, FinalPiece;
    if |rest| == 1 {
      OneReads(kb, rest[0]);
    } else if |rest| == 2 {
      if rest[0] == YI && rest[1] == FINAL_A {
        TripleReads(kb);
      } else {
        MiddleSymbols(kb, rest[0]);
        hide MiddleOf, EarlyFinal, ProbeRest, FinalAfter;
        PairReads(kb, rest[0], rest[1]);
        TwoPieces(Piece(LastKey(kb.middles, rest[0]), 1), FinalAfter(kb, rest[1]).value);
      }
    }
  }

  lemma OneReads(kb: Keyboard, symbol: string)
    requires WellFormed(kb) && RestPieces(kb, [symbol]).Ok?
    ensures RestReadsAs(kb, [symbol], RestPieces(kb, [symbol]).value)
  {
    hide WellFormed, Has, LastKey, PieceOf, FinalAlone, ProbeRest;
    MiddleSymbols(kb, symbol);
    if Has(kb.middles, symbol) {
      var key := LastKey(kb.middles, symbol);
      OnePiece(Piece(key, 1));
      assert Taps(key, 1) + "" == Taps(key, 1);
      ProbeMiddleRun(kb, key, 1, "");
    } else {
      var p := FinalAlone(kb, symbol).value;
      OnePiece(p);
      FinalAloneReads(kb, symbol);
      FinalNotEmpty(kb, symbol);
    }
  }

  lemma FinalNotEmpty(kb: Keyboard, symbol: string)
    requires WellFormed(kb) && FinalAlone(kb, symbol).Ok?
    ensures symbol != ""
  {
    hide Grouped, AtMostTwo, KeyRows, TonesDistinct, Decode;
    if symbol != FINAL_A && symbol != FINAL_OU { FoundDecodes(kb.finals, symbol); }
  }

  lemma TripleReads(kb: Keyboard)
    requires WellFormed(kb)
    ensures RestReadsAs(kb, [YI, FINAL_A], [Piece('u', 3)])
  {
    hide WellFormed, Has, ProbeRest;
    OnePiece(Piece('u', 3));
    assert Taps('u', 3) + "" == Taps('u', 3);
    ProbeMiddleRun(kb, 'u', 3, "");
  }

  // ---- the whole syllable ----

  /** No two neighbouring pieces share a key, and a syllable without an initial does not start with an initial key. */
  ghost predicate BodyClear(kb: Keyboard, entry: Entry, pieces: seq<Piece>)
    requires pieces != []
  {
    NeighboursDiffer(pieces) && (InitialPieces(kb, entry.symbols) == [] ==> KeyRows(kb.initials, pieces[0].key) == [])
  }

  lemma InitialFound(kb: Keyboard, symbol: string)
    requires WellFormed(kb) && PieceOf(kb.initials, symbol).Some?
    ensures var p := PieceOf(kb.initials, symbol).value;
      p.taps >= 1 && !MiddleKey(p.key) && Decode(kb.initials, p) == Some(symbol)
  {
    hide KeyRows, PieceOf, Grouped, AtMostTwo, TonesDistinct;
    FoundDecodes(kb.initials, symbol);
  }

  /** A key with rows is taken for an initial, whose symbol is not empty. */
  lemma TakenForInitial(kb: Keyboard, s: string)
    requires WellFormed(kb) && s != "" && KeyRows(kb.initials, s[0]) != []
    ensures ProbeTable(kb.initials, s).0 != ""
  {
    hide Grouped, TonesDistinct, KeyRows, Run;
    var rows := KeyRows(kb.initials, s[0]);
    var i := if |rows| == 1 || (Run(s) - 1) % 2 == 0 then 0 else 1;
    RowIsSymbol(kb.initials, s[0], i);
  }

  lemma {:induction false} RowIsSymbol(table: seq<Row>, key: char, i: nat)
    requires i < |KeyRows(table, key)|
    ensures Has(table, KeyRows(table, key)[i])
  {
    var n := |table| - 1;
    if i < |KeyRows(table[..n], key)| {
      RowIsSymbol(table[..n], key, i);
    }
  }

  /** Without an initial. */
  lemma BareReads(kb: Keyboard, rest: seq<string>, pieces: seq<Piece>, tone: int)
    requires WellFormed(kb) && pieces != [] && RestReadsAs(kb, rest, pieces)
    ensures var (middle, final) := RestReading(kb, rest);
      ProbeBody(kb, Keys(pieces), tone) == Some(Reading("", middle, final, tone)) <==>
      NeighboursDiffer(pieces) && KeyRows(kb.initials, pieces[0].key) == []
  {
    hide WellFormed, ProbeRest, KeyRows, RestReading, NeighboursDiffer, Keys;
    FirstKey(pieces);
    if KeyRows(kb.initials, pieces[0].key) != [] {
      hide ProbeTable;
      TakenForInitial(kb, Keys(pieces));
    }
  }

  /** With an initial. */
  lemma InitialReads(kb: Keyboard, initial: string, rest: seq<string>, pieces: seq<Piece>, tone: int)
    requires WellFormed(kb) && PieceOf(kb.initials, initial).Some? && RestReadsAs(kb, rest, pieces)
    ensures var p := PieceOf(kb.initials, initial).value; var (middle, final) := RestReading(kb, rest);
      ProbeBody(kb, Keys([p] + pieces), tone) == Some(Reading(initial, middle, final, tone)) <==>
          NeighboursDiffer([p] + pieces)
  {
    hide WellFormed, ProbeRest, KeyRows, RestReading, PieceOf, Decode, AtMostTwo, ProbeTable, Keys, NeighboursDiffer;
    var p := PieceOf(kb.initials, initial).value;
    InitialFound(kb, initial);
    WellFormedFinals(kb);
    KeysOfCons(p, pieces);
    if pieces != [] { FirstKey(pieces); }
    if pieces != [] && pieces[0].key == p.key {
      MergedRun(kb, initial, p, pieces[0]);
      OnePiece(pieces[0]);
      assert pieces == [pieces[0]];
      Clash(p, pieces);
      EmptyRest(kb);
    } else {
      ProbePiece(kb.initials, p, initial, Keys(pieces));
      NeighboursOfCons(p, pieces);
    }
  }

  lemma KeysOfCons(p: Piece, pieces: seq<Piece>)
    ensures Keys([p] + pieces) == Taps(p.key, p.taps) + Keys(pieces)
    ensures pieces == [] ==> Keys(pieces) == ""
  {
    assert ([p] + pieces)[1..] == pieces;
  }

  lemma NeighboursOfCons(p: Piece, pieces: seq<Piece>)
    requires pieces == [] || pieces[0].key != p.key
    ensures NeighboursDiffer([p] + pieces) <==> NeighboursDiffer(pieces)
  {
    var all := [p] + pieces;
    assert forall i :: 0 <= i < |pieces| ==> all[i + 1] == pieces[i];
    if NeighboursDiffer(all) {
      forall i | 0 <= i < |pieces| - 1
        ensures pieces[i].key != pieces[i + 1].key
      {
        assert all[i + 1].key != all[i + 1 + 1].key;
      }
    }
    if NeighboursDiffer(pieces) {
      forall i | 0 <= i < |all| - 1
        ensures all[i].key != all[i + 1].key
      {
        if i > 0 { assert pieces[i - 1].key != pieces[i - 1 + 1].key; }
      }
    }
  }

  lemma Clash(p: Piece, pieces: seq<Piece>)
    requires pieces != [] && pieces[0].key == p.key
    ensures !NeighboursDiffer([p] + pieces)
  {
    var all := [p] + pieces;
    assert all[0].key == all[0 + 1].key;
  }

  lemma EmptyRest(kb: Keyboard)
    ensures ProbeRest(kb, "") == ("", "", "")
  {
  }

  /** A final that shares the initial's key disappears in the initial's run. */
  lemma MergedRun(kb: Keyboard, initial: string, p: Piece, q: Piece)
    requires p.taps >= 1 && p.key == q.key && Decode(kb.initials, p) == Some(initial)
    ensures ProbeTable(kb.initials, Taps(p.key, p.taps) + Taps(q.key, q.taps)).1 == ""
  {
    hide KeyRows, Run, Cycled;
    var s := Taps(p.key, p.taps) + Taps(q.key, q.taps);
    assert s == Taps(p.key, p.taps + q.taps) + "";
    RunOfPiece(p.key, p.taps + q.taps, "");
  }

  lemma BodyReads(kb: Keyboard, entry: Entry, tone: int)
    requires WellFormed(kb) && BodyPieces(kb, entry).Ok? && BodyPieces(kb, entry).value != []
    ensures var pieces := BodyPieces(kb, entry).value;
      ProbeBody(kb, Keys(pieces), tone) == Some(Meant(kb, entry).(tone := tone)) <==> BodyClear(kb, entry, pieces)
  {
    hide WellFormed, ProbeBody, KeyRows, RestReading, PieceOf, RestPieces, RestReadsAs, Keys, NeighboursDiffer;
    var rest := RestSymbols(kb, entry);
    var pieces := RestPieces(kb, rest).value;
    RestReads(kb, rest);
    if InitialPieces(kb, entry.symbols) == [] {
      assert [] + pieces == pieces;
      BareReads(kb, rest, pieces, tone);
    } else {
      InitialReads(kb, entry.symbols[0], rest, pieces, tone);
    }
  }

  // ---- the tone ----

  lemma {:induction false} ToneReads(tones: seq<ToneRow>, tone: int)
    requires TonesDistinct(tones) && ToneKey(tones, tone).Some?
    ensures ToneOf(tones, ToneKey(tones, tone).value) == Some(tone)
    ensures exists i :: 0 <= i < |tones| && tones[i].key == ToneKey(tones, tone).value
  {
    if tones[0].tone != tone {
      ToneReads(tones[1..], tone);
      var i :| 0 <= i < |tones[1..]| && tones[1..][i].key == ToneKey(tones, tone).value;
      assert tones[i + 1].key == ToneKey(tones, tone).value;
    }
  }

  lemma {:induction false} ToneIsNotZero(tones: seq<ToneRow>, key: char)
    requires TonesDistinct(tones)
    ensures ToneOf(tones, key) != Some(0)
  {
    if tones != [] && tones[0].key != key { ToneIsNotZero(tones[1..], key); }
  }

  /** Whether keystrokes without a tone end in a key that is also a tone key. */
  predicate EndsInTone(kb: Keyboard, s: string)
    requires s != ""
  {
    ToneOf(kb.tones, s[|s| - 1]).Some?
  }

  /** When derived keystrokes read back, checked on the pieces alone: there are some, no two neighbours share a key,
      no missing initial is made up, and the tone is where the parser looks for it: an entry without a tone does not
      end in a tone key, and a parser without tones gets none. */
  ghost predicate Clear(kb: Keyboard, entry: Entry, useTone: bool)
    requires BodyPieces(kb, entry).Ok?
  {
    var pieces := BodyPieces(kb, entry).value;
    && pieces != [] && BodyClear(kb, entry, pieces)
    && (if useTone then entry.tone == 0 ==> Keys(pieces) != "" && !EndsInTone(kb, Keys(pieces)) else entry.tone == 0)
  }

  lemma ProbeTone(kb: Keyboard, body: string, key: char, tone: int)
    requires ToneOf(kb.tones, key) == Some(tone)
    ensures Probe(kb, body + [key], true) == if body == "" then None else ProbeBody(kb, body, tone)
  {
    hide ProbeBody, ToneOf;
    assert (body + [key])[..|body|] == body;
  }

  /** The round trip between the two programs: the engine's probe returns the derived syllable's own initial, middle,
      final and tone exactly when the syllable is clear. */
  lemma ReadsBackIff(kb: Keyboard, entry: Entry, useTone: bool)
    requires WellFormed(kb) && Derive(kb, entry).Ok?
    ensures Probe(kb, Derive(kb, entry).value, useTone) == Some(Meant(kb, entry)) <==> Clear(kb, entry, useTone)
  {
    hide WellFormed, ProbeBody, BodyPieces, BodyClear, ToneOf, ToneKey, Keys, InitialPieces, RestReading, RestSymbols;
    var pieces := BodyPieces(kb, entry).value;
    var body := Keys(pieces);
    BodyTapped(kb, entry);
    Distinct(kb);
    if pieces != [] { FirstKey(pieces); } else { NoPieces(pieces); }
    if entry.tone != 0 {
      if useTone {
        ToneReads(kb.tones, entry.tone);
        ProbeTone(kb, body, ToneKey(kb.tones, entry.tone).value, entry.tone);
        if pieces != [] { BodyReads(kb, entry, entry.tone); }
      } else {
        ProbeSetsTone(kb, Derive(kb, entry).value, 0);
      }
    } else {
      assert body + "" == body;
      if pieces != [] {
        var last := body[|body| - 1];
        ToneIsNotZero(kb.tones, last);
        ProbeSetsTone(kb, body[..|body| - 1], if ToneOf(kb.tones, last).Some? then ToneOf(kb.tones, last).value else 0);
        BodyReads(kb, entry, 0);
      }
    }
  }

  function Joined(symbols: seq<string>): (s: string) {
    if symbols == [] then "" else symbols[0] + Joined(symbols[1..])
  }

  lemma MeantIsJoined(kb: Keyboard, entry: Entry)
    requires BodyPieces(kb, entry).Ok?
    ensures var m := Meant(kb, entry); m.initial + m.middle + m.final == Joined(entry.symbols)
  {
    hide PieceOf, Has;
    var rest := RestSymbols(kb, entry);
    assert |rest| <= 2;
    ShortJoin(rest);
  }

  lemma ShortJoin(rest: seq<string>)
    requires |rest| <= 2
    ensures Joined(rest) == if |rest| == 0 then "" else if |rest| == 1 then rest[0] else rest[0] + rest[1]
  {
    if |rest| == 2 { assert rest[1..][1..] == []; }
  }

  /** So a clear syllable typed through the derived keystrokes looks up its own spelling in the index, and keeps its
      tone. */
  lemma ClearSyllableParses<K>(kb: Keyboard, entry: Entry, useTone: bool, index: string -> Option<K>)
    requires WellFormed(kb) && Derive(kb, entry).Ok? && Clear(kb, entry, useTone)
    ensures ParseKey(kb, Derive(kb, entry).value, useTone, index) ==
      match index(Joined(entry.symbols))
      case None => None
      case Some(key) => Some((key, entry.tone))
  {
    hide WellFormed, Probe, Clear, BodyPieces, Meant, Joined;
    ReadsBackIff(kb, entry, useTone);
    MeantIsJoined(kb, entry);
    MeantTone(kb, entry);
  }

  lemma MeantTone(kb: Keyboard, entry: Entry)
    ensures Meant(kb, entry).tone == entry.tone
  {
    hide InitialPieces, RestReading, RestSymbols;
  }

  lemma ProbeSetsTone(kb: Keyboard, s: string, tone: int)
    ensures ProbeBody(kb, s, tone).Some? ==> ProbeBody(kb, s, tone).value.tone == tone
  {
    hide ProbeTable, ProbeRest;
  }

  lemma Distinct(kb: Keyboard)
    requires WellFormed(kb)
    ensures TonesDistinct(kb.tones)
  {
    hide KeyRows, TonesDistinct, Grouped, AtMostTwo;
  }

  lemma BodyTapped(kb: Keyboard, entry: Entry)
    requires WellFormed(kb) && BodyPieces(kb, entry).Ok?
    ensures Tapped(BodyPieces(kb, entry).value)
  {
    hide WellFormed, PieceOf, ProbeRest, NeighboursDiffer, Keys, RestPieces, RestReading;
    RestReads(kb, RestSymbols(kb, entry));
    if InitialPieces(kb, entry.symbols) != [] { InitialFound(kb, entry.symbols[0]); }
  }
}
