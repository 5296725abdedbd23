/** Every syllable that the pinned CP26 tables cannot spell back. */
module Cp26Lost {
  import opened Outcomes
  import opened Cp26Taps
  import opened Cp26
  import opened Cp26Probe
  import opened Cp26Pinned

  // ---- the rows of the two tables, as far as they meet ----

  lemma InitialRow(table: seq<Row>, i: nat)
    requires table == Initials() && i < |table|
    ensures |table[i].symbol| == 1
    ensures table[i].key == 'b' <==> table[i].symbol[0] == 'ㄖ'
    ensures table[i].key == 'n' <==> table[i].symbol[0] == 'ㄙ'
  {
  }

  lemma InitialRowApart(table: seq<Row>, i: nat)
    requires table == Initials() && i < |table|
    ensures table[i].key !in "iklmopuj"
  {
  }

  lemma InitialSymbolApart(table: seq<Row>, i: nat)
    requires table == Initials() && i < |table|
    ensures table[i].symbol != "" && table[i].symbol[0] !in "ㄝㄥㄧㄨㄩ"
  {
  }

  lemma InitialToneRow(table: seq<Row>, i: nat)
    requires table == Initials() && i < |table|
    ensures |table[i].symbol| == 1
    ensures table[i].key in " dery" <==> table[i].symbol[0] in "ㄎㄍㄐㄗ"
  {
  }

  lemma FinalRow(table: seq<Row>, i: nat)
    requires table == Finals() && i < |table|
    ensures |table[i].symbol| == 1 && table[i].key in "bniklmopu"
    ensures table[i].key == 'b' <==> table[i].symbol[0] == 'ㄝ'
    ensures table[i].key == 'n' <==> table[i].symbol[0] == 'ㄥ'
    ensures table[i].key == 'm' <==> table[i].symbol[0] == 'ㄡ'
    ensures table[i].key == 'u' <==> table[i].symbol[0] == 'ㄚ'
  {
  }

  lemma InitialKey(kb: Keyboard, s: string)
    requires kb == Pinned() && PieceOf(kb.initials, s).Some?
    ensures var key := PieceOf(kb.initials, s).value.key;
      && (key == 'b' <==> s == "ㄖ") && (key == 'n' <==> s == "ㄙ") && key !in "iklmopuj"
    ensures s !in {"ㄝ", "ㄥ", YI, WU, YU}
    ensures PieceOf(kb.initials, s).value.key in " dery" <==> s in {"ㄎ", "ㄍ", "ㄐ", "ㄗ"}
  {
    hide Initials, Finals, FirstRow, Before;
    InitialRow(kb.initials, FirstRow(kb.initials, s).value);
    InitialRowApart(kb.initials, FirstRow(kb.initials, s).value);
    InitialSymbolApart(kb.initials, FirstRow(kb.initials, s).value);
    InitialToneRow(kb.initials, FirstRow(kb.initials, s).value);
    OneLetter(s);
  }

  lemma FinalKey(kb: Keyboard, s: string)
    requires kb == Pinned() && PieceOf(kb.finals, s).Some?
    ensures var key := PieceOf(kb.finals, s).value.key;
      && key in "bniklmopu" && (key == 'b' <==> s == "ㄝ") && (key == 'n' <==> s == "ㄥ")
      && (key == 'm' <==> s == FINAL_OU) && (key == 'u' <==> s == FINAL_A)
  {
    hide Initials, Finals, FirstRow, Before;
    FinalRow(kb.finals, FirstRow(kb.finals, s).value);
    OneLetter(s);
  }

  lemma OneLetter(s: string)
    requires |s| == 1
    ensures s == [s[0]]
  {
  }

  /** The keys of a piece that may start a syllable without an initial, and whether an initial has them too. */
  lemma InitialHasKey(kb: Keyboard, key: char)
    requires kb == Pinned() && key in "bniklmopuj"
    ensures KeyRows(kb.initials, key) != [] <==> key == 'b' || key == 'n'
  {
    hide Initials, Finals, KeyRows, Before;
    if key == 'b' || key == 'n' {
      InitialsOnBoth(kb.initials);
      PinnedIsWellFormed(kb);
      WellFormedFinals(kb);
      var i := if key == 'b' then 1 else 8;
      RowOf(kb.initials, i);
    } else {
      forall j | 0 <= j < |kb.initials|
        ensures kb.initials[j].key != key
      {
        InitialRow(kb.initials, j);
        InitialRowApart(kb.initials, j);
      }
      NoRows(kb.initials, key);
    }
  }

  lemma InitialsOnBoth(table: seq<Row>)
    requires table == Initials()
    ensures |table| == 21 && table[1] == Row('b', "ㄖ") && table[8] == Row('n', "ㄙ")
  {
  }

  lemma RuiAndSi(kb: Keyboard)
    requires kb == Pinned()
    ensures PieceOf(kb.initials, "ㄖ").Some? && PieceOf(kb.initials, "ㄙ").Some?
  {
    hide Initials, Finals, FirstRow;
    InitialsOnBoth(kb.initials);
    assert kb.initials[1].symbol == "ㄖ" && kb.initials[8].symbol == "ㄙ";
  }

  // ---- what follows the initial ----

  /** The first key of what follows the initial, and whether its own pieces clash. */
  lemma RestKeys(kb: Keyboard, rest: seq<string>)
    requires kb == Pinned() && RestPieces(kb, rest).Ok?
    ensures var pieces := RestPieces(kb, rest).value;
      && |rest| <= 2 && (pieces == [] <==> rest == [])
      && (rest != [] ==> FirstIs(pieces[0].key, rest))
      && (rest != [] ==> pieces[|pieces| - 1].key in "bniklmopuj")
      && (NeighboursDiffer(pieces) <==> !YuOu(rest))
  {
    hide PieceOf, LastKey, Has, Initials, Finals, NeighboursDiffer, WellFormed;
    PinnedIsWellFormed(kb);
    var pieces := RestPieces(kb, rest).value;
    if |rest| == 0 {
      FewPieces(pieces);
    } else if |rest| == 1 {
      FewPieces(pieces);
      MiddleSymbols(kb, rest[0]);
      if !Has(kb.middles, rest[0]) { AloneKey(kb, rest[0]); }
    } else if !(rest[0] == YI && rest[1] == FINAL_A) {
      MiddleSymbols(kb, rest[0]);
      AfterKey(kb, rest[1]);
      TwoPieces(pieces[0], pieces[1]);
    } else {
      FewPieces(pieces);
    }
  }

  /** The final ㄡ after the middle ㄩ. */
  ghost predicate YuOu(rest: seq<string>) { |rest| == 2 && rest[0] == YU && rest[1] == FINAL_OU }

  ghost predicate Alone(rest: seq<string>, symbol: string) { |rest| == 1 && rest[0] == symbol }

  /** A key of a middle or a final; two of them are also keys of initials. */
  ghost predicate FirstIs(key: char, rest: seq<string>) {
    && key in "bniklmopuj" && (key == 'b' <==> Alone(rest, "ㄝ")) && (key == 'n' <==> Alone(rest, "ㄥ"))
  }

  lemma AloneKey(kb: Keyboard, s: string)
    requires kb == Pinned() && FinalAlone(kb, s).Ok?
    ensures FirstIs(FinalAlone(kb, s).value.key, [s])
  {
    hide PieceOf, Initials, Finals;
    if s != FINAL_A && s != FINAL_OU { FinalKey(kb, s); }
  }

  lemma AfterKey(kb: Keyboard, s: string)
    requires kb == Pinned() && FinalAfter(kb, s).Ok?
    ensures var key := FinalAfter(kb, s).value.key;
      key in "bniklmopu" && (key == 'm' <==> s == FINAL_OU) && (key == 'u' <==> s == FINAL_A)
  {
    hide PieceOf, Initials, Finals;
    if s != FINAL_A && s != FINAL_OU { FinalKey(kb, s); }
  }

  lemma FewPieces(pieces: seq<Piece>)
    requires |pieces| <= 1
    ensures NeighboursDiffer(pieces)
  {
  }

  lemma TwoPieces(p: Piece, q: Piece)
    ensures NeighboursDiffer([p, q]) <==> p.key != q.key
  {
    assert [p] + [q] == [p, q];
    if p.key == q.key {
      Clash(p, [q]);
    } else {
      FewPieces([q]);
      NeighboursOfCons(p, [q]);
    }
  }

  // ---- the lost syllables ----

  /** Nothing, the finals ㄝ and ㄥ on their own, each after the initial on its key, and ㄡ after ㄩ. */
  ghost predicate Lost(symbols: seq<string>) {
    var n := |symbols|;
    || n == 0 || (n == 1 && symbols[0] in {"ㄝ", "ㄥ"})
    || (n == 2 && ((symbols[0] == "ㄖ" && symbols[1] == "ㄝ") || (symbols[0] == "ㄙ" && symbols[1] == "ㄥ")))
    || (n >= 2 && symbols[n - 2] == YU && symbols[n - 1] == FINAL_OU)
  }

  /** The four initials whose keys are tone keys. */
  ghost predicate ToneLike(symbols: seq<string>) { |symbols| == 1 && symbols[0] in {"ㄎ", "ㄍ", "ㄐ", "ㄗ"} }

  /** Of the syllables that the pinned tables derive, exactly these do not read back: every one with a tone where the
      parser uses none; where it does use them and there is none, four initials on their own, whose keys are tone keys;
      and the lost ones. */
  lemma LostExactly(kb: Keyboard, entry: Entry, useTone: bool)
    requires kb == Pinned() && Derive(kb, entry).Ok?
    ensures Probe(kb, Derive(kb, entry).value, useTone) != Some(Meant(kb, entry)) <==>
      || Lost(entry.symbols) || (!useTone && entry.tone != 0)
      || (useTone && entry.tone == 0 && ToneLike(entry.symbols))
  {
    hide Initials, Finals, Probe, Meant, WellFormed, Keys, NeighboursDiffer, BodyClear, RestPieces, PieceOf, EndsInTone,
         Lost;
    PinnedIsWellFormed(kb);
    ReadsBackIff(kb, entry, useTone);
    var rest := RestSymbols(kb, entry);
    RestKeys(kb, rest);
    var pieces := RestPieces(kb, rest).value;
    BodyTapped(kb, entry);
    EndOfBody(kb, entry, pieces);
    if InitialPieces(kb, entry.symbols) == [] {
      assert [] + pieces == pieces;
      BareIsLost(kb, entry, pieces);
    } else {
      InitialIsLost(kb, entry, pieces);
    }
  }

  /** The keystrokes end in a tone key exactly for four initials on their own. */
  lemma EndOfBody(kb: Keyboard, entry: Entry, pieces: seq<Piece>)
    requires kb == Pinned() && Tapped(InitialPieces(kb, entry.symbols) + pieces)
    requires (pieces == [] <==> RestSymbols(kb, entry) == [])
      && (pieces != [] ==> pieces[|pieces| - 1].key in "bniklmopuj")
    ensures var all := InitialPieces(kb, entry.symbols) + pieces;
      all != [] ==>
        && Keys(all) != ""
        && (EndsInTone(kb, Keys(all)) <==> ToneLike(entry.symbols))
  {
    hide Initials, Finals, PieceOf, Keys, ToneOf, Tapped, InitialPieces;
    var all := InitialPieces(kb, entry.symbols) + pieces;
    if all != [] {
      FirstKey(all);
      EndKey(all);
      ToneKeysAre(kb, all[|all| - 1].key);
      LastOfBody(kb, entry, pieces);
    }
  }

  lemma LastOfBody(kb: Keyboard, entry: Entry, pieces: seq<Piece>)
    requires kb == Pinned() && InitialPieces(kb, entry.symbols) + pieces != []
    requires (pieces == [] <==> RestSymbols(kb, entry) == [])
      && (pieces != [] ==> pieces[|pieces| - 1].key in "bniklmopuj")
    ensures var all := InitialPieces(kb, entry.symbols) + pieces;
      all[|all| - 1].key in " dery" <==> ToneLike(entry.symbols)
  {
    hide Initials, Finals, PieceOf;
    if pieces != [] { NoToneKey(pieces[|pieces| - 1].key); }
    if InitialPieces(kb, entry.symbols) != [] {
      InitialKey(kb, entry.symbols[0]);
    } else {
      FourInitials(kb);
    }
  }

  lemma NoToneKey(key: char)
    requires key in "bniklmopuj"
    ensures key !in " dery"
  {
  }

  lemma {:induction false} EndKey(pieces: seq<Piece>)
    requires pieces != [] && Tapped(pieces)
    ensures Keys(pieces) != "" && Keys(pieces)[|Keys(pieces)| - 1] == pieces[|pieces| - 1].key
  {
    assert pieces[0] in pieces;
    if |pieces| > 1 { EndKey(pieces[1..]); }
  }

  lemma {:induction false} HasTone(tones: seq<ToneRow>, key: char)
    ensures ToneOf(tones, key).Some? <==> exists i :: 0 <= i < |tones| && tones[i].key == key
  {
    if tones != [] {
      HasTone(tones[1..], key);
      assert forall i :: 0 < i < |tones| ==> tones[i] == tones[1..][i - 1];
      if ToneOf(tones[1..], key).Some? {
        var i :| 0 <= i < |tones[1..]| && tones[1..][i].key == key;
        assert tones[i + 1].key == key;
      }
    }
  }

  lemma ToneKeysAre(kb: Keyboard, key: char)
    requires kb == Pinned()
    ensures ToneOf(kb.tones, key).Some? <==> key in " dery"
  {
    hide ToneOf, Initials, Finals;
    HasTone(kb.tones, key);
    var t := kb.tones;
    assert t[0].key == ' ' && t[1].key == 'd' && t[2].key == 'e' && t[3].key == 'r' && t[4].key == 'y';
  }

  lemma FourInitials(kb: Keyboard)
    requires kb == Pinned()
    ensures forall s :: s in {"ㄎ", "ㄍ", "ㄐ", "ㄗ"} ==> PieceOf(kb.initials, s).Some?
  {
    hide FirstRow;
    var t := kb.initials;
    assert t[3].symbol == "ㄎ" && t[4].symbol == "ㄍ" && t[11].symbol == "ㄐ" && t[19].symbol == "ㄗ";
  }

  lemma BareIsLost(kb: Keyboard, entry: Entry, pieces: seq<Piece>)
    requires kb == Pinned() && InitialPieces(kb, entry.symbols) == [] && |entry.symbols| <= 2
    requires (pieces == [] <==> entry.symbols == [])
      && (pieces != [] ==> FirstIs(pieces[0].key, entry.symbols))
      && (NeighboursDiffer(pieces) <==> !YuOu(entry.symbols))
    ensures pieces == [] || !BodyClear(kb, entry, pieces) <==> Lost(entry.symbols)
  {
    hide Initials, Finals, NeighboursDiffer, PieceOf, KeyRows;
    RuiAndSi(kb);
    if pieces != [] { InitialHasKey(kb, pieces[0].key); }
  }

  /** The lost ones among those with an initial. */
  lemma LostAfter(symbols: seq<string>)
    requires 1 <= |symbols| <= 3 && symbols[0] !in {"ㄝ", "ㄥ", YU}
    ensures Lost(symbols) <==>
      || (symbols[0] == "ㄖ" && Alone(symbols[1..], "ㄝ")) || (symbols[0] == "ㄙ" && Alone(symbols[1..], "ㄥ"))
      || YuOu(symbols[1..])
  {
  }

  /** A key that an initial and what follows it share. */
  lemma SharedKey(key: char, rest: seq<string>)
    requires FirstIs(key, rest)
    ensures key !in "iklmopuj" ==> (key == 'b' && Alone(rest, "ㄝ")) || (key == 'n' && Alone(rest, "ㄥ"))
    ensures (Alone(rest, "ㄝ") ==> key == 'b') && (Alone(rest, "ㄥ") ==> key == 'n')
  {
  }

  lemma AloneIsNoPair(rest: seq<string>)
    ensures Alone(rest, "ㄝ") || Alone(rest, "ㄥ") ==> rest != [] && !YuOu(rest)
  {
  }

  lemma InitialIsLost(kb: Keyboard, entry: Entry, pieces: seq<Piece>)
    requires kb == Pinned() && InitialPieces(kb, entry.symbols) != [] && 1 <= |entry.symbols| <= 3
    requires var rest := entry.symbols[1..];
      && (pieces == [] <==> rest == []) && (pieces != [] ==> FirstIs(pieces[0].key, rest))
      && (NeighboursDiffer(pieces) <==> !YuOu(rest))
    ensures !BodyClear(kb, entry, InitialPieces(kb, entry.symbols) + pieces) <==> Lost(entry.symbols)
  {
    hide Initials, Finals, NeighboursDiffer, PieceOf, KeyRows, Lost, Pinned, FirstIs, Alone, YuOu;
    var symbols := entry.symbols;
    InitialKey(kb, symbols[0]);
    LostAfter(symbols);
    AloneIsNoPair(symbols[1..]);
    var p := InitialPieces(kb, symbols)[0];
    assert InitialPieces(kb, symbols) == [p];
    hide InitialPieces;
    if pieces != [] { SharedKey(pieces[0].key, symbols[1..]); }
    if pieces != [] && pieces[0].key == p.key {
      Clash(p, pieces);
    } else {
      NeighboursOfCons(p, pieces);
    }
  }
}
