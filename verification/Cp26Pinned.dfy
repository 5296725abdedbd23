/** The pinned CP26 tables, and the syllable they cannot spell back. */
module Cp26Pinned {
  import opened Outcomes
  import opened Cp26Taps
  import opened Cp26
  import opened Cp26Probe

  function Initials(): (t: seq<Row>) {
    [Row('a', "ㄇ"), Row('b', "ㄖ"), Row('c', "ㄏ"), Row('d', "ㄎ"), Row('e', "ㄍ"), Row('f', "ㄑ"), Row('g', "ㄕ"),
     Row('h', "ㄘ"), Row('n', "ㄙ"), Row('q', "ㄅ"), Row('q', "ㄆ"), Row('r', "ㄐ"), Row('s', "ㄋ"), Row('t', "ㄓ"),
     Row('t', "ㄔ"), Row('v', "ㄒ"), Row('w', "ㄉ"), Row('w', "ㄊ"), Row('x', "ㄌ"), Row('y', "ㄗ"), Row('z', "ㄈ")]
  }

  function Middles(): (t: seq<Row>) { [Row('j', WU), Row('m', YU), Row('u', YI)] }

  function Finals(): (t: seq<Row>) {
    [Row('b', "ㄝ"), Row('i', "ㄛ"), Row('i', "ㄞ"), Row('k', "ㄜ"), Row('l', "ㄠ"), Row('l', "ㄤ"), Row('m', FINAL_OU),
     Row('n', "ㄥ"), Row('o', "ㄟ"), Row('o', "ㄢ"), Row('p', "ㄣ"), Row('p', "ㄦ"), Row('u', FINAL_A)]
  }

  function Tones(): (t: seq<ToneRow>) {
    [ToneRow(' ', 1), ToneRow('d', 4), ToneRow('e', 2), ToneRow('r', 3), ToneRow('y', 5)]
  }

  function Pinned(): (kb: Keyboard) { Keyboard(Initials(), Middles(), Finals(), Tones()) }

  // ---- facts that a look at neighbouring rows decides ----

  ghost predicate Ascending(table: seq<Row>) {
    forall i :: 0 <= i < |table| - 1 ==> table[i].key <= table[i + 1].key
  }

  ghost predicate NoThreeAlike(table: seq<Row>) {
    forall i :: 0 <= i < |table| - 2 ==> table[i].key != table[i + 2].key
  }

  lemma {:induction false} AscendingFar(table: seq<Row>, i: nat, j: nat)
    requires Ascending(table) && i <= j < |table|
    ensures table[i].key <= table[j].key
    decreases j - i
  {
    if i < j {
      AscendingFar(table, i, j - 1);
      assert table[j - 1].key <= table[j - 1 + 1].key;
    }
  }

  lemma AscendingIsGrouped(table: seq<Row>)
    requires Ascending(table)
    ensures Grouped(table)
  {
    forall i, j, k | 0 <= i < j < k < |table| && table[i].key == table[k].key
      ensures table[j].key == table[k].key
    {
      AscendingFar(table, i, j);
      AscendingFar(table, j, k);
    }
  }

  lemma FewRows(table: seq<Row>)
    requires Grouped(table) && NoThreeAlike(table)
    ensures AtMostTwo(table)
  {
    hide KeyRows, Grouped;
    forall key
      ensures |KeyRows(table, key)| <= 2
    {
      if |KeyRows(table, key)| > 2 {
        var i := RowIndex(table, key, 2);
        assert false;
      }
    }
  }

  lemma SoleRow(table: seq<Row>, i: nat)
    requires Grouped(table) && i < |table|
    requires forall j :: 0 <= j < |table| && j != i ==> table[j].key != table[i].key
    ensures KeyRows(table, table[i].key) == [table[i].symbol]
  {
    hide KeyRows, Grouped;
    RowOf(table, i);
    assert Before(table, i) == 0;
    if |KeyRows(table, table[i].key)| > 1 {
      var j := RowIndex(table, table[i].key, 1);
      assert false;
    }
  }

  lemma InitialsAscend(table: seq<Row>)
    requires table == Initials()
    ensures Ascending(table)
  {
  }

  lemma InitialPairs(table: seq<Row>)
    requires table == Initials()
    ensures NoThreeAlike(table)
  {
    hide Initials;
    forall i | 0 <= i < |table| - 2
      ensures table[i].key != table[i + 2].key
    {
      InitialPair(table, i);
    }
  }

  lemma InitialPair(table: seq<Row>, i: nat)
    requires table == Initials() && i + 2 < |table|
    ensures table[i].key != table[i + 2].key
  {
  }

  lemma InitialSymbols(table: seq<Row>)
    requires table == Initials()
    ensures !Has(table, "")
  {
  }

  lemma NotInitialKeys(table: seq<Row>, key: char)
    requires table == Initials() && MiddleKey(key)
    ensures KeyRows(table, key) == []
  {
    hide KeyRows;
    NoRows(table, key);
  }

  lemma InitialsAreWellFormed(table: seq<Row>)
    requires table == Initials()
    ensures Grouped(table) && AtMostTwo(table) && !Has(table, "")
    ensures KeyRows(table, 'u') == KeyRows(table, 'm') == KeyRows(table, 'j') == []
  {
    hide KeyRows, Grouped, AtMostTwo, Ascending, NoThreeAlike, Initials, Has;
    InitialsAscend(table);
    InitialPairs(table);
    InitialSymbols(table);
    AscendingIsGrouped(table);
    FewRows(table);
    NotInitialKeys(table, 'u');
    NotInitialKeys(table, 'm');
    NotInitialKeys(table, 'j');
  }

  lemma FinalsAreWellFormed(table: seq<Row>)
    requires table == Finals()
    ensures Grouped(table) && AtMostTwo(table) && !Has(table, "")
    ensures KeyRows(table, 'u') == [FINAL_A] && KeyRows(table, 'm') == [FINAL_OU] && KeyRows(table, 'j') == []
  {
    hide KeyRows, Grouped, AtMostTwo;
    assert Ascending(table);
    AscendingIsGrouped(table);
    assert NoThreeAlike(table);
    FewRows(table);
    SoleRow(table, 12);
    SoleRow(table, 6);
    NoRows(table, 'j');
  }

  lemma PinnedIsWellFormed(kb: Keyboard)
    requires kb == Pinned()
    ensures WellFormed(kb)
  {
    hide KeyRows, Grouped, AtMostTwo, Has, Initials, Finals;
    InitialsAreWellFormed(kb.initials);
    FinalsAreWellFormed(kb.finals);
  }

  /** The syllable ㄙㄥ derives two taps of one key, which the probe reads as ㄙ alone: on this keyboard it does not read
      back. */
  lemma SengIsLost(kb: Keyboard, tone: int, useTone: bool)
    requires kb == Pinned() && 0 <= tone <= 5
    ensures var entry := Entry(["ㄙ", "ㄥ"], tone);
      Derive(kb, entry).Ok? && Probe(kb, Derive(kb, entry).value, useTone) != Some(Meant(kb, entry))
  {
    hide KeyRows, Grouped, AtMostTwo, Has, WellFormed, Probe, Meant, PieceOf, ToneKeys, NeighboursDiffer, Pinned, Keys;
    var entry := Entry(["ㄙ", "ㄥ"], tone);
    PinnedIsWellFormed(kb);
    SengInitial(kb);
    SengFinal(kb);
    assert entry.symbols[1..] == ["ㄥ"];
    assert [Piece('n', 1)] + [Piece('n', 1)] == BodyPieces(kb, entry).value;
    Clash(Piece('n', 1), [Piece('n', 1)]);
    AllTones(kb, tone);
    ReadsBackIff(kb, entry, useTone);
  }

  lemma SengInitial(kb: Keyboard)
    requires kb == Pinned()
    ensures PieceOf(kb.initials, "ㄙ") == Some(Piece('n', 1))
  {
    assert kb.initials[8] == Row('n', "ㄙ");
  }

  lemma SengFinal(kb: Keyboard)
    requires kb == Pinned()
    ensures PieceOf(kb.finals, "ㄥ") == Some(Piece('n', 1)) && !Has(kb.middles, "ㄥ")
  {
    assert kb.finals[7] == Row('n', "ㄥ");
  }

  lemma AllTones(kb: Keyboard, tone: int)
    requires kb == Pinned() && 0 <= tone <= 5
    ensures ToneKeys(kb, tone).Ok?
  {
    var t := kb.tones;
    assert t[1..][1..][1..][1..] == [ToneRow('y', 5)];
    assert t[1..][1..][1..] == [ToneRow('r', 3), ToneRow('y', 5)];
  }
}
