/** The repeat-count law of the CP26 keyboard: a run of one key picks a row by its length. */
module Cp26Taps {
  import opened Outcomes

  datatype Row = Row(key: char, symbol: string)

  /** A key tapped a number of times. */
  datatype Piece = Piece(key: char, taps: nat)

  function Taps(key: char, n: nat): (s: string)
    ensures |s| == n && forall i :: 0 <= i < n ==> s[i] == key
  {
    seq(n, _ => key)
  }

  function Keys(pieces: seq<Piece>): (s: string) {
    if pieces == [] then "" else Taps(pieces[0].key, pieces[0].taps) + Keys(pieces[1..])
  }

  // ---- splitting keystrokes into maximal runs ----

  /** How often the first character is repeated at the start. */
  function Run(s: string): (n: nat)
    requires s != ""
    ensures 1 <= n <= |s|
    ensures forall i :: 0 <= i < n ==> s[i] == s[0]
    ensures n < |s| ==> s[n] != s[0]
  {
    if |s| > 1 && s[1] == s[0] then
      assert s[1..][0] == s[0];
      var n := Run(s[1..]);
      assert forall i :: 1 <= i < n + 1 ==> s[i] == s[1..][i - 1];
      n + 1
    else 1
  }

  lemma RunIs(s: string, n: nat)
    requires 1 <= n <= |s| && (forall i :: 0 <= i < n ==> s[i] == s[0]) && (n < |s| ==> s[n] != s[0])
    ensures Run(s) == n
  {
    var m := Run(s);
    var atRun, atEnd := (if m < |s| then s[m] else s[0]), if n < |s| then s[n] else s[0];
    assert m == n;
  }

  function Split(s: string): (r: seq<Piece>) {
    if s == "" then [] else [Piece(s[0], Run(s))] + Split(s[Run(s)..])
  }

  ghost predicate NeighboursDiffer(pieces: seq<Piece>) {
    forall i :: 0 <= i < |pieces| - 1 ==> pieces[i].key != pieces[i + 1].key
  }

  ghost predicate Tapped(pieces: seq<Piece>) {
    forall p :: p in pieces ==> p.taps >= 1
  }

  lemma FirstKey(pieces: seq<Piece>)
    requires pieces != [] && Tapped(pieces)
    ensures Keys(pieces) != "" && Keys(pieces)[0] == pieces[0].key
  {
    assert pieces[0] in pieces;
  }

  lemma RunOfPiece(key: char, n: nat, rest: string)
    requires n >= 1 && (rest == "" || rest[0] != key)
    ensures Run(Taps(key, n) + rest) == n && (Taps(key, n) + rest)[n..] == rest
  {
    var s := Taps(key, n) + rest;
    assert s[0] == key;
    assert n < |s| ==> s[n] == rest[0];
    RunIs(s, n);
  }

  /** Splitting the keystrokes of pieces recovers the pieces when neighbours use different keys. */
  lemma {:induction false} SplitRecovers(pieces: seq<Piece>)
    requires Tapped(pieces) && NeighboursDiffer(pieces)
    ensures Split(Keys(pieces)) == pieces
  {
    if pieces != [] {
      var first, rest := pieces[0], pieces[1..];
      assert first in pieces;
      forall i | 0 <= i < |rest| - 1
        ensures rest[i].key != rest[i + 1].key
      {
        assert pieces[i + 1].key != pieces[i + 1 + 1].key;
      }
      SplitRecovers(rest);
      if rest != [] { FirstKey(rest); }
      RunOfPiece(first.key, first.taps, Keys(rest));
    }
  }

  lemma Prepended(p: Piece, rest: seq<Piece>)
    requires p.taps >= 1 && Tapped(rest) && NeighboursDiffer(rest) && (rest != [] ==> rest[0].key != p.key)
    ensures Tapped([p] + rest) && NeighboursDiffer([p] + rest) && Keys([p] + rest) == Taps(p.key, p.taps) + Keys(rest)
  {
    var all := [p] + rest;
    assert all[1..] == rest;
    forall i | 0 <= i < |all| - 1
      ensures all[i].key != all[i + 1].key
    {
      if i > 0 { assert rest[i - 1].key != rest[i - 1 + 1].key; }
    }
  }

  lemma {:induction false} SplitIsMaximal(s: string)
    ensures Tapped(Split(s)) && NeighboursDiffer(Split(s)) && Keys(Split(s)) == s
    ensures s != "" ==> Split(s) != [] && Split(s)[0].key == s[0]
  {
    hide Run, NeighboursDiffer, Tapped, Keys;
    if s == "" {
      NoPieces(Split(s));
    } else {
      var n := Run(s);
      SplitIsMaximal(s[n..]);
      Prepended(Piece(s[0], n), Split(s[n..]));
      assert Taps(s[0], n) == s[..n];
      assert s == s[..n] + s[n..];
    }
  }

  lemma NoPieces(pieces: seq<Piece>)
    requires pieces == []
    ensures Tapped(pieces) && NeighboursDiffer(pieces) && Keys(pieces) == ""
  {
  }

  /** And only then: the split of any keystrokes has differing neighbours, so pieces that share a key with their
      neighbour are lost. */
  lemma SplitRecoversIff(pieces: seq<Piece>)
    requires Tapped(pieces)
    ensures Split(Keys(pieces)) == pieces <==> NeighboursDiffer(pieces)
  {
    hide Split, Keys;
    if NeighboursDiffer(pieces) { SplitRecovers(pieces); }
    SplitIsMaximal(Keys(pieces));
  }

  // ---- the row a piece stands for ----

  /** The symbols of a key, in table order. */
  function KeyRows(table: seq<Row>, key: char): (r: seq<string>) {
    if table == [] then []
    else
      var n := |table| - 1;
      KeyRows(table[..n], key) + if table[n].key == key then [table[n].symbol] else []
  }

  /** What `taps` taps of a key mean: the rows of the key are cycled through. */
  function Decode(table: seq<Row>, p: Piece): (r: Option<string>)
  {
    var rows := KeyRows(table, p.key);
    if p.taps == 0 || rows == [] then None else Some(rows[(p.taps - 1) % |rows|])
  }

  /** Equal keys are adjacent. */
  ghost predicate Grouped(table: seq<Row>) {
    forall i, j, k :: 0 <= i < j < k < |table| && table[i].key == table[k].key ==> table[j].key == table[k].key
  }

  /** The index of the first row with the symbol. */
  function FirstRow(table: seq<Row>, symbol: string): (r: Option<nat>)
    ensures r.Some? ==> r.value < |table| && table[r.value].symbol == symbol
    ensures r.Some? ==> forall j :: 0 <= j < r.value ==> table[j].symbol != symbol
    ensures r.None? ==> forall j :: 0 <= j < |table| ==> table[j].symbol != symbol
  {
    if table == [] then None
    else
      var n := |table| - 1;
      var before := FirstRow(table[..n], symbol);
      if before.Some? then before else if table[n].symbol == symbol then Some(n) else None
  }

  /** How many rows with the same key stand directly before row `i`. */
  function Before(table: seq<Row>, i: nat): (n: nat)
    requires i < |table|
    ensures n <= i
  {
    if i > 0 && table[i - 1].key == table[i].key then Before(table, i - 1) + 1 else 0
  }

  function PieceOf(table: seq<Row>, symbol: string): (r: Option<Piece>) {
    match FirstRow(table, symbol)
    case Some(i) => Some(Piece(table[i].key, Before(table, i) + 1))
    case None => None
  }

  /** The lookup of a symbol, with the state its loop carries. */
  method KeyTaps(table: seq<Row>, symbol: string) returns (r: Option<Piece>)
    ensures r == PieceOf(table, symbol)
  {
    var last: Option<char> := None;
    var row := 0;
    for i := 0 to |table|
      invariant forall j :: 0 <= j < i ==> table[j].symbol != symbol
      invariant i == 0 ==> last == None
      invariant i > 0 ==> last == Some(table[i - 1].key) && row == Before(table, i - 1)
    {
      if last == Some(table[i].key) {
        row := row + 1;
      } else {
        last, row := Some(table[i].key), 0;
      }
      if table[i].symbol == symbol {
        return Some(Piece(table[i].key, row + 1));
      }
    }
    return None;
  }

  lemma {:induction false} NoRows(table: seq<Row>, key: char)
    requires forall j :: 0 <= j < |table| ==> table[j].key != key
    ensures KeyRows(table, key) == []
  {
    if table != [] { NoRows(table[..|table| - 1], key); }
  }

  /** In a grouped table the rows of a key before row `i` are the ones directly before it. */
  lemma {:induction false} RowsBefore(table: seq<Row>, i: nat)
    requires Grouped(table) && i < |table|
    ensures |KeyRows(table[..i], table[i].key)| == Before(table, i)
  {
    var key := table[i].key;
    if i > 0 {
      assert table[..i][..i - 1] == table[..i - 1];
      if table[i - 1].key == key {
        RowsBefore(table, i - 1);
      } else {
        NoRows(table[..i], key);
      }
    }
  }

  lemma {:induction false} RowsPrefix(table: seq<Row>, i: nat, key: char)
    requires i <= |table|
    ensures KeyRows(table[..i], key) <= KeyRows(table, key)
  {
    if i < |table| {
      RowsPrefix(table[..|table| - 1], i, key);
      assert table[..|table| - 1][..i] == table[..i];
    } else {
      assert table[..i] == table;
    }
  }

  lemma RowsNext(table: seq<Row>, i: nat, key: char)
    requires i < |table|
    ensures KeyRows(table[..i + 1], key)
         == KeyRows(table[..i], key) + if table[i].key == key then [table[i].symbol] else []
  {
    assert table[..i + 1][..i] == table[..i];
  }

  lemma RowOf(table: seq<Row>, i: nat)
    requires Grouped(table) && i < |table|
    ensures var rows := KeyRows(table, table[i].key);
      Before(table, i) < |rows| && rows[Before(table, i)] == table[i].symbol
  {
    hide Before, Grouped, KeyRows;
    var key := table[i].key;
    RowsBefore(table, i);
    RowsPrefix(table, i + 1, key);
    RowsNext(table, i, key);
  }

  lemma SmallModulo(a: nat, n: nat)
    requires a < n
    ensures a % n == a
  {
  }

  lemma RowDecodes(table: seq<Row>, i: nat)
    requires Grouped(table) && i < |table|
    ensures var p := Piece(table[i].key, Before(table, i) + 1);
      p.taps <= |KeyRows(table, p.key)| && Decode(table, p) == Some(table[i].symbol)
  {
    hide KeyRows, Before, Grouped;
    RowOf(table, i);
    SmallModulo(Before(table, i), |KeyRows(table, table[i].key)|);
  }

  /** The piece found for a symbol decodes to the symbol, with no more taps than its key has rows. */
  lemma FoundDecodes(table: seq<Row>, symbol: string)
    requires Grouped(table)
    ensures var r := PieceOf(table, symbol);
      && (r.Some? <==> exists j :: 0 <= j < |table| && table[j].symbol == symbol)
      && (r.Some? ==> 1 <= r.value.taps <= |KeyRows(table, r.value.key)| && Decode(table, r.value) == Some(symbol))
  {
    hide KeyRows, Before, Grouped, Decode, FirstRow;
    if FirstRow(table, symbol).Some? { RowDecodes(table, FirstRow(table, symbol).value); }
  }

  lemma {:induction false} RowIndex(table: seq<Row>, key: char, r: nat) returns (i: nat)
    requires Grouped(table) && r < |KeyRows(table, key)|
    ensures i < |table| && table[i].key == key && Before(table, i) == r
  {
    var n := |table| - 1;
    if r < |KeyRows(table[..n], key)| {
      i := RowIndex(table[..n], key, r);
      BeforePrefix(table, n, i);
    } else {
      i := n;
      RowsBefore(table, i);
    }
  }

  lemma {:induction false} BeforePrefix(table: seq<Row>, n: nat, i: nat)
    requires i < n <= |table|
    ensures Before(table[..n], i) == Before(table, i)
  {
    if i > 0 { BeforePrefix(table, n, i - 1); }
  }

  /** And back: with distinct symbols, looking up what a piece decodes to finds that very piece. */
  lemma DecodedIsFound(table: seq<Row>, p: Piece)
    requires Grouped(table) && 1 <= p.taps <= |KeyRows(table, p.key)|
    requires forall i, j :: 0 <= i < j < |table| ==> table[i].symbol != table[j].symbol
    ensures Decode(table, p).Some? && PieceOf(table, Decode(table, p).value) == Some(p)
  {
    hide KeyRows, Before, Grouped, Decode, FirstRow;
    var i := RowIndex(table, p.key, p.taps - 1);
    RowDecodes(table, i);
    var found := FirstRow(table, table[i].symbol);
    assert table[i].symbol == table[i].symbol;
    assert found.Some?;
    assert table[found.value].symbol == table[i].symbol;
  }
}
