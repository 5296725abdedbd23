/** Spellings as integer keys: eight zero-padded bytes read big-endian. */
module SpellingKeys {
  import opened Outcomes
  import opened Bytes
  import opened Lexicographic

  /** A spelling has at most eight bytes and no NUL. */
  predicate Fits(s: Data) { |s| <= 8 && 0 !in s }

  function Zeros(n: nat): (z: Data) { seq(n, _ => 0) }

  function Padded(s: Data, width: nat): (r: Data)
    requires |s| <= width
    ensures |r| == width
  {
    s + Zeros(width - |s|)
  }

  /** `u64::from_be_bytes`, for any length. */
  function Big(data: Data): (n: nat) {
    if data == [] then 0 else 256 * Big(data[..|data| - 1]) + data[|data| - 1]
  }

  function Key(s: Data): (k: nat)
    requires |s| <= 8
  {
    Big(Padded(s, 8))
  }

  // ---- the order of the keys ----

  /** Sequences of one length compare by all but their last element, then by the last. */
  lemma {:induction false} LastDecides(a: Data, b: Data, x: byte, y: byte)
    requires |a| == |b|
    ensures AtMost(ByteRank, a + [x], b + [y]) <==> if a == b then x <= y else AtMost(ByteRank, a, b)
  {
    if a != [] {
      assert (a + [x])[1..] == a[1..] + [x] && (b + [y])[1..] == b[1..] + [y];
      assert a == [a[0]] + a[1..] && b == [b[0]] + b[1..];
      LastDecides(a[1..], b[1..], x, y);
    }
  }

  lemma BigSnoc(a: Data, x: byte)
    ensures Big(a + [x]) == 256 * Big(a) + x
  {
    assert (a + [x])[..|a|] == a;
  }

  /** On byte strings of one length the big-endian value is an order embedding. */
  lemma {:induction false} BigOrder(a: Data, b: Data)
    requires |a| == |b|
    ensures Big(a) <= Big(b) <==> AtMost(ByteRank, a, b)
    ensures Big(a) == Big(b) <==> a == b
  {
    if a != [] {
      var n := |a| - 1;
      var p, q, x, y := a[..n], b[..n], a[n], b[n];
      assert a == p + [x] && b == q + [y];
      hide AtMost, Big;
      BigOrder(p, q);
      BigSnoc(p, x);
      BigSnoc(q, y);
      LastDecides(p, q, x, y);
    }
  }

  /** Padding with a byte below every spelling's bytes keeps the order, prefixes included. */
  lemma {:induction false} PaddingKeepsOrder(s: Data, t: Data, width: nat)
    requires |s| <= width && |t| <= width && 0 !in s && 0 !in t
    ensures AtMost(ByteRank, Padded(s, width), Padded(t, width)) <==> AtMost(ByteRank, s, t)
    ensures Padded(s, width) == Padded(t, width) <==> s == t
  {
    var p, q := Padded(s, width), Padded(t, width);
    if s == [] && t == [] {
      Reflexive(ByteRank, p);
    } else if s == [] {
      assert p[0] == 0 && q[0] == t[0] && t[0] in t;
    } else if t == [] {
      assert q[0] == 0 && p[0] == s[0] && s[0] in s;
    } else {
      assert p[1..] == Padded(s[1..], width - 1) && q[1..] == Padded(t[1..], width - 1);
      assert s == [s[0]] + s[1..] && t == [t[0]] + t[1..] && p == [p[0]] + p[1..] && q == [q[0]] + q[1..];
      PaddingKeepsOrder(s[1..], t[1..], width - 1);
    }
  }

  /** The order of the integers is the byte order of the spellings, and equal integers are equal spellings. */
  lemma KeysEmbedSpellings(s: Data, t: Data)
    requires |s| <= 8 && |t| <= 8 && 0 !in s && 0 !in t
    ensures Key(s) <= Key(t) <==> AtMost(ByteRank, s, t)
    ensures Key(s) == Key(t) <==> s == t
    ensures Key(s) < 0x1_0000_0000_0000_0000
  {
    hide AtMost, Big;
    PaddingKeepsOrder(s, t, 8);
    BigOrder(Padded(s, 8), Padded(t, 8));
    BigBound(Padded(s, 8));
    EightBytes();
  }

  lemma {:induction false} BigBound(data: Data)
    ensures Big(data) < Pow256(|data|)
  {
    if data != [] { BigBound(data[..|data| - 1]); }
  }

  lemma EightBytes()
    ensures Pow256(8) == 0x1_0000_0000_0000_0000
  {
    assert Pow256(4) == 0x1_0000_0000;
  }

  // ---- the generated table ----

  datatype Row = Row(spelling: Data, content: int)

  datatype Refusal = DoesNotFit(row: nat) | NotIncreasing(row: nat)

  /** The keys of a table, or the first row that stops the build. */
  function TableKeys(rows: seq<Row>): (r: Result<seq<nat>, Refusal>)
    ensures r.Ok? ==> |r.value| == |rows|
  {
    if rows == [] then Ok([])
    else
      var n := |rows| - 1;
      match TableKeys(rows[..n])
      case Err(e) => Err(e)
      case Ok(keys) =>
        if !Fits(rows[n].spelling) then Err(DoesNotFit(n))
        else if n > 0 && Key(rows[n].spelling) <= keys[n - 1] then Err(NotIncreasing(n))
        else Ok(keys + [Key(rows[n].spelling)])
  }

  /** Pads one spelling in a buffer and reads it. */
  method SpellingKey(s: Data) returns (k: nat)
    requires |s| <= 8
    ensures k == Key(s)
  {
    var padded := new byte[8](_ => 0);
    for i := 0 to |s|
      invariant padded[..] == Padded(s[..i], 8)
    {
      padded[i] := s[i];
    }
    assert s[..|s|] == s;
    k := 0;
    for i := 0 to 8
      invariant padded[..] == Padded(s, 8) && k == Big(padded[..i])
    {
      assert padded[..i + 1] == padded[..i] + [padded[i]];
      BigSnoc(padded[..i], padded[i]);
      k := 256 * k + padded[i];
    }
    assert padded[..8] == padded[..];
  }

  method MakeKeys(rows: seq<Row>) returns (r: Result<seq<nat>, Refusal>)
    ensures r == TableKeys(rows)
  {
    hide Key;
    var keys := [];
    var previous: Option<nat> := None;
    for i := 0 to |rows|
      invariant TableKeys(rows[..i]) == Ok(keys)
      invariant previous == if i == 0 then None else Some(keys[i - 1])
    {
      assert rows[..i + 1][..i] == rows[..i];
      if !Fits(rows[i].spelling) {
        RefusalStays(rows, i + 1);
        return Err(DoesNotFit(i));
      }
      var key := SpellingKey(rows[i].spelling);
      if previous.Some? && key <= previous.value {
        RefusalStays(rows, i + 1);
        return Err(NotIncreasing(i));
      }
      previous, keys := Some(key), keys + [key];
    }
    assert rows[..|rows|] == rows;
    return Ok(keys);
  }

  lemma {:induction false} RefusalStays(rows: seq<Row>, n: nat)
    requires n <= |rows| && TableKeys(rows[..n]).Err?
    ensures TableKeys(rows) == TableKeys(rows[..n])
  {
    hide Key, Fits;
    if n == |rows| {
      assert rows[..n] == rows;
    } else {
      var m := |rows| - 1;
      assert rows[..m][..n] == rows[..n];
      RefusalStays(rows[..m], n);
    }
  }

  /** Spellings have at most eight bytes and no NUL, and each is strictly before the next in byte order. */
  ghost predicate Ordered(rows: seq<Row>) {
    && (forall i :: 0 <= i < |rows| ==> |rows[i].spelling| <= 8 && 0 !in rows[i].spelling)
    && (forall i, j :: 0 <= i < j < |rows| ==>
        AtMost(ByteRank, rows[i].spelling, rows[j].spelling) && rows[i].spelling != rows[j].spelling)
  }

  /** The build accepts a table exactly when its spellings fit and are strictly increasing in byte order, for every
      pair of rows; the keys are then the spellings' keys. */
  lemma {:induction false} AcceptedIff(rows: seq<Row>)
    ensures TableKeys(rows).Ok? <==> Ordered(rows)
    ensures TableKeys(rows).Ok? ==> forall i :: 0 <= i < |rows| ==> TableKeys(rows).value[i] == Key(rows[i].spelling)
  {
    hide Key, AtMost;
    if rows != [] {
      var n := |rows| - 1;
      var before := rows[..n];
      AcceptedIff(before);
      if TableKeys(before).Ok? && Fits(rows[n].spelling) && n > 0 {
        LastPair(rows);
        if TableKeys(rows).Ok? { ExtendOrdered(rows); }
      }
      if Ordered(rows) { assert Ordered(before); }
    }
  }

  lemma LastPair(rows: seq<Row>)
    requires |rows| >= 2 && Fits(rows[|rows| - 2].spelling) && Fits(rows[|rows| - 1].spelling)
    ensures var s, t := rows[|rows| - 2].spelling, rows[|rows| - 1].spelling;
      Key(s) < Key(t) <==> AtMost(ByteRank, s, t) && s != t
  {
    hide Key, AtMost;
    KeysEmbedSpellings(rows[|rows| - 2].spelling, rows[|rows| - 1].spelling);
  }

  /** A row strictly after the last of an ordered table is strictly after them all. */
  lemma ExtendOrdered(rows: seq<Row>)
    requires |rows| >= 2 && Ordered(rows[..|rows| - 1]) && Fits(rows[|rows| - 1].spelling)
    requires var s, t := rows[|rows| - 2].spelling, rows[|rows| - 1].spelling; AtMost(ByteRank, s, t) && s != t
    ensures Ordered(rows)
  {
    hide AtMost;
    var n := |rows| - 1;
    var before := rows[..n];
    forall i, j | 0 <= i < j < |rows|
      ensures AtMost(ByteRank, rows[i].spelling, rows[j].spelling) && rows[i].spelling != rows[j].spelling
    {
      assert before[i] == rows[i];
      if j < n {
        assert before[j] == rows[j];
      } else if i < n - 1 {
        assert before[n - 1] == rows[n - 1];
        Transitive(ByteRank, rows[i].spelling, rows[n - 1].spelling, rows[n].spelling);
        if rows[i].spelling == rows[n].spelling {
          Antisymmetric(ByteRank, rows[i].spelling, rows[n - 1].spelling);
        }
      }
    }
  }

  // ---- the two searches ----

  /** The first row at or after `i` with the spelling. */
  function FirstFrom(rows: seq<Row>, i: nat, s: Data): (r: Option<nat>)
    requires i <= |rows|
    ensures r.Some? ==> i <= r.value < |rows| && rows[r.value].spelling == s
    ensures r.None? ==> forall j :: i <= j < |rows| ==> rows[j].spelling != s
    decreases |rows| - i
  {
    if i == |rows| then None else if rows[i].spelling == s then Some(i) else FirstFrom(rows, i + 1, s)
  }

  /** What a search of the keys may answer: any position of the key, or none when the key is absent or the spelling
      has no key. */
  ghost predicate FoundByKey(keys: seq<nat>, s: Data, r: Option<nat>) {
    match r
    case Some(p) => Fits(s) && p < |keys| && keys[p] == Key(s)
    case None => Fits(s) ==> Key(s) !in keys
  }

  /** In an accepted table the search by key finds the row with the spelling, if there is one. */
  lemma KeySearchIsExact(rows: seq<Row>, s: Data, r: Option<nat>)
    requires TableKeys(rows).Ok? && FoundByKey(TableKeys(rows).value, s, r)
    ensures r == FirstFrom(rows, 0, s)
  {
    hide Key, AtMost, FirstFrom, TableKeys;
    AcceptedIff(rows);
    var keys, first := TableKeys(rows).value, FirstFrom(rows, 0, s);
    if r.Some? {
      KeysEmbedSpellings(rows[r.value].spelling, s);
    }
    if first.Some? {
      assert keys[first.value] == Key(s);
    }
  }

  /** The generator of the syllable keys searches by spelling past the first row; it agrees with the search by key on
      every spelling but the first row's own. */
  lemma SearchesAgreeIff(rows: seq<Row>, s: Data, r: Option<nat>)
    requires rows != [] && TableKeys(rows).Ok? && FoundByKey(TableKeys(rows).value, s, r)
    ensures FirstFrom(rows, 1, s) == r <==> s != rows[0].spelling
  {
    hide Key, AtMost, Fits, TableKeys, FoundByKey;
    KeySearchIsExact(rows, s, r);
    AcceptedIff(rows);
  }
}
