/** The stored form of a `SingleGram`: a total and token/count pairs, and the walk that checks a database of them. */
module SingleGram {
  import opened Bytes
  import opened PhraseLog
  import opened LogWalkers

  datatype Pair = Pair(token: nat, count: nat)

  ghost predicate Fits(total: nat, items: seq<Pair>) {
    total < WORD_COUNT && forall i :: 0 <= i < |items| ==> items[i].token < WORD_COUNT && items[i].count < WORD_COUNT
  }

  function PairBytes(items: seq<Pair>): (d: Data) {
    if items == [] then [] else ToLittle(items[0].token, 4) + ToLittle(items[0].count, 4) + PairBytes(items[1..])
  }

  /** The value stored for a total and its items, in the order given. */
  function GramBytes(total: nat, items: seq<Pair>): (d: Data) {
    ToLittle(total, 4) + PairBytes(items)
  }

  /** The whole pairs at the front of `d`. */
  function Pairs(d: Data): (items: seq<Pair>) {
    if |d| < 8 then [] else [Pair(Number(d, 0, 4), Number(d, 4, 4))] + Pairs(d[8..])
  }

  /** A value read back: a short total is tolerated, a partial last pair ignored. */
  function GramItems(raw: Data): (r: (nat, seq<Pair>)) {
    (Little(Clip(raw, 0, 4)), Pairs(Drop(raw, 4)))
  }

  lemma PairReads(p: Pair, rest: Data)
    requires p.token < WORD_COUNT && p.count < WORD_COUNT
    ensures var d := ToLittle(p.token, 4) + ToLittle(p.count, 4) + rest;
      Number(d, 0, 4) == p.token && Number(d, 4, 4) == p.count && d[8..] == rest
  {
    PowersOf256();
    FieldsRead(p.token, p.count, rest);
  }

  lemma {:induction false} PairsInvert(items: seq<Pair>, tail: Data)
    requires (forall i :: 0 <= i < |items| ==> items[i].token < WORD_COUNT && items[i].count < WORD_COUNT) && |tail| < 8
    ensures Pairs(PairBytes(items) + tail) == items
    decreases |items|
  {
    hide ToLittle, Number;
    if items == [] {
      assert PairBytes(items) + tail == tail;
    } else {
      var rest := PairBytes(items[1..]) + tail;
      PairsInvert(items[1..], tail);
      FirstPair(items[0], rest);
      assert PairBytes(items) + tail == ToLittle(items[0].token, 4) + ToLittle(items[0].count, 4) + rest;
      assert items == [items[0]] + items[1..];
    }
  }

  lemma FirstPair(p: Pair, rest: Data)
    requires p.token < WORD_COUNT && p.count < WORD_COUNT
    ensures Pairs(ToLittle(p.token, 4) + ToLittle(p.count, 4) + rest) == [p] + Pairs(rest)
  {
    hide ToLittle, Number;
    PairReads(p, rest);
  }

  /** Reading inverts writing, for every total and every list of items, whatever partial tail follows. */
  lemma GramRoundTrip(total: nat, items: seq<Pair>, tail: Data)
    requires Fits(total, items) && |tail| < 8
    ensures GramItems(GramBytes(total, items) + tail) == (total, items)
  {
    hide ToLittle;
    hide Pairs;
    var d := GramBytes(total, items) + tail;
    PowersOf256();
    LittleRoundTrip(total, 4);
    assert d[0..4] == ToLittle(total, 4) && d[4..] == PairBytes(items) + tail;
    PairsInvert(items, tail);
  }

  /** A value of the right size is the encoding of what is read from it. */
  lemma {:induction false} PairsWrite(d: Data)
    requires |d| % 8 == 0
    ensures PairBytes(Pairs(d)) == d && |Pairs(d)| == |d| / 8
    ensures forall i :: 0 <= i < |Pairs(d)| ==> Pairs(d)[i].token < WORD_COUNT && Pairs(d)[i].count < WORD_COUNT
    decreases |d|
  {
    hide ToLittle, Number;
    if d != [] {
      PairsWrite(d[8..]);
      PairWrites(d);
      PairBytesCons(Pair(Number(d, 0, 4), Number(d, 4, 4)), Pairs(d[8..]));
    }
  }

  lemma PairBytesCons(p: Pair, items: seq<Pair>)
    ensures PairBytes([p] + items) == ToLittle(p.token, 4) + ToLittle(p.count, 4) + PairBytes(items)
  {
    hide ToLittle;
    assert ([p] + items)[1..] == items;
  }

  /** The first eight bytes are the encoding of the pair they hold. */
  lemma PairWrites(d: Data)
    requires |d| >= 8
    ensures Number(d, 0, 4) < WORD_COUNT && Number(d, 4, 4) < WORD_COUNT
    ensures ToLittle(Number(d, 0, 4), 4) + ToLittle(Number(d, 4, 4), 4) + d[8..] == d
  {
    hide ToLittle, Number;
    PowersOf256();
    NumberWrites(d, 0, 4);
    NumberWrites(d, 4, 4);
    assert d == d[0..4] + d[4..8] + d[8..];
  }

  // ---- the walk over a database ----

  datatype Tally = Tally(records: nat, items: nat, badKeys: nat, badSizes: nat, unsorted: nat, mismatched: nat,
      zeroItems: nat)

  function Sum(items: seq<Pair>): (n: nat) {
    if items == [] then 0 else Sum(items[..|items| - 1]) + items[|items| - 1].count
  }

  function Descents(items: seq<Pair>): (n: nat) {
    if |items| < 2 then 0
    else Descents(items[..|items| - 1]) + if items[|items| - 1].token <= items[|items| - 2].token then 1 else 0
  }

  /** One record's effect on the counters. */
  function Checked(t: Tally, key: Data, value: Data): (r: Tally) {
    var seen := t.(records := t.records + 1);
    if |key| != 4 then seen.(badKeys := t.badKeys + 1)
    else if |value| < 4 || (|value| - 4) % 8 != 0 then seen.(badSizes := t.badSizes + 1)
    else
      var total, pairs := Little(value[..4]), Pairs(value[4..]);
      seen.(items := t.items + |pairs|, unsorted := t.unsorted + Descents(pairs),
            zeroItems := t.zeroItems + (if pairs == [] && total != 0 then 1 else 0),
            mismatched := t.mismatched + (if Sum(pairs) % WORD_COUNT != total then 1 else 0))
  }

  lemma {:induction false} PairAt(d: Data, i: nat)
    requires 8 * i + 8 <= |d|
    ensures i < |Pairs(d)| && Pairs(d)[i] == Pair(Number(d, 8 * i, 4), Number(d, 8 * i + 4, 4))
    decreases i
  {
    if i > 0 {
      PairAt(d[8..], i - 1);
      var j := 8 * (i - 1);
      assert 8 * i == j + 8;
      assert d[8..][j..j + 4] == d[j + 8..j + 12];
      assert d[8..][j + 4..j + 8] == d[j + 12..j + 16];
    }
  }

  lemma PairOfValue(value: Data, i: nat)
    requires |value| >= 4 && 8 * i + 12 <= |value|
    ensures i < |Pairs(value[4..])|
    ensures Pairs(value[4..])[i] == Pair(Number(value, 4 + i * 8, 4), Number(value, 4 + i * 8 + 4, 4))
  {
    hide Pairs, Number;
    PairAt(value[4..], i);
    PastTotal(value, 8 * i);
    PastTotal(value, 8 * i + 4);
  }

  /** A number behind the total. */
  lemma PastTotal(value: Data, at: nat)
    requires at + 8 <= |value|
    ensures Number(value[4..], at, 4) == Number(value, 4 + at, 4)
  {
    var a, b := value[4..][at..at + 4], value[4 + at..4 + at + 4];
    assert |a| == |b| && forall k :: 0 <= k < |a| ==> a[k] == b[k];
    assert a == b;
  }

  /** The item loop: the wrapped sum of the counts and the places where tokens do not ascend. */
  method CheckItems(value: Data, n: nat) returns (sum: nat, unsorted: nat)
    requires |value| == 4 + 8 * n
    ensures n == |Pairs(value[4..])|
    ensures sum == Sum(Pairs(value[4..])) % WORD_COUNT && unsorted == Descents(Pairs(value[4..]))
  {
    hide Pairs, Sum, Descents, Number;
    ghost var pairs := Pairs(value[4..]);
    PairsWrite(value[4..]);
    Grown(pairs, 0);
    sum, unsorted := 0, 0;
    var last := 0;
    for i := 0 to n
      invariant sum == Sum(pairs[..i]) % WORD_COUNT && unsorted == Descents(pairs[..i])
      invariant i > 0 ==> last == pairs[i - 1].token
    {
      PairOfValue(value, i);
      var token, count := Number(value, 4 + i * 8, 4), Number(value, 4 + i * 8 + 4, 4);
      Grown(pairs, i);
      if i > 0 && token <= last { unsorted := unsorted + 1; }
      last := token;
      WrapAdds(Sum(pairs[..i]), count);
      sum := (sum + count) % WORD_COUNT;
    }
    assert pairs[..n] == pairs;
  }

  /** One more pair in the sum and in the count of descents. */
  lemma Grown(pairs: seq<Pair>, i: nat)
    ensures Sum(pairs[..0]) == 0 && Descents(pairs[..0]) == 0
    ensures i < |pairs| ==> Sum(pairs[..i + 1]) == Sum(pairs[..i]) + pairs[i].count
    ensures i < |pairs| ==>
      Descents(pairs[..i + 1])
      == Descents(pairs[..i]) + if i > 0 && pairs[i].token <= pairs[i - 1].token then 1 else 0
  {
    if i < |pairs| { assert pairs[..i + 1][..i] == pairs[..i]; }
  }

  lemma WrapAdds(a: nat, b: nat)
    ensures (a % WORD_COUNT + b) % WORD_COUNT == (a + b) % WORD_COUNT
  {
  }

  method CheckRecord(t: Tally, key: Data, value: Data) returns (r: Tally)
    ensures r == Checked(t, key, value)
  {
    r := t.(records := t.records + 1);
    if |key| != 4 { return r.(badKeys := r.badKeys + 1); }
    if |value| < 4 || (|value| - 4) % 8 != 0 { return r.(badSizes := r.badSizes + 1); }
    var total := Little(value[..4]);
    var n := (|value| - 4) / 8;
    r := r.(items := r.items + n);
    var sum, unsorted := CheckItems(value, n);
    r := r.(unsorted := r.unsorted + unsorted);
    if n == 0 && total != 0 { r := r.(zeroItems := r.zeroItems + 1); }
    if sum != total { r := r.(mismatched := r.mismatched + 1); }
  }

  function CheckedAll(t: Tally, records: seq<(Data, Data)>, n: nat): (r: Tally)
    requires n <= |records|
  {
    if n == 0 then t else Checked(CheckedAll(t, records, n - 1), records[n - 1].0, records[n - 1].1)
  }

  const CLEAN := Tally(0, 0, 0, 0, 0, 0, 0)

  predicate Clean(t: Tally) {
    t.badKeys == 0 && t.badSizes == 0 && t.unsorted == 0 && t.mismatched == 0 && t.zeroItems == 0
  }

  /** The whole walk; `failed` is a cursor error other than the end of the database. */
  method HashWalk(records: seq<(Data, Data)>, failed: bool) returns (ok: bool, tally: Tally)
    ensures tally == CheckedAll(CLEAN, records, |records|)
    ensures ok == (!failed && Clean(tally))
  {
    tally := CLEAN;
    for i := 0 to |records|
      invariant tally == CheckedAll(CLEAN, records, i)
    {
      tally := CheckRecord(tally, records[i].0, records[i].1);
    }
    ok := !(failed || tally.badKeys != 0 || tally.badSizes != 0 || tally.unsorted != 0
            || tally.mismatched != 0 || tally.zeroItems != 0);
  }

  // ---- what the verdict means ----

  ghost predicate Ascending(items: seq<Pair>) {
    forall i, j :: 0 <= i < j < |items| ==> items[i].token < items[j].token
  }

  /** A four-byte key, and a value that encodes ascending tokens under the wrapped sum of their counts. */
  ghost predicate Sound(key: Data, value: Data) {
    |key| == 4 && exists items :: Encodes(value, items)
  }

  ghost predicate Encodes(value: Data, items: seq<Pair>) {
    && (forall i :: 0 <= i < |items| ==> items[i].token < WORD_COUNT && items[i].count < WORD_COUNT)
    && Ascending(items) && value == GramBytes(Sum(items) % WORD_COUNT, items)
  }

  lemma {:induction false} NoDescents(items: seq<Pair>)
    ensures Descents(items) == 0 <==> Ascending(items)
    decreases |items|
  {
    if |items| >= 2 {
      var init, n := items[..|items| - 1], |items|;
      NoDescents(init);
      if Descents(items) == 0 {
        forall i, j | 0 <= i < j < n
          ensures items[i].token < items[j].token
        {
          if j == n - 1 {
            assert i == n - 2 || init[i].token < init[n - 2].token;
          } else {
            assert init[i].token < init[j].token;
          }
        }
      }
      if Ascending(items) {
        assert Ascending(init) by { assert forall i :: 0 <= i < |init| ==> init[i] == items[i]; }
        assert items[n - 2].token < items[n - 1].token;
      }
    }
  }

  lemma {:induction false} PairBytesLength(items: seq<Pair>)
    ensures |PairBytes(items)| == 8 * |items|
  {
    if items != [] { PairBytesLength(items[1..]); }
  }

  /** One record leaves the counters clean exactly when it is sound; the zero-item counter never decides. */
  lemma CleanIff(t: Tally, key: Data, value: Data)
    ensures Clean(Checked(t, key, value)) <==> Clean(t) && Sound(key, value)
    ensures Checked(t, key, value).zeroItems - t.zeroItems <= Checked(t, key, value).mismatched - t.mismatched
  {
    hide Sound, Pairs, Sum, Descents, Ascending;
    SoundReads(key, value);
    if |key| == 4 && |value| >= 4 && (|value| - 4) % 8 == 0 {
      var pairs := Pairs(value[4..]);
      NoDescents(pairs);
      EmptySum(pairs);
      if Sum(pairs) % WORD_COUNT == Little(value[..4]) && Ascending(pairs) { ReadIsSound(key, value); }
    }
  }

  lemma EmptySum(items: seq<Pair>)
    ensures items == [] ==> Sum(items) == 0
  {
  }

  /** A record that reads back in order, with the right total, is sound. */
  lemma ReadIsSound(key: Data, value: Data)
    requires |key| == 4 && |value| >= 4 && (|value| - 4) % 8 == 0
    requires Ascending(Pairs(value[4..])) && Sum(Pairs(value[4..])) % WORD_COUNT == Little(value[..4])
    ensures Sound(key, value)
  {
    hide Pairs, Sum, Ascending, PairBytes, ToLittle, Little;
    var pairs := Pairs(value[4..]);
    PairsWrite(value[4..]);
    ToLittleRoundTrip(value[..4]);
    assert value == value[..4] + value[4..];
    assert Encodes(value, pairs);
  }

  lemma SoundReads(key: Data, value: Data)
    ensures Sound(key, value) ==>
      && |key| == 4 && |value| >= 4 && (|value| - 4) % 8 == 0
      && Ascending(Pairs(value[4..])) && Sum(Pairs(value[4..])) % WORD_COUNT == Little(value[..4])
  {
    hide ToLittle, Sum, Ascending, Pairs;
    if Sound(key, value) {
      var items :| Encodes(value, items);
      PairBytesLength(items);
      GramRoundTrip(Sum(items) % WORD_COUNT, items, []);
      assert value + [] == value && value[0..4] == value[..4];
    }
  }

  lemma {:induction false} CountersKeep(records: seq<(Data, Data)>, n: nat)
    requires n <= |records|
    ensures CheckedAll(CLEAN, records, n).zeroItems <= CheckedAll(CLEAN, records, n).mismatched
    ensures CheckedAll(CLEAN, records, n).records == n
  {
    if n > 0 {
      hide Checked;
      CountersKeep(records, n - 1);
      var t := CheckedAll(CLEAN, records, n - 1);
      CleanIff(t, records[n - 1].0, records[n - 1].1);
      RecordCounted(t, records[n - 1].0, records[n - 1].1);
    }
  }

  ghost predicate AllSound(records: seq<(Data, Data)>, n: nat)
    requires n <= |records|
  {
    forall i :: 0 <= i < n ==> Sound(records[i].0, records[i].1)
  }

  lemma AllSoundStep(records: seq<(Data, Data)>, n: nat)
    requires 0 < n <= |records|
    ensures AllSound(records, n) <==> AllSound(records, n - 1) && Sound(records[n - 1].0, records[n - 1].1)
  {
    hide Sound;
  }

  /** The walk reports ok exactly when the cursor did not fail and every record is sound. */
  lemma {:induction false} VerdictIff(records: seq<(Data, Data)>, n: nat)
    requires n <= |records|
    ensures Clean(CheckedAll(CLEAN, records, n)) <==> AllSound(records, n)
    ensures CheckedAll(CLEAN, records, n).zeroItems <= CheckedAll(CLEAN, records, n).mismatched
    ensures CheckedAll(CLEAN, records, n).records == n
  {
    CountersKeep(records, n);
    if n > 0 {
      hide Sound, Checked, Clean, AllSound;
      VerdictIff(records, n - 1);
      AllSoundStep(records, n);
      CleanIff(CheckedAll(CLEAN, records, n - 1), records[n - 1].0, records[n - 1].1);
    }
  }

  lemma RecordCounted(t: Tally, key: Data, value: Data)
    ensures Checked(t, key, value).records == t.records + 1
  {
    hide Sum, Descents, Pairs;
  }

  // ---- what each counter counts ----

  ghost function PlacesOf(records: seq<(Data, Data)>, n: nat, p: (Data, Data) -> bool): (places: set<nat>)
    requires n <= |records|
  {
    set i: nat | i < n && p(records[i].0, records[i].1)
  }

  /** How many of the first `n` records have the property. */
  ghost function Where(records: seq<(Data, Data)>, n: nat, p: (Data, Data) -> bool): (k: nat)
    requires n <= |records|
  {
    |PlacesOf(records, n, p)|
  }

  lemma WhereStep(records: seq<(Data, Data)>, n: nat, p: (Data, Data) -> bool)
    requires 0 < n <= |records|
    ensures Where(records, n, p) == Where(records, n - 1, p) + if p(records[n - 1].0, records[n - 1].1) then 1 else 0
  {
    assert PlacesOf(records, n, p)
        == PlacesOf(records, n - 1, p) + if p(records[n - 1].0, records[n - 1].1) then {n - 1} else {};
  }

  function WrongKey(): (p: (Data, Data) -> bool) { (key, value) => |key| != 4 }

  function WrongSize(): (p: (Data, Data) -> bool) {
    (key, value) => |key| == 4 && (|value| < 4 || |value| % 8 != 4)
  }

  function WrongTotal(): (p: (Data, Data) -> bool) {
    (key, value) => |key| == 4 && |value| >= 4 && |value| % 8 == 4
      && Sum(GramItems(value).1) % WORD_COUNT != GramItems(value).0
  }

  lemma CheckedCounts(t: Tally, key: Data, value: Data)
    ensures var r := Checked(t, key, value);
      && r.badKeys == t.badKeys + (if WrongKey()(key, value) then 1 else 0)
      && r.badSizes == t.badSizes + (if WrongSize()(key, value) then 1 else 0)
      && r.mismatched == t.mismatched + (if WrongTotal()(key, value) then 1 else 0)
  {
    hide Sum, Pairs, Descents, Little;
    if |value| >= 4 {
      assert (|value| - 4) % 8 == 0 <==> |value| % 8 == 4;
      GramOfValue(value);
    }
  }

  lemma GramOfValue(value: Data)
    requires |value| >= 4
    ensures GramItems(value) == (Little(value[..4]), Pairs(value[4..]))
  {
  }

  /** Wrong keys, wrong sizes and wrong totals are each counted, in a record whose earlier parts are right. */
  lemma {:induction false} CountersMean(records: seq<(Data, Data)>, n: nat)
    requires n <= |records|
    ensures var t := CheckedAll(CLEAN, records, n);
      && t.badKeys == Where(records, n, WrongKey()) && t.badSizes == Where(records, n, WrongSize())
      && t.mismatched == Where(records, n, WrongTotal())
  {
    hide Checked, WrongKey, WrongSize, WrongTotal;
    if n == 0 {
      NoneWhere(records, WrongKey());
      NoneWhere(records, WrongSize());
      NoneWhere(records, WrongTotal());
    } else {
      hide Where;
      CountersMean(records, n - 1);
      CheckedCounts(CheckedAll(CLEAN, records, n - 1), records[n - 1].0, records[n - 1].1);
      WhereStep(records, n, WrongKey());
      WhereStep(records, n, WrongSize());
      WhereStep(records, n, WrongTotal());
    }
  }

  lemma NoneWhere(records: seq<(Data, Data)>, p: (Data, Data) -> bool)
    ensures Where(records, 0, p) == 0
  {
    assert PlacesOf(records, 0, p) == {};
  }
}
