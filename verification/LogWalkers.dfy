/** The record counter of a phrase log. */
module LogWalkers {
  // It neither validates the frame nor shares code with the unigram reader.

  import opened Bytes
  import opened Outcomes
  import opened Chunk
  import opened PhraseLog

  /** A Python slice: bounds past the end are clipped. */
  function Clip(d: Data, from: nat, end: nat): (r: Data)
    requires from <= end
  {
    if end <= |d| then d[from..end] else if from <= |d| then d[from..] else []
  }

  function Payload(data: Data): (r: Data) { if |data| < FRAME then [] else data[FRAME..] }

  // ---- counting records ----

  datatype Counts = Counts(added: nat, removed: nat, modified: nat, totals: nat)

  datatype Walk = Walk(header: Option<(nat, nat)>, counts: Counts)

  /** What is left after `n` bytes; nothing when they pass the end. */
  function Drop(d: Data, n: nat): (r: Data)
    ensures n > 0 && d != [] ==> |r| < |d|
  {
    if n <= |d| then d[n..] else []
  }

  /** One step of the walk at the front of `d`: the bytes it passes and what it then knows; none when it stops. */
  function Step(d: Data, w: Walk): (r: Option<(nat, Walk)>)
    requires |d| >= 10
    ensures r.Some? ==> r.value.0 >= 10
  {
    var kind, size := Number(d, 0, 4), Number(d, 8, 2);
    if kind == 4 then
      if 10 + 2 * size > |d| then None
      else Some((10 + 2 * size, SawTotals(w, Little(Clip(d, 10, 14)), Little(Clip(d, 14, 18)))))
    else if kind == 1 then Some((10 + size, w.(counts := w.counts.(added := w.counts.added + 1))))
    else if kind == 2 then Some((10 + size, w.(counts := w.counts.(removed := w.counts.removed + 1))))
    else if kind == 3 then
      Some((12 + size + Little(Clip(d, 10, 12)), w.(counts := w.counts.(modified := w.counts.modified + 1))))
    else None
  }

  /** The walk over the rest of a payload, with what it has found so far. */
  function WalkFrom(d: Data, w: Walk): (r: Walk)
    decreases |d|
  {
    if |d| < 10 || Step(d, w).None? then w
    else WalkFrom(Drop(d, Step(d, w).value.0), Step(d, w).value.1)
  }

  /** The first header's totals are kept. */
  function SawTotals(w: Walk, before: nat, after: nat): (r: Walk) {
    Walk(if w.header.None? then Some((before, after)) else w.header, w.counts.(totals := w.counts.totals + 1))
  }

  const START := Walk(None, Counts(0, 0, 0, 0))

  lemma RestReads(p: Data, pos: nat)
    requires pos + 10 <= |p|
    ensures var d := Drop(p, pos);
      && Number(d, 0, 4) == Number(p, pos, 4) && Number(d, 8, 2) == Number(p, pos + 8, 2)
      && Clip(d, 10, 12) == Clip(p, pos + 10, pos + 12) && Clip(d, 10, 14) == Clip(p, pos + 10, pos + 14)
      && Clip(d, 14, 18) == Clip(p, pos + 14, pos + 18)
  {
    var d := p[pos..];
    assert d[0..4] == p[pos..pos + 4] && d[8..10] == p[pos + 8..pos + 10];
    ClipShift(p, pos, 10, 12);
    ClipShift(p, pos, 10, 14);
    ClipShift(p, pos, 14, 18);
  }

  lemma ClipShift(p: Data, pos: nat, i: nat, j: nat)
    requires pos <= |p| && i <= j
    ensures Clip(p[pos..], i, j) == Clip(p, pos + i, pos + j)
  {
  }

  lemma DropTwice(p: Data, pos: nat, n: nat)
    requires pos <= |p|
    ensures Drop(Drop(p, pos), n) == Drop(p, pos + n)
  {
  }

  lemma Unfold(d: Data, w: Walk)
    requires |d| >= 10
    ensures WalkFrom(d, w) == if Step(d, w).None? then w else WalkFrom(Drop(d, Step(d, w).value.0), Step(d, w).value.1)
  {
  }

  lemma Finished(d: Data, w: Walk)
    requires |d| < 10
    ensures WalkFrom(d, w) == w
  {
  }

  /** One turn of the walking loop at `pos`. */
  method WalkOne(payload: Data, pos: nat, w: Walk) returns (r: Option<(nat, Walk)>)
    requires pos + 10 <= |payload|
    ensures r == Step(Drop(payload, pos), w)
  {
    hide Number;
    hide Little;
    RestReads(payload, pos);
    var kind, size := Number(payload, pos, 4), Number(payload, pos + 8, 2);
    if kind == 4 {
      if pos + 10 + 2 * size > |payload| { return None; }
      return Some((10 + 2 * size,
          SawTotals(w, Little(Clip(payload, pos + 10, pos + 14)), Little(Clip(payload, pos + 14, pos + 18)))));
    } else if kind == 1 {
      return Some((10 + size, w.(counts := w.counts.(added := w.counts.added + 1))));
    } else if kind == 2 {
      return Some((10 + size, w.(counts := w.counts.(removed := w.counts.removed + 1))));
    } else if kind == 3 {
      return Some((12 + size + Little(Clip(payload, pos + 10, pos + 12)),
          w.(counts := w.counts.(modified := w.counts.modified + 1))));
    }
    r := None;
  }

  method LogWalk(data: Data) returns (r: Walk)
    ensures r == WalkFrom(Payload(data), START)
  {
    hide Step;
    var payload := Payload(data);
    var pos := 0;
    r := START;
    while pos + 10 <= |payload|
      invariant WalkFrom(Drop(payload, pos), r) == WalkFrom(payload, START)
      decreases |payload| - pos
    {
      hide WalkFrom;
      Unfold(Drop(payload, pos), r);
      var next := WalkOne(payload, pos, r);
      if next.None? { return; }
      DropTwice(payload, pos, next.value.0);
      pos, r := pos + next.value.0, next.value.1;
    }
    Finished(Drop(payload, pos), r);
  }

  // ---- what the walk finds in encoded records ----

  /** The walk's answer, from the records alone. */
  function Found(w: Walk, r: Record): (x: Walk) {
    match r
    case Added(_, _) => w.(counts := w.counts.(added := w.counts.added + 1))
    case Removed(_, _) => w.(counts := w.counts.(removed := w.counts.removed + 1))
    case Modified(_, _, _) => w.(counts := w.counts.(modified := w.counts.modified + 1))
    case Totals(_, before, after) => SawTotals(w, Little(before), Little(after))
  }

  function FoundAll(w: Walk, rs: seq<Record>): (x: Walk)
    decreases |rs|
  {
    if rs == [] then w else FoundAll(Found(w, rs[0]), rs[1..])
  }

  predicate Walkable(r: Record) {
    Encodable(r) && (r.Totals? ==> |r.before| == 4)
  }

  /** The numbers of an encoded record, read at its start. */
  lemma Reads(r: Record, rest: Data)
    requires Encodable(r)
    ensures var d := Encode(r) + rest;
      && Number(d, 0, 4) == Kind(r) && d[8..] == Body(r) + rest
      && Number(d, 8, 2) == Number(Body(r) + rest, 0, 2)
      && (|Body(r)| >= 4 ==> Number(d, 10, 2) == Number(Body(r) + rest, 2, 2))
  {
    hide Body;
    hide ToLittle;
    hide Little;
    PowersOf256();
    var b := Body(r) + rest;
    var d := Encode(r) + rest;
    assert d == ToLittle(Kind(r), 4) + ToLittle(r.token, 4) + b;
    FieldsRead(Kind(r), r.token, b);
    NumberShift(d, 8, 0);
    if |Body(r)| >= 4 { NumberShift(d, 8, 2); }
  }

  lemma NumberShift(d: Data, from: nat, at: nat)
    requires from + at + 2 <= |d|
    ensures Number(d, from + at, 2) == Number(d[from..], at, 2)
  {
    assert d[from..][at..at + 2] == d[from + at..from + at + 2];
  }

  lemma SizesOf(r: Record, rest: Data)
    requires Encodable(r)
    ensures var b := Body(r) + rest;
      match r
      case Added(_, item) => Number(b, 0, 2) == |item|
      case Removed(_, item) => Number(b, 0, 2) == |item|
      case Modified(_, before, after) => Number(b, 0, 2) == |before| && Number(b, 2, 2) == |after|
      case Totals(_, before, after) =>
        Number(b, 0, 2) == |before| && b[2..2 + |before|] == before && b[2 + |before|..2 + 2 * |before|] == after
  {
    hide ToLittle;
    hide Number;
    match r
    case Added(_, item) => OneRunReads(item, rest);
    case Removed(_, item) => OneRunReads(item, rest);
    case Modified(_, before, after) => TwoSizesRead(before, after, rest);
    case Totals(_, before, after) => SameSizeReads(before, after, rest);
  }

  /** On one encoded record the walk advances by exactly its length and counts it under its kind. */
  lemma WalkStep(r: Record, rest: Data, w: Walk)
    requires Walkable(r)
    ensures WalkFrom(Encode(r) + rest, w) == WalkFrom(rest, Found(w, r))
  {
    hide ToLittle;
    hide Number;
    hide Little;
    hide WalkFrom;
    var d := Encode(r) + rest;
    Unfold(d, w);
    Reads(r, rest);
    SizesOf(r, rest);
    assert d[|Encode(r)|..] == rest;
    match r
    case Added(_, item) =>
    case Removed(_, item) =>
    case Modified(_, before, after) =>
      NumberIs(d, 10, 2);
    case Totals(_, before, after) =>
      assert d[10..14] == d[8..][2..6] && d[14..18] == d[8..][6..10];
  }

  lemma NumberIs(d: Data, at: nat, size: nat)
    requires at + size <= |d|
    ensures Number(d, at, size) == Little(d[at..at + size])
  {
  }

  /** On every payload built from records the walk visits each boundary once. */
  lemma {:induction false} WalkCounts(rs: seq<Record>, w: Walk)
    requires forall i :: 0 <= i < |rs| ==> Walkable(rs[i])
    ensures WalkFrom(EncodeAll(rs), w) == FoundAll(w, rs)
    decreases |rs|
  {
    if rs != [] {
      hide Encode;
      hide Found;
      hide WalkFrom;
      WalkStep(rs[0], EncodeAll(rs[1..]), w);
      WalkCounts(rs[1..], Found(w, rs[0]));
    }
  }

  function CountOf(rs: seq<Record>, kind: nat): (n: nat) {
    if rs == [] then 0 else (if Kind(rs[0]) == kind then 1 else 0) + CountOf(rs[1..], kind)
  }

  function FirstTotals(rs: seq<Record>): (h: Option<(nat, nat)>) {
    if rs == [] then None
    else if rs[0].Totals? then Some((Little(rs[0].before), Little(rs[0].after)))
    else FirstTotals(rs[1..])
  }

  lemma {:induction false} FoundIsCounted(w: Walk, rs: seq<Record>)
    ensures var x := FoundAll(w, rs);
      && x.header == (if w.header.Some? then w.header else FirstTotals(rs))
      && x.counts == Counts(w.counts.added + CountOf(rs, 1), w.counts.removed + CountOf(rs, 2),
                            w.counts.modified + CountOf(rs, 3), w.counts.totals + CountOf(rs, 4))
    decreases |rs|
  {
    if rs != [] { FoundIsCounted(Found(w, rs[0]), rs[1..]); }
  }

  /** On a framed log of records the walk counts every kind and reports the totals of the first header. */
  lemma LogWalkIsExact(frame: Data, rs: seq<Record>)
    requires |frame| == FRAME && forall i :: 0 <= i < |rs| ==> Walkable(rs[i])
    ensures WalkFrom(Payload(frame + EncodeAll(rs)), START)
         == Walk(FirstTotals(rs), Counts(CountOf(rs, 1), CountOf(rs, 2), CountOf(rs, 3), CountOf(rs, 4)))
  {
    hide WalkFrom;
    hide EncodeAll;
    hide FoundAll;
    assert Payload(frame + EncodeAll(rs)) == EncodeAll(rs);
    WalkCounts(rs, START);
    FoundIsCounted(START, rs);
  }

  // ---- what follows the last whole record ----

  lemma {:induction false} RecordsThenTail(rs: seq<Record>, tail: Data, w: Walk)
    requires forall i :: 0 <= i < |rs| ==> Walkable(rs[i])
    ensures WalkFrom(EncodeAll(rs) + tail, w) == WalkFrom(tail, FoundAll(w, rs))
    decreases |rs|
  {
    hide Encode, Found, WalkFrom;
    if rs == [] {
      assert EncodeAll(rs) + tail == tail;
    } else {
      var rest := EncodeAll(rs[1..]);
      assert EncodeAll(rs) + tail == Encode(rs[0]) + (rest + tail);
      WalkStep(rs[0], rest + tail, w);
      RecordsThenTail(rs[1..], tail, Found(w, rs[0]));
    }
  }

  /** The kind a tail starts with. */
  function KindOf(tail: Data): (k: nat)
    requires |tail| >= 4
  {
    tail[0] as int + 0x100 * (tail[1] as int) + 0x1_0000 * (tail[2] as int) + 0x100_0000 * (tail[3] as int)
  }

  /** A size that stands at `at`. */
  function SizeAt(tail: Data, at: nat): (n: nat)
    requires at + 2 <= |tail|
  {
    tail[at] as int + 0x100 * (tail[at + 1] as int)
  }

  lemma TailNumbers(tail: Data)
    requires |tail| >= 10
    ensures Number(tail, 0, 4) == KindOf(tail) && Number(tail, 8, 2) == SizeAt(tail, 8)
  {
    LittleOfFour(tail[0..4]);
    var size := tail[8..10];
    assert size[1..][1..] == [];
    assert Little(size) == size[0] as int + 256 * Little(size[1..]);
    assert Little(size[1..]) == size[1] as int + 256 * Little(size[1..][1..]);
  }

  lemma WalkEnds(d: Data, w: Walk, n: nat)
    requires n > |d|
    ensures WalkFrom(Drop(d, n), w) == w
  {
  }

  /** Fewer than ten bytes, an unknown kind or totals cut short end the walk uncounted; an addition, a removal or a
      modification cut short is counted, and is the last. */
  lemma TailIsWalked(tail: Data, w: Walk)
    ensures |tail| < 10 ==> WalkFrom(tail, w) == w
    ensures |tail| >= 10 && (KindOf(tail) == 0 || KindOf(tail) > 4) ==> WalkFrom(tail, w) == w
    ensures |tail| >= 10 && KindOf(tail) == 4 && 10 + 2 * SizeAt(tail, 8) > |tail| ==> WalkFrom(tail, w) == w
    ensures |tail| >= 10 && KindOf(tail) == 1 && 10 + SizeAt(tail, 8) > |tail| ==>
      WalkFrom(tail, w) == w.(counts := w.counts.(added := w.counts.added + 1))
    ensures |tail| >= 10 && KindOf(tail) == 2 && 10 + SizeAt(tail, 8) > |tail| ==>
      WalkFrom(tail, w) == w.(counts := w.counts.(removed := w.counts.removed + 1))
    ensures |tail| >= 10 && KindOf(tail) == 3 && 12 + SizeAt(tail, 8) > |tail| ==>
      WalkFrom(tail, w) == w.(counts := w.counts.(modified := w.counts.modified + 1))
  {
    if |tail| >= 10 {
      TailNumbers(tail);
      hide Number, KindOf, SizeAt, Little, WalkFrom, Drop;
      Unfold(tail, w);
      var step := Step(tail, w);
      if step.Some? && step.value.0 > |tail| { WalkEnds(tail, step.value.1, step.value.0); }
    } else {
      Finished(tail, w);
    }
  }
}
