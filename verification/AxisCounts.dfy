/** What the counters and the difference table of a battery hold, from the cases alone. */
module AxisCounts {
  import opened Outcomes
  import opened Json
  import opened AxisC

  datatype Outcome = Matching | Aborting | Differing

  /** What one observation of both sides comes to. */
  ghost function Compared(pin: Json, subject: Json, covered: bool): (o: Outcome) {
    if AliveAlike(pin, subject) then Matching
    else if covered && AbortedAlike(pin, subject) then Aborting
    else Differing
  }

  /** The observations of a case: one for each row of the pin, or the case itself where a side has no rows. */
  ghost function Observed(c: Case): (os: seq<Outcome>) {
    if HasRows(c) then RowOutcomes(c, |c.order|)
    else [if AliveAlike(c.pin, c.subject) then Matching else Differing]
  }

  ghost function RowOutcomes(c: Case, n: nat): (os: seq<Outcome>)
    requires HasRows(c) && n <= |c.order|
    ensures |os| == n
  {
    seq(n, i requires 0 <= i < n => Compared(Left(c, c.order[i]), Right(c, c.order[i]), c.covered))
  }

  ghost function AllObserved(cases: seq<Case>, n: nat): (os: seq<Outcome>)
    requires n <= |cases|
  {
    if n == 0 then [] else AllObserved(cases, n - 1) + Observed(cases[n - 1])
  }

  // ---- the recorded differences ----

  datatype Entry = Entry(signature: string, name: string, key: string)

  ghost function RowEntries(c: Case, n: nat, sign: Signer): (es: seq<Entry>)
    requires HasRows(c) && n <= |c.order|
  {
    if n == 0 then []
    else
      var key := c.order[n - 1];
      var left, right := Left(c, key), Right(c, key);
      RowEntries(c, n - 1, sign)
      + if Compared(left, right, c.covered) == Differing then [Entry(sign(left, right), c.name, key)] else []
  }

  /** The differences of a case: its differing rows, or the case itself if only the envelopes differ. */
  ghost function Entries(c: Case, sign: Signer): (es: seq<Entry>) {
    var rows := if HasRows(c) then RowEntries(c, |c.order|, sign) else [];
    if rows == [] && !AliveAlike(c.pin, c.subject) then [Entry(sign(c.pin, c.subject), c.name, "case")] else rows
  }

  ghost function AllEntries(cases: seq<Case>, n: nat, sign: Signer): (es: seq<Entry>)
    requires n <= |cases|
  {
    if n == 0 then [] else AllEntries(cases, n - 1, sign) + Entries(cases[n - 1], sign)
  }

  function Occurs(es: seq<Entry>, signature: string): (n: nat) {
    if es == [] then 0
    else Occurs(es[..|es| - 1], signature) + if es[|es| - 1].signature == signature then 1 else 0
  }

  /** The first entry with the signature. */
  function FirstOf(es: seq<Entry>, signature: string): (r: Option<Example>) {
    if es == [] then None
    else if es[0].signature == signature then Some(Example(es[0].name, es[0].key))
    else FirstOf(es[1..], signature)
  }

  lemma {:induction false} OccursConcat(a: seq<Entry>, b: seq<Entry>, signature: string)
    ensures Occurs(a + b, signature) == Occurs(a, signature) + Occurs(b, signature)
    decreases |b|
  {
    if b == [] {
      assert a + b == a;
    } else {
      assert (a + b)[..|a + b| - 1] == a + b[..|b| - 1];
      OccursConcat(a, b[..|b| - 1], signature);
    }
  }

  lemma {:induction false} FirstConcat(a: seq<Entry>, b: seq<Entry>, signature: string)
    ensures FirstOf(a + b, signature) == if FirstOf(a, signature).Some? then FirstOf(a, signature)
      else FirstOf(b, signature)
  {
    if a == [] {
      assert a + b == b;
    } else {
      assert (a + b)[1..] == a[1..] + b;
      FirstConcat(a[1..], b, signature);
    }
  }

  // ---- what counting adds ----

  function CountOf(b: Battery, signature: string): (n: nat) {
    if signature in b.differences then b.differences[signature] else 0
  }

  function ExampleOf(b: Battery, signature: string): (r: Option<Example>) {
    if signature in b.examples then Some(b.examples[signature]) else None
  }

  ghost predicate RowTotals(t: Totals, u: Totals, os: seq<Outcome>) {
    && u.observations == t.observations + |os|
    && u.rowMatch == t.rowMatch + multiset(os)[Matching]
    && u.rowAbort == t.rowAbort + multiset(os)[Aborting]
    && u.rowDiffer == t.rowDiffer + multiset(os)[Differing]
  }

  ghost predicate SignatureCounts(b: Battery, r: Battery, es: seq<Entry>, signature: string) {
    && CountOf(r, signature) == CountOf(b, signature) + Occurs(es, signature)
    && (signature in r.differences <==> signature in b.differences || Occurs(es, signature) > 0)
    && ExampleOf(r, signature) ==
       (if ExampleOf(b, signature).Some? then ExampleOf(b, signature) else FirstOf(es, signature))
  }

  ghost predicate Adds(b: Battery, r: Battery, os: seq<Outcome>, es: seq<Entry>) {
    RowTotals(b.totals, r.totals, os) && forall signature :: SignatureCounts(b, r, es, signature)
  }

  lemma AddsNothing(b: Battery, r: Battery)
    requires r.differences == b.differences && r.examples == b.examples && RowTotals(b.totals, r.totals, [])
    ensures Adds(b, r, [], [])
  {
    hide RowTotals;
  }

  lemma AddsTwice(a: Battery, b: Battery, c: Battery, os: seq<Outcome>, more: seq<Outcome>, es: seq<Entry>,
                  further: seq<Entry>)
    requires Adds(a, b, os, es) && Adds(b, c, more, further)
    ensures Adds(a, c, os + more, es + further)
  {
    hide SignatureCounts;
    forall signature
      ensures SignatureCounts(a, c, es + further, signature)
    {
      assert SignatureCounts(a, b, es, signature) && SignatureCounts(b, c, further, signature);
      SignatureTwice(a, b, c, es, further, signature);
    }
  }

  lemma SignatureTwice(a: Battery, b: Battery, c: Battery, es: seq<Entry>, further: seq<Entry>, signature: string)
    requires SignatureCounts(a, b, es, signature) && SignatureCounts(b, c, further, signature)
    ensures SignatureCounts(a, c, es + further, signature)
  {
    hide Occurs, FirstOf, CountOf, ExampleOf;
    OccursConcat(es, further, signature);
    FirstConcat(es, further, signature);
  }

  lemma RecordAdds(b: Battery, signature: string, name: string, key: string, other: string)
    ensures SignatureCounts(b, Record(b, signature, name, key), [Entry(signature, name, key)], other)
  {
    var e := Entry(signature, name, key);
    assert [e][..0] == [] && [e][1..] == [];
  }

  /** Recording a difference after counting its outcome. */
  lemma DifferenceAdds(b: Battery, counted: Battery, os: seq<Outcome>, signature: string, name: string, key: string)
    requires counted == b.(totals := counted.totals) && RowTotals(b.totals, counted.totals, os)
    ensures Adds(b, Record(counted, signature, name, key), os, [Entry(signature, name, key)])
  {
    hide Occurs, FirstOf, RowTotals;
    var r := Record(counted, signature, name, key);
    forall other
      ensures SignatureCounts(b, r, [Entry(signature, name, key)], other)
    {
      RecordAdds(counted, signature, name, key, other);
    }
  }

  lemma RowAdds(b: Battery, c: Case, key: string, sign: Signer)
    requires HasRows(c)
    ensures var left, right := Left(c, key), Right(c, key); var o := Compared(left, right, c.covered);
      Adds(b, CountRow(b, c, key, sign), [o], if o == Differing then [Entry(sign(left, right), c.name, key)] else [])
  {
    hide HasRows, Live, Same, ReproducedAbort, AliveAlike, AbortedAlike, Alive, Left, Right, Adds, Record;
    var left, right := Left(c, key), Right(c, key);
    LiveAlike(left, right);
    AbortAlike(left, right);
    var t := b.totals.(observations := b.totals.observations + 1);
    CountedOnly(b, b.(totals := t.(rowMatch := t.rowMatch + 1)), [Matching]);
    CountedOnly(b, b.(totals := t.(rowAbort := t.rowAbort + 1)), [Aborting]);
    DifferenceAdds(b, b.(totals := t.(rowDiffer := t.rowDiffer + 1)), [Differing], sign(left, right), c.name, key);
  }

  lemma CountedOnly(b: Battery, r: Battery, os: seq<Outcome>)
    requires r == b.(totals := r.totals) && RowTotals(b.totals, r.totals, os)
    ensures Adds(b, r, os, [])
  {
    hide RowTotals;
  }

  lemma {:induction false} RowsAdd(b: Battery, c: Case, n: nat, sign: Signer)
    requires HasRows(c) && n <= |c.order|
    ensures Adds(b, CountRows(b, c, n, sign), RowOutcomes(c, n), RowEntries(c, n, sign))
  {
    hide HasRows, CountRow, Adds, Compared, Left, Right;
    if n == 0 {
      AddsNothing(b, b);
    } else {
      RowsAdd(b, c, n - 1, sign);
      var key := c.order[n - 1];
      RowAdds(b, c, key, sign);
      var before := CountRows(b, c, n - 1, sign);
      RowAdds(before, c, key, sign);
      var o := Compared(Left(c, key), Right(c, key), c.covered);
      assert RowOutcomes(c, n) == RowOutcomes(c, n - 1) + [o];
      AddsTwice(b, before, CountRows(b, c, n, sign), RowOutcomes(c, n - 1), [o], RowEntries(c, n - 1, sign),
        if o == Differing then [Entry(sign(Left(c, key), Right(c, key)), c.name, key)] else []);
    }
  }

  lemma {:induction false} AsManyEntries(c: Case, n: nat, sign: Signer)
    requires HasRows(c) && n <= |c.order|
    ensures |RowEntries(c, n, sign)| == |DifferingRows(c, n)|
  {
    hide HasRows, Live, Same, ReproducedAbort, AliveAlike, AbortedAlike, Alive, Left, Right;
    if n > 0 {
      AsManyEntries(c, n - 1, sign);
      var key := c.order[n - 1];
      LiveAlike(Left(c, key), Right(c, key));
      AbortAlike(Left(c, key), Right(c, key));
    }
  }

  // ---- one case, and a whole run ----

  /** Opening and closing a case leave rows and differences alone. */
  lemma FrameAdds(b: Battery, r: Battery, os: seq<Outcome>, es: seq<Entry>, inner: Battery, outer: Battery)
    requires Adds(b, r, os, es)
    requires inner.differences == b.differences && inner.examples == b.examples && SameRows(inner.totals, b.totals)
    requires outer.differences == r.differences && outer.examples == r.examples && SameRows(outer.totals, r.totals)
    ensures Adds(inner, outer, os, es)
  {
    forall signature
      ensures SignatureCounts(inner, outer, es, signature)
    {
      assert SignatureCounts(b, r, es, signature);
    }
  }

  ghost predicate SameRows(t: Totals, u: Totals) {
    && t.observations == u.observations && t.rowMatch == u.rowMatch
    && t.rowAbort == u.rowAbort && t.rowDiffer == u.rowDiffer
  }

  lemma OpenedFrame(b: Battery, c: Case)
    ensures var o := Opened(b, c);
      o.differences == b.differences && o.examples == b.examples && SameRows(o.totals, b.totals)
  {
    hide Same;
  }

  /** Closing a case whose rows are counted in `rows`. */
  lemma CloseAdds(rows: Battery, c: Case, differing: nat, sign: Signer)
    ensures var alike := AliveAlike(c.pin, c.subject);
      Adds(rows, CloseCase(rows, c, differing, sign),
           if HasRows(c) then [] else [if alike then Matching else Differing],
           if !alike && (differing == 0 || !HasRows(c)) then [Entry(sign(c.pin, c.subject), c.name, "case")] else [])
  {
    hide HasRows, Live, Same, AliveAlike, Adds, Record;
    LiveAlike(c.pin, c.subject);
    var t := rows.totals.(observations := rows.totals.observations + 1);
    var matched, differed := rows.(totals := t.(rowMatch := t.rowMatch + 1)),
        rows.(totals := t.(rowDiffer := t.rowDiffer + 1));
    var closed := CloseCase(rows, c, differing, sign);
    var signature := sign(c.pin, c.subject);
    AddsNothing(rows, rows);
    CountedOnly(rows, matched, [Matching]);
    DifferenceAdds(rows, rows, [], signature, c.name, "case");
    DifferenceAdds(rows, differed, [Differing], signature, c.name, "case");
    RecordTotals(rows, signature, c.name, "case");
    RecordTotals(differed, signature, c.name, "case");
    if HasRows(c) {
      if differing == 0 && !EnvelopesMatch(c) {
        FrameAdds(rows, Record(rows, signature, c.name, "case"), [], [Entry(signature, c.name, "case")], rows, closed);
      } else {
        FrameAdds(rows, rows, [], [], rows, closed);
      }
    } else if EnvelopesMatch(c) {
      FrameAdds(rows, matched, [Matching], [], rows, closed);
    } else {
      var entry := Entry(signature, c.name, "case");
      FrameAdds(rows, Record(differed, signature, c.name, "case"), [Differing], [entry], rows, closed);
    }
  }

  lemma RecordTotals(b: Battery, signature: string, name: string, key: string)
    ensures Record(b, signature, name, key).totals == b.totals
  {
  }

  lemma CaseAdds(b: Battery, c: Case, sign: Signer)
    ensures Adds(b, CountCase(b, c, sign), Observed(c), Entries(c, sign))
  {
    hide HasRows, Opened, CloseCase, CountRows, Adds, AliveAlike, RowOutcomes, RowEntries, DifferingRows;
    var o := Opened(b, c);
    OpenedFrame(b, c);
    var alike := AliveAlike(c.pin, c.subject);
    if HasRows(c) {
      var rows := CountRows(o, c, |c.order|, sign);
      var os, es := RowOutcomes(c, |c.order|), RowEntries(c, |c.order|, sign);
      RowsAdd(o, c, |c.order|, sign);
      AsManyEntries(c, |c.order|, sign);
      RowsItself(rows);
      FrameAdds(o, rows, os, es, b, rows);
      CloseAdds(rows, c, |Findings(c)|, sign);
      var last := if !alike && es == [] then [Entry(sign(c.pin, c.subject), c.name, "case")] else [];
      AddsTwice(b, rows, CountCase(b, c, sign), os, [], es, last);
      assert os + [] == os && es + last == Entries(c, sign);
    } else {
      RowsItself(o);
      AddsNothingBut(b, o);
      CloseAdds(o, c, |Findings(c)|, sign);
      var last := if !alike then [Entry(sign(c.pin, c.subject), c.name, "case")] else [];
      var os := [if alike then Matching else Differing];
      AddsTwice(b, o, CountCase(b, c, sign), [], os, [], last);
      assert [] + os == os && [] + last == last;
    }
  }

  lemma RowsItself(b: Battery)
    ensures SameRows(b.totals, b.totals)
  {
  }

  lemma AddsNothingBut(b: Battery, o: Battery)
    requires o.differences == b.differences && o.examples == b.examples && SameRows(o.totals, b.totals)
    ensures Adds(b, o, [], [])
  {
    AddsNothing(b, o);
  }

  lemma {:induction false} RunAdds(cases: seq<Case>, n: nat, sign: Signer)
    requires n <= |cases|
    ensures Adds(Unused(), CountCases(cases, n, sign), AllObserved(cases, n), AllEntries(cases, n, sign))
  {
    hide CountCase, Adds, Unused, Observed, Entries;
    if n == 0 {
      AddsItself(Unused());
    } else {
      RunAdds(cases, n - 1, sign);
      var b := CountCases(cases, n - 1, sign);
      CaseAdds(b, cases[n - 1], sign);
      AddsTwice(Unused(), b, CountCases(cases, n, sign), AllObserved(cases, n - 1), Observed(cases[n - 1]),
        AllEntries(cases, n - 1, sign), Entries(cases[n - 1], sign));
    }
  }

  lemma AddsItself(b: Battery)
    ensures Adds(b, b, [], [])
  {
    RowsItself(b);
    AddsNothingBut(b, b);
  }

  // ---- the diagnostics ----

  ghost function StderrOf(envelope: Json): (v: Json) {
    if envelope.Obj? && "stderr" in envelope.fields then envelope.fields["stderr"] else Null
  }

  ghost function DiagnosticsAlike(cases: seq<Case>, n: nat): (bs: seq<bool>)
    requires n <= |cases|
    ensures |bs| == n
  {
    seq(n, i requires 0 <= i < n => Plain(StderrOf(cases[i].pin)) == Plain(StderrOf(cases[i].subject)))
  }

  lemma OpenedDiagnostics(b: Battery, c: Case)
    ensures var t := Opened(b, c).totals; var alike := Plain(StderrOf(c.pin)) == Plain(StderrOf(c.subject));
      && t.diagnosticsMatch == b.totals.diagnosticsMatch + (if alike then 1 else 0)
      && t.diagnosticsDiffer == b.totals.diagnosticsDiffer + (if alike then 0 else 1)
  {
    hide Same, Plain;
    SameIsPlain(StderrOf(c.pin), StderrOf(c.subject));
  }

  ghost predicate SameDiagnostics(t: Totals, u: Totals) {
    t.diagnosticsMatch == u.diagnosticsMatch && t.diagnosticsDiffer == u.diagnosticsDiffer
  }

  lemma {:induction false} RowsLeaveDiagnostics(b: Battery, c: Case, n: nat, sign: Signer)
    requires HasRows(c) && n <= |c.order|
    ensures SameDiagnostics(CountRows(b, c, n, sign).totals, b.totals)
  {
    hide HasRows, RowMatches, RowAborts, Left, Right, Record;
    if n > 0 {
      RowsLeaveDiagnostics(b, c, n - 1, sign);
      var before, key := CountRows(b, c, n - 1, sign), c.order[n - 1];
      var t := before.totals.(observations := before.totals.observations + 1);
      RecordTotals(before.(totals := t.(rowDiffer := t.rowDiffer + 1)), sign(Left(c, key), Right(c, key)), c.name, key);
    }
  }

  lemma CloseLeavesDiagnostics(rows: Battery, c: Case, differing: nat, sign: Signer)
    ensures SameDiagnostics(CloseCase(rows, c, differing, sign).totals, rows.totals)
  {
    hide HasRows, EnvelopesMatch, Record;
    var t := rows.totals.(observations := rows.totals.observations + 1);
    RecordTotals(rows, sign(c.pin, c.subject), c.name, "case");
    RecordTotals(rows.(totals := t.(rowDiffer := t.rowDiffer + 1)), sign(c.pin, c.subject), c.name, "case");
  }

  lemma CaseDiagnostics(b: Battery, c: Case, sign: Signer)
    ensures SameDiagnostics(CountCase(b, c, sign).totals, Opened(b, c).totals)
  {
    hide HasRows, Opened, CloseCase, CountRows, Findings;
    if HasRows(c) {
      RowsLeaveDiagnostics(Opened(b, c), c, |c.order|, sign);
      CloseLeavesDiagnostics(CountRows(Opened(b, c), c, |c.order|, sign), c, |Findings(c)|, sign);
    } else {
      CloseLeavesDiagnostics(Opened(b, c), c, |Findings(c)|, sign);
    }
  }

  lemma {:induction false} RunDiagnostics(cases: seq<Case>, n: nat, sign: Signer)
    requires n <= |cases|
    ensures var t := CountCases(cases, n, sign).totals; var bs := multiset(DiagnosticsAlike(cases, n));
      t.diagnosticsMatch == bs[true] && t.diagnosticsDiffer == bs[false]
  {
    hide CountCase, Opened, Plain;
    if n > 0 {
      RunDiagnostics(cases, n - 1, sign);
      var b, c := CountCases(cases, n - 1, sign), cases[n - 1];
      OpenedDiagnostics(b, c);
      CaseDiagnostics(b, c, sign);
      var alike := Plain(StderrOf(c.pin)) == Plain(StderrOf(c.subject));
      assert DiagnosticsAlike(cases, n) == DiagnosticsAlike(cases, n - 1) + [alike];
    }
  }

  /** Over every run, counter by counter: observations that match, abort alike and differ, and diagnostics that are
      alike and not; and for every signature how often it was recorded, and the first case and row it was recorded
      for. */
  lemma RunMeans(cases: seq<Case>, sign: Signer)
    ensures var b := CountCases(cases, |cases|, sign); var os := multiset(AllObserved(cases, |cases|));
      && b.totals.observations == |AllObserved(cases, |cases|)|
      && b.totals.rowMatch == os[Matching] && b.totals.rowAbort == os[Aborting] && b.totals.rowDiffer == os[Differing]
    ensures var b := CountCases(cases, |cases|, sign); var bs := multiset(DiagnosticsAlike(cases, |cases|));
      b.totals.diagnosticsMatch == bs[true] && b.totals.diagnosticsDiffer == bs[false]
    ensures var b := CountCases(cases, |cases|, sign); var es := AllEntries(cases, |cases|, sign);
      forall signature ::
        && (signature in b.differences <==> Occurs(es, signature) > 0)
        && CountOf(b, signature) == Occurs(es, signature) && ExampleOf(b, signature) == FirstOf(es, signature)
  {
    hide CountCases, AllObserved, AllEntries, DiagnosticsAlike, Occurs, FirstOf;
    RunAdds(cases, |cases|, sign);
    RunDiagnostics(cases, |cases|, sign);
    var b, es := CountCases(cases, |cases|, sign), AllEntries(cases, |cases|, sign);
    forall signature
      ensures (signature in b.differences <==> Occurs(es, signature) > 0)
      ensures CountOf(b, signature) == Occurs(es, signature) && ExampleOf(b, signature) == FirstOf(es, signature)
    {
      assert SignatureCounts(Unused(), b, es, signature);
    }
  }
}
