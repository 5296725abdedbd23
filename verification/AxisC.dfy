/** The verdict of one differential case, and the battery that repeats the decision while it counts. */
module AxisC {
  import opened Outcomes
  import opened Json

  const SIGABRT := 6.0

  /** Exit code zero and a result that is not null. */
  predicate Live(row: Json) {
    row.Obj? && Same(Get(row.fields, "exit"), Num(0.0)) && Get(row.fields, "result") != Null
  }

  /** The same abort on both sides, and no field beyond the three of an envelope. */
  predicate ReproducedAbort(pin: Json, subject: Json) {
    && pin.Obj? && Same(pin, subject)
    && Same(Get(pin.fields, "exit"), Num(-SIGABRT)) && Get(pin.fields, "result") == Null
    && pin.fields.Keys == {"exit", "result", "stderr"}
  }

  datatype Verdict = MATCH | DIFFER

  /** One case: both envelopes, whether the register covers it, and the keys of the pin's rows in their stored order. */
  datatype Case = Case(name: string, pin: Json, subject: Json, covered: bool, order: seq<string>)

  /** The rows of an envelope: its result may be absent, and so may the rows of a result. */
  function RowsOf(envelope: Json): (r: Option<map<string, Json>>) {
    if !envelope.Obj? then None
    else
      var result := Get(envelope.fields, "result");
      if !result.Obj? then None
      else
        var rows := Get(result.fields, "observations");
        if rows.Obj? then Some(rows.fields) else None
  }

  ghost predicate CaseOk(c: Case) {
    RowsOf(c.pin).Some? ==> multiset(c.order) == multiset(RowsOf(c.pin).value.Keys)
  }

  predicate HasRows(c: Case) { RowsOf(c.pin).Some? && RowsOf(c.subject).Some? }

  function Left(c: Case, key: string): (v: Json)
    requires HasRows(c)
  {
    Get(RowsOf(c.pin).value, key)
  }

  function Right(c: Case, key: string): (v: Json)
    requires HasRows(c)
  {
    Get(RowsOf(c.subject).value, key)
  }

  predicate RowMatches(c: Case, key: string)
    requires HasRows(c)
  {
    Live(Left(c, key)) && Live(Right(c, key)) && Same(Left(c, key), Right(c, key))
  }

  predicate RowAborts(c: Case, key: string)
    requires HasRows(c)
  {
    !RowMatches(c, key) && c.covered && ReproducedAbort(Left(c, key), Right(c, key))
  }

  predicate RowDiffers(c: Case, key: string)
    requires HasRows(c)
  {
    !RowMatches(c, key) && !RowAborts(c, key)
  }

  predicate EnvelopesMatch(c: Case) { Live(c.pin) && Live(c.subject) && Same(c.pin, c.subject) }

  datatype Finding = Finding(key: string, pin: Json, subject: Json)

  // ---- the verdict function ----

  /** The differing rows among the first `n` keys. */
  function DifferingRows(c: Case, n: nat): (r: seq<Finding>)
    requires HasRows(c) && n <= |c.order|
  {
    if n == 0 then []
    else
      var key := c.order[n - 1];
      DifferingRows(c, n - 1) + if RowDiffers(c, key) then [Finding(key, Left(c, key), Right(c, key))] else []
  }

  function Findings(c: Case): (r: seq<Finding>) {
    if HasRows(c) then DifferingRows(c, |c.order|) else []
  }

  function VerdictOf(c: Case): (v: Verdict) {
    if Findings(c) != [] || !EnvelopesMatch(c) then DIFFER else MATCH
  }

  method AxisCVerdict(c: Case) returns (v: Verdict, differing: seq<Finding>)
    ensures v == VerdictOf(c)
    ensures differing ==
      if v == MATCH then [] else if Findings(c) != [] then Findings(c) else [Finding("case", c.pin, c.subject)]
  {
    hide Live, Same, ReproducedAbort, HasRows, Left, Right;
    differing := [];
    if HasRows(c) {
      for i := 0 to |c.order|
        invariant differing == DifferingRows(c, i)
      {
        var key := c.order[i];
        var left, right := Left(c, key), Right(c, key);
        if Live(left) && Live(right) && Same(left, right) { continue; }
        if c.covered && ReproducedAbort(left, right) { continue; }
        differing := differing + [Finding(key, left, right)];
      }
    }
    if differing != [] || !EnvelopesMatch(c) {
      return DIFFER, if differing != [] then differing else [Finding("case", c.pin, c.subject)];
    }
    return MATCH, [];
  }

  // ---- what matching means, on plain values ----

  /** The entry is present and, truth values taken as numbers, is the number. */
  ghost predicate Holds(fields: map<string, Json>, key: string, n: real) {
    key in fields && Plain(fields[key]) == Num(n)
  }

  /** Exit zero, and a result. */
  ghost predicate Alive(row: Json) {
    row.Obj? && Holds(row.fields, "exit", 0.0) && "result" in row.fields && row.fields["result"] != Null
  }

  /** Alive on both sides, and equal once truth values are numbers. */
  ghost predicate AliveAlike(pin: Json, subject: Json) {
    Alive(pin) && Alive(subject) && Plain(pin) == Plain(subject)
  }

  /** Exit by signal 6 on both sides, no result, and the three fields of an envelope alone. */
  ghost predicate AbortedAlike(pin: Json, subject: Json) {
    && pin.Obj? && pin.fields.Keys == {"exit", "result", "stderr"}
    && Holds(pin.fields, "exit", -6.0) && pin.fields["result"] == Null
    && Plain(pin) == Plain(subject)
  }

  /** The rows of an envelope are the dictionary `observations` of its dictionary `result`. */
  lemma RowsAre(envelope: Json, rows: map<string, Json>)
    ensures RowsOf(envelope) == Some(rows) <==>
      && envelope.Obj? && "result" in envelope.fields && envelope.fields["result"].Obj?
      && "observations" in envelope.fields["result"].fields
      && envelope.fields["result"].fields["observations"] == Obj(rows)
  {
  }

  lemma GetIsPlain(fields: map<string, Json>, key: string, n: real)
    ensures Same(Get(fields, key), Num(n)) <==> Holds(fields, key, n)
  {
    hide Same;
    SameIsPlain(Get(fields, key), Num(n));
  }

  lemma LiveAlike(pin: Json, subject: Json)
    ensures Live(pin) <==> Alive(pin)
    ensures Live(pin) && Live(subject) && Same(pin, subject) <==> AliveAlike(pin, subject)
  {
    hide Same, Plain, Holds;
    if pin.Obj? { GetIsPlain(pin.fields, "exit", 0.0); }
    if subject.Obj? { GetIsPlain(subject.fields, "exit", 0.0); }
    SameIsPlain(pin, subject);
  }

  lemma AbortAlike(pin: Json, subject: Json)
    ensures ReproducedAbort(pin, subject) <==> AbortedAlike(pin, subject)
  {
    hide Same, Plain, Holds;
    if pin.Obj? {
      GetIsPlain(pin.fields, "exit", -6.0);
      if pin.fields.Keys == {"exit", "result", "stderr"} { assert "result" in pin.fields; }
    }
    SameIsPlain(pin, subject);
  }

  /** Independently of any loop: a case matches exactly when both envelopes are alive and alike and every row the pin
      has is alive and alike on both sides, or an abort that a covered case reproduces. */
  lemma MatchMeans(c: Case)
    requires CaseOk(c)
    ensures VerdictOf(c) == MATCH <==>
      && AliveAlike(c.pin, c.subject)
      && (HasRows(c) ==>
            forall key :: key in RowsOf(c.pin).value ==>
              AliveAlike(Left(c, key), Right(c, key)) || (c.covered && AbortedAlike(Left(c, key), Right(c, key))))
  {
    hide VerdictOf, Live, Same, ReproducedAbort, AliveAlike, AbortedAlike, Alive, HasRows, Left, Right, RowsOf, CaseOk;
    VerdictMeans(c);
    LiveAlike(c.pin, c.subject);
    if HasRows(c) {
      forall key
        ensures RowMatches(c, key) || RowAborts(c, key) <==>
          AliveAlike(Left(c, key), Right(c, key)) || (c.covered && AbortedAlike(Left(c, key), Right(c, key)))
      {
        LiveAlike(Left(c, key), Right(c, key));
        AbortAlike(Left(c, key), Right(c, key));
      }
    }
  }

  lemma VerdictMeans(c: Case)
    requires CaseOk(c)
    ensures VerdictOf(c) == MATCH <==>
      EnvelopesMatch(c)
          && (HasRows(c) ==> forall key :: key in RowsOf(c.pin).value ==> RowMatches(c, key) || RowAborts(c, key))
  {
    if HasRows(c) {
      NoFindings(c, |c.order|);
      assert c.order[..|c.order|] == c.order;
      forall key
        ensures key in RowsOf(c.pin).value <==> key in c.order
      {
        assert key in c.order <==> key in multiset(c.order);
        assert key in RowsOf(c.pin).value.Keys <==> key in multiset(RowsOf(c.pin).value.Keys);
      }
    }
  }

  lemma {:induction false} NoFindings(c: Case, n: nat)
    requires HasRows(c) && n <= |c.order|
    ensures DifferingRows(c, n) == [] <==> forall key :: key in c.order[..n] ==> !RowDiffers(c, key)
  {
    hide HasRows, RowDiffers, Left, Right;
    if n > 0 {
      NoFindings(c, n - 1);
      assert c.order[..n] == c.order[..n - 1] + [c.order[n - 1]];
    }
  }

  /** A side compared with itself: it matches exactly when it is live and each of its rows is, or is an abort the
      register covers. In particular no failure matches itself. */
  lemma SelfComparison(c: Case)
    requires CaseOk(c) && c.pin == c.subject
    ensures VerdictOf(c) == MATCH <==>
      Live(c.pin) && (HasRows(c) ==> forall key :: key in RowsOf(c.pin).value ==>
          Live(Left(c, key)) || RowAborts(c, key))
  {
    hide VerdictOf, Live, ReproducedAbort, CaseOk, RowAborts, HasRows;
    VerdictMeans(c);
    SameIsReflexive(c.pin);
    if HasRows(c) {
      forall key
        ensures RowMatches(c, key) <==> Live(Left(c, key))
      {
        SameRows(c, key);
        SameIsReflexive(Left(c, key));
      }
    }
  }

  lemma SameRows(c: Case, key: string)
    requires HasRows(c) && c.pin == c.subject
    ensures Left(c, key) == Right(c, key)
  {
  }

  // ---- the counting battery ----

  datatype Totals = Totals(cases: nat, observations: nat, rowMatch: nat, rowAbort: nat, rowDiffer: nat,
                           caseMatch: nat, caseDiffer: nat, diagnosticsMatch: nat, diagnosticsDiffer: nat)

  datatype Example = Example(name: string, key: string)

  datatype Battery = Battery(totals: Totals, differences: map<string, nat>, examples: map<string, Example>,
      verdicts: map<string, Verdict>)

  /** Counts a difference under its signature and keeps the first example of it. */
  function Record(b: Battery, signature: string, name: string, key: string): (r: Battery) {
    var n := if signature in b.differences then b.differences[signature] else 0;
    b.(differences := b.differences[signature := n + 1],
       examples := if signature in b.examples then b.examples else b.examples[signature := Example(name, key)])
  }

  type Signer = (Json, Json) -> string

  /** One row of the inline copy of the decision. */
  function CountRow(b: Battery, c: Case, key: string, sign: Signer): (r: Battery)
    requires HasRows(c)
  {
    var t := b.totals.(observations := b.totals.observations + 1);
    if RowMatches(c, key) then b.(totals := t.(rowMatch := t.rowMatch + 1))
    else if RowAborts(c, key) then b.(totals := t.(rowAbort := t.rowAbort + 1))
    else Record(b.(totals := t.(rowDiffer := t.rowDiffer + 1)), sign(Left(c, key), Right(c, key)), c.name, key)
  }

  function CountRows(b: Battery, c: Case, n: nat, sign: Signer): (r: Battery)
    requires HasRows(c) && n <= |c.order|
  {
    if n == 0 then b else CountRow(CountRows(b, c, n - 1, sign), c, c.order[n - 1], sign)
  }

  function Opened(b: Battery, c: Case): (r: Battery)
  {
    var t := b.totals.(cases := b.totals.cases + 1);
    var stderr := (j: Json) => if j.Obj? then Get(j.fields, "stderr") else Null;
    b.(totals := if Same(stderr(c.pin), stderr(c.subject)) then t.(diagnosticsMatch := t.diagnosticsMatch + 1)
                 else t.(diagnosticsDiffer := t.diagnosticsDiffer + 1))
  }

  function Matched(b: Battery, c: Case): (r: Battery) {
    b.(totals := b.totals.(caseMatch := b.totals.caseMatch + 1), verdicts := b.verdicts[c.name := MATCH])
  }

  function Differed(b: Battery, c: Case): (r: Battery) {
    b.(totals := b.totals.(caseDiffer := b.totals.caseDiffer + 1), verdicts := b.verdicts[c.name := DIFFER])
  }

  /** One case: `rows` is the battery after its rows, of which `differing` differed. */
  function CloseCase(rows: Battery, c: Case, differing: nat, sign: Signer): (r: Battery) {
    if HasRows(c) then
      if differing == 0 && EnvelopesMatch(c) then Matched(rows, c)
      else if differing == 0 then Differed(Record(rows, sign(c.pin, c.subject), c.name, "case"), c)
      else Differed(rows, c)
    else
      var t := rows.totals.(observations := rows.totals.observations + 1);
      if EnvelopesMatch(c) then Matched(rows.(totals := t.(rowMatch := t.rowMatch + 1)), c)
      else Differed(Record(rows.(totals := t.(rowDiffer := t.rowDiffer + 1)), sign(c.pin, c.subject), c.name, "case"),
          c)
  }

  function CountCase(b: Battery, c: Case, sign: Signer): (r: Battery) {
    var rows := if HasRows(c) then CountRows(Opened(b, c), c, |c.order|, sign) else Opened(b, c);
    CloseCase(rows, c, |Findings(c)|, sign)
  }

  function Unused(): (r: Battery) { Battery(Totals(0, 0, 0, 0, 0, 0, 0, 0, 0), map[], map[], map[]) }

  function CountCases(cases: seq<Case>, n: nat, sign: Signer): (r: Battery)
    requires n <= |cases|
  {
    if n == 0 then Unused()
    else CountCase(CountCases(cases, n - 1, sign), cases[n - 1], sign)
  }

  /** The rows of one case, counted as they are compared. */
  method TallyRows(start: Battery, c: Case, sign: Signer) returns (b: Battery, differing: nat)
    requires HasRows(c)
    ensures b == CountRows(start, c, |c.order|, sign) && differing == |Findings(c)|
  {
    hide Live, Same, ReproducedAbort, HasRows, Left, Right, Record;
    b, differing := start, 0;
    for i := 0 to |c.order|
      invariant b == CountRows(start, c, i, sign) && differing == |DifferingRows(c, i)|
    {
      var key := c.order[i];
      var left, right := Left(c, key), Right(c, key);
      var t := b.totals.(observations := b.totals.observations + 1);
      if Live(left) && Live(right) && Same(left, right) {
        b := b.(totals := t.(rowMatch := t.rowMatch + 1));
      } else if c.covered && ReproducedAbort(left, right) {
        b := b.(totals := t.(rowAbort := t.rowAbort + 1));
      } else {
        differing := differing + 1;
        b := Record(b.(totals := t.(rowDiffer := t.rowDiffer + 1)), sign(left, right), c.name, key);
      }
    }
  }

  /** The battery over every case. */
  method Run(cases: seq<Case>, sign: Signer) returns (b: Battery)
    ensures b == CountCases(cases, |cases|, sign)
  {
    b := Unused();
    for i := 0 to |cases|
      invariant b == CountCases(cases, i, sign)
    {
      var c := cases[i];
      var rows := Opened(b, c);
      var differing := 0;
      if HasRows(c) {
        rows, differing := TallyRows(rows, c, sign);
      }
      b := CloseCase(rows, c, differing, sign);
    }
  }

  // ---- what every run keeps ----

  ghost predicate Balanced(t: Totals) {
    && t.rowMatch + t.rowAbort + t.rowDiffer == t.observations
    && t.caseMatch + t.caseDiffer == t.cases
    && t.diagnosticsMatch + t.diagnosticsDiffer == t.cases
  }

  ghost predicate SameCounts(b: Battery, r: Battery) {
    && r.totals.cases == b.totals.cases && r.totals.caseMatch == b.totals.caseMatch
        && r.totals.caseDiffer == b.totals.caseDiffer
    && r.totals.diagnosticsMatch == b.totals.diagnosticsMatch
        && r.totals.diagnosticsDiffer == b.totals.diagnosticsDiffer
    && r.verdicts == b.verdicts
  }

  ghost predicate RowsBalanced(t: Totals) {
    t.rowMatch + t.rowAbort + t.rowDiffer == t.observations
  }

  /** What counting `observed` rows, `differing` of them unequal, leaves of a battery `b`. */
  ghost predicate Kept(b: Battery, r: Battery, observed: nat, differing: nat) {
    && RowsBalanced(r.totals) && SameCounts(b, r)
    && r.totals.observations == b.totals.observations + observed
    && r.totals.rowDiffer == b.totals.rowDiffer + differing
    && (r.differences == map[] <==> b.differences == map[] && differing == 0)
    && r.examples.Keys == r.differences.Keys
  }

  lemma RecordKeepsKeys(b: Battery, signature: string, name: string, key: string)
    requires b.examples.Keys == b.differences.Keys
    ensures var r := Record(b, signature, name, key);
      r.totals == b.totals && r.verdicts == b.verdicts && r.differences != map[]
          && r.examples.Keys == r.differences.Keys
  {
    var r := Record(b, signature, name, key);
    assert signature in r.differences;
    assert r.differences.Keys == b.differences.Keys + {signature};
    assert r.examples.Keys == b.examples.Keys + {signature};
  }

  lemma RowKeeps(start: Battery, b: Battery, observed: nat, differing: nat, c: Case, key: string, sign: Signer)
    requires HasRows(c) && Kept(start, b, observed, differing)
    ensures Kept(start, CountRow(b, c, key, sign), observed + 1, differing + if RowDiffers(c, key) then 1 else 0)
  {
    hide RowMatches, RowAborts, Left, Right, Record, HasRows;
    var t := b.totals.(observations := b.totals.observations + 1);
    RecordKeepsKeys(b.(totals := t.(rowDiffer := t.rowDiffer + 1)), sign(Left(c, key), Right(c, key)), c.name, key);
  }

  lemma {:induction false} RowsKeep(b: Battery, c: Case, n: nat, sign: Signer)
    requires HasRows(c) && n <= |c.order| && RowsBalanced(b.totals) && b.examples.Keys == b.differences.Keys
    ensures Kept(b, CountRows(b, c, n, sign), n, |DifferingRows(c, n)|)
  {
    hide RowMatches, RowDiffers, HasRows, CountRow;
    if n == 0 {
    } else {
      hide Kept;
      RowsKeep(b, c, n - 1, sign);
      RowKeeps(b, CountRows(b, c, n - 1, sign), n - 1, |DifferingRows(c, n - 1)|, c, c.order[n - 1], sign);
    }
  }

  /** One closed case: the books still balance and the verdict `v` is recorded. */
  ghost predicate Closed(b: Battery, r: Battery, name: string, v: Verdict) {
    && Balanced(r.totals) && r.totals.cases == b.totals.cases + 1
    && r.examples.Keys == r.differences.Keys
    && r.verdicts == b.verdicts[name := v]
    && r.totals.caseMatch == b.totals.caseMatch + (if v == MATCH then 1 else 0)
    && (r.differences == map[] <==> b.differences == map[] && v == MATCH)
  }

  lemma OpenedKeeps(b: Battery, c: Case)
    requires Balanced(b.totals) && b.examples.Keys == b.differences.Keys
    ensures var o := Opened(b, c);
      && o == b.(totals := o.totals) && RowsBalanced(o.totals)
      && o.totals.cases == b.totals.cases + 1
          && o.totals.diagnosticsMatch + o.totals.diagnosticsDiffer == o.totals.cases
      && o.totals.caseMatch == b.totals.caseMatch && o.totals.caseDiffer == b.totals.caseDiffer
      && Kept(o, o, 0, 0)
  {
    hide Same;
  }

  lemma CloseKeeps(b: Battery, o: Battery, rows: Battery, c: Case, observed: nat, sign: Signer)
    requires o == b.(totals := o.totals) && Balanced(b.totals)
    requires o.totals.cases == b.totals.cases + 1
      && o.totals.diagnosticsMatch + o.totals.diagnosticsDiffer == o.totals.cases
    requires o.totals.caseMatch == b.totals.caseMatch && o.totals.caseDiffer == b.totals.caseDiffer
    requires Kept(o, rows, observed, |Findings(c)|)
    ensures Closed(b, CloseCase(rows, c, |Findings(c)|, sign), c.name, VerdictOf(c))
  {
    hide Findings, EnvelopesMatch, Record;
    RecordKeepsKeys(rows, sign(c.pin, c.subject), c.name, "case");
    var t := rows.totals.(observations := rows.totals.observations + 1);
    RecordKeepsKeys(rows.(totals := t.(rowDiffer := t.rowDiffer + 1)), sign(c.pin, c.subject), c.name, "case");
    if !HasRows(c) { NoRowsNoFindings(c); }
  }

  lemma NoRowsNoFindings(c: Case)
    requires !HasRows(c)
    ensures Findings(c) == []
  {
  }

  /** The inline decision is the verdict function, and one case keeps the books. */
  lemma CaseKeeps(b: Battery, c: Case, sign: Signer)
    requires Balanced(b.totals) && b.examples.Keys == b.differences.Keys
    ensures Closed(b, CountCase(b, c, sign), c.name, VerdictOf(c))
  {
    hide HasRows, DifferingRows, CountRows, Opened, EnvelopesMatch, Kept, CloseCase, Closed, VerdictOf;
    OpenedKeeps(b, c);
    var o := Opened(b, c);
    if HasRows(c) {
      RowsKeep(o, c, |c.order|, sign);
      CloseKeeps(b, o, CountRows(o, c, |c.order|, sign), c, |c.order|, sign);
    } else {
      CloseKeeps(b, o, o, c, 0, sign);
    }
  }

  function Matches(cases: seq<Case>, n: nat): (r: nat)
    requires n <= |cases|
  {
    if n == 0 then 0 else Matches(cases, n - 1) + if VerdictOf(cases[n - 1]) == MATCH then 1 else 0
  }

  function VerdictMap(cases: seq<Case>, n: nat): (m: map<string, Verdict>)
    requires n <= |cases|
  {
    if n == 0 then map[] else VerdictMap(cases, n - 1)[cases[n - 1].name := VerdictOf(cases[n - 1])]
  }

  ghost predicate RunBooks(b: Battery, cases: seq<Case>, n: nat)
    requires n <= |cases|
  {
    && Balanced(b.totals) && b.totals.cases == n && b.totals.caseMatch == Matches(cases, n)
    && b.verdicts == VerdictMap(cases, n)
    && b.examples.Keys == b.differences.Keys
    && (b.differences == map[] <==> AllMatch(cases, n))
  }

  ghost predicate AllMatch(cases: seq<Case>, n: nat)
    requires n <= |cases|
  {
    forall i :: 0 <= i < n ==> VerdictOf(cases[i]) == MATCH
  }

  lemma AllMatchStep(cases: seq<Case>, n: nat)
    requires 0 < n <= |cases|
    ensures AllMatch(cases, n) <==> AllMatch(cases, n - 1) && VerdictOf(cases[n - 1]) == MATCH
  {
    hide VerdictOf;
  }

  lemma RunStep(b: Battery, r: Battery, cases: seq<Case>, n: nat)
    requires 0 < n <= |cases| && RunBooks(b, cases, n - 1)
    requires Closed(b, r, cases[n - 1].name, VerdictOf(cases[n - 1]))
    ensures RunBooks(r, cases, n)
  {
    hide VerdictOf, AllMatch, Balanced;
    AllMatchStep(cases, n);
  }

  lemma RunStarts(b: Battery, cases: seq<Case>, n: nat)
    requires n == 0 && b == Unused()
    ensures RunBooks(b, cases, n)
  {
    hide VerdictOf, AllMatch, Matches, VerdictMap, Balanced, Unused;
    NothingUsed(b);
    NoneDiffer(cases, n);
  }

  lemma NothingUsed(b: Battery)
    requires b == Unused()
    ensures Balanced(b.totals) && b.totals.cases == 0 && b.totals.caseMatch == 0 && b.verdicts == map[]
      && b.differences == map[]
    ensures b.examples.Keys == b.differences.Keys
  {
  }

  lemma NoneDiffer(cases: seq<Case>, n: nat)
    requires n == 0
    ensures AllMatch(cases, n) && Matches(cases, n) == 0 && VerdictMap(cases, n) == map[]
  {
    hide VerdictOf;
  }

  lemma RunBegins(cases: seq<Case>, n: nat, sign: Signer)
    requires n == 0
    ensures CountCases(cases, n, sign) == Unused()
  {
    hide CountCase;
  }

  lemma RunUnfolds(cases: seq<Case>, n: nat, sign: Signer)
    requires 0 < n <= |cases|
    ensures CountCases(cases, n, sign) == CountCase(CountCases(cases, n - 1, sign), cases[n - 1], sign)
  {
    hide CountCase;
  }

  lemma BooksBalance(b: Battery, cases: seq<Case>, n: nat)
    requires n <= |cases| && RunBooks(b, cases, n)
    ensures Balanced(b.totals) && b.examples.Keys == b.differences.Keys
  {
  }

  /** Over every run: match, reproduced abort and differ add up to the observations, the cases and the diagnostics to
      the cases, the recorded verdicts are the verdict function's, and the difference table is empty exactly when
      every case matches. */
  lemma {:induction false} RunKeeps(cases: seq<Case>, n: nat, sign: Signer)
    requires n <= |cases|
    ensures RunBooks(CountCases(cases, n, sign), cases, n)
  {
    hide *;
    if n == 0 {
      RunBegins(cases, n, sign);
      RunStarts(CountCases(cases, n, sign), cases, n);
    } else {
      RunKeeps(cases, n - 1, sign);
      RunUnfolds(cases, n, sign);
      var b := CountCases(cases, n - 1, sign);
      BooksBalance(b, cases, n - 1);
      CaseKeeps(b, cases[n - 1], sign);
      RunStep(b, CountCases(cases, n, sign), cases, n);
    }
  }
}
