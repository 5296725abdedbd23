/** The workload fingerprint of a performance run and its hardware instruction count. */
module PerfRun {
  import opened Words

  const OFFSET: Word := 1469598103934665603
  const GUESSED: Word := 0x9e3779b97f4a7c15
  const NOT_GUESSED: Word := 0xbf58476d1ce4e5b9
  const NOT_COUNTED: Word := 0x94d049bb133111eb

  // ---- one word, one mixing step ----

  /** A candidate count: an unsigned 32-bit value. */
  type Count = x: nat | x < 0x1_0000_0000

  /** What the engine answers for one prefix of an input. */
  datatype Step = Step(consumed: Word, guessed: bool, counted: bool, candidates: Count)

  function GuessWord(s: Step): (w: Word) { if s.guessed then GUESSED else NOT_GUESSED }

  function CountWord(s: Step): (w: Word) { if s.counted then s.candidates else NOT_COUNTED }

  function StepWord(s: Step): (w: Word) { Mask(Mask(s.consumed, GuessWord(s)), CountWord(s)) }

  /** The two ways a checksum absorbs a word: a cycle rotates, the workload multiplies. */
  datatype Mixer = Rotating | Multiplying

  function Mix(m: Mixer, c: Word, w: Word): (r: Word) {
    match m
    case Rotating => Rotated(Mask(c, w))
    case Multiplying => TimesPrime(Mask(c, w))
  }

  function Fold(m: Mixer, c: Word, words: seq<Word>): (r: Word)
    decreases |words|
  {
    if words == [] then c else Fold(m, Mix(m, c, words[0]), words[1..])
  }

  /** A mixing step sees exactly the XOR of what it holds and what it is given. */
  lemma MixSees(m: Mixer, c: Word, w: Word, d: Word, v: Word)
    ensures Mix(m, c, w) == Mix(m, d, v) <==> Mask(c, w) == Mask(d, v)
  {
    hide Mask, Rotated, TimesPrime;
    if Mix(m, c, w) == Mix(m, d, v) {
      match m {
        case Rotating => RotationIsInjective(Mask(c, w), Mask(d, v));
        case Multiplying => ProductIsInjective(Mask(c, w), Mask(d, v));
      }
    }
  }

  // ---- whole folds ----

  lemma {:induction false} FoldConcat(m: Mixer, c: Word, ws: seq<Word>, vs: seq<Word>)
    ensures Fold(m, c, ws + vs) == Fold(m, Fold(m, c, ws), vs)
    decreases |ws|
  {
    hide Mix;
    if ws == [] {
      assert ws + vs == vs;
    } else {
      assert (ws + vs)[1..] == ws[1..] + vs;
      FoldConcat(m, Mix(m, c, ws[0]), ws[1..], vs);
    }
  }

  lemma FoldSnoc(m: Mixer, c: Word, ws: seq<Word>, w: Word)
    ensures Fold(m, c, ws + [w]) == Mix(m, Fold(m, c, ws), w)
  {
    hide Mix;
    FoldConcat(m, c, ws, [w]);
    assert [w][1..] == [];
  }

  /** The same words keep two checksums apart. */
  lemma {:induction false} FoldSeparates(m: Mixer, c: Word, d: Word, ws: seq<Word>)
    ensures Fold(m, c, ws) == Fold(m, d, ws) <==> c == d
    decreases |ws|
  {
    hide Mix, Mask;
    if ws != [] {
      FoldSeparates(m, Mix(m, c, ws[0]), Mix(m, d, ws[0]), ws[1..]);
      MixSees(m, c, ws[0], d, ws[0]);
      MaskCancels(ws[0], c, d);
    }
  }

  /** What it takes for two runs of words to collide when they agree after their last difference `a`, `b`: what led up
      to the difference has to cancel it exactly. */
  lemma CollisionNeedsCancelling(m: Mixer, c: Word, ws: seq<Word>, a: Word, d: Word, vs: seq<Word>, b: Word,
                                 rest: seq<Word>)
    ensures Fold(m, c, ws + [a] + rest) == Fold(m, d, vs + [b] + rest) <==>
      Mask(Fold(m, c, ws), a) == Mask(Fold(m, d, vs), b)
  {
    hide *;
    FoldConcat(m, c, ws + [a], rest);
    FoldConcat(m, d, vs + [b], rest);
    FoldSnoc(m, c, ws, a);
    FoldSnoc(m, d, vs, b);
    FoldSeparates(m, Fold(m, c, ws + [a]), Fold(m, d, vs + [b]), rest);
    MixSees(m, Fold(m, c, ws), a, Fold(m, d, vs), b);
  }

  ghost predicate DifferOnlyAt<T>(ws: seq<T>, vs: seq<T>, k: nat) {
    && k < |ws| == |vs| && ws[k] != vs[k]
    && (forall i :: 0 <= i < |ws| && i != k ==> ws[i] == vs[i])
  }

  lemma SplitAt<T>(ws: seq<T>, vs: seq<T>, k: nat)
    requires DifferOnlyAt(ws, vs, k)
    ensures ws[..k] == vs[..k] && ws[k + 1..] == vs[k + 1..]
    ensures ws == ws[..k] + [ws[k]] + ws[k + 1..] && vs == vs[..k] + [vs[k]] + vs[k + 1..]
  {
  }

  /** One changed word always changes the checksum. */
  lemma OneChangeIsSeen(m: Mixer, c: Word, ws: seq<Word>, vs: seq<Word>, k: nat)
    requires DifferOnlyAt(ws, vs, k)
    ensures Fold(m, c, ws) != Fold(m, c, vs)
  {
    hide Fold, Mask;
    SplitAt(ws, vs, k);
    CollisionNeedsCancelling(m, c, ws[..k], ws[k], c, vs[..k], vs[k], ws[k + 1..]);
    MaskCancels(Fold(m, c, ws[..k]), ws[k], vs[k]);
  }

  // ---- one cycle ----

  /** One input of a cycle: whether the reset before it succeeds, and the answers for each of its non-empty prefixes. */
  datatype Input = Input(reset: bool, answers: seq<Step>)

  /** The prefix buffer holds 256 bytes, terminator included. */
  predicate Fits(i: Input) { |i.answers| + 1 <= 256 }

  function StepWords(answers: seq<Step>): (r: seq<Word>) {
    seq(|answers|, j requires 0 <= j < |answers| => StepWord(answers[j]))
  }

  /** The words of a cycle, which ends at its first input that is too long or cannot be reset. */
  function CycleWords(inputs: seq<Input>): (r: seq<Word>) {
    if inputs == [] || !Fits(inputs[0]) || !inputs[0].reset then []
    else StepWords(inputs[0].answers) + CycleWords(inputs[1..])
  }

  function CycleSum(inputs: seq<Input>): (r: Word) { Fold(Rotating, OFFSET, CycleWords(inputs)) }

  lemma AbsorbedInParts(c: Word, s: Step)
    ensures Mask(Mask(Mask(c, s.consumed), GuessWord(s)), CountWord(s)) == Mask(c, StepWord(s))
  {
    hide Mask, GuessWord, CountWord;
    MaskAssociates(c, s.consumed, GuessWord(s));
    MaskAssociates(c, Mask(s.consumed, GuessWord(s)), CountWord(s));
  }

  method RunStep(start: Word, s: Step) returns (checksum: Word)
    ensures checksum == Mix(Rotating, start, StepWord(s))
  {
    hide Mask, Rotated, StepWord;
    checksum := Mask(start, s.consumed);
    checksum := Mask(checksum, if s.guessed then GUESSED else NOT_GUESSED);
    checksum := Mask(checksum, if s.counted then s.candidates else NOT_COUNTED);
    AbsorbedInParts(start, s);
    checksum := Rotated(checksum);
  }

  method RunInput(start: Word, answers: seq<Step>) returns (checksum: Word)
    ensures checksum == Fold(Rotating, start, StepWords(answers))
  {
    hide StepWord, Mix, Fold;
    checksum := start;
    ghost var words := StepWords(answers);
    FoldOfNone(Rotating, start, words[..0]);
    for j := 0 to |answers|
      invariant checksum == Fold(Rotating, start, words[..j])
    {
      FoldSnoc(Rotating, start, words[..j], words[j]);
      assert words[..j] + [words[j]] == words[..j + 1];
      checksum := RunStep(checksum, answers[j]);
    }
    assert words[..|answers|] == words;
  }

  lemma FoldOfNone(m: Mixer, c: Word, ws: seq<Word>)
    requires ws == []
    ensures Fold(m, c, ws) == c
  {
    hide Mix;
  }

  method RunCycle(inputs: seq<Input>) returns (checksum: Word)
    ensures checksum == CycleSum(inputs)
  {
    hide Mix, StepWords, Fold;
    checksum := OFFSET;
    ghost var words := [];
    FoldOfNone(Rotating, OFFSET, words);
    assert inputs[0..] == inputs;
    for i := 0 to |inputs|
      invariant checksum == Fold(Rotating, OFFSET, words)
      invariant CycleWords(inputs) == words + CycleWords(inputs[i..])
    {
      if !Fits(inputs[i]) || !inputs[i].reset {
        assert CycleWords(inputs[i..]) == [];
        assert words + [] == words;
        return checksum;
      }
      assert inputs[i..][1..] == inputs[i + 1..];
      assert CycleWords(inputs[i..]) == StepWords(inputs[i].answers) + CycleWords(inputs[i + 1..]);
      FoldConcat(Rotating, OFFSET, words, StepWords(inputs[i].answers));
      checksum := RunInput(checksum, inputs[i].answers);
      words := words + StepWords(inputs[i].answers);
    }
    assert words + [] == words;
  }

  /** Two steps that differ in one answer alone (bytes consumed, guess, or what the count reports) feed different
      words. */
  lemma OneAnswerIsSeen(s: Step, t: Step)
    requires s.consumed != t.consumed || s.guessed != t.guessed || s.counted != t.counted
      || (s.counted && s.candidates != t.candidates)
    requires (s.guessed == t.guessed && CountWord(s) == CountWord(t))
      || (s.consumed == t.consumed && CountWord(s) == CountWord(t))
          || (s.consumed == t.consumed && s.guessed == t.guessed)
    ensures StepWord(s) != StepWord(t)
  {
    hide Mask;
    MaskCancels(CountWord(s), Mask(s.consumed, GuessWord(s)), Mask(t.consumed, GuessWord(t)));
    MaskCancels(GuessWord(s), s.consumed, t.consumed);
    MaskCancels(s.consumed, GuessWord(s), GuessWord(t));
    MaskCancels(Mask(s.consumed, GuessWord(s)), CountWord(s), CountWord(t));
  }

  /** Two changed answers can cancel: the bytes consumed and the count may trade places unseen. */
  lemma TradedAnswersCollide(a: Count, b: Count, guessed: bool)
    ensures StepWord(Step(a, guessed, true, b)) == StepWord(Step(b, guessed, true, a))
  {
    hide Mask;
    var g := GuessWord(Step(a, guessed, true, b));
    MaskAssociates(a, g, b);
    MaskCommutes(g, b);
    MaskCommutes(a, Mask(b, g));
  }

  // ---- one unit: several passes over the cycle ----

  function XorOf(words: seq<Word>): (r: Word) {
    if words == [] then 0 else Mask(XorOf(words[..|words| - 1]), words[|words| - 1])
  }

  function CycleSums(passes: seq<seq<Input>>): (r: seq<Word>) {
    seq(|passes|, r requires 0 <= r < |passes| => CycleSum(passes[r]))
  }

  function UnitSum(passes: seq<seq<Input>>): (r: Word) { XorOf(CycleSums(passes)) }

  method RunUnit(passes: seq<seq<Input>>) returns (checksum: Word)
    ensures checksum == UnitSum(passes)
  {
    hide CycleSum, Mask;
    checksum := 0;
    ghost var sums := CycleSums(passes);
    for r := 0 to |passes|
      invariant checksum == XorOf(sums[..r])
    {
      var one := RunCycle(passes[r]);
      checksum := Mask(checksum, one);
      assert sums[..r + 1][..r] == sums[..r];
    }
    assert sums[..|passes|] == sums;
  }

  lemma {:induction false} XorConcat(ws: seq<Word>, vs: seq<Word>)
    ensures XorOf(ws + vs) == Mask(XorOf(ws), XorOf(vs))
  {
    hide Mask;
    if vs == [] {
      assert ws + vs == ws;
      MaskSelf(XorOf(ws));
    } else {
      var n := |vs| - 1;
      assert (ws + vs)[..|ws + vs| - 1] == ws + vs[..n];
      XorConcat(ws, vs[..n]);
      MaskAssociates(XorOf(ws), XorOf(vs[..n]), vs[n]);
    }
  }

  lemma XorSplit(before: seq<Word>, w: Word, after: seq<Word>)
    ensures XorOf(before + [w] + after) == Mask(Mask(XorOf(before), w), XorOf(after))
  {
    hide Mask;
    XorConcat(before + [w], after);
    assert (before + [w])[..|before|] == before;
  }

  /** A unit notices one changed pass. */
  lemma UnitSeesOneSum(ws: seq<Word>, vs: seq<Word>, k: nat)
    requires DifferOnlyAt(ws, vs, k)
    ensures XorOf(ws) != XorOf(vs)
  {
    hide Mask, XorOf;
    SplitAt(ws, vs, k);
    XorSplit(ws[..k], ws[k], ws[k + 1..]);
    XorSplit(vs[..k], vs[k], vs[k + 1..]);
    MaskCancels(XorOf(ws[..k]), ws[k], vs[k]);
    MaskCancels(XorOf(ws[k + 1..]), Mask(XorOf(ws[..k]), ws[k]), Mask(XorOf(vs[..k]), vs[k]));
  }

  lemma UnitSeesOnePass(p: seq<seq<Input>>, q: seq<seq<Input>>, pass: nat)
    requires pass < |p| == |q| && CycleSum(p[pass]) != CycleSum(q[pass])
    requires forall r :: 0 <= r < |p| && r != pass ==> p[r] == q[r]
    ensures UnitSum(p) != UnitSum(q)
  {
    hide CycleSum, XorOf;
    UnitSeesOneSum(CycleSums(p), CycleSums(q), pass);
  }

  function Repeated<T>(x: T, n: nat): (r: seq<T>) { seq(n, _ => x) }

  /** Repeating one cycle cancels it: an even unit is blind, an odd unit shows the cycle. */
  lemma {:induction false} RepeatsCancel(c: Word, n: nat)
    ensures XorOf(Repeated(c, n)) == if n % 2 == 0 then 0 else c
  {
    hide Mask;
    if n > 0 {
      RepeatsCancel(c, n - 1);
      assert Repeated(c, n)[..n - 1] == Repeated(c, n - 1);
      MaskSelf(c);
    }
  }

  /** An engine whose passes all answer alike is told from another by a unit exactly when the number of repeats is
      odd. */
  lemma UnitSeesAlikePassesIffOdd(n: nat)
    ensures n % 2 == 1 <==> forall c: Word, d: Word :: c != d ==> XorOf(Repeated(c, n)) != XorOf(Repeated(d, n))
  {
    hide XorOf;
    if n % 2 == 1 {
      forall c: Word, d: Word | c != d
        ensures XorOf(Repeated(c, n)) != XorOf(Repeated(d, n))
      {
        RepeatsCancel(c, n);
        RepeatsCancel(d, n);
      }
    } else {
      RepeatsCancel(1, n);
      RepeatsCancel(2, n);
    }
  }

  // ---- the run: fingerprint and counter ----

  /** The kernel's counter: it advances while enabled, and neither reading nor switching it clears it. */
  class Counter {
    var enabled: bool
    var value: nat

    constructor ()
      ensures !enabled && value == 0
    {
      enabled, value := false, 0;
    }

    /** A control call that fails changes nothing. */
    method Switch(on: bool, works: bool)
      modifies this
      ensures enabled == (if works then on else old(enabled)) && value == old(value)
    {
      if works { enabled := on; }
    }

    method Reset(works: bool)
      modifies this
      ensures enabled == old(enabled) && value == if works then 0 else old(value)
    {
      if works { value := 0; }
    }

    /** `n` instructions retire. */
    method Retire(n: nat)
      modifies this
      ensures enabled == old(enabled) && value == if enabled then old(value) + n else old(value)
    {
      if enabled { value := value + n; }
    }
  }

  /** Which calls on the counter succeed in one cycle. */
  datatype Calls = Calls(enable: bool, disable: bool, read: bool, reset: bool)

  /** One cycle of a run: its passes, and the instructions retired inside and outside the counted region. */
  datatype Cycle = Cycle(passes: seq<seq<Input>>, inside: nat, outside: nat, calls: Calls)

  function UnitSums(cycles: seq<Cycle>): (r: seq<Word>) {
    seq(|cycles|, i requires 0 <= i < |cycles| => UnitSum(cycles[i].passes))
  }

  function Fingerprint(cycles: seq<Cycle>): (r: Word) { Fold(Multiplying, OFFSET, UnitSums(cycles)) }

  /** Every steady cycle, that is all but the first, whose counter can be read. */
  function Steady(cycles: seq<Cycle>): (r: set<nat>)
    ensures forall i: nat :: i in r <==> 0 < i < |cycles| && cycles[i].calls.read
  {
    set i: nat | 0 < i < |cycles| && cycles[i].calls.read
  }

  /** The instructions of the chosen cycles among the first `n`. */
  function InsideOf(cycles: seq<Cycle>, chosen: set<nat>, n: nat): (r: nat)
    requires n <= |cycles|
  {
    if n == 0 then 0 else InsideOf(cycles, chosen, n - 1) + if n - 1 in chosen then cycles[n - 1].inside else 0
  }

  function Below(chosen: set<nat>, n: nat): (r: set<nat>) { set i | i in chosen && i < n }

  lemma BelowStep(chosen: set<nat>, n: nat)
    ensures |Below(chosen, n + 1)| == |Below(chosen, n)| + if n in chosen then 1 else 0
  {
    assert Below(chosen, n + 1) == Below(chosen, n) + if n in chosen then {n} else {};
  }

  lemma InsideStep(cycles: seq<Cycle>, chosen: set<nat>, n: nat)
    requires n < |cycles|
    ensures Low(InsideOf(cycles, chosen, n + 1)) ==
      if n in chosen then Low(Low(InsideOf(cycles, chosen, n)) + Low(cycles[n].inside))
      else Low(InsideOf(cycles, chosen, n))
  {
    hide Low;
    LowAdds(InsideOf(cycles, chosen, n), cycles[n].inside);
  }

  /** The counter and the two totals between cycles. */
  datatype Meter = Meter(enabled: bool, value: nat, instructions: Word, samples: nat)

  /** The counter's part of one cycle; the first, cold cycle leaves the counter alone. */
  function Metered(m: Meter, c: Cycle, steady: bool): (r: Meter) {
    if !steady then m.(value := if m.enabled then m.value + c.inside + c.outside else m.value)
    else
      var on := m.enabled || c.calls.enable;
      var counted := if on then m.value + c.inside else m.value;
      var stillOn := on && !c.calls.disable;
      var kept := if c.calls.reset then 0 else counted;
      Meter(stillOn, if stillOn then kept + c.outside else kept,
            if c.calls.read then Low(m.instructions + Low(counted)) else m.instructions,
            if c.calls.read then m.samples + 1 else m.samples)
  }

  function MeteredTo(cycles: seq<Cycle>, n: nat): (r: Meter)
    requires n <= |cycles|
  {
    if n == 0 then Meter(false, 0, 0, 0) else Metered(MeteredTo(cycles, n - 1), cycles[n - 1], n > 1)
  }

  /** The switches and resets of every steady cycle succeed; reads may fail. */
  ghost predicate ControlsWork(cycles: seq<Cycle>) {
    forall i :: 0 < i < |cycles| ==> cycles[i].calls.enable && cycles[i].calls.disable && cycles[i].calls.reset
  }

  /** Where the control calls succeed, the total is the sum modulo 2^64 over exactly the steady cycles whose read
      succeeded, each counted once. */
  lemma {:induction false} CountedOnce(cycles: seq<Cycle>, n: nat)
    requires n <= |cycles| && ControlsWork(cycles)
    ensures MeteredTo(cycles, n) ==
      Meter(false, 0, Low(InsideOf(cycles, Steady(cycles), n)), |Below(Steady(cycles), n)|)
  {
    hide Low, Below, InsideOf, Steady;
    var steady := Steady(cycles);
    if n == 0 {
      NothingCounted(cycles, steady);
    } else {
      CountedOnce(cycles, n - 1);
      InsideStep(cycles, steady, n - 1);
      BelowStep(steady, n - 1);
    }
  }

  lemma NothingCounted(cycles: seq<Cycle>, chosen: set<nat>)
    ensures Low(InsideOf(cycles, chosen, 0)) == 0 && |Below(chosen, 0)| == 0
  {
    assert Below(chosen, 0) == {};
  }

  /** A reset that fails, with every other call of two steady cycles succeeding, makes the second read return both
      cycles: the first is counted twice. */
  lemma FailedResetCountsTwice(m: Meter, a: Cycle, b: Cycle)
    requires !m.enabled && m.value == 0 && a.calls == Calls(true, true, true, false)
      && b.calls == Calls(true, true, true, true)
    ensures Metered(Metered(m, a, true), b, true) ==
      Meter(false, 0, Low(m.instructions + 2 * a.inside + b.inside), m.samples + 2)
  {
    LowShifts(m.instructions, a.inside);
    LowShifts(Low(m.instructions + a.inside), a.inside + b.inside);
    LowAdds(m.instructions + a.inside, a.inside + b.inside);
  }

  lemma LowShifts(w: Word, n: nat)
    ensures Low(w + Low(n)) == Low(w + n)
  {
    LowAdds(w, n);
  }

  lemma XorStep(start: Word, sums: seq<Word>, i: nat)
    requires i < |sums|
    ensures Mask(Mask(start, XorOf(sums[..i])), sums[i]) == Mask(start, XorOf(sums[..i + 1]))
  {
    hide Mask;
    assert sums[..i + 1][..i] == sums[..i];
    MaskAssociates(start, XorOf(sums[..i]), sums[i]);
  }

  /** The change of the sink is the unit itself, whatever the sink held. */
  lemma SinkChange(before: Word, unit: Word)
    ensures Mask(before, Mask(before, unit)) == unit
  {
    hide Mask;
    MaskAssociates(before, before, unit);
    MaskSelf(before);
    MaskSelf(unit);
  }

  class Harness {
    /** The global the optimiser must not discard: every unit is XORed into it. */
    var sink: Word

    /** The fingerprint half of one cycle. */
    method Fingerprinted(fingerprint: Word, passes: seq<seq<Input>>) returns (r: Word)
      modifies this
      ensures r == Mix(Multiplying, fingerprint, UnitSum(passes))
      ensures sink == Mask(old(sink), UnitSum(passes))
    {
      hide Mask, TimesPrime, UnitSum;
      var before := sink;
      var unit := RunUnit(passes);
      sink := Mask(sink, unit);
      SinkChange(before, unit);
      r := Mask(fingerprint, Mask(before, sink));
      r := TimesPrime(r);
    }

    /** The loop of a run over `cycles`; `open` says whether a counter could be opened. */
    method Run(cycles: seq<Cycle>, counter: Counter, open: bool)
               returns (fingerprint: Word, instructions: Word, samples: nat)
      requires !counter.enabled && counter.value == 0
      modifies this, counter
      ensures fingerprint == Fingerprint(cycles)
      ensures sink == Mask(old(sink), XorOf(UnitSums(cycles)))
      ensures !open ==> instructions == 0 && samples == 0
      ensures open ==> Meter(counter.enabled, counter.value, instructions, samples) == MeteredTo(cycles, |cycles|)
      ensures open && ControlsWork(cycles) ==>
        instructions == Low(InsideOf(cycles, Steady(cycles), |cycles|)) && samples == |Steady(cycles)|
    {
      hide Mix, UnitSum, Mask, Fold, XorOf, Low;
      fingerprint, instructions, samples := OFFSET, 0, 0;
      ghost var sums := UnitSums(cycles);
      FoldOfNone(Multiplying, OFFSET, sums[..0]);
      NothingYet(sink, sums[..0]);
      for i := 0 to |cycles|
        invariant fingerprint == Fold(Multiplying, OFFSET, sums[..i])
        invariant sink == Mask(old(sink), XorOf(sums[..i]))
        invariant !open ==> !counter.enabled && instructions == 0 && samples == 0
        invariant open ==> Meter(counter.enabled, counter.value, instructions, samples) == MeteredTo(cycles, i)
      {
        FoldSnoc(Multiplying, OFFSET, sums[..i], sums[i]);
        assert sums[..i] + [sums[i]] == sums[..i + 1];
        XorStep(old(sink), sums, i);
        var calls := cycles[i].calls;
        if i > 0 && open { counter.Switch(true, calls.enable); }
        counter.Retire(cycles[i].inside);
        fingerprint := Fingerprinted(fingerprint, cycles[i].passes);
        if i > 0 && open {
          counter.Switch(false, calls.disable);
          if calls.read {
            instructions := Low(instructions + Low(counter.value));
            samples := samples + 1;
          }
          counter.Reset(calls.reset);
        }
        counter.Retire(cycles[i].outside);
      }
      assert sums[..|cycles|] == sums;
      if open && ControlsWork(cycles) {
        CountedOnce(cycles, |cycles|);
        AllBelow(Steady(cycles), |cycles|);
      }
    }
  }

  lemma NothingYet(sink: Word, none: seq<Word>)
    requires none == []
    ensures Mask(sink, XorOf(none)) == sink
  {
    hide Mask;
    MaskSelf(sink);
  }

  lemma AllBelow(chosen: set<nat>, n: nat)
    requires forall i: nat :: i in chosen ==> i < n
    ensures Below(chosen, n) == chosen
  {
  }

  /** Two runs whose unit checksums differ in one cycle have different fingerprints. */
  lemma OneCycleIsSeen(cycles: seq<Cycle>, others: seq<Cycle>, k: nat)
    requires DifferOnlyAt(UnitSums(cycles), UnitSums(others), k)
    ensures Fingerprint(cycles) != Fingerprint(others)
  {
    hide Fold, UnitSums;
    OneChangeIsSeen(Multiplying, OFFSET, UnitSums(cycles), UnitSums(others), k);
  }

  /** From one engine answer to the printed fingerprint: two runs that differ in one step word of one pass of one
      cycle never print the same. */
  lemma OneStepIsSeen(cycles: seq<Cycle>, others: seq<Cycle>, k: nat, pass: nat, step: nat)
    requires k < |cycles| == |others| && forall i :: 0 <= i < |cycles| && i != k ==>
      cycles[i].passes == others[i].passes
    requires pass < |cycles[k].passes| == |others[k].passes|
    requires forall r :: 0 <= r < |cycles[k].passes| && r != pass ==> cycles[k].passes[r] == others[k].passes[r]
    requires DifferOnlyAt(CycleWords(cycles[k].passes[pass]), CycleWords(others[k].passes[pass]), step)
    ensures Fingerprint(cycles) != Fingerprint(others)
  {
    hide CycleWords, Mix, Fold, UnitSum;
    var p, q := cycles[k].passes, others[k].passes;
    OneChangeIsSeen(Rotating, OFFSET, CycleWords(p[pass]), CycleWords(q[pass]), step);
    UnitSeesOnePass(p, q, pass);
    assert DifferOnlyAt(UnitSums(cycles), UnitSums(others), k);
    OneCycleIsSeen(cycles, others, k);
  }

  ghost predicate Alike(passes: seq<seq<Input>>) {
    forall r, q :: 0 <= r < |passes| && 0 <= q < |passes| ==> CycleSum(passes[r]) == CycleSum(passes[q])
  }

  lemma AlikeUnit(passes: seq<seq<Input>>)
    requires Alike(passes)
    ensures UnitSum(passes) == if |passes| % 2 == 0 then 0 else CycleSum(passes[0])
  {
    hide CycleSum, XorOf;
    if passes != [] {
      assert CycleSums(passes) == Repeated(CycleSum(passes[0]), |passes|);
      RepeatsCancel(CycleSum(passes[0]), |passes|);
    } else {
      assert CycleSums(passes) == Repeated<Word>(0, 0);
      RepeatsCancel(0, 0);
    }
  }

  /** With an even number of repeats and an engine that answers every pass of a cycle alike, the fingerprint is the
      same whatever the engine answers: only the number of cycles is left in it. */
  lemma EvenRepeatsAreBlind(cycles: seq<Cycle>, others: seq<Cycle>)
    requires |cycles| == |others|
    requires forall i :: 0 <= i < |cycles| ==> Alike(cycles[i].passes) && Alike(others[i].passes)
    requires forall i :: 0 <= i < |cycles| ==> |cycles[i].passes| % 2 == 0 && |others[i].passes| % 2 == 0
    ensures Fingerprint(cycles) == Fingerprint(others)
  {
    hide Alike, Fold, UnitSum;
    forall i | 0 <= i < |cycles|
      ensures UnitSum(cycles[i].passes) == UnitSum(others[i].passes)
    {
      AlikeUnit(cycles[i].passes);
      AlikeUnit(others[i].passes);
    }
    assert UnitSums(cycles) == UnitSums(others);
  }

  /** `n` passes whose cycles all have the checksum `c`. */
  ghost predicate Repeats(passes: seq<seq<Input>>, n: nat, c: Word) {
    |passes| == n && forall r :: 0 <= r < n ==> CycleSum(passes[r]) == c
  }

  lemma RepeatedUnit(passes: seq<seq<Input>>, n: nat, c: Word)
    requires Repeats(passes, n, c)
    ensures UnitSum(passes) == if n % 2 == 0 then 0 else c
  {
    hide CycleSum, XorOf;
    assert CycleSums(passes) == Repeated(c, n);
    RepeatsCancel(c, n);
  }

  /** The printed fingerprint tells an engine with one different cycle from another exactly when the number of repeats
      is odd. */
  lemma FingerprintSeesIffOdd(cycles: seq<Cycle>, others: seq<Cycle>, sums: seq<Word>, sums': seq<Word>, k: nat, n: nat)
    requires |cycles| == |sums| && |others| == |sums'| && DifferOnlyAt(sums, sums', k)
    requires forall i :: 0 <= i < |cycles| ==> Repeats(cycles[i].passes, n, sums[i])
    requires forall i :: 0 <= i < |others| ==> Repeats(others[i].passes, n, sums'[i])
    ensures Fingerprint(cycles) != Fingerprint(others) <==> n % 2 == 1
  {
    hide Fold, UnitSum, Repeats;
    forall i | 0 <= i < |cycles|
      ensures UnitSum(cycles[i].passes) == if n % 2 == 0 then 0 else sums[i]
      ensures UnitSum(others[i].passes) == if n % 2 == 0 then 0 else sums'[i]
    {
      RepeatedUnit(cycles[i].passes, n, sums[i]);
      RepeatedUnit(others[i].passes, n, sums'[i]);
    }
    if n % 2 == 1 {
      assert UnitSums(cycles) == sums && UnitSums(others) == sums';
      OneCycleIsSeen(cycles, others, k);
    } else {
      assert UnitSums(cycles) == UnitSums(others);
    }
  }

  // ---- spelled out on the smallest runs ----

  /** The words of a step that consumes nothing and counts nothing. */
  lemma BareWords(n: Count)
    ensures StepWord(Step(0, true, true, 0)) == 0x9e3779b97f4a7c15
    ensures StepWord(Step(0, false, true, 0)) == 0xbf58476d1ce4e5b9
    ensures StepWord(Step(0, true, false, n)) == Mask(0x9e3779b97f4a7c15, 0x94d049bb133111eb)
    ensures StepWord(Step(0, false, false, n)) == Mask(0xbf58476d1ce4e5b9, 0x94d049bb133111eb)
  {
    hide Mask;
    MaskSelf(0x9e3779b97f4a7c15);
    MaskSelf(0xbf58476d1ce4e5b9);
  }

  /** A cycle of one step rotates by seven bits, and a run of one cycle multiplies by the prime, from the same start. */
  lemma OneOfEach(s: Step, inside: nat, outside: nat, calls: Calls)
    ensures var x := Mask(1469598103934665603, StepWord(s));
      CycleSum([Input(true, [s])]) == x * 128 % 0x1_0000_0000_0000_0000 + x / 0x200_0000_0000_0000
    ensures var y := Mask(1469598103934665603, CycleSum([Input(true, [s])]));
      Fingerprint([Cycle([[Input(true, [s])]], inside, outside, calls)])
      == y * 1099511628211 % 0x1_0000_0000_0000_0000
  {
    hide StepWord, Mask;
    var input := Input(true, [s]);
    var word := StepWord(s);
    assert [input][1..] == [] && StepWords([s]) == [word] && [word] + [] == [word];
    assert CycleWords([input]) == [word];
    FoldOne(Rotating, OFFSET, word);
    RotationIs(Mask(OFFSET, word));
    var cycle := Cycle([[input]], inside, outside, calls);
    OneUnit([input]);
    assert UnitSums([cycle]) == [CycleSum([input])];
    FoldOne(Multiplying, OFFSET, CycleSum([input]));
  }

  lemma OneUnit(inputs: seq<Input>)
    ensures UnitSum([inputs]) == CycleSum(inputs)
  {
    hide CycleSum, Mask;
    var sums := CycleSums([inputs]);
    assert sums == [CycleSum(inputs)] && sums[..0] == [];
    assert XorOf(sums) == Mask(0, CycleSum(inputs));
    MaskSelf(CycleSum(inputs));
  }

  lemma FoldOne(m: Mixer, c: Word, w: Word)
    ensures Fold(m, c, [w]) == Mix(m, c, w)
  {
    hide Mix;
    assert [w][1..] == [];
  }

  lemma RotationIs(x: Word)
    ensures Rotated(x) == x * 128 % 0x1_0000_0000_0000_0000 + x / 0x200_0000_0000_0000
  {
  }

  /** The words of whole inputs. */
  function AllWords(inputs: seq<Input>): (r: seq<Word>) {
    if inputs == [] then [] else StepWords(inputs[0].answers) + AllWords(inputs[1..])
  }

  /** A cycle takes its inputs whole, up to the first that has more than 255 prefixes or cannot be reset. */
  lemma {:induction false} CycleStops(inputs: seq<Input>, n: nat)
    requires n <= |inputs| && forall i :: 0 <= i < n ==> |inputs[i].answers| <= 255 && inputs[i].reset
    requires n < |inputs| ==> |inputs[n].answers| > 255 || !inputs[n].reset
    ensures CycleWords(inputs) == AllWords(inputs[..n])
    decreases n
  {
    hide StepWords;
    if n > 0 {
      CycleStops(inputs[1..], n - 1);
      assert inputs[..n][1..] == inputs[1..][..n - 1];
    }
  }
}
