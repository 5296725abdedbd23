/** Failing one allocation of a call under test, and the parent's verdict on the markers the child leaves. */
module AllocFailure {

  // ---- what the child process does ----

  datatype Target = GlibMalloc | GlibRealloc | LibcMalloc

  datatype Kind = Malloc | Realloc

  /** The function an allocation is made from, as the caller lookup reports it. */
  datatype Caller = GMalloc | GRealloc | InLibc | Elsewhere

  /** One interposed call; `nested` are the allocations that looking its caller up would make. */
  datatype Call = Call(kind: Kind, caller: Caller, nested: seq<Call>)

  /** What a process does: an allocation, or a fatal message passed to the log. */
  datatype Event = Alloc(call: Call) | Fatal

  predicate LooksUp(target: Target, c: Call) { (target == GlibRealloc) == (c.kind == Realloc) }

  predicate Matches(target: Target, c: Call) {
    match target
    case GlibMalloc => c.kind == Malloc && c.caller == GMalloc
    case LibcMalloc => c.kind == Malloc && c.caller == InLibc
    case GlibRealloc => c.kind == Realloc && c.caller == GRealloc
  }

  datatype State = State(target: Target, failAt: int, seen: int, armed: bool, inside: bool, markers: string)

  /** The state after a call, and whether the call failed. */
  function After(s: State, c: Call, disabled: bool): (r: (State, bool)) {
    if !s.armed || s.inside || !Matches(s.target, c) then (s, false)
    else
      var t := s.(seen := s.seen + 1);
      if t.seen != t.failAt || disabled then (t, false)
      else (t.(armed := false, markers := t.markers + "F"), true)
  }

  function Happens(s: State, e: Event, disabled: bool): (r: State) {
    match e
    case Alloc(c) => After(s, c, disabled).0
    case Fatal => s.(markers := s.markers + "E")
  }

  function Happen(s: State, events: seq<Event>, disabled: bool): (r: State)
    decreases |events|
  {
    if events == [] then s else Happen(Happens(s, events[0], disabled), events[1..], disabled)
  }

  /** The test program's interposed allocator. */
  class Interposer {
    const disabled: bool
    var target: Target
    var failAt: int
    var seen: int
    var armed: bool
    var inside: bool
    var markers: string

    constructor (disabled: bool)
      ensures this.disabled == disabled && Now() == State(GlibMalloc, 1, 0, false, false, "")
    {
      this.disabled := disabled;
      target, failAt, seen, armed, inside, markers := GlibMalloc, 1, 0, false, false, "";
    }

    ghost function Now(): (s: State)
      reads this
    {
      State(target, failAt, seen, armed, inside, markers)
    }

    /** `malloc` and `realloc`: the allocations made while the caller is looked up re-enter this method. */
    method Allocate(c: Call) returns (failed: bool)
      modifies this
      ensures (Now(), failed) == After(old(Now()), c, disabled)
      decreases c
    {
      failed := false;
      if armed && !inside && LooksUp(target, c) {
        inside := true;
        ghost var entered := Now();
        for i := 0 to |c.nested|
          invariant Now() == entered
        {
          var _ := Allocate(c.nested[i]);
        }
        failed := Matches(target, c);
        if failed {
          seen := seen + 1;
          failed := seen == failAt;
        }
        inside := false;
      }
      if disabled {
        failed := false;
      }
      if failed {
        armed := false;
        markers := markers + "F";
      }
    }

    method Play(events: seq<Event>)
      modifies this
      ensures Now() == Happen(old(Now()), events, disabled)
    {
      ghost var start := Now();
      for i := 0 to |events|
        invariant Happen(Now(), events[i..], disabled) == Happen(start, events, disabled)
      {
        assert events[i..][1..] == events[i + 1..];
        match events[i] {
          case Alloc(c) => var _ := Allocate(c);
          case Fatal => markers := markers + "E";
        }
      }
    }

    /** A child: it prepares, arms, and makes the operation fail at the chosen allocation; `survives` says whether the
        operation returns. */
    method Child(operation: int, setup: seq<Event>, events: seq<Event>, survives: bool)
      requires !armed && !inside && markers == ""
      modifies this
      ensures markers == ChildMarkers(operation, setup, events, survives, disabled)
    {
      hide Happen, Happens, Markers, Es, Fatals, TargetOf, FailAt;
      Play(setup);
      Unarmed(old(Now()), setup, disabled);
      target, failAt, seen, armed := TargetOf(operation), FailAt(operation), 0, true;
      ghost var armedState := Now();
      Play(events);
      MarkersAppend(armedState, events, disabled);
      EarlierMarkersDoNotMatter(armedState, Armed(operation), events, disabled);
      if survives {
        armed := false;
        markers := markers + "R";
      }
    }
  }

  function TargetOf(operation: int): (t: Target) {
    if operation == 5 then GlibRealloc else if operation == 9 then LibcMalloc else GlibMalloc
  }

  function FailAt(operation: int): (n: int)
    ensures n >= 1
  {
    if operation == 3 then 2 else if operation == 4 then 3 else 1
  }

  // ---- which call fails ----

  /** The matching calls among the events. */
  function Matching(target: Target, events: seq<Event>): (n: nat) {
    if events == [] then 0
    else (if events[0].Alloc? && Matches(target, events[0].call) then 1 else 0) + Matching(target, events[1..])
  }

  function Fatals(events: seq<Event>): (n: nat) {
    if events == [] then 0 else (if events[0].Fatal? then 1 else 0) + Fatals(events[1..])
  }

  /** Whether the `i`-th event is an allocation that fails. */
  predicate FailsAt(s: State, events: seq<Event>, i: nat, disabled: bool)
    requires i < |events|
  {
    events[i].Alloc? && After(Happen(s, events[..i], disabled), events[i].call, disabled).1
  }

  /** What arming has led to after the events: still armed with every match counted, or spent. */
  lemma {:induction false} ArmedState(s: State, events: seq<Event>)
    requires s.armed && !s.inside
    ensures var t := Happen(s, events, false); var n := Matching(s.target, events);
      && t.target == s.target && t.failAt == s.failAt && !t.inside
      && t.armed == !(s.seen < s.failAt <= s.seen + n)
      && (t.armed ==> t.seen == s.seen + n)
    decreases |events|
  {
    if events != [] {
      var t := Happens(s, events[0], false);
      if t.armed { ArmedState(t, events[1..]); } else { Spent(t, events[1..], false); }
    }
  }

  /** Nothing fails, and nothing but fatal messages shows, while the interposer is not armed. */
  lemma {:induction false} Spent(s: State, events: seq<Event>, disabled: bool)
    requires !s.armed
    ensures Happen(s, events, disabled) == s.(markers := Happen(s, events, disabled).markers)
    decreases |events|
  {
    if events != [] { Spent(Happens(s, events[0], disabled), events[1..], disabled); }
  }

  /** An allocation fails exactly when it is the `failAt`-th matching call since arming; calls made while a caller is
      looked up are neither counted nor failed. */
  lemma FailsExactly(s: State, events: seq<Event>, i: nat)
    requires s.armed && !s.inside && s.seen == 0 && i < |events|
    ensures FailsAt(s, events, i, false) <==>
      events[i].Alloc? && Matches(s.target, events[i].call) && Matching(s.target, events[..i]) == s.failAt - 1
  {
    hide Happen, Matching;
    ArmedState(s, events[..i]);
  }

  /** One arming fails at most one call. */
  lemma FailsAtMostOnce(s: State, events: seq<Event>, i: nat, j: nat)
    requires s.armed && !s.inside && s.seen == 0 && i < j < |events| && FailsAt(s, events, i, false)
    ensures !FailsAt(s, events, j, false)
  {
    hide Happen, FailsAt;
    FailsExactly(s, events, i);
    FailsExactly(s, events, j);
    assert events[..i + 1] == events[..i] + [events[i]];
    MatchingConcat(s.target, events[..i], [events[i]]);
    assert events[..j] == events[..i + 1] + events[i + 1..j];
    MatchingConcat(s.target, events[..i + 1], events[i + 1..j]);
  }

  lemma {:induction false} MatchingConcat(target: Target, a: seq<Event>, b: seq<Event>)
    ensures Matching(target, a + b) == Matching(target, a) + Matching(target, b)
  {
    if a == [] {
      assert a + b == b;
    } else {
      assert (a + b)[1..] == a[1..] + b;
      MatchingConcat(target, a[1..], b);
    }
  }

  // ---- the markers ----

  /** The markers the events write. */
  function Markers(s: State, events: seq<Event>, disabled: bool): (r: string)
    decreases |events|
  {
    if events == [] then ""
    else
      (if events[0].Fatal? then "E" else if After(s, events[0].call, disabled).1 then "F" else "")
      + Markers(Happens(s, events[0], disabled), events[1..], disabled)
  }

  lemma {:induction false} MarkersAppend(s: State, events: seq<Event>, disabled: bool)
    ensures Happen(s, events, disabled).markers == s.markers + Markers(s, events, disabled)
    decreases |events|
  {
    if events != [] {
      MarkersAppend(Happens(s, events[0], disabled), events[1..], disabled);
    }
  }

  function Es(n: nat): (r: string)
    ensures |r| == n && forall i :: 0 <= i < n ==> r[i] == 'E'
  {
    if n == 0 then "" else "E" + Es(n - 1)
  }

  lemma {:induction false} Unarmed(s: State, events: seq<Event>, disabled: bool)
    requires !s.armed || disabled
    ensures Markers(s, events, disabled) == Es(Fatals(events))
    ensures Happen(s, events, disabled).markers == s.markers + Es(Fatals(events))
    ensures Happen(s, events, disabled).inside == s.inside
    ensures Happen(s, events, disabled).armed == s.armed
    decreases |events|
  {
    if events != [] {
      Unarmed(Happens(s, events[0], disabled), events[1..], disabled);
    }
  }

  function Armed(operation: int): (s: State) { State(TargetOf(operation), FailAt(operation), 0, true, false, "") }

  function ChildMarkers(operation: int, setup: seq<Event>, events: seq<Event>, survives: bool,
                        disabled: bool): (r: string) {
    Es(Fatals(setup)) + Markers(Armed(operation), events, disabled) + if survives then "R" else ""
  }

  lemma {:induction false} EarlierMarkersDoNotMatter(s: State, t: State, events: seq<Event>, disabled: bool)
    requires s.(markers := t.markers) == t
    ensures Markers(s, events, disabled) == Markers(t, events, disabled)
    decreases |events|
  {
    if events != [] {
      EarlierMarkersDoNotMatter(Happens(s, events[0], disabled), Happens(t, events[0], disabled), events[1..],
          disabled);
    }
  }

  /** The events before the first fatal message. */
  function Quiet(events: seq<Event>): (r: seq<Event>)
    ensures r <= events && Fatals(r) == 0
    ensures |r| < |events| ==> events[|r|].Fatal?
    ensures Fatals(events) > 0 ==> |r| < |events|
  {
    if events == [] || events[0].Fatal? then []
    else
      var rest := Quiet(events[1..]);
      assert ([events[0]] + rest)[1..] == rest;
      [events[0]] + rest
  }

  lemma {:induction false} FailureAlone(s: State, events: seq<Event>)
    requires s.armed && !s.inside && s.seen < s.failAt
    ensures Markers(s, events, false) == "F" <==> Fatals(events) == 0 && s.failAt <= s.seen + Matching(s.target, events)
    decreases |events|
  {
    if events != [] {
      var t := Happens(s, events[0], false);
      if events[0].Fatal? { assert Markers(s, events, false)[0] == 'E'; }
      if t.armed { FailureAlone(t, events[1..]); } else { Unarmed(t, events[1..], false); }
    }
  }

  lemma {:induction false} FailureThenFatal(s: State, events: seq<Event>)
    requires s.armed && !s.inside && s.seen < s.failAt
    ensures Markers(s, events, false) == "FE" <==>
      Fatals(events) == 1 && s.failAt <= s.seen + Matching(s.target, Quiet(events))
    decreases |events|
  {
    if events != [] {
      var t := Happens(s, events[0], false);
      if events[0].Fatal? {
        assert Quiet(events) == [];
        assert Markers(s, events, false)[0] == 'E';
      } else {
        assert Quiet(events)[1..] == Quiet(events[1..]);
        if t.armed {
          FailureThenFatal(t, events[1..]);
        } else {
          Unarmed(t, events[1..], false);
          OneE(Fatals(events[1..]));
        }
      }
    }
  }

  lemma OneE(n: nat)
    ensures "F" + Es(n) == "FE" <==> n == 1
  {
    if n == 1 { assert Es(n) == "E"; } else { assert |"F" + Es(n)| == n + 1; }
  }

  // ---- the parent's verdict ----

  const SIGTRAP := 5
  const SIGABRT := 6

  predicate Contains(text: string, part: string) {
    exists i :: 0 <= i <= |text| && part <= text[i..]
  }

  /** How the child ended: by a signal or by exiting. */
  datatype Ending = Signalled(signal: int) | Exited(status: int)

  /** The parent reads at most 32 markers. */
  function Evidence(markers: string): (r: string) { if |markers| <= 32 then markers else markers[..32] }

  predicate PrintfDied(diagnostic: string, ending: Ending) {
    && Contains(diagnostic, "gprintf.c:") && Contains(diagnostic, ": failed to allocate memory\n")
    && ending.Signalled? && ending.signal == SIGABRT
  }

  predicate ErrorDied(ending: Ending) { ending.Signalled? && ending.signal in {SIGTRAP, SIGABRT} }

  predicate Accepts(operation: int, evidence: string, diagnostic: string, ending: Ending) {
    if operation == 9 then |evidence| == 1 && evidence[0] == 'F' && PrintfDied(diagnostic, ending)
    else |evidence| == 2 && evidence[0] == 'F' && evidence[1] == 'E' && ErrorDied(ending)
  }

  lemma EvidenceDecides(operation: int, markers: string, diagnostic: string, ending: Ending)
    ensures Accepts(operation, Evidence(markers), diagnostic, ending) <==>
      if operation == 9 then markers == "F" && PrintfDied(diagnostic, ending) else markers == "FE" && ErrorDied(ending)
  {
    hide PrintfDied, ErrorDied;
  }

  /** Markers of a child that say "one failure" and nothing else, or "one failure, then the fatal message". */
  lemma ChildMarkersAre(operation: int, setup: seq<Event>, events: seq<Event>, survives: bool, disabled: bool,
                        wanted: string)
    requires wanted == "F" || wanted == "FE"
    ensures ChildMarkers(operation, setup, events, survives, disabled) == wanted <==>
      !disabled && !survives && Fatals(setup) == 0 && Markers(Armed(operation), events, disabled) == wanted
  {
    hide Markers, Fatals;
    var middle := Markers(Armed(operation), events, disabled);
    var all := ChildMarkers(operation, setup, events, survives, disabled);
    var n := Fatals(setup);
    if n > 0 {
      assert all[0] == Es(n)[0] == 'E';
    } else {
      assert Es(n) == "";
      assert all == middle + if survives then "R" else "";
      if survives {
        assert all[|all| - 1] == 'R';
      } else {
        assert all == middle;
        if disabled {
          Unarmed(Armed(operation), events, disabled);
          assert middle != [] ==> middle[0] == 'E';
        }
      }
    }
  }

  lemma VerdictIs(operation: int, setup: seq<Event>, events: seq<Event>, survives: bool, disabled: bool,
                    diagnostic: string, ending: Ending)
    ensures var evidence := Evidence(ChildMarkers(operation, setup, events, survives, disabled));
      Accepts(operation, evidence, diagnostic, ending) <==>
      && !disabled && !survives && Fatals(setup) == 0
      && (operation == 9 ==>
            && Fatals(events) == 0 && FailAt(operation) <= Matching(TargetOf(operation), events)
            && PrintfDied(diagnostic, ending))
      && (operation != 9 ==>
            && Fatals(events) == 1 && FailAt(operation) <= Matching(TargetOf(operation), Quiet(events))
            && ErrorDied(ending))
  {
    hide Accepts, Evidence, ChildMarkers, Fatals, Matching, Markers, Quiet, PrintfDied, ErrorDied, FailAt, TargetOf;
    EvidenceDecides(operation, ChildMarkers(operation, setup, events, survives, disabled), diagnostic, ending);
    ChildMarkersAre(operation, setup, events, survives, disabled, "F");
    ChildMarkersAre(operation, setup, events, survives, disabled, "FE");
    FailureAlone(Armed(operation), events);
    FailureThenFatal(Armed(operation), events);
  }

  /** The call with a given number of matching calls before it. */
  lemma {:induction false} NthMatch(target: Target, events: seq<Event>, n: int) returns (i: nat)
    requires 1 <= n <= Matching(target, events)
    ensures i < |events| && events[i].Alloc? && Matches(target, events[i].call)
      && Matching(target, events[..i]) == n - 1
  {
    var first := events[0].Alloc? && Matches(target, events[0].call);
    if first && n == 1 {
      i := 0;
    } else {
      var k := NthMatch(target, events[1..], if first then n - 1 else n);
      i := k + 1;
      assert events[..i][1..] == events[1..][..k];
    }
  }

  /** The `i`-th event is a call of the kind and from the caller that the operation fails: a reallocation of GLib for
      the growth of the array, an allocation of libc for the formatted renderer, an allocation of GLib for every
      other. */
  ghost predicate ChosenAt(operation: int, events: seq<Event>, i: nat) {
    && i < |events| && events[i].Alloc?
    && var call := events[i].call;
      if operation == 5 then call.kind == Realloc && call.caller == GRealloc
      else if operation == 9 then call.kind == Malloc && call.caller == InLibc
      else call.kind == Malloc && call.caller == GMalloc
  }

  lemma ChosenMatches(operation: int, events: seq<Event>, i: nat)
    requires i < |events|
    ensures ChosenAt(operation, events, i) <==>
      events[i].Alloc? && Matches(TargetOf(operation), events[i].call)
  {
  }

  ghost function ChosenBefore(operation: int, events: seq<Event>, i: nat): (chosen: set<nat>) {
    set k: nat | k < i && ChosenAt(operation, events, k)
  }

  lemma {:induction false} ChosenCounted(operation: int, events: seq<Event>, i: nat)
    requires i <= |events|
    ensures |ChosenBefore(operation, events, i)| == Matching(TargetOf(operation), events[..i])
    decreases i
  {
    hide ChosenAt, Matching, Matches, TargetOf;
    if i == 0 {
      assert ChosenBefore(operation, events, i) == {} && events[..i] == [];
      NoneMatching(TargetOf(operation));
    } else {
      ChosenCounted(operation, events, i - 1);
      assert events[..i] == events[..i - 1] + [events[i - 1]];
      MatchingConcat(TargetOf(operation), events[..i - 1], [events[i - 1]]);
      OneMatching(TargetOf(operation), events[i - 1]);
      ChosenMatches(operation, events, i - 1);
      assert ChosenBefore(operation, events, i)
          == ChosenBefore(operation, events, i - 1) + if ChosenAt(operation, events, i - 1) then {i - 1} else {};
    }
  }

  lemma NoneMatching(target: Target)
    ensures Matching(target, []) == 0
  {
  }

  lemma WhichFails(operation: int)
    ensures FailAt(operation) - 1 == if operation == 3 then 1 else if operation == 4 then 2 else 0
  {
  }

  lemma OneMatching(target: Target, e: Event)
    ensures Matching(target, [e]) == if e.Alloc? && Matches(target, e.call) then 1 else 0
  {
    assert [e][1..] == [];
  }

  /** The child's end: an abort with the renderer's own diagnostic, or a trap or abort. */
  lemma DiedIs(diagnostic: string, ending: Ending)
    ensures PrintfDied(diagnostic, ending) <==>
      Contains(diagnostic, "gprintf.c:") && Contains(diagnostic, ": failed to allocate memory\n")
          && ending == Signalled(6)
    ensures ErrorDied(ending) <==> ending == Signalled(5) || ending == Signalled(6)
  {
    hide Contains;
  }

  /** What an accepted run means, both ways: the build injects, the call never returned, the setup logged nothing
      fatal, and the call under test made enough chosen allocations before its one fatal message (for the formatted
      renderer, with no fatal message at all), and the child died as its operation must. */
  lemma AcceptedIff(operation: int, setup: seq<Event>, events: seq<Event>, survives: bool, disabled: bool,
                    diagnostic: string, ending: Ending)
    ensures var evidence := Evidence(ChildMarkers(operation, setup, events, survives, disabled));
      var until := if operation == 9 then |events| else |Quiet(events)|;
      Accepts(operation, evidence, diagnostic, ending) <==>
      && !disabled && !survives && Fatals(setup) == 0 && Fatals(events) == (if operation == 9 then 0 else 1)
      && |ChosenBefore(operation, events, until)| >= (if operation == 3 then 2 else if operation == 4 then 3 else 1)
      && if operation == 9 then
           && Contains(diagnostic, "gprintf.c:") && Contains(diagnostic, ": failed to allocate memory\n")
           && ending == Signalled(6)
         else ending == Signalled(5) || ending == Signalled(6)
  {
    hide Accepts, Evidence, ChildMarkers, Fatals, Matching, PrintfDied, ErrorDied, FailAt, TargetOf, Contains,
         ChosenBefore;
    VerdictIs(operation, setup, events, survives, disabled, diagnostic, ending);
    var until := if operation == 9 then |events| else |Quiet(events)|;
    ChosenCounted(operation, events, until);
    QuietStarts(events);
    assert events[..|events|] == events;
    WhichFails(operation);
    DiedIs(diagnostic, ending);
  }

  lemma QuietStarts(events: seq<Event>)
    ensures |Quiet(events)| <= |events| && Quiet(events) == events[..|Quiet(events)|]
      && (forall i :: 0 <= i < |Quiet(events)| ==> events[i].Alloc?)
      && (|Quiet(events)| < |events| ==> events[|Quiet(events)|].Fatal?)
  {
  }

  /** In every accepted run exactly one call fails, and it is the chosen one. Its one fatal message follows it; the
      formatted renderer, which aborts without the log, has no fatal message. */
  lemma AcceptedRun(operation: int, setup: seq<Event>, events: seq<Event>, survives: bool, disabled: bool,
                    diagnostic: string, ending: Ending)
    returns (i: nat)
    requires Accepts(operation, Evidence(ChildMarkers(operation, setup, events, survives, disabled)), diagnostic,
      ending)
    ensures i < |events| && FailsAt(Armed(operation), events, i, disabled)
    ensures Matching(TargetOf(operation), events[..i]) == FailAt(operation) - 1
    ensures forall k: nat :: k < |events| && k != i ==> !FailsAt(Armed(operation), events, k, disabled)
    ensures Fatals(setup) == 0 && Fatals(events) == if operation == 9 then 0 else 1
    ensures operation != 9 ==> exists j :: i < j < |events| && events[j].Fatal?
    ensures ChosenAt(operation, events, i)
    ensures |ChosenBefore(operation, events, i)| == if operation == 3 then 1 else if operation == 4 then 2 else 0
  {
    hide Accepts, Evidence, ChildMarkers, Matching, Markers, PrintfDied, ErrorDied, FailAt, TargetOf, FailsAt;
    VerdictIs(operation, setup, events, survives, disabled, diagnostic, ending);
    var s := Armed(operation);
    if operation == 9 {
      i := NthMatch(TargetOf(operation), events, FailAt(operation));
    } else {
      i := NthMatch(TargetOf(operation), Quiet(events), FailAt(operation));
      assert Quiet(events)[..i] == events[..i];
      assert events[|Quiet(events)|].Fatal?;
    }
    FailsExactly(s, events, i);
    ChosenMatches(operation, events, i);
    ChosenCounted(operation, events, i);
    WhichFails(operation);
    forall k: nat | k < |events| && k != i
      ensures !FailsAt(s, events, k, disabled)
    {
      if FailsAt(s, events, k, disabled) {
        if k < i { FailsAtMostOnce(s, events, k, i); } else { FailsAtMostOnce(s, events, i, k); }
      }
    }
  }
}
