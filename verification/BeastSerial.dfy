/** The adapter's two checks run one call at a time, in any mixture: the cycle bound, and what the saved cycle count
    means. */
module BeastSerial {
  import opened BeastMode
  import opened BeastAdapter
  import opened TumblingWindow

  /** A finished call, with its clock readings and its decision. */
  datatype Call =
    | CycleCall(mono: real, wall: real, decision: Decision)
    | QuotaCall(now: real, decision: Decision)

  /** The call run alone. */
  function Serve(c: Config, s: State, call: Call): (State, Decision) {
    match call
    case CycleCall(mono, wall, _) => LockedStep(c, s, mono, wall)
    case QuotaCall(now, _) => QuotaStep(c, s, now)
  }

  function SerialState(c: Config, s: State, calls: seq<Call>): State
    decreases |calls|
  {
    if calls == [] then s else SerialState(c, Serve(c, s, calls[0]).0, calls[1..])
  }

  /** Every call got the decision it would get were the calls run one at a time in this order. */
  predicate SerialDecisions(c: Config, s: State, calls: seq<Call>)
    decreases |calls|
  {
    calls == []
    || (var (s', d) := Serve(c, s, calls[0]);
        calls[0].decision == d && SerialDecisions(c, s', calls[1..]))
  }

  lemma {:induction false} SerialAppend(c: Config, s: State, calls: seq<Call>, x: Call)
    ensures SerialState(c, s, calls + [x]) == Serve(c, SerialState(c, s, calls), x).0
    ensures SerialDecisions(c, s, calls + [x]) <==>
            SerialDecisions(c, s, calls) && x.decision == Serve(c, SerialState(c, s, calls), x).1
    decreases |calls|
  {
    var all := calls + [x];
    if calls == [] {
      assert all[1..] == [];
    } else {
      assert all[1..] == calls[1..] + [x];
      SerialAppend(c, Serve(c, s, calls[0]).0, calls[1..], x);
    }
  }

  // The cycle bound.

  /** The monotonic readings of the cycle checks start at `least` and never go back. */
  ghost predicate CyclesOrdered(calls: seq<Call>, least: real) {
    && (forall i | 0 <= i < |calls| && calls[i].CycleCall? :: least <= calls[i].mono)
    && (forall i, j | 0 <= i < j < |calls| && calls[i].CycleCall? && calls[j].CycleCall? ::
          calls[i].mono <= calls[j].mono)
  }

  predicate AdmittedCycle(call: Call) {
    call.CycleCall? && call.decision == Admitted
  }

  /** The cycles admitted at a monotonic reading in the closed interval [lo, hi]. */
  function CyclesAdmitted(calls: seq<Call>, lo: real, hi: real): nat {
    if calls == [] then 0
    else
      (if AdmittedCycle(calls[0]) && lo <= calls[0].mono <= hi then 1 else 0) + CyclesAdmitted(calls[1..], lo, hi)
  }

  function CycleViewMono(s: State): Window { Window(Get(s, CycleStartMono), Get(s, CycleCount)) }

  /** The visits to the monotonic cycle window; quota checks never reach it. */
  function VisitsMono(c: Config, s: State, calls: seq<Call>): seq<Visit>
    decreases |calls|
  {
    if calls == [] then []
    else
      var rest := VisitsMono(c, Serve(c, s, calls[0]).0, calls[1..]);
      match calls[0]
      case CycleCall(mono, _, _) => [if CoolingMono(s, mono) then Bypass(mono) else Request(mono)] + rest
      case QuotaCall(_, _) => rest
  }

  lemma {:induction false} VisitsAreClocked(c: Config, s: State, calls: seq<Call>, least: real)
    requires CyclesOrdered(calls, least) && least > 0.0
    ensures var vs := VisitsMono(c, s, calls);
      TumblingWindow.Clocked(vs) && forall i | 0 <= i < |vs| :: least <= vs[i].now
    decreases |calls|
  {
    if calls != [] {
      var s' := Serve(c, s, calls[0]).0;
      VisitsAreClocked(c, s', calls[1..], if calls[0].CycleCall? then calls[0].mono else least);
    }
  }

  /** One locked check on a migrated record is one visit to the monotonic window. */
  lemma LockedStepIsVisit(c: Config, s: State, mono: real, wall: real)
    requires Migrated(s)
    ensures var v := if CoolingMono(s, mono) then Bypass(mono) else Request(mono);
      var (s', d) := LockedStep(c, s, mono, wall);
      && Migrated(s')
      && CycleViewMono(s') == TumblingWindow.Step(CycleRule(c), CycleViewMono(s), v)
      && (d == Admitted <==> Admits(CycleRule(c), CycleViewMono(s), v))
  {
  }

  /** The quota check leaves everything that the cycle window needs alone. */
  lemma QuotaStepKeepsCycles(c: Config, s: State, now: real)
    ensures var s' := QuotaStep(c, s, now).0;
      && CycleViewMono(s') == CycleViewMono(s) && (Migrated(s) ==> Migrated(s'))
      && Get(s', CycleCount) == Get(s, CycleCount)
      && forall k | k !in {MutationStart, MutationCount, CooldownUntil} ::
           (k in s' <==> k in s) && (k in s ==> s'[k] == s[k])
  {
  }

  lemma {:induction false} SerialIsWindowRun(c: Config, s: State, calls: seq<Call>, lo: real, hi: real)
    requires Migrated(s) && SerialDecisions(c, s, calls)
    ensures CyclesAdmitted(calls, lo, hi) == AdmittedIn(CycleRule(c), CycleViewMono(s), VisitsMono(c, s, calls), lo, hi)
    decreases |calls|
  {
    if calls != [] {
      var s' := Serve(c, s, calls[0]).0;
      match calls[0]
      case CycleCall(mono, wall, _) =>
        LockedStepIsVisit(c, s, mono, wall);
        SerialIsWindowRun(c, s', calls[1..], lo, hi);
        assert VisitsMono(c, s, calls)[1..] == VisitsMono(c, s', calls[1..]);
      case QuotaCall(now, _) =>
        QuotaStepKeepsCycles(c, s, now);
        SerialIsWindowRun(c, s', calls[1..], lo, hi);
    }
  }

  lemma MigrateFirst(c: Config, s: State, calls: seq<Call>)
    requires calls != [] && calls[0].CycleCall? && SerialDecisions(c, s, calls)
    ensures SerialDecisions(c, Migrate(s, calls[0].mono, calls[0].wall), calls)
  {
  }

  /** Of calls run one at a time, an interval of the monotonic clock no longer than `n` cycle windows admits at most
      `n + 1` budgets, from a record that may still need migration. */
  lemma {:induction false} SerialCycleBound(
    c: Config, s: State, calls: seq<Call>, least: real, lo: real, hi: real, n: nat)
    requires c.cycleBudget >= 1 && c.cycleWindow > 0 && Get(s, CycleCount) >= 0.0
    requires SerialDecisions(c, s, calls) && hi - lo <= n as real * c.cycleWindow as real
    requires CyclesOrdered(calls, least) && least > 0.0
    ensures CyclesAdmitted(calls, lo, hi) <= (n + 1) * c.cycleBudget
    decreases |calls|
  {
    if calls == [] {
      assert (n + 1) * c.cycleBudget >= 0;
    } else if calls[0].QuotaCall? {
      QuotaStepKeepsCycles(c, s, calls[0].now);
      SerialCycleBound(c, Serve(c, s, calls[0]).0, calls[1..], least, lo, hi, n);
    } else {
      MigrateFirst(c, s, calls);
      MigratedCycleBound(c, Migrate(s, calls[0].mono, calls[0].wall), calls, least, lo, hi, n);
    }
  }

  lemma MigratedCycleBound(c: Config, m: State, calls: seq<Call>, least: real, lo: real, hi: real, n: nat)
    requires c.cycleBudget >= 1 && c.cycleWindow > 0 && Get(m, CycleCount) >= 0.0 && Migrated(m)
    requires SerialDecisions(c, m, calls) && hi - lo <= n as real * c.cycleWindow as real
    requires CyclesOrdered(calls, least) && least > 0.0
    ensures CyclesAdmitted(calls, lo, hi) <= (n + 1) * c.cycleBudget
  {
    SerialIsWindowRun(c, m, calls, lo, hi);
    VisitsAreClocked(c, m, calls, least);
    IntervalBound(CycleRule(c), CycleViewMono(m), VisitsMono(c, m, calls), lo, hi, n);
  }

  // What the saved count means, window by window.

  /** The locked check finds the monotonic cycle window of the record unset or expired, and opens a new one. */
  predicate OpensWindow(c: Config, s: State, mono: real, wall: real) {
    var m := Migrate(s, mono, wall);
    && !CoolingMono(m, mono)
    && (Get(m, CycleStartMono) <= 0.0 || mono - Get(m, CycleStartMono) >= c.cycleWindow as real)
  }

  predicate OpensAt(c: Config, s: State, calls: seq<Call>, k: nat) {
    k < |calls| && calls[k].CycleCall?
    && OpensWindow(c, SerialState(c, s, calls[..k]), calls[k].mono, calls[k].wall)
  }

  function CyclesCounted(calls: seq<Call>): nat {
    if calls == [] then 0
    else CyclesCounted(calls[..|calls| - 1]) + if AdmittedCycle(calls[|calls| - 1]) then 1 else 0
  }

  lemma CallCounts(c: Config, s: State, call: Call)
    requires call.decision == Serve(c, s, call).1
    ensures var opens := call.CycleCall? && OpensWindow(c, s, call.mono, call.wall);
      Get(Serve(c, s, call).0, CycleCount) ==
      (if opens then 0.0 else Get(s, CycleCount)) + if AdmittedCycle(call) then 1.0 else 0.0
  {
    match call
    case CycleCall(mono, wall, _) => assert Get(Migrate(s, mono, wall), CycleCount) == Get(s, CycleCount);
    case QuotaCall(now, _) => QuotaStepKeepsCycles(c, s, now);
  }

  lemma LastCall(c: Config, s: State, calls: seq<Call>)
    requires calls != [] && SerialDecisions(c, s, calls)
    ensures var front, last := calls[..|calls| - 1], calls[|calls| - 1];
      && SerialDecisions(c, s, front)
      && SerialState(c, s, calls) == Serve(c, SerialState(c, s, front), last).0
      && last.decision == Serve(c, SerialState(c, s, front), last).1
  {
    assert calls == calls[..|calls| - 1] + [calls[|calls| - 1]];
    SerialAppend(c, s, calls[..|calls| - 1], calls[|calls| - 1]);
  }

  lemma LastCounts(c: Config, s: State, calls: seq<Call>)
    requires calls != [] && SerialDecisions(c, s, calls)
    ensures var n := |calls| - 1;
      && SerialDecisions(c, s, calls[..n])
      && Get(SerialState(c, s, calls), CycleCount) ==
         (if OpensAt(c, s, calls, n) then 0.0 else Get(SerialState(c, s, calls[..n]), CycleCount))
         + if AdmittedCycle(calls[n]) then 1.0 else 0.0
  {
    LastCall(c, s, calls);
    CallCounts(c, SerialState(c, s, calls[..|calls| - 1]), calls[|calls| - 1]);
  }

  lemma OpensInPrefix(c: Config, s: State, calls: seq<Call>, j: nat, i: nat)
    requires i < j <= |calls|
    ensures OpensAt(c, s, calls[..j], i) <==> OpensAt(c, s, calls, i)
  {
    assert calls[..j][..i] == calls[..i];
  }

  /** The saved count is the number of cycles admitted since the window was opened, by call `k`. */
  lemma {:induction false} CountSinceOpening(c: Config, s: State, calls: seq<Call>, k: nat)
    requires SerialDecisions(c, s, calls) && OpensAt(c, s, calls, k)
    requires forall j: nat | k < j < |calls| :: !OpensAt(c, s, calls, j)
    ensures Get(SerialState(c, s, calls), CycleCount) == CyclesCounted(calls[k..]) as real
    decreases |calls|
  {
    var n := |calls| - 1;
    var front := calls[..n];
    LastCounts(c, s, calls);
    CountedSnoc(calls, k);
    if k < n {
      OpensInPrefix(c, s, calls, n, k);
      forall j: nat | k < j < n ensures !OpensAt(c, s, front, j) {
        OpensInPrefix(c, s, calls, n, j);
      }
      CountSinceOpening(c, s, front, k);
      assert !OpensAt(c, s, calls, n);
    }
  }

  lemma CountedSnoc(calls: seq<Call>, k: nat)
    requires k < |calls|
    ensures CyclesCounted(calls[k..]) ==
            (if k == |calls| - 1 then 0 else CyclesCounted(calls[..|calls| - 1][k..]))
            + if AdmittedCycle(calls[|calls| - 1]) then 1 else 0
  {
    var n := |calls| - 1;
    assert calls[k..][..n - k] == calls[..n][k..] && calls[k..][n - k] == calls[n];
  }

  /** If no call opens a window, the count grows from where it started. */
  lemma {:induction false} CountSinceStart(c: Config, s: State, calls: seq<Call>)
    requires SerialDecisions(c, s, calls) && forall j: nat | j < |calls| :: !OpensAt(c, s, calls, j)
    ensures Get(SerialState(c, s, calls), CycleCount) == Get(s, CycleCount) + CyclesCounted(calls) as real
    decreases |calls|
  {
    if calls != [] {
      var n := |calls| - 1;
      var front := calls[..n];
      LastCounts(c, s, calls);
      assert !OpensAt(c, s, calls, n);
      forall j: nat | j < n ensures !OpensAt(c, s, front, j) {
        OpensInPrefix(c, s, calls, n, j);
      }
      CountSinceStart(c, s, front);
    }
  }

  predicate Whole(x: real) {
    x.Floor as real == x
  }

  lemma WholeNext(x: real, budget: int)
    requires Whole(x) && x < budget as real
    ensures Whole(x + 1.0) && x + 1.0 <= budget as real
  {
    WholeIsWhole(x.Floor + 1);
    NextFits(x.Floor, budget);
  }

  lemma WholeIsWhole(n: int)
    ensures Whole(n as real)
  {
  }

  lemma NextFits(n: int, budget: int)
    requires n as real < budget as real
    ensures (n + 1) as real <= budget as real
  {
    assert n < budget;
  }

  lemma AdmittedBelowBudget(c: Config, s: State, mono: real, wall: real)
    requires c.cycleBudget >= 1 && LockedStep(c, s, mono, wall).1 == Admitted
    ensures (if OpensWindow(c, s, mono, wall) then 0.0 else Get(s, CycleCount)) < c.cycleBudget as real
  {
    assert Get(Migrate(s, mono, wall), CycleCount) == Get(s, CycleCount);
  }

  lemma CallStaysInBudget(c: Config, s: State, call: Call)
    requires c.cycleBudget >= 1 && Whole(Get(s, CycleCount)) && Get(s, CycleCount) <= c.cycleBudget as real
    requires call.decision == Serve(c, s, call).1
    ensures Whole(Get(Serve(c, s, call).0, CycleCount)) && Get(Serve(c, s, call).0, CycleCount) <= c.cycleBudget as real
  {
    CallCounts(c, s, call);
    if AdmittedCycle(call) {
      AdmittedBelowBudget(c, s, call.mono, call.wall);
      var x := if OpensWindow(c, s, call.mono, call.wall) then 0.0 else Get(s, CycleCount);
      WholeNext(x, c.cycleBudget);
    }
  }

  /** A whole count within the budget stays within it. */
  lemma {:induction false} CountStaysInBudget(c: Config, s: State, calls: seq<Call>)
    requires c.cycleBudget >= 1 && SerialDecisions(c, s, calls)
    requires Whole(Get(s, CycleCount)) && Get(s, CycleCount) <= c.cycleBudget as real
    ensures var count := Get(SerialState(c, s, calls), CycleCount); Whole(count) && count <= c.cycleBudget as real
    decreases |calls|
  {
    if calls != [] {
      LastCall(c, s, calls);
      CountStaysInBudget(c, s, calls[..|calls| - 1]);
      CallStaysInBudget(c, SerialState(c, s, calls[..|calls| - 1]), calls[|calls| - 1]);
    }
  }

  lemma OpeningStaysInBudget(c: Config, s: State, call: Call)
    requires c.cycleBudget >= 1 && call.CycleCall? && OpensWindow(c, s, call.mono, call.wall)
    requires call.decision == Serve(c, s, call).1
    ensures Whole(Get(Serve(c, s, call).0, CycleCount)) && Get(Serve(c, s, call).0, CycleCount) <= c.cycleBudget as real
  {
    CallCounts(c, s, call);
  }

  /** From the call that opens a window on, the count stays within the budget, wherever it was before. */
  lemma {:induction false} WindowStaysInBudget(c: Config, s: State, calls: seq<Call>, k: nat)
    requires c.cycleBudget >= 1 && SerialDecisions(c, s, calls) && OpensAt(c, s, calls, k)
    ensures var count := Get(SerialState(c, s, calls), CycleCount); Whole(count) && count <= c.cycleBudget as real
    decreases |calls|
  {
    var n := |calls| - 1;
    LastCall(c, s, calls);
    var before := SerialState(c, s, calls[..n]);
    if k == n {
      OpeningStaysInBudget(c, before, calls[n]);
    } else {
      assert calls[..n][..k] == calls[..k];
      WindowStaysInBudget(c, s, calls[..n], k);
      CallStaysInBudget(c, before, calls[n]);
    }
  }

  lemma {:induction false} SerialPrefix(c: Config, s: State, calls: seq<Call>, j: nat)
    requires SerialDecisions(c, s, calls) && j <= |calls|
    ensures SerialDecisions(c, s, calls[..j])
    decreases |calls|
  {
    if j < |calls| {
      LastCall(c, s, calls);
      SerialPrefix(c, s, calls[..|calls| - 1], j);
      assert calls[..|calls| - 1][..j] == calls[..j];
    } else {
      assert calls[..j] == calls;
    }
  }

  /** No monotonic window admits more cycles than the budget: from the call `k` that opens one, as long as no later
      call opens the next. */
  lemma NoWindowExceedsBudget(c: Config, s: State, calls: seq<Call>, k: nat, j: nat)
    requires c.cycleBudget >= 1 && SerialDecisions(c, s, calls) && OpensAt(c, s, calls, k) && k < j <= |calls|
    requires forall i: nat | k < i < j :: !OpensAt(c, s, calls, i)
    ensures CyclesCounted(calls[k..j]) <= c.cycleBudget
  {
    var front := calls[..j];
    SerialPrefix(c, s, calls, j);
    OpensInPrefix(c, s, calls, j, k);
    forall i: nat | k < i < j ensures !OpensAt(c, s, front, i) {
      OpensInPrefix(c, s, calls, j, i);
    }
    CountSinceOpening(c, s, front, k);
    WindowStaysInBudget(c, s, front, k);
    assert front[k..] == calls[k..j];
  }
}
