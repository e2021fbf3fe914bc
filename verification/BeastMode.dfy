/** The beast-mode rate limiter of `app/beast_mode_loop.py`: cycle budget, mutation quota
    and cooldown, kept in one persisted record of numbers. */
module BeastMode {
  import opened TumblingWindow

  datatype Key =
    | CycleStart | CycleCount | MutationStart | MutationCount | CooldownUntil
    | CycleStartMono | MutationStartMono | CooldownUntilMono

  /** The persisted record; a missing key reads as zero. */
  type State = map<Key, real>

  function Get(s: State, k: Key): real {
    if k in s then s[k] else 0.0
  }

  const DEFAULT_STATE: State :=
    map[CycleStart := 0.0, CycleCount := 0.0, MutationStart := 0.0, MutationCount := 0.0, CooldownUntil := 0.0]

  datatype Config = Config(
    cycleBudget: int, cycleWindow: int, mutationQuota: int, mutationWindow: int, cooldown: int)

  datatype Reason = CoolingDown | CycleBudgetSpent | MutationQuotaSpent

  datatype Decision = Admitted | Throttled(reason: Reason)

  function RefreshWindow(s: State, start: Key, count: Key, width: int, now: real): State {
    if Get(s, start) <= 0.0 || now - Get(s, start) >= width as real
    then s[start := now][count := 0.0]
    else s
  }

  function LimitsStep(c: Config, s: State, now: real): (State, Decision) {
    if Get(s, CooldownUntil) != 0.0 && now < Get(s, CooldownUntil) then
      (s, Throttled(CoolingDown))
    else
      var s1 := RefreshWindow(s, CycleStart, CycleCount, c.cycleWindow, now);
      var s2 := RefreshWindow(s1, MutationStart, MutationCount, c.mutationWindow, now);
      if c.cycleBudget > 0 && Get(s2, CycleCount) >= c.cycleBudget as real then
        (s2[CooldownUntil := now + c.cooldown as real], Throttled(CycleBudgetSpent))
      else
        (s2[CycleCount := Get(s2, CycleCount) + 1.0], Admitted)
  }

  function QuotaStep(c: Config, s: State, now: real): (State, Decision) {
    var s1 := RefreshWindow(s, MutationStart, MutationCount, c.mutationWindow, now);
    if c.mutationQuota > 0 && Get(s1, MutationCount) >= c.mutationQuota as real then
      (s1[CooldownUntil := now + c.cooldown as real], Throttled(MutationQuotaSpent))
    else
      (s1[MutationCount := Get(s1, MutationCount) + 1.0], Admitted)
  }

  class BeastModeLoop {
    const config: Config
    var stored: State

    constructor (config: Config, stored: State)
      ensures this.config == config && this.stored == stored
    {
      this.config := config;
      this.stored := stored;
    }

    /** Records the cooldown and saves the caller's working copy. */
    method Throttle(reason: Reason, cooldownUntil: real, state: State) returns (d: Decision)
      modifies this
      ensures stored == state[CooldownUntil := cooldownUntil] && d == Throttled(reason)
    {
      var s := state[CooldownUntil := cooldownUntil];
      stored := s;
      return Throttled(reason);
    }

    method CheckLimits(now: real) returns (d: Decision)
      modifies this
      ensures (stored, d) == LimitsStep(config, old(stored), now)
    {
      var state := stored;
      var cooldownUntil := Get(state, CooldownUntil);
      if cooldownUntil != 0.0 && now < cooldownUntil {
        d := Throttle(CoolingDown, cooldownUntil, state);
        assert stored == old(stored);
        return;
      }
      state := RefreshWindow(state, CycleStart, CycleCount, config.cycleWindow, now);
      state := RefreshWindow(state, MutationStart, MutationCount, config.mutationWindow, now);
      if config.cycleBudget > 0 && Get(state, CycleCount) >= config.cycleBudget as real {
        d := Throttle(CycleBudgetSpent, now + config.cooldown as real, state);
        return;
      }
      state := state[CycleCount := Get(state, CycleCount) + 1.0];
      stored := state;
      d := Admitted;
    }

    method CheckMutationQuota(now: real) returns (d: Decision)
      modifies this
      ensures (stored, d) == QuotaStep(config, old(stored), now)
    {
      var state := RefreshWindow(stored, MutationStart, MutationCount, config.mutationWindow, now);
      if config.mutationQuota > 0 && Get(state, MutationCount) >= config.mutationQuota as real {
        d := Throttle(MutationQuotaSpent, now + config.cooldown as real, state);
        return;
      }
      state := state[MutationCount := Get(state, MutationCount) + 1.0];
      stored := state;
      d := Admitted;
    }
  }

  // Runs: any sequence of the two checks against one stored record.

  datatype Op = Cycle(now: real) | Mutation(now: real)

  function Step(c: Config, s: State, op: Op): (State, Decision) {
    match op
    case Cycle(now) => LimitsStep(c, s, now)
    case Mutation(now) => QuotaStep(c, s, now)
  }

  function StateAfter(c: Config, s: State, ops: seq<Op>): State
    decreases |ops|
  {
    if ops == [] then s else StateAfter(c, Step(c, s, ops[0]).0, ops[1..])
  }

  /** The decision given to the `i`-th call of a run. */
  function DecisionAt(c: Config, s: State, ops: seq<Op>, i: nat): Decision
    requires i < |ops|
    decreases i
  {
    if i == 0 then Step(c, s, ops[0]).1 else DecisionAt(c, Step(c, s, ops[0]).0, ops[1..], i - 1)
  }

  ghost predicate Clocked(ops: seq<Op>) {
    && (forall i | 0 <= i < |ops| :: ops[i].now > 0.0)
    && (forall i, j | 0 <= i < j < |ops| :: ops[i].now <= ops[j].now)
  }

  /** The cycles (or mutations) admitted at a clock reading in the closed interval [lo, hi]. */
  function CyclesIn(c: Config, s: State, ops: seq<Op>, lo: real, hi: real): nat
    decreases |ops|
  {
    if ops == [] then 0
    else
      (if ops[0].Cycle? && Step(c, s, ops[0]).1 == Admitted && lo <= ops[0].now <= hi then 1 else 0)
      + CyclesIn(c, Step(c, s, ops[0]).0, ops[1..], lo, hi)
  }

  function MutationsIn(c: Config, s: State, ops: seq<Op>, lo: real, hi: real): nat
    decreases |ops|
  {
    if ops == [] then 0
    else
      (if ops[0].Mutation? && Step(c, s, ops[0]).1 == Admitted && lo <= ops[0].now <= hi then 1 else 0)
      + MutationsIn(c, Step(c, s, ops[0]).0, ops[1..], lo, hi)
  }

  // Each run of the limiter is a run of the cycle window and a run of the mutation window.

  function CycleView(s: State): Window { Window(Get(s, CycleStart), Get(s, CycleCount)) }

  function MutationView(s: State): Window { Window(Get(s, MutationStart), Get(s, MutationCount)) }

  function CycleRule(c: Config): Rule { Rule(c.cycleBudget, c.cycleWindow as real) }

  function MutationRule(c: Config): Rule { Rule(c.mutationQuota, c.mutationWindow as real) }

  predicate Cooling(s: State, now: real) {
    Get(s, CooldownUntil) != 0.0 && now < Get(s, CooldownUntil)
  }

  function CycleVisit(s: State, op: Op): Visit {
    if op.Mutation? || Cooling(s, op.now) then Bypass(op.now) else Request(op.now)
  }

  function MutationVisit(s: State, op: Op): Visit {
    if op.Mutation? then Request(op.now) else if Cooling(s, op.now) then Bypass(op.now) else Touch(op.now)
  }

  function CycleVisits(c: Config, s: State, ops: seq<Op>): (vs: seq<Visit>)
    ensures |vs| == |ops| && forall i | 0 <= i < |ops| :: vs[i].now == ops[i].now
    decreases |ops|
  {
    if ops == [] then [] else [CycleVisit(s, ops[0])] + CycleVisits(c, Step(c, s, ops[0]).0, ops[1..])
  }

  function MutationVisits(c: Config, s: State, ops: seq<Op>): (vs: seq<Visit>)
    ensures |vs| == |ops| && forall i | 0 <= i < |ops| :: vs[i].now == ops[i].now
    decreases |ops|
  {
    if ops == [] then [] else [MutationVisit(s, ops[0])] + MutationVisits(c, Step(c, s, ops[0]).0, ops[1..])
  }

  lemma StepIsWindowStep(c: Config, s: State, op: Op)
    ensures var s' := Step(c, s, op).0;
      && CycleView(s') == TumblingWindow.Step(CycleRule(c), CycleView(s), CycleVisit(s, op))
      && MutationView(s') == TumblingWindow.Step(MutationRule(c), MutationView(s), MutationVisit(s, op))
      && (op.Cycle? && Step(c, s, op).1 == Admitted <==> Admits(CycleRule(c), CycleView(s), CycleVisit(s, op)))
      && (op.Mutation? && Step(c, s, op).1 == Admitted <==>
            Admits(MutationRule(c), MutationView(s), MutationVisit(s, op)))
  {
  }

  lemma {:induction false} RunIsWindowRun(c: Config, s: State, ops: seq<Op>, lo: real, hi: real)
    ensures CyclesIn(c, s, ops, lo, hi)
         == AdmittedIn(CycleRule(c), CycleView(s), CycleVisits(c, s, ops), lo, hi)
    ensures MutationsIn(c, s, ops, lo, hi)
         == AdmittedIn(MutationRule(c), MutationView(s), MutationVisits(c, s, ops), lo, hi)
    decreases |ops|
  {
    if ops != [] {
      StepIsWindowStep(c, s, ops[0]);
      RunIsWindowRun(c, Step(c, s, ops[0]).0, ops[1..], lo, hi);
    }
  }

  /** Over any run, an interval no longer than `n` cycle windows admits at most `n + 1` budgets. */
  lemma CycleBound(c: Config, s: State, ops: seq<Op>, lo: real, hi: real, n: nat)
    requires c.cycleBudget >= 1 && c.cycleWindow > 0 && Clocked(ops)
    requires Get(s, CycleCount) >= 0.0
    requires hi - lo <= n as real * c.cycleWindow as real
    ensures CyclesIn(c, s, ops, lo, hi) <= (n + 1) * c.cycleBudget
  {
    RunIsWindowRun(c, s, ops, lo, hi);
    IntervalBound(CycleRule(c), CycleView(s), CycleVisits(c, s, ops), lo, hi, n);
  }

  /** Over any run, an interval no longer than `n` mutation windows admits at most `n + 1` quotas;
      one window admits at most twice the quota. */
  lemma MutationBound(c: Config, s: State, ops: seq<Op>, lo: real, hi: real, n: nat)
    requires c.mutationQuota >= 1 && c.mutationWindow > 0 && Clocked(ops)
    requires Get(s, MutationCount) >= 0.0
    requires hi - lo <= n as real * c.mutationWindow as real
    ensures MutationsIn(c, s, ops, lo, hi) <= (n + 1) * c.mutationQuota
    ensures n == 1 ==> MutationsIn(c, s, ops, lo, hi) <= 2 * c.mutationQuota
  {
    RunIsWindowRun(c, s, ops, lo, hi);
    IntervalBound(MutationRule(c), MutationView(s), MutationVisits(c, s, ops), lo, hi, n);
  }

  lemma {:induction false} CooldownHolds(c: Config, s: State, ops: seq<Op>, until: real, i: nat)
    requires Clocked(ops) && i < |ops|
    requires Get(s, CooldownUntil) >= until && until != 0.0
    requires forall k | 0 <= k < |ops| :: ops[k].now + c.cooldown as real >= until
    requires ops[i].Cycle? && ops[i].now < until
    ensures DecisionAt(c, s, ops, i) == Throttled(CoolingDown)
    decreases i
  {
    if i > 0 {
      CooldownHolds(c, Step(c, s, ops[0]).0, ops[1..], until, i - 1);
    }
  }

  /** After a budget or quota throttle at time T, every cycle asked for before T + cooldown is refused. */
  lemma {:induction false} NoCycleDuringCooldown(c: Config, s: State, ops: seq<Op>, i: nat, j: nat)
    requires Clocked(ops) && i < j < |ops|
    requires DecisionAt(c, s, ops, i).Throttled? && DecisionAt(c, s, ops, i).reason != CoolingDown
    requires ops[j].Cycle? && ops[j].now < ops[i].now + c.cooldown as real
    ensures DecisionAt(c, s, ops, j) == Throttled(CoolingDown)
    decreases i
  {
    var s' := Step(c, s, ops[0]).0;
    if i > 0 {
      NoCycleDuringCooldown(c, s', ops[1..], i - 1, j - 1);
    } else {
      CooldownHolds(c, s', ops[1..], ops[0].now + c.cooldown as real, j - 1);
    }
  }

  // And only then.

  predicate Throttles(d: Decision) { d.Throttled? && d.reason != CoolingDown }

  predicate Covers(c: Config, s: State, ops: seq<Op>, i: nat, now: real)
    requires i < |ops|
  {
    Throttles(DecisionAt(c, s, ops, i)) && now < ops[i].now + c.cooldown as real
  }

  lemma {:induction false} CooledBefore(c: Config, s: State, ops: seq<Op>, j: nat)
    requires j < |ops| && ops[j].Cycle? && DecisionAt(c, s, ops, j) == Throttled(CoolingDown)
    ensures Cooling(s, ops[j].now) || exists i: nat :: i < j && Covers(c, s, ops, i, ops[j].now)
    decreases j
  {
    if j > 0 {
      var s' := Step(c, s, ops[0]).0;
      CooledBefore(c, s', ops[1..], j - 1);
      if Cooling(s', ops[j].now) {
        assert Cooling(s, ops[j].now) || Covers(c, s, ops, 0, ops[j].now);
      } else {
        var i: nat :| i < j - 1 && Covers(c, s', ops[1..], i, ops[j].now);
        assert Covers(c, s, ops, i + 1, ops[j].now);
      }
    }
  }

  /** From a record that is not cooling, a cycle is refused as cooling if and only if an earlier budget or quota
      throttle covers it. */
  lemma CoolingIff(c: Config, s: State, ops: seq<Op>, j: nat)
    requires Clocked(ops) && j < |ops| && ops[j].Cycle? && Get(s, CooldownUntil) == 0.0
    ensures DecisionAt(c, s, ops, j) == Throttled(CoolingDown) <==>
            exists i: nat :: i < j && Covers(c, s, ops, i, ops[j].now)
  {
    if DecisionAt(c, s, ops, j) == Throttled(CoolingDown) {
      CooledBefore(c, s, ops, j);
    }
    if i: nat :| i < j && Covers(c, s, ops, i, ops[j].now) {
      NoCycleDuringCooldown(c, s, ops, i, j);
    }
  }
}
