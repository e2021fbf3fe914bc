/** The adapter's decisions from the log alone: every call is decided by the calls before it. */
module BeastHistory {
  import opened BeastMode
  import opened BeastAdapter
  import opened BeastSerial
  import opened BeastInterleaving
  import opened Wrappers

  // The cooldown after a budget throttle.

  predicate BudgetThrottle(call: Call) {
    call.CycleCall? && call.decision == Throttled(CycleBudgetSpent)
  }

  predicate Refused(call: Call) {
    call.CycleCall? && call.decision == Throttled(CoolingDown)
  }

  /** The `i`-th call is a budget throttle whose cooldown covers the reading. */
  predicate CoversAt(c: Config, calls: seq<Call>, i: nat, mono: real)
    requires i < |calls|
  {
    BudgetThrottle(calls[i]) && mono < calls[i].mono + c.cooldown as real
  }

  ghost predicate Covered(c: Config, calls: seq<Call>, mono: real) {
    exists i: nat :: i < |calls| && CoversAt(c, calls, i, mono)
  }

  /** Every reading of a clock is positive. */
  predicate Positive(calls: seq<Call>) {
    forall i | 0 <= i < |calls| :: if calls[i].CycleCall? then calls[i].mono > 0.0 else calls[i].now > 0.0
  }

  /** The monotonic cooldown of `s`, as a check at `mono` sees it. */
  predicate Cools(s: State, mono: real) {
    CooldownUntilMono in s && s[CooldownUntilMono] != 0.0 && mono < s[CooldownUntilMono]
  }

  lemma CallCools(c: Config, s: State, call: Call, mono: real)
    requires Migrated(s) && c.cooldown >= 0 && mono > 0.0
    requires call.CycleCall? ==> call.mono > 0.0
    requires call.decision == Serve(c, s, call).1
    ensures var s' := Serve(c, s, call).0;
      && Migrated(s') && (Refused(call) <==> call.CycleCall? && Cools(s, call.mono))
      && (Cools(s', mono) <==>
            Cools(s, mono) || (BudgetThrottle(call) && mono < call.mono + c.cooldown as real))
  {
    if call.QuotaCall? {
      QuotaStepKeepsCycles(c, s, call.now);
    }
  }

  lemma CoveredOneMore(c: Config, front: seq<Call>, last: Call, mono: real)
    ensures Covered(c, front + [last], mono) <==>
            Covered(c, front, mono) || (BudgetThrottle(last) && mono < last.mono + c.cooldown as real)
  {
    var calls := front + [last];
    forall i: nat | i < |front| ensures CoversAt(c, calls, i, mono) == CoversAt(c, front, i, mono) {
    }
    assert CoversAt(c, calls, |front|, mono) <==> BudgetThrottle(last) && mono < last.mono + c.cooldown as real;
    if Covered(c, front, mono) {
      var i: nat :| i < |front| && CoversAt(c, front, i, mono);
      assert CoversAt(c, calls, i, mono);
    }
    if Covered(c, calls, mono) {
      var i: nat :| i < |calls| && CoversAt(c, calls, i, mono);
      assert i < |front| ==> CoversAt(c, front, i, mono);
    }
  }

  lemma {:induction false} CoolsFromLog(c: Config, s: State, calls: seq<Call>, mono: real)
    requires Migrated(s) && c.cooldown >= 0 && mono > 0.0 && Positive(calls) && SerialDecisions(c, s, calls)
    ensures Migrated(SerialState(c, s, calls))
    ensures Cools(SerialState(c, s, calls), mono) <==> Cools(s, mono) || Covered(c, calls, mono)
    decreases |calls|
  {
    if calls != [] {
      var front, last := calls[..|calls| - 1], calls[|calls| - 1];
      LastCall(c, s, calls);
      CoolsFromLog(c, s, front, mono);
      CallCools(c, SerialState(c, s, front), last, mono);
      assert calls == front + [last];
      CoveredOneMore(c, front, last, mono);
    }
  }

  /** For calls run one at a time from a migrated record: a cycle check is refused as cooling if and only if an earlier
      budget throttle covers its reading, or the cooldown of the record at the start does.  Nothing in between, cycle
      or quota call, changes that. */
  lemma CoolingIff(c: Config, s: State, calls: seq<Call>, j: nat)
    requires Migrated(s) && c.cooldown >= 0 && Positive(calls) && SerialDecisions(c, s, calls)
    requires j < |calls| && calls[j].CycleCall?
    ensures calls[j].decision == Throttled(CoolingDown) <==>
            || Cools(s, calls[j].mono)
            || exists i: nat :: i < j && CoversAt(c, calls, i, calls[j].mono)
  {
    var upto := calls[..j + 1];
    SerialPrefix(c, s, calls, j + 1);
    LastCall(c, s, upto);
    assert upto[..j] == calls[..j] && upto[j] == calls[j];
    CoolsFromLog(c, s, calls[..j], calls[j].mono);
    CallCools(c, SerialState(c, s, calls[..j]), calls[j], calls[j].mono);
    CoveredBefore(c, calls, j, calls[j].mono);
  }

  lemma CoveredBefore(c: Config, calls: seq<Call>, j: nat, mono: real)
    requires j <= |calls|
    ensures Covered(c, calls[..j], mono) <==> exists i: nat :: i < j && CoversAt(c, calls, i, mono)
  {
    forall i: nat | i < j ensures CoversAt(c, calls[..j], i, mono) == CoversAt(c, calls, i, mono) {
    }
    if i: nat :| i < j && CoversAt(c, calls, i, mono) {
      assert CoversAt(c, calls[..j], i, mono);
    }
  }

  /** From any record, migrated or not: after a budget throttle at T every cycle check read before T + cooldown is
      refused, whatever cycle and quota calls lie between. */
  lemma NoCycleWhileCooling(c: Config, s: State, calls: seq<Call>, i: nat, j: nat)
    requires c.cooldown >= 0 && Positive(calls) && SerialDecisions(c, s, calls)
    requires i < j < |calls| && BudgetThrottle(calls[i]) && calls[j].CycleCall?
    requires calls[j].mono < calls[i].mono + c.cooldown as real
    ensures calls[j].decision == Throttled(CoolingDown)
    decreases i
  {
    var s' := if calls[0].CycleCall? then Migrate(s, calls[0].mono, calls[0].wall) else s;
    if calls[0].CycleCall? {
      MigrateFirst(c, s, calls);
      CoolingIff(c, s', calls, j);
      assert CoversAt(c, calls, i, calls[j].mono);
    } else {
      assert i > 0 && calls[1..][i - 1] == calls[i] && calls[1..][j - 1] == calls[j];
      NoCycleWhileCooling(c, Serve(c, s, calls[0]).0, calls[1..], i - 1, j - 1);
    }
  }

  // All decisions.

  datatype Which = CycleMono | MutationMono | MutationWall

  /** The call refreshes the window. */
  predicate Reaches(which: Which, call: Call) {
    if which == MutationWall then call.QuotaCall? else call.CycleCall? && !Refused(call)
  }

  function Reading(call: Call): real {
    if call.CycleCall? then call.mono else call.now
  }

  function Width(c: Config, which: Which): real {
    if which == CycleMono then c.cycleWindow as real else c.mutationWindow as real
  }

  predicate Expired(c: Config, since: Option<real>, width: real, now: real) {
    since.None? || now - since.value >= width
  }

  /** When the window was last opened. */
  function Opened(c: Config, which: Which, calls: seq<Call>): Option<real>
    decreases |calls|, 0
  {
    if calls == [] then None
    else
      var front, last := calls[..|calls| - 1], calls[|calls| - 1];
      if Opens(c, which, front, last) then Some(Reading(last)) else Opened(c, which, front)
  }

  predicate Opens(c: Config, which: Which, front: seq<Call>, call: Call)
    decreases |front|, 1
  {
    Reaches(which, call) && Expired(c, Opened(c, which, front), Width(c, which), Reading(call))
  }

  /** The cycles admitted since the cycle window was last opened. */
  function CyclesSince(c: Config, calls: seq<Call>): nat {
    if calls == [] then 0
    else
      var front, last := calls[..|calls| - 1], calls[|calls| - 1];
      (if Opens(c, CycleMono, front, last) then 0 else CyclesSince(c, front)) + if AdmittedCycle(last) then 1 else 0
  }

  predicate AdmittedMutation(call: Call) {
    call.QuotaCall? && call.decision == Admitted
  }

  /** The mutations admitted since either mutation window was last opened. */
  function MutationsSince(c: Config, calls: seq<Call>): nat {
    if calls == [] then 0
    else
      var front, last := calls[..|calls| - 1], calls[|calls| - 1];
      (if Opens(c, MutationMono, front, last) || Opens(c, MutationWall, front, last) then 0
       else MutationsSince(c, front))
      + if AdmittedMutation(last) then 1 else 0
  }

  /** The decision that the calls so far call for. */
  ghost function Due(c: Config, calls: seq<Call>, call: Call): Decision {
    match call
    case CycleCall(mono, _, _) =>
      if Covered(c, calls, mono) then Throttled(CoolingDown)
      else if && 0 < c.cycleBudget <= CyclesSince(c, calls)
              && !Expired(c, Opened(c, CycleMono, calls), c.cycleWindow as real, mono)
      then Throttled(CycleBudgetSpent)
      else Admitted
    case QuotaCall(now, _) =>
      if && 0 < c.mutationQuota <= MutationsSince(c, calls)
         && !Expired(c, Opened(c, MutationWall, calls), c.mutationWindow as real, now)
      then Throttled(MutationQuotaSpent)
      else Admitted
  }

  /** A migrated record that no call has used. */
  predicate Unused(s: State) {
    Migrated(s) && forall k | k in s :: s[k] == 0.0
  }

  predicate StartIs(s: State, key: Key, since: Option<real>) {
    match since
    case None => Get(s, key) == 0.0
    case Some(t) => t > 0.0 && Get(s, key) == t
  }

  /** The record holds what the log tells. */
  ghost predicate Told(c: Config, s: State, calls: seq<Call>) {
    && Migrated(s)
    && StartIs(s, CycleStartMono, Opened(c, CycleMono, calls))
    && StartIs(s, MutationStartMono, Opened(c, MutationMono, calls))
    && StartIs(s, MutationStart, Opened(c, MutationWall, calls))
    && Get(s, CycleCount) == CyclesSince(c, calls) as real
    && Get(s, MutationCount) == MutationsSince(c, calls) as real
  }

  lemma OneMoreTold(c: Config, front: seq<Call>, last: Call)
    ensures var calls := front + [last];
      && (forall which :: Opened(c, which, calls)
                       == if Opens(c, which, front, last) then Some(Reading(last)) else Opened(c, which, front))
      && CyclesSince(c, calls) == (if Opens(c, CycleMono, front, last) then 0 else CyclesSince(c, front))
                                  + (if AdmittedCycle(last) then 1 else 0)
      && MutationsSince(c, calls)
         == (if Opens(c, MutationMono, front, last) || Opens(c, MutationWall, front, last) then 0
             else MutationsSince(c, front)) + if AdmittedMutation(last) then 1 else 0
  {
    assert (front + [last])[..|front|] == front;
  }

  lemma QuotaTold(c: Config, s: State, calls: seq<Call>, call: Call)
    requires Told(c, s, calls) && call.QuotaCall? && call.now > 0.0 && call.decision == QuotaStep(c, s, call.now).1
    ensures call.decision == Due(c, calls, call) && Told(c, QuotaStep(c, s, call.now).0, calls + [call])
  {
    OneMoreTold(c, calls, call);
  }

  lemma CycleTold(c: Config, s: State, calls: seq<Call>, call: Call)
    requires Told(c, s, calls) && call.CycleCall? && call.mono > 0.0
    requires call.decision == LockedStep(c, s, call.mono, call.wall).1
    requires Cools(s, call.mono) <==> Covered(c, calls, call.mono)
    ensures call.decision == Due(c, calls, call)
    ensures Told(c, LockedStep(c, s, call.mono, call.wall).0, calls + [call])
  {
    OneMoreTold(c, calls, call);
  }

  lemma CallTold(c: Config, s: State, front: seq<Call>, last: Call)
    requires Unused(s) && c.cooldown >= 0 && Positive(front + [last]) && SerialDecisions(c, s, front)
    requires Told(c, SerialState(c, s, front), front) && last.decision == Serve(c, SerialState(c, s, front), last).1
    ensures last.decision == Due(c, front, last)
    ensures Told(c, Serve(c, SerialState(c, s, front), last).0, front + [last])
  {
    assert (front + [last])[|front|] == last && forall i | 0 <= i < |front| :: (front + [last])[i] == front[i];
    if last.CycleCall? {
      CoolsFromLog(c, s, front, last.mono);
      CycleTold(c, SerialState(c, s, front), front, last);
    } else {
      QuotaTold(c, SerialState(c, s, front), front, last);
    }
  }

  lemma {:induction false} LogTells(c: Config, s: State, calls: seq<Call>)
    requires Unused(s) && c.cooldown >= 0 && Positive(calls) && SerialDecisions(c, s, calls)
    ensures Told(c, SerialState(c, s, calls), calls)
    ensures forall j: nat | j < |calls| :: calls[j].decision == Due(c, calls[..j], calls[j])
    decreases |calls|
  {
    if calls != [] {
      var front, last := calls[..|calls| - 1], calls[|calls| - 1];
      assert calls == front + [last];
      LastCall(c, s, calls);
      LogTells(c, s, front);
      CallTold(c, s, front, last);
      forall j: nat | j < |calls| ensures calls[j].decision == Due(c, calls[..j], calls[j]) {
        if j < |front| {
          assert front[..j] == calls[..j];
        }
      }
    }
  }

  /** From an unused migrated record, the calls before a call decide it, for cycle checks and quota checks run one at a
      time in any mixture. */
  lemma HistoryDecides(c: Config, s: State, calls: seq<Call>, j: nat)
    requires Unused(s) && c.cooldown >= 0 && Positive(calls) && SerialDecisions(c, s, calls) && j < |calls|
    ensures calls[j].decision == Due(c, calls[..j], calls[j])
  {
    LogTells(c, s, calls);
  }

  /** Both results hold of the log of every calm interleaving. */
  lemma ConcurrentCooling(c: Config, start: State, mono: real, wall: real, steps: seq<Step>, i: nat, j: nat)
    requires Calm(c, Initial(start, mono, wall), steps) && c.cooldown >= 0
    requires Positive(Execute(c, Initial(start, mono, wall), steps).log)
    ensures var log := Execute(c, Initial(start, mono, wall), steps).log;
      && (i < j < |log| && BudgetThrottle(log[i]) && log[j].CycleCall? && log[j].mono < log[i].mono + c.cooldown as real
          ==> log[j].decision == Throttled(CoolingDown))
      && (Unused(start) && j < |log| ==> log[j].decision == Due(c, log[..j], log[j]))
  {
    var log := Execute(c, Initial(start, mono, wall), steps).log;
    CalmRunsAreSerial(c, start, mono, wall, steps);
    if i < j < |log| && BudgetThrottle(log[i]) && log[j].CycleCall?
       && log[j].mono < log[i].mono + c.cooldown as real {
      NoCycleWhileCooling(c, start, log, i, j);
    }
    if Unused(start) && j < |log| {
      HistoryDecides(c, start, log, j);
    }
  }

  // The first check of a record that the base limiter left behind.

  /** The first locked check decides as the base limiter would have at that wall-clock time, unless the base limiter
      would find its budget spent in a cycle window that is older than the monotonic clock itself: that window is
      taken for unset and the cycle admitted. */
  lemma FirstCheckAgreesIff(c: Config, s: State, mono: real, wall: real)
    requires CycleStartMono !in s && MutationStartMono !in s && CooldownUntilMono !in s
    requires mono > 0.0 && Get(s, CooldownUntil) >= 0.0
    ensures LockedStep(c, s, mono, wall).1 == LimitsStep(c, s, wall).1 <==>
            !(LimitsStep(c, s, wall).1 == Throttled(CycleBudgetSpent) && mono <= wall - Get(s, CycleStart))
  {
    var m := Migrate(s, mono, wall);
    assert Get(m, CycleCount) == Get(s, CycleCount);
    assert CoolingMono(m, mono) <==> Get(s, CooldownUntil) != 0.0 && wall < Get(s, CooldownUntil);
  }

  /** A budget throttle of the adapter cools the base limiter as well, on the wall clock. */
  lemma ThrottleCoolsBaseLimiter(c: Config, s: State, mono: real, wall: real, now: real)
    requires LockedStep(c, s, mono, wall).1 == Throttled(CycleBudgetSpent) && wall + c.cooldown as real > 0.0
    ensures LimitsStep(c, LockedStep(c, s, mono, wall).0, now).1 == Throttled(CoolingDown) <==>
            now < wall + c.cooldown as real
  {
  }
}
