/** The adapter's checks run concurrently: any number of callers, each step of each caller a separate step.  The cycle
    check holds the lock; the inherited quota check takes none. */
module BeastInterleaving {
  import opened BeastMode
  import opened BeastAdapter
  import opened BeastSerial
  import opened Wrappers

  type Caller = nat

  datatype Progress =
    | Outside
    | Holding
    | Timed(mono: real, wall: real)
    | Loaded(mono: real, wall: real, copy: State)
    | Updated(mono: real, wall: real, copy: State)
    | Decided
    | QuotaTimed(now: real)
    | QuotaLoaded(now: real, copy: State)

  /** The file, the lock, the callers, the clocks, and the finished calls in the order of their saves. */
  datatype System = System(
    file: State, lock: Option<Caller>, at: map<Caller, Progress>, mono: real, wall: real, log: seq<Call>)

  datatype Step =
    | Tick(mono: real, wall: real)
    | Acquire(who: Caller)
    | ReadClocks(who: Caller)
    | Load(who: Caller)
    | SaveMigrated(who: Caller)
    | SaveDecided(who: Caller)
    | Release(who: Caller)
    | QuotaClock(who: Caller)
    | QuotaLoad(who: Caller)
    | QuotaSave(who: Caller)

  function At(y: System, who: Caller): Progress {
    if who in y.at then y.at[who] else Outside
  }

  /** One step of one caller; a step that is not enabled leaves the system as it is. */
  function Apply(c: Config, y: System, step: Step): System {
    match step
    case Tick(mono, wall) => if mono >= y.mono then y.(mono := mono, wall := wall) else y
    case Acquire(p) =>
      if At(y, p).Outside? && y.lock.None? then y.(lock := Some(p), at := y.at[p := Holding]) else y
    case ReadClocks(p) =>
      if At(y, p).Holding? then y.(at := y.at[p := Timed(y.mono, y.wall)]) else y
    case Load(p) =>
      var a := At(y, p);
      if a.Timed? then y.(at := y.at[p := Loaded(a.mono, a.wall, y.file)]) else y
    case SaveMigrated(p) =>
      var a := At(y, p);
      if a.Loaded? then
        var m := Migrate(a.copy, a.mono, a.wall);
        y.(file := if Migrated(a.copy) then y.file else m, at := y.at[p := Updated(a.mono, a.wall, m)])
      else y
    case SaveDecided(p) =>
      var a := At(y, p);
      if a.Updated? then
        var (s, d) := Decide(c, a.copy, a.mono, a.wall);
        y.(file := if d == Throttled(CoolingDown) then y.file else s,
           at := y.at[p := Decided],
           log := y.log + [CycleCall(a.mono, a.wall, d)])
      else y
    case Release(p) =>
      if At(y, p).Decided? then y.(lock := None, at := y.at[p := Outside]) else y
    case QuotaClock(p) =>
      if At(y, p).Outside? then y.(at := y.at[p := QuotaTimed(y.wall)]) else y
    case QuotaLoad(p) =>
      var a := At(y, p);
      if a.QuotaTimed? then y.(at := y.at[p := QuotaLoaded(a.now, y.file)]) else y
    case QuotaSave(p) =>
      var a := At(y, p);
      if a.QuotaLoaded? then
        var (s, d) := QuotaStep(c, a.copy, a.now);
        y.(file := s, at := y.at[p := Outside], log := y.log + [QuotaCall(a.now, d)])
      else y
  }

  function Execute(c: Config, y: System, steps: seq<Step>): System
    decreases |steps|
  {
    if steps == [] then y else Execute(c, Apply(c, y, steps[0]), steps[1..])
  }

  function Initial(file: State, mono: real, wall: real): System {
    System(file, None, map[], mono, wall, [])
  }

  // When a run is a serial run.

  /** The holder of the lock has loaded the record and not yet saved its decision. */
  predicate Checking(y: System) {
    y.lock.Some? && (At(y, y.lock.value).Loaded? || At(y, y.lock.value).Updated?)
  }

  /** The step is no quota save in the middle of a locked check. */
  predicate KeepsOut(y: System, step: Step) {
    step.QuotaSave? && At(y, step.who).QuotaLoaded? ==> !Checking(y)
  }

  /** If the step is a quota save, the copy it was computed from would have come out the same had it been loaded just
      now; so above all when nobody wrote the file since. */
  predicate UpToDate(c: Config, y: System, step: Step) {
    step.QuotaSave? && At(y, step.who).QuotaLoaded? ==>
      QuotaStep(c, At(y, step.who).copy, At(y, step.who).now) == QuotaStep(c, y.file, At(y, step.who).now)
  }

  predicate AllKeepOut(c: Config, y: System, steps: seq<Step>)
    decreases |steps|
  {
    steps == [] || (KeepsOut(y, steps[0]) && AllKeepOut(c, Apply(c, y, steps[0]), steps[1..]))
  }

  /** Every quota save keeps out of locked checks and is up to date. */
  predicate Calm(c: Config, y: System, steps: seq<Step>)
    decreases |steps|
  {
    steps == []
    || (KeepsOut(y, steps[0]) && UpToDate(c, y, steps[0]) && Calm(c, Apply(c, y, steps[0]), steps[1..]))
  }

  /** The finished calls have the decisions, and outside a locked check the file is the record, of running them one at
      a time in the order of their saves. */
  predicate Serial(c: Config, start: State, y: System) {
    SerialDecisions(c, start, y.log) && (!Checking(y) ==> y.file == SerialState(c, start, y.log))
  }

  predicate InCheck(a: Progress) {
    a.Holding? || a.Timed? || a.Loaded? || a.Updated? || a.Decided?
  }

  /** What the file and the lock holder's copy hold at each point of a call, when the calls made so far left `serial`
      behind. */
  ghost predicate Fits(y: System, serial: State) {
    && (forall p | p in y.at && InCheck(y.at[p]) :: y.lock == Some(p))
    && match y.lock
       case None => y.file == serial
       case Some(p) =>
         match At(y, p)
         case Loaded(mono, wall, copy) => y.file == serial == copy
         case Updated(mono, wall, copy) => y.file == copy == Migrate(serial, mono, wall)
         case a => InCheck(a) && y.file == serial
  }

  ghost predicate Consistent(c: Config, start: State, y: System) {
    SerialDecisions(c, start, y.log) && Fits(y, SerialState(c, start, y.log))
  }

  lemma QuietStepFits(c: Config, y: System, step: Step, serial: State)
    requires Fits(y, serial) && !step.QuotaSave? && !step.SaveDecided? && !step.SaveMigrated?
    ensures Fits(Apply(c, y, step), serial) && Apply(c, y, step).log == y.log
  {
  }

  lemma SaveMigratedFits(c: Config, y: System, p: Caller, serial: State)
    requires Fits(y, serial)
    ensures Fits(Apply(c, y, SaveMigrated(p)), serial) && Apply(c, y, SaveMigrated(p)).log == y.log
  {
  }

  lemma SaveDecidedFits(c: Config, y: System, p: Caller, serial: State)
    requires Fits(y, serial) && At(y, p).Updated?
    ensures var a := At(y, p);
      var (s', d) := LockedStep(c, serial, a.mono, a.wall);
      && Fits(Apply(c, y, SaveDecided(p)), s')
      && Apply(c, y, SaveDecided(p)).log == y.log + [CycleCall(a.mono, a.wall, d)]
  {
  }

  lemma QuotaSaveFits(c: Config, y: System, p: Caller, serial: State)
    requires Fits(y, serial) && At(y, p).QuotaLoaded? && KeepsOut(y, QuotaSave(p)) && UpToDate(c, y, QuotaSave(p))
    ensures var a := At(y, p);
      var (s', d) := QuotaStep(c, serial, a.now);
      && Fits(Apply(c, y, QuotaSave(p)), s')
      && Apply(c, y, QuotaSave(p)).log == y.log + [QuotaCall(a.now, d)]
  {
    assert y.file == serial;
  }

  lemma StepKeepsConsistent(c: Config, start: State, y: System, step: Step)
    requires Consistent(c, start, y) && KeepsOut(y, step) && UpToDate(c, y, step)
    ensures Consistent(c, start, Apply(c, y, step))
  {
    var serial := SerialState(c, start, y.log);
    if step.SaveDecided? {
      if At(y, step.who).Updated? {
        var a := At(y, step.who);
        SaveDecidedFits(c, y, step.who, serial);
        SerialAppend(c, start, y.log, CycleCall(a.mono, a.wall, LockedStep(c, serial, a.mono, a.wall).1));
      }
    } else if step.QuotaSave? {
      if At(y, step.who).QuotaLoaded? {
        var a := At(y, step.who);
        QuotaSaveFits(c, y, step.who, serial);
        SerialAppend(c, start, y.log, QuotaCall(a.now, QuotaStep(c, serial, a.now).1));
      }
    } else if step.SaveMigrated? {
      SaveMigratedFits(c, y, step.who, serial);
    } else {
      QuietStepFits(c, y, step, serial);
    }
  }

  lemma {:induction false} CalmKeepsConsistent(c: Config, start: State, y: System, steps: seq<Step>)
    requires Consistent(c, start, y) && Calm(c, y, steps)
    ensures Consistent(c, start, Execute(c, y, steps))
    decreases |steps|
  {
    if steps != [] {
      StepKeepsConsistent(c, start, y, steps[0]);
      CalmKeepsConsistent(c, start, Apply(c, y, steps[0]), steps[1..]);
    }
  }

  /** Every calm interleaving of cycle checks and quota checks gives the decisions, and outside a locked check the
      record, of running the calls one at a time in the order of their saves. */
  lemma CalmRunsAreSerial(c: Config, start: State, mono: real, wall: real, steps: seq<Step>)
    requires Calm(c, Initial(start, mono, wall), steps)
    ensures Serial(c, start, Execute(c, Initial(start, mono, wall), steps))
  {
    CalmKeepsConsistent(c, start, Initial(start, mono, wall), steps);
  }

  /** The step saves the file. */
  predicate Saves(y: System, step: Step) {
    match step
    case SaveMigrated(p) => At(y, p).Loaded? && !Migrated(At(y, p).copy)
    case SaveDecided(p) => At(y, p).Updated? && !CoolingMono(At(y, p).copy, At(y, p).mono)
    case QuotaSave(p) => At(y, p).QuotaLoaded?
    case _ => false
  }

  /** The callers that loaded for a quota check since the last save. */
  function Recent(y: System, step: Step, recent: set<Caller>): set<Caller> {
    if Saves(y, step) then {}
    else if step.QuotaLoad? && At(y, step.who).QuotaTimed? then recent + {step.who}
    else recent
  }

  /** Nobody saves the file between a caller's `QuotaLoad` and its `QuotaSave`, and no quota save falls into a locked
      check. */
  predicate Undisturbed(c: Config, y: System, steps: seq<Step>, recent: set<Caller>)
    decreases |steps|
  {
    steps == []
    || (&& KeepsOut(y, steps[0])
        && (steps[0].QuotaSave? && At(y, steps[0].who).QuotaLoaded? ==> steps[0].who in recent)
        && Undisturbed(c, Apply(c, y, steps[0]), steps[1..], Recent(y, steps[0], recent)))
  }

  /** The recent copies are copies of the file. */
  ghost predicate Current(y: System, recent: set<Caller>) {
    forall p | p in recent && At(y, p).QuotaLoaded? :: At(y, p).copy == y.file
  }

  lemma StaysCurrent(c: Config, y: System, step: Step, recent: set<Caller>)
    requires Current(y, recent)
    ensures Current(Apply(c, y, step), Recent(y, step, recent))
  {
  }

  lemma {:induction false} UndisturbedFromHere(c: Config, y: System, steps: seq<Step>, recent: set<Caller>)
    requires Undisturbed(c, y, steps, recent) && Current(y, recent)
    ensures Calm(c, y, steps)
    decreases |steps|
  {
    if steps != [] {
      StaysCurrent(c, y, steps[0], recent);
      UndisturbedFromHere(c, Apply(c, y, steps[0]), steps[1..], Recent(y, steps[0], recent));
    }
  }

  /** A run is calm if nobody saves in the middle of a quota check and no quota check saves in the middle of a locked
      check. */
  lemma UndisturbedIsCalm(c: Config, start: State, mono: real, wall: real, steps: seq<Step>)
    requires Undisturbed(c, Initial(start, mono, wall), steps, {})
    ensures Calm(c, Initial(start, mono, wall), steps)
  {
    UndisturbedFromHere(c, Initial(start, mono, wall), steps, {});
  }

  predicate OnlyLocked(steps: seq<Step>) {
    forall i | 0 <= i < |steps| :: !steps[i].QuotaSave?
  }

  lemma {:induction false} LockedIsCalm(c: Config, y: System, steps: seq<Step>)
    requires OnlyLocked(steps)
    ensures Calm(c, y, steps)
    decreases |steps|
  {
    if steps != [] {
      LockedIsCalm(c, Apply(c, y, steps[0]), steps[1..]);
    }
  }

  /** The cycle checks need no condition: every interleaving of them alone is serial, in lock order. */
  lemma LockedChecksAreSerial(c: Config, start: State, mono: real, wall: real, steps: seq<Step>)
    requires OnlyLocked(steps)
    ensures var y := Execute(c, Initial(start, mono, wall), steps);
      && SerialDecisions(c, start, y.log)
      && (y.lock == None ==> y.file == SerialState(c, start, y.log))
  {
    LockedIsCalm(c, Initial(start, mono, wall), steps);
    CalmRunsAreSerial(c, start, mono, wall, steps);
  }

  // Being up to date is exactly what a quota save needs.

  lemma OutdatedSaveIsNotSerial(c: Config, start: State, y: System, p: Caller)
    requires Consistent(c, start, y) && At(y, p).QuotaLoaded? && KeepsOut(y, QuotaSave(p))
    requires !UpToDate(c, y, QuotaSave(p))
    ensures !Serial(c, start, Apply(c, y, QuotaSave(p)))
  {
    var a := At(y, p);
    SerialAppend(c, start, y.log, QuotaCall(a.now, QuotaStep(c, a.copy, a.now).1));
    assert y.file == SerialState(c, start, y.log);
    assert !Checking(Apply(c, y, QuotaSave(p)));
  }

  /** Every point of the run, the first and the last included, is serial. */
  ghost predicate AlwaysSerial(c: Config, start: State, y: System, steps: seq<Step>)
    decreases |steps|
  {
    Serial(c, start, y) && (steps == [] || AlwaysSerial(c, start, Apply(c, y, steps[0]), steps[1..]))
  }

  lemma {:induction false} SerialIffUpToDate(c: Config, start: State, y: System, steps: seq<Step>)
    requires Consistent(c, start, y) && AllKeepOut(c, y, steps)
    ensures AlwaysSerial(c, start, y, steps) <==> Calm(c, y, steps)
    decreases |steps|
  {
    if steps != [] {
      var y' := Apply(c, y, steps[0]);
      if UpToDate(c, y, steps[0]) {
        StepKeepsConsistent(c, start, y, steps[0]);
        SerialIffUpToDate(c, start, y', steps[1..]);
      } else {
        OutdatedSaveIsNotSerial(c, start, y, steps[0].who);
      }
    }
  }

  /** Of the runs in which no quota save falls into a locked check, exactly those are serial at every point in which
      every quota save is up to date. */
  lemma RunIsSerialIffCalm(c: Config, start: State, mono: real, wall: real, steps: seq<Step>)
    requires AllKeepOut(c, Initial(start, mono, wall), steps)
    ensures AlwaysSerial(c, start, Initial(start, mono, wall), steps) <==> Calm(c, Initial(start, mono, wall), steps)
  {
    SerialIffUpToDate(c, start, Initial(start, mono, wall), steps);
  }

  // Bounds over calm runs.

  /** The readings of the cycle checks, finished or under way, are ordered and not below `least`. */
  ghost predicate ReadInOrder(y: System, least: real) {
    && least <= y.mono && CyclesOrdered(y.log, least)
    && (forall i | 0 <= i < |y.log| && y.log[i].CycleCall? :: y.log[i].mono <= y.mono)
    && (forall p | p in y.at && InCheck(y.at[p]) :: y.lock == Some(p))
    && (y.lock.Some? ==>
          var a := At(y, y.lock.value);
          a.Timed? || a.Loaded? || a.Updated? ==>
            && least <= a.mono <= y.mono
            && forall i | 0 <= i < |y.log| && y.log[i].CycleCall? :: y.log[i].mono <= a.mono)
  }

  lemma StepReadsInOrder(c: Config, y: System, step: Step, least: real)
    requires ReadInOrder(y, least)
    ensures ReadInOrder(Apply(c, y, step), least)
  {
    if step.SaveDecided? {
      FinishReadsInOrder(c, y, step.who, least);
    } else if step.QuotaSave? {
      QuotaReadsInOrder(c, y, step.who, least);
    } else {
      QuietReadsInOrder(c, y, step, least);
    }
  }

  lemma FinishReadsInOrder(c: Config, y: System, p: Caller, least: real)
    requires ReadInOrder(y, least)
    ensures ReadInOrder(Apply(c, y, SaveDecided(p)), least)
  {
  }

  lemma QuotaReadsInOrder(c: Config, y: System, p: Caller, least: real)
    requires ReadInOrder(y, least)
    ensures ReadInOrder(Apply(c, y, QuotaSave(p)), least)
  {
  }

  lemma QuietReadsInOrder(c: Config, y: System, step: Step, least: real)
    requires ReadInOrder(y, least) && !step.SaveDecided? && !step.QuotaSave?
    ensures ReadInOrder(Apply(c, y, step), least)
  {
  }

  lemma {:induction false} RunReadsInOrder(c: Config, y: System, steps: seq<Step>, least: real)
    requires ReadInOrder(y, least)
    ensures ReadInOrder(Execute(c, y, steps), least)
    decreases |steps|
  {
    if steps != [] {
      StepReadsInOrder(c, y, steps[0], least);
      RunReadsInOrder(c, Apply(c, y, steps[0]), steps[1..], least);
    }
  }

  /** Under every calm interleaving, an interval of the monotonic clock no longer than `n` cycle windows admits at
      most `n + 1` budgets. */
  lemma ConcurrentCycleBound(
    c: Config, start: State, mono: real, wall: real, steps: seq<Step>, lo: real, hi: real, n: nat)
    requires Calm(c, Initial(start, mono, wall), steps) && mono > 0.0
    requires c.cycleBudget >= 1 && c.cycleWindow > 0 && Get(start, CycleCount) >= 0.0
    requires hi - lo <= n as real * c.cycleWindow as real
    ensures CyclesAdmitted(Execute(c, Initial(start, mono, wall), steps).log, lo, hi) <= (n + 1) * c.cycleBudget
  {
    CalmRunsAreSerial(c, start, mono, wall, steps);
    RunReadsInOrder(c, Initial(start, mono, wall), steps, mono);
    SerialCycleBound(c, start, Execute(c, Initial(start, mono, wall), steps).log, mono, lo, hi, n);
  }

  /** No increment is lost, in every calm run from every start: outside a locked check the saved count is the number
      of cycles admitted since the window was last opened, or since the start, and on top of the start count, if it
      never was. */
  lemma NoLostIncrement(c: Config, start: State, mono: real, wall: real, steps: seq<Step>, k: nat)
    requires Calm(c, Initial(start, mono, wall), steps)
    requires !Checking(Execute(c, Initial(start, mono, wall), steps))
    ensures var y := Execute(c, Initial(start, mono, wall), steps);
      && (OpensAt(c, start, y.log, k) && (forall j: nat | k < j < |y.log| :: !OpensAt(c, start, y.log, j)) ==>
            Get(y.file, CycleCount) == CyclesCounted(y.log[k..]) as real)
      && ((forall j: nat | j < |y.log| :: !OpensAt(c, start, y.log, j)) ==>
            Get(y.file, CycleCount) == Get(start, CycleCount) + CyclesCounted(y.log) as real)
  {
    CalmRunsAreSerial(c, start, mono, wall, steps);
    var log := Execute(c, Initial(start, mono, wall), steps).log;
    if OpensAt(c, start, log, k) && forall j: nat | k < j < |log| :: !OpensAt(c, start, log, j) {
      CountSinceOpening(c, start, log, k);
    }
    if forall j: nat | j < |log| :: !OpensAt(c, start, log, j) {
      CountSinceStart(c, start, log);
    }
  }

  /** No window of a calm run admits more than the budget: from the call `k` that opens one, as long as no later call
      opens the next. */
  lemma EveryWindowWithinBudget(
    c: Config, start: State, mono: real, wall: real, steps: seq<Step>, k: nat, j: nat)
    requires Calm(c, Initial(start, mono, wall), steps) && c.cycleBudget >= 1
    requires var log := Execute(c, Initial(start, mono, wall), steps).log;
      k < j <= |log| && OpensAt(c, start, log, k) && forall i: nat | k < i < j :: !OpensAt(c, start, log, i)
    ensures CyclesCounted(Execute(c, Initial(start, mono, wall), steps).log[k..j]) <= c.cycleBudget
  {
    CalmRunsAreSerial(c, start, mono, wall, steps);
    NoWindowExceedsBudget(c, start, Execute(c, Initial(start, mono, wall), steps).log, k, j);
  }

  /** A whole start count within the budget stays within it in every calm run. */
  lemma CountNeverExceedsBudget(c: Config, start: State, mono: real, wall: real, steps: seq<Step>)
    requires Calm(c, Initial(start, mono, wall), steps) && c.cycleBudget >= 1
    requires Whole(Get(start, CycleCount)) && Get(start, CycleCount) <= c.cycleBudget as real
    requires !Checking(Execute(c, Initial(start, mono, wall), steps))
    ensures Get(Execute(c, Initial(start, mono, wall), steps).file, CycleCount) <= c.cycleBudget as real
  {
    CalmRunsAreSerial(c, start, mono, wall, steps);
    CountStaysInBudget(c, start, Execute(c, Initial(start, mono, wall), steps).log);
  }
}
