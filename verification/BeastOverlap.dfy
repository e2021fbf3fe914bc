/** When an interleaving is serial, quota saves inside locked checks included: one condition for each save. */
module BeastOverlap {
  import opened BeastMode
  import opened BeastAdapter
  import opened BeastSerial
  import opened BeastInterleaving
  import opened BeastStale
  import opened Wrappers

  /** The record that the finished calls leave when they run one at a time. */
  function Record(c: Config, start: State, y: System): State {
    SerialState(c, start, y.log)
  }

  /** A quota save: the copy gives the decision of the serial record and, outside a locked check, its outcome. */
  predicate QuotaSettles(c: Config, record: State, y: System, now: real, copy: State) {
    && QuotaStep(c, copy, now).1 == QuotaStep(c, record, now).1
    && (Checking(y) || QuotaStep(c, copy, now).0 == QuotaStep(c, record, now).0)
  }

  /** The end of a locked check: the copy gives the decision of the serial record, and the file is left as it. */
  predicate CheckSettles(c: Config, record: State, file: State, mono: real, wall: real, copy: State) {
    var (s, d) := Decide(c, copy, mono, wall);
    LockedStep(c, record, mono, wall) == (if d == Throttled(CoolingDown) then file else s, d)
  }

  predicate Settles(c: Config, start: State, y: System, step: Step) {
    match step
    case QuotaSave(p) =>
      var a := At(y, p);
      a.QuotaLoaded? ==> QuotaSettles(c, Record(c, start, y), y, a.now, a.copy)
    case SaveDecided(p) =>
      var a := At(y, p);
      a.Updated? ==> CheckSettles(c, Record(c, start, y), y.file, a.mono, a.wall, a.copy)
    case _ => true
  }

  predicate AllSettle(c: Config, start: State, y: System, steps: seq<Step>)
    decreases |steps|
  {
    steps == [] || (Settles(c, start, y, steps[0]) && AllSettle(c, start, Apply(c, y, steps[0]), steps[1..]))
  }

  /** Exactly the holder of the lock is in a locked check. */
  ghost predicate Exclusive(y: System) {
    && (forall p | p in y.at && InCheck(y.at[p]) :: y.lock == Some(p))
    && (y.lock.Some? ==> InCheck(At(y, y.lock.value)))
  }

  lemma StepKeepsExclusive(c: Config, y: System, step: Step)
    requires Exclusive(y)
    ensures Exclusive(Apply(c, y, step))
  {
  }

  /** Steps that finish no call neither end a locked check nor write outside one. */
  lemma UnfinishedStep(c: Config, y: System, step: Step)
    requires Exclusive(y) && !(step.QuotaSave? && At(y, step.who).QuotaLoaded?)
    requires !(step.SaveDecided? && At(y, step.who).Updated?)
    ensures var z := Apply(c, y, step);
      z.log == y.log && (!Checking(z) ==> !Checking(y) && z.file == y.file)
  {
  }

  lemma QuotaSaveSettles(c: Config, start: State, y: System, p: Caller)
    requires Exclusive(y) && Serial(c, start, y) && At(y, p).QuotaLoaded?
    ensures Serial(c, start, Apply(c, y, QuotaSave(p))) <==> Settles(c, start, y, QuotaSave(p))
  {
    var a := At(y, p);
    SerialAppend(c, start, y.log, QuotaCall(a.now, QuotaStep(c, a.copy, a.now).1));
    QuotaSaveSeen(c, y, p);
  }

  lemma QuotaSaveSeen(c: Config, y: System, p: Caller)
    requires Exclusive(y) && At(y, p).QuotaLoaded?
    ensures var z, a := Apply(c, y, QuotaSave(p)), At(y, p);
      && (Checking(z) <==> Checking(y)) && z.file == QuotaStep(c, a.copy, a.now).0
      && z.log == y.log + [QuotaCall(a.now, QuotaStep(c, a.copy, a.now).1)]
  {
  }

  lemma CheckEndSettles(c: Config, start: State, y: System, p: Caller)
    requires Exclusive(y) && Serial(c, start, y) && At(y, p).Updated?
    ensures Serial(c, start, Apply(c, y, SaveDecided(p))) <==> Settles(c, start, y, SaveDecided(p))
  {
    var a := At(y, p);
    SerialAppend(c, start, y.log, CycleCall(a.mono, a.wall, Decide(c, a.copy, a.mono, a.wall).1));
    CheckEndSeen(c, y, p);
  }

  lemma CheckEndSeen(c: Config, y: System, p: Caller)
    requires Exclusive(y) && At(y, p).Updated?
    ensures var z, a := Apply(c, y, SaveDecided(p)), At(y, p);
      var (s, d) := Decide(c, a.copy, a.mono, a.wall);
      && !Checking(z) && z.file == (if d == Throttled(CoolingDown) then y.file else s)
      && z.log == y.log + [CycleCall(a.mono, a.wall, d)]
  {
  }

  lemma StepSettles(c: Config, start: State, y: System, step: Step)
    requires Exclusive(y) && Serial(c, start, y)
    ensures Serial(c, start, Apply(c, y, step)) <==> Settles(c, start, y, step)
  {
    if step.QuotaSave? && At(y, step.who).QuotaLoaded? {
      QuotaSaveSettles(c, start, y, step.who);
    } else if step.SaveDecided? && At(y, step.who).Updated? {
      CheckEndSettles(c, start, y, step.who);
    } else {
      UnfinishedStep(c, y, step);
    }
  }

  lemma {:induction false} SerialIffSettled(c: Config, start: State, y: System, steps: seq<Step>)
    requires Exclusive(y) && Serial(c, start, y)
    ensures AlwaysSerial(c, start, y, steps) <==> AllSettle(c, start, y, steps)
    decreases |steps|
  {
    if steps != [] {
      StepSettles(c, start, y, steps[0]);
      StepKeepsExclusive(c, y, steps[0]);
      if Serial(c, start, Apply(c, y, steps[0])) {
        SerialIffSettled(c, start, Apply(c, y, steps[0]), steps[1..]);
      }
    }
  }

  /** Every interleaving whatever, from every record: it is serial at every point if and only if each save settles with
      the serial record. */
  lemma RunIsSerialIff(c: Config, start: State, mono: real, wall: real, steps: seq<Step>)
    ensures AlwaysSerial(c, start, Initial(start, mono, wall), steps) <==>
            AllSettle(c, start, Initial(start, mono, wall), steps)
  {
    SerialIffSettled(c, start, Initial(start, mono, wall), steps);
  }

  // From a migrated record only three entries can come apart.

  /** The end of a locked check, entry by entry. */
  predicate CheckSurvives(c: Config, record: State, file: State, mono: real, wall: real, copy: State) {
    if CoolingMono(copy, mono) then file == record else Survives(c, copy, record, mono, wall)
  }

  predicate SettlesByEntry(c: Config, start: State, y: System, step: Step) {
    match step
    case QuotaSave(_) => Settles(c, start, y, step)
    case SaveDecided(p) =>
      var a := At(y, p);
      a.Updated? ==> CheckSurvives(c, Record(c, start, y), y.file, a.mono, a.wall, a.copy)
    case _ => true
  }

  predicate AllSettleByEntry(c: Config, start: State, y: System, steps: seq<Step>)
    decreases |steps|
  {
    steps == []
    || (SettlesByEntry(c, start, y, steps[0]) && AllSettleByEntry(c, start, Apply(c, y, steps[0]), steps[1..]))
  }

  lemma SurvivesIff(c: Config, record: State, file: State, mono: real, wall: real, copy: State)
    requires Migrated(copy) && Migrated(record) && SameButQuota(copy, record)
    ensures CheckSettles(c, record, file, mono, wall, copy) <==> CheckSurvives(c, record, file, mono, wall, copy)
  {
    DecideSame(c, copy, record, mono, wall);
    if !CoolingMono(copy, mono) {
      SameOutcomeIff(c, copy, record, mono, wall);
    }
  }

  predicate Copied(a: Progress) {
    a.Loaded? || a.Updated? || a.QuotaLoaded?
  }

  /** All copies are migrated, and that of a locked check differs from the serial record only in what quota checks
      change. */
  ghost predicate Tracks(c: Config, start: State, y: System) {
    && Migrated(y.file) && Migrated(Record(c, start, y))
    && (forall p | p in y.at && Copied(y.at[p]) :: Migrated(y.at[p].copy))
    && (Checking(y) ==> SameButQuota(At(y, y.lock.value).copy, Record(c, start, y)))
  }

  lemma UnfinishedTracks(c: Config, start: State, y: System, step: Step)
    requires Exclusive(y) && Serial(c, start, y) && Tracks(c, start, y)
    requires !(step.QuotaSave? && At(y, step.who).QuotaLoaded?)
    requires !(step.SaveDecided? && At(y, step.who).Updated?)
    ensures Tracks(c, start, Apply(c, y, step))
  {
    UnfinishedStep(c, y, step);
  }

  lemma QuotaSaveTracks(c: Config, start: State, y: System, p: Caller)
    requires Exclusive(y) && Tracks(c, start, y) && At(y, p).QuotaLoaded?
    ensures Tracks(c, start, Apply(c, y, QuotaSave(p)))
  {
    var a, z := At(y, p), Apply(c, y, QuotaSave(p));
    QuotaSaveSeen(c, y, p);
    QuotaStepKeepsCycles(c, a.copy, a.now);
    RecordTracks(c, start, y, p);
    forall q | q in z.at && Copied(z.at[q]) ensures Migrated(z.at[q].copy) {
      assert q != p && z.at[q] == y.at[q];
    }
    if Checking(y) {
      assert y.lock.value != p && At(z, z.lock.value) == At(y, y.lock.value);
      SameButQuotaTrans(At(y, y.lock.value).copy, Record(c, start, y), Record(c, start, z));
    }
  }

  lemma RecordTracks(c: Config, start: State, y: System, p: Caller)
    requires Exclusive(y) && At(y, p).QuotaLoaded? && Migrated(Record(c, start, y))
    ensures var z := Apply(c, y, QuotaSave(p));
      Migrated(Record(c, start, z)) && SameButQuota(Record(c, start, y), Record(c, start, z))
  {
    var a, record := At(y, p), Record(c, start, y);
    QuotaSaveSeen(c, y, p);
    SerialAppend(c, start, y.log, QuotaCall(a.now, QuotaStep(c, a.copy, a.now).1));
    QuotaStepKeepsCycles(c, record, a.now);
    QuotaStepChanges(c, record, a.now);
  }

  lemma SameButQuotaTrans(s: State, q: State, r: State)
    requires SameButQuota(s, q) && SameButQuota(q, r)
    ensures SameButQuota(s, r)
  {
    forall k: Key | k !in {MutationStart, MutationCount, CooldownUntil} ensures SameKey(r, s, k) {
      assert SameKey(q, s, k) && SameKey(r, q, k);
    }
  }

  lemma CheckEndTracks(c: Config, start: State, y: System, p: Caller)
    requires Exclusive(y) && Tracks(c, start, y) && At(y, p).Updated?
    ensures Tracks(c, start, Apply(c, y, SaveDecided(p)))
  {
    var a := At(y, p);
    CheckEndSeen(c, y, p);
    SerialAppend(c, start, y.log, CycleCall(a.mono, a.wall, Decide(c, a.copy, a.mono, a.wall).1));
    DecideStaysMigrated(c, a.copy, a.mono, a.wall);
    DecideStaysMigrated(c, Migrate(Record(c, start, y), a.mono, a.wall), a.mono, a.wall);
  }

  lemma DecideStaysMigrated(c: Config, m: State, mono: real, wall: real)
    requires Migrated(m)
    ensures Migrated(Decide(c, m, mono, wall).0)
  {
  }

  lemma StepTracks(c: Config, start: State, y: System, step: Step)
    requires Exclusive(y) && Serial(c, start, y) && Tracks(c, start, y)
    ensures Tracks(c, start, Apply(c, y, step))
  {
    if step.QuotaSave? && At(y, step.who).QuotaLoaded? {
      QuotaSaveTracks(c, start, y, step.who);
    } else if step.SaveDecided? && At(y, step.who).Updated? {
      CheckEndTracks(c, start, y, step.who);
    } else {
      UnfinishedTracks(c, start, y, step);
    }
  }

  lemma SettlesIffByEntry(c: Config, start: State, y: System, step: Step)
    requires Exclusive(y) && Tracks(c, start, y)
    ensures Settles(c, start, y, step) <==> SettlesByEntry(c, start, y, step)
  {
    if step.SaveDecided? && At(y, step.who).Updated? {
      var a := At(y, step.who);
      assert y.lock == Some(step.who);
      SurvivesIff(c, Record(c, start, y), y.file, a.mono, a.wall, a.copy);
    }
  }

  lemma {:induction false} SerialIffByEntry(c: Config, start: State, y: System, steps: seq<Step>)
    requires Exclusive(y) && Serial(c, start, y) && Tracks(c, start, y)
    ensures AlwaysSerial(c, start, y, steps) <==> AllSettleByEntry(c, start, y, steps)
    decreases |steps|
  {
    if steps != [] {
      StepSettles(c, start, y, steps[0]);
      SettlesIffByEntry(c, start, y, steps[0]);
      StepKeepsExclusive(c, y, steps[0]);
      StepTracks(c, start, y, steps[0]);
      if Serial(c, start, Apply(c, y, steps[0])) {
        SerialIffByEntry(c, start, Apply(c, y, steps[0]), steps[1..]);
      }
    }
  }

  /** From a migrated record the decisions of locked checks need no condition, however many quota saves fall into them:
      the run is serial at every point if and only if each quota save settles, and what the quota checks did to the
      three entries survives each locked check. */
  lemma MigratedRunIsSerialIff(c: Config, start: State, mono: real, wall: real, steps: seq<Step>)
    requires Migrated(start)
    ensures AlwaysSerial(c, start, Initial(start, mono, wall), steps) <==>
            AllSettleByEntry(c, start, Initial(start, mono, wall), steps)
  {
    SerialIffByEntry(c, start, Initial(start, mono, wall), steps);
  }
}
