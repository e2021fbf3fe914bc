/** What the unlocked quota check of the adapter can spoil, and exactly when. */
module BeastStale {
  import opened BeastMode
  import opened BeastAdapter
  import opened BeastSerial
  import opened BeastInterleaving
  import opened Wrappers

  predicate SameKey(a: State, b: State, k: Key) {
    (k in a <==> k in b) && (k in a ==> a[k] == b[k])
  }

  lemma EqualIfSameKeys(a: State, b: State)
    requires forall k: Key :: SameKey(a, b, k)
    ensures a == b
  {
    assert forall k: Key :: k in a <==> k in b by {
      forall k: Key ensures k in a <==> k in b { assert SameKey(a, b, k); }
    }
    forall k | k in a ensures a[k] == b[k] { assert SameKey(a, b, k); }
  }

  // Executing steps one by one.

  lemma ExecuteFirst(c: Config, y: System, step: Step, rest: seq<Step>)
    ensures Execute(c, y, [step] + rest) == Execute(c, Apply(c, y, step), rest)
  {
    assert ([step] + rest)[1..] == rest;
  }

  lemma {:induction false} ExecuteConcat(c: Config, y: System, s: seq<Step>, t: seq<Step>)
    ensures Execute(c, y, s + t) == Execute(c, Execute(c, y, s), t)
    decreases |s|
  {
    if s == [] {
      assert s + t == t;
    } else {
      assert (s + t)[1..] == s[1..] + t;
      ExecuteConcat(c, Apply(c, y, s[0]), s[1..], t);
    }
  }

  lemma ExecuteOne(c: Config, y: System, step: Step)
    ensures Execute(c, y, [step]) == Apply(c, y, step)
  {
    assert [step] + [] == [step];
    ExecuteFirst(c, y, step, []);
  }

  // When a stale copy makes a difference to the quota check.

  predicate Spent(c: Config, s: State) {
    c.mutationQuota > 0 && Get(s, MutationCount) >= c.mutationQuota as real
  }

  function Refreshed(c: Config, s: State, now: real): State {
    RefreshWindow(s, MutationStart, MutationCount, c.mutationWindow, now)
  }

  /** With their mutation windows refreshed, both records have or have not spent the quota, and differ at most in the
      entry that the check is about to overwrite. */
  predicate Alike(c: Config, a: State, b: State, now: real) {
    var r, t := Refreshed(c, a, now), Refreshed(c, b, now);
    && (Spent(c, r) <==> Spent(c, t))
    && (forall k: Key :: k != MutationCount && k != CooldownUntil ==> SameKey(r, t, k))
    && if Spent(c, r) then SameKey(r, t, MutationCount)
       else Get(r, MutationCount) == Get(t, MutationCount) && SameKey(r, t, CooldownUntil)
  }

  /** A quota check from a stale copy comes out as from the file, decision and record, if and only if the two are
      alike. */
  lemma StaleCopyMattersIff(c: Config, a: State, b: State, now: real)
    ensures QuotaStep(c, a, now) == QuotaStep(c, b, now) <==> Alike(c, a, b, now)
  {
    var (sa, da) := QuotaStep(c, a, now);
    var (sb, db) := QuotaStep(c, b, now);
    if Alike(c, a, b, now) {
      forall k: Key ensures SameKey(sa, sb, k) {
        AfterQuota(c, a, now, k);
        AfterQuota(c, b, now, k);
        assert k != MutationCount && k != CooldownUntil ==> SameKey(Refreshed(c, a, now), Refreshed(c, b, now), k);
      }
      EqualIfSameKeys(sa, sb);
    }
    if (sa, da) == (sb, db) {
      forall k: Key | k != MutationCount && k != CooldownUntil
        ensures SameKey(Refreshed(c, a, now), Refreshed(c, b, now), k)
      {
        AfterQuota(c, a, now, k);
        AfterQuota(c, b, now, k);
      }
      AfterQuota(c, a, now, MutationCount);
      AfterQuota(c, b, now, MutationCount);
      AfterQuota(c, a, now, CooldownUntil);
      AfterQuota(c, b, now, CooldownUntil);
    }
  }

  lemma AfterQuota(c: Config, s: State, now: real, k: Key)
    ensures var r, (q, d) := Refreshed(c, s, now), QuotaStep(c, s, now);
      && (d == Admitted <==> !Spent(c, r)) && (d == Throttled(MutationQuotaSpent) <==> Spent(c, r))
      && (k != MutationCount && k != CooldownUntil ==> SameKey(q, r, k))
      && (if Spent(c, r) then
            SameKey(q, r, MutationCount) && CooldownUntil in q && q[CooldownUntil] == now + c.cooldown as real
          else SameKey(q, r, CooldownUntil) && MutationCount in q && q[MutationCount] == Get(r, MutationCount) + 1.0)
  {
  }

  /** A copy that misses an admitted cycle is never up to date, and saving it takes the cycle back. */
  lemma StaleCopyLosesCycles(c: Config, copy: State, file: State, now: real)
    requires Get(copy, CycleCount) != Get(file, CycleCount)
    ensures QuotaStep(c, copy, now) != QuotaStep(c, file, now)
    ensures Get(QuotaStep(c, copy, now).0, CycleCount) == Get(copy, CycleCount)
  {
    QuotaStepKeepsCycles(c, copy, now);
    QuotaStepKeepsCycles(c, file, now);
  }

  // A quota save in the middle of a locked check.

  predicate WallExpired(c: Config, s: State, now: real) {
    Get(s, MutationStart) <= 0.0 || now - Get(s, MutationStart) >= c.mutationWindow as real
  }

  predicate MonoExpired(c: Config, s: State, mono: real) {
    Get(s, MutationStartMono) <= 0.0 || mono - Get(s, MutationStartMono) >= c.mutationWindow as real
  }

  /** The file after a locked check that loaded `s` and a quota check on the same record that saved in between: the
      check saves its own copy, unless it is cooling down and saves nothing. */
  function Overlapped(c: Config, s: State, now: real, mono: real, wall: real): State {
    var (f, d) := LockedStep(c, s, mono, wall);
    if d == Throttled(CoolingDown) then QuotaStep(c, s, now).0 else f
  }

  /** The locked check on `s` leaves of the three entries that quota checks change what it would leave of those in
      `q`: they are the same, or it overwrites them anyway. */
  predicate Survives(c: Config, s: State, q: State, mono: real, wall: real) {
    && SameKey(s, q, MutationStart)
    && (MonoExpired(c, s, mono) || SameKey(s, q, MutationCount))
    && (Decide(c, s, mono, wall).1 == Throttled(CycleBudgetSpent) || SameKey(s, q, CooldownUntil))
  }

  /** The quota check's changes survive the locked check, or the locked check makes them all itself. */
  predicate Harmless(c: Config, s: State, now: real, mono: real, wall: real) {
    || LockedStep(c, s, mono, wall).1 == Throttled(CoolingDown)
    || Survives(c, s, QuotaStep(c, s, now).0, mono, wall)
  }

  /** The records differ at most in the entries that quota checks change. */
  ghost predicate SameButQuota(s: State, q: State) {
    forall k: Key :: k !in {MutationStart, MutationCount, CooldownUntil} ==> SameKey(q, s, k)
  }

  lemma QuotaStepChanges(c: Config, s: State, now: real)
    ensures SameButQuota(s, QuotaStep(c, s, now).0)
  {
    QuotaStepKeepsCycles(c, s, now);
  }

  lemma DecideKeys(c: Config, s: State, mono: real, wall: real)
    requires Migrated(s) && !CoolingMono(s, mono)
    ensures var (f, d) := Decide(c, s, mono, wall);
      && SameKey(f, s, MutationStart)
      && (if MonoExpired(c, s, mono) then MutationCount in f && f[MutationCount] == 0.0
          else SameKey(f, s, MutationCount))
      && (d == Throttled(CycleBudgetSpent) ==> CooldownUntil in f && f[CooldownUntil] == wall + c.cooldown as real)
      && (d != Throttled(CycleBudgetSpent) ==> SameKey(f, s, CooldownUntil))
  {
  }

  lemma DecideSame(c: Config, s: State, q: State, mono: real, wall: real)
    requires Migrated(s) && Migrated(q) && SameButQuota(s, q)
    ensures Decide(c, q, mono, wall).1 == Decide(c, s, mono, wall).1 && CoolingMono(q, mono) == CoolingMono(s, mono)
    ensures SameButQuota(Decide(c, s, mono, wall).0, Decide(c, q, mono, wall).0)
    ensures MonoExpired(c, q, mono) == MonoExpired(c, s, mono)
  {
    assert SameKey(q, s, CycleStartMono) && SameKey(q, s, CycleCount) && SameKey(q, s, CooldownUntilMono);
    assert SameKey(q, s, MutationStartMono);
    forall k: Key | k !in {MutationStart, MutationCount, CooldownUntil}
      ensures SameKey(Decide(c, q, mono, wall).0, Decide(c, s, mono, wall).0, k)
    {
      assert SameKey(q, s, k);
    }
  }

  /** On a migrated record, a quota save that falls into a locked check never changes its decision, and leaves the
      record of running the two one after the other if and only if it is harmless. */
  lemma QuotaSaveInsideCheckIff(c: Config, s: State, now: real, mono: real, wall: real)
    requires Migrated(s)
    ensures var (serial, d) := LockedStep(c, QuotaStep(c, s, now).0, mono, wall);
      && d == LockedStep(c, s, mono, wall).1
      && (Overlapped(c, s, now, mono, wall) == serial <==> Harmless(c, s, now, mono, wall))
  {
    var q := QuotaStep(c, s, now).0;
    QuotaStepKeepsCycles(c, s, now);
    QuotaStepChanges(c, s, now);
    DecideSame(c, s, q, mono, wall);
    if !CoolingMono(s, mono) {
      SameOutcomeIff(c, s, q, mono, wall);
    }
  }

  lemma SameOutcomeIff(c: Config, s: State, q: State, mono: real, wall: real)
    requires Migrated(s) && Migrated(q) && !CoolingMono(s, mono) && SameButQuota(s, q)
    ensures Decide(c, s, mono, wall).0 == Decide(c, q, mono, wall).0 <==> Survives(c, s, q, mono, wall)
  {
    var f, g := Decide(c, s, mono, wall).0, Decide(c, q, mono, wall).0;
    DecideSame(c, s, q, mono, wall);
    DecideKeys(c, s, mono, wall);
    DecideKeys(c, q, mono, wall);
    if Survives(c, s, q, mono, wall) {
      forall k: Key ensures SameKey(f, g, k) {
        assert k !in {MutationStart, MutationCount, CooldownUntil} ==> SameKey(g, f, k);
      }
      EqualIfSameKeys(f, g);
    }
    if f == g {
      assert SameKey(f, g, MutationStart) && SameKey(f, g, MutationCount) && SameKey(f, g, CooldownUntil);
    }
  }

  /** An admitted mutation that falls into a locked check leaves the serial record only if that check is cooling down,
      or empties the mutation count anyway in a mutation window that the quota check did not open itself. */
  lemma AdmittedMutationInsideCheck(c: Config, s: State, now: real, mono: real, wall: real)
    requires Migrated(s) && QuotaStep(c, s, now).1 == Admitted && now > 0.0 && c.mutationWindow > 0
    ensures Overlapped(c, s, now, mono, wall) == LockedStep(c, QuotaStep(c, s, now).0, mono, wall).0 <==>
            || LockedStep(c, s, mono, wall).1 == Throttled(CoolingDown)
            || (!WallExpired(c, s, now) && MonoExpired(c, s, mono))
  {
    QuotaSaveInsideCheckIff(c, s, now, mono, wall);
    AdmittedHarmlessIff(c, s, now, mono, wall);
  }

  lemma AdmittedHarmlessIff(c: Config, s: State, now: real, mono: real, wall: real)
    requires Migrated(s) && QuotaStep(c, s, now).1 == Admitted && now > 0.0 && c.mutationWindow > 0
    ensures Harmless(c, s, now, mono, wall) <==>
            || LockedStep(c, s, mono, wall).1 == Throttled(CoolingDown)
            || (!WallExpired(c, s, now) && MonoExpired(c, s, mono))
  {
  }

  /** Caller `p` takes the lock, reads the clocks and loads; time passes; then `q` checks the quota from beginning to
      end; then `p` finishes. */
  function OverlapSteps(p: Caller, q: Caller, later: real, now: real): seq<Step> {
    [Acquire(p), ReadClocks(p), Load(p), Tick(later, now)]
    + ([QuotaClock(q), QuotaLoad(q), QuotaSave(q)] + [SaveMigrated(p), SaveDecided(p)])
  }

  lemma BeginsCheck(c: Config, file: State, mono: real, wall: real, p: Caller, later: real, now: real)
    requires later >= mono
    ensures Execute(c, Initial(file, mono, wall), [Acquire(p), ReadClocks(p), Load(p), Tick(later, now)])
         == System(file, Some(p), map[p := Loaded(mono, wall, file)], later, now, [])
  {
    var y := Initial(file, mono, wall);
    var y1 := Apply(c, y, Acquire(p));
    var y2 := Apply(c, y1, ReadClocks(p));
    var y3 := Apply(c, y2, Load(p));
    ExecuteFirst(c, y, Acquire(p), [ReadClocks(p), Load(p), Tick(later, now)]);
    ExecuteFirst(c, y1, ReadClocks(p), [Load(p), Tick(later, now)]);
    ExecuteFirst(c, y2, Load(p), [Tick(later, now)]);
    ExecuteOne(c, y3, Tick(later, now));
  }

  lemma ChecksQuota(c: Config, y: System, q: Caller)
    requires At(y, q).Outside?
    ensures var z := Execute(c, y, [QuotaClock(q), QuotaLoad(q), QuotaSave(q)]);
      var (s, d) := QuotaStep(c, y.file, y.wall);
      && z.file == s && z.log == y.log + [QuotaCall(y.wall, d)] && forall p | p != q :: At(z, p) == At(y, p)
  {
    var y1 := Apply(c, y, QuotaClock(q));
    var y2 := Apply(c, y1, QuotaLoad(q));
    ExecuteFirst(c, y, QuotaClock(q), [QuotaLoad(q), QuotaSave(q)]);
    ExecuteFirst(c, y1, QuotaLoad(q), [QuotaSave(q)]);
    ExecuteOne(c, y2, QuotaSave(q));
  }

  lemma EndsCheck(c: Config, y: System, p: Caller, mono: real, wall: real, copy: State)
    requires At(y, p) == Loaded(mono, wall, copy) && Migrated(copy)
    ensures var z := Execute(c, y, [SaveMigrated(p), SaveDecided(p)]);
      var (s, d) := LockedStep(c, copy, mono, wall);
      && z.file == (if d == Throttled(CoolingDown) then y.file else s) && z.log == y.log + [CycleCall(mono, wall, d)]
  {
    ExecuteFirst(c, y, SaveMigrated(p), [SaveDecided(p)]);
    ExecuteOne(c, Apply(c, y, SaveMigrated(p)), SaveDecided(p));
  }

  /** So the steps of a quota check inside a locked check of a migrated record end. */
  lemma OverlapRuns(
    c: Config, file: State, mono: real, wall: real, p: Caller, q: Caller, later: real, now: real)
    requires Migrated(file) && p != q && later >= mono
    ensures var y := Execute(c, Initial(file, mono, wall), OverlapSteps(p, q, later, now));
      && y.file == Overlapped(c, file, now, mono, wall)
      && y.log == [QuotaCall(now, QuotaStep(c, file, now).1), CycleCall(mono, wall, LockedStep(c, file, mono, wall).1)]
  {
    var y := Initial(file, mono, wall);
    var begin := [Acquire(p), ReadClocks(p), Load(p), Tick(later, now)];
    var quota, end := [QuotaClock(q), QuotaLoad(q), QuotaSave(q)], [SaveMigrated(p), SaveDecided(p)];
    BeginsCheck(c, file, mono, wall, p, later, now);
    var y1 := System(file, Some(p), map[p := Loaded(mono, wall, file)], later, now, []);
    ChecksQuota(c, y1, q);
    var y2 := Execute(c, y1, quota);
    assert At(y1, p) == Loaded(mono, wall, file);
    EndsCheck(c, y2, p, mono, wall, file);
    ExecuteConcat(c, y, begin, quota + end);
    ExecuteConcat(c, y1, quota, end);
  }

  // A stale quota save after a locked check takes an admitted cycle back.

  /** A whole locked check of one caller, undisturbed. */
  function CheckSteps(p: Caller): seq<Step> {
    [Acquire(p)] + ([ReadClocks(p)] + ([Load(p)] + ([SaveMigrated(p)] + ([SaveDecided(p)] + [Release(p)]))))
  }

  lemma CheckRuns(c: Config, y: System, p: Caller)
    requires y.lock.None? && At(y, p).Outside?
    ensures var z := Execute(c, y, CheckSteps(p));
      var (s, d) := LockedStep(c, y.file, y.mono, y.wall);
      && z.file == s && z.lock == None && z.log == y.log + [CycleCall(y.mono, y.wall, d)]
      && (z.mono, z.wall) == (y.mono, y.wall) && forall q | q != p :: At(z, q) == At(y, q)
  {
    var y1 := Apply(c, y, Acquire(p));
    var y2 := Apply(c, y1, ReadClocks(p));
    var y3 := Apply(c, y2, Load(p));
    var y4 := Apply(c, y3, SaveMigrated(p));
    var y5 := Apply(c, y4, SaveDecided(p));
    FirstHalf(c, y, p);
    ExecuteFirst(c, y, Acquire(p),
                 [ReadClocks(p)] + ([Load(p)] + ([SaveMigrated(p)] + ([SaveDecided(p)] + [Release(p)]))));
    ExecuteFirst(c, y1, ReadClocks(p), [Load(p)] + ([SaveMigrated(p)] + ([SaveDecided(p)] + [Release(p)])));
    ExecuteFirst(c, y2, Load(p), [SaveMigrated(p)] + ([SaveDecided(p)] + [Release(p)]));
    ExecuteFirst(c, y3, SaveMigrated(p), [SaveDecided(p)] + [Release(p)]);
    ExecuteFirst(c, y4, SaveDecided(p), [Release(p)]);
    assert [Release(p)] + [] == [Release(p)];
    ExecuteFirst(c, y5, Release(p), []);
  }

  lemma FirstHalf(c: Config, y: System, p: Caller)
    requires y.lock.None? && At(y, p).Outside?
    ensures var y4 :=
        Apply(c, Apply(c, Apply(c, Apply(c, y, Acquire(p)), ReadClocks(p)), Load(p)), SaveMigrated(p));
      var m := Migrate(y.file, y.mono, y.wall);
      && y4.file == m && y4.lock == Some(p) && At(y4, p) == Updated(y.mono, y.wall, m)
      && y4.log == y.log && (y4.mono, y4.wall) == (y.mono, y.wall) && forall q | q != p :: At(y4, q) == At(y, q)
  {
  }

  function ErasingSteps(p: Caller, q: Caller): seq<Step> {
    [QuotaClock(q)] + ([QuotaLoad(q)] + (CheckSteps(p) + [QuotaSave(q)]))
  }

  lemma LoadEarly(c: Config, file: State, mono: real, wall: real, p: Caller, q: Caller)
    requires p != q
    ensures var y := Apply(c, Apply(c, Initial(file, mono, wall), QuotaClock(q)), QuotaLoad(q));
      && At(y, q) == QuotaLoaded(wall, file) && At(y, p) == Outside && y.file == file && y.log == [] && y.lock == None
      && (y.mono, y.wall) == (mono, wall)
  {
  }

  lemma SaveLate(c: Config, y: System, q: Caller, now: real, copy: State)
    requires At(y, q) == QuotaLoaded(now, copy)
    ensures var z := Apply(c, y, QuotaSave(q));
      var (s, d) := QuotaStep(c, copy, now);
      && z.file == s && z.lock == y.lock && z.log == y.log + [QuotaCall(now, d)]
      && Get(z.file, CycleCount) == Get(copy, CycleCount)
  {
    QuotaStepKeepsCycles(c, copy, now);
  }

  /** From every record that admits a cycle: if another caller loads before that check and saves its quota check
      after it, the file ends as if the cycle had never been. */
  lemma StaleQuotaSaveErasesCycle(c: Config, file: State, mono: real, wall: real, p: Caller, q: Caller)
    requires p != q && LockedStep(c, file, mono, wall).1 == Admitted
    ensures var y := Execute(c, Initial(file, mono, wall), ErasingSteps(p, q));
      var d := QuotaStep(c, file, wall).1;
      && y.lock == None && y.log == [CycleCall(mono, wall, Admitted), QuotaCall(wall, d)]
      && y.file == QuotaStep(c, file, wall).0 && Get(y.file, CycleCount) == Get(file, CycleCount)
  {
    var y0 := Initial(file, mono, wall);
    var y1 := Apply(c, y0, QuotaClock(q));
    var y2 := Apply(c, y1, QuotaLoad(q));
    LoadEarly(c, file, mono, wall, p, q);
    CheckRuns(c, y2, p);
    var y3 := Execute(c, y2, CheckSteps(p));
    SaveLate(c, y3, q, wall, file);
    ExecuteFirst(c, y0, QuotaClock(q), [QuotaLoad(q)] + (CheckSteps(p) + [QuotaSave(q)]));
    ExecuteFirst(c, y1, QuotaLoad(q), CheckSteps(p) + [QuotaSave(q)]);
    ExecuteConcat(c, y2, CheckSteps(p), [QuotaSave(q)]);
    ExecuteOne(c, y3, QuotaSave(q));
  }

  // Any number of stale quota checks are all admitted.

  /** Callers 0 to k - 1 read the clock and load. */
  function LoadAll(k: nat): seq<Step> {
    if k == 0 then [] else LoadAll(k - 1) + [QuotaClock(k - 1), QuotaLoad(k - 1)]
  }

  function SaveAll(k: nat): seq<Step> {
    if k == 0 then [] else SaveAll(k - 1) + [QuotaSave(k - 1)]
  }

  /** Callers from `lo` to `hi` hold a copy of the record. */
  ghost predicate Waiting(y: System, lo: nat, hi: nat, wall: real, copy: State) {
    && (forall p {:trigger At(y, p)} | lo <= p < hi :: At(y, p) == QuotaLoaded(wall, copy))
    && (forall p {:trigger At(y, p)} | hi <= p :: At(y, p) == Outside)
  }

  lemma LoadOne(c: Config, y: System, p: Caller, lo: nat, wall: real, copy: State)
    requires Waiting(y, lo, p, wall, copy) && lo <= p && y.file == copy && y.wall == wall
    ensures var z := Execute(c, y, [QuotaClock(p), QuotaLoad(p)]);
      Waiting(z, lo, p + 1, wall, copy) && z.file == y.file && z.wall == y.wall && z.log == y.log
  {
    var clock, load := QuotaClock(p), QuotaLoad(p);
    assert [clock, load] == [clock] + [load] && At(y, p) == Outside;
    ExecuteFirst(c, y, clock, [load]);
    ExecuteOne(c, Apply(c, y, clock), load);
    var z := Execute(c, y, [clock, load]);
    forall q | q != p ensures At(z, q) == At(y, q) {
    }
  }

  lemma SaveOne(c: Config, y: System, p: Caller, hi: nat, wall: real, copy: State)
    requires Waiting(y, p, hi, wall, copy) && p < hi
    ensures var z := Apply(c, y, QuotaSave(p));
      var (s, d) := QuotaStep(c, copy, wall);
      Waiting(z, p + 1, hi, wall, copy) && z.file == s && z.log == y.log + [QuotaCall(wall, d)]
  {
    assert At(y, p) == QuotaLoaded(wall, copy);
    var z := Apply(c, y, QuotaSave(p));
    forall q | q != p ensures At(z, q) == At(y, q) {
    }
  }

  lemma {:induction false} LoadAllRuns(c: Config, file: State, mono: real, wall: real, k: nat)
    ensures var y := Execute(c, Initial(file, mono, wall), LoadAll(k));
      Waiting(y, 0, k, wall, file) && y.file == file && y.wall == wall && y.log == []
  {
    if k > 0 {
      var y0 := Initial(file, mono, wall);
      var y := Execute(c, y0, LoadAll(k - 1));
      LoadAllRuns(c, file, mono, wall, k - 1);
      ExecuteConcat(c, y0, LoadAll(k - 1), [QuotaClock(k - 1), QuotaLoad(k - 1)]);
      LoadOne(c, y, k - 1, 0, wall, file);
    }
  }

  lemma {:induction false} SaveAllRuns(c: Config, y: System, k: nat, n: nat, wall: real, copy: State)
    requires n <= k && Waiting(y, 0, k, wall, copy) && y.log == []
    ensures var z := Execute(c, y, SaveAll(n));
      var (s, d) := QuotaStep(c, copy, wall);
      && Waiting(z, n, k, wall, copy) && |z.log| == n && (forall i | 0 <= i < n :: z.log[i] == QuotaCall(wall, d))
      && (n > 0 ==> z.file == s)
    decreases n
  {
    if n > 0 {
      SaveAllRuns(c, y, k, n - 1, wall, copy);
      ExecuteConcat(c, y, SaveAll(n - 1), [QuotaSave(n - 1)]);
      ExecuteOne(c, Execute(c, y, SaveAll(n - 1)), QuotaSave(n - 1));
      SaveOne(c, Execute(c, y, SaveAll(n - 1)), n - 1, k, wall, copy);
    }
  }

  /** From every record that admits one more mutation, and for every k: k callers that all load before the first of
      them saves are all admitted, and the saved count shows only one of them. */
  lemma StaleQuotaChecksAdmitAny(c: Config, file: State, mono: real, wall: real, k: nat)
    requires QuotaStep(c, file, wall).1 == Admitted && k > 0
    ensures var y := Execute(c, Initial(file, mono, wall), LoadAll(k) + SaveAll(k));
      && |y.log| == k && (forall i | 0 <= i < k :: y.log[i] == QuotaCall(wall, Admitted))
      && y.file == QuotaStep(c, file, wall).0
  {
    var y0 := Initial(file, mono, wall);
    LoadAllRuns(c, file, mono, wall, k);
    SaveAllRuns(c, Execute(c, y0, LoadAll(k)), k, k, wall, file);
    ExecuteConcat(c, y0, LoadAll(k), SaveAll(k));
  }
}
