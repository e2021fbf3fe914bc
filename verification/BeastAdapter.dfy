/** The legacy compatibility adapter of `app/beast_mode_loop.py`: the cycle check runs on a
    monotonic clock, migrates old records, and holds an exclusive file lock.  The quota check
    is inherited, runs on the wall clock and takes no lock. */
module BeastAdapter {
  import opened BeastMode

  function MigrateStart(s: State, wallKey: Key, monoKey: Key, mono: real, wall: real): State {
    if monoKey in s then s
    else s[monoKey := if Get(s, wallKey) > 0.0 then mono + (Get(s, wallKey) - wall) else 0.0]
  }

  function Migrate(s: State, mono: real, wall: real): (m: State)
    ensures Migrated(m)
    ensures Migrated(s) ==> m == s
    ensures Get(m, CycleCount) == Get(s, CycleCount)
  {
    var s1 := MigrateStart(s, CycleStart, CycleStartMono, mono, wall);
    var s2 := MigrateStart(s1, MutationStart, MutationStartMono, mono, wall);
    if CooldownUntilMono in s2 then s2
    else if Get(s2, CooldownUntil) > 0.0 then
      s2[CooldownUntilMono := mono + Max(0.0, Get(s2, CooldownUntil) - wall)]
    else s2[CooldownUntilMono := 0.0]
  }

  function Max(a: real, b: real): real { if a < b then b else a }

  predicate Migrated(s: State) {
    CycleStartMono in s && MutationStartMono in s && CooldownUntilMono in s
  }

  predicate CoolingMono(s: State, mono: real) {
    Get(s, CooldownUntilMono) != 0.0 && mono < Get(s, CooldownUntilMono)
  }

  /** The decision part of the locked check, on a migrated copy of the record. */
  function Decide(c: Config, m: State, mono: real, wall: real): (State, Decision) {
    if CoolingMono(m, mono) then (m, Throttled(CoolingDown))
    else
      var s1 := RefreshWindow(m, CycleStartMono, CycleCount, c.cycleWindow, mono);
      var s2 := RefreshWindow(s1, MutationStartMono, MutationCount, c.mutationWindow, mono);
      if c.cycleBudget > 0 && Get(s2, CycleCount) >= c.cycleBudget as real then
        (s2[CooldownUntilMono := mono + c.cooldown as real][CooldownUntil := wall + c.cooldown as real],
         Throttled(CycleBudgetSpent))
      else
        (s2[CycleCount := Get(s2, CycleCount) + 1.0], Admitted)
  }

  /** One whole call of the locked check, run alone. */
  function LockedStep(c: Config, s: State, mono: real, wall: real): (State, Decision) {
    Decide(c, Migrate(s, mono, wall), mono, wall)
  }

  class LegacyBeastModeAdapter {
    const config: Config
    var stored: State

    constructor (config: Config, stored: State)
      ensures this.config == config && this.stored == stored
    {
      this.config := config;
      this.stored := stored;
    }

    /** Fills in missing monotonic keys, saving the record only if one was missing. */
    method MigrateState(state: State, mono: real, wall: real) returns (m: State)
      requires state == stored
      modifies this
      ensures m == Migrate(state, mono, wall) && stored == m
    {
      m := state;
      var changed := false;
      if CycleStartMono !in m {
        m := MigrateStart(m, CycleStart, CycleStartMono, mono, wall);
        changed := true;
      }
      if MutationStartMono !in m {
        m := MigrateStart(m, MutationStart, MutationStartMono, mono, wall);
        changed := true;
      }
      if CooldownUntilMono !in m {
        var old_wall := Get(m, CooldownUntil);
        m := m[CooldownUntilMono := if old_wall > 0.0 then mono + Max(0.0, old_wall - wall) else 0.0];
        changed := true;
      }
      if changed {
        stored := m;
      }
    }

    /** The body between taking and releasing the lock. */
    method CheckLimits(mono: real, wall: real) returns (d: Decision)
      modifies this
      ensures (stored, d) == LockedStep(config, old(stored), mono, wall)
    {
      var state := stored;
      state := MigrateState(state, mono, wall);
      var cooldown := Get(state, CooldownUntilMono);
      if cooldown != 0.0 && mono < cooldown {
        return Throttled(CoolingDown);
      }
      state := RefreshWindow(state, CycleStartMono, CycleCount, config.cycleWindow, mono);
      state := RefreshWindow(state, MutationStartMono, MutationCount, config.mutationWindow, mono);
      if config.cycleBudget > 0 && Get(state, CycleCount) >= config.cycleBudget as real {
        state := state[CooldownUntilMono := mono + config.cooldown as real];
        state := state[CooldownUntil := wall + config.cooldown as real];
        stored := state;
        return Throttled(CycleBudgetSpent);
      }
      state := state[CycleCount := Get(state, CycleCount) + 1.0];
      stored := state;
      return Admitted;
    }
  }
}
