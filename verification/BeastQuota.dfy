/** The adapter's mutation quota in `app/beast_mode_loop.py`: one counter, reset by two windows kept on two clocks, by
    the cycle check on the monotonic clock and by the inherited quota check on the wall clock. */
module BeastQuota {
  import opened BeastMode
  import opened BeastAdapter
  import opened BeastSerial
  import opened BeastInterleaving

  /** A call at monotonic time `t`; the wall clock reads `t + offset`. */
  datatype MixedOp = CycleCheck(t: real) | QuotaCheck(t: real)

  function MixedStep(c: Config, s: State, op: MixedOp, offset: real): (State, Decision) {
    match op
    case CycleCheck(t) => LockedStep(c, s, t, t + offset)
    case QuotaCheck(t) => QuotaStep(c, s, t + offset)
  }

  function MixedAfter(c: Config, s: State, ops: seq<MixedOp>, offset: real): State
    decreases |ops|
  {
    if ops == [] then s else MixedAfter(c, MixedStep(c, s, ops[0], offset).0, ops[1..], offset)
  }

  /** An interval of the monotonic clock, with or without its upper end. */
  datatype Interval = Interval(lo: real, hi: real, closed: bool) {
    predicate Holds(t: real) { lo <= t && (t < hi || (closed && t == hi)) }

    /** Two readings in an interval of this kind and of length `x` are less than `y` apart. */
    predicate Within(x: real, y: real) { if closed then x < y else x <= y }
  }

  function Tally(c: Config, s: State, op: MixedOp, offset: real, span: Interval): nat {
    if op.QuotaCheck? && MixedStep(c, s, op, offset).1 == Admitted && span.Holds(op.t) then 1 else 0
  }

  /** Mutations admitted in the interval. */
  function QuotasIn(c: Config, s: State, ops: seq<MixedOp>, offset: real, span: Interval): nat
    decreases |ops|
  {
    if ops == [] then 0
    else Tally(c, s, ops[0], offset, span) + QuotasIn(c, MixedStep(c, s, ops[0], offset).0, ops[1..], offset, span)
  }

  /** Both clocks are positive, advance together and never go back. */
  ghost predicate InStep(ops: seq<MixedOp>, offset: real) {
    && (forall i | 0 <= i < |ops| :: ops[i].t > 0.0 && ops[i].t + offset > 0.0)
    && (forall i, j | 0 <= i < j < |ops| :: ops[i].t <= ops[j].t)
  }

  /** The window under `key` can be reset at most `k` more times in the interval. */
  ghost predicate ResetsLeft(s: State, key: Key, shift: real, k: nat, span: Interval, width: int) {
    || span.Within(span.hi - span.lo, k as real * width as real)
    || (key in s && s[key] > 0.0 && span.Within(span.hi + shift - s[key], (k + 1) as real * width as real))
  }

  lemma OneLess(k: int, w: real)
    ensures (k + 1) as real * w == k as real * w + w
  {
  }

  lemma ResetUsesOne(s: State, s': State, key: Key, shift: real, k: nat, t: real, span: Interval, width: int)
    requires width > 0 && span.Holds(t) && t + shift > 0.0
    requires ResetsLeft(s, key, shift, k, span, width)
    requires Get(s, key) <= 0.0 || t + shift - Get(s, key) >= width as real
    requires key in s' && s'[key] == t + shift
    ensures k >= 1 && ResetsLeft(s', key, shift, k - 1, span, width)
  {
    OneLess(k, width as real);
    var left := k as real * width as real;
    assert !span.Within(span.hi - span.lo, left) ==> span.Within(span.hi + shift - s[key], left + width as real);
    assert span.Within(span.hi - t, left);
    if k == 0 {
      assert false;
    }
  }

  /** Inside the interval: `m` counts admissions since the last reset from below, `a` resets remain to the monotonic
      window and `b` to the wall-clock window. */
  ghost predicate Inside(c: Config, s: State, offset: real, span: Interval, m: int, a: nat, b: nat) {
    && 0 <= m <= c.mutationQuota && m as real <= Get(s, MutationCount)
    && ResetsLeft(s, MutationStartMono, 0.0, a, span, c.mutationWindow)
    && ResetsLeft(s, MutationStart, offset, b, span, c.mutationWindow)
  }

  function AtMost(c: Config, m: int, k: nat): int { c.mutationQuota - m + k * c.mutationQuota }

  lemma OneResetLess(c: Config, m: int, k: nat)
    requires c.mutationQuota >= 1 && m <= c.mutationQuota && k >= 1
    ensures AtMost(c, 0, k - 1) <= AtMost(c, m, k)
  {
    Product(k, c.mutationQuota);
  }

  lemma Product(k: int, quota: int)
    ensures (k - 1) * quota + quota == k * quota
  {
  }

  lemma MigrateKeepsInside(c: Config, s: State, t: real, offset: real, span: Interval, m: int, a: nat, b: nat)
    requires Inside(c, s, offset, span, m, a, b)
    ensures Inside(c, Migrate(s, t, t + offset), offset, span, m, a, b)
  {
  }

  lemma CycleInside(c: Config, s: State, t: real, offset: real, span: Interval, m: int, a: nat, b: nat)
    returns (m': int, a': nat)
    requires c.mutationQuota >= 1 && c.mutationWindow > 0 && 0.0 < t && span.Holds(t)
    requires Inside(c, s, offset, span, m, a, b) && Migrated(s)
    ensures Inside(c, Decide(c, s, t, t + offset).0, offset, span, m', a', b)
    ensures AtMost(c, m', a' + b) <= AtMost(c, m, a + b)
  {
    m', a' := m, a;
    var s' := Decide(c, s, t, t + offset).0;
    if !CoolingMono(s, t)
       && (Get(s, MutationStartMono) <= 0.0 || t - Get(s, MutationStartMono) >= c.mutationWindow as real) {
      ResetUsesOne(s, s', MutationStartMono, 0.0, a, t, span, c.mutationWindow);
      m', a' := 0, a - 1;
      OneResetLess(c, m, a + b);
    }
  }

  lemma QuotaInside(c: Config, s: State, t: real, offset: real, span: Interval, m: int, a: nat, b: nat)
    returns (m': int, b': nat)
    requires c.mutationQuota >= 1 && c.mutationWindow > 0 && 0.0 < t + offset && span.Holds(t)
    requires Inside(c, s, offset, span, m, a, b)
    ensures var (s', d) := QuotaStep(c, s, t + offset);
      && Inside(c, s', offset, span, m', a, b')
      && (if d == Admitted then 1 else 0) + AtMost(c, m', a + b') <= AtMost(c, m, a + b)
  {
    m', b' := m, b;
    var (s', d) := QuotaStep(c, s, t + offset);
    if Get(s, MutationStart) <= 0.0 || t + offset - Get(s, MutationStart) >= c.mutationWindow as real {
      ResetUsesOne(s, s', MutationStart, offset, b, t, span, c.mutationWindow);
      m', b' := 0, b - 1;
      OneResetLess(c, m, a + b);
    }
    if d == Admitted {
      m' := m' + 1;
    }
  }

  lemma {:induction false} NoneAfter(c: Config, s: State, ops: seq<MixedOp>, offset: real, span: Interval)
    requires forall i | 0 <= i < |ops| :: !span.Holds(ops[i].t)
    ensures QuotasIn(c, s, ops, offset, span) == 0
    decreases |ops|
  {
    if ops != [] {
      NoneAfter(c, MixedStep(c, s, ops[0], offset).0, ops[1..], offset, span);
    }
  }

  lemma StepInside(c: Config, s: State, op: MixedOp, offset: real, span: Interval, m: int, a: nat, b: nat)
    returns (m': int, a': nat, b': nat)
    requires c.mutationQuota >= 1 && c.mutationWindow > 0
    requires 0.0 < op.t && 0.0 < op.t + offset && span.Holds(op.t)
    requires Inside(c, s, offset, span, m, a, b)
    ensures Inside(c, MixedStep(c, s, op, offset).0, offset, span, m', a', b')
    ensures Tally(c, s, op, offset, span) + AtMost(c, m', a' + b') <= AtMost(c, m, a + b)
  {
    m', a', b' := m, a, b;
    if op.CycleCheck? {
      MigrateKeepsInside(c, s, op.t, offset, span, m, a, b);
      m', a' := CycleInside(c, Migrate(s, op.t, op.t + offset), op.t, offset, span, m, a, b);
    } else {
      m', b' := QuotaInside(c, s, op.t, offset, span, m, a, b);
    }
  }

  lemma AtMostNonNegative(c: Config, m: int, k: nat)
    requires c.mutationQuota >= 1 && m <= c.mutationQuota
    ensures AtMost(c, m, k) >= 0
  {
    assert k * c.mutationQuota >= 0;
  }

  lemma {:induction false} RunInside(
    c: Config, s: State, ops: seq<MixedOp>, offset: real, span: Interval, m: int, a: nat, b: nat)
    requires c.mutationQuota >= 1 && c.mutationWindow > 0 && InStep(ops, offset)
    requires forall i | 0 <= i < |ops| :: span.lo <= ops[i].t
    requires Inside(c, s, offset, span, m, a, b)
    ensures QuotasIn(c, s, ops, offset, span) <= AtMost(c, m, a + b)
    decreases |ops|
  {
    AtMostNonNegative(c, m, a + b);
    if ops != [] {
      if !span.Holds(ops[0].t) {
        NoneAfter(c, s, ops, offset, span);
      } else {
        var m', a', b' := StepInside(c, s, ops[0], offset, span, m, a, b);
        RunInside(c, MixedStep(c, s, ops[0], offset).0, ops[1..], offset, span, m', a', b');
      }
    }
  }

  lemma CountStaysNonNegative(c: Config, s: State, op: MixedOp, offset: real)
    requires Get(s, MutationCount) >= 0.0
    ensures Get(MixedStep(c, s, op, offset).0, MutationCount) >= 0.0
  {
    if op.CycleCheck? {
      var s0 := Migrate(s, op.t, op.t + offset);
      assert Get(s0, MutationCount) == Get(s, MutationCount);
    }
  }

  lemma OddQuotas(k: nat, quota: nat)
    ensures (1 + k) * quota == quota + k * quota >= 0
  {
  }

  /** While the clocks advance together, `n` mutation windows without their last instant admit at most `2n + 1` quotas,
      one window at most three. */
  lemma {:induction false} AdapterMutationBound(
    c: Config, s: State, ops: seq<MixedOp>, offset: real, lo: real, hi: real, n: nat)
    requires c.mutationQuota >= 1 && c.mutationWindow > 0 && InStep(ops, offset)
    requires Get(s, MutationCount) >= 0.0
    requires hi - lo <= n as real * c.mutationWindow as real
    ensures QuotasIn(c, s, ops, offset, Interval(lo, hi, false)) <= (2 * n + 1) * c.mutationQuota
    decreases |ops|
  {
    OddQuotas(n + n, c.mutationQuota);
    assert 1 + (n + n) == 2 * n + 1;
    if ops != [] {
      if ops[0].t < lo {
        CountStaysNonNegative(c, s, ops[0], offset);
        AdapterMutationBound(c, MixedStep(c, s, ops[0], offset).0, ops[1..], offset, lo, hi, n);
      } else {
        RunInside(c, s, ops, offset, Interval(lo, hi, false), 0, n, n);
      }
    }
  }

  // With its last instant the interval admits one quota more.

  /** The first quota check in the interval finds the wall-clock window open, or opens it itself. */
  lemma FirstQuota(c: Config, s: State, t: real, offset: real, span: Interval, n: nat) returns (m: int)
    requires c.mutationQuota >= 1 && c.mutationWindow > 0 && 0.0 < t + offset && span.closed && span.Holds(t)
    requires Get(s, MutationCount) >= 0.0 && span.hi - span.lo <= n as real * c.mutationWindow as real
    ensures Inside(c, QuotaStep(c, s, t + offset).0, offset, span, m, n + 1, n)
    ensures Tally(c, s, QuotaCheck(t), offset, span) <= m
  {
    var (s', d) := QuotaStep(c, s, t + offset);
    m := if d == Admitted then 1 else 0;
    assert (n + 1) as real * c.mutationWindow as real
        == n as real * c.mutationWindow as real + c.mutationWindow as real;
    assert s'[MutationStart] == Get(s', MutationStart) > t + offset - c.mutationWindow as real;
  }

  lemma {:induction false} ClosedRun(
    c: Config, s: State, ops: seq<MixedOp>, offset: real, span: Interval, n: nat)
    requires c.mutationQuota >= 1 && c.mutationWindow > 0 && InStep(ops, offset) && span.closed
    requires Get(s, MutationCount) >= 0.0
    requires span.hi - span.lo <= n as real * c.mutationWindow as real
    ensures QuotasIn(c, s, ops, offset, span) <= AtMost(c, 0, n + 1 + n)
    decreases |ops|
  {
    AtMostNonNegative(c, 0, n + 1 + n);
    if ops != [] {
      var s' := MixedStep(c, s, ops[0], offset).0;
      if ops[0].QuotaCheck? && span.Holds(ops[0].t) {
        var m := FirstQuota(c, s, ops[0].t, offset, span, n);
        RunInside(c, s', ops[1..], offset, span, m, n + 1, n);
      } else {
        CountStaysNonNegative(c, s, ops[0], offset);
        ClosedRun(c, s', ops[1..], offset, span, n);
      }
    }
  }

  /** Counting both ends, `n` windows admit at most `2n + 2` quotas, one window at most four. */
  lemma ClosedMutationBound(
    c: Config, s: State, ops: seq<MixedOp>, offset: real, lo: real, hi: real, n: nat)
    requires c.mutationQuota >= 1 && c.mutationWindow > 0 && InStep(ops, offset)
    requires Get(s, MutationCount) >= 0.0
    requires hi - lo <= n as real * c.mutationWindow as real
    ensures QuotasIn(c, s, ops, offset, Interval(lo, hi, true)) <= (2 * n + 2) * c.mutationQuota
  {
    ClosedRun(c, s, ops, offset, Interval(lo, hi, true), n);
    OddQuotas(n + 1 + n, c.mutationQuota);
    assert 1 + (n + 1 + n) == 2 * n + 2;
  }

  // The closed bound is attained.

  /** `k` quota checks at one time. */
  function Quotas(t: real, k: nat): seq<MixedOp> {
    if k == 0 then [] else [QuotaCheck(t)] + Quotas(t, k - 1)
  }

  /** A quota of checks, a cycle check that resets the counter, and another quota of checks, all at one time. */
  function Round(t: real, quota: nat): seq<MixedOp> {
    Quotas(t, quota) + ([CycleCheck(t)] + Quotas(t, quota))
  }

  /** `k` rounds, the first at `t`, one window apart. */
  function Rounds(t: real, width: nat, quota: nat, k: nat): seq<MixedOp>
    decreases k
  {
    if k == 0 then [] else Round(t, quota) + Rounds(t + width as real, width, quota, k - 1)
  }

  lemma QuotasFirst(c: Config, s: State, op: MixedOp, rest: seq<MixedOp>, offset: real, span: Interval)
    ensures var s' := MixedStep(c, s, op, offset).0;
      && QuotasIn(c, s, [op] + rest, offset, span)
         == Tally(c, s, op, offset, span) + QuotasIn(c, s', rest, offset, span)
      && MixedAfter(c, s, [op] + rest, offset) == MixedAfter(c, s', rest, offset)
  {
    assert ([op] + rest)[1..] == rest;
  }

  lemma {:induction false} QuotasConcat(
    c: Config, s: State, ops: seq<MixedOp>, rest: seq<MixedOp>, offset: real, span: Interval)
    ensures var s' := MixedAfter(c, s, ops, offset);
      && QuotasIn(c, s, ops + rest, offset, span)
         == QuotasIn(c, s, ops, offset, span) + QuotasIn(c, s', rest, offset, span)
      && MixedAfter(c, s, ops + rest, offset) == MixedAfter(c, s', rest, offset)
    decreases |ops|
  {
    if ops == [] {
      assert ops + rest == rest;
    } else {
      assert (ops + rest)[1..] == ops[1..] + rest;
      QuotasConcat(c, MixedStep(c, s, ops[0], offset).0, ops[1..], rest, offset, span);
    }
  }

  /** A migrated record that never cooled, its two mutation windows and its mutation count. */
  ghost predicate Shows(s: State, mono: real, wall: real, count: nat) {
    && Migrated(s) && s[CooldownUntilMono] == 0.0
    && s[MutationStartMono] == mono && Get(s, MutationStart) == wall && Get(s, MutationCount) == count as real
  }

  lemma CycleResets(c: Config, s: State, t: real, offset: real, mono: real, wall: real, count: nat)
    requires c.cycleBudget <= 0 && Shows(s, mono, wall, count)
    requires mono <= 0.0 || t - mono >= c.mutationWindow as real
    ensures Shows(MixedStep(c, s, CycleCheck(t), offset).0, t, wall, 0)
  {
  }

  lemma QuotaAdmitted(c: Config, s: State, t: real, offset: real, mono: real, wall: real, count: nat)
    requires c.mutationQuota >= 1 && Shows(s, mono, wall, count)
    ensures var (s', d) := MixedStep(c, s, QuotaCheck(t), offset);
      if wall <= 0.0 || t + offset - wall >= c.mutationWindow as real then
        d == Admitted && Shows(s', mono, t + offset, 1)
      else
        count < c.mutationQuota ==> d == Admitted && Shows(s', mono, wall, count + 1)
  {
  }

  lemma {:induction false} QuotasAdmitted(
    c: Config, s: State, t: real, offset: real, span: Interval, mono: real, wall: real, count: nat, k: nat)
    requires span.Holds(t) && Shows(s, mono, wall, count)
    requires 0.0 < wall && t + offset - wall < c.mutationWindow as real
    requires c.mutationQuota >= 1 && count + k <= c.mutationQuota
    ensures QuotasIn(c, s, Quotas(t, k), offset, span) == k
    ensures Shows(MixedAfter(c, s, Quotas(t, k), offset), mono, wall, count + k)
    decreases k
  {
    if k > 0 {
      QuotaAdmitted(c, s, t, offset, mono, wall, count);
      QuotasFirst(c, s, QuotaCheck(t), Quotas(t, k - 1), offset, span);
      QuotasAdmitted(c, MixedStep(c, s, QuotaCheck(t), offset).0, t, offset, span, mono, wall, count + 1, k - 1);
    }
  }

  lemma RoundAdmits(
    c: Config, s: State, t: real, offset: real, span: Interval, mono: real, wall: real, count: nat)
    requires c.cycleBudget <= 0 && c.mutationQuota >= 1 && c.mutationWindow > 0
    requires 0.0 < t + offset && span.Holds(t) && Shows(s, mono, wall, count)
    requires t - mono >= c.mutationWindow as real && (wall <= 0.0 || t + offset - wall >= c.mutationWindow as real)
    ensures QuotasIn(c, s, Round(t, c.mutationQuota), offset, span) == 2 * c.mutationQuota
    ensures Shows(MixedAfter(c, s, Round(t, c.mutationQuota), offset), t, t + offset, c.mutationQuota)
  {
    var q := c.mutationQuota;
    var s1 := MixedStep(c, s, QuotaCheck(t), offset).0;
    QuotaAdmitted(c, s, t, offset, mono, wall, count);
    QuotasFirst(c, s, QuotaCheck(t), Quotas(t, q - 1), offset, span);
    QuotasAdmitted(c, s1, t, offset, span, mono, t + offset, 1, q - 1);
    var s2 := MixedAfter(c, s, Quotas(t, q), offset);
    CycleResets(c, s2, t, offset, mono, t + offset, q);
    var s3 := MixedStep(c, s2, CycleCheck(t), offset).0;
    QuotasAdmitted(c, s3, t, offset, span, t, t + offset, 0, q);
    QuotasFirst(c, s2, CycleCheck(t), Quotas(t, q), offset, span);
    QuotasConcat(c, s, Quotas(t, q), [CycleCheck(t)] + Quotas(t, q), offset, span);
  }

  /** Of `k` times, each `w` after the one before, the first is `t` and the last is `hi`. */
  ghost predicate Last(t: real, hi: real, w: real, k: int) {
    hi == t + (k - 1) as real * w
  }

  lemma LastNext(t: real, hi: real, w: real, k: nat)
    requires Last(t, hi, w, k) && k >= 1 && w > 0.0
    ensures t <= hi && Last(t + w, hi, w, k - 1)
  {
    OneLess(k - 2, w);
  }

  lemma Times(k: int, x: int)
    ensures k * x == x + (k - 1) * x
  {
  }

  lemma LastOf(t: real, w: real, n: nat)
    ensures Last(t, t + n as real * w, w, n + 1)
  {
  }

  lemma {:induction false} RoundsAdmit(
    c: Config, s: State, t: real, last: real, offset: real, span: Interval, mono: real, wall: real, count: nat,
    k: nat)
    requires c.cycleBudget <= 0 && c.mutationQuota >= 1 && c.mutationWindow > 0
    requires 0.0 < t + offset && Shows(s, mono, wall, count)
    requires t - mono >= c.mutationWindow as real && (wall <= 0.0 || t + offset - wall >= c.mutationWindow as real)
    requires span.lo <= t && Last(t, last, c.mutationWindow as real, k) && span.Holds(last)
    ensures QuotasIn(c, s, Rounds(t, c.mutationWindow, c.mutationQuota, k), offset, span) == k * (2 * c.mutationQuota)
    decreases k
  {
    if k > 0 {
      var w, q := c.mutationWindow, c.mutationQuota;
      LastNext(t, last, w as real, k);
      RoundAdmits(c, s, t, offset, span, mono, wall, count);
      var s' := MixedAfter(c, s, Round(t, q), offset);
      RoundsAdmit(c, s', t + w as real, last, offset, span, t, t + offset, q, k - 1);
      QuotasConcat(c, s, Round(t, q), Rounds(t + w as real, w, q, k - 1), offset, span);
      Times(k, 2 * q);
    }
  }

  lemma {:induction false} QuotasAt(t: real, k: nat, i: nat)
    requires i < |Quotas(t, k)|
    ensures Quotas(t, k)[i].t == t
  {
    if i > 0 {
      QuotasAt(t, k - 1, i - 1);
    }
  }

  lemma RoundAt(t: real, quota: nat)
    ensures forall i | 0 <= i < |Round(t, quota)| :: Round(t, quota)[i].t == t
  {
    forall i | 0 <= i < |Quotas(t, quota)| ensures Quotas(t, quota)[i].t == t {
      QuotasAt(t, quota, i);
    }
  }

  lemma {:induction false} RoundsInStep(t: real, width: nat, quota: nat, k: nat, offset: real)
    requires t > 0.0 && t + offset > 0.0
    ensures InStep(Rounds(t, width, quota, k), offset)
    ensures From(Rounds(t, width, quota, k), t)
    decreases k
  {
    if k > 0 {
      RoundAt(t, quota);
      RoundsInStep(t + width as real, width, quota, k - 1, offset);
    }
  }

  /** A cycle check, and then a round at each of `n + 1` times one window apart. */
  function Fullest(c: Config, n: nat): seq<MixedOp>
    requires c.mutationQuota >= 1 && c.mutationWindow > 0
  {
    var w := c.mutationWindow as real;
    [CycleCheck(w)] + Rounds(w + w, c.mutationWindow, c.mutationQuota, n + 1)
  }

  lemma FullestInStep(c: Config, offset: real, n: nat)
    requires c.mutationQuota >= 1 && c.mutationWindow > 0 && c.mutationWindow as real + offset > 0.0
    ensures InStep(Fullest(c, n), offset)
  {
    var w := c.mutationWindow as real;
    RoundsInStep(w + w, c.mutationWindow, c.mutationQuota, n + 1, offset);
  }

  /** The closed bound is the least possible for every quota, every window and every `n`, from a fresh record where
      cycles are unlimited. */
  lemma ClosedBoundIsAttained(c: Config, offset: real, n: nat)
    requires c.cycleBudget <= 0 && c.mutationQuota >= 1
    requires c.mutationWindow > 0 && c.mutationWindow as real + offset > 0.0
    ensures InStep(Fullest(c, n), offset)
    ensures var lo := 2.0 * c.mutationWindow as real;
      var span := Interval(lo, lo + n as real * c.mutationWindow as real, true);
      QuotasIn(c, DEFAULT_STATE, Fullest(c, n), offset, span) == (2 * n + 2) * c.mutationQuota
  {
    var w := c.mutationWindow as real;
    var lo := 2.0 * c.mutationWindow as real;
    var span := Interval(lo, lo + n as real * c.mutationWindow as real, true);
    FullestInStep(c, offset, n);
    LastOf(w + w, w, n);
    LastNext(w + w, span.hi, w, n + 1);
    FullestFills(c, offset, span, n);
  }

  lemma FullestFills(c: Config, offset: real, span: Interval, n: nat)
    requires c.cycleBudget <= 0 && c.mutationQuota >= 1
    requires c.mutationWindow > 0 && c.mutationWindow as real + offset > 0.0
    requires var w := c.mutationWindow as real;
      span.closed && span.lo == w + w <= span.hi && Last(w + w, span.hi, w, n + 1)
    ensures QuotasIn(c, DEFAULT_STATE, Fullest(c, n), offset, span) == (2 * n + 2) * c.mutationQuota
  {
    var w := c.mutationWindow as real;
    FreshRecord(c, w, offset);
    RoundsFill(c, MixedStep(c, DEFAULT_STATE, CycleCheck(w), offset).0, offset, span, n);
    CycleFirst(c, DEFAULT_STATE, w, Rounds(w + w, c.mutationWindow, c.mutationQuota, n + 1), offset, span);
  }

  lemma RoundsFill(c: Config, s: State, offset: real, span: Interval, n: nat)
    requires c.cycleBudget <= 0 && c.mutationQuota >= 1
    requires c.mutationWindow > 0 && c.mutationWindow as real + offset > 0.0
    requires var w := c.mutationWindow as real;
      span.closed && span.lo == w + w <= span.hi && Last(w + w, span.hi, w, n + 1) && Shows(s, w, 0.0, 0)
    ensures var w := c.mutationWindow as real;
      QuotasIn(c, s, Rounds(w + w, c.mutationWindow, c.mutationQuota, n + 1), offset, span)
      == (2 * n + 2) * c.mutationQuota
  {
    var w := c.mutationWindow as real;
    RoundsAdmit(c, s, w + w, span.hi, offset, span, w, 0.0, 0, n + 1);
    Twice(n, c.mutationQuota);
  }

  lemma CycleFirst(c: Config, s: State, t: real, rest: seq<MixedOp>, offset: real, span: Interval)
    ensures QuotasIn(c, s, [CycleCheck(t)] + rest, offset, span)
         == QuotasIn(c, MixedStep(c, s, CycleCheck(t), offset).0, rest, offset, span)
  {
    QuotasFirst(c, s, CycleCheck(t), rest, offset, span);
  }

  lemma Twice(n: int, x: int)
    ensures (n + 1) * (2 * x) == (2 * n + 2) * x
  {
  }

  lemma FreshRecord(c: Config, t: real, offset: real)
    requires c.cycleBudget <= 0
    ensures Shows(MixedStep(c, DEFAULT_STATE, CycleCheck(t), offset).0, t, 0.0, 0)
  {
    assert Shows(Migrate(DEFAULT_STATE, t, t + offset), 0.0, 0.0, 0);
    CycleResets(c, Migrate(DEFAULT_STATE, t, t + offset), t, offset, 0.0, 0.0, 0);
  }

  // The half-open bound is attained as well, from the middle of a window.

  /** Both windows are opened at once and the counter is emptied. */
  function Prepared(w: real): seq<MixedOp> { [CycleCheck(w)] + ([QuotaCheck(w + w)] + [CycleCheck(w + w)]) }

  /** Half a window later a quota of checks, and then a round at each of `n` times one window apart. */
  function Fill(w: real, width: nat, quota: nat, n: nat): seq<MixedOp> {
    Quotas(2.5 * w, quota) + Rounds(3.0 * w, width, quota, n)
  }

  function Staggered(c: Config, n: nat): seq<MixedOp>
    requires c.mutationQuota >= 1 && c.mutationWindow > 0
  {
    var w := c.mutationWindow as real;
    Prepared(w) + Fill(w, c.mutationWindow, c.mutationQuota, n)
  }

  ghost predicate Between(ops: seq<MixedOp>, first: real, last: real) {
    forall i | 0 <= i < |ops| :: first <= ops[i].t <= last
  }

  ghost predicate From(ops: seq<MixedOp>, first: real) {
    forall i | 0 <= i < |ops| :: first <= ops[i].t
  }

  lemma InStepConcat(
    ops: seq<MixedOp>, a: seq<MixedOp>, b: seq<MixedOp>, offset: real, first: real, t: real, u: real)
    requires ops == a + b
    requires InStep(a, offset) && InStep(b, offset) && Between(a, first, t) && From(b, u) && first <= t <= u
    ensures InStep(ops, offset) && From(ops, first)
  {
  }

  lemma QuotasInStep(t: real, k: nat, offset: real)
    requires t > 0.0 && t + offset > 0.0
    ensures InStep(Quotas(t, k), offset) && Between(Quotas(t, k), t, t)
  {
    forall i | 0 <= i < |Quotas(t, k)| ensures Quotas(t, k)[i].t == t {
      QuotasAt(t, k, i);
    }
  }

  lemma PreparedInStep(w: real, offset: real)
    requires w > 0.0 && w + offset > 0.0
    ensures InStep(Prepared(w), offset) && Between(Prepared(w), w, 2.5 * w)
  {
    assert |Prepared(w)| == 3 && Prepared(w)[0].t == w && Prepared(w)[1].t == Prepared(w)[2].t == w + w;
  }

  lemma FillInStep(w: real, width: nat, quota: nat, n: nat, offset: real)
    requires w > 0.0 && w + offset > 0.0
    ensures InStep(Fill(w, width, quota, n), offset) && From(Fill(w, width, quota, n), 2.5 * w)
  {
    QuotasInStep(2.5 * w, quota, offset);
    RoundsInStep(3.0 * w, width, quota, n, offset);
    InStepConcat(Fill(w, width, quota, n), Quotas(2.5 * w, quota), Rounds(3.0 * w, width, quota, n),
                 offset, 2.5 * w, 2.5 * w, 3.0 * w);
  }

  lemma StaggeredInStep(c: Config, offset: real, n: nat)
    requires c.mutationQuota >= 1 && c.mutationWindow > 0 && c.mutationWindow as real + offset > 0.0
    ensures InStep(Staggered(c, n), offset)
  {
    var w := c.mutationWindow as real;
    PreparedInStep(w, offset);
    FillInStep(w, c.mutationWindow, c.mutationQuota, n, offset);
    InStepConcat(Staggered(c, n), Prepared(w), Fill(w, c.mutationWindow, c.mutationQuota, n),
                 offset, w, 2.5 * w, 2.5 * w);
  }

  lemma PreparedShows(c: Config, offset: real, span: Interval)
    requires c.cycleBudget <= 0 && c.mutationQuota >= 1
    requires c.mutationWindow > 0 && c.mutationWindow as real + offset > 0.0
    requires 2.0 * c.mutationWindow as real < span.lo
    ensures var w := c.mutationWindow as real;
      && QuotasIn(c, DEFAULT_STATE, Prepared(w), offset, span) == 0
      && Shows(MixedAfter(c, DEFAULT_STATE, Prepared(w), offset), w + w, w + w + offset, 0)
  {
    var w := c.mutationWindow as real;
    var s1 := MixedStep(c, DEFAULT_STATE, CycleCheck(w), offset).0;
    FreshRecord(c, w, offset);
    var s2 := MixedStep(c, s1, QuotaCheck(w + w), offset).0;
    QuotaAdmitted(c, s1, w + w, offset, w, 0.0, 0);
    CycleResets(c, s2, w + w, offset, w, w + w + offset, 1);
    QuotasFirst(c, DEFAULT_STATE, CycleCheck(w), [QuotaCheck(w + w)] + [CycleCheck(w + w)], offset, span);
    QuotasFirst(c, s1, QuotaCheck(w + w), [CycleCheck(w + w)], offset, span);
    QuotasFirst(c, s2, CycleCheck(w + w), [], offset, span);
    assert [CycleCheck(w + w)] + [] == [CycleCheck(w + w)];
  }

  lemma StaggeredRest(c: Config, s: State, offset: real, span: Interval, last: real, n: nat)
    requires c.cycleBudget <= 0 && c.mutationQuota >= 1
    requires c.mutationWindow > 0 && c.mutationWindow as real + offset > 0.0
    requires var w := c.mutationWindow as real;
      && Shows(s, w + w, w + w + offset, 0) && span.lo == 2.5 * w && span.Holds(2.5 * w) && span.Holds(last)
      && Last(3.0 * w, last, w, n)
    ensures var w := c.mutationWindow as real;
      QuotasIn(c, s, Fill(w, c.mutationWindow, c.mutationQuota, n), offset, span) == (2 * n + 1) * c.mutationQuota
  {
    var w, q := c.mutationWindow as real, c.mutationQuota;
    QuotasAdmitted(c, s, 2.5 * w, offset, span, w + w, w + w + offset, 0, q);
    var s' := MixedAfter(c, s, Quotas(2.5 * w, q), offset);
    RoundsAdmit(c, s', 3.0 * w, last, offset, span, w + w, w + w + offset, q, n);
    FillSplits(c, s, offset, span, w, c.mutationWindow, q, n);
    TwiceAndOne(n, q);
  }

  lemma FillSplits(c: Config, s: State, offset: real, span: Interval, w: real, width: nat, quota: nat, n: nat)
    ensures var s' := MixedAfter(c, s, Quotas(2.5 * w, quota), offset);
      QuotasIn(c, s, Fill(w, width, quota, n), offset, span)
      == QuotasIn(c, s, Quotas(2.5 * w, quota), offset, span)
         + QuotasIn(c, s', Rounds(3.0 * w, width, quota, n), offset, span)
  {
    QuotasConcat(c, s, Quotas(2.5 * w, quota), Rounds(3.0 * w, width, quota, n), offset, span);
  }

  lemma TwiceAndOne(n: int, x: int)
    ensures x + n * (2 * x) == (2 * n + 1) * x
  {
  }

  lemma LastOfStagger(w: real, n: nat) returns (last: real)
    requires w > 0.0 && n >= 1
    ensures Last(3.0 * w, last, w, n) && 2.5 * w <= last < 2.5 * w + n as real * w
  {
    last := 3.0 * w + (n - 1) as real * w;
    LastNext(3.0 * w, last, w, n);
    OneLess(n - 1, w);
  }

  lemma StaggeredFills(c: Config, offset: real, span: Interval, last: real, n: nat)
    requires c.cycleBudget <= 0 && c.mutationQuota >= 1
    requires c.mutationWindow > 0 && c.mutationWindow as real + offset > 0.0
    requires var w := c.mutationWindow as real;
      span.lo == 2.5 * w && span.Holds(2.5 * w) && span.Holds(last) && Last(3.0 * w, last, w, n)
    ensures QuotasIn(c, DEFAULT_STATE, Staggered(c, n), offset, span) == (2 * n + 1) * c.mutationQuota
  {
    var w := c.mutationWindow as real;
    var rest := Fill(w, c.mutationWindow, c.mutationQuota, n);
    PreparedShows(c, offset, span);
    StaggeredRest(c, MixedAfter(c, DEFAULT_STATE, Prepared(w), offset), offset, span, last, n);
    PreparedFirst(c, offset, span, rest);
  }

  lemma PreparedFirst(c: Config, offset: real, span: Interval, rest: seq<MixedOp>)
    requires c.cycleBudget <= 0 && c.mutationQuota >= 1
    requires c.mutationWindow > 0 && c.mutationWindow as real + offset > 0.0
    requires 2.0 * c.mutationWindow as real < span.lo
    ensures var w := c.mutationWindow as real;
      QuotasIn(c, DEFAULT_STATE, Prepared(w) + rest, offset, span)
      == QuotasIn(c, MixedAfter(c, DEFAULT_STATE, Prepared(w), offset), rest, offset, span)
  {
    PreparedShows(c, offset, span);
    QuotasConcat(c, DEFAULT_STATE, Prepared(c.mutationWindow as real), rest, offset, span);
  }

  /** The half-open bound is the least possible for every quota, every window and every `n` but 0, where the interval is
      empty. */
  lemma HalfOpenBoundIsAttained(c: Config, offset: real, n: nat)
    requires c.cycleBudget <= 0 && c.mutationQuota >= 1 && n >= 1
    requires c.mutationWindow > 0 && c.mutationWindow as real + offset > 0.0
    ensures InStep(Staggered(c, n), offset)
    ensures var lo := 2.5 * c.mutationWindow as real;
      var span := Interval(lo, lo + n as real * c.mutationWindow as real, false);
      QuotasIn(c, DEFAULT_STATE, Staggered(c, n), offset, span) == (2 * n + 1) * c.mutationQuota
  {
    var lo := 2.5 * c.mutationWindow as real;
    var span := Interval(lo, lo + n as real * c.mutationWindow as real, false);
    var last := LastOfStagger(c.mutationWindow as real, n);
    StaggeredInStep(c, offset, n);
    StaggeredFills(c, offset, span, last, n);
  }

  // Concurrent calls.

  function AsOp(call: Call, offset: real): MixedOp {
    match call
    case CycleCall(mono, _, _) => CycleCheck(mono)
    case QuotaCall(now, _) => QuotaCheck(now - offset)
  }

  function AsOps(log: seq<Call>, offset: real): seq<MixedOp> {
    seq(|log|, i requires 0 <= i < |log| => AsOp(log[i], offset))
  }

  /** The finished calls, in the order of their saves, read two clocks that advance together, in that order. */
  ghost predicate Chronological(log: seq<Call>, offset: real) {
    && (forall i | 0 <= i < |log| && log[i].CycleCall? :: log[i].wall == log[i].mono + offset)
    && InStep(AsOps(log, offset), offset)
  }

  /** Mutations that the log shows as admitted in the interval. */
  function MutationsAdmitted(log: seq<Call>, offset: real, span: Interval): nat {
    if log == [] then 0
    else
      (if log[0].QuotaCall? && log[0].decision == Admitted && span.Holds(log[0].now - offset) then 1 else 0)
      + MutationsAdmitted(log[1..], offset, span)
  }

  lemma AsOpServes(c: Config, s: State, call: Call, offset: real)
    requires call.CycleCall? ==> call.wall == call.mono + offset
    ensures MixedStep(c, s, AsOp(call, offset), offset) == Serve(c, s, call)
  {
    if call.QuotaCall? {
      assert call.now - offset + offset == call.now;
    }
  }

  lemma AsOpsFirst(log: seq<Call>, offset: real)
    requires log != []
    ensures AsOps(log, offset) != [] && AsOps(log, offset)[0] == AsOp(log[0], offset)
    ensures AsOps(log, offset)[1..] == AsOps(log[1..], offset)
  {
  }

  lemma {:induction false} LogShowsQuotas(c: Config, s: State, log: seq<Call>, offset: real, span: Interval)
    requires SerialDecisions(c, s, log)
    requires forall i | 0 <= i < |log| && log[i].CycleCall? :: log[i].wall == log[i].mono + offset
    ensures MutationsAdmitted(log, offset, span) == QuotasIn(c, s, AsOps(log, offset), offset, span)
    decreases |log|
  {
    if log != [] {
      AsOpsFirst(log, offset);
      AsOpServes(c, s, log[0], offset);
      LogShowsQuotas(c, Serve(c, s, log[0]).0, log[1..], offset, span);
    }
  }

  /** Both bounds hold for every calm interleaving of cycle checks and quota checks. */
  lemma ConcurrentMutationBound(
    c: Config, start: State, mono: real, wall: real, steps: seq<Step>, offset: real, lo: real, hi: real, n: nat)
    requires Calm(c, Initial(start, mono, wall), steps)
    requires Chronological(Execute(c, Initial(start, mono, wall), steps).log, offset)
    requires c.mutationQuota >= 1 && c.mutationWindow > 0 && Get(start, MutationCount) >= 0.0
    requires hi - lo <= n as real * c.mutationWindow as real
    ensures var log := Execute(c, Initial(start, mono, wall), steps).log;
      && MutationsAdmitted(log, offset, Interval(lo, hi, false)) <= (2 * n + 1) * c.mutationQuota
      && MutationsAdmitted(log, offset, Interval(lo, hi, true)) <= (2 * n + 2) * c.mutationQuota
  {
    var log := Execute(c, Initial(start, mono, wall), steps).log;
    CalmRunsAreSerial(c, start, mono, wall, steps);
    LogShowsQuotas(c, start, log, offset, Interval(lo, hi, false));
    LogShowsQuotas(c, start, log, offset, Interval(lo, hi, true));
    AdapterMutationBound(c, start, AsOps(log, offset), offset, lo, hi, n);
    ClosedMutationBound(c, start, AsOps(log, offset), offset, lo, hi, n);
  }

  /** A quota throttle cools the adapter's own cycle check only if no monotonic cooldown was ever
      recorded: otherwise the check reads the monotonic value, which the throttle leaves alone. */
  lemma QuotaThrottleAndCycleCheck(c: Config, s: State, now: real, mono: real, wall: real)
    requires QuotaStep(c, s, now).1.Throttled? && mono > 0.0 && now + c.cooldown as real > 0.0
    ensures LockedStep(c, QuotaStep(c, s, now).0, mono, wall).1 == Throttled(CoolingDown) <==>
            if CooldownUntilMono in s then CoolingMono(s, mono) else wall < now + c.cooldown as real
  {
    var s1 := QuotaStep(c, s, now).0;
    var m := Migrate(s1, mono, wall);
    if CooldownUntilMono in s {
      assert Get(m, CooldownUntilMono) == Get(s, CooldownUntilMono);
    } else {
      assert Get(m, CooldownUntilMono) == mono + Max(0.0, now + c.cooldown as real - wall);
    }
  }
}
