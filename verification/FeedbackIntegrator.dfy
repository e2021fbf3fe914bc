/** The feedback integrator of `dorkllm/cfi_feedback_integrator.py`: human dispositions scale five selection
    weights, which are then clamped and normalised; each cycle is one record of a chained ledger. */
module FeedbackIntegrator {
  import opened HashChain
  import opened Wrappers

  datatype Axis = LINEAGE_DEPTH | BLAST_CONTAINMENT | VELOCITY_ALIGNMENT | CONVERGENCE_DELTA | CONSTITUTIONAL_DEBT

  const AXES := [LINEAGE_DEPTH, BLAST_CONTAINMENT, VELOCITY_ALIGNMENT, CONVERGENCE_DELTA, CONSTITUTIONAL_DEBT]

  datatype Disposition = ACCEPTED | REJECTED | DEFERRED

  datatype Signal = Signal(record: string, proposal: string, invariant_: string, disposition: Disposition, axis: Axis)

  type Weights = w: map<Axis, real> | forall a: Axis :: a in w
    witness map a: Axis :: 0.2

  const DEFAULT_WEIGHTS: Weights :=
    map a: Axis ::
      match a
      case LINEAGE_DEPTH => 0.15
      case BLAST_CONTAINMENT => 0.30
      case VELOCITY_ALIGNMENT => 0.20
      case CONVERGENCE_DELTA => 0.25
      case CONSTITUTIONAL_DEBT => 0.10

  const WEIGHT_FLOOR := 0.05

  const WEIGHT_CEIL := 0.60

  const NORM_TOLERANCE := 0.000000001

  const ACCEPTED_AMPLIFY := 1.10

  const REJECTED_DECAY := 0.90

  datatype Adjustment = Adjustment(weights: Weights, deltas: Weights, accepted: nat, rejected: nat, deferred: nat)

  datatype Error = NormError | ReplayError

  function Total(w: Weights): real {
    w[LINEAGE_DEPTH] + w[BLAST_CONTAINMENT] + w[VELOCITY_ALIGNMENT] + w[CONVERGENCE_DELTA] + w[CONSTITUTIONAL_DEBT]
  }

  function Clamp(x: real): real {
    if x < WEIGHT_FLOOR then WEIGHT_FLOOR else if x > WEIGHT_CEIL then WEIGHT_CEIL else x
  }

  /** What one signal does to the weight `x` of axis `a`. */
  function Nudge(x: real, s: Signal, a: Axis): real {
    if s.axis != a || s.disposition == DEFERRED then x
    else if s.disposition == ACCEPTED then x * ACCEPTED_AMPLIFY
    else x * REJECTED_DECAY
  }

  /** The weight of axis `a` after a list of signals is read in order. */
  function Scaled(x: real, signals: seq<Signal>, a: Axis): real {
    if signals == [] then x else Nudge(Scaled(x, signals[..|signals| - 1], a), signals[|signals| - 1], a)
  }

  function Clamped(prior: Weights, signals: seq<Signal>): Weights {
    map a | a in prior :: Clamp(Scaled(prior[a], signals, a))
  }

  function Normalised(w: Weights): Weights
    requires Total(w) != 0.0
  {
    map a | a in w :: w[a] / Total(w)
  }

  function Adjusted(prior: Weights, signals: seq<Signal>): Weights {
    ClampedTotal(prior, signals);
    Normalised(Clamped(prior, signals))
  }

  function Count(signals: seq<Signal>, d: Disposition): nat {
    if signals == [] then 0
    else Count(signals[..|signals| - 1], d) + if signals[|signals| - 1].disposition == d then 1 else 0
  }

  lemma ClampedTotal(prior: Weights, signals: seq<Signal>)
    ensures 0.25 <= Total(Clamped(prior, signals)) <= 3.0
  {
  }

  lemma NormalisedTotal(w: Weights)
    requires Total(w) != 0.0
    ensures Total(Normalised(w)) == 1.0
  {
    SharesSum(w[LINEAGE_DEPTH], w[BLAST_CONTAINMENT], w[VELOCITY_ALIGNMENT], w[CONVERGENCE_DELTA],
      w[CONSTITUTIONAL_DEBT], Total(w));
  }

  lemma TimesBack(x: real, t: real)
    requires t != 0.0
    ensures x / t * t == x
  {
  }

  lemma SharesSum(v: real, w: real, x: real, y: real, z: real, t: real)
    requires t == v + w + x + y + z && t != 0.0
    ensures v / t + w / t + x / t + y / t + z / t == 1.0
  {
    SharesAdd(v, w, t);
    SharesAdd(v + w, x, t);
    SharesAdd(v + w + x, y, t);
    SharesAdd(v + w + x + y, z, t);
  }

  lemma SharesAdd(x: real, y: real, t: real)
    requires t != 0.0
    ensures (x + y) / t == x / t + y / t
  {
  }

  /** `_apply_signals`; the normalisation errors are unreachable. */
  method ApplySignals(prior: Weights, signals: seq<Signal>) returns (r: Result<Adjustment, Error>)
    ensures r.Ok? && r.value.weights == Adjusted(prior, signals)
    ensures forall a :: r.value.deltas[a] == r.value.weights[a] - prior[a]
    ensures r.value.accepted == Count(signals, ACCEPTED) && r.value.rejected == Count(signals, REJECTED)
    ensures r.value.deferred == Count(signals, DEFERRED)
  {
    var weights, accepted, rejected, deferred := ScaleAll(prior, signals);
    weights := ClampInPlace(weights);
    assert weights == Clamped(prior, signals);
    ClampedTotal(prior, signals);
    var total := Total(weights);
    if total <= 0.0 {
      return Err(NormError);
    }
    NormalisedTotal(weights);
    weights := Normalised(weights);
    var error := Total(weights) - 1.0;
    if error > NORM_TOLERANCE || -error > NORM_TOLERANCE {
      return Err(NormError);
    }
    var deltas: Weights := map a | a in weights :: weights[a] - prior[a];
    return Ok(Adjustment(weights, deltas, accepted, rejected, deferred));
  }

  /** The loop over the signals. */
  method ScaleAll(prior: Weights, signals: seq<Signal>)
    returns (weights: Weights, accepted: nat, rejected: nat, deferred: nat)
    ensures forall a :: weights[a] == Scaled(prior[a], signals, a)
    ensures accepted == Count(signals, ACCEPTED) && rejected == Count(signals, REJECTED)
    ensures deferred == Count(signals, DEFERRED)
  {
    weights, accepted, rejected, deferred := prior, 0, 0, 0;
    for i := 0 to |signals|
      invariant forall a :: weights[a] == Scaled(prior[a], signals[..i], a)
      invariant accepted == Count(signals[..i], ACCEPTED) && rejected == Count(signals[..i], REJECTED)
      invariant deferred == Count(signals[..i], DEFERRED)
    {
      assert signals[..i + 1][..i] == signals[..i];
      var s := signals[i];
      match s.disposition
      case DEFERRED => deferred := deferred + 1;
      case ACCEPTED =>
        weights := weights[s.axis := weights[s.axis] * ACCEPTED_AMPLIFY];
        accepted := accepted + 1;
      case REJECTED =>
        weights := weights[s.axis := weights[s.axis] * REJECTED_DECAY];
        rejected := rejected + 1;
    }
    assert signals[..|signals|] == signals;
  }

  method ClampInPlace(w: Weights) returns (weights: Weights)
    ensures weights == map a | a in w :: Clamp(w[a])
  {
    weights := w;
    for i := 0 to |AXES|
      invariant forall j | 0 <= j < i :: weights[AXES[j]] == Clamp(w[AXES[j]])
      invariant forall j | i <= j < |AXES| :: weights[AXES[j]] == w[AXES[j]]
    {
      weights := weights[AXES[i] := Clamp(weights[AXES[i]])];
    }
    forall a: Axis ensures weights[a] == Clamp(w[a]) {
      var j := AxisIndex(a);
      assert AXES[j] == a;
    }
  }

  function AxisIndex(a: Axis): nat {
    match a
    case LINEAGE_DEPTH => 0
    case BLAST_CONTAINMENT => 1
    case VELOCITY_ALIGNMENT => 2
    case CONVERGENCE_DELTA => 3
    case CONSTITUTIONAL_DEBT => 4
  }

  // The arithmetic of one update.

  lemma MulStrict(x: real, y: real, t: real)
    requires x < y && t > 0.0
    ensures x * t < y * t
  {
  }

  lemma QuotientBound(x: real, t: real, lo: real, hi: real)
    requires t > 0.0 && lo * t <= x <= hi * t
    ensures lo <= x / t <= hi
  {
    if x / t < lo {
      MulStrict(x / t, lo, t);
    }
    if x / t > hi {
      MulStrict(hi, x / t, t);
    }
  }

  lemma QuotientBelow(x: real, t: real, b: real)
    requires t > 0.0
    ensures x / t < b <==> x < b * t
    ensures x / t > b <==> x > b * t
  {
    if x / t < b { MulStrict(x / t, b, t); }
    if x / t > b { MulStrict(b, x / t, t); }
  }

  ghost predicate InClampRange(c: Weights) {
    forall a :: WEIGHT_FLOOR <= c[a] <= WEIGHT_CEIL
  }

  lemma ClampRangeTotal(c: Weights, a: Axis)
    requires InClampRange(c)
    ensures 0.25 <= Total(c) <= 3.0 && 0.2 <= Total(c) - c[a] <= 2.4
  {
  }

  lemma ShareRange(c: Weights, a: Axis)
    requires InClampRange(c) && Total(c) != 0.0
    ensures 1.0 / 49.0 <= Normalised(c)[a] <= 0.75
  {
    ClampRangeTotal(c, a);
    QuotientBound(c[a], Total(c), 1.0 / 49.0, 0.75);
  }

  /** For every prior and every list of signals the new weights sum to one and each lies in [1/49, 3/4]; the
      documented range [0.05, 0.60] holds before normalisation. */
  lemma ExactRange(prior: Weights, signals: seq<Signal>, a: Axis)
    ensures Total(Adjusted(prior, signals)) == 1.0
    ensures 1.0 / 49.0 <= Adjusted(prior, signals)[a] <= 0.75
    ensures WEIGHT_FLOOR <= Clamped(prior, signals)[a] <= WEIGHT_CEIL
  {
    ClampedTotal(prior, signals);
    NormalisedTotal(Clamped(prior, signals));
    ShareRange(Clamped(prior, signals), a);
  }

  lemma ShareBelow(c: Weights, a: Axis, b: real)
    requires Total(c) > 0.0
    ensures Normalised(c)[a] < b <==> c[a] < b * Total(c)
    ensures Normalised(c)[a] > b <==> c[a] > b * Total(c)
  {
    QuotientBelow(c[a], Total(c), b);
  }

  // The order of the signals.

  function Power(x: real, n: nat): real {
    if n == 0 then 1.0 else x * Power(x, n - 1)
  }

  /** How many signals of one kind an axis has. */
  function CountOn(signals: seq<Signal>, a: Axis, d: Disposition): nat {
    if signals == [] then 0
    else
      var s := signals[|signals| - 1];
      CountOn(signals[..|signals| - 1], a, d) + if s.axis == a && s.disposition == d then 1 else 0
  }

  /** Reading signals one by one scales by 1.1 per accepted and 0.9 per rejected signal of the axis. */
  lemma {:induction false} ScaledIsPowers(x: real, signals: seq<Signal>, a: Axis)
    ensures Scaled(x, signals, a) ==
            Powered(x, CountOn(signals, a, ACCEPTED), CountOn(signals, a, REJECTED))
  {
    if signals != [] {
      var front, s := signals[..|signals| - 1], signals[|signals| - 1];
      ScaledIsPowers(x, front, a);
      NudgedPowers(x, CountOn(front, a, ACCEPTED), CountOn(front, a, REJECTED), s, a);
    }
  }

  /** The weight after `m` accepted and `n` rejected signals. */
  function Powered(x: real, m: nat, n: nat): real {
    x * Power(1.1, m) * Power(0.9, n)
  }

  lemma NudgedPowers(x: real, m: nat, n: nat, s: Signal, a: Axis)
    ensures Nudge(Powered(x, m, n), s, a) ==
            Powered(x, m + if s.axis == a && s.disposition == ACCEPTED then 1 else 0,
              n + if s.axis == a && s.disposition == REJECTED then 1 else 0)
  {
    Swap(x * Power(1.1, m), Power(0.9, n), 1.1);
    Swap(x, Power(1.1, m), 1.1);
    Swap(x * Power(1.1, m), Power(0.9, n), 0.9);
  }

  // Foreseeing an update from the prior weights and the counts of the signals.

  /** The weight of an axis before clamping. */
  function Foreseen(prior: Weights, signals: seq<Signal>, a: Axis): real {
    Powered(prior[a], CountOn(signals, a, ACCEPTED), CountOn(signals, a, REJECTED))
  }

  /** The sum that the clamped weights are divided by. */
  function ForeseenTotal(prior: Weights, signals: seq<Signal>): real {
    Total(map a | a in prior :: Clamp(Foreseen(prior, signals, a)))
  }

  lemma ForeseenIsClamped(prior: Weights, signals: seq<Signal>)
    ensures forall a :: Clamped(prior, signals)[a] == Clamp(Foreseen(prior, signals, a))
    ensures Total(Clamped(prior, signals)) == ForeseenTotal(prior, signals)
  {
    forall a ensures Clamped(prior, signals)[a] == Clamp(Foreseen(prior, signals, a)) {
      ScaledIsPowers(prior[a], signals, a);
    }
    assert Clamped(prior, signals) == map a | a in prior :: Clamp(Foreseen(prior, signals, a));
  }

  /** How an axis leaves the documented range, for a weight `x` before clamping and a clamped total `t`.  At the
      floor or below it, it ends below the floor exactly when the total exceeds 1, and never above the ceiling; at
      the ceiling or above it, it ends above the ceiling exactly when the total falls short of 1, and never below
      the floor; in between it leaves by being out of proportion to the total. */
  predicate LeavesByTotal(x: real, t: real, out: real) {
    && (x <= WEIGHT_FLOOR ==> (out < WEIGHT_FLOOR <==> t > 1.0) && out <= WEIGHT_CEIL)
    && (x >= WEIGHT_CEIL ==> (out > WEIGHT_CEIL <==> t < 1.0) && out >= WEIGHT_FLOOR)
    && (WEIGHT_FLOOR < x < WEIGHT_CEIL ==>
          (out < WEIGHT_FLOOR <==> x < WEIGHT_FLOOR * t) && (out > WEIGHT_CEIL <==> x > WEIGHT_CEIL * t))
  }

  lemma ShareLeavesByTotal(c: Weights, a: Axis, x: real)
    requires InClampRange(c) && c[a] == Clamp(x)
    ensures Total(c) != 0.0 && LeavesByTotal(x, Total(c), Normalised(c)[a])
  {
    ClampRangeTotal(c, a);
    ShareBelow(c, a, WEIGHT_FLOOR);
    ShareBelow(c, a, WEIGHT_CEIL);
  }

  /** When normalising leaves the documented range, foreseen from the prior weights and the signal counts. */
  lemma RangeLeftIff(prior: Weights, signals: seq<Signal>, a: Axis)
    ensures LeavesByTotal(Foreseen(prior, signals, a), ForeseenTotal(prior, signals), Adjusted(prior, signals)[a])
  {
    ForeseenIsClamped(prior, signals);
    ShareLeavesByTotal(Clamped(prior, signals), a, Foreseen(prior, signals, a));
  }

  /** One update never leaves the documented range on both sides. */
  lemma NeverLeftOnBothSides(prior: Weights, signals: seq<Signal>, a: Axis, b: Axis)
    ensures !(Adjusted(prior, signals)[a] < WEIGHT_FLOOR && Adjusted(prior, signals)[b] > WEIGHT_CEIL)
  {
    ClampedTotal(prior, signals);
    ShareBelow(Clamped(prior, signals), a, WEIGHT_FLOOR);
    ShareBelow(Clamped(prior, signals), b, WEIGHT_CEIL);
  }

  /** A signal counts the same wherever it stands in the list. */
  lemma {:induction false} ScaledInserted(x: real, signals: seq<Signal>, k: nat, s: Signal, a: Axis)
    requires k <= |signals|
    ensures Scaled(x, signals[..k] + [s] + signals[k..], a) == Nudge(Scaled(x, signals, a), s, a)
    decreases |signals|
  {
    if k == |signals| {
      assert signals[..k] + [s] + signals[k..] == signals + [s];
      ScaledSnoc(x, signals, s, a);
    } else {
      var front, last := signals[..|signals| - 1], signals[|signals| - 1];
      assert signals[..k] + [s] + signals[k..] == front[..k] + [s] + front[k..] + [last];
      ScaledSnoc(x, front[..k] + [s] + front[k..], last, a);
      ScaledInserted(x, front, k, s, a);
      NudgesCommute(Scaled(x, front, a), s, last, a);
      assert signals == front + [last];
      ScaledSnoc(x, front, last, a);
    }
  }

  lemma ScaledSnoc(x: real, signals: seq<Signal>, s: Signal, a: Axis)
    ensures Scaled(x, signals + [s], a) == Nudge(Scaled(x, signals, a), s, a)
  {
    assert (signals + [s])[..|signals|] == signals;
  }

  lemma NudgesCommute(x: real, s: Signal, t: Signal, a: Axis)
    ensures Nudge(Nudge(x, s, a), t, a) == Nudge(Nudge(x, t, a), s, a)
  {
  }

  lemma {:induction false} ScaledPermuted(x: real, s: seq<Signal>, t: seq<Signal>, a: Axis)
    requires multiset(s) == multiset(t)
    ensures Scaled(x, s, a) == Scaled(x, t, a)
    decreases |s|
  {
    if s == [] {
      assert |t| == |multiset(t)| == |multiset(s)| == 0;
    } else {
      var front, last := s[..|s| - 1], s[|s| - 1];
      var i := Position(t, last);
      SameRest(s, t, i);
      ScaledPermuted(x, front, t[..i] + t[i + 1..], a);
      ScaledTakenOut(x, t, i, a);
      assert s == front + [last];
      ScaledSnoc(x, front, last, a);
    }
  }

  lemma Position(t: seq<Signal>, s: Signal) returns (i: nat)
    requires s in multiset(t)
    ensures i < |t| && t[i] == s
  {
    i :| 0 <= i < |t| && t[i] == s;
  }

  lemma ScaledTakenOut(x: real, t: seq<Signal>, i: nat, a: Axis)
    requires i < |t|
    ensures Scaled(x, t, a) == Nudge(Scaled(x, t[..i] + t[i + 1..], a), t[i], a)
  {
    TakenOut(t, i);
    ScaledInserted(x, t[..i] + t[i + 1..], i, t[i], a);
  }

  lemma SameRest(s: seq<Signal>, t: seq<Signal>, i: nat)
    requires s != [] && i < |t| && t[i] == s[|s| - 1] && multiset(s) == multiset(t)
    ensures multiset(s[..|s| - 1]) == multiset(t[..i] + t[i + 1..])
  {
    Removed(s, |s| - 1);
    Removed(t, i);
  }

  lemma Removed(s: seq<Signal>, i: nat)
    requires i < |s|
    ensures multiset(s[..i] + s[i + 1..]) == multiset(s) - multiset{s[i]}
    ensures i == |s| - 1 ==> s[..i] + s[i + 1..] == s[..i]
  {
    assert s == s[..i] + [s[i]] + s[i + 1..];
  }

  lemma TakenOut(t: seq<Signal>, i: nat)
    requires i < |t|
    ensures var rest := t[..i] + t[i + 1..]; rest[..i] + [t[i]] + rest[i..] == t
  {
  }

  /** The signals that are not deferred. */
  function Decided(signals: seq<Signal>): seq<Signal> {
    if signals == [] then []
    else
      var s := signals[|signals| - 1];
      Decided(signals[..|signals| - 1]) + if s.disposition == DEFERRED then [] else [s]
  }

  lemma {:induction false} ScaledDecided(x: real, signals: seq<Signal>, a: Axis)
    ensures Scaled(x, Decided(signals), a) == Scaled(x, signals, a)
  {
    if signals != [] {
      var front := signals[..|signals| - 1];
      ScaledDecided(x, front, a);
      if signals[|signals| - 1].disposition != DEFERRED {
        assert Decided(signals)[..|Decided(signals)| - 1] == Decided(front);
      } else {
        assert Decided(signals) == Decided(front);
      }
    }
  }

  /** Only which decided signals there are matters, not their order and not the deferred ones. */
  lemma OrderAndDeferredIgnored(prior: Weights, s: seq<Signal>, t: seq<Signal>)
    requires multiset(Decided(s)) == multiset(Decided(t))
    ensures Adjusted(prior, s) == Adjusted(prior, t)
  {
    forall a ensures Clamped(prior, s)[a] == Clamped(prior, t)[a] {
      ScaledDecided(prior[a], s, a);
      ScaledDecided(prior[a], t, a);
      ScaledPermuted(prior[a], Decided(s), Decided(t), a);
    }
    assert Clamped(prior, s) == Clamped(prior, t);
  }

  // One more signal.

  lemma {:induction false} ScaledPositive(x: real, signals: seq<Signal>, a: Axis)
    requires x > 0.0
    ensures Scaled(x, signals, a) > 0.0
  {
    if signals != [] {
      ScaledPositive(x, signals[..|signals| - 1], a);
    }
  }

  ghost predicate Positive(w: Weights) {
    forall a :: w[a] > 0.0
  }

  lemma Swap(x: real, s: real, t: real)
    ensures x * s * t == x * t * s
  {
  }

  lemma CrossMultiply(x: real, s: real, y: real, t: real)
    requires s > 0.0 && t > 0.0 && x * t <= y * s
    ensures x / s <= y / t
  {
    if y / t < x / s {
      var p := x / s;
      TimesBack(y, t);
      TimesBack(x, s);
      Swap(p, t, s);
      MulStrict(y / t, p, t);
      MulStrict(y, p * t, s);
    }
  }

  lemma ShareGrows(x: real, y: real, rest: real)
    requires 0.0 < x <= y && rest > 0.0
    ensures x / (x + rest) <= y / (y + rest)
  {
    assert x * rest <= y * rest;
    assert x * (y + rest) == x * y + x * rest && y * (x + rest) == x * y + y * rest;
    CrossMultiply(x, x + rest, y, y + rest);
  }

  lemma ShareShrinks(x: real, t: real, u: real)
    requires 0.0 < x && 0.0 < t <= u
    ensures x / u <= x / t
  {
    assert x * t <= x * u;
    CrossMultiply(x, u, x, t);
  }

  /** Raising one clamped weight raises that share and lowers every other. */
  lemma RaisingOneAxis(c: Weights, d: Weights, a: Axis, b: Axis)
    requires Positive(c) && Positive(d) && c[a] <= d[a] && forall e | e != a :: c[e] == d[e]
    ensures Total(c) > 0.0 && Total(d) > 0.0
    ensures Normalised(c)[a] <= Normalised(d)[a]
    ensures b != a ==> Normalised(d)[b] <= Normalised(c)[b]
  {
    OneChanged(c, d, a);
    ShareGrows(c[a], d[a], Total(c) - c[a]);
    if b != a {
      ShareShrinks(c[b], Total(c), Total(d));
    }
  }

  lemma OneChanged(c: Weights, d: Weights, a: Axis)
    requires Positive(c) && Positive(d) && forall b | b != a :: c[b] == d[b]
    ensures Total(d) - d[a] == Total(c) - c[a] > 0.0
  {
  }

  lemma ClampedAfterOneMore(prior: Weights, signals: seq<Signal>, k: nat, s: Signal)
    requires Positive(prior) && k <= |signals| && s.disposition != DEFERRED
    ensures var c, d := Clamped(prior, signals), Clamped(prior, signals[..k] + [s] + signals[k..]);
      && Positive(c) && Positive(d) && (forall b | b != s.axis :: c[b] == d[b])
      && (if s.disposition == ACCEPTED then c[s.axis] <= d[s.axis] else d[s.axis] <= c[s.axis])
  {
    forall b | b != s.axis
      ensures Clamped(prior, signals)[b] == Clamped(prior, signals[..k] + [s] + signals[k..])[b]
    {
      ScaledInserted(prior[b], signals, k, s, b);
    }
    ScaledInserted(prior[s.axis], signals, k, s, s.axis);
    ScaledPositive(prior[s.axis], signals, s.axis);
  }

  /** One more ACCEPTED signal, anywhere in the list, never lowers its axis's weight nor raises another's; one
      more REJECTED signal does the reverse. */
  lemma OneMoreSignal(prior: Weights, signals: seq<Signal>, k: nat, s: Signal, b: Axis)
    requires Positive(prior) && k <= |signals| && s.disposition != DEFERRED && b != s.axis
    ensures var before, after := Adjusted(prior, signals), Adjusted(prior, signals[..k] + [s] + signals[k..]);
      if s.disposition == ACCEPTED then before[s.axis] <= after[s.axis] && after[b] <= before[b]
      else after[s.axis] <= before[s.axis] && before[b] <= after[b]
  {
    var c, d := Clamped(prior, signals), Clamped(prior, signals[..k] + [s] + signals[k..]);
    ClampedAfterOneMore(prior, signals, k, s);
    if s.disposition == ACCEPTED {
      RaisingOneAxis(c, d, s.axis, b);
    } else {
      RaisingOneAxis(d, c, s.axis, b);
    }
  }

  // The documented range is left on both sides.

  function Batch(a: Axis, d: Disposition, n: nat): seq<Signal> {
    seq(n, _ => Signal("", "", "", d, a))
  }

  lemma CountOneMore(signals: seq<Signal>, s: Signal, a: Axis, d: Disposition)
    ensures CountOn(signals + [s], a, d) == CountOn(signals, a, d) + if s.axis == a && s.disposition == d then 1 else 0
  {
    assert (signals + [s])[..|signals|] == signals;
  }

  lemma {:induction false} BatchCount(s: seq<Signal>, b: Axis, d: Disposition, n: nat, a: Axis, e: Disposition)
    ensures CountOn(s + Batch(b, d, n), a, e) == CountOn(s, a, e) + if a == b && e == d then n else 0
  {
    if n == 0 {
      assert s + Batch(b, d, n) == s;
    } else {
      BatchCount(s, b, d, n - 1, a, e);
      CountOneMore(s + Batch(b, d, n - 1), Signal("", "", "", d, b), a, e);
      assert s + Batch(b, d, n) == s + Batch(b, d, n - 1) + [Signal("", "", "", d, b)];
    }
  }

  /** Many human verdicts for four axes and a few against the fifth. */
  function ForAllBut(): seq<Signal> {
    Mix(8, 7, 15, ACCEPTED, 12, ACCEPTED, 10, ACCEPTED)
  }

  /** A few verdicts for one axis and many against the other four. */
  function AgainstAllBut(): seq<Signal> {
    Mix(8, 7, 11, REJECTED, 14, REJECTED, 16, REJECTED)
  }

  /** Batches of signals, one for each axis. */
  function Mix(b: nat, d: nat, l: nat, dl: Disposition, v: nat, dv: Disposition, c: nat, dc: Disposition): seq<Signal> {
    Batch(CONSTITUTIONAL_DEBT, REJECTED, d) + Batch(LINEAGE_DEPTH, dl, l) + Batch(BLAST_CONTAINMENT, ACCEPTED, b)
    + Batch(VELOCITY_ALIGNMENT, dv, v) + Batch(CONVERGENCE_DELTA, dc, c)
  }

  lemma MixCounts(
    b: nat, d: nat, l: nat, dl: Disposition, v: nat, dv: Disposition, c: nat, dc: Disposition, a: Axis, e: Disposition)
    ensures CountOn(Mix(b, d, l, dl, v, dv, c, dc), a, e)
         == match a
            case CONSTITUTIONAL_DEBT => if e == REJECTED then d else 0
            case LINEAGE_DEPTH => if e == dl then l else 0
            case BLAST_CONTAINMENT => if e == ACCEPTED then b else 0
            case VELOCITY_ALIGNMENT => if e == dv then v else 0
            case CONVERGENCE_DELTA => if e == dc then c else 0
  {
    var s1 := Batch(CONSTITUTIONAL_DEBT, REJECTED, d);
    var s2 := s1 + Batch(LINEAGE_DEPTH, dl, l);
    var s3 := s2 + Batch(BLAST_CONTAINMENT, ACCEPTED, b);
    var s4 := s3 + Batch(VELOCITY_ALIGNMENT, dv, v);
    assert [] + s1 == s1;
    BatchCount([], CONSTITUTIONAL_DEBT, REJECTED, d, a, e);
    BatchCount(s1, LINEAGE_DEPTH, dl, l, a, e);
    BatchCount(s2, BLAST_CONTAINMENT, ACCEPTED, b, a, e);
    BatchCount(s3, VELOCITY_ALIGNMENT, dv, v, a, e);
    BatchCount(s4, CONVERGENCE_DELTA, dc, c, a, e);
  }

  /** The weight after `n` signals of one kind. */
  function PoweredBy(x: real, d: Disposition, n: nat): real {
    Powered(x, if d == ACCEPTED then n else 0, if d == REJECTED then n else 0)
  }

  lemma MixPowered(
    x: real, b: nat, d: nat, l: nat, dl: Disposition, v: nat, dv: Disposition, c: nat, dc: Disposition, a: Axis)
    ensures Scaled(x, Mix(b, d, l, dl, v, dv, c, dc), a)
         == match a
            case CONSTITUTIONAL_DEBT => PoweredBy(x, REJECTED, d)
            case LINEAGE_DEPTH => PoweredBy(x, dl, l)
            case BLAST_CONTAINMENT => PoweredBy(x, ACCEPTED, b)
            case VELOCITY_ALIGNMENT => PoweredBy(x, dv, v)
            case CONVERGENCE_DELTA => PoweredBy(x, dc, c)
  {
    MixCounts(b, d, l, dl, v, dv, c, dc, a, ACCEPTED);
    MixCounts(b, d, l, dl, v, dv, c, dc, a, REJECTED);
    ScaledIsPowers(x, Mix(b, d, l, dl, v, dv, c, dc), a);
  }

  lemma Overshoots()
    ensures Powered(0.15, 15, 0) > 0.6 && Powered(0.30, 8, 0) > 0.6
    ensures Powered(0.20, 12, 0) > 0.6 && Powered(0.25, 10, 0) > 0.6
  {
  }

  lemma Undershoots()
    ensures Powered(0.10, 0, 7) < 0.05 && Powered(0.15, 0, 11) < 0.05
    ensures Powered(0.20, 0, 14) < 0.05 && Powered(0.25, 0, 16) < 0.05
  {
  }

  lemma ForAllButPowered(a: Axis)
    ensures Scaled(DEFAULT_WEIGHTS[a], ForAllBut(), a) ==
            match a
            case CONSTITUTIONAL_DEBT => Powered(0.10, 0, 7)
            case LINEAGE_DEPTH => Powered(0.15, 15, 0)
            case BLAST_CONTAINMENT => Powered(0.30, 8, 0)
            case VELOCITY_ALIGNMENT => Powered(0.20, 12, 0)
            case CONVERGENCE_DELTA => Powered(0.25, 10, 0)
  {
    MixPowered(DEFAULT_WEIGHTS[a], 8, 7, 15, ACCEPTED, 12, ACCEPTED, 10, ACCEPTED, a);
  }

  lemma AgainstAllButPowered(a: Axis)
    ensures Scaled(DEFAULT_WEIGHTS[a], AgainstAllBut(), a) ==
            match a
            case CONSTITUTIONAL_DEBT => Powered(0.10, 0, 7)
            case LINEAGE_DEPTH => Powered(0.15, 0, 11)
            case BLAST_CONTAINMENT => Powered(0.30, 8, 0)
            case VELOCITY_ALIGNMENT => Powered(0.20, 0, 14)
            case CONVERGENCE_DELTA => Powered(0.25, 0, 16)
  {
    MixPowered(DEFAULT_WEIGHTS[a], 8, 7, 11, REJECTED, 14, REJECTED, 16, REJECTED, a);
  }

  lemma ForAllButBeyond(a: Axis)
    ensures var x := Scaled(DEFAULT_WEIGHTS[a], ForAllBut(), a); if a == CONSTITUTIONAL_DEBT then x < 0.05 else x > 0.6
  {
    ForAllButPowered(a);
    Overshoots();
    Undershoots();
  }

  lemma AgainstAllButBeyond(a: Axis)
    ensures var x := Scaled(DEFAULT_WEIGHTS[a], AgainstAllBut(), a);
      if a == BLAST_CONTAINMENT then x > 0.6 else x < 0.05
  {
    AgainstAllButPowered(a);
    Overshoots();
    Undershoots();
  }

  lemma ShareOfOne(c: Weights, a: Axis, x: real, y: real)
    requires x > 0.0 && y > 0.0 && forall b :: c[b] == if b == a then x else y
    ensures Total(c) == x + 4.0 * y && Normalised(c)[a] == x / (x + 4.0 * y)
  {
  }

  /** From the default weights, signals alone reach both ends of the exact range: 1/49, below the documented floor,
      and 3/4, above the documented ceiling. */
  lemma DocumentedRangeIsLeft()
    ensures Adjusted(DEFAULT_WEIGHTS, ForAllBut())[CONSTITUTIONAL_DEBT] == 1.0 / 49.0 < WEIGHT_FLOOR
    ensures Adjusted(DEFAULT_WEIGHTS, AgainstAllBut())[BLAST_CONTAINMENT] == 0.75 > WEIGHT_CEIL
  {
    FloorIsLeft();
    CeilingIsLeft();
  }

  lemma Extreme(prior: Weights, signals: seq<Signal>, a: Axis, high: bool)
    requires forall b :: var x := Scaled(prior[b], signals, b); if (b == a) == high then x > 0.6 else x < 0.05
    ensures Adjusted(prior, signals)[a] == if high then 0.75 else 1.0 / 49.0
  {
    ShareOfOne(Clamped(prior, signals), a, if high then 0.6 else 0.05, if high then 0.05 else 0.6);
  }

  lemma FloorIsLeft()
    ensures Adjusted(DEFAULT_WEIGHTS, ForAllBut())[CONSTITUTIONAL_DEBT] == 1.0 / 49.0
  {
    var signals := ForAllBut();
    forall a
      ensures var x := Scaled(DEFAULT_WEIGHTS[a], signals, a); if a == CONSTITUTIONAL_DEBT then x < 0.05 else x > 0.6
    {
      ForAllButBeyond(a);
    }
    Extreme(DEFAULT_WEIGHTS, signals, CONSTITUTIONAL_DEBT, false);
  }

  lemma CeilingIsLeft()
    ensures Adjusted(DEFAULT_WEIGHTS, AgainstAllBut())[BLAST_CONTAINMENT] == 0.75
  {
    var signals := AgainstAllBut();
    forall a
      ensures var x := Scaled(DEFAULT_WEIGHTS[a], signals, a); if a == BLAST_CONTAINMENT then x > 0.6 else x < 0.05
    {
      AgainstAllButBeyond(a);
    }
    Extreme(DEFAULT_WEIGHTS, signals, BLAST_CONTAINMENT, true);
  }

  // The ledger of cycles.

  datatype Record = Record(
    id: string, weights: Weights, prior: Weights, applied: nat, accepted: nat, rejected: nat, deferred: nat,
    deltas: Weights)

  type Ledger = seq<Link<Record>>

  /** The ledger file and the snapshot file. */
  datatype Store = Store(ledger: Ledger, snapshot: Option<Weights>)

  function CurrentWeights(s: Store): Weights {
    if s.snapshot.Some? then s.snapshot.value else DEFAULT_WEIGHTS
  }

  function Ids(ledger: Ledger): set<string> {
    set i | 0 <= i < |ledger| :: ledger[i].body.id
  }

  function ChosenId(given: Option<string>, uuid: string): string {
    if given.Some? && given.value != "" then given.value else uuid
  }

  function RecordOf(id: string, prior: Weights, signals: seq<Signal>): Record {
    var weights := Adjusted(prior, signals);
    Record(id, weights, prior, |signals|, Count(signals, ACCEPTED), Count(signals, REJECTED), Count(signals, DEFERRED),
           map a | a in weights :: weights[a] - prior[a])
  }

  function Appended(s: Store, body: Record, mac: (Record, Hash) -> Hash): Store {
    Store(s.ledger + [Link(body, mac(body, LastDigest(s.ledger)))], Some(body.weights))
  }

  function IntegrateStep(s: Store, id: string, signals: seq<Signal>, mac: (Record, Hash) -> Hash)
    : (Store, Result<Link<Record>, Error>)
  {
    if id in Ids(s.ledger) then (s, Err(ReplayError))
    else
      var body := RecordOf(id, CurrentWeights(s), signals);
      (Appended(s, body, mac), Ok(Link(body, mac(body, LastDigest(s.ledger)))))
  }

  lemma SameDeltas(b: Record, c: Record)
    requires b.(deltas := c.deltas) == c && forall a :: b.deltas[a] == c.deltas[a]
    ensures b == c
  {
    assert b.deltas == c.deltas;
  }

  const CHAIN_PREFIX_LEN := 24

  function Prefix(h: Hash): string {
    if |h| <= CHAIN_PREFIX_LEN then h else h[..CHAIN_PREFIX_LEN]
  }

  /** The digest recomputed for a record from the bodies alone. */
  function Recomputed(ledger: Ledger, i: nat, mac: (Record, Hash) -> Hash): Hash
    requires i < |ledger|
  {
    mac(ledger[i].body, if i == 0 then GENESIS else Recomputed(ledger, i - 1, mac))
  }

  /** What the forward walk compares: the first characters of stored and recomputed digests. */
  ghost predicate WalkAccepts(ledger: Ledger, mac: (Record, Hash) -> Hash) {
    forall i: nat | i < |ledger| :: Prefix(ledger[i].digest) == Prefix(Recomputed(ledger, i, mac))
  }

  lemma {:induction false} LinkedIsRecomputed(ledger: Ledger, i: nat, mac: (Record, Hash) -> Hash)
    requires Linked(ledger, mac) && i < |ledger|
    ensures ledger[i].digest == Recomputed(ledger, i, mac)
  {
    assert LinkIntact(ledger, i, mac);
    if i > 0 {
      LinkedIsRecomputed(ledger, i - 1, mac);
    }
  }

  class CFIFeedbackIntegrator {
    const mac: (Record, Hash) -> Hash
    var ledger: Ledger
    var snapshot: Option<Weights>

    ghost function View(): Store
      reads this
    {
      Store(ledger, snapshot)
    }

    constructor (mac: (Record, Hash) -> Hash, ledger: Ledger, snapshot: Option<Weights>)
      ensures View() == Store(ledger, snapshot) && this.mac == mac
    {
      this.mac, this.ledger, this.snapshot := mac, ledger, snapshot;
    }

    method LoadCurrentWeights() returns (w: Weights)
      ensures w == CurrentWeights(View())
    {
      w := if snapshot.Some? then snapshot.value else DEFAULT_WEIGHTS;
    }

    method SeenIntegrationIds() returns (ids: set<string>)
      ensures ids == Ids(ledger)
    {
      ids := {};
      for i := 0 to |ledger|
        invariant ids == Ids(ledger[..i])
      {
        ids := ids + {ledger[i].body.id};
      }
      assert ledger[..|ledger|] == ledger;
    }

    method Integrate(given: Option<string>, uuid: string, signals: seq<Signal>) returns (r: Result<Link<Record>, Error>)
      modifies this
      ensures (View(), r) == IntegrateStep(old(View()), ChosenId(given, uuid), signals, mac)
    {
      var id := ChosenId(given, uuid);
      var seen := SeenIntegrationIds();
      if id in seen {
        return Err(ReplayError);
      }
      var prior := LoadCurrentWeights();
      var a := ApplySignals(prior, signals);
      // The normalisation error is unreachable.
      var v := a.value;
      var body := Record(id, v.weights, prior, |signals|, v.accepted, v.rejected, v.deferred, v.deltas);
      SameDeltas(body, RecordOf(id, prior, signals));
      var link := Link(body, mac(body, LastDigest(ledger)));
      ledger := ledger + [link];
      snapshot := Some(v.weights);
      return Ok(link);
    }

    method VerifyChain() returns (ok: bool)
      ensures ok <==> WalkAccepts(ledger, mac)
      ensures Linked(ledger, mac) ==> ok
    {
      var prev := GENESIS;
      for i := 0 to |ledger|
        invariant prev == if i == 0 then GENESIS else Recomputed(ledger, i - 1, mac)
        invariant forall j: nat | j < i :: Prefix(ledger[j].digest) == Prefix(Recomputed(ledger, j, mac))
      {
        var computed := mac(ledger[i].body, prev);
        if Prefix(computed) != Prefix(ledger[i].digest) {
          if Linked(ledger, mac) {
            LinkedIsRecomputed(ledger, i, mac);
          }
          return false;
        }
        prev := computed;
      }
      ok := true;
    }
  }

  // Whole runs of cycles.

  datatype Call = Call(id: string, signals: seq<Signal>)

  function Run(s: Store, calls: seq<Call>, mac: (Record, Hash) -> Hash): Store {
    if calls == [] then s
    else
      var last := calls[|calls| - 1];
      IntegrateStep(Run(s, calls[..|calls| - 1], mac), last.id, last.signals, mac).0
  }

  const EMPTY := Store([], None)

  ghost predicate RecordFits(s: Store, i: nat)
    requires i < |s.ledger|
  {
    BodyFits(if i == 0 then DEFAULT_WEIGHTS else s.ledger[i - 1].body.weights, s.ledger[i].body)
  }

  ghost predicate DistinctIds(ledger: Ledger) {
    forall i, j | 0 <= i < j < |ledger| :: ledger[i].body.id != ledger[j].body.id
  }

  /** What every run keeps. */
  ghost predicate Sound(s: Store, mac: (Record, Hash) -> Hash) {
    && Linked(s.ledger, mac) && DistinctIds(s.ledger)
    && (forall i: nat | i < |s.ledger| :: RecordFits(s, i))
    && s.snapshot == (if s.ledger == [] then None else Some(s.ledger[|s.ledger| - 1].body.weights))
  }

  lemma {:induction false} CountsAddUp(signals: seq<Signal>)
    ensures |signals| == Count(signals, ACCEPTED) + Count(signals, REJECTED) + Count(signals, DEFERRED)
  {
    if signals != [] {
      CountsAddUp(signals[..|signals| - 1]);
    }
  }

  ghost predicate BodyFits(prior: Weights, b: Record) {
    && b.prior == prior
    && Total(b.weights) == 1.0
    && (forall a :: 1.0 / 49.0 <= b.weights[a] <= 0.75)
    && (forall a :: b.deltas[a] == b.weights[a] - b.prior[a])
    && b.applied == b.accepted + b.rejected + b.deferred
  }

  lemma AppendKeepsSound(s: Store, body: Record, mac: (Record, Hash) -> Hash)
    requires Sound(s, mac) && body.id !in Ids(s.ledger) && BodyFits(CurrentWeights(s), body)
    ensures Sound(Appended(s, body, mac), mac)
  {
    var s' := Appended(s, body, mac);
    LinkKeepsLinked(s.ledger, body, mac);
    forall i: nat | i < |s'.ledger| ensures RecordFits(s', i) {
      if i < |s.ledger| {
        assert RecordFits(s, i);
      }
    }
    forall i, j | 0 <= i < j < |s'.ledger| ensures s'.ledger[i].body.id != s'.ledger[j].body.id {
      assert s.ledger[i].body.id in Ids(s.ledger);
    }
  }

  lemma RecordOfFits(id: string, prior: Weights, signals: seq<Signal>)
    ensures BodyFits(prior, RecordOf(id, prior, signals))
  {
    CountsAddUp(signals);
    NewWeights(prior, signals);
  }

  lemma StepKeepsSound(s: Store, id: string, signals: seq<Signal>, mac: (Record, Hash) -> Hash)
    requires Sound(s, mac)
    ensures Sound(IntegrateStep(s, id, signals, mac).0, mac)
  {
    if id !in Ids(s.ledger) {
      RecordOfFits(id, CurrentWeights(s), signals);
      AppendKeepsSound(s, RecordOf(id, CurrentWeights(s), signals), mac);
    }
  }

  lemma NewWeights(prior: Weights, signals: seq<Signal>)
    ensures Total(Adjusted(prior, signals)) == 1.0
    ensures forall a :: 1.0 / 49.0 <= Adjusted(prior, signals)[a] <= 0.75
  {
    forall a ensures 1.0 / 49.0 <= Adjusted(prior, signals)[a] <= 0.75 {
      ExactRange(prior, signals, a);
    }
    ExactRange(prior, signals, LINEAGE_DEPTH);
  }

  /** Over every run of cycles: the ledger is linked, no id is integrated twice, every record starts from the
      weights of the one before and ends within the exact range, and the snapshot is the last record's. */
  lemma {:induction false} RunsStaySound(calls: seq<Call>, mac: (Record, Hash) -> Hash)
    ensures Sound(Run(EMPTY, calls, mac), mac)
  {
    if calls != [] {
      var last := calls[|calls| - 1];
      RunsStaySound(calls[..|calls| - 1], mac);
      StepKeepsSound(Run(EMPTY, calls[..|calls| - 1], mac), last.id, last.signals, mac);
    }
  }

  function CallIds(calls: seq<Call>): set<string> {
    if calls == [] then {} else CallIds(calls[..|calls| - 1]) + {calls[|calls| - 1].id}
  }

  /** The calls whose id was not used by an earlier one. */
  function FirstUses(calls: seq<Call>): seq<Call> {
    if calls == [] then []
    else
      var front, last := calls[..|calls| - 1], calls[|calls| - 1];
      FirstUses(front) + if last.id in CallIds(front) then [] else [last]
  }

  /** The weights after applying the signals of each call in turn. */
  function Folded(calls: seq<Call>): Weights {
    if calls == [] then DEFAULT_WEIGHTS else Adjusted(Folded(calls[..|calls| - 1]), calls[|calls| - 1].signals)
  }

  lemma {:induction false} RunIds(calls: seq<Call>, mac: (Record, Hash) -> Hash)
    ensures Ids(Run(EMPTY, calls, mac).ledger) == CallIds(calls)
  {
    if calls != [] {
      var front, last := calls[..|calls| - 1], calls[|calls| - 1];
      RunIds(front, mac);
      StepIds(Run(EMPTY, front, mac), last.id, last.signals, mac);
    }
  }

  lemma StepIds(s: Store, id: string, signals: seq<Signal>, mac: (Record, Hash) -> Hash)
    ensures Ids(IntegrateStep(s, id, signals, mac).0.ledger) == Ids(s.ledger) + {id}
  {
    if id !in Ids(s.ledger) {
      AppendIds(s, RecordOf(id, CurrentWeights(s), signals), mac);
    }
  }

  lemma AppendIds(s: Store, body: Record, mac: (Record, Hash) -> Hash)
    ensures Ids(Appended(s, body, mac).ledger) == Ids(s.ledger) + {body.id}
  {
    var s' := Appended(s, body, mac);
    forall x | x in Ids(s.ledger) + {body.id} ensures x in Ids(s'.ledger) {
      if x == body.id {
        assert s'.ledger[|s.ledger|].body.id == body.id;
      } else {
        var i :| 0 <= i < |s.ledger| && s.ledger[i].body.id == x;
        assert s'.ledger[i].body.id == x;
      }
    }
  }

  /** The ledger and the current weights are what the first uses alone produce. */
  ghost predicate Reflects(s: Store, uses: seq<Call>) {
    && CurrentWeights(s) == Folded(uses)
    && |s.ledger| == |uses|
    && forall i | 0 <= i < |uses| :: s.ledger[i].body.id == uses[i].id
  }

  /** A repeated id changes nothing: the current weights are those of the first uses applied one after another,
      and the ledger holds one record for each of them, in order. */
  lemma {:induction false} RepeatsChangeNothing(calls: seq<Call>, mac: (Record, Hash) -> Hash)
    ensures Reflects(Run(EMPTY, calls, mac), FirstUses(calls))
  {
    if calls != [] {
      var front, last := calls[..|calls| - 1], calls[|calls| - 1];
      RepeatsChangeNothing(front, mac);
      RunIds(front, mac);
      StepReflects(Run(EMPTY, front, mac), FirstUses(front), last, mac);
    }
  }

  lemma StepReflects(s: Store, uses: seq<Call>, c: Call, mac: (Record, Hash) -> Hash)
    requires Reflects(s, uses)
    ensures Reflects(IntegrateStep(s, c.id, c.signals, mac).0, uses + if c.id in Ids(s.ledger) then [] else [c])
  {
    if c.id in Ids(s.ledger) {
      assert uses + [] == uses;
    } else {
      FoldedSnoc(uses, c);
    }
  }

  lemma FoldedSnoc(calls: seq<Call>, last: Call)
    ensures Folded(calls + [last]) == Adjusted(Folded(calls), last.signals)
  {
    assert (calls + [last])[..|calls|] == calls;
  }
}
