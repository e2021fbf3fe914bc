/** The throttle computation of `dorkllm/adaptive_throttle.py`: a weighted composite of domain pressures, mapped to a
    multiplier by a rounded piecewise-linear function. */
module AdaptiveThrottle {
  import opened Rounding
  import opened Wrappers

  datatype DomainWeight = DomainWeight(domain: string, weight: real)

  /** A configuration; the weights are listed in the order of the dictionary. */
  datatype Config = Config(weights: seq<DomainWeight>, floor: real, caution: real, restrict: real)

  datatype Regime = OPEN | CAUTION | RESTRICT | OVERRIDE

  datatype Reading = Reading(multiplier: real, regime: Regime, contributions: map<string, real>, composite: real)

  datatype Error = DeterminismError | FloorError | AuthError

  const SIX := 1000000.0

  const EIGHT := 100000000.0

  type Scores = map<string, real>

  function ScoreOf(scores: Scores, domain: string): real {
    if domain in scores then scores[domain] else 0.0
  }

  function Sum(xs: seq<real>): real {
    if xs == [] then 0.0 else Sum(xs[..|xs| - 1]) + xs[|xs| - 1]
  }

  function TotalWeight(weights: seq<DomainWeight>): real {
    Sum(seq(|weights|, i requires 0 <= i < |weights| => weights[i].weight))
  }

  function Contribution(scores: Scores, w: DomainWeight, total: real): real
    requires total != 0.0
  {
    ScoreOf(scores, w.domain) * w.weight / total
  }

  function Terms(scores: Scores, weights: seq<DomainWeight>, total: real): seq<real>
    requires total != 0.0
  {
    seq(|weights|, i requires 0 <= i < |weights| => Contribution(scores, weights[i], total))
  }

  function Composite(scores: Scores, weights: seq<DomainWeight>, total: real): real
    requires total != 0.0
  {
    Sum(Terms(scores, weights, total))
  }

  function Tabled(domains: seq<string>, terms: seq<real>): map<string, real>
    requires |domains| == |terms|
  {
    if domains == [] then map[]
    else
      var n := |domains| - 1;
      Tabled(domains[..n], terms[..n])[domains[n] := Round(terms[n], EIGHT)]
  }

  function Domains(weights: seq<DomainWeight>): seq<string> {
    seq(|weights|, i requires 0 <= i < |weights| => weights[i].domain)
  }

  function Contributions(scores: Scores, weights: seq<DomainWeight>, total: real): map<string, real>
    requires total != 0.0
  {
    Tabled(Domains(weights), Terms(scores, weights, total))
  }

  function Clamp01(x: real): real {
    if x > 1.0 then 1.0 else if x < 0.0 then 0.0 else x
  }

  /** The multiplier before rounding, for a composite in [0, 1]. */
  function Line(c: real, floor: real, caution: real, restrict: real): real {
    if c <= caution then
      1.0 - (if caution > 0.0 then c / caution else 0.0) * 0.30
    else if c <= restrict then
      0.70 - (if restrict - caution > 0.0 then (c - caution) / (restrict - caution) else 1.0) * (0.70 - floor)
    else floor
  }

  function PressureToMultiplier(composite: real, floor: real, caution: real, restrict: real): real {
    Round(Line(Clamp01(composite), floor, caution, restrict), SIX)
  }

  function ClassifyRegime(multiplier: real, override: bool): Regime {
    if override then OVERRIDE
    else if multiplier >= 0.80 then OPEN
    else if multiplier >= 0.40 then CAUTION
    else RESTRICT
  }

  /** The reading for a rounded composite, or the floor error. */
  function Judged(
    cfg: Config, composite: real, contributions: map<string, real>, override: bool): Result<Reading, Error>
  {
    var multiplier := if override then 0.0 else PressureToMultiplier(composite, cfg.floor, cfg.caution, cfg.restrict);
    if multiplier < cfg.floor && !override then Err(FloorError)
    else Ok(Reading(multiplier, ClassifyRegime(multiplier, override), contributions, composite))
  }

  /** What `compute` puts on record, or the error it raises. */
  function Computed(cfg: Config, scores: Scores, override: bool): Result<Reading, Error> {
    var total := TotalWeight(cfg.weights);
    if total == 0.0 then Err(DeterminismError)
    else
      Judged(cfg, Round(Composite(scores, cfg.weights, total), EIGHT),
             Contributions(scores, cfg.weights, total), override)
  }

  // Pressure and composite.

  ghost predicate NonNegative(weights: seq<DomainWeight>) {
    forall w | w in weights :: w.weight >= 0.0
  }

  /** No domain's pressure is lower in `b`. */
  ghost predicate NoLower(a: Scores, b: Scores) {
    forall d :: ScoreOf(a, d) <= ScoreOf(b, d)
  }

  lemma ProductMonotone(x: real, y: real, w: real, t: real)
    requires x <= y && w >= 0.0 && t > 0.0
    ensures x * w / t <= y * w / t
  {
    assert x * w <= y * w;
    Ordered(x * w, y * w, t);
  }

  lemma {:induction false} SumMonotone(xs: seq<real>, ys: seq<real>)
    requires |xs| == |ys| && forall i | 0 <= i < |xs| :: xs[i] <= ys[i]
    ensures Sum(xs) <= Sum(ys)
  {
    if xs != [] {
      SumMonotone(xs[..|xs| - 1], ys[..|ys| - 1]);
    }
  }

  lemma TermMonotone(a: Scores, b: Scores, w: DomainWeight, total: real)
    requires NoLower(a, b) && w.weight >= 0.0 && total > 0.0
    ensures Contribution(a, w, total) <= Contribution(b, w, total)
  {
    ProductMonotone(ScoreOf(a, w.domain), ScoreOf(b, w.domain), w.weight, total);
  }

  lemma CompositeMonotone(a: Scores, b: Scores, weights: seq<DomainWeight>, total: real)
    requires NoLower(a, b) && NonNegative(weights) && total > 0.0
    ensures Composite(a, weights, total) <= Composite(b, weights, total)
  {
    forall i | 0 <= i < |weights| ensures Terms(a, weights, total)[i] <= Terms(b, weights, total)[i] {
      assert weights[i] in weights;
      TermMonotone(a, b, weights[i], total);
    }
    SumMonotone(Terms(a, weights, total), Terms(b, weights, total));
  }

  lemma TotalNonNegative(weights: seq<DomainWeight>)
    requires NonNegative(weights)
    ensures TotalWeight(weights) >= 0.0
  {
    var xs := seq(|weights|, i requires 0 <= i < |weights| => weights[i].weight);
    var zeros := seq(|weights|, i => 0.0);
    forall i | 0 <= i < |weights| ensures zeros[i] <= xs[i] {
      assert weights[i] in weights;
    }
    SumMonotone(zeros, xs);
    SumOfZeros(zeros);
  }

  lemma {:induction false} SumOfZeros(zeros: seq<real>)
    requires forall i | 0 <= i < |zeros| :: zeros[i] == 0.0
    ensures Sum(zeros) == 0.0
  {
    if zeros != [] {
      SumOfZeros(zeros[..|zeros| - 1]);
    }
  }

  // Composite and multiplier.

  lemma RatioRange(x: real, t: real)
    requires 0.0 <= x <= t && t > 0.0
    ensures 0.0 <= x / t <= 1.0
  {
    Ordered(0.0, x, t);
    Ordered(x, t, t);
  }

  lemma Between(r: real, floor: real)
    requires 0.0 <= r <= 1.0 && floor <= 0.70
    ensures floor <= 0.70 - r * (0.70 - floor) <= 0.70
  {
    var gap := 0.70 - floor;
    assert 0.0 <= r * gap;
    assert (1.0 - r) * gap >= 0.0;
    assert (1.0 - r) * gap == gap - r * gap;
  }

  lemma LineRange(c: real, floor: real, caution: real, restrict: real)
    requires 0.0 <= c <= 1.0 && floor <= 0.70
    ensures var m := Line(c, floor, caution, restrict);
      && floor <= m <= 1.0 && (c <= caution ==> m >= 0.70) && (caution < c ==> m <= 0.70)
      && (caution < c && restrict < c ==> m == floor)
  {
    if c <= caution {
      if caution > 0.0 { RatioRange(c, caution); }
    } else if c <= restrict {
      RatioRange(c - caution, restrict - caution);
      Between((c - caution) / (restrict - caution), floor);
    }
  }

  lemma Falling(r: real, s: real, floor: real)
    requires r <= s && floor <= 0.70
    ensures 0.70 - s * (0.70 - floor) <= 0.70 - r * (0.70 - floor)
  {
    var gap := 0.70 - floor;
    assert (s - r) * gap >= 0.0;
    assert (s - r) * gap == s * gap - r * gap;
  }

  /** For every pair of thresholds the multiplier falls as the composite rises. */
  lemma LineAntitone(c: real, d: real, floor: real, caution: real, restrict: real)
    requires 0.0 <= c <= d <= 1.0 && floor <= 0.70
    ensures Line(d, floor, caution, restrict) <= Line(c, floor, caution, restrict)
  {
    LineRange(c, floor, caution, restrict);
    LineRange(d, floor, caution, restrict);
    if d <= caution && caution > 0.0 {
      Ordered(c, d, caution);
    } else if caution < c && d <= restrict {
      Ordered(c - caution, d - caution, restrict - caution);
      Falling((c - caution) / (restrict - caution), (d - caution) / (restrict - caution), floor);
    }
  }

  lemma MultiplierAntitone(c: real, d: real, floor: real, caution: real, restrict: real)
    requires c <= d && floor <= 0.70
    ensures PressureToMultiplier(d, floor, caution, restrict) <= PressureToMultiplier(c, floor, caution, restrict)
  {
    LineAntitone(Clamp01(c), Clamp01(d), floor, caution, restrict);
    RoundMonotone(Line(Clamp01(d), floor, caution, restrict), Line(Clamp01(c), floor, caution, restrict), SIX);
  }

  lemma MultiplierRange(c: real, floor: real, caution: real, restrict: real)
    requires floor <= 0.70
    ensures Round(floor, SIX) <= PressureToMultiplier(c, floor, caution, restrict) <= 1.0
  {
    LineRange(Clamp01(c), floor, caution, restrict);
    RoundMonotone(floor, Line(Clamp01(c), floor, caution, restrict), SIX);
    RoundMonotone(Line(Clamp01(c), floor, caution, restrict), 1.0, SIX);
    RoundFixesGrid(1.0, SIX);
  }

  lemma NonNegativeProduct(x: real, y: real)
    requires x >= 0.0 && y >= 0.0
    ensures x * y >= 0.0
  {
  }

  lemma BelowHighFloor(r: real, floor: real)
    requires 0.0 <= r <= 1.0 && floor > 0.70
    ensures 0.70 - r * (0.70 - floor) <= floor
  {
    var gap := floor - 0.70;
    assert 0.70 - floor == -gap;
    NonNegativeProduct(1.0 - r, gap);
    assert (1.0 - r) * gap == gap - r * gap;
    assert r * (-gap) == -(r * gap);
  }

  lemma HighFloorLine(c: real, floor: real, caution: real, restrict: real)
    requires 0.0 <= c <= 1.0 && floor > 0.70 && caution < c
    ensures Line(c, floor, caution, restrict) <= floor
  {
    if c <= restrict {
      RatioRange(c - caution, restrict - caution);
      BelowHighFloor((c - caution) / (restrict - caution), floor);
    }
  }

  /** A floor above 0.70 makes the line rise again, but only through values that the floor check refuses: of two
      multipliers that pass it, the one for the higher composite is never larger. */
  lemma AcceptedAntitone(c: real, d: real, floor: real, caution: real, restrict: real)
    requires c <= d
    requires PressureToMultiplier(c, floor, caution, restrict) >= floor
    ensures PressureToMultiplier(d, floor, caution, restrict) <= PressureToMultiplier(c, floor, caution, restrict)
  {
    var x, y := Clamp01(c), Clamp01(d);
    if floor <= 0.70 {
      MultiplierAntitone(c, d, floor, caution, restrict);
    } else if y <= caution {
      LineAntitone(x, y, 0.70, caution, restrict);
      RoundMonotone(Line(y, floor, caution, restrict), Line(x, floor, caution, restrict), SIX);
    } else {
      HighFloorLine(y, floor, caution, restrict);
      RoundMonotone(Line(y, floor, caution, restrict), floor, SIX);
      RoundReaches(Line(x, floor, caution, restrict), floor, SIX);
    }
  }

  function Rank(r: Regime): nat {
    match r
    case OPEN => 0
    case CAUTION => 1
    case RESTRICT => 2
    case OVERRIDE => 3
  }

  ghost predicate Usable(cfg: Config) {
    NonNegative(cfg.weights) && TotalWeight(cfg.weights) != 0.0
  }

  /** Raising any domain's pressure never raises the multiplier and never eases the regime, every rounding
      included, for every floor and every pair of thresholds. */
  lemma MorePressureNeverEases(cfg: Config, a: Scores, b: Scores, override: bool)
    requires Usable(cfg) && NoLower(a, b)
    requires Computed(cfg, a, override).Ok? && Computed(cfg, b, override).Ok?
    ensures var low, high := Computed(cfg, a, override).value, Computed(cfg, b, override).value;
      && high.multiplier <= low.multiplier
      && Rank(low.regime) <= Rank(high.regime)
      && low.composite <= high.composite
  {
    var total := TotalWeight(cfg.weights);
    TotalNonNegative(cfg.weights);
    CompositeMonotone(a, b, cfg.weights, total);
    var c, d := Composite(a, cfg.weights, total), Composite(b, cfg.weights, total);
    RoundMonotone(c, d, EIGHT);
    if !override {
      AcceptedAntitone(Round(c, EIGHT), Round(d, EIGHT), cfg.floor, cfg.caution, cfg.restrict);
    }
  }

  /** For a floor on the grid of six decimals and at most 0.70, the floor error is unreachable and the multiplier
      lies in [floor, 1]. */
  lemma StaysAboveFloor(cfg: Config, scores: Scores)
    requires TotalWeight(cfg.weights) != 0.0 && cfg.floor <= 0.70 && OnGrid(cfg.floor, SIX)
    ensures Computed(cfg, scores, false).Ok? && cfg.floor <= Computed(cfg, scores, false).value.multiplier <= 1.0
  {
    var composite := Round(Composite(scores, cfg.weights, TotalWeight(cfg.weights)), EIGHT);
    MultiplierRange(composite, cfg.floor, cfg.caution, cfg.restrict);
    RoundFixesGrid(cfg.floor, SIX);
  }

  // When no pressure at all can raise the floor error.

  /** No pressures make `compute` raise the floor error. */
  ghost predicate NeverUndercuts(cfg: Config) {
    forall scores :: Computed(cfg, scores, false) != Err(FloorError)
  }

  ghost predicate WithinScale(scores: Scores) {
    forall d | d in scores :: 0.0 <= scores[d] <= 1.0
  }

  predicate Holds(c: real, cfg: Config) {
    PressureToMultiplier(c, cfg.floor, cfg.caution, cfg.restrict) >= cfg.floor
  }

  /** Composites are rounded to eight decimals: the last of them at or below `x`, and the next one. */
  function Below(x: real): real { (x * EIGHT).Floor as real / EIGHT }

  function Above(x: real): real { ((x * EIGHT).Floor + 1) as real / EIGHT }

  /** The multiplier reaches the floor at both ends of the scale and on both sides of the first threshold. */
  predicate HoldsAtFour(cfg: Config) {
    Holds(0.0, cfg) && Holds(1.0, cfg) && Holds(Below(cfg.caution), cfg) && Holds(Above(cfg.caution), cfg)
  }

  // Every composite of eight decimals occurs.

  function Uniform(weights: seq<DomainWeight>, c: real): Scores {
    map d | d in Domains(weights) :: c
  }

  lemma QuotientOfProduct(c: real, w: real, total: real)
    requires total != 0.0
    ensures c * w / total == c / total * w
  {
  }

  lemma UniformTerm(weights: seq<DomainWeight>, c: real, total: real, k: real, i: nat)
    requires total != 0.0 && k == c / total && i < |weights|
    ensures Contribution(Uniform(weights, c), weights[i], total) == k * weights[i].weight
  {
    assert Domains(weights)[i] == weights[i].domain;
    QuotientOfProduct(c, weights[i].weight, total);
  }

  lemma UniformSum(weights: seq<DomainWeight>, c: real, total: real, k: real)
    requires total != 0.0 && k == c / total
    ensures Composite(Uniform(weights, c), weights, total) == k * TotalWeight(weights)
  {
    var ws := seq(|weights|, i requires 0 <= i < |weights| => weights[i].weight);
    var terms := Terms(Uniform(weights, c), weights, total);
    forall i | 0 <= i < |weights| ensures terms[i] == k * ws[i] {
      UniformTerm(weights, c, total, k, i);
    }
    SumScales(ws, terms, k);
  }

  lemma UniformComposite(weights: seq<DomainWeight>, c: real)
    requires TotalWeight(weights) != 0.0
    ensures Composite(Uniform(weights, c), weights, TotalWeight(weights)) == c
  {
    var total := TotalWeight(weights);
    UniformSum(weights, c, total, c / total);
    DividedBack(c, total);
  }

  lemma DividedBack(c: real, total: real)
    requires total != 0.0
    ensures c / total * total == c
  {
  }

  lemma CompositeOccurs(cfg: Config, c: real)
    requires TotalWeight(cfg.weights) != 0.0 && Round(c, EIGHT) == c && !Holds(c, cfg)
    ensures Computed(cfg, Uniform(cfg.weights, c), false) == Err(FloorError)
  {
    UniformComposite(cfg.weights, c);
  }

  // The grid around the first threshold.

  lemma GridPoint(k: int)
    ensures Round(k as real / EIGHT, EIGHT) == k as real / EIGHT
  {
    assert k as real / EIGHT * EIGHT == k as real;
    RoundFixesGrid(k as real / EIGHT, EIGHT);
  }

  lemma ClampedGrid(c: real)
    requires Round(c, EIGHT) == c
    ensures Round(Clamp01(c), EIGHT) == Clamp01(c)
  {
    GridPoint(0);
    GridPoint(100000000);
  }

  lemma Neighbours(x: real, c: real)
    requires Round(c, EIGHT) == c
    ensures Below(x) <= x < Above(x)
    ensures c <= x ==> c <= Below(x)
    ensures c > x ==> c >= Above(x)
  {
    RoundFixesGrid(c, EIGHT);
    var n := (x * EIGHT).Floor;
    assert n as real <= x * EIGHT < (n + 1) as real;
  }

  /** Above 0.70 the second piece of the line rises to the floor. */
  lemma RisingLine(c: real, d: real, floor: real, caution: real, restrict: real)
    requires caution < c <= d <= restrict && floor > 0.70
    ensures Line(c, floor, caution, restrict) <= Line(d, floor, caution, restrict)
  {
    var span := restrict - caution;
    var r, s := (c - caution) / span, (d - caution) / span;
    Ordered(c - caution, d - caution, span);
    NonNegativeProduct(s - r, floor - 0.70);
    assert (s - r) * (floor - 0.70) == r * (0.70 - floor) - s * (0.70 - floor);
  }

  lemma HoldsBelow(c: real, cfg: Config)
    requires 0.0 <= c <= 1.0 && c <= cfg.caution && c <= Below(cfg.caution) <= cfg.caution
    requires Holds(Below(cfg.caution), cfg)
    ensures Holds(c, cfg)
  {
    var b := Clamp01(Below(cfg.caution));
    LineAntitone(c, b, 0.70, cfg.caution, cfg.restrict);
    RoundMonotone(Line(b, cfg.floor, cfg.caution, cfg.restrict), Line(c, cfg.floor, cfg.caution, cfg.restrict), SIX);
  }

  lemma HoldsAbove(c: real, cfg: Config)
    requires cfg.floor > 0.70 && 0.0 <= c <= 1.0 && cfg.caution < Above(cfg.caution) <= c
    requires Holds(Above(cfg.caution), cfg) && Holds(1.0, cfg)
    ensures Holds(c, cfg)
  {
    var a := Clamp01(Above(cfg.caution));
    if c <= cfg.restrict {
      RisingLine(a, c, cfg.floor, cfg.caution, cfg.restrict);
      RoundMonotone(Line(a, cfg.floor, cfg.caution, cfg.restrict), Line(c, cfg.floor, cfg.caution, cfg.restrict), SIX);
    }
  }

  lemma FourSuffice(c: real, cfg: Config)
    requires Round(c, EIGHT) == c && HoldsAtFour(cfg)
    ensures Holds(c, cfg)
  {
    var x := Clamp01(c);
    ClampedGrid(c);
    Neighbours(cfg.caution, x);
    if cfg.floor <= 0.70 {
      MultiplierAntitone(x, 1.0, cfg.floor, cfg.caution, cfg.restrict);
    } else if x <= cfg.caution {
      HoldsBelow(x, cfg);
    } else {
      HoldsAbove(x, cfg);
    }
  }

  /** For every configuration whose weights do not cancel: no pressures at all, or none within [0, 1], raise the floor
      error if and only if the multiplier reaches the floor at four composites. */
  lemma NeverUndercutsIff(cfg: Config)
    requires TotalWeight(cfg.weights) != 0.0
    ensures NeverUndercuts(cfg) <==> HoldsAtFour(cfg)
    ensures (forall scores | WithinScale(scores) :: Computed(cfg, scores, false) != Err(FloorError)) <==>
            HoldsAtFour(cfg)
  {
    if HoldsAtFour(cfg) {
      forall scores ensures Computed(cfg, scores, false) != Err(FloorError) {
        var composite := Composite(scores, cfg.weights, TotalWeight(cfg.weights));
        RoundIsOnGrid(composite, EIGHT);
        FourSuffice(Round(composite, EIGHT), cfg);
      }
    } else {
      var c := Undercut(cfg);
      CompositeOccurs(cfg, c);
    }
  }

  lemma Undercut(cfg: Config) returns (c: real)
    requires !HoldsAtFour(cfg)
    ensures 0.0 <= c <= 1.0 && Round(c, EIGHT) == c && !Holds(c, cfg)
  {
    GridPoint(0);
    GridPoint(100000000);
    var n := (cfg.caution * EIGHT).Floor;
    GridPoint(n);
    GridPoint(n + 1);
    c := if !Holds(0.0, cfg) then 0.0
         else if !Holds(1.0, cfg) then 1.0
         else if !Holds(Below(cfg.caution), cfg) then Below(cfg.caution)
         else Above(cfg.caution);
    ClampedGrid(c);
    c := Clamp01(c);
  }

  /** With both thresholds inside the scale the floor must survive six decimals, and one above 0.70 must be reached on
      both sides of the first threshold; if that threshold has no more than eight decimals, it never is. */
  lemma NeverUndercutsInsideScale(cfg: Config)
    requires TotalWeight(cfg.weights) != 0.0 && 0.0 < cfg.caution < 1.0 && cfg.restrict < 1.0
    ensures NeverUndercuts(cfg) <==>
            && Round(cfg.floor, SIX) >= cfg.floor
            && (cfg.floor <= 0.70 || (Holds(Below(cfg.caution), cfg) && Holds(Above(cfg.caution), cfg)))
    ensures OnGrid(cfg.caution, EIGHT) ==>
              (NeverUndercuts(cfg) <==> cfg.floor <= 0.70 && Round(cfg.floor, SIX) >= cfg.floor)
  {
    NeverUndercutsIff(cfg);
    InsideEnds(cfg);
    GridPoint(0);
    Neighbours(cfg.caution, 0.0);
    if Holds(Below(cfg.caution), cfg) {
      HoldsBelow(0.0, cfg);
    }
    if cfg.floor <= 0.70 && Round(cfg.floor, SIX) >= cfg.floor {
      MultiplierRange(0.0, cfg.floor, cfg.caution, cfg.restrict);
      MultiplierRange(Below(cfg.caution), cfg.floor, cfg.caution, cfg.restrict);
      MultiplierRange(Above(cfg.caution), cfg.floor, cfg.caution, cfg.restrict);
    }
  }

  lemma InsideEnds(cfg: Config)
    requires 0.0 < cfg.caution < 1.0 && cfg.restrict < 1.0
    ensures Holds(1.0, cfg) <==> Round(cfg.floor, SIX) >= cfg.floor
    ensures OnGrid(cfg.caution, EIGHT) ==> (Holds(Below(cfg.caution), cfg) <==> 0.70 >= cfg.floor)
  {
    if OnGrid(cfg.caution, EIGHT) {
      assert Below(cfg.caution) == cfg.caution;
      WholeShare(cfg.caution);
      assert Line(cfg.caution, cfg.floor, cfg.caution, cfg.restrict) == 0.70;
      assert 0.70 * SIX == 700000.0;
    }
  }

  lemma WholeShare(x: real)
    requires x > 0.0
    ensures x / x == 1.0
  {
  }

  /** With the first threshold at full pressure or beyond, the second piece is never reached: the error is
      impossible exactly when the first piece ends at the floor or above it. */
  lemma NeverUndercutsBeyondScale(cfg: Config)
    requires TotalWeight(cfg.weights) != 0.0 && cfg.caution >= 1.0
    ensures NeverUndercuts(cfg) <==> Round(1.0 - 0.30 / cfg.caution, SIX) >= cfg.floor
  {
    NeverUndercutsIff(cfg);
    FullPressureLine(cfg.floor, cfg.caution, cfg.restrict);
    LineAntitone(0.0, 1.0, 0.70, cfg.caution, cfg.restrict);
    RoundMonotone(
      Line(1.0, cfg.floor, cfg.caution, cfg.restrict), Line(0.0, cfg.floor, cfg.caution, cfg.restrict), SIX);
    GridPoint(100000000);
    Neighbours(cfg.caution, 1.0);
  }

  lemma FullPressureLine(floor: real, caution: real, restrict: real)
    requires caution >= 1.0
    ensures Line(1.0, floor, caution, restrict) == 1.0 - 0.30 / caution
  {
    assert 1.0 / caution * 0.30 == 0.30 / caution;
  }

  // Scaling the weights.

  function Rescaled(weights: seq<DomainWeight>, k: real): seq<DomainWeight> {
    seq(|weights|, i requires 0 <= i < |weights| => weights[i].(weight := k * weights[i].weight))
  }

  lemma {:induction false} SumScales(xs: seq<real>, ys: seq<real>, k: real)
    requires |xs| == |ys| && forall i | 0 <= i < |xs| :: ys[i] == k * xs[i]
    ensures Sum(ys) == k * Sum(xs)
  {
    if xs != [] {
      SumScales(xs[..|xs| - 1], ys[..|ys| - 1], k);
      Distribute(k, Sum(xs[..|xs| - 1]), xs[|xs| - 1]);
    }
  }

  lemma Distribute(k: real, x: real, y: real)
    ensures k * (x + y) == k * x + k * y
  {
  }

  lemma RescaledTotal(weights: seq<DomainWeight>, k: real)
    ensures TotalWeight(Rescaled(weights, k)) == k * TotalWeight(weights)
  {
    var r := Rescaled(weights, k);
    SumScales(seq(|weights|, i requires 0 <= i < |weights| => weights[i].weight),
      seq(|r|, i requires 0 <= i < |r| => r[i].weight), k);
  }

  lemma RescaledQuotient(s: real, w: real, t: real, k: real)
    requires k > 0.0 && t != 0.0
    ensures k * t != 0.0 && s * (k * w) / (k * t) == s * w / t
  {
    var q := s * w / t;
    assert q * t == s * w;
    assert q * (k * t) == k * (q * t) == s * (k * w);
  }

  lemma RescaledTerm(scores: Scores, w: DomainWeight, r: DomainWeight, total: real, k: real)
    requires total != 0.0 && k > 0.0 && k * total != 0.0
    requires r == w.(weight := k * w.weight)
    ensures Contribution(scores, r, k * total) == Contribution(scores, w, total)
  {
    RescaledQuotient(ScoreOf(scores, w.domain), w.weight, total, k);
  }

  lemma RescaledTerms(scores: Scores, weights: seq<DomainWeight>, total: real, k: real)
    requires total != 0.0 && k > 0.0
    ensures k * total != 0.0
    ensures Terms(scores, Rescaled(weights, k), k * total) == Terms(scores, weights, total)
    ensures Domains(Rescaled(weights, k)) == Domains(weights)
  {
    RescaledQuotient(0.0, 0.0, total, k);
    forall i | 0 <= i < |weights|
      ensures Contribution(scores, Rescaled(weights, k)[i], k * total) == Contribution(scores, weights[i], total)
    {
      RescaledTerm(scores, weights[i], Rescaled(weights, k)[i], total, k);
    }
  }

  lemma ZeroProduct(k: real, t: real)
    requires k > 0.0
    ensures k * t == 0.0 <==> t == 0.0
  {
  }

  lemma RescaledSums(scores: Scores, weights: seq<DomainWeight>, k: real)
    requires k > 0.0 && TotalWeight(weights) != 0.0
    ensures var r := Rescaled(weights, k);
      && TotalWeight(r) != 0.0
      && Composite(scores, r, TotalWeight(r)) == Composite(scores, weights, TotalWeight(weights))
      && Contributions(scores, r, TotalWeight(r)) == Contributions(scores, weights, TotalWeight(weights))
  {
    RescaledTotal(weights, k);
    RescaledTerms(scores, weights, TotalWeight(weights), k);
  }

  lemma RescaledZero(weights: seq<DomainWeight>, k: real)
    requires k > 0.0
    ensures TotalWeight(Rescaled(weights, k)) == 0.0 <==> TotalWeight(weights) == 0.0
  {
    RescaledTotal(weights, k);
    ZeroProduct(k, TotalWeight(weights));
  }

  lemma JudgedIgnoresWeights(
    cfg: Config, weights: seq<DomainWeight>, composite: real, contributions: map<string, real>, override: bool)
    ensures Judged(cfg.(weights := weights), composite, contributions, override)
         == Judged(cfg, composite, contributions, override)
  {
  }

  /** Only the proportions of the weights matter. */
  lemma ScalingChangesNothing(cfg: Config, k: real, scores: Scores, override: bool)
    requires k > 0.0
    ensures Computed(cfg.(weights := Rescaled(cfg.weights, k)), scores, override) == Computed(cfg, scores, override)
  {
    var weights, r := cfg.weights, Rescaled(cfg.weights, k);
    RescaledZero(weights, k);
    if TotalWeight(weights) != 0.0 {
      RescaledSums(scores, weights, k);
      JudgedIgnoresWeights(cfg, r, Round(Composite(scores, weights, TotalWeight(weights)), EIGHT),
        Contributions(scores, weights, TotalWeight(weights)), override);
    }
  }
}
