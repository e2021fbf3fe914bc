/** What a reading of `dorkllm/adaptive_throttle.py` says: composite, contributions, multiplier and regime. */
module ThrottleReadings {
  import opened Rounding
  import opened AdaptiveThrottle
  import opened Wrappers

  // The composite is the weighted mean.

  /** The weight of a domain in the list. */
  function WeightOf(weights: seq<DomainWeight>, d: string): real {
    if weights == [] then 0.0
    else
      var last := weights[|weights| - 1];
      WeightOf(weights[..|weights| - 1], d) + if last.domain == d then last.weight else 0.0
  }

  lemma {:induction false} TermsOfNothing(weights: seq<DomainWeight>, total: real)
    requires total != 0.0
    ensures Sum(Terms(map[], weights, total)) == 0.0
  {
    var terms := Terms(map[], weights, total);
    if weights != [] {
      var front := weights[..|weights| - 1];
      TermsOfNothing(front, total);
      assert terms[..|front|] == Terms(map[], front, total);
    }
  }

  /** The share `w` of the total, times `x`. */
  function Part(x: real, w: real, total: real): real
    requires total != 0.0
  {
    x * w / total
  }

  lemma PartMoves(x: real, y: real, w: real, total: real)
    requires total != 0.0
    ensures Part(x, w, total) - Part(y, w, total) == Part(x - y, w, total)
  {
    assert x * w - y * w == (x - y) * w;
    Quotients(x * w, y * w, total);
  }

  lemma Quotients(a: real, b: real, total: real)
    requires total != 0.0
    ensures a / total - b / total == (a - b) / total
    ensures a / total + b / total == (a + b) / total
  {
  }

  lemma PartsJoin(x: real, v: real, w: real, total: real)
    requires total != 0.0
    ensures Part(x, v, total) + Part(x, w, total) == Part(x, v + w, total)
  {
    assert x * v + x * w == x * (v + w);
    Quotients(x * v, x * w, total);
  }

  lemma TermMoves(scores: Scores, w: DomainWeight, total: real, d: string, x: real)
    requires total != 0.0
    ensures Contribution(scores[d := x], w, total) - Contribution(scores, w, total)
         == if w.domain == d then Part(x - ScoreOf(scores, d), w.weight, total) else 0.0
  {
    PartMoves(x, ScoreOf(scores, d), w.weight, total);
  }

  lemma NoPart(x: real, total: real)
    requires total != 0.0
    ensures Part(x, 0.0, total) == 0.0
  {
  }

  lemma {:induction false} TermsMove(scores: Scores, weights: seq<DomainWeight>, total: real, d: string, x: real)
    requires total != 0.0
    ensures Sum(Terms(scores[d := x], weights, total)) - Sum(Terms(scores, weights, total))
         == Part(x - ScoreOf(scores, d), WeightOf(weights, d), total)
  {
    if weights == [] {
      NoPart(x - ScoreOf(scores, d), total);
    } else {
      var front, last := weights[..|weights| - 1], weights[|weights| - 1];
      TermsMove(scores, front, total, d, x);
      TermsSnoc(scores, weights, total);
      TermsSnoc(scores[d := x], weights, total);
      TermMoves(scores, last, total, d, x);
      PartsJoin(x - ScoreOf(scores, d), WeightOf(front, d), last.weight, total);
    }
  }

  lemma TermsSnoc(scores: Scores, weights: seq<DomainWeight>, total: real)
    requires total != 0.0 && weights != []
    ensures var n := |weights| - 1;
      Sum(Terms(scores, weights, total))
      == Sum(Terms(scores, weights[..n], total)) + Contribution(scores, weights[n], total)
  {
    assert Terms(scores, weights, total)[..|weights| - 1] == Terms(scores, weights[..|weights| - 1], total);
  }

  /** Without pressure the composite is 0, and moving one domain's pressure moves it by that domain's share of the
      weights: so the composite is the mean of the pressures by weight. */
  lemma CompositeIsWeightedMean(scores: Scores, weights: seq<DomainWeight>, d: string, x: real)
    requires TotalWeight(weights) != 0.0
    ensures var total := TotalWeight(weights);
      && Composite(map[], weights, total) == 0.0
      && Composite(scores[d := x], weights, total) - Composite(scores, weights, total)
         == Part(x - ScoreOf(scores, d), WeightOf(weights, d), total)
  {
    TermsOfNothing(weights, TotalWeight(weights));
    TermsMove(scores, weights, TotalWeight(weights), d, x);
  }

  // The table of contributions.

  ghost predicate DistinctDomains(weights: seq<DomainWeight>) {
    forall i, j | 0 <= i < j < |weights| :: weights[i].domain != weights[j].domain
  }

  /** The contributions shown, in the order of the weights. */
  function Shown(table: map<string, real>, weights: seq<DomainWeight>): seq<real>
    requires forall w | w in weights :: w.domain in table
  {
    seq(|weights|, i requires 0 <= i < |weights| => assert weights[i] in weights; table[weights[i].domain])
  }

  lemma {:induction false} TabledKeys(domains: seq<string>, terms: seq<real>)
    requires |domains| == |terms|
    ensures Tabled(domains, terms).Keys == set d | d in domains
  {
    if domains != [] {
      var n := |domains| - 1;
      TabledKeys(domains[..n], terms[..n]);
      assert forall d :: d in domains <==> d in domains[..n] || d == domains[n];
    }
  }

  lemma {:induction false} TabledAt(domains: seq<string>, terms: seq<real>, i: nat)
    requires |domains| == |terms| && i < |domains|
    requires forall j | 0 <= j < |domains| && j != i :: domains[j] != domains[i]
    ensures domains[i] in Tabled(domains, terms) && Tabled(domains, terms)[domains[i]] == Round(terms[i], EIGHT)
  {
    var n := |domains| - 1;
    if i < n {
      TabledAt(domains[..n], terms[..n], i);
    }
  }

  /** `n` times the error. */
  function Errors(n: nat, e: real): real {
    if n == 0 then 0.0 else Errors(n - 1, e) + e
  }

  lemma {:induction false} SumsNear(xs: seq<real>, ys: seq<real>, e: real)
    requires |xs| == |ys| && forall i | 0 <= i < |xs| :: -e <= xs[i] - ys[i] <= e
    ensures -Errors(|xs|, e) <= Sum(xs) - Sum(ys) <= Errors(|xs|, e)
  {
    if xs != [] {
      var n := |xs| - 1;
      SumsNear(xs[..n], ys[..n], e);
    }
  }

  /** Half of the last of eight decimals. */
  const HALF := 0.000000005

  lemma HalfOfEight()
    ensures 0.5 / EIGHT == HALF
  {
  }

  /** A reading has one contribution for each domain, and together they make up the composite, up to the rounding of
      each of these numbers to eight decimals. */
  lemma ContributionsAddUp(cfg: Config, scores: Scores, override: bool)
    requires TotalWeight(cfg.weights) != 0.0 && DistinctDomains(cfg.weights) && Computed(cfg, scores, override).Ok?
    ensures var r := Computed(cfg, scores, override).value;
      && r.contributions.Keys == (set d | d in Domains(cfg.weights))
      && (forall w | w in cfg.weights :: w.domain in r.contributions)
      && -Errors(|cfg.weights| + 1, HALF)
         <= Sum(Shown(r.contributions, cfg.weights)) - r.composite <= Errors(|cfg.weights| + 1, HALF)
  {
    var weights, total := cfg.weights, TotalWeight(cfg.weights);
    TabledKeys(Domains(weights), Terms(scores, weights, total));
    TableSums(weights, scores, total);
  }

  lemma TableSums(weights: seq<DomainWeight>, scores: Scores, total: real)
    requires total != 0.0 && DistinctDomains(weights)
    ensures var table := Contributions(scores, weights, total);
      && (forall w | w in weights :: w.domain in table)
      && -Errors(|weights| + 1, HALF)
         <= Sum(Shown(table, weights)) - Round(Composite(scores, weights, total), EIGHT) <= Errors(|weights| + 1, HALF)
  {
    var table, terms := Contributions(scores, weights, total), Terms(scores, weights, total);
    forall w | w in weights ensures w.domain in table {
      var i :| 0 <= i < |weights| && weights[i] == w;
      ShownNear(scores, weights, total, i);
    }
    var shown := Shown(table, weights);
    forall i | 0 <= i < |weights| ensures -HALF <= shown[i] - terms[i] <= HALF {
      ShownNear(scores, weights, total, i);
    }
    SumsNear(shown, terms, HALF);
    RoundError(Sum(terms), EIGHT);
    HalfOfEight();
    NegatedQuotient();
  }

  lemma NegatedQuotient()
    ensures -0.5 / EIGHT == -HALF
  {
  }

  lemma ShownNear(scores: Scores, weights: seq<DomainWeight>, total: real, i: nat)
    requires total != 0.0 && DistinctDomains(weights) && i < |weights|
    ensures var table, d := Contributions(scores, weights, total), weights[i].domain;
      d in table && -HALF <= table[d] - Contribution(scores, weights[i], total) <= HALF
  {
    TabledAt(Domains(weights), Terms(scores, weights, total), i);
    RoundError(Contribution(scores, weights[i], total), EIGHT);
    HalfOfEight();
    NegatedQuotient();
  }

  /** Each contribution is the pressure of its domain times its share of the weights, to eight decimals. */
  lemma ContributionIsShare(cfg: Config, scores: Scores, override: bool, i: nat)
    requires TotalWeight(cfg.weights) != 0.0 && DistinctDomains(cfg.weights) && Computed(cfg, scores, override).Ok?
    requires i < |cfg.weights|
    ensures var r, w := Computed(cfg, scores, override).value, cfg.weights[i];
      && w.domain in r.contributions
      && -HALF <= r.contributions[w.domain] - ScoreOf(scores, w.domain) * w.weight / TotalWeight(cfg.weights) <= HALF
  {
    ShownNear(scores, cfg.weights, TotalWeight(cfg.weights), i);
  }

  // The multiplier before rounding.

  /** With the thresholds in order the map runs straight from 1 to 0.70 at the first and on to the floor at the
      second. */
  lemma LineIsInterpolated(c: real, floor: real, caution: real, restrict: real)
    requires 0.0 < caution < restrict
    ensures var m := Line(c, floor, caution, restrict);
      && (c <= caution ==> (1.0 - m) * caution == 0.30 * c)
      && (caution <= c <= restrict ==> (0.70 - m) * (restrict - caution) == (c - caution) * (0.70 - floor))
      && (c >= restrict ==> m == floor)
  {
    if c <= caution {
      FirstPiece(c, caution);
    } else if c <= restrict {
      SecondPiece(c - caution, restrict - caution, 0.70 - floor);
    }
    WholeShare(caution);
    WholeShare(restrict - caution);
  }

  lemma FirstPiece(c: real, caution: real)
    requires caution > 0.0
    ensures c / caution * 0.30 * caution == 0.30 * c
  {
    Restored(c, caution);
    assert c / caution * 0.30 * caution == c / caution * caution * 0.30;
  }

  lemma SecondPiece(x: real, w: real, gap: real)
    requires w > 0.0
    ensures x / w * gap * w == x * gap
  {
    Restored(x, w);
    assert x / w * gap * w == x / w * w * gap;
  }

  // The regime, in terms of the composite.

  lemma AtLeastSix(x: real, k: int)
    requires k % 2 == 0
    ensures Round(x, SIX) >= k as real / SIX <==> x * SIX >= k as real - 0.5
  {
    RoundAtLeast(x, SIX, k);
  }

  lemma MultiplierOpen(c: real, cfg: Config)
    requires 0.0 <= c <= 1.0 && 0.0 < cfg.caution && cfg.floor <= 0.70
    ensures PressureToMultiplier(c, cfg.floor, cfg.caution, cfg.restrict) >= 0.80 <==>
            0.30 * c <= 0.2000005 * cfg.caution
  {
    var m := Line(c, cfg.floor, cfg.caution, cfg.restrict);
    AtLeastSix(m, 800000);
    if c <= cfg.caution {
      Restored(c, cfg.caution);
      OpenAt(c / cfg.caution, c, cfg.caution);
    } else {
      LineRange(c, cfg.floor, cfg.caution, cfg.restrict);
    }
  }

  lemma OpenAt(q: real, c: real, caution: real)
    requires caution > 0.0 && q * caution == c
    ensures (1.0 - q * 0.30) * SIX >= 799999.5 <==> 0.30 * c <= 0.2000005 * caution
  {
    Compare(0.30 * q, 0.2000005, caution);
    assert 0.30 * q * caution == 0.30 * c;
  }

  lemma Compare(x: real, y: real, t: real)
    requires t > 0.0
    ensures x <= y <==> x * t <= y * t
  {
    if x <= y {
      ProductOrdered(x, y, t);
    } else {
      assert (x - y) * t > 0.0;
      assert (x - y) * t == x * t - y * t;
    }
  }

  lemma ProductOrdered(x: real, y: real, t: real)
    requires x <= y && t > 0.0
    ensures x * t <= y * t
  {
  }

  lemma MultiplierRestricts(c: real, cfg: Config)
    requires 0.0 <= c <= 1.0 && cfg.caution < cfg.restrict && cfg.floor < 0.3999995
    ensures PressureToMultiplier(c, cfg.floor, cfg.caution, cfg.restrict) < 0.40 <==>
            c > cfg.restrict
            || (c > cfg.caution && (c - cfg.caution) * (0.70 - cfg.floor) > 0.3000005 * (cfg.restrict - cfg.caution))
  {
    var m := Line(c, cfg.floor, cfg.caution, cfg.restrict);
    AtLeastSix(m, 400000);
    if c <= cfg.caution {
      LineRange(c, cfg.floor, cfg.caution, cfg.restrict);
    } else if c <= cfg.restrict {
      RestrictAt(c - cfg.caution, cfg.restrict - cfg.caution, 0.70 - cfg.floor);
    }
  }

  lemma RestrictAt(x: real, w: real, gap: real)
    requires w > 0.0
    ensures (0.70 - x / w * gap) * SIX >= 399999.5 <==> x * gap <= 0.3000005 * w
  {
    SecondPiece(x, w, gap);
    Compare(x / w * gap, 0.3000005, w);
  }

  /** Without an override, the regime is OPEN exactly up to two thirds of the first threshold, and RESTRICT exactly from
      the pressure on where the second piece falls below 0.40, six decimals of the multiplier allowed for. */
  lemma RegimeByPressure(cfg: Config, scores: Scores)
    requires Computed(cfg, scores, false).Ok? && 0.0 < cfg.caution < cfg.restrict && cfg.floor < 0.3999995
    requires 0.0 <= Computed(cfg, scores, false).value.composite <= 1.0
    ensures var r := Computed(cfg, scores, false).value;
      var c := r.composite;
      && (r.regime == OPEN <==> 0.30 * c <= 0.2000005 * cfg.caution)
      && (r.regime == RESTRICT <==>
            c > cfg.restrict
            || (c > cfg.caution && (c - cfg.caution) * (0.70 - cfg.floor) > 0.3000005 * (cfg.restrict - cfg.caution)))
      && r.regime != OVERRIDE
  {
    var r := Computed(cfg, scores, false).value;
    RegimeIff(cfg, scores);
    MultiplierOpen(r.composite, cfg);
    MultiplierRestricts(r.composite, cfg);
  }

  lemma RegimeIff(cfg: Config, scores: Scores)
    requires Computed(cfg, scores, false).Ok?
    ensures var r := Computed(cfg, scores, false).value;
      && r.multiplier == PressureToMultiplier(r.composite, cfg.floor, cfg.caution, cfg.restrict)
      && (r.regime == OPEN <==> r.multiplier >= 0.80) && (r.regime == RESTRICT <==> r.multiplier < 0.40)
      && r.regime != OVERRIDE
  {
  }
}
