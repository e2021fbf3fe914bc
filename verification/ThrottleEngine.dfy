/** The throttle engine of `dorkllm/adaptive_throttle.py`: computations, the emergency override and weight changes,
    each recorded in a numbered, chained ledger. */
module ThrottleEngine {
  import opened HashChain
  import opened Text
  import opened AdaptiveThrottle
  import opened Wrappers

  datatype Action = ENGAGE | RELEASE

  datatype Event =
    | ThrottleEvent(reading: Reading, scores: Scores, overrideActive: bool)
    | EmergencyOverride(operator: string, action: Action)
    | WeightConfig(operator: string, weights: seq<DomainWeight>, total: real)

  datatype Record = Record(number: nat, event: Event)

  type Ledger = seq<Link<Record>>

  type Mac = (Record, Hash) -> Hash

  datatype Snapshot = Snapshot(reading: Reading, number: nat, digest: Hash)

  /** The receipt of a ledger write. */
  datatype Receipt = Receipt(number: nat, digest: Hash)

  datatype State = State(
    config: Config, override: bool, operator: Option<string>, chain: Ledger, prev: Hash, number: nat)

  function Appended(s: State, event: Event, mac: Mac): (State, Receipt) {
    var record := Record(s.number + 1, event);
    var digest := mac(record, s.prev);
    (s.(chain := s.chain + [Link(record, digest)], prev := digest, number := s.number + 1),
     Receipt(s.number + 1, digest))
  }

  function ComputeStep(s: State, scores: Scores, mac: Mac): (State, Result<Snapshot, Error>) {
    match Computed(s.config, scores, s.override)
    case Err(e) => (s, Err(e))
    case Ok(reading) =>
      var (s', r) := Appended(s, ThrottleEvent(reading, scores, s.override), mac);
      (s', Ok(Snapshot(reading, r.number, r.digest)))
  }

  function OverrideStep(s: State, operator: string, action: Action, mac: Mac): (State, Result<Receipt, Error>) {
    if Blank(operator) then (s, Err(AuthError))
    else
      var o := Strip(operator);
      var s' := s.(override := action == ENGAGE, operator := if action == ENGAGE then Some(o) else None);
      var (t, r) := Appended(s', EmergencyOverride(o, action), mac);
      (t, Ok(r))
  }

  function ReconfigureStep(
    s: State, weights: seq<DomainWeight>, operator: string, mac: Mac): (State, Result<Receipt, Error>)
  {
    if Blank(operator) then (s, Err(AuthError))
    else if TotalWeight(weights) == 0.0 then (s, Err(DeterminismError))
    else
      var s' := s.(config := s.config.(weights := weights));
      var (t, r) := Appended(s', WeightConfig(Strip(operator), weights, TotalWeight(weights)), mac);
      (t, Ok(r))
  }

  /** The throttle events of a ledger, as snapshots. */
  function History(chain: Ledger): seq<Snapshot> {
    if chain == [] then []
    else
      var last := chain[|chain| - 1];
      History(chain[..|chain| - 1]) +
      match last.body.event
      case ThrottleEvent(reading, _, _) => [Snapshot(reading, last.body.number, last.digest)]
      case _ => []
  }

  class AMTLedger {
    const mac: Mac
    var chain: Ledger
    var prev: Hash
    var number: nat

    constructor (mac: Mac)
      ensures chain == [] && prev == GENESIS && number == 0 && this.mac == mac
    {
      this.mac, chain, prev, number := mac, [], GENESIS, 0;
    }

    method Append(event: Event) returns (r: Receipt)
      modifies this
      ensures number == old(number) + 1 && prev == mac(Record(number, event), old(prev))
      ensures chain == old(chain) + [Link(Record(number, event), prev)]
      ensures r == Receipt(number, prev)
    {
      number := number + 1;
      var record := Record(number, event);
      prev := mac(record, prev);
      chain := chain + [Link(record, prev)];
      return Receipt(number, prev);
    }

    method VerifyChain() returns (ok: bool)
      ensures ok <==> Linked(chain, mac)
    {
      var last := GENESIS;
      for i := 0 to |chain|
        invariant last == if i == 0 then GENESIS else chain[i - 1].digest
        invariant forall j: nat | j < i :: LinkIntact(chain, j, mac)
      {
        if mac(chain[i].body, last) != chain[i].digest {
          assert !LinkIntact(chain, i, mac);
          return false;
        }
        last := chain[i].digest;
      }
      ok := true;
    }
  }

  class Engine {
    var config: Config
    const ledger: AMTLedger
    var override: bool
    var operator: Option<string>

    /** An engine starts with the override released, whatever its ledger holds. */
    constructor (config: Config, ledger: AMTLedger)
      ensures View() == State(config, false, None, ledger.chain, ledger.prev, ledger.number) && this.ledger == ledger
    {
      this.config, this.ledger, override, operator := config, ledger, false, None;
    }

    ghost function View(): State
      reads this, ledger
    {
      State(config, override, operator, ledger.chain, ledger.prev, ledger.number)
    }

    method Compute(scores: Scores) returns (r: Result<Snapshot, Error>)
      modifies this, ledger
      ensures (View(), r) == ComputeStep(old(View()), scores, ledger.mac)
    {
      var total := SumWeights(config.weights);
      if total == 0.0 {
        return Err(DeterminismError);
      }
      var contributions, composite := Contribute(config.weights, scores, total);
      var multiplier := 0.0;
      if !override {
        multiplier := PressureToMultiplier(composite, config.floor, config.caution, config.restrict);
        if multiplier < config.floor {
          return Err(FloorError);
        }
      }
      var regime := ClassifyRegime(multiplier, override);
      var reading := Reading(multiplier, regime, contributions, composite);
      var receipt := ledger.Append(ThrottleEvent(reading, scores, override));
      return Ok(Snapshot(reading, receipt.number, receipt.digest));
    }

    method EngageEmergencyOverride(operator: string) returns (r: Result<Receipt, Error>)
      modifies this, ledger
      ensures (View(), r) == OverrideStep(old(View()), operator, ENGAGE, ledger.mac)
    {
      if Blank(operator) {
        return Err(AuthError);
      }
      override := true;
      this.operator := Some(Strip(operator));
      var receipt := ledger.Append(EmergencyOverride(Strip(operator), ENGAGE));
      return Ok(receipt);
    }

    method ReleaseEmergencyOverride(operator: string) returns (r: Result<Receipt, Error>)
      modifies this, ledger
      ensures (View(), r) == OverrideStep(old(View()), operator, RELEASE, ledger.mac)
    {
      if Blank(operator) {
        return Err(AuthError);
      }
      override := false;
      this.operator := None;
      var receipt := ledger.Append(EmergencyOverride(Strip(operator), RELEASE));
      return Ok(receipt);
    }

    method ReconfigureWeights(weights: seq<DomainWeight>, operator: string) returns (r: Result<Receipt, Error>)
      modifies this, ledger
      ensures (View(), r) == ReconfigureStep(old(View()), weights, operator, ledger.mac)
    {
      if Blank(operator) {
        return Err(AuthError);
      }
      var total := SumWeights(weights);
      if total == 0.0 {
        return Err(DeterminismError);
      }
      config := config.(weights := weights);
      var receipt := ledger.Append(WeightConfig(Strip(operator), weights, total));
      return Ok(receipt);
    }

    method ThrottleHistory() returns (out: seq<Snapshot>)
      ensures out == History(ledger.chain)
    {
      out := [];
      for i := 0 to |ledger.chain|
        invariant out == History(ledger.chain[..i])
      {
        assert ledger.chain[..i + 1][..i] == ledger.chain[..i];
        var link := ledger.chain[i];
        match link.body.event
        case ThrottleEvent(reading, _, _) => out := out + [Snapshot(reading, link.body.number, link.digest)];
        case _ =>
      }
      assert ledger.chain[..|ledger.chain|] == ledger.chain;
    }
  }

  method SumWeights(weights: seq<DomainWeight>) returns (total: real)
    ensures total == TotalWeight(weights)
  {
    ghost var xs := seq(|weights|, i requires 0 <= i < |weights| => weights[i].weight);
    total := 0.0;
    for i := 0 to |weights|
      invariant total == Sum(xs[..i])
    {
      assert xs[..i + 1][..i] == xs[..i];
      total := total + weights[i].weight;
    }
    assert xs[..|weights|] == xs;
  }

  /** The loop of `compute` over the domain weights. */
  method Contribute(weights: seq<DomainWeight>, scores: Scores, total: real)
    returns (contributions: map<string, real>, composite: real)
    requires total != 0.0
    ensures contributions == Contributions(scores, weights, total)
    ensures composite == Rounding.Round(Composite(scores, weights, total), EIGHT)
  {
    ghost var terms, domains := Terms(scores, weights, total), Domains(weights);
    contributions, composite := map[], 0.0;
    for i := 0 to |weights|
      invariant composite == Sum(terms[..i]) && contributions == Tabled(domains[..i], terms[..i])
    {
      assert terms[..i + 1][..i] == terms[..i] && domains[..i + 1][..i] == domains[..i];
      var w := weights[i];
      var contribution := Contribution(scores, w, total);
      contributions := contributions[w.domain := Rounding.Round(contribution, EIGHT)];
      composite := composite + contribution;
    }
    assert terms[..|weights|] == terms && domains[..|weights|] == domains;
    composite := Rounding.Round(composite, EIGHT);
  }

  // Whole runs.

  datatype Op =
    | Compute(scores: Scores)
    | Engage(operator: string)
    | Release(operator: string)
    | Reconfigure(weights: seq<DomainWeight>, operator: string)

  function Step(s: State, op: Op, mac: Mac): State {
    match op
    case Compute(scores) => ComputeStep(s, scores, mac).0
    case Engage(operator) => OverrideStep(s, operator, ENGAGE, mac).0
    case Release(operator) => OverrideStep(s, operator, RELEASE, mac).0
    case Reconfigure(weights, operator) => ReconfigureStep(s, weights, operator, mac).0
  }

  function Run(config: Config, ops: seq<Op>, mac: Mac): State {
    if ops == [] then State(config, false, None, [], GENESIS, 0)
    else Step(Run(config, ops[..|ops| - 1], mac), ops[|ops| - 1], mac)
  }

  /** Whether the latest override record is ENGAGE. */
  function Engaged(chain: Ledger): bool {
    if chain == [] then false
    else
      match chain[|chain| - 1].body.event
      case EmergencyOverride(_, action) => action == ENGAGE
      case _ => Engaged(chain[..|chain| - 1])
  }

  predicate IsOverride(link: Link<Record>) {
    link.body.event.EmergencyOverride?
  }

  /** Record `j` is an override and no later record is. */
  predicate Latest(chain: Ledger, j: nat) {
    j < |chain| && IsOverride(chain[j]) && forall k | j < k < |chain| :: !IsOverride(chain[k])
  }

  lemma {:induction false} EngagedIffLatest(chain: Ledger)
    ensures Engaged(chain) <==> exists j: nat :: Latest(chain, j) && chain[j].body.event.action == ENGAGE
  {
    if chain != [] {
      var front := chain[..|chain| - 1];
      if IsOverride(chain[|front|]) {
        assert Latest(chain, |front|);
      } else {
        EngagedIffLatest(front);
        forall j: nat ensures Latest(chain, j) <==> Latest(front, j) {
          LatestOfFront(chain, j);
        }
      }
    }
  }

  lemma LatestOfFront(chain: Ledger, j: nat)
    requires chain != [] && !IsOverride(chain[|chain| - 1])
    ensures Latest(chain, j) <==> Latest(chain[..|chain| - 1], j)
  {
    var front := chain[..|chain| - 1];
    if Latest(front, j) {
      forall k | j < k < |chain| ensures !IsOverride(chain[k]) {
        assert k < |front| ==> front[k] == chain[k];
      }
    }
    if Latest(chain, j) {
      forall k | j < k < |front| ensures !IsOverride(front[k]) {
        assert front[k] == chain[k];
      }
    }
  }

  /** What a logged event must say, given the ledger before it. */
  ghost predicate Honest(before: Ledger, event: Event, floor: real) {
    match event
    case ThrottleEvent(reading, _, active) =>
      && active == Engaged(before)
      && (reading.regime == OVERRIDE <==> active)
      && (if active then reading.multiplier == 0.0 else reading.multiplier >= floor)
      && (floor <= 0.70 ==> reading.multiplier <= 1.0)
    case EmergencyOverride(operator, _) => operator != ""
    case WeightConfig(operator, weights, total) => operator != "" && total == TotalWeight(weights) != 0.0
  }

  ghost predicate RecordHonest(chain: Ledger, i: nat, floor: real)
    requires i < |chain|
  {
    chain[i].body.number == i + 1 && Honest(chain[..i], chain[i].body.event, floor)
  }

  ghost predicate Kept(s: State, config: Config, mac: Mac) {
    && s.config == config.(weights := s.config.weights)
    && Linked(s.chain, mac) && s.prev == LastDigest(s.chain) && s.number == |s.chain|
    && s.override == Engaged(s.chain)
    && forall i: nat | i < |s.chain| :: RecordHonest(s.chain, i, config.floor)
  }

  lemma AppendKeeps(s: State, s0: State, config: Config, event: Event, mac: Mac)
    requires Kept(s0, config, mac) && Honest(s0.chain, event, config.floor)
    requires s.chain == s0.chain && s.prev == s0.prev && s.number == s0.number
    requires s.config == config.(weights := s.config.weights)
    requires s.override == if event.EmergencyOverride? then event.action == ENGAGE else s0.override
    ensures Kept(Appended(s, event, mac).0, config, mac)
  {
    var t := Appended(s, event, mac).0;
    LinkKeepsLinked(s.chain, Record(s.number + 1, event), mac);
    forall i: nat | i < |t.chain| ensures RecordHonest(t.chain, i, config.floor) {
      assert t.chain[..i] == s.chain[..i];
      if i < |s.chain| {
        assert RecordHonest(s.chain, i, config.floor);
      }
    }
  }

  lemma ComputedIsHonest(config: Config, scores: Scores, chain: Ledger)
    requires Computed(config, scores, Engaged(chain)).Ok?
    ensures Honest(
      chain, ThrottleEvent(Computed(config, scores, Engaged(chain)).value, scores, Engaged(chain)), config.floor)
  {
    if config.floor <= 0.70 && !Engaged(chain) {
      MultiplierRange(Computed(config, scores, false).value.composite, config.floor, config.caution, config.restrict);
    }
  }

  lemma StepKeeps(s: State, op: Op, config: Config, mac: Mac)
    requires Kept(s, config, mac)
    ensures Kept(Step(s, op, mac), config, mac)
  {
    match op
    case Compute(scores) =>
      var r := Computed(s.config, scores, s.override);
      if r.Ok? {
        ComputedIsHonest(s.config, scores, s.chain);
        AppendKeeps(s, s, config, ThrottleEvent(r.value, scores, s.override), mac);
      }
    case Engage(operator) =>
      if !Blank(operator) {
        StripIsEmptyIffBlank(operator);
        AppendKeeps(s.(override := true, operator := Some(Strip(operator))), s, config,
          EmergencyOverride(Strip(operator), ENGAGE), mac);
      }
    case Release(operator) =>
      if !Blank(operator) {
        StripIsEmptyIffBlank(operator);
        AppendKeeps(
          s.(override := false, operator := None), s, config, EmergencyOverride(Strip(operator), RELEASE), mac);
      }
    case Reconfigure(weights, operator) =>
      if !Blank(operator) && TotalWeight(weights) != 0.0 {
        StripIsEmptyIffBlank(operator);
        AppendKeeps(s.(config := s.config.(weights := weights)), s, config,
          WeightConfig(Strip(operator), weights, TotalWeight(weights)), mac);
      }
  }

  /** Over every run the ledger is linked and numbered from one, its totals and operators are proper, and the
      override flag is what the ledger says. */
  lemma {:induction false} RunsKeep(config: Config, ops: seq<Op>, mac: Mac)
    ensures Kept(Run(config, ops, mac), config, mac)
  {
    if ops != [] {
      RunsKeep(config, ops[..|ops| - 1], mac);
      StepKeeps(Run(config, ops[..|ops| - 1], mac), ops[|ops| - 1], config, mac);
    }
  }

  /** With a positive floor, a logged multiplier is 0 exactly when the latest override record before it is ENGAGE;
      otherwise it is at least the floor. */
  lemma ZeroExactlyWhenEngaged(config: Config, ops: seq<Op>, mac: Mac, i: nat)
    requires config.floor > 0.0
    requires i < |Run(config, ops, mac).chain| && Run(config, ops, mac).chain[i].body.event.ThrottleEvent?
    ensures var chain := Run(config, ops, mac).chain;
      var reading := chain[i].body.event.reading;
      && (reading.multiplier == 0.0 <==> Engaged(chain[..i]))
      && (reading.regime == OVERRIDE <==> Engaged(chain[..i]))
      && (reading.multiplier != 0.0 ==> reading.multiplier >= config.floor)
  {
    RunsKeep(config, ops, mac);
    assert RecordHonest(Run(config, ops, mac).chain, i, config.floor);
  }

  /** The snapshots that `compute` returned in a run, in order. */
  function Returned(config: Config, ops: seq<Op>, mac: Mac): seq<Snapshot> {
    if ops == [] then []
    else
      var front, last := ops[..|ops| - 1], ops[|ops| - 1];
      var r := if last.Compute? then ComputeStep(Run(config, front, mac), last.scores, mac).1 else Err(AuthError);
      Returned(config, front, mac) + if r.Ok? then [r.value] else []
  }

  lemma HistorySnoc(chain: Ledger, link: Link<Record>)
    ensures History(chain + [link]) ==
            History(chain) + match link.body.event
                             case ThrottleEvent(reading, _, _) => [Snapshot(reading, link.body.number, link.digest)]
                             case _ => []
  {
    assert (chain + [link])[..|chain|] == chain;
  }

  lemma StepHistory(s: State, op: Op, mac: Mac)
    ensures var r := if op.Compute? then ComputeStep(s, op.scores, mac).1 else Err(AuthError);
      History(Step(s, op, mac).chain) == History(s.chain) + if r.Ok? then [r.value] else []
  {
    var s' := Step(s, op, mac);
    if |s.chain| < |s'.chain| {
      HistorySnoc(s.chain, s'.chain[|s.chain|]);
    }
  }

  /** The history read back from the ledger is exactly what callers were given. */
  lemma {:induction false} HistoryIsWhatWasReturned(config: Config, ops: seq<Op>, mac: Mac)
    ensures History(Run(config, ops, mac).chain) == Returned(config, ops, mac)
  {
    if ops != [] {
      HistoryIsWhatWasReturned(config, ops[..|ops| - 1], mac);
      StepHistory(Run(config, ops[..|ops| - 1], mac), ops[|ops| - 1], mac);
    }
  }
}
