/** What the calls to the throttle engine leave in its ledger and its state, told from the calls alone. */
module ThrottleLog {
  import opened HashChain
  import opened Text
  import opened AdaptiveThrottle
  import opened ThrottleEngine
  import opened Wrappers

  /** A call that the engine accepts. */
  predicate Accepted(op: Op) {
    match op
    case Compute(_) => true
    case Engage(operator) => !Blank(operator)
    case Release(operator) => !Blank(operator)
    case Reconfigure(weights, operator) => !Blank(operator) && TotalWeight(weights) != 0.0
  }

  /** The weights of the last accepted reconfiguration. */
  function WeightsAfter(config: Config, ops: seq<Op>): seq<DomainWeight> {
    if ops == [] then config.weights
    else
      var last := ops[|ops| - 1];
      if last.Reconfigure? && Accepted(last) then last.weights else WeightsAfter(config, ops[..|ops| - 1])
  }

  /** The operator of the last accepted engagement, unless an accepted release came after it. */
  function OperatorAfter(ops: seq<Op>): Option<string> {
    if ops == [] then None
    else
      var last := ops[|ops| - 1];
      if last.Engage? && Accepted(last) then Some(Strip(last.operator))
      else if last.Release? && Accepted(last) then None
      else OperatorAfter(ops[..|ops| - 1])
  }

  /** The events that the calls leave, in order: every accepted call one, except a computation that fails. */
  function Told(config: Config, ops: seq<Op>): seq<Event> {
    if ops == [] then []
    else
      var front, last := ops[..|ops| - 1], ops[|ops| - 1];
      var now, engaged := config.(weights := WeightsAfter(config, front)), OperatorAfter(front).Some?;
      Told(config, front) +
      if !Accepted(last) then []
      else
        match last
        case Compute(scores) =>
          var r := Computed(now, scores, engaged);
          if r.Ok? then [ThrottleEvent(r.value, scores, engaged)] else []
        case Engage(operator) => [EmergencyOverride(Strip(operator), ENGAGE)]
        case Release(operator) => [EmergencyOverride(Strip(operator), RELEASE)]
        case Reconfigure(weights, operator) => [WeightConfig(Strip(operator), weights, TotalWeight(weights))]
  }

  function Events(chain: Ledger): seq<Event> {
    seq(|chain|, i requires 0 <= i < |chain| => chain[i].body.event)
  }

  /** State and ledger are what the calls tell. */
  ghost predicate Follows(s: State, config: Config, ops: seq<Op>) {
    && s.config == config.(weights := WeightsAfter(config, ops))
    && s.operator == OperatorAfter(ops) && s.override == s.operator.Some?
    && Events(s.chain) == Told(config, ops)
  }

  lemma OneMoreCall(config: Config, front: seq<Op>, op: Op)
    ensures var ops := front + [op];
      && WeightsAfter(config, ops)
         == (if op.Reconfigure? && Accepted(op) then op.weights else WeightsAfter(config, front))
      && OperatorAfter(ops)
         == (if op.Engage? && Accepted(op) then Some(Strip(op.operator))
             else if op.Release? && Accepted(op) then None
             else OperatorAfter(front))
  {
    assert (front + [op])[..|front|] == front;
  }

  lemma EventsSnoc(chain: Ledger, link: Link<Record>)
    ensures Events(chain + [link]) == Events(chain) + [link.body.event]
  {
  }

  lemma StepFollows(s: State, config: Config, front: seq<Op>, op: Op, mac: Mac)
    requires Follows(s, config, front)
    ensures Follows(Step(s, op, mac), config, front + [op])
  {
    var s' := Step(s, op, mac);
    assert (front + [op])[..|front|] == front;
    OneMoreCall(config, front, op);
    if |s.chain| < |s'.chain| {
      assert s'.chain == s.chain + [s'.chain[|s.chain|]];
      EventsSnoc(s.chain, s'.chain[|s.chain|]);
    }
  }

  /** Over every run: the ledger holds exactly the events that the calls tell, with the readings computed under the
      weights and the override in force at each of them; and weights, flag and operator are those of the last accepted
      calls. */
  lemma {:induction false} LedgerTellsCalls(config: Config, ops: seq<Op>, mac: Mac)
    ensures Follows(Run(config, ops, mac), config, ops)
  {
    if ops != [] {
      var front, op := ops[..|ops| - 1], ops[|ops| - 1];
      LedgerTellsCalls(config, front, mac);
      StepFollows(Run(config, front, mac), config, front, op, mac);
      assert ops == front + [op];
    }
  }
}
