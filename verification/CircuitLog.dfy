/** What the calls to the circuit breaker leave in its ledger and its counters, told from the calls alone. */
module CircuitLog {
  import opened HashChain
  import opened CircuitBreaker
  import opened CircuitRuns

  /** The rows that the calls leave.  A violation leaves a row with the namespaces then in the window, and a second one
      if it is the first cascade since the last reset; a reset with the right token leaves one; nothing else does. */
  ghost function Told(c: Config, ops: seq<Op>): seq<Body> {
    if ops == [] then []
    else
      var n := |ops| - 1;
      var front, op := ops[..n], ops[n];
      var rows := Told(c, front);
      if IsViolation(op) then
        var window := multiset(LastN(Since(c, ops), c.windowSize));
        var open := CascadedSinceReset(c, front);
        var first := Body(|rows| + 1, VIOLATION, op.ns, op.id, if open then OPEN else CLOSED, window);
        if CascadeAt(c, ops, n) && !open then rows + [first, Body(|rows| + 2, TRIP, "GCB", op.id, OPEN, window)]
        else rows + [first]
      else if IsReset(c, op) then rows + [Body(|rows| + 1, RESET, "GCB", "", CLOSED, multiset{})]
      else rows
  }

  function Bodies(ledger: seq<Row>): seq<Body> {
    seq(|ledger|, i requires 0 <= i < |ledger| => ledger[i].body)
  }

  /** The violations recorded since the last start. */
  function ViolationsSince(ops: seq<Op>): nat {
    if ops == [] || ops[|ops| - 1].Reopen? then 0
    else ViolationsSince(ops[..|ops| - 1]) + if IsViolation(ops[|ops| - 1]) then 1 else 0
  }

  /** The trips since the last start. */
  ghost function TripsSince(c: Config, ops: seq<Op>): nat {
    if ops == [] || ops[|ops| - 1].Reopen? then 0
    else
      var n := |ops| - 1;
      TripsSince(c, ops[..n])
      + if IsViolation(ops[n]) && CascadeAt(c, ops, n) && !CascadedSinceReset(c, ops[..n]) then 1 else 0
  }

  lemma BodiesSnoc(ledger: seq<Row>, row: Row)
    ensures Bodies(ledger + [row]) == Bodies(ledger) + [row.body]
  {
  }

  lemma RecordLeaves(e: Engine, kind: Kind, ns: Namespace, id: string, snapshot: seq<Namespace>, mac: Mac)
    ensures Bodies(Record(e, kind, ns, id, snapshot, mac).ledger)
         == Bodies(e.ledger) + [Body(e.counter + 1, kind, ns, id, e.state, multiset(snapshot))]
  {
    var row := Record(e, kind, ns, id, snapshot, mac).ledger[|e.ledger|];
    BodiesSnoc(e.ledger, row);
  }

  lemma ViolationLeaves(c: Config, e: Engine, ns: Namespace, id: string, mac: Mac)
    requires e.counter == |e.ledger|
    ensures var (e', trips) := ViolationStep(c, e, ns, id, mac);
      var window := multiset(LastN(e.window + [ns], c.windowSize));
      var n := |e.ledger|;
      && Bodies(e'.ledger) == Bodies(e.ledger) + [Body(n + 1, VIOLATION, ns, id, e.state, window)]
                              + (if trips then [Body(n + 2, TRIP, "GCB", id, OPEN, window)] else [])
      && e'.violations == e.violations + 1 && e'.trips == e.trips + if trips then 1 else 0
  {
    var window := LastN(e.window + [ns], c.windowSize);
    var e0 := e.(window := window, violations := e.violations + 1);
    RecordLeaves(e0, VIOLATION, ns, id, window, mac);
    var e1 := Record(e0, VIOLATION, ns, id, window, mac);
    RecordLeaves(e1.(state := OPEN, trips := e1.trips + 1), TRIP, "GCB", id, window, mac);
  }

  ghost predicate Matches(c: Config, e: Engine, ops: seq<Op>) {
    Bodies(e.ledger) == Told(c, ops) && e.violations == ViolationsSince(ops) && e.trips == TripsSince(c, ops)
  }

  lemma ViolationMatches(c: Config, front: seq<Op>, op: Op, mac: Mac)
    requires c.windowSize >= 1 && IsViolation(op) && Matches(c, Run(c, front, mac), front)
    ensures Matches(c, ViolationStep(c, Run(c, front, mac), op.ns, op.id, mac).0, front + [op])
  {
    var e := Run(c, front, mac);
    ReplayIsLive(c, front, mac);
    OpenIffCascaded(c, front, mac);
    TripsExactlyAtFirstCascade(c, front, op, mac);
    WindowIsSince(c, front, mac);
    LastNOfLastN(Since(c, front), op.ns, c.windowSize);
    ViolationLeaves(c, e, op.ns, op.id, mac);
    assert |Bodies(e.ledger)| == |e.ledger|;
    ToldViolation(c, front, op);
    CountersOneMore(c, front, op);
  }

  lemma CountersOneMore(c: Config, front: seq<Op>, op: Op)
    requires IsViolation(op)
    ensures var ops := front + [op];
      && ViolationsSince(ops) == ViolationsSince(front) + 1
      && TripsSince(c, ops)
         == TripsSince(c, front) + if CascadeAt(c, ops, |front|) && !CascadedSinceReset(c, front) then 1 else 0
  {
    assert (front + [op])[..|front|] == front;
  }

  lemma ToldViolation(c: Config, front: seq<Op>, op: Op)
    requires IsViolation(op)
    ensures var ops, rows := front + [op], Told(c, front);
      var window := multiset(LastN(Since(c, front) + [op.ns], c.windowSize));
      var open := CascadedSinceReset(c, front);
      Told(c, ops)
      == rows + [Body(|rows| + 1, VIOLATION, op.ns, op.id, if open then OPEN else CLOSED, window)]
         + if CascadeAt(c, ops, |front|) && !open then [Body(|rows| + 2, TRIP, "GCB", op.id, OPEN, window)] else []
  {
    assert (front + [op])[..|front|] == front;
    SinceOneMore(c, front, op);
  }

  lemma ResetMatches(c: Config, front: seq<Op>, op: Op, mac: Mac)
    requires IsReset(c, op) && Matches(c, Run(c, front, mac), front)
    ensures Matches(c, ResetStep(Run(c, front, mac), mac), front + [op])
  {
    var e := Run(c, front, mac);
    assert (front + [op])[..|front|] == front;
    ReplayIsLive(c, front, mac);
    RecordLeaves(e.(state := CLOSED, window := []), RESET, "GCB", "", [], mac);
    assert |Bodies(e.ledger)| == |e.ledger|;
  }

  /** Over every run, restarts included: the ledger holds exactly the rows that the calls tell, and the counters of the
      running engine count what happened since its start. */
  lemma {:induction false} LedgerTellsCalls(c: Config, ops: seq<Op>, mac: Mac)
    requires c.windowSize >= 1
    ensures Matches(c, Run(c, ops, mac), ops)
  {
    if ops != [] {
      var n := |ops| - 1;
      var front, op := ops[..n], ops[n];
      LedgerTellsCalls(c, front, mac);
      assert ops == front + [op];
      if IsViolation(op) {
        ViolationMatches(c, front, op, mac);
      } else if IsReset(c, op) {
        ResetMatches(c, front, op, mac);
      }
    }
  }
}
