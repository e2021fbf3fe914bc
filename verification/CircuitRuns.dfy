/** Whole runs of the circuit breaker, with restarts anywhere. */
module CircuitRuns {
  import opened HashChain
  import opened CircuitBreaker

  datatype Op =
    | Signal(ns: Namespace, id: string, readonlyGuard: bool)
    | ResetAttempt(token: string)
    | Reopen

  function Step(c: Config, e: Engine, op: Op, mac: Mac): Engine {
    match op
    case Signal(ns, id, guard) => if guard then ViolationStep(c, e, ns, id, mac).0 else e
    case ResetAttempt(token) => if token == c.token then ResetStep(e, mac) else e
    case Reopen => Restart(e.ledger)
  }

  function Run(c: Config, ops: seq<Op>, mac: Mac): Engine {
    if ops == [] then Restart([]) else Step(c, Run(c, ops[..|ops| - 1], mac), ops[|ops| - 1], mac)
  }

  // Replay.

  /** The ledger alone determines the live state. */
  ghost predicate Faithful(e: Engine, mac: Mac) {
    && Valid(e.ledger, mac)
    && Replay(e.ledger) == (e.state, e.counter, e.lastHash)
    && e.counter == |e.ledger| && e.lastHash == Head(e.ledger)
    && forall i | 0 <= i < |e.ledger| :: e.ledger[i].body.number == i + 1
  }

  /** `e` with its circuit state set, as just before a row recording it is written. */
  lemma RecordIsFaithful(e: Engine, kind: Kind, ns: Namespace, id: string, snapshot: seq<Namespace>, mac: Mac)
    requires Valid(e.ledger, mac) && e.counter == |e.ledger| && e.lastHash == Head(e.ledger)
    requires Replay(e.ledger).1 == e.counter
    requires forall i | 0 <= i < |e.ledger| :: e.ledger[i].body.number == i + 1
    ensures Faithful(Record(e, kind, ns, id, snapshot, mac), mac)
  {
    var body := Body(e.counter + 1, kind, ns, id, e.state, multiset(snapshot));
    var row := Seal(e.ledger, body, mac);
    assert (e.ledger + [row])[..|e.ledger|] == e.ledger;
  }

  lemma ViolationIsFaithful(c: Config, e: Engine, ns: Namespace, id: string, mac: Mac)
    requires Faithful(e, mac)
    ensures Faithful(ViolationStep(c, e, ns, id, mac).0, mac)
  {
    var window := LastN(e.window + [ns], c.windowSize);
    var e0 := e.(window := window, violations := e.violations + 1);
    RecordIsFaithful(e0, VIOLATION, ns, id, window, mac);
    var e1 := Record(e0, VIOLATION, ns, id, window, mac);
    RecordIsFaithful(e1.(state := OPEN, trips := e1.trips + 1), TRIP, "GCB", id, window, mac);
  }

  /** After every run, through any number of restarts, replaying the ledger gives exactly the live circuit
      state, event counter and last hash, and the chain verifies. */
  lemma {:induction false} ReplayIsLive(c: Config, ops: seq<Op>, mac: Mac)
    ensures Faithful(Run(c, ops, mac), mac)
    ensures var e := Run(c, ops, mac);
      var r := Restart(e.ledger);
      (r.state, r.counter, r.lastHash, r.ledger) == (e.state, e.counter, e.lastHash, e.ledger)
  {
    if ops != [] {
      var e, op := Run(c, ops[..|ops| - 1], mac), ops[|ops| - 1];
      ReplayIsLive(c, ops[..|ops| - 1], mac);
      if op.Signal? && op.readonlyGuard {
        ViolationIsFaithful(c, e, op.ns, op.id, mac);
      } else if op.ResetAttempt? {
        RecordIsFaithful(e.(state := CLOSED, window := []), RESET, "GCB", "", [], mac);
      }
    }
  }

  // When the breaker trips.

  predicate IsReset(c: Config, op: Op) { op.ResetAttempt? && op.token == c.token }

  predicate IsViolation(op: Op) { op.Signal? && op.readonlyGuard }

  /** The namespaces of the violations since the last reset or start. */
  function Since(c: Config, ops: seq<Op>): seq<Namespace> {
    if ops == [] then []
    else
      var before, op := ops[..|ops| - 1], ops[|ops| - 1];
      if IsViolation(op) then Since(c, before) + [op.ns]
      else if IsReset(c, op) || op.Reopen? then []
      else Since(c, before)
  }

  lemma LastNOfLastN<T>(s: seq<T>, x: T, n: int)
    requires n >= 1
    ensures LastN(LastN(s, n) + [x], n) == LastN(s + [x], n)
  {
  }

  lemma {:induction false} WindowIsSince(c: Config, ops: seq<Op>, mac: Mac)
    requires c.windowSize >= 1
    ensures Run(c, ops, mac).window == LastN(Since(c, ops), c.windowSize)
  {
    if ops != [] {
      var before, op := ops[..|ops| - 1], ops[|ops| - 1];
      WindowIsSince(c, before, mac);
      if IsViolation(op) {
        LastNOfLastN(Since(c, before), op.ns, c.windowSize);
      }
    }
  }

  /** The `k`-th call is a violation at which the last `windowSize` namespaces cascade. */
  predicate CascadeAt(c: Config, ops: seq<Op>, k: nat)
    requires k < |ops|
  {
    IsViolation(ops[k]) && Cascading(c, LastN(Since(c, ops[..k + 1]), c.windowSize))
  }

  /** The `k`-th call cascades and no later call resets. */
  predicate Unreset(c: Config, ops: seq<Op>, k: nat) {
    k < |ops| && CascadeAt(c, ops, k) && forall j | k < j < |ops| :: !IsReset(c, ops[j])
  }

  /** A cascade happened and no reset came after it. */
  ghost predicate CascadedSinceReset(c: Config, ops: seq<Op>) {
    exists k: nat :: Unreset(c, ops, k)
  }

  lemma UnresetOneMore(c: Config, before: seq<Op>, op: Op, k: nat)
    requires k < |before|
    ensures Unreset(c, before + [op], k) <==> Unreset(c, before, k) && !IsReset(c, op)
  {
    var ops := before + [op];
    assert ops[..k + 1] == before[..k + 1];
    assert ops[|before|] == op;
    assert forall j | 0 <= j < |before| :: ops[j] == before[j];
  }

  lemma CascadeSplit(c: Config, ops: seq<Op>)
    requires ops != []
    ensures var n := |ops| - 1;
      CascadedSinceReset(c, ops) <==> !IsReset(c, ops[n]) && (CascadeAt(c, ops, n) || CascadedSinceReset(c, ops[..n]))
  {
    var n := |ops| - 1;
    assert ops == ops[..n] + [ops[n]];
    forall k: nat | k < n ensures Unreset(c, ops, k) <==> Unreset(c, ops[..n], k) && !IsReset(c, ops[n]) {
      UnresetOneMore(c, ops[..n], ops[n], k);
    }
    assert Unreset(c, ops, n) <==> CascadeAt(c, ops, n);
  }

  /** The circuit is open exactly when a cascade happened that no reset followed. */
  lemma {:induction false} OpenIffCascaded(c: Config, ops: seq<Op>, mac: Mac)
    requires c.windowSize >= 1
    ensures Run(c, ops, mac).state == OPEN <==> CascadedSinceReset(c, ops)
  {
    if ops != [] {
      var before, op := ops[..|ops| - 1], ops[|ops| - 1];
      OpenIffCascaded(c, before, mac);
      WindowIsSince(c, ops, mac);
      WindowIsSince(c, before, mac);
      ReplayIsLive(c, before, mac);
      CascadeSplit(c, ops);
      assert ops[..|ops| - 1 + 1] == ops;
      if IsViolation(op) {
        LastNOfLastN(Since(c, before), op.ns, c.windowSize);
      }
    }
  }

  /** A call trips the breaker exactly when it is the first cascade since the last reset: it cascades, and no
      earlier cascade is still unreset. */
  lemma TripsExactlyAtFirstCascade(c: Config, ops: seq<Op>, op: Op, mac: Mac)
    requires c.windowSize >= 1 && IsViolation(op)
    ensures ViolationStep(c, Run(c, ops, mac), op.ns, op.id, mac).1
       <==> CascadeAt(c, ops + [op], |ops|) && !CascadedSinceReset(c, ops)
  {
    OpenIffCascaded(c, ops, mac);
    WindowIsSince(c, ops, mac);
    LastNOfLastN(Since(c, ops), op.ns, c.windowSize);
    assert (ops + [op])[..|ops| + 1] == ops + [op] && (ops + [op])[..|ops|] == ops;
    assert Since(c, ops + [op]) == Since(c, ops) + [op.ns];
  }

  // Trips and resets alternate.

  ghost predicate ResetBetween(ledger: seq<Row>, i: int, j: int) {
    exists k :: i < k < j && 0 <= k < |ledger| && ledger[k].body.kind == RESET
  }

  ghost predicate TripsSeparated(ledger: seq<Row>) {
    forall i, j | 0 <= i < j < |ledger| && ledger[i].body.kind == TRIP && ledger[j].body.kind == TRIP ::
      ResetBetween(ledger, i, j)
  }

  /** Every trip has been followed by a reset. */
  ghost predicate AllReset(ledger: seq<Row>) {
    forall i | 0 <= i < |ledger| && ledger[i].body.kind == TRIP :: ResetBetween(ledger, i, |ledger|)
  }

  lemma RecordKeepsSeparated(ledger: seq<Row>, row: Row)
    requires TripsSeparated(ledger) && (row.body.kind == TRIP ==> AllReset(ledger))
    ensures TripsSeparated(ledger + [row])
    ensures row.body.kind == RESET || (row.body.kind != TRIP && AllReset(ledger)) ==> AllReset(ledger + [row])
  {
    var more := ledger + [row];
    forall i, j | 0 <= i < j < |ledger| + 1 && ResetBetween(ledger, i, j) ensures ResetBetween(more, i, j) {
      var k :| i < k < j && 0 <= k < |ledger| && ledger[k].body.kind == RESET;
      assert more[k].body.kind == RESET;
    }
    if row.body.kind == RESET {
      forall i | 0 <= i < |ledger| ensures ResetBetween(more, i, |more|) {
        assert more[|ledger|].body.kind == RESET;
      }
    } else if AllReset(ledger) {
      forall i | 0 <= i < |ledger| && ledger[i].body.kind == TRIP ensures ResetBetween(more, i, |more|) {
        assert ResetBetween(ledger, i, |ledger|);
        var k :| i < k < |ledger| && 0 <= k < |ledger| && ledger[k].body.kind == RESET;
        assert more[k].body.kind == RESET;
      }
    }
  }

  /** In every run, restarts included, two TRIP rows always have a RESET row between them. */
  lemma {:induction false} ResetBetweenTrips(c: Config, ops: seq<Op>, mac: Mac)
    ensures var e := Run(c, ops, mac);
      TripsSeparated(e.ledger) && (e.state == CLOSED ==> AllReset(e.ledger))
  {
    if ops != [] {
      var e, op := Run(c, ops[..|ops| - 1], mac), ops[|ops| - 1];
      ResetBetweenTrips(c, ops[..|ops| - 1], mac);
      ReplayIsLive(c, ops[..|ops| - 1], mac);
      var e' := Run(c, ops, mac);
      if IsViolation(op) {
        var row := e'.ledger[|e.ledger|];
        RecordKeepsSeparated(e.ledger, row);
        if e'.state != e.state {
          RecordKeepsSeparated(e.ledger + [row], e'.ledger[|e.ledger| + 1]);
        }
      } else if IsReset(c, op) {
        RecordKeepsSeparated(e.ledger, e'.ledger[|e.ledger|]);
      }
    }
  }

  // What a restart changes.

  lemma LoneCascades(c: Config, ns: Namespace)
    ensures Cascading(c, [ns]) <==> c.violationThreshold <= 1 || c.namespaceThreshold <= 1
  {
    assert (set x | x in [ns]) == {ns};
    assert multiset([ns])[ns] == 1 && ns in [ns];
  }

  lemma AnyWindowCascades(c: Config, w: seq<Namespace>, ns: Namespace)
    requires ns in w && (c.violationThreshold <= 1 || c.namespaceThreshold <= 1)
    ensures Cascading(c, w)
  {
    assert multiset(w)[ns] >= 1;
    var seen := set x | x in w;
    assert ns in seen && seen == {ns} + (seen - {ns});
  }

  lemma ViolationTrips(c: Config, ops: seq<Op>, ns: Namespace, id: string, mac: Mac)
    requires c.windowSize >= 1
    ensures var e := Run(c, ops, mac);
      (ViolationStep(c, e, ns, id, mac).1 <==>
         e.state == CLOSED && Cascading(c, LastN(Since(c, ops) + [ns], c.windowSize)))
  {
    WindowIsSince(c, ops, mac);
    LastNOfLastN(Since(c, ops), ns, c.windowSize);
  }

  lemma Restarted(c: Config, ops: seq<Op>, mac: Mac)
    ensures Run(c, ops + [Reopen], mac).state == Run(c, ops, mac).state && Since(c, ops + [Reopen]) == []
  {
    assert (ops + [Reopen])[..|ops|] == ops;
    ReplayIsLive(c, ops, mac);
  }

  /** A restart forgets the violation window.  It changes whether the next violation trips if and only if the circuit
      is closed, the violation completes a cascade with those before it, and a lone violation is no cascade. */
  lemma RestartMattersIff(c: Config, ops: seq<Op>, op: Op, mac: Mac)
    requires c.windowSize >= 1 && IsViolation(op)
    ensures var live, restarted := Run(c, ops, mac), Run(c, ops + [Reopen], mac);
      (ViolationStep(c, live, op.ns, op.id, mac).1 != ViolationStep(c, restarted, op.ns, op.id, mac).1 <==>
         && live.state == CLOSED
         && Cascading(c, LastN(Since(c, ops) + [op.ns], c.windowSize))
         && c.violationThreshold > 1 && c.namespaceThreshold > 1)
  {
    var w := LastN(Since(c, ops) + [op.ns], c.windowSize);
    Restarted(c, ops, mac);
    ViolationTrips(c, ops, op.ns, op.id, mac);
    ViolationTrips(c, ops + [Reopen], op.ns, op.id, mac);
    assert w[|w| - 1] == op.ns && [] + [op.ns] == [op.ns];
    LoneCascades(c, op.ns);
    if c.violationThreshold <= 1 || c.namespaceThreshold <= 1 {
      AnyWindowCascades(c, w, op.ns);
    }
  }

  /** For instance: three violations of one namespace trip a threshold of three, but not with a restart before the
      third. */
  lemma RestartForgetsWindow(mac: Mac)
    ensures var c := Config(3, 5, 20, "token");
      var v := Signal("MXE", "MXE-0", true);
      Run(c, [v, v, v], mac).state == OPEN && Run(c, [v, v, Reopen, v], mac).state == CLOSED
  {
    var c := Config(3, 5, 20, "token");
    var v := Signal("MXE", "MXE-0", true);
    ThreeCascade(c, v, mac);
    TwoAndOneDoNot(c, v, mac);
  }

  lemma SinceOneMore(c: Config, ops: seq<Op>, op: Op)
    ensures Since(c, ops + [op]) ==
            if IsViolation(op) then Since(c, ops) + [op.ns]
            else if IsReset(c, op) || op.Reopen? then []
            else Since(c, ops)
  {
    assert (ops + [op])[..|ops|] == ops;
  }

  lemma SinceThree(c: Config, v: Op)
    requires IsViolation(v)
    ensures Since(c, [v]) == [v.ns] && Since(c, [v, v]) == [v.ns, v.ns] && Since(c, [v, v, v]) == [v.ns, v.ns, v.ns]
  {
    assert [] + [v] == [v] && [v] + [v] == [v, v] && [v, v] + [v] == [v, v, v];
    SinceOneMore(c, [], v);
    SinceOneMore(c, [v], v);
    SinceOneMore(c, [v, v], v);
  }

  lemma SinceRestart(c: Config, v: Op)
    requires IsViolation(v)
    ensures Since(c, [v, v, Reopen]) == [] && Since(c, [v, v, Reopen, v]) == [v.ns]
  {
    assert [v, v] + [Reopen] == [v, v, Reopen] && [v, v, Reopen] + [v] == [v, v, Reopen, v];
    SinceOneMore(c, [v, v], Reopen);
    SinceOneMore(c, [v, v, Reopen], v);
  }

  lemma ThreeNamespaces(w: seq<Namespace>, ns: Namespace)
    requires w == [ns, ns, ns]
    ensures Cascades(w, 3, 5)
  {
    assert multiset(w)[ns] == 3 && ns in w;
  }

  lemma ThreeUnreset(c: Config, v: Op)
    requires c == Config(3, 5, 20, "token") && v == Signal("MXE", "MXE-0", true)
    ensures Unreset(c, [v, v, v], 2)
  {
    var a := [v, v, v];
    SinceThree(c, v);
    ThreeNamespaces(Since(c, a), "MXE");
    assert a[..3] == a;
  }

  lemma ThreeCascade(c: Config, v: Op, mac: Mac)
    requires c == Config(3, 5, 20, "token") && v == Signal("MXE", "MXE-0", true)
    ensures Run(c, [v, v, v], mac).state == OPEN
  {
    ThreeUnreset(c, v);
    OpenIffCascaded(c, [v, v, v], mac);
  }

  lemma NoCascadeBefore(c: Config, v: Op, k: nat)
    requires c == Config(3, 5, 20, "token") && v == Signal("MXE", "MXE-0", true) && k < 4
    ensures !CascadeAt(c, [v, v, Reopen, v], k)
  {
    var b := [v, v, Reopen, v];
    assert b[..1] == [v] && b[..2] == [v, v] && b[..4] == b;
    SinceThree(c, v);
    SinceRestart(c, v);
    OneNamespace(["MXE"]);
    OneNamespace(["MXE", "MXE"]);
  }

  lemma TwoAndOneDoNot(c: Config, v: Op, mac: Mac)
    requires c == Config(3, 5, 20, "token") && v == Signal("MXE", "MXE-0", true)
    ensures Run(c, [v, v, Reopen, v], mac).state == CLOSED
  {
    forall k: nat | k < 4 ensures !CascadeAt(c, [v, v, Reopen, v], k) {
      NoCascadeBefore(c, v, k);
    }
    OpenIffCascaded(c, [v, v, Reopen, v], mac);
  }

  lemma OneNamespace(w: seq<Namespace>)
    requires w == ["MXE"] || w == ["MXE", "MXE"]
    ensures !Cascades(w, 3, 5)
  {
    assert (set ns | ns in w) == {"MXE"};
    assert multiset(w)["MXE"] <= 2;
  }
}
