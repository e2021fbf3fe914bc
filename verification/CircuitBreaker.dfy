/** The governance circuit breaker of `dorkllm/circuit_breaker.py`: a sliding window of violations, trip and
    reset, a chained ledger, and restart by replaying it. */
module CircuitBreaker {
  import opened HashChain
  import opened Wrappers

  type Namespace = string

  datatype CircuitState = CLOSED | OPEN

  datatype Kind = VIOLATION | TRIP | RESET

  /** The hashed part of a ledger row; the window snapshot is written sorted, so it is a multiset. */
  datatype Body = Body(
    number: nat, kind: Kind, namespace: Namespace, violationId: string, state: CircuitState,
    snapshot: multiset<Namespace>)

  type Row = Entry<Body>

  type Mac = (Body, Hash) -> Hash

  datatype Config = Config(violationThreshold: int, namespaceThreshold: int, windowSize: int, token: string)

  function LastN<T>(s: seq<T>, n: int): seq<T> {
    if n <= 0 then [] else if |s| <= n then s else s[|s| - n..]
  }

  /** One namespace seen often enough, or enough different namespaces. */
  predicate Cascades(w: seq<Namespace>, violationThreshold: int, namespaceThreshold: int) {
    || (exists ns | ns in w :: multiset(w)[ns] >= violationThreshold)
    || |set ns | ns in w| >= namespaceThreshold
  }

  predicate Cascading(c: Config, w: seq<Namespace>) {
    Cascades(w, c.violationThreshold, c.namespaceThreshold)
  }

  datatype Engine = Engine(
    state: CircuitState, window: seq<Namespace>, counter: nat, lastHash: Hash, trips: nat, violations: nat,
    ledger: seq<Row>)

  function Record(e: Engine, kind: Kind, ns: Namespace, id: string, snapshot: seq<Namespace>, mac: Mac): Engine {
    var body := Body(e.counter + 1, kind, ns, id, e.state, multiset(snapshot));
    var row := Entry(body, e.lastHash, mac(body, e.lastHash));
    e.(counter := e.counter + 1, lastHash := row.digest, ledger := e.ledger + [row])
  }

  function ViolationStep(c: Config, e: Engine, ns: Namespace, id: string, mac: Mac): (Engine, bool) {
    var window := LastN(e.window + [ns], c.windowSize);
    var e1 := Record(e.(window := window, violations := e.violations + 1), VIOLATION, ns, id, window, mac);
    if e1.state == CLOSED && Cascading(c, window)
    then (Record(e1.(state := OPEN, trips := e1.trips + 1), TRIP, "GCB", id, window, mac), true)
    else (e1, false)
  }

  function ResetStep(e: Engine, mac: Mac): Engine {
    Record(e.(state := CLOSED, window := []), RESET, "GCB", "", [], mac)
  }

  /** What replaying the ledger restores: circuit state, event counter and last hash. */
  function Replay(ledger: seq<Row>): (CircuitState, nat, Hash) {
    if ledger == [] then (CLOSED, 0, GENESIS)
    else (ledger[|ledger| - 1].body.state, Replay(ledger[..|ledger| - 1]).1 + 1, ledger[|ledger| - 1].digest)
  }

  function Restart(ledger: seq<Row>): Engine {
    var (state, counter, last) := Replay(ledger);
    Engine(state, [], counter, last, 0, 0, ledger)
  }

  class ViolationWindow {
    const size: int
    var window: seq<Namespace>

    constructor (size: int)
      requires size >= 1
      ensures this.size == size && window == []
    {
      this.size := size;
      window := [];
    }

    method Push(ns: Namespace) returns (snapshot: seq<Namespace>)
      requires size >= 1
      modifies this
      ensures window == LastN(old(window) + [ns], size) && snapshot == window != []
    {
      window := window + [ns];
      if |window| > size {
        window := window[|window| - size..];
      }
      snapshot := window;
    }

    method NamespaceCounts() returns (counts: map<Namespace, int>)
      ensures counts.Keys == set ns | ns in window
      ensures forall ns | ns in counts :: counts[ns] == multiset(window)[ns]
    {
      counts := map[];
      for i := 0 to |window|
        invariant counts.Keys == set ns | ns in window[..i]
        invariant forall ns | ns in counts :: counts[ns] == multiset(window[..i])[ns]
      {
        var ns := window[i];
        assert window[..i + 1] == window[..i] + [ns];
        counts := counts[ns := (if ns in counts then counts[ns] else 0) + 1];
      }
      assert window[..|window|] == window;
    }

    method MaxSingleNamespaceCount() returns (most: int)
      ensures window == [] ==> most == 0
      ensures window != [] ==> exists ns | ns in window :: most == multiset(window)[ns]
      ensures forall ns | ns in window :: multiset(window)[ns] <= most
    {
      var counts := NamespaceCounts();
      most := 0;
      var left := counts.Keys;
      while left != {}
        invariant left <= counts.Keys && most >= 0
        invariant forall ns | ns in counts.Keys - left :: counts[ns] <= most
        invariant most == 0 || exists ns | ns in window :: most == multiset(window)[ns]
        decreases left
      {
        var ns :| ns in left;
        if counts[ns] > most {
          most := counts[ns];
          assert ns in window;
        }
        left := left - {ns};
      }
      if window != [] {
        assert window[0] in counts && counts[window[0]] > 0;
      }
    }

    method ShouldTrip(violationThreshold: int, namespaceThreshold: int) returns (trip: bool)
      ensures trip <==>
              Cascades(window, violationThreshold, namespaceThreshold) || (window == [] && violationThreshold <= 0)
    {
      var most := MaxSingleNamespaceCount();
      if most >= violationThreshold {
        return true;
      }
      var distinct := set ns | ns in window;
      return |distinct| >= namespaceThreshold;
    }

    method Reset()
      modifies this
      ensures window == []
    {
      window := [];
    }
  }

  class CircuitBreakerEngine {
    const config: Config
    const mac: Mac
    const window: ViolationWindow
    var state: CircuitState
    var counter: nat
    var lastHash: Hash
    var trips: nat
    var violations: nat
    var ledger: seq<Row>

    ghost predicate Valid()
      reads this
    {
      config.windowSize >= 1 && window.size == config.windowSize
    }

    ghost function View(): Engine
      reads this, window
    {
      Engine(state, window.window, counter, lastHash, trips, violations, ledger)
    }

    /** Opens the breaker on an existing ledger, replaying it row by row. */
    constructor (config: Config, mac: Mac, ledger: seq<Row>)
      requires config.windowSize >= 1
      ensures Valid() && fresh(window) && this.config == config && this.mac == mac
      ensures View() == Restart(ledger)
    {
      this.config := config;
      this.mac := mac;
      window := new ViolationWindow(config.windowSize);
      state, counter, lastHash, trips, violations := CLOSED, 0, GENESIS, 0, 0;
      this.ledger := ledger;
      new;
      for i := 0 to |ledger|
        invariant (state, counter, lastHash) == Replay(ledger[..i])
        invariant trips == violations == 0 && this.ledger == ledger && window.window == []
      {
        assert ledger[..i + 1][..i] == ledger[..i];
        counter := counter + 1;
        state := ledger[i].body.state;
        lastHash := ledger[i].digest;
      }
      assert ledger[..|ledger|] == ledger;
    }

    method BuildAndAppend(kind: Kind, ns: Namespace, id: string, snapshot: seq<Namespace>)
      modifies this`counter, this`lastHash, this`ledger
      ensures View() == Record(old(View()), kind, ns, id, snapshot, mac)
    {
      counter := counter + 1;
      var body := Body(counter, kind, ns, id, state, multiset(snapshot));
      var digest := mac(body, lastHash);
      ledger := ledger + [Entry(body, lastHash, digest)];
      lastHash := digest;
    }

    method RecordViolation(ns: Namespace, id: string, readonlyGuard: bool) returns (r: Result<bool, string>)
      requires Valid()
      modifies this, window
      ensures Valid()
      ensures r.Ok? <==> readonlyGuard
      ensures r.Ok? ==> (View(), r.value) == ViolationStep(config, old(View()), ns, id, mac)
      ensures !r.Ok? ==> View() == old(View())
    {
      if !readonlyGuard {
        return Err("GCB-READONLY-0");
      }
      violations := violations + 1;
      var snapshot := window.Push(ns);
      BuildAndAppend(VIOLATION, ns, id, snapshot);
      if state == CLOSED {
        var cascade := window.ShouldTrip(config.violationThreshold, config.namespaceThreshold);
        if cascade {
          Trip(id);
          return Ok(true);
        }
      }
      return Ok(false);
    }

    method Trip(triggeredBy: string)
      modifies this
      ensures View()
           == Record(old(View()).(state := OPEN, trips := old(trips) + 1), TRIP, "GCB", triggeredBy, window.window, mac)
      ensures window.window == old(window.window)
    {
      state := OPEN;
      trips := trips + 1;
      BuildAndAppend(TRIP, "GCB", triggeredBy, window.window);
    }

    method ResetCircuit(token: string) returns (r: Result<(), string>)
      requires Valid()
      modifies this, window
      ensures Valid()
      ensures r.Ok? <==> token == config.token
      ensures View() == if r.Ok? then ResetStep(old(View()), mac) else old(View())
    {
      if token != config.token {
        return Err("GCB-HUMAN0-0");
      }
      state := CLOSED;
      window.Reset();
      BuildAndAppend(RESET, "GCB", "", []);
      return Ok(());
    }

    method AssertCircuitClosed() returns (r: Result<(), string>)
      ensures r.Ok? <==> state == CLOSED
    {
      r := if state == OPEN then Err("GCB-FAILCLOSE-0") else Ok(());
    }

    method VerifyLedgerChain() returns (ok: bool, count: nat)
      ensures ok <==> HashChain.Valid(ledger, mac)
      ensures ok ==> count == |ledger|
    {
      ok, count := Verify(ledger, mac);
    }
  }
}
