/** Entitlement metering of `server.py`: a request is checked against the plan before its handler runs and counted
    after it, while other requests come and go. */
module Metering {
  import opened Text
  import opened Wrappers

  datatype Event = MUTATION_EPOCH | REPLAY_VERIFICATION | GOVERNANCE_APPROVAL

  datatype Plan = FREE | PRO | ENTERPRISE

  /** The billable counters; the active-user and active-seat counters are the sizes of the sets. */
  datatype Usage = Usage(mutations: nat, replays: nat, approvals: nat, users: set<string>, seats: set<string>)

  /** A request with its plan resolved; `extra` are the events named by the feature header. */
  datatype Request = Request(verb: string, path: string, user: string, seat: string, plan: Plan, extra: set<Event>)

  /** What is remembered while the handler runs. */
  datatype Ticket = Ticket(event: Option<Event>, user: string, seat: string)

  datatype Reason = ActiveUsersLimit | ActiveSeatsLimit | FeatureDisabled | PlanLimitReached

  datatype Decision = Unmetered | Denied(reason: Reason) | Admitted(ticket: Ticket)

  function Count(u: Usage, e: Event): nat {
    match e
    case MUTATION_EPOCH => u.mutations
    case REPLAY_VERIFICATION => u.replays
    case GOVERNANCE_APPROVAL => u.approvals
  }

  function Limit(plan: Plan, e: Event): nat {
    match (plan, e)
    case (FREE, MUTATION_EPOCH) => 0
    case (FREE, REPLAY_VERIFICATION) => 10
    case (FREE, GOVERNANCE_APPROVAL) => 50
    case (PRO, MUTATION_EPOCH) => 200
    case (PRO, REPLAY_VERIFICATION) => 250
    case (PRO, GOVERNANCE_APPROVAL) => 1000
    case (ENTERPRISE, _) => 1000000
  }

  /** The limit on active users, and on active seats. */
  function ActorLimit(plan: Plan): nat {
    match plan
    case FREE => 3
    case PRO => 25
    case ENTERPRISE => 1000000
  }

  predicate Featured(plan: Plan, e: Event) {
    plan != FREE || e == GOVERNANCE_APPROVAL
  }

  predicate StartsWith(s: string, part: string) {
    |part| <= |s| && s[..|part|] == part
  }

  predicate EndsWith(s: string, part: string) {
    |part| <= |s| && s[|s| - |part|..] == part
  }

  function BillableEvent(verb: string, path: string): Option<Event> {
    if verb == "POST" && StartsWith(path, "/api/nexus/agents/") && EndsWith(path, "/mutate") then Some(MUTATION_EPOCH)
    else if verb == "GET" && StartsWith(path, "/api/audit/epochs/") && EndsWith(path, "/replay-proof") then
      Some(REPLAY_VERIFICATION)
    else if verb == "POST" && (path == "/api/mutations/proposals" || path == "/mutation/propose") then
      Some(GOVERNANCE_APPROVAL)
    else None
  }

  predicate Metered(path: string) {
    StartsWith(path, "/api/") && !StartsWith(path, "/api/admin/usage")
  }

  /** The check before the handler is awaited. */
  function Decide(u: Usage, r: Request): Decision {
    var user, seat := Strip(r.user), Strip(r.seat);
    var event := BillableEvent(r.verb, r.path);
    if !Metered(r.path) then Unmetered
    else if user != "" && |u.users| >= ActorLimit(r.plan) && user !in u.users then Denied(ActiveUsersLimit)
    else if seat != "" && |u.seats| >= ActorLimit(r.plan) && seat !in u.seats then Denied(ActiveSeatsLimit)
    else if event.Some? && !Featured(r.plan, event.value) && event.value !in r.extra then Denied(FeatureDisabled)
    else if event.Some? && Count(u, event.value) >= Limit(r.plan, event.value) then Denied(PlanLimitReached)
    else Admitted(Ticket(event, user, seat))
  }

  function Bumped(u: Usage, e: Event): Usage {
    match e
    case MUTATION_EPOCH => u.(mutations := u.mutations + 1)
    case REPLAY_VERIFICATION => u.(replays := u.replays + 1)
    case GOVERNANCE_APPROVAL => u.(approvals := u.approvals + 1)
  }

  function Registered(u: Usage, t: Ticket): Usage {
    var v := u.(users := u.users + if t.user != "" then {t.user} else {},
                seats := u.seats + if t.seat != "" then {t.seat} else {});
    if t.event.Some? then Bumped(v, t.event.value) else v
  }

  /** The count after the handler has answered. */
  function Settled(u: Usage, t: Ticket, status: int): Usage {
    if status < 400 then Registered(u, t) else u
  }

  class Metrics {
    var mutations: nat
    var replays: nat
    var approvals: nat
    var activeUsers: nat
    var activeSeats: nat
    var users: set<string>
    var seats: set<string>

    ghost predicate Valid()
      reads this
    {
      activeUsers == |users| && activeSeats == |seats|
    }

    ghost function View(): Usage
      reads this
    {
      Usage(mutations, replays, approvals, users, seats)
    }

    constructor ()
      ensures Valid() && View() == Usage(0, 0, 0, {}, {})
    {
      mutations, replays, approvals, activeUsers, activeSeats, users, seats := 0, 0, 0, 0, 0, {}, {};
    }

    method RegisterBillableUsage(event: Option<Event>, user: string, seat: string)
      requires Valid()
      modifies this
      ensures Valid() && View() == Registered(old(View()), Ticket(event, Strip(user), Strip(seat)))
    {
      AddActors(Strip(user), Strip(seat));
      match event
      case Some(MUTATION_EPOCH) => mutations := mutations + 1;
      case Some(REPLAY_VERIFICATION) => replays := replays + 1;
      case Some(GOVERNANCE_APPROVAL) => approvals := approvals + 1;
      case None =>
    }

    method AddActors(user: string, seat: string)
      requires Valid()
      modifies this`users, this`activeUsers, this`seats, this`activeSeats
      ensures Valid()
      ensures users == old(users) + (if user != "" then {user} else {})
      ensures seats == old(seats) + (if seat != "" then {seat} else {})
    {
      if user != "" {
        users := users + {user};
        activeUsers := |users|;
      }
      if seat != "" {
        seats := seats + {seat};
        activeSeats := |seats|;
      }
    }

    /** The middleware up to the awaited handler. */
    method Admit(r: Request) returns (d: Decision)
      requires Valid()
      ensures d == Decide(View(), r)
      ensures d.Admitted? ==> Strip(d.ticket.user) == d.ticket.user && Strip(d.ticket.seat) == d.ticket.seat
    {
      StripIdempotent(r.user);
      StripIdempotent(r.seat);
      if !Metered(r.path) {
        return Unmetered;
      }
      var user, seat := Strip(r.user), Strip(r.seat);
      var counters := Usage(mutations, replays, approvals, users, seats);
      if user != "" && activeUsers >= ActorLimit(r.plan) && user !in users {
        return Denied(ActiveUsersLimit);
      }
      if seat != "" && activeSeats >= ActorLimit(r.plan) && seat !in seats {
        return Denied(ActiveSeatsLimit);
      }
      var event := BillableEvent(r.verb, r.path);
      if event.Some? {
        if !Featured(r.plan, event.value) && event.value !in r.extra {
          return Denied(FeatureDisabled);
        }
        if Count(counters, event.value) >= Limit(r.plan, event.value) {
          return Denied(PlanLimitReached);
        }
      }
      return Admitted(Ticket(event, user, seat));
    }

    /** The middleware from the handler's answer on. */
    method Settle(t: Ticket, status: int)
      requires Valid() && Strip(t.user) == t.user && Strip(t.seat) == t.seat
      modifies this
      ensures Valid() && View() == Settled(old(View()), t, status)
    {
      if status < 400 {
        RegisterBillableUsage(t.event, t.user, t.seat);
      }
    }
  }

  // Runs with many requests in flight.

  datatype System = System(usage: Usage, inflight: map<nat, Ticket>)

  datatype Op = Arrive(id: nat, request: Request) | Finish(id: nat, status: int)

  function Step(s: System, op: Op): System {
    match op
    case Arrive(id, request) =>
      var d := Decide(s.usage, request);
      if id in s.inflight || !d.Admitted? then s else s.(inflight := s.inflight[id := d.ticket])
    case Finish(id, status) =>
      if id !in s.inflight then s
      else System(Settled(s.usage, s.inflight[id], status), s.inflight - {id})
  }

  function Run(s: System, ops: seq<Op>): System {
    if ops == [] then s else Step(Run(s, ops[..|ops| - 1]), ops[|ops| - 1])
  }

  /** What a plan limits: an event counter, the distinct users or the distinct seats. */
  datatype Meter = EventMeter(event: Event) | ActorMeter(seat: bool)

  function LimitOf(plan: Plan, meter: Meter): nat {
    match meter
    case EventMeter(e) => Limit(plan, e)
    case ActorMeter(_) => ActorLimit(plan)
  }

  /** The largest limit among the plans of the arriving requests. */
  function LargestLimit(ops: seq<Op>, meter: Meter): nat {
    if ops == [] then 0
    else
      var rest, op := LargestLimit(ops[..|ops| - 1], meter), ops[|ops| - 1];
      if op.Arrive? then Max(rest, LimitOf(op.request.plan, meter)) else rest
  }

  function Max(a: nat, b: nat): nat {
    if a < b then b else a
  }

  predicate Within(op: Op, meter: Meter, limit: nat) {
    op.Arrive? ==> LimitOf(op.request.plan, meter) <= limit
  }

  lemma {:induction false} AllWithinLargest(ops: seq<Op>, meter: Meter)
    ensures forall i | 0 <= i < |ops| :: Within(ops[i], meter, LargestLimit(ops, meter))
  {
    if ops != [] {
      AllWithinLargest(ops[..|ops| - 1], meter);
    }
  }

  /** The run never has more than `k` requests in flight. */
  ghost predicate Bounded(s: System, ops: seq<Op>, k: nat) {
    forall n: nat | n <= |ops| :: |Run(s, ops[..n]).inflight| <= k
  }

  /** The most a counter can reach from `start`. */
  function Bound(start: nat, limit: nat, k: nat): nat {
    if limit == 0 || k == 0 then start else Max(start, limit - 1 + k)
  }

  function Pending(m: map<nat, Ticket>, e: Event): set<nat> {
    set id | id in m && m[id].event == Some(e)
  }

  lemma SubsetSize<T>(a: set<T>, b: set<T>)
    requires a <= b
    ensures |a| <= |b|
  {
    assert b == a + (b - a);
  }

  lemma PendingSize(m: map<nat, Ticket>, e: Event)
    ensures |Pending(m, e)| <= |m|
  {
    SubsetSize(Pending(m, e), m.Keys);
    assert |m.Keys| == |m|;
  }

  /** Counted and pending together stay within the bound. */
  ghost predicate EventHeld(s: System, e: Event, bound: nat) {
    Count(s.usage, e) + |Pending(s.inflight, e)| <= bound
  }

  lemma ArriveHoldsEvent(s: System, id: nat, r: Request, e: Event, start: nat, limit: nat, k: nat)
    requires EventHeld(s, e, Bound(start, limit, k)) && Limit(r.plan, e) <= limit
    requires |Step(s, Arrive(id, r)).inflight| <= k
    ensures EventHeld(Step(s, Arrive(id, r)), e, Bound(start, limit, k))
  {
    var s' := Step(s, Arrive(id, r));
    var d := Decide(s.usage, r);
    if id !in s.inflight && d.Admitted? {
      if d.ticket.event == Some(e) {
        PendingSize(s'.inflight, e);
      } else {
        assert Pending(s'.inflight, e) == Pending(s.inflight, e);
      }
    }
  }

  lemma SettledCount(u: Usage, t: Ticket, status: int, e: Event)
    ensures Count(Settled(u, t, status), e) == Count(u, e) + if status < 400 && t.event == Some(e) then 1 else 0
  {
  }

  lemma FinishHoldsEvent(s: System, id: nat, status: int, e: Event, bound: nat)
    requires EventHeld(s, e, bound)
    ensures EventHeld(Step(s, Finish(id, status)), e, bound)
  {
    var s' := Step(s, Finish(id, status));
    if id in s.inflight {
      SettledCount(s.usage, s.inflight[id], status, e);
      assert Pending(s'.inflight, e) == Pending(s.inflight, e) - {id};
    }
  }

  lemma FrontBounded(s: System, ops: seq<Op>, k: nat)
    requires ops != [] && Bounded(s, ops, k)
    ensures Bounded(s, ops[..|ops| - 1], k) && |Run(s, ops).inflight| <= k
  {
    var front := ops[..|ops| - 1];
    assert ops[..|ops|] == ops;
    forall n: nat | n <= |front| ensures |Run(s, front[..n]).inflight| <= k {
      assert front[..n] == ops[..n];
    }
  }

  lemma {:induction false} RunHoldsEvent(s: System, ops: seq<Op>, e: Event, start: nat, limit: nat, k: nat)
    requires EventHeld(s, e, Bound(start, limit, k)) && Bounded(s, ops, k)
    requires forall i | 0 <= i < |ops| :: Within(ops[i], EventMeter(e), limit)
    ensures EventHeld(Run(s, ops), e, Bound(start, limit, k))
  {
    if ops != [] {
      FrontBounded(s, ops, k);
      var front, last := ops[..|ops| - 1], ops[|ops| - 1];
      RunHoldsEvent(s, front, e, start, limit, k);
      assert Within(ops[|ops| - 1], EventMeter(e), limit);
      match last
      case Arrive(id, request) => ArriveHoldsEvent(Run(s, front), id, request, e, start, limit, k);
      case Finish(id, status) => FinishHoldsEvent(Run(s, front), id, status, e, Bound(start, limit, k));
    }
  }

  /** With at most K requests in flight, whatever plans they name, a counter never exceeds the larger of its start
      and L - 1 + K, where L is the largest limit among those plans; and where every such limit is 0 it never
      moves. */
  lemma CounterBound(u: Usage, ops: seq<Op>, e: Event, k: nat)
    requires Bounded(System(u, map[]), ops, k)
    ensures var c, limit := Count(Run(System(u, map[]), ops).usage, e), LargestLimit(ops, EventMeter(e));
      c <= Count(u, e) || (limit > 0 && c <= limit - 1 + k)
  {
    var limit := LargestLimit(ops, EventMeter(e));
    assert Pending(map[], e) == {};
    AllWithinLargest(ops, EventMeter(e));
    RunHoldsEvent(System(u, map[]), ops, e, Count(u, e), limit, k);
  }

  // Users and seats.

  function Actors(u: Usage, seat: bool): set<string> {
    if seat then u.seats else u.users
  }

  function ActorOf(t: Ticket, seat: bool): string {
    if seat then t.seat else t.user
  }

  function Coming(m: map<nat, Ticket>, seat: bool): set<string> {
    set id | id in m && ActorOf(m[id], seat) != "" :: ActorOf(m[id], seat)
  }

  lemma {:induction false} ComingSize(m: map<nat, Ticket>, seat: bool)
    ensures |Coming(m, seat)| <= |m|
    decreases |m|
  {
    if m == map[] {
      assert Coming(m, seat) == {};
    } else {
      var id :| id in m;
      var rest := m - {id};
      ComingSize(rest, seat);
      forall a | a in Coming(m, seat) ensures a in Coming(rest, seat) + {ActorOf(m[id], seat)} {
        var i :| i in m && ActorOf(m[i], seat) == a;
        assert i != id ==> i in rest && rest[i] == m[i];
      }
      SubsetSize(Coming(m, seat), Coming(rest, seat) + {ActorOf(m[id], seat)});
      UnionSize(Coming(rest, seat), {ActorOf(m[id], seat)});
    }
  }

  ghost predicate ActorsHeld(s: System, seat: bool, bound: nat) {
    |Actors(s.usage, seat) + Coming(s.inflight, seat)| <= bound
  }

  lemma ArriveActors(s: System, id: nat, r: Request, seat: bool, start: nat, limit: nat, k: nat)
    requires ActorsHeld(s, seat, Bound(start, limit, k)) && ActorLimit(r.plan) <= limit
    requires |Step(s, Arrive(id, r)).inflight| <= k
    ensures ActorsHeld(Step(s, Arrive(id, r)), seat, Bound(start, limit, k))
  {
    var s' := Step(s, Arrive(id, r));
    var d := Decide(s.usage, r);
    if id !in s.inflight && d.Admitted? {
      var a := ActorOf(d.ticket, seat);
      if a == "" || a in Actors(s.usage, seat) {
        OneMoreComing(s.inflight, id, d.ticket, seat);
        SubsetSize(Actors(s'.usage, seat) + Coming(s'.inflight, seat),
                   Actors(s.usage, seat) + Coming(s.inflight, seat));
      } else {
        ComingSize(s'.inflight, seat);
        UnionSize(Actors(s'.usage, seat), Coming(s'.inflight, seat));
      }
    }
  }

  lemma OneMoreComing(m: map<nat, Ticket>, id: nat, t: Ticket, seat: bool)
    ensures Coming(m[id := t], seat) <= Coming(m, seat) + if ActorOf(t, seat) != "" then {ActorOf(t, seat)} else {}
  {
  }

  lemma UnionSize<T>(a: set<T>, b: set<T>)
    ensures |a + b| <= |a| + |b|
  {
    assert a + b == a + (b - a);
    SubsetSize(b - a, b);
  }

  lemma FinishActors(s: System, id: nat, status: int, seat: bool, bound: nat)
    requires ActorsHeld(s, seat, bound)
    ensures ActorsHeld(Step(s, Finish(id, status)), seat, bound)
  {
    var s' := Step(s, Finish(id, status));
    if id in s.inflight {
      var t := s.inflight[id];
      SettledActors(s.usage, t, status, seat);
      assert ActorOf(t, seat) != "" ==> ActorOf(t, seat) in Coming(s.inflight, seat);
      FewerComing(s.inflight, id, seat);
      SubsetSize(Actors(s'.usage, seat) + Coming(s'.inflight, seat), Actors(s.usage, seat) + Coming(s.inflight, seat));
    }
  }

  lemma FewerComing(m: map<nat, Ticket>, id: nat, seat: bool)
    ensures Coming(m - {id}, seat) <= Coming(m, seat)
  {
  }

  lemma SettledActors(u: Usage, t: Ticket, status: int, seat: bool)
    ensures Actors(Settled(u, t, status), seat) ==
            Actors(u, seat) + if status < 400 && ActorOf(t, seat) != "" then {ActorOf(t, seat)} else {}
  {
  }

  lemma {:induction false} RunHoldsActors(s: System, ops: seq<Op>, seat: bool, start: nat, limit: nat, k: nat)
    requires ActorsHeld(s, seat, Bound(start, limit, k)) && Bounded(s, ops, k)
    requires forall i | 0 <= i < |ops| :: Within(ops[i], ActorMeter(seat), limit)
    ensures ActorsHeld(Run(s, ops), seat, Bound(start, limit, k))
  {
    if ops != [] {
      FrontBounded(s, ops, k);
      var front, last := ops[..|ops| - 1], ops[|ops| - 1];
      RunHoldsActors(s, front, seat, start, limit, k);
      assert Within(ops[|ops| - 1], ActorMeter(seat), limit);
      match last
      case Arrive(id, request) => ArriveActors(Run(s, front), id, request, seat, start, limit, k);
      case Finish(id, status) => FinishActors(Run(s, front), id, status, seat, Bound(start, limit, k));
    }
  }

  /** The same bound holds of the distinct users and of the distinct seats. */
  lemma ActorBound(u: Usage, ops: seq<Op>, seat: bool, k: nat)
    requires Bounded(System(u, map[]), ops, k)
    ensures var n := |Actors(Run(System(u, map[]), ops).usage, seat)|;
      var limit := LargestLimit(ops, ActorMeter(seat));
      n <= |Actors(u, seat)| || (limit > 0 && n <= limit - 1 + k)
  {
    var limit := LargestLimit(ops, ActorMeter(seat));
    assert Actors(u, seat) + Coming(map[], seat) == Actors(u, seat);
    AllWithinLargest(ops, ActorMeter(seat));
    RunHoldsActors(System(u, map[]), ops, seat, |Actors(u, seat)|, limit, k);
    var s := Run(System(u, map[]), ops);
    SubsetSize(Actors(s.usage, seat), Actors(s.usage, seat) + Coming(s.inflight, seat));
  }

  // The bound is attained.

  function ProposalRequest(plan: Plan): Request {
    Request("POST", "/api/mutations/proposals", "", "", plan, {})
  }

  /** `k` proposals arrive together, and then all are answered. */
  function Burst(plan: Plan, k: nat, done: nat): seq<Op> {
    if done > 0 then Burst(plan, k, done - 1) + [Finish(done - 1, 200)]
    else if k > 0 then Burst(plan, k - 1, 0) + [Arrive(k - 1, ProposalRequest(plan))]
    else []
  }

  const PROPOSAL := Ticket(Some(GOVERNANCE_APPROVAL), "", "")

  lemma ProposalAdmitted(u: Usage, plan: Plan)
    requires u.approvals < Limit(plan, GOVERNANCE_APPROVAL)
    ensures Decide(u, ProposalRequest(plan)) == Admitted(PROPOSAL)
  {
    var r := ProposalRequest(plan);
    assert r.path[..5] == "/api/";
    NotUnder(r.path, "/api/admin/usage", 5);
    NotUnder(r.path, "/api/nexus/agents/", 5);
    assert Strip("") == "";
  }

  lemma NotUnder(s: string, part: string, i: nat)
    requires i < |part| && (i < |s| ==> s[i] != part[i])
    ensures !StartsWith(s, part)
  {
    assert |part| <= |s| ==> s[..|part|][i] == s[i];
  }

  function Waiting(lo: nat, hi: nat): map<nat, Ticket> {
    map id: nat | id < hi && From(id, lo) :: PROPOSAL
  }

  predicate From(id: nat, lo: nat) {
    lo <= id
  }

  lemma ProposalFinished(u: Usage, done: nat, k: nat)
    requires done < k
    ensures Step(System(u, Waiting(done, k)), Finish(done, 200)) ==
            System(u.(approvals := u.approvals + 1), Waiting(done + 1, k))
  {
    assert Waiting(done, k) - {done} == Waiting(done + 1, k);
  }

  lemma ProposalArrived(u: Usage, plan: Plan, k: nat)
    requires u.approvals < Limit(plan, GOVERNANCE_APPROVAL)
    ensures Step(System(u, Waiting(0, k)), Arrive(k, ProposalRequest(plan))) == System(u, Waiting(0, k + 1))
  {
    ProposalAdmitted(u, plan);
    assert Waiting(0, k)[k := PROPOSAL] == Waiting(0, k + 1);
  }

  lemma {:induction false} BurstArrives(u: Usage, plan: Plan, k: nat)
    requires u.approvals < Limit(plan, GOVERNANCE_APPROVAL)
    ensures Run(System(u, map[]), Burst(plan, k, 0)) == System(u, Waiting(0, k))
  {
    if k == 0 {
      assert Waiting(0, 0) == map[];
    } else {
      BurstArrives(u, plan, k - 1);
      ProposalArrived(u, plan, k - 1);
      RunOneMore(System(u, map[]), Burst(plan, k - 1, 0), Arrive(k - 1, ProposalRequest(plan)));
    }
  }

  lemma RunOneMore(s: System, ops: seq<Op>, op: Op)
    ensures Run(s, ops + [op]) == Step(Run(s, ops), op)
  {
    assert (ops + [op])[..|ops|] == ops;
  }

  lemma {:induction false} BurstRuns(u: Usage, plan: Plan, k: nat, done: nat)
    requires u.approvals < Limit(plan, GOVERNANCE_APPROVAL) && done <= k
    ensures Run(System(u, map[]), Burst(plan, k, done)) ==
            System(u.(approvals := u.approvals + done), Waiting(done, k))
  {
    if done == 0 {
      BurstArrives(u, plan, k);
    } else {
      BurstRuns(u, plan, k, done - 1);
      ProposalFinished(u.(approvals := u.approvals + (done - 1)), done - 1, k);
      RunOneMore(System(u, map[]), Burst(plan, k, done - 1), Finish(done - 1, 200));
    }
  }

  lemma {:induction false} BurstPrefix(plan: Plan, k: nat, done: nat, n: nat)
    requires n <= k + done
    ensures |Burst(plan, k, done)| == k + done
    ensures Burst(plan, k, done)[..n] == if n <= k then Burst(plan, n, 0) else Burst(plan, k, n - k)
    decreases k + done
  {
    var ops := Burst(plan, k, done);
    if done > 0 {
      BurstPrefix(plan, k, done - 1, if n < k + done then n else 0);
    } else if k > 0 {
      BurstPrefix(plan, k - 1, 0, if n < k then n else 0);
    }
    if n == k + done {
      assert ops[..n] == ops;
    }
  }

  lemma {:induction false} WaitingSize(lo: nat, hi: nat)
    ensures |Waiting(lo, hi)| <= hi
  {
    if hi == 0 {
      assert Waiting(lo, hi) == map[];
    } else {
      WaitingSize(lo, hi - 1);
      SubsetSize(Waiting(lo, hi).Keys, Waiting(lo, hi - 1).Keys + {hi - 1});
    }
  }

  lemma {:induction false} BurstLimit(plan: Plan, k: nat, done: nat)
    ensures LargestLimit(Burst(plan, k, done), EventMeter(GOVERNANCE_APPROVAL)) ==
            if k == 0 then 0 else Limit(plan, GOVERNANCE_APPROVAL)
    decreases k + done
  {
    var ops := Burst(plan, k, done);
    if done > 0 {
      BurstLimit(plan, k, done - 1);
      assert ops[..|ops| - 1] == Burst(plan, k, done - 1);
    } else if k > 0 {
      BurstLimit(plan, k - 1, 0);
      assert ops[..|ops| - 1] == Burst(plan, k - 1, 0);
    }
  }

  /** From one below the limit, `k` requests in flight together take the counter to limit - 1 + k: the bound is
      exact for every plan and every `k`. */
  lemma BoundIsAttained(u: Usage, plan: Plan, k: nat)
    requires u.approvals + 1 == Limit(plan, GOVERNANCE_APPROVAL) && k > 0
    ensures var ops := Burst(plan, k, k);
      && Bounded(System(u, map[]), ops, k)
      && LargestLimit(ops, EventMeter(GOVERNANCE_APPROVAL)) == Limit(plan, GOVERNANCE_APPROVAL)
      && Run(System(u, map[]), ops).usage.approvals == Limit(plan, GOVERNANCE_APPROVAL) - 1 + k
  {
    var ops := Burst(plan, k, k);
    BurstRuns(u, plan, k, k);
    BurstLimit(plan, k, k);
    BurstPrefix(plan, k, k, 0);
    forall n: nat | n <= |ops| ensures |Run(System(u, map[]), ops[..n]).inflight| <= k {
      BurstPrefix(plan, k, k, n);
      var hi, lo := if n <= k then n else k, if n <= k then 0 else n - k;
      BurstRuns(u, plan, hi, lo);
      WaitingSize(lo, hi);
    }
  }

  // Which billable requests escape.

  lemma UnderImplies(s: string, part: string, whole: string)
    requires |whole| <= |part| && part[..|whole|] == whole && StartsWith(s, part)
    ensures StartsWith(s, whole)
  {
    assert s[..|whole|] == s[..|part|][..|whole|];
  }

  lemma NestedPathIsMetered(path: string, part: string)
    requires StartsWith(path, part)
    requires part in ["/api/nexus/agents/", "/api/mutations/proposals", "/api/audit/epochs/"]
    ensures Metered(path)
  {
    assert part[..5] == "/api/";
    UnderImplies(path, part, "/api/");
    var i := if part == "/api/audit/epochs/" then 6 else 5;
    assert path[i] == path[..|part|][i] == part[i];
    NotUnder(path, "/api/admin/usage", i);
  }

  /** Of all requests that the event table makes billable, exactly `POST /mutation/propose` is never metered. */
  lemma BillableEscapesIff(r: Request)
    ensures BillableEvent(r.verb, r.path).Some? && !Metered(r.path) <==>
            r.verb == "POST" && r.path == "/mutation/propose"
  {
    NotUnder("/mutation/propose", "/api/", 1);
    if StartsWith(r.path, "/api/nexus/agents/") {
      NestedPathIsMetered(r.path, "/api/nexus/agents/");
    }
    if StartsWith(r.path, "/api/audit/epochs/") {
      NestedPathIsMetered(r.path, "/api/audit/epochs/");
    }
    if r.path == "/api/mutations/proposals" {
      assert StartsWith(r.path, "/api/mutations/proposals");
      NestedPathIsMetered(r.path, "/api/mutations/proposals");
    }
  }

  // The check and the count agree.

  lemma NewActor(actors: set<string>, a: string, limit: nat)
    ensures var after := actors + if a != "" then {a} else {};
      after != actors && |after| > limit <==> a != "" && a !in actors && |actors| >= limit
  {
    if a != "" && a !in actors {
      assert |actors + {a}| == |actors| + 1;
    } else {
      assert actors + (if a != "" then {a} else {}) == actors;
    }
  }

  lemma OneMoreEvent(u: Usage, t: Ticket, e: Event)
    requires t.event == Some(e)
    ensures Count(Registered(u, t), e) == Count(u, e) + 1
  {
  }

  /** The event is one that the free plan lacks, and the request does not bring the feature along. */
  predicate Locked(r: Request, event: Option<Event>) {
    r.plan == FREE && event.Some? && event.value in {MUTATION_EPOCH, REPLAY_VERIFICATION} && event.value !in r.extra
  }

  /** A metered request is judged by what counting it would lead to: it is denied for the first of users, seats, feature
      and event of which the plan would then have too many, and otherwise admitted with what is to be counted. */
  lemma DecisionByCounting(u: Usage, r: Request)
    ensures var t := Ticket(BillableEvent(r.verb, r.path), Strip(r.user), Strip(r.seat));
      var after := Registered(u, t);
      Decide(u, r) ==
      if !Metered(r.path) then Unmetered
      else if after.users != u.users && |after.users| > ActorLimit(r.plan) then Denied(ActiveUsersLimit)
      else if after.seats != u.seats && |after.seats| > ActorLimit(r.plan) then Denied(ActiveSeatsLimit)
      else if Locked(r, t.event) then Denied(FeatureDisabled)
      else if t.event.Some? && Count(after, t.event.value) > Limit(r.plan, t.event.value) then Denied(PlanLimitReached)
      else Admitted(t)
  {
    var t := Ticket(BillableEvent(r.verb, r.path), Strip(r.user), Strip(r.seat));
    NewActor(u.users, t.user, ActorLimit(r.plan));
    NewActor(u.seats, t.seat, ActorLimit(r.plan));
    if t.event.Some? {
      OneMoreEvent(u, t, t.event.value);
    }
    RegisteredActors(u, t);
  }

  lemma RegisteredActors(u: Usage, t: Ticket)
    ensures Registered(u, t).users == u.users + if t.user != "" then {t.user} else {}
    ensures Registered(u, t).seats == u.seats + if t.seat != "" then {t.seat} else {}
  {
  }
}
