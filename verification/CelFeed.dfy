/** The live execution feed of `dorkllm/cel_feed.py`: emitters build an event on the chain head, emit it
    under a lock that refuses a stale head, and fan it out to bounded subscriber queues outside the lock. */
module CelFeed {
  import opened HashChain
  import opened JsonText
  import JsonReader

  const MAX_BUFFER := 512

  const VALID_STATUSES: set<string> := {"STARTED", "COMPLETE", "BLOCKED", "ERROR"}

  datatype Fields = Fields(
    eventId: string, epochId: string, stepName: string, status: string, timestampUtc: int, payload: Json)

  /** An event before it is signed. */
  datatype Draft = Draft(fields: Fields, prev: Hash)

  type Event = Entry<Fields>

  type Mac = (Fields, Hash) -> Hash

  /** What is signed: all fields and the predecessor, with sorted keys. */
  function Canonical(f: Fields, prev: Hash): Json {
    JObj([("epoch_id", JStr(f.epochId)), ("event_id", JStr(f.eventId)), ("payload", f.payload),
          ("prev_hash", JStr(prev)), ("status", JStr(f.status)), ("step_name", JStr(f.stepName)),
          ("timestamp_utc", JNum(f.timestampUtc))])
  }

  /** The digest of an event under a digest of texts. */
  function SignedWith(hmac: string -> Hash): Mac {
    (f: Fields, prev: Hash) => hmac(Print(Canonical(f, prev)))
  }

  datatype Chain = Chain(head: Hash, log: seq<Event>)

  datatype Outcome = Emitted(event: Event) | InvalidStatus | ChainMismatch

  function EmitOn(chain: Chain, draft: Draft, mac: Mac): (Chain, Outcome) {
    if draft.fields.status !in VALID_STATUSES then (chain, InvalidStatus)
    else if draft.prev != chain.head then (chain, ChainMismatch)
    else
      var event := Entry(draft.fields, draft.prev, mac(draft.fields, draft.prev));
      (Chain(event.digest, chain.log + [event]), Emitted(event))
  }

  type QueueId = nat

  type Queues = map<QueueId, seq<Event>>

  /** One non-blocking put: a full queue drops the event. */
  function PutNowait(queues: Queues, q: QueueId, event: Event): Queues {
    if q in queues && |queues[q]| < MAX_BUFFER then queues[q := queues[q] + [event]] else queues
  }

  function PutAll(queues: Queues, subs: seq<QueueId>, event: Event): Queues {
    if subs == [] then queues
    else PutNowait(PutAll(queues, subs[..|subs| - 1], event), subs[|subs| - 1], event)
  }

  ghost predicate NoRepeats<T>(s: seq<T>) {
    forall i, j | 0 <= i < j < |s| :: s[i] != s[j]
  }

  /** Every subscribed queue with room for one more has the event at its end, and the other queues are unchanged. */
  ghost predicate Delivered(before: Queues, after: Queues, subs: seq<QueueId>, event: Event) {
    && after.Keys == before.Keys
    && forall q | q in before ::
         after[q] == if q in subs && |before[q]| < 512 then before[q] + [event] else before[q]
  }

  lemma {:induction false} PutAllDelivers(queues: Queues, subs: seq<QueueId>, event: Event)
    requires NoRepeats(subs)
    ensures Delivered(queues, PutAll(queues, subs, event), subs, event)
  {
    if subs != [] {
      var n := |subs| - 1;
      PutAllDelivers(queues, subs[..n], event);
      assert forall q :: q in subs <==> q in subs[..n] || q == subs[n];
    }
  }

  function RemoveFirst(subs: seq<QueueId>, q: QueueId): seq<QueueId> {
    if subs == [] then [] else if subs[0] == q then subs[1..] else [subs[0]] + RemoveFirst(subs[1..], q)
  }

  class CELFeedEngine {
    const mac: Mac
    var prevHash: Hash
    var eventLog: seq<Event>
    var subscribers: seq<QueueId>
    var queues: Queues
    var nextQueue: QueueId

    ghost function View(): Chain
      reads this
    {
      Chain(prevHash, eventLog)
    }

    constructor (mac: Mac)
      ensures View() == Chain(GENESIS, []) && subscribers == [] && queues == map[] && this.mac == mac
    {
      this.mac := mac;
      prevHash, eventLog, subscribers, queues, nextQueue := GENESIS, [], [], map[], 0;
    }

    method BuildEvent(fields: Fields) returns (draft: Draft)
      ensures draft == Draft(fields, prevHash)
    {
      draft := Draft(fields, prevHash);
    }

    method Emit(draft: Draft) returns (outcome: Outcome)
      modifies this
      ensures (View(), outcome) == EmitOn(old(View()), draft, mac)
      ensures subscribers == old(subscribers)
      ensures queues == if outcome.Emitted? then PutAll(old(queues), subscribers, outcome.event) else old(queues)
      ensures outcome.Emitted? && NoRepeats(subscribers) ==>
                Delivered(old(queues), queues, subscribers, outcome.event)
    {
      if draft.fields.status !in VALID_STATUSES {
        return InvalidStatus;
      }
      if draft.prev != prevHash {
        return ChainMismatch;
      }
      var sig := mac(draft.fields, draft.prev);
      var event := Entry(draft.fields, draft.prev, sig);
      prevHash := sig;
      eventLog := eventLog + [event];
      if NoRepeats(subscribers) {
        PutAllDelivers(queues, subscribers, event);
      }
      Fanout(event);
      return Emitted(event);
    }

    method Fanout(event: Event)
      modifies this`queues
      ensures queues == PutAll(old(queues), subscribers, event)
    {
      var subs := subscribers;
      for i := 0 to |subs|
        invariant queues == PutAll(old(queues), subs[..i], event)
      {
        assert subs[..i + 1][..i] == subs[..i];
        queues := PutNowait(queues, subs[i], event);
      }
      assert subs[..|subs|] == subs;
    }

    method Subscribe() returns (q: QueueId)
      modifies this
      ensures View() == old(View()) && q == old(nextQueue) && nextQueue == q + 1
      ensures subscribers == old(subscribers) + [q] && queues == old(queues)[q := []]
    {
      q := nextQueue;
      nextQueue := nextQueue + 1;
      queues := queues[q := []];
      subscribers := subscribers + [q];
    }

    method Unsubscribe(q: QueueId)
      modifies this`subscribers
      ensures subscribers == RemoveFirst(old(subscribers), q)
    {
      var i := 0;
      while i < |subscribers| && subscribers[i] != q
        invariant i <= |subscribers| && subscribers == old(subscribers)
        invariant RemoveFirst(subscribers, q) == subscribers[..i] + RemoveFirst(subscribers[i..], q)
      {
        i := i + 1;
      }
      if i < |subscribers| {
        subscribers := subscribers[..i] + subscribers[i + 1..];
      }
    }

    /** Replays the log against the digests; None of its answers depends on the subscribers. */
    method VerifyChain() returns (ok: bool)
      ensures ok <==> Valid(eventLog, mac)
    {
      var count;
      ok, count := Verify(eventLog, mac);
    }
  }

  // Signing.

  /** The canonical text commits to every field of the event and to its predecessor. */
  lemma CanonicalDetermines(f: Fields, p: Hash, g: Fields, q: Hash)
    requires Print(Canonical(f, p)) == Print(Canonical(g, q))
    ensures f == g && p == q
  {
    PrintInjective(Canonical(f, p), Canonical(g, q));
    var a, b := Canonical(f, p).members, Canonical(g, q).members;
    assert forall i | 0 <= i < 7 :: a[i] == b[i];
    assert a[0].1 == b[0].1 && a[1].1 == b[1].1 && a[2].1 == b[2].1 && a[3].1 == b[3].1;
    assert a[4].1 == b[4].1 && a[5].1 == b[5].1 && a[6].1 == b[6].1;
  }

  /** Read as JSON, the canonical text is an object that shows each field, and the predecessor, under its own name. */
  lemma CanonicalReads(f: Fields, prev: Hash)
    ensures var j := JsonReader.ReadText(Print(Canonical(f, prev)));
      j.Some? && j.value.JObj? &&
      var m := j.value.members;
      && |m| == 7 && (forall i, k | 0 <= i < k < 7 :: m[i].0 != m[k].0)
      && ("event_id", JStr(f.eventId)) in m && ("epoch_id", JStr(f.epochId)) in m
      && ("step_name", JStr(f.stepName)) in m && ("status", JStr(f.status)) in m
      && ("timestamp_utc", JNum(f.timestampUtc)) in m && ("payload", f.payload) in m
      && ("prev_hash", JStr(prev)) in m
  {
    JsonReader.ReadPrinted(Canonical(f, prev));
    CanonicalShows(f, prev);
    NamesDiffer(f, prev);
  }

  lemma CanonicalShows(f: Fields, prev: Hash)
    ensures var m := Canonical(f, prev).members;
      && |m| == 7
      && ("event_id", JStr(f.eventId)) in m && ("epoch_id", JStr(f.epochId)) in m
      && ("step_name", JStr(f.stepName)) in m && ("status", JStr(f.status)) in m
      && ("timestamp_utc", JNum(f.timestampUtc)) in m && ("payload", f.payload) in m
      && ("prev_hash", JStr(prev)) in m
  {
    var m := Canonical(f, prev).members;
    assert m[0] in m && m[1] in m && m[2] in m && m[3] in m && m[4] in m && m[5] in m && m[6] in m;
  }

  lemma NamesDiffer(f: Fields, prev: Hash)
    ensures var m := Canonical(f, prev).members; forall i, k | 0 <= i < k < |m| :: m[i].0 != m[k].0
  {
    var m := Canonical(f, prev).members;
    forall i, k | 0 <= i < k < |m| ensures NameShape(m[i].0) != NameShape(m[k].0) {
      assert m[0].0 == "epoch_id" && m[1].0 == "event_id" && m[2].0 == "payload" && m[3].0 == "prev_hash";
      assert m[4].0 == "status" && m[5].0 == "step_name" && m[6].0 == "timestamp_utc";
    }
  }

  function NameShape(name: string): (int, char) {
    (|name|, if |name| > 1 then name[1] else ' ')
  }

  /** A digest of texts that never collides, and is never the genesis value, gives a digest of events that is free of
      collisions. */
  lemma SigningIsCollisionFree(hmac: string -> Hash)
    requires forall a, b {:trigger hmac(a), hmac(b)} :: hmac(a) == hmac(b) ==> a == b
    requires forall a :: hmac(a) != GENESIS
    ensures CollisionFree(SignedWith(hmac))
  {
    var mac := SignedWith(hmac);
    forall f, p, g, q {:trigger mac(f, p), mac(g, q)} | mac(f, p) == mac(g, q) ensures f == g && p == q {
      assert hmac(Print(Canonical(f, p))) == hmac(Print(Canonical(g, q)));
      CanonicalDetermines(f, p, g, q);
    }
    forall f, p {:trigger mac(f, p)} ensures mac(f, p) != GENESIS {
      assert mac(f, p) == hmac(Print(Canonical(f, p)));
    }
  }

  /** There is such a digest. */
  lemma CollisionFreeExists() returns (mac: Mac)
    ensures CollisionFree(mac)
  {
    var hmac := (text: string) => GENESIS + ("#" + text);
    forall a, b | hmac(a) == hmac(b) ensures a == b {
      var n := |GENESIS| + 1;
      assert hmac(a)[n..] == a && hmac(b)[n..] == b;
    }
    forall a ensures hmac(a) != GENESIS {
      assert |hmac(a)| > |GENESIS|;
    }
    SigningIsCollisionFree(hmac);
    mac := SignedWith(hmac);
  }

  // Interleavings: any number of emitters and subscribers, each lock section and each put one step.

  type Emitter = nat

  datatype Phase =
    | Idle
    | Built(draft: Draft)
    | Accepted(event: Event)
    | FanningOut(event: Event, pending: seq<QueueId>)

  /** A subscriber queue; `received` is the history of every event ever put in it. */
  datatype Queue = Queue(waiting: seq<Event>, received: seq<Event>)

  datatype System = System(
    chain: Chain, emitters: map<Emitter, Phase>, subscribers: seq<QueueId>, queues: map<QueueId, Queue>)

  datatype Step =
    | Build(who: Emitter, fields: Fields)
    | Craft(who: Emitter, draft: Draft)  // an event made without the builder, with any predecessor
    | Emit(who: Emitter)
    | Snapshot(who: Emitter)
    | Put(who: Emitter)
    | Return(who: Emitter)
    | Subscribe(q: QueueId)
    | Unsubscribe(q: QueueId)
    | Consume(q: QueueId)

  const START := System(Chain(GENESIS, []), map[], [], map[])

  function At(y: System, who: Emitter): Phase {
    if who in y.emitters then y.emitters[who] else Idle
  }

  predicate Enabled(y: System, step: Step) {
    match step
    case Build(e, _) => At(y, e).Idle?
    case Craft(e, _) => At(y, e).Idle?
    case Emit(e) => At(y, e).Built?
    case Snapshot(e) => At(y, e).Accepted?
    case Put(e) => At(y, e).FanningOut? && At(y, e).pending != []
    case Return(e) => At(y, e).FanningOut? && At(y, e).pending == []
    case Subscribe(q) => q !in y.queues
    case Unsubscribe(q) => true
    case Consume(q) => q in y.queues && y.queues[q].waiting != []
  }

  function PutOne(queue: Queue, event: Event): Queue {
    if |queue.waiting| < MAX_BUFFER then Queue(queue.waiting + [event], queue.received + [event]) else queue
  }

  /** A step that is not enabled leaves the system as it is. */
  function Apply(y: System, step: Step, mac: Mac): System {
    if !Enabled(y, step) then y
    else
      match step
      case Build(e, fields) => y.(emitters := y.emitters[e := Built(Draft(fields, y.chain.head))])
      case Craft(e, draft) => y.(emitters := y.emitters[e := Built(draft)])
      case Emit(e) =>
        var (chain, outcome) := EmitOn(y.chain, At(y, e).draft, mac);
        y.(chain := chain, emitters := y.emitters[e := if outcome.Emitted? then Accepted(outcome.event) else Idle])
      case Snapshot(e) => y.(emitters := y.emitters[e := FanningOut(At(y, e).event, y.subscribers)])
      case Put(e) =>
        var FanningOut(event, pending) := At(y, e);
        var q := pending[0];
        y.(emitters := y.emitters[e := FanningOut(event, pending[1..])],
           queues := if q in y.queues then y.queues[q := PutOne(y.queues[q], event)] else y.queues)
      case Return(e) => y.(emitters := y.emitters[e := Idle])
      case Subscribe(q) => y.(subscribers := y.subscribers + [q], queues := y.queues[q := Queue([], [])])
      case Unsubscribe(q) => y.(subscribers := RemoveFirst(y.subscribers, q))
      case Consume(q) =>
        y.(queues := y.queues[q := Queue(y.queues[q].waiting[1..], y.queues[q].received)])
  }

  function Execute(y: System, steps: seq<Step>, mac: Mac): System
    decreases |steps|
  {
    if steps == [] then y else Execute(Apply(y, steps[0], mac), steps[1..], mac)
  }

  // The chain.

  ghost predicate Chained(chain: Chain, mac: Mac) {
    && Valid(chain.log, mac) && chain.head == Head(chain.log)
    && forall i | 0 <= i < |chain.log| :: chain.log[i].body.status in VALID_STATUSES
  }

  lemma EmitKeepsChained(chain: Chain, draft: Draft, mac: Mac)
    requires Chained(chain, mac)
    ensures Chained(EmitOn(chain, draft, mac).0, mac)
    ensures chain.log <= EmitOn(chain, draft, mac).0.log
  {
    var event := Seal(chain.log, draft.fields, mac);
  }

  /** Under every interleaving the log only grows and stays a valid chain from genesis whose last digest is
      the head. */
  lemma {:induction false} InterleavingsKeepChain(y: System, steps: seq<Step>, mac: Mac)
    requires Chained(y.chain, mac)
    ensures Chained(Execute(y, steps, mac).chain, mac)
    ensures y.chain.log <= Execute(y, steps, mac).chain.log
    decreases |steps|
  {
    if steps != [] {
      if steps[0].Emit? && At(y, steps[0].who).Built? {
        EmitKeepsChained(y.chain, At(y, steps[0].who).draft, mac);
      }
      InterleavingsKeepChain(Apply(y, steps[0], mac), steps[1..], mac);
    }
  }

  /** Of all events ever built on one head, at most one is accepted. */
  lemma OneEventPerHead(steps: seq<Step>, mac: Mac, i: nat, j: nat)
    requires CollisionFree(mac)
    requires i < |Execute(START, steps, mac).chain.log| && j < |Execute(START, steps, mac).chain.log|
    ensures var log := Execute(START, steps, mac).chain.log;
      log[i].prev == log[j].prev || log[i].digest == log[j].digest ==> i == j
  {
    InterleavingsKeepChain(START, steps, mac);
    var log := Execute(START, steps, mac).chain.log;
    if i < j { HeadsNeverRepeat(log, i, j, mac); }
    if j < i { HeadsNeverRepeat(log, j, i, mac); }
  }

  /** Optimism pays off exactly when nobody else was faster: an event built on the head is accepted later, after
      any steps of any emitters, if and only if its status is valid and nothing was accepted in between. */
  lemma AcceptedIffNothingInBetween(y: System, steps: seq<Step>, draft: Draft, mac: Mac)
    requires CollisionFree(mac) && Chained(y.chain, mac) && draft.prev == y.chain.head
    ensures var later := Execute(y, steps, mac).chain;
      var (chain', outcome) := EmitOn(later, draft, mac);
      && (outcome.Emitted? <==>
            draft.fields.status in {"STARTED", "COMPLETE", "BLOCKED", "ERROR"} && later.log == y.chain.log)
      && (!outcome.Emitted? ==> chain' == later)
      && (outcome == InvalidStatus <==> draft.fields.status !in {"STARTED", "COMPLETE", "BLOCKED", "ERROR"})
      && (outcome.Emitted? ==>
            var event := Entry(draft.fields, draft.prev, mac(draft.fields, draft.prev));
            outcome.event == event && chain' == Chain(event.digest, later.log + [event]))
  {
    var log, log' := y.chain.log, Execute(y, steps, mac).chain.log;
    InterleavingsKeepChain(y, steps, mac);
    assert log'[..|log|] == log && log'[..|log'|] == log';
    if log != log' {
      HeadsNeverRepeat(log', |log|, |log'|, mac);
    }
  }

  // Subscribers leave no trace in the chain.

  predicate BySubscriber(step: Step) { step.Subscribe? || step.Unsubscribe? || step.Consume? }

  function Erase(steps: seq<Step>): seq<Step> {
    if steps == [] then [] else (if BySubscriber(steps[0]) then [] else [steps[0]]) + Erase(steps[1..])
  }

  /** Every step of the run is one the program can take. */
  predicate Legal(y: System, steps: seq<Step>, mac: Mac)
    decreases |steps|
  {
    steps == [] || (Enabled(y, steps[0]) && Legal(Apply(y, steps[0], mac), steps[1..], mac))
  }

  function Unobserved(p: Phase): Phase {
    if p.FanningOut? then FanningOut(p.event, []) else p
  }

  ghost predicate SameEmission(y: System, z: System) {
    && y.chain == z.chain && z.subscribers == [] && z.queues == map[]
    && y.emitters.Keys == z.emitters.Keys
    && forall e | e in y.emitters :: z.emitters[e] == Unobserved(y.emitters[e])
  }

  lemma SubscriberStep(y: System, z: System, step: Step, mac: Mac)
    requires SameEmission(y, z) && Enabled(y, step)
    ensures BySubscriber(step) ==> SameEmission(Apply(y, step, mac), z)
    ensures !BySubscriber(step) ==> SameEmission(Apply(y, step, mac), Apply(z, step, mac))
  {
    if !BySubscriber(step) {
      assert At(z, step.who) == Unobserved(At(y, step.who));
    }
  }

  lemma {:induction false} ErasureFrom(y: System, z: System, steps: seq<Step>, mac: Mac)
    requires SameEmission(y, z) && Legal(y, steps, mac)
    ensures SameEmission(Execute(y, steps, mac), Execute(z, Erase(steps), mac))
    decreases |steps|
  {
    if steps != [] {
      SubscriberStep(y, z, steps[0], mac);
      var rest := Erase(steps[1..]);
      if BySubscriber(steps[0]) {
        ErasureFrom(Apply(y, steps[0], mac), z, steps[1..], mac);
        assert Erase(steps) == rest;
      } else {
        ErasureFrom(Apply(y, steps[0], mac), Apply(z, steps[0], mac), steps[1..], mac);
        assert Erase(steps) == [steps[0]] + rest;
      }
    }
  }

  /** Erasing every subscribe, unsubscribe and consume step from a run leaves its log and head unchanged. */
  lemma SubscribersNeverAffectChain(steps: seq<Step>, mac: Mac)
    requires Legal(START, steps, mac)
    ensures Execute(START, Erase(steps), mac).chain == Execute(START, steps, mac).chain
  {
    ErasureFrom(START, START, steps, mac);
  }
}
