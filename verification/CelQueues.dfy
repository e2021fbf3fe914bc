/** What the subscribers of `dorkllm/cel_feed.py` receive, over every interleaving. */
module CelQueues {
  import opened HashChain
  import opened CelFeed

  /** A queue holds the latest events it received and not consumed, all different and all from the log. */
  ghost predicate GoodQueue(log: seq<Event>, queue: Queue) {
    && |queue.waiting| <= MAX_BUFFER && |queue.waiting| <= |queue.received|
    && queue.waiting == queue.received[|queue.received| - |queue.waiting|..]
    && NoRepeats(queue.received)
    && forall x | x in queue.received :: x in log
  }

  predicate Active(p: Phase) { p.Accepted? || p.FanningOut? }

  /** The event being fanned out is in the log and has not reached the queues still to be served. */
  ghost predicate GoodPhase(y: System, p: Phase) {
    && (Active(p) ==> p.event in y.chain.log)
    && (p.Accepted? ==> forall q | q in y.queues :: p.event !in y.queues[q].received)
    && (p.FanningOut? ==>
          NoRepeats(p.pending) && forall q | q in p.pending :: q in y.queues && p.event !in y.queues[q].received)
  }

  ghost predicate Delivering(y: System, mac: Mac) {
    && Chained(y.chain, mac)
    && NoRepeats(y.subscribers) && (forall q | q in y.subscribers :: q in y.queues)
    && (forall q | q in y.queues :: GoodQueue(y.chain.log, y.queues[q]))
    && (forall e | e in y.emitters :: GoodPhase(y, y.emitters[e]))
    && (forall e, f | e in y.emitters && f in y.emitters && e != f && Active(y.emitters[e]) && Active(y.emitters[f]) ::
          y.emitters[e].event != y.emitters[f].event)
  }

  lemma NewEventIsNew(chain: Chain, draft: Draft, mac: Mac)
    requires CollisionFree(mac) && Chained(chain, mac) && EmitOn(chain, draft, mac).1.Emitted?
    ensures EmitOn(chain, draft, mac).1.event !in chain.log
  {
    EmitKeepsChained(chain, draft, mac);
    var log := EmitOn(chain, draft, mac).0.log;
    var event := EmitOn(chain, draft, mac).1.event;
    if event in chain.log {
      var i :| 0 <= i < |chain.log| && chain.log[i] == event;
      assert log[i] == event && log[|chain.log|] == event;
      HeadsNeverRepeat(log, i, |log|, mac);
      HeadAt(log, i, mac);
    }
  }

  lemma HeadAt(log: seq<Event>, i: nat, mac: Mac)
    requires CollisionFree(mac) && Valid(log, mac) && i < |log| - 1
    ensures log[i].digest != log[|log| - 1].digest
  {
    HeadsNeverRepeat(log, i, |log| - 1, mac);
  }

  lemma EmitKeepsDelivering(y: System, e: Emitter, mac: Mac)
    requires CollisionFree(mac) && Delivering(y, mac) && At(y, e).Built?
    ensures Delivering(Apply(y, Emit(e), mac), mac)
  {
    var draft := At(y, e).draft;
    var y' := Apply(y, Emit(e), mac);
    EmitKeepsChained(y.chain, draft, mac);
    if EmitOn(y.chain, draft, mac).1.Emitted? {
      NewEventIsNew(y.chain, draft, mac);
    }
    forall q | q in y'.queues ensures GoodQueue(y'.chain.log, y'.queues[q]) {
      assert GoodQueue(y.chain.log, y.queues[q]);
    }
    forall f | f in y'.emitters ensures GoodPhase(y', y'.emitters[f]) {
      if f != e {
        assert GoodPhase(y, y.emitters[f]);
      }
    }
  }

  lemma PutKeepsGood(log: seq<Event>, queue: Queue, event: Event)
    requires GoodQueue(log, queue) && event in log && event !in queue.received
    ensures GoodQueue(log, PutOne(queue, event))
  {
  }

  lemma PutKeepsDelivering(y: System, e: Emitter, mac: Mac)
    requires Delivering(y, mac) && Enabled(y, Put(e))
    ensures Delivering(Apply(y, Put(e), mac), mac)
  {
    var y' := Apply(y, Put(e), mac);
    var FanningOut(event, pending) := At(y, e);
    var q := pending[0];
    assert GoodPhase(y, y.emitters[e]);
    PutKeepsGood(y.chain.log, y.queues[q], event);
    forall f | f in y'.emitters ensures GoodPhase(y', y'.emitters[f]) {
      assert GoodPhase(y, y.emitters[f]);
    }
  }

  lemma {:induction false} RemoveFirstFacts(subs: seq<QueueId>, q: QueueId)
    requires NoRepeats(subs)
    ensures NoRepeats(RemoveFirst(subs, q)) && forall x | x in RemoveFirst(subs, q) :: x in subs
  {
    if subs != [] {
      RemoveFirstFacts(subs[1..], q);
      assert subs[0] !in subs[1..] && NoRepeats(subs[1..]);
      if subs[0] != q {
        assert subs[0] !in RemoveFirst(subs[1..], q);
      }
    }
  }

  /** Unsubscribing takes the queue off the list and leaves the others in order. */
  lemma {:induction false} UnsubscribeRemoves(subs: seq<QueueId>, q: QueueId) returns (k: nat)
    requires NoRepeats(subs)
    ensures q !in RemoveFirst(subs, q)
    ensures if q in subs then k < |subs| && subs[k] == q && RemoveFirst(subs, q) == subs[..k] + subs[k + 1..]
            else RemoveFirst(subs, q) == subs
  {
    k := 0;
    if subs != [] {
      assert NoRepeats(subs[1..]) && subs[0] !in subs[1..];
      if subs[0] != q {
        var n := UnsubscribeRemoves(subs[1..], q);
        k := n + 1;
        RemoveLater(subs, q, n);
      }
    }
  }

  lemma RemoveLater(subs: seq<QueueId>, q: QueueId, n: nat)
    requires subs != [] && subs[0] != q
    requires q in subs[1..] ==>
               n < |subs[1..]| && subs[1..][n] == q && RemoveFirst(subs[1..], q) == subs[1..][..n] + subs[1..][n + 1..]
    requires q !in subs[1..] ==> RemoveFirst(subs[1..], q) == subs[1..]
    ensures q in subs <==> q in subs[1..]
    ensures q in subs ==>
              n + 1 < |subs| && subs[n + 1] == q && RemoveFirst(subs, q) == subs[..n + 1] + subs[n + 2..]
    ensures q !in subs ==> RemoveFirst(subs, q) == subs
  {
    if q in subs[1..] {
      assert subs[..n + 1] == [subs[0]] + subs[1..][..n] && subs[n + 2..] == subs[1..][n + 1..];
    } else {
      assert subs == [subs[0]] + subs[1..];
    }
  }

  predicate OfEmitter(step: Step) {
    step.Build? || step.Craft? || step.Snapshot? || step.Return?
  }

  lemma EmitterStepKeepsDelivering(y: System, step: Step, mac: Mac)
    requires Delivering(y, mac) && Enabled(y, step) && OfEmitter(step)
    ensures Delivering(Apply(y, step, mac), mac)
  {
    var y' := Apply(y, step, mac);
    forall f | f in y'.emitters ensures GoodPhase(y', y'.emitters[f]) {
      if f in y.emitters {
        assert GoodPhase(y, y.emitters[f]);
      }
    }
  }

  lemma UnsubscribeKeepsDelivering(y: System, q: QueueId, mac: Mac)
    requires Delivering(y, mac)
    ensures Delivering(Apply(y, Unsubscribe(q), mac), mac)
  {
    var y' := Apply(y, Unsubscribe(q), mac);
    RemoveFirstFacts(y.subscribers, q);
    forall f | f in y'.emitters ensures GoodPhase(y', y'.emitters[f]) {
      assert GoodPhase(y, y.emitters[f]);
    }
  }

  lemma NewQueueIsGood(log: seq<Event>)
    ensures GoodQueue(log, Queue([], []))
  {
  }

  lemma AddedOnce(subs: seq<QueueId>, q: QueueId)
    requires NoRepeats(subs) && q !in subs
    ensures NoRepeats(subs + [q]) && forall x | x in subs + [q] :: x in subs || x == q
  {
  }

  lemma SubscribeKeepsDelivering(y: System, q: QueueId, mac: Mac)
    requires Delivering(y, mac) && q !in y.queues
    ensures Delivering(Apply(y, Subscribe(q), mac), mac)
  {
    var y' := Apply(y, Subscribe(q), mac);
    AddedOnce(y.subscribers, q);
    NewQueueIsGood(y.chain.log);
    forall p | p in y'.queues ensures GoodQueue(y'.chain.log, y'.queues[p]) {
      if p != q { assert GoodQueue(y.chain.log, y.queues[p]); }
    }
    forall f | f in y'.emitters ensures GoodPhase(y', y'.emitters[f]) {
      assert GoodPhase(y, y.emitters[f]);
    }
  }

  lemma ConsumeKeepsDelivering(y: System, q: QueueId, mac: Mac)
    requires Delivering(y, mac) && Enabled(y, Consume(q))
    ensures Delivering(Apply(y, Consume(q), mac), mac)
  {
    var y' := Apply(y, Consume(q), mac);
    assert GoodQueue(y.chain.log, y.queues[q]);
    forall f | f in y'.emitters ensures GoodPhase(y', y'.emitters[f]) {
      assert GoodPhase(y, y.emitters[f]);
    }
  }

  lemma OtherStepKeepsDelivering(y: System, step: Step, mac: Mac)
    requires Delivering(y, mac) && Enabled(y, step) && !step.Emit? && !step.Put?
    ensures Delivering(Apply(y, step, mac), mac)
  {
    match step
    case Unsubscribe(q) => UnsubscribeKeepsDelivering(y, q, mac);
    case Subscribe(q) => SubscribeKeepsDelivering(y, q, mac);
    case Consume(q) => ConsumeKeepsDelivering(y, q, mac);
    case _ => EmitterStepKeepsDelivering(y, step, mac);
  }

  lemma StepKeepsDelivering(y: System, step: Step, mac: Mac)
    requires CollisionFree(mac) && Delivering(y, mac)
    ensures Delivering(Apply(y, step, mac), mac)
  {
    if Enabled(y, step) {
      if step.Emit? {
        EmitKeepsDelivering(y, step.who, mac);
      } else if step.Put? {
        PutKeepsDelivering(y, step.who, mac);
      } else {
        OtherStepKeepsDelivering(y, step, mac);
      }
    }
  }

  /** Under every interleaving each queue holds at most its buffer, and has received only logged events,
      each at most once. */
  lemma {:induction false} InterleavingsDeliverOnce(y: System, steps: seq<Step>, mac: Mac)
    requires CollisionFree(mac) && Delivering(y, mac)
    ensures Delivering(Execute(y, steps, mac), mac)
    decreases |steps|
  {
    if steps != [] {
      StepKeepsDelivering(y, steps[0], mac);
      InterleavingsDeliverOnce(Apply(y, steps[0], mac), steps[1..], mac);
    }
  }

  lemma EachQueueReceivesLoggedEventsOnce(steps: seq<Step>, mac: Mac, q: QueueId)
    requires CollisionFree(mac) && q in Execute(START, steps, mac).queues
    ensures var y := Execute(START, steps, mac);
      && |y.queues[q].waiting| <= 512
      && NoRepeats(y.queues[q].received)
      && forall x | x in y.queues[q].received :: x in y.chain.log
  {
    InterleavingsDeliverOnce(START, steps, mac);
    assert GoodQueue(Execute(START, steps, mac).chain.log, Execute(START, steps, mac).queues[q]);
  }

  // When delivery follows the log.

  ghost predicate Before(log: seq<Event>, a: Event, b: Event) {
    exists i, j :: 0 <= i < j < |log| && log[i] == a && log[j] == b
  }

  /** With distinct log entries: a subsequence of the log. */
  ghost predicate InLogOrder(log: seq<Event>, s: seq<Event>) {
    forall i, j | 0 <= i < j < |s| :: Before(log, s[i], s[j])
  }

  /** The emitter's accepted event can still be put in the queue. */
  predicate MayReach(y: System, e: Emitter, q: QueueId) {
    match At(y, e)
    case Accepted(_) => q in y.subscribers
    case FanningOut(_, pending) => q in pending
    case _ => false
  }

  /** The emitter has an accepted event whose fan-out has not begun, or has still to serve a subscriber. */
  ghost predicate Exposed(y: System, e: Emitter) {
    At(y, e).Accepted? || (At(y, e).FanningOut? && exists q | q in At(y, e).pending :: q in y.subscribers)
  }

  /** The step lets no event in while another one is exposed. */
  ghost predicate Careful(y: System, step: Step, mac: Mac) {
    step.Emit? && At(y, step.who).Built? && EmitOn(y.chain, At(y, step.who).draft, mac).1.Emitted? ==>
      forall e | e in y.emitters :: !Exposed(y, e)
  }

  ghost predicate OneAtATime(y: System, steps: seq<Step>, mac: Mac)
    decreases |steps|
  {
    steps == [] || (Careful(y, steps[0], mac) && OneAtATime(Apply(y, steps[0], mac), steps[1..], mac))
  }

  /** Everything the queue received is ahead of the event in the log. */
  ghost predicate Ahead(log: seq<Event>, queue: Queue, event: Event) {
    forall x | x in queue.received :: Before(log, x, event)
  }

  /** Two events still on their way have no queue in common. */
  ghost predicate Apart(y: System, e: Emitter, f: Emitter) {
    && !(At(y, e).Accepted? && At(y, f).Accepted?)
    && forall q :: !(MayReach(y, e, q) && MayReach(y, f, q))
  }

  ghost predicate Orderly(y: System) {
    && (forall q | q in y.queues :: InLogOrder(y.chain.log, y.queues[q].received))
    && (forall e, q | e in y.emitters && q in y.queues && MayReach(y, e, q) ::
          Ahead(y.chain.log, y.queues[q], At(y, e).event))
    && (forall e, f | e in y.emitters && f in y.emitters && e != f :: Apart(y, e, f))
  }

  lemma BeforeGrows(log: seq<Event>, log': seq<Event>, a: Event, b: Event)
    requires log <= log' && Before(log, a, b)
    ensures Before(log', a, b)
  {
    var i, j :| 0 <= i < j < |log| && log[i] == a && log[j] == b;
    assert log'[i] == a && log'[j] == b;
  }

  lemma OrderGrows(log: seq<Event>, log': seq<Event>, s: seq<Event>)
    requires log <= log' && InLogOrder(log, s)
    ensures InLogOrder(log', s)
  {
    forall i, j | 0 <= i < j < |s| ensures Before(log', s[i], s[j]) {
      BeforeGrows(log, log', s[i], s[j]);
    }
  }

  lemma AheadGrows(log: seq<Event>, log': seq<Event>, queue: Queue, event: Event)
    requires log <= log' && Ahead(log, queue, event)
    ensures Ahead(log', queue, event)
  {
    forall x | x in queue.received ensures Before(log', x, event) {
      BeforeGrows(log, log', x, event);
    }
  }

  /** The newest event is behind everything received so far. */
  lemma NewestIsLast(log: seq<Event>, queue: Queue, event: Event)
    requires GoodQueue(log, queue)
    ensures Ahead(log + [event], queue, event)
  {
    forall x | x in queue.received ensures Before(log + [event], x, event) {
      var k :| 0 <= k < |log| && log[k] == x;
      assert (log + [event])[k] == x && (log + [event])[|log|] == event;
    }
  }

  lemma PutKeepsOrder(log: seq<Event>, queue: Queue, event: Event)
    requires InLogOrder(log, queue.received) && Ahead(log, queue, event)
    ensures InLogOrder(log, PutOne(queue, event).received)
  {
    var s := queue.received;
    forall i | 0 <= i < |s| ensures Before(log, s[i], event) {
      assert s[i] in queue.received;
    }
  }

  lemma EmitKeepsOrderly(y: System, f: Emitter, mac: Mac)
    requires Delivering(y, mac) && Orderly(y) && At(y, f).Built?
    requires EmitOn(y.chain, At(y, f).draft, mac).1.Emitted? && forall e | e in y.emitters :: !Exposed(y, e)
    ensures Orderly(Apply(y, Emit(f), mac))
  {
    var y' := Apply(y, Emit(f), mac);
    var log, log' := y.chain.log, y'.chain.log;
    forall q | q in y'.queues ensures InLogOrder(log', y'.queues[q].received) {
      OrderGrows(log, log', y.queues[q].received);
    }
    forall e, q | e in y'.emitters && q in y'.queues && MayReach(y', e, q)
      ensures Ahead(log', y'.queues[q], At(y', e).event)
    {
      assert GoodQueue(log, y.queues[q]);
      if e == f {
        NewestIsLast(log, y.queues[q], At(y', f).event);
      } else {
        assert MayReach(y, e, q);
        AheadGrows(log, log', y.queues[q], At(y, e).event);
      }
    }
    forall e, g | e in y'.emitters && g in y'.emitters && e != g ensures Apart(y', e, g) {
      EmitKeepsApart(y, f, e, g, mac);
    }
  }

  lemma EmitKeepsApart(y: System, f: Emitter, e: Emitter, g: Emitter, mac: Mac)
    requires Orderly(y) && At(y, f).Built? && e in y.emitters && g in y.emitters && e != g
    requires EmitOn(y.chain, At(y, f).draft, mac).1.Emitted? && forall e | e in y.emitters :: !Exposed(y, e)
    ensures Apart(Apply(y, Emit(f), mac), e, g)
  {
    var y' := Apply(y, Emit(f), mac);
    assert Apart(y, e, g) && !Exposed(y, e) && !Exposed(y, g);
    forall q ensures !(MayReach(y', e, q) && MayReach(y', g, q)) {
      assert e != f ==> MayReach(y', e, q) == MayReach(y, e, q);
      assert g != f ==> MayReach(y', g, q) == MayReach(y, g, q);
    }
  }

  lemma RefusalKeepsOrderly(y: System, f: Emitter, mac: Mac)
    requires Orderly(y) && At(y, f).Built? && !EmitOn(y.chain, At(y, f).draft, mac).1.Emitted?
    ensures Orderly(Apply(y, Emit(f), mac))
  {
    FewerKeepOrderly(y, Apply(y, Emit(f), mac));
  }

  /** A step that changes no received event and lets no event reach further keeps the order. */
  lemma FewerKeepOrderly(y: System, y': System)
    requires Orderly(y) && y'.chain == y.chain && y'.queues.Keys == y.queues.Keys
    requires forall q | q in y.queues :: y'.queues[q].received == y.queues[q].received
    requires forall e, q | e in y'.emitters && MayReach(y', e, q) ::
               e in y.emitters && MayReach(y, e, q) && At(y', e).event == At(y, e).event
    requires forall e | e in y'.emitters && At(y', e).Accepted? :: e in y.emitters && At(y, e).Accepted?
    ensures Orderly(y')
  {
    forall e, q | e in y'.emitters && q in y'.queues && MayReach(y', e, q)
      ensures Ahead(y'.chain.log, y'.queues[q], At(y', e).event)
    {
      assert Ahead(y.chain.log, y.queues[q], At(y, e).event);
    }
    forall e, f | e in y'.emitters && f in y'.emitters && e != f ensures Apart(y', e, f) {
      forall q ensures !(MayReach(y', e, q) && MayReach(y', f, q)) {
        assert MayReach(y', e, q) && MayReach(y', f, q) ==> Apart(y, e, f);
      }
      assert At(y', e).Accepted? && At(y', f).Accepted? ==> Apart(y, e, f);
    }
  }

  lemma SubscribeKeepsOrderly(y: System, q: QueueId, mac: Mac)
    requires Delivering(y, mac) && Orderly(y) && q !in y.queues
    ensures Orderly(Apply(y, Subscribe(q), mac))
  {
    var y' := Apply(y, Subscribe(q), mac);
    forall e | e in y.emitters ensures At(y, e).FanningOut? ==> q !in At(y, e).pending {
      assert GoodPhase(y, y.emitters[e]);
    }
    forall e, p | e in y'.emitters && p in y'.queues && MayReach(y', e, p)
      ensures Ahead(y'.chain.log, y'.queues[p], At(y', e).event)
    {
      if p != q {
        assert MayReach(y, e, p);
        assert Ahead(y.chain.log, y.queues[p], At(y, e).event);
      }
    }
    forall e, f | e in y'.emitters && f in y'.emitters && e != f ensures Apart(y', e, f) {
      assert Apart(y, e, f);
      forall p ensures !(MayReach(y', e, p) && MayReach(y', f, p)) {
        if p != q {
          assert MayReach(y', e, p) ==> MayReach(y, e, p);
          assert MayReach(y', f, p) ==> MayReach(y, f, p);
        }
      }
    }
  }

  lemma PutKeepsOrderly(y: System, e: Emitter, mac: Mac)
    requires Delivering(y, mac) && Orderly(y) && Enabled(y, Put(e))
    ensures Orderly(Apply(y, Put(e), mac))
  {
    var y' := Apply(y, Put(e), mac);
    var FanningOut(event, pending) := At(y, e);
    var q := pending[0];
    assert GoodPhase(y, y.emitters[e]) && q in pending;
    assert MayReach(y, e, q);
    assert forall i | 0 < i < |pending| :: pending[i] != q;
    forall p | p in y'.queues ensures InLogOrder(y'.chain.log, y'.queues[p].received) {
      if p == q {
        PutKeepsOrder(y.chain.log, y.queues[q], event);
      }
    }
    forall f, p | f in y'.emitters && p in y'.queues && MayReach(y', f, p)
      ensures Ahead(y'.chain.log, y'.queues[p], At(y', f).event)
    {
      assert MayReach(y, f, p);
      assert f != e ==> Apart(y, f, e);
      assert p != q;
    }
    forall f, g | f in y'.emitters && g in y'.emitters && f != g ensures Apart(y', f, g) {
      assert Apart(y, f, g);
      forall p ensures !(MayReach(y', f, p) && MayReach(y', g, p)) {
        assert MayReach(y', f, p) ==> MayReach(y, f, p);
        assert MayReach(y', g, p) ==> MayReach(y, g, p);
      }
    }
  }

  lemma EmitStepKeepsOrderly(y: System, f: Emitter, mac: Mac)
    requires Delivering(y, mac) && Orderly(y) && At(y, f).Built? && Careful(y, Emit(f), mac)
    ensures Orderly(Apply(y, Emit(f), mac))
  {
    if EmitOn(y.chain, At(y, f).draft, mac).1.Emitted? {
      EmitKeepsOrderly(y, f, mac);
    } else {
      RefusalKeepsOrderly(y, f, mac);
    }
  }

  lemma ReturnKeepsOrderly(y: System, e: Emitter, mac: Mac)
    requires Orderly(y) && Enabled(y, Return(e))
    ensures Orderly(Apply(y, Return(e), mac))
  {
    FewerKeepOrderly(y, Apply(y, Return(e), mac));
  }

  lemma StartKeepsOrderly(y: System, step: Step, mac: Mac)
    requires Orderly(y) && Enabled(y, step) && (step.Build? || step.Craft?)
    ensures Orderly(Apply(y, step, mac))
  {
    FewerKeepOrderly(y, Apply(y, step, mac));
  }

  lemma UnsubscribeKeepsOrderly(y: System, q: QueueId, mac: Mac)
    requires Delivering(y, mac) && Orderly(y)
    ensures Orderly(Apply(y, Unsubscribe(q), mac))
  {
    RemoveFirstFacts(y.subscribers, q);
    FewerKeepOrderly(y, Apply(y, Unsubscribe(q), mac));
  }

  lemma ConsumeKeepsOrderly(y: System, q: QueueId, mac: Mac)
    requires Orderly(y) && Enabled(y, Consume(q))
    ensures Orderly(Apply(y, Consume(q), mac))
  {
    FewerKeepOrderly(y, Apply(y, Consume(q), mac));
  }

  lemma SnapshotKeepsOrderly(y: System, e: Emitter, mac: Mac)
    requires Orderly(y) && Enabled(y, Snapshot(e))
    ensures Orderly(Apply(y, Snapshot(e), mac))
  {
    FewerKeepOrderly(y, Apply(y, Snapshot(e), mac));
  }

  lemma StepKeepsOrderly(y: System, step: Step, mac: Mac)
    requires Delivering(y, mac) && Orderly(y) && Careful(y, step, mac)
    ensures Orderly(Apply(y, step, mac))
  {
    if Enabled(y, step) {
      match step
      case Emit(f) => EmitStepKeepsOrderly(y, f, mac);
      case Put(e) => PutKeepsOrderly(y, e, mac);
      case Subscribe(q) => SubscribeKeepsOrderly(y, q, mac);
      case Unsubscribe(q) => UnsubscribeKeepsOrderly(y, q, mac);
      case Consume(q) => ConsumeKeepsOrderly(y, q, mac);
      case Snapshot(e) => SnapshotKeepsOrderly(y, e, mac);
      case Return(e) => ReturnKeepsOrderly(y, e, mac);
      case _ => StartKeepsOrderly(y, step, mac);
    }
  }

  lemma {:induction false} RunKeepsOrderly(y: System, steps: seq<Step>, mac: Mac)
    requires CollisionFree(mac) && Delivering(y, mac) && Orderly(y) && OneAtATime(y, steps, mac)
    ensures Orderly(Execute(y, steps, mac))
    decreases |steps|
  {
    if steps != [] {
      StepKeepsDelivering(y, steps[0], mac);
      StepKeepsOrderly(y, steps[0], mac);
      RunKeepsOrderly(Apply(y, steps[0], mac), steps[1..], mac);
    }
  }

  /** However many emitters there are: if no event is let in while another one is exposed, every queue receives a
      subsequence of the log in log order. */
  lemma OneAtATimeDeliversInOrder(steps: seq<Step>, mac: Mac, q: QueueId)
    requires CollisionFree(mac) && OneAtATime(START, steps, mac) && q in Execute(START, steps, mac).queues
    ensures var y := Execute(START, steps, mac);
      && InLogOrder(y.chain.log, y.queues[q].received)
      && forall x | x in y.queues[q].received :: x in y.chain.log
  {
    RunKeepsOrderly(START, steps, mac);
    EachQueueReceivesLoggedEventsOnce(steps, mac, q);
  }

  // One emitter alone is never in its own way.

  predicate ByOne(steps: seq<Step>) {
    forall i | 0 <= i < |steps| :: BySubscriber(steps[i]) || steps[i].who == 0
  }

  lemma {:induction false} OneEmitterIsOneAtATime(y: System, steps: seq<Step>, mac: Mac)
    requires ByOne(steps) && y.emitters.Keys <= {0}
    ensures OneAtATime(y, steps, mac)
    decreases |steps|
  {
    if steps != [] {
      assert BySubscriber(steps[0]) || steps[0].who == 0;
      OneEmitterIsOneAtATime(Apply(y, steps[0], mac), steps[1..], mac);
    }
  }

  /** With a single emitter every queue receives a subsequence of the log, in log order. */
  lemma SingleEmitterDeliversInOrder(steps: seq<Step>, mac: Mac, q: QueueId)
    requires CollisionFree(mac) && ByOne(steps) && q in Execute(START, steps, mac).queues
    ensures var y := Execute(START, steps, mac);
      && InLogOrder(y.chain.log, y.queues[q].received)
      && forall x | x in y.queues[q].received :: x in y.chain.log
  {
    OneEmitterIsOneAtATime(START, steps, mac);
    OneAtATimeDeliversInOrder(steps, mac, q);
  }

  // Why an event must wait: let in while another is exposed, it can overtake it.

  function Puts(e: Emitter, n: nat): seq<Step> {
    if n == 0 then [] else [Put(e)] + Puts(e, n - 1)
  }

  function Consumes(q: QueueId, n: nat): seq<Step> {
    if n == 0 then [] else [Consume(q)] + Consumes(q, n - 1)
  }

  lemma {:induction false} ExecuteConcat(y: System, s: seq<Step>, t: seq<Step>, mac: Mac)
    ensures Execute(y, s + t, mac) == Execute(Execute(y, s, mac), t, mac)
    decreases |s|
  {
    if s == [] {
      assert s + t == t;
    } else {
      assert (s + t)[1..] == s[1..] + t;
      ExecuteConcat(Apply(y, s[0], mac), s[1..], t, mac);
    }
  }

  lemma ExecuteOne(y: System, step: Step, rest: seq<Step>, mac: Mac)
    ensures Execute(y, [step] + rest, mac) == Execute(Apply(y, step, mac), rest, mac)
  {
    assert ([step] + rest)[1..] == rest;
  }

  /** `z` is `y` except for one emitter and for the queues. */
  ghost predicate SameBut(y: System, z: System, e: Emitter) {
    && z.chain == y.chain && z.subscribers == y.subscribers && z.queues.Keys == y.queues.Keys
    && forall f | f != e :: At(z, f) == At(y, f)
  }

  /** A whole fan-out: every pending queue with room receives the event. */
  lemma {:induction false} FanOut(y: System, e: Emitter, event: Event, pending: seq<QueueId>, q: QueueId, mac: Mac)
    requires At(y, e) == FanningOut(event, pending) && NoRepeats(pending)
    requires q in y.queues && forall p | p in pending :: p in y.queues
    ensures var z := Execute(y, Puts(e, |pending|), mac);
      && SameBut(y, z, e) && At(z, e) == FanningOut(event, [])
      && z.queues[q] == if q in pending then PutOne(y.queues[q], event) else y.queues[q]
    decreases |pending|
  {
    if pending != [] {
      var y' := Apply(y, Put(e), mac);
      FanOutStep(y, e, event, pending, q, mac);
      FanOut(y', e, event, pending[1..], q, mac);
      ExecuteOne(y, Put(e), Puts(e, |pending| - 1), mac);
      assert q in pending <==> q == pending[0] || q in pending[1..];
    }
  }

  lemma FanOutStep(y: System, e: Emitter, event: Event, pending: seq<QueueId>, q: QueueId, mac: Mac)
    requires At(y, e) == FanningOut(event, pending) && pending != [] && NoRepeats(pending)
    requires q in y.queues && pending[0] in y.queues
    ensures var y' := Apply(y, Put(e), mac);
      && SameBut(y, y', e) && At(y', e) == FanningOut(event, pending[1..])
      && y'.queues[q] == (if q == pending[0] then PutOne(y.queues[q], event) else y.queues[q])
      && NoRepeats(pending[1..]) && pending[0] !in pending[1..]
  {
  }

  lemma {:induction false} Emptied(y: System, q: QueueId, mac: Mac)
    requires q in y.queues
    ensures var z := Execute(y, Consumes(q, |y.queues[q].waiting|), mac);
      && z.chain == y.chain && z.subscribers == y.subscribers && z.emitters == y.emitters
      && z.queues.Keys == y.queues.Keys && z.queues[q] == Queue([], y.queues[q].received)
    decreases |y.queues[q].waiting|
  {
    if y.queues[q].waiting != [] {
      Emptied(Apply(y, Consume(q), mac), q, mac);
      ExecuteOne(y, Consume(q), Consumes(q, |y.queues[q].waiting| - 1), mac);
    }
  }

  /** The fan-out of `f` and then what is left of the fan-out of `e`. */
  function Overtake(f: Emitter, n: nat, e: Emitter, m: nat): seq<Step> {
    [Snapshot(f)] + (Puts(f, n) + Puts(e, m))
  }

  /** From an empty queue that both are still to reach, the later event arrives first. */
  lemma LaterFirst(y: System, f: Emitter, e: Emitter, a: Event, b: Event, pending: seq<QueueId>, q: QueueId, mac: Mac)
    requires e != f && At(y, f) == Accepted(b) && At(y, e) == FanningOut(a, pending)
    requires q in y.queues && y.queues[q].waiting == [] && q in pending && q in y.subscribers
    requires NoRepeats(pending) && NoRepeats(y.subscribers)
    requires forall p | p in pending || p in y.subscribers :: p in y.queues
    ensures var z := Execute(y, Overtake(f, |y.subscribers|, e, |pending|), mac);
      z.chain == y.chain && q in z.queues && z.queues[q].received == y.queues[q].received + [b] + [a]
  {
    var y1 := Apply(y, Snapshot(f), mac);
    var y2 := Execute(y1, Puts(f, |y.subscribers|), mac);
    FanOut(y1, f, b, y.subscribers, q, mac);
    FanOut(y2, e, a, pending, q, mac);
    ExecuteOne(y, Snapshot(f), Puts(f, |y.subscribers|) + Puts(e, |pending|), mac);
    ExecuteConcat(y1, Puts(f, |y.subscribers|), Puts(e, |pending|), mac);
  }

  lemma OutOfOrder(log: seq<Event>, a: Event, b: Event, received: seq<Event>)
    requires NoRepeats(log) && log != [] && log[|log| - 1] == b && a in log
    requires |received| >= 2 && received[|received| - 2] == b && received[|received| - 1] == a
    ensures !InLogOrder(log, received)
  {
    NothingAfterLast(log, a, b);
    OrderedPair(log, received, |received| - 2, |received| - 1);
  }

  lemma OrderedPair(log: seq<Event>, s: seq<Event>, i: nat, j: nat)
    requires i < j < |s|
    ensures InLogOrder(log, s) ==> Before(log, s[i], s[j])
  {
  }

  lemma NothingAfterLast(log: seq<Event>, a: Event, b: Event)
    requires NoRepeats(log) && log != [] && log[|log| - 1] == b
    ensures !Before(log, b, a)
  {
  }

  lemma LogHasNoRepeats(log: seq<Event>, mac: Mac)
    requires CollisionFree(mac) && Valid(log, mac)
    ensures NoRepeats(log)
  {
    forall i, j | 0 <= i < j < |log| ensures log[i] != log[j] {
      HeadsNeverRepeat(log, i, j, mac);
    }
  }

  /** The state just before an overtaking: both events are accepted, in this order. */
  ghost predicate Racing(y: System, e: Emitter, a: Event, f: Emitter, b: Event) {
    && e != f && e in y.emitters && At(y, f) == Accepted(b) && Active(At(y, e)) && At(y, e).event == a
    && y.chain.log != [] && y.chain.log[|y.chain.log| - 1] == b
  }

  lemma RaceIsLost(y: System, e: Emitter, a: Event, f: Emitter, b: Event, q: QueueId, mac: Mac)
    returns (steps: seq<Step>)
    requires CollisionFree(mac) && Delivering(y, mac) && Racing(y, e, a, f, b)
    requires At(y, e).FanningOut? && q in At(y, e).pending && q in y.subscribers
    ensures var z := Execute(y, steps, mac);
      q in z.queues && !InLogOrder(z.chain.log, z.queues[q].received)
  {
    assert GoodPhase(y, y.emitters[e]) && q in y.queues;
    var first := Consumes(q, |y.queues[q].waiting|);
    var y1 := Execute(y, first, mac);
    Emptied(y, q, mac);
    var pending := At(y, e).pending;
    var rest := Overtake(f, |y.subscribers|, e, |pending|);
    LaterFirst(y1, f, e, a, b, pending, q, mac);
    steps := first + rest;
    ExecuteConcat(y, first, rest, mac);
    LogHasNoRepeats(y.chain.log, mac);
    OutOfOrder(y.chain.log, a, b, Execute(y, steps, mac).queues[q].received);
  }

  /** An event whose fan-out has not begun can be overtaken in a queue that subscribes now. */
  lemma FreshRace(y: System, e: Emitter, a: Event, f: Emitter, b: Event, mac: Mac) returns (q: QueueId, y2: System)
    requires CollisionFree(mac) && Delivering(y, mac) && Racing(y, e, a, f, b) && At(y, e).Accepted?
    ensures y2 == Execute(y, [Subscribe(q), Snapshot(e)], mac)
    ensures Delivering(y2, mac) && Racing(y2, e, a, f, b)
    ensures At(y2, e).FanningOut? && q in At(y2, e).pending && q in y2.subscribers
  {
    q := NewQueue(y.queues.Keys);
    var y1 := Apply(y, Subscribe(q), mac);
    SubscribeRaces(y, e, a, f, b, q, mac);
    y2 := Apply(y1, Snapshot(e), mac);
    StepKeepsDelivering(y1, Snapshot(e), mac);
    ExecuteTwo(y, Subscribe(q), Snapshot(e), mac);
  }

  lemma SubscribeRaces(y: System, e: Emitter, a: Event, f: Emitter, b: Event, q: QueueId, mac: Mac)
    requires CollisionFree(mac) && Delivering(y, mac) && Racing(y, e, a, f, b) && q !in y.queues
    ensures var y1 := Apply(y, Subscribe(q), mac);
      Delivering(y1, mac) && Racing(y1, e, a, f, b) && At(y1, e) == At(y, e) && q in y1.subscribers
  {
    StepKeepsDelivering(y, Subscribe(q), mac);
  }

  lemma ExecuteTwo(y: System, a: Step, b: Step, mac: Mac)
    ensures Execute(y, [a, b], mac) == Apply(Apply(y, a, mac), b, mac)
  {
    assert [a] + [b] == [a, b] && [b] + [] == [b];
    ExecuteOne(y, a, [b], mac);
    ExecuteOne(Apply(y, a, mac), b, [], mac);
  }

  lemma NewQueue(used: set<QueueId>) returns (q: QueueId)
    ensures q !in used
  {
    q := 0;
    if used != {} {
      var top := Largest(used);
      q := top + 1;
    }
  }

  lemma {:induction false} Largest(s: set<QueueId>) returns (top: QueueId)
    requires s != {}
    ensures top in s && forall x | x in s :: x <= top
    decreases s
  {
    top :| top in s;
    if s != {top} {
      var rest := Largest(s - {top});
      assert forall x | x in s && x != top :: x in s - {top};
      if rest > top {
        top := rest;
      }
    }
  }

  /** The condition is exact: from any state that the program can reach, if an event is let in while another
      emitter is exposed, the run can go on so that some queue receives the two against the order of the log. */
  lemma HurriedEmitCanOvertake(y: System, e: Emitter, f: Emitter, mac: Mac)
    requires CollisionFree(mac) && Delivering(y, mac)
    requires e in y.emitters && Exposed(y, e)
    requires At(y, f).Built? && EmitOn(y.chain, At(y, f).draft, mac).1.Emitted?
    ensures exists steps, q :: var z := Execute(y, [Emit(f)] + steps, mac);
              q in z.queues && !InLogOrder(z.chain.log, z.queues[q].received)
  {
    var y1 := Apply(y, Emit(f), mac);
    StepKeepsDelivering(y, Emit(f), mac);
    var a, b := At(y, e).event, At(y1, f).event;
    assert Racing(y1, e, a, f, b);
    var steps, q;
    if At(y, e).Accepted? {
      var y2;
      q, y2 := FreshRace(y1, e, a, f, b, mac);
      var rest := RaceIsLost(y2, e, a, f, b, q, mac);
      steps := [Subscribe(q), Snapshot(e)] + rest;
      ExecuteConcat(y1, [Subscribe(q), Snapshot(e)], rest, mac);
    } else {
      q :| q in At(y, e).pending && q in y.subscribers;
      steps := RaceIsLost(y1, e, a, f, b, q, mac);
    }
    ExecuteOne(y, Emit(f), steps, mac);
    var z := Execute(y, [Emit(f)] + steps, mac);
    assert q in z.queues && !InLogOrder(z.chain.log, z.queues[q].received);
  }
}
