/** The method that emits an event and the interleaved emitter that nobody interrupts do the same. */
module CelDelivery {
  import opened CelFeed
  import opened CelQueues

  /** What each queue holds. */
  function Waiting(queues: map<QueueId, Queue>): Queues {
    map q | q in queues :: queues[q].waiting
  }

  /** The steps of one emitter from a built event to its return. */
  function WholeEmit(e: Emitter, n: nat): seq<Step> {
    [Emit(e)] + ([Snapshot(e)] + (Puts(e, n) + [Return(e)]))
  }

  lemma PutIsPutNowait(y: System, e: Emitter, mac: Mac)
    requires At(y, e).FanningOut? && At(y, e).pending != []
    ensures var z, a := Apply(y, Put(e), mac), At(y, e);
      && Waiting(z.queues) == PutNowait(Waiting(y.queues), a.pending[0], a.event)
      && At(z, e) == FanningOut(a.event, a.pending[1..]) && z.chain == y.chain && z.subscribers == y.subscribers
      && forall f | f != e :: At(z, f) == At(y, f)
  {
    var z, a := Apply(y, Put(e), mac), At(y, e);
    forall q | q in y.queues
      ensures Waiting(z.queues)[q] == PutNowait(Waiting(y.queues), a.pending[0], a.event)[q]
    {
    }
  }

  lemma {:induction false} PutAllFirst(queues: Queues, subs: seq<QueueId>, event: Event)
    requires subs != []
    ensures PutAll(queues, subs, event) == PutAll(PutNowait(queues, subs[0], event), subs[1..], event)
  {
    var n := |subs| - 1;
    if n > 0 {
      PutAllFirst(queues, subs[..n], event);
      assert subs[..n][1..] == subs[1..][..n - 1] && subs[1..][n - 1] == subs[n];
    } else {
      assert subs[..0] == [] && subs[1..] == [];
    }
  }

  lemma {:induction false} PutsArePutAll(y: System, e: Emitter, mac: Mac)
    requires At(y, e).FanningOut?
    ensures var z, a := Execute(y, Puts(e, |At(y, e).pending|), mac), At(y, e);
      && Waiting(z.queues) == PutAll(Waiting(y.queues), a.pending, a.event)
      && At(z, e) == FanningOut(a.event, []) && z.chain == y.chain && z.subscribers == y.subscribers
      && forall f | f != e :: At(z, f) == At(y, f)
    decreases |At(y, e).pending|
  {
    var a := At(y, e);
    if a.pending != [] {
      var n := |a.pending| - 1;
      PutIsPutNowait(y, e, mac);
      PutAllFirst(Waiting(y.queues), a.pending, a.event);
      ExecuteOne(y, Put(e), Puts(e, n), mac);
      PutsArePutAll(Apply(y, Put(e), mac), e, mac);
    }
  }

  lemma Begins(y: System, e: Emitter, mac: Mac)
    requires At(y, e).Built? && EmitOn(y.chain, At(y, e).draft, mac).1.Emitted?
    ensures var z := Apply(Apply(y, Emit(e), mac), Snapshot(e), mac);
      var (chain, outcome) := EmitOn(y.chain, At(y, e).draft, mac);
      && At(z, e) == FanningOut(outcome.event, y.subscribers) && z.chain == chain
      && z.subscribers == y.subscribers && z.queues == y.queues && forall f | f != e :: At(z, f) == At(y, f)
  {
  }

  lemma Returns(y: System, e: Emitter, mac: Mac)
    requires At(y, e).FanningOut? && At(y, e).pending == []
    ensures var z := Apply(y, Return(e), mac);
      && At(z, e) == Idle && z.chain == y.chain && z.subscribers == y.subscribers && z.queues == y.queues
      && forall f | f != e :: At(z, f) == At(y, f)
  {
  }

  lemma WholeEmitRuns(y: System, e: Emitter, n: nat, mac: Mac)
    ensures var y2 := Apply(Apply(y, Emit(e), mac), Snapshot(e), mac);
      Execute(y, WholeEmit(e, n), mac) == Apply(Execute(y2, Puts(e, n), mac), Return(e), mac)
  {
    var y1 := Apply(y, Emit(e), mac);
    var y2 := Apply(y1, Snapshot(e), mac);
    var y3 := Execute(y2, Puts(e, n), mac);
    ExecuteOne(y, Emit(e), [Snapshot(e)] + (Puts(e, n) + [Return(e)]), mac);
    ExecuteOne(y1, Snapshot(e), Puts(e, n) + [Return(e)], mac);
    ExecuteConcat(y2, Puts(e, n), [Return(e)], mac);
    ExecuteOne(y3, Return(e), [], mac);
    assert [Return(e)] + [] == [Return(e)];
  }

  /** Run without interruption, the steps of an emitter leave the chain, and in every queue the events, that the method
      leaves; each subscribed queue with room has the new event at its end, and no other queue changes. */
  lemma UninterruptedEmitIsMethod(y: System, e: Emitter, mac: Mac)
    requires At(y, e).Built? && EmitOn(y.chain, At(y, e).draft, mac).1.Emitted?
    ensures var z := Execute(y, WholeEmit(e, |y.subscribers|), mac);
      var (chain, outcome) := EmitOn(y.chain, At(y, e).draft, mac);
      && z.chain == chain && z.subscribers == y.subscribers && At(z, e) == Idle
      && Waiting(z.queues) == PutAll(Waiting(y.queues), y.subscribers, outcome.event)
      && (NoRepeats(y.subscribers) ==>
            Delivered(Waiting(y.queues), Waiting(z.queues), y.subscribers, outcome.event))
  {
    var y2 := Apply(Apply(y, Emit(e), mac), Snapshot(e), mac);
    var y3 := Execute(y2, Puts(e, |y.subscribers|), mac);
    Begins(y, e, mac);
    PutsArePutAll(y2, e, mac);
    Returns(y3, e, mac);
    WholeEmitRuns(y, e, |y.subscribers|, mac);
    if NoRepeats(y.subscribers) {
      PutAllDelivers(Waiting(y.queues), y.subscribers, EmitOn(y.chain, At(y, e).draft, mac).1.event);
    }
  }

  /** A refused emit leaves chain, subscribers and queues as they are. */
  lemma RefusedEmitChangesNothing(y: System, e: Emitter, mac: Mac)
    requires At(y, e).Built? && !EmitOn(y.chain, At(y, e).draft, mac).1.Emitted?
    ensures Apply(y, Emit(e), mac) == y.(emitters := y.emitters[e := Idle])
  {
  }
}
