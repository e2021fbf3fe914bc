/** Whole runs of the self-amendment engine: any calls on any proposal objects, with the engine reopened
    anywhere. */
module AmendmentRuns {
  import opened HashChain
  import opened Amendment
  import opened Text
  import opened Wrappers

  /** A proposal object held by a caller, the ledger bodies its own calls have written, and the registry of hard
      invariants in force at each of those calls. */
  datatype Object = Object(p: Proposal, history: seq<Body>, registries: seq<seq<string>>)

  datatype World = World(engine: Engine, objects: map<nat, Object>)

  datatype Op =
    | Propose(o: nat, content: Content, currentText: string, evidence: seq<string>, uuid: string)
    | Validate(o: nat, score: real, given: seq<string>)
    | Simulate(o: nat, dryRunPasses: bool, hard: seq<string>, soft: seq<string>, simulation: string)
    | Queue(o: nat)
    | Ratify(o: nat, signature: string)
    | Reject(o: nat, reason: string)
    | Reopen(registry: seq<string>)

  /** The object after a call, under `registry`, that left the engine at `e'`. */
  function Updated(w: World, o: nat, e': Engine, p': Proposal, registry: seq<string>): World
    requires o in w.objects
  {
    var x := w.objects[o];
    if |w.engine.ledger| < |e'.ledger| then
      World(e', w.objects[o := Object(p', x.history + [e'.ledger[|w.engine.ledger|].body], x.registries + [registry])])
    else World(e', w.objects[o := x.(p := p')])
  }

  /** Applies one call; a call on an object that does not exist does nothing. */
  function Step(w: World, op: Op, h: Digests): World {
    match op
    case Reopen(registry) => w.(engine := ReopenStep(w.engine, registry))
    case Propose(o, content, currentText, evidence, uuid) =>
      var (e', r) := ProposeStep(w.engine, content, currentText, evidence, uuid, h);
      if o in w.objects || r.Err? then w
      else Updated(w.(objects := w.objects[o := Object(r.value, [], [])]), o, e', r.value, w.engine.registry)
    case Validate(o, score, given) =>
      if o !in w.objects then w
      else var (e', p', _) := ValidateStep(w.engine, w.objects[o].p, score, given, h);
        Updated(w, o, e', p', if given != [] then given else w.engine.registry)
    case Simulate(o, dry, hard, soft, simulation) =>
      if o !in w.objects then w
      else var (e', p', _) := SimulateStep(w.engine, w.objects[o].p, dry, hard, soft, simulation, h);
        Updated(w, o, e', p', w.engine.registry)
    case Queue(o) =>
      if o !in w.objects then w
      else var (e', p', _) := QueueStep(w.engine, w.objects[o].p, h);
        Updated(w, o, e', p', w.engine.registry)
    case Ratify(o, signature) =>
      if o !in w.objects then w
      else var (e', p', _) := RatifyStep(w.engine, w.objects[o].p, signature, h);
        Updated(w, o, e', p', w.engine.registry)
    case Reject(o, reason) =>
      if o !in w.objects then w
      else var (e', p') := RejectStep(w.engine, w.objects[o].p, reason, h);
        Updated(w, o, e', p', w.engine.registry)
  }

  function Run(w: World, ops: seq<Op>, h: Digests): World
    decreases |ops|
  {
    if ops == [] then w else Run(Step(w, ops[0], h), ops[1..], h)
  }

  function Start(registry: seq<string>): World {
    World(Engine(FRESH_STATE, FRESH_STATE, [], registry), map[])
  }

  // The ledger and the counters.

  predicate Proposes(b: Body) { b.Proposed? }

  predicate Ratifies(b: Body) { b.Ratified? }

  predicate Rejects(b: Body) { b.Rejected? }

  function Count(ledger: Ledger, kind: Body -> bool): nat {
    if ledger == [] then 0 else Count(ledger[..|ledger| - 1], kind) + if kind(ledger[|ledger| - 1].body) then 1 else 0
  }

  ghost predicate DistinctContent(ledger: Ledger) {
    forall i, j | 0 <= i < j < |ledger| && ledger[i].body.Proposed? && ledger[j].body.Proposed? ::
      ledger[i].body.contentHash != ledger[j].body.contentHash
  }

  ghost predicate Sealed(e: Engine, h: Digests) {
    && Valid(e.ledger, h.mac) && e.state.head == Head(e.ledger) && e.saved == e.state
    && e.state.proposed == Count(e.ledger, Proposes)
    && e.state.ratified == Count(e.ledger, Ratifies)
    && e.state.rejected == Count(e.ledger, Rejects)
    && DistinctContent(e.ledger)
  }

  lemma CommitKeepsSealed(e: Engine, state: State, body: Body, h: Digests)
    requires Sealed(e, h) && state.head == e.state.head
    requires state.proposed == e.state.proposed + if body.Proposed? then 1 else 0
    requires state.ratified == e.state.ratified + if body.Ratified? then 1 else 0
    requires state.rejected == e.state.rejected + if body.Rejected? then 1 else 0
    requires body.Proposed? ==> FindByContent(e.ledger, body.contentHash) == None
    ensures Sealed(Commit(e, state, body, h), h)
  {
    var entry := Seal(e.ledger, body, h.mac);
    CountOneMore(e.ledger, entry, Proposes);
    CountOneMore(e.ledger, entry, Ratifies);
    CountOneMore(e.ledger, entry, Rejects);
    StaysDistinct(e.ledger, entry);
  }

  lemma CountOneMore(ledger: Ledger, entry: Entry<Body>, kind: Body -> bool)
    ensures Count(ledger + [entry], kind) == Count(ledger, kind) + if kind(entry.body) then 1 else 0
  {
    assert (ledger + [entry])[..|ledger|] == ledger;
  }

  lemma StaysDistinct(ledger: Ledger, entry: Entry<Body>)
    requires DistinctContent(ledger)
    requires entry.body.Proposed? ==> FindByContent(ledger, entry.body.contentHash) == None
    ensures DistinctContent(ledger + [entry])
  {
    if entry.body.Proposed? {
      FoundIffPresent(ledger, entry.body.contentHash);
    }
  }

  lemma {:induction false} FoundIffPresent(ledger: Ledger, contentHash: string)
    ensures FindByContent(ledger, contentHash).Some? <==>
            exists i :: 0 <= i < |ledger| && ledger[i].body.Proposed? && ledger[i].body.contentHash == contentHash
    ensures FindByContent(ledger, contentHash).Some? ==> FindByContent(ledger, contentHash).value.Proposed?
  {
    if ledger != [] {
      FoundIffPresent(ledger[1..], contentHash);
      if i :| 0 <= i < |ledger| && ledger[i].body.Proposed? && ledger[i].body.contentHash == contentHash {
        assert i > 0 ==> ledger[1..][i - 1] == ledger[i];
      }
    }
  }

  /** Over every run, reopenings included: the ledger verifies, the state file is current, the totals count the
      ledger's events, and no two proposals in it share a content hash. */
  lemma {:induction false} RunsKeepSealed(w: World, ops: seq<Op>, h: Digests)
    requires Sealed(w.engine, h)
    ensures Sealed(Run(w, ops, h).engine, h)
    decreases |ops|
  {
    if ops != [] {
      StepKeepsSealed(w, ops[0], h);
      RunsKeepSealed(Step(w, ops[0], h), ops[1..], h);
    }
  }

  lemma StepKeepsSealed(w: World, op: Op, h: Digests)
    requires Sealed(w.engine, h)
    ensures Sealed(Step(w, op, h).engine, h)
  {
    var e := w.engine;
    if op.Propose? {
      ProposeKeepsSealed(e, op.content, op.currentText, op.evidence, op.uuid, h);
    } else if !op.Reopen? && op.o in w.objects {
      var p := w.objects[op.o].p;
      match op
      case Validate(o, score, given) => ValidateKeepsSealed(e, p, score, given, h);
      case Simulate(o, dry, hard, soft, simulation) => SimulateKeepsSealed(e, p, dry, hard, soft, simulation, h);
      case Queue(o) => CommitKeepsSealed(e, e.state, PendingH0(p.id, p.score, p.revertHash), h);
      case Ratify(o, signature) => RatifyKeepsSealed(e, p, signature, h);
      case Reject(o, reason) =>
        CommitKeepsSealed(e, e.state.(rejected := e.state.rejected + 1), Rejected(p.id, [reason]), h);
    }
  }

  lemma ProposeKeepsSealed(
    e: Engine, content: Content, currentText: string, evidence: seq<string>, uuid: string, h: Digests)
    requires Sealed(e, h)
    ensures Sealed(ProposeStep(e, content, currentText, evidence, uuid, h).0, h)
  {
    CommitKeepsSealedIfNew(e, e.state.(proposed := e.state.proposed + 1, last := Some(uuid)),
      Proposed(uuid, content, evidence, h.text(currentText), h.content(content)), h);
  }

  lemma RatifyKeepsSealed(e: Engine, p: Proposal, signature: string, h: Digests)
    requires Sealed(e, h)
    ensures Sealed(RatifyStep(e, p, signature, h).0, h)
  {
    CommitKeepsSealed(e, e.state.(ratified := e.state.ratified + 1),
      Ratified(p.id, p.content.class_, p.score, p.revertHash, signature), h);
  }

  lemma CommitKeepsSealedIfNew(e: Engine, state: State, body: Body, h: Digests)
    requires Sealed(e, h) && body.Proposed? && state == e.state.(proposed := e.state.proposed + 1, last := state.last)
    ensures FindByContent(e.ledger, body.contentHash) == None ==> Sealed(Commit(e, state, body, h), h)
  {
    if FindByContent(e.ledger, body.contentHash) == None {
      CommitKeepsSealed(e, state, body, h);
    }
  }

  lemma ValidateKeepsSealed(e: Engine, p: Proposal, score: real, given: seq<string>, h: Digests)
    requires Sealed(e, h)
    ensures Sealed(ValidateStep(e, p, score, given, h).0, h)
  {
    CommitKeepsSealed(e, e.state, Validated(p.id, score), h);
    var reasons := FailureReasons(p, score, if given != [] then given else e.registry);
    CommitKeepsSealed(e, e.state.(rejected := e.state.rejected + 1), Rejected(p.id, reasons), h);
  }

  lemma SimulateKeepsSealed(
    e: Engine, p: Proposal, dry: bool, hard: seq<string>, soft: seq<string>, simulation: string, h: Digests)
    requires Sealed(e, h)
    ensures Sealed(SimulateStep(e, p, dry, hard, soft, simulation, h).0, h)
  {
    CommitKeepsSealed(e, e.state, Simulated(p.id, simulation, hard, soft), h);
    CommitKeepsSealed(
      e, e.state.(rejected := e.state.rejected + 1), Rejected(p.id, ["simulation failed", simulation]), h);
  }

  lemma LedgerIsSealed(registry: seq<string>, ops: seq<Op>, h: Digests)
    ensures Sealed(Run(Start(registry), ops, h).engine, h)
  {
    RunsKeepSealed(Start(registry), ops, h);
  }

  // Idempotent proposals.

  lemma {:induction false} FoundStays(ledger: Ledger, ledger': Ledger, contentHash: string)
    requires ledger <= ledger' && FindByContent(ledger, contentHash).Some?
    ensures FindByContent(ledger', contentHash) == FindByContent(ledger, contentHash)
  {
    assert ledger'[0] == ledger[0];
    if !(ledger[0].body.Proposed? && ledger[0].body.contentHash == contentHash) {
      assert ledger[1..] <= ledger'[1..];
      FoundStays(ledger[1..], ledger'[1..], contentHash);
    }
  }

  lemma {:induction false} FoundAtEnd(ledger: Ledger, entry: Entry<Body>)
    requires entry.body.Proposed? && FindByContent(ledger, entry.body.contentHash) == None
    ensures FindByContent(ledger + [entry], entry.body.contentHash) == Some(entry.body)
  {
    if ledger == [] {
      assert ledger + [entry] == [entry];
    } else {
      assert (ledger + [entry])[1..] == ledger[1..] + [entry] && (ledger + [entry])[0] == ledger[0];
      FoundAtEnd(ledger[1..], entry);
    }
  }

  lemma {:induction false} LedgerOnlyGrows(w: World, ops: seq<Op>, h: Digests)
    ensures w.engine.ledger <= Run(w, ops, h).engine.ledger
    decreases |ops|
  {
    if ops != [] {
      LedgerOnlyGrows(Step(w, ops[0], h), ops[1..], h);
    }
  }

  /** Proposing the same content again, any number of calls and reopenings later, returns the first id, writes
      nothing, and starts a PROPOSED object without a revert hash. */
  lemma ProposingAgainReturnsSameId(
    w: World, first: Op, ops: seq<Op>, currentText: string, evidence: seq<string>, uuid: string, h: Digests)
    requires first.Propose? && first.o !in w.objects && |first.evidence| >= MIN_EVIDENCE && |evidence| >= MIN_EVIDENCE
    ensures var r1 := ProposeStep(w.engine, first.content, first.currentText, first.evidence, first.uuid, h).1;
      var e := Run(Step(w, first, h), ops, h).engine;
      var (e', r2) := ProposeStep(e, first.content, currentText, evidence, uuid, h);
      && r1.Ok? && r2.Ok? && r2.value.id == r1.value.id && e' == e
      && r2.value.stage == PROPOSED && r2.value.revertHash == None
  {
    var contentHash := h.content(first.content);
    var w1 := Step(w, first, h);
    FoundIffPresent(w.engine.ledger, contentHash);
    if FindByContent(w.engine.ledger, contentHash) == None {
      FoundAtEnd(w.engine.ledger, w1.engine.ledger[|w.engine.ledger|]);
    }
    LedgerOnlyGrows(w1, ops, h);
    FoundStays(w1.engine.ledger, Run(w1, ops, h).engine.ledger, contentHash);
  }

  // The stages of one proposal object.

  /** What a ratified object's own history must show just before it. */
  ghost predicate Follows(hist: seq<Body>, k: nat, class_: Class)
    requires k < |hist|
  {
    match hist[k]
    case Validated(_, score) => score >= MIN_SCORE
    case Simulated(_, _, hard, _) => k >= 1 && hist[k - 1].Validated? && (class_ == SOFT ==> hard == [])
    case PendingH0(_, score, _) => k >= 2 && hist[k - 1].Simulated? && hist[k - 2] == Validated(hist[k - 2].id, score)
    case Ratified(_, _, score, _, signature) =>
      k >= 3 && hist[k - 1].PendingH0? && hist[k - 1].score == score && !Blank(signature)
    case _ => true
  }

  /** What the text of the object mentioned of the registry at its `k`-th event, it cited. */
  ghost predicate ClearedAt(x: Object, k: nat)
    requires k < |x.history| == |x.registries|
  {
    x.history[k].Validated? ==> Cleared(x.p.content, x.p.evidence, x.registries[k])
  }

  ghost predicate AllCleared(x: Object) {
    |x.history| == |x.registries| && forall k: nat | k < |x.history| :: ClearedAt(x, k)
  }

  ghost predicate Staged(x: Object) {
    && |x.p.evidence| >= MIN_EVIDENCE && |x.registries| == |x.history|
    && x.p.stage == (if x.history == [] then PROPOSED else StageOf(x.history[|x.history| - 1]))
    && (forall k: nat | k < |x.history| :: Follows(x.history, k, x.p.content.class_))
    && (x.p.stage == VALIDATED ==> x.history[|x.history| - 1].score == x.p.score)
    && (x.p.stage == SIMULATED ==>
          |x.history| >= 2 && x.history[|x.history| - 2] == Validated(x.history[|x.history| - 2].id, x.p.score))
    && (x.p.stage == PENDING_H0 ==> x.history[|x.history| - 1].score == x.p.score)
  }

  lemma HistoryGrows(x: Object, p': Proposal, b: Body, registry: seq<string>)
    requires Staged(x) && p'.content == x.p.content && p'.evidence == x.p.evidence && p'.stage == StageOf(b)
    requires match b
      case Proposed(_, _, _, _, _) => false
      case Validated(_, score) => score >= MIN_SCORE && p'.score == score
      case Simulated(_, _, hard, _) =>
        x.p.stage == VALIDATED && (x.p.content.class_ == SOFT ==> hard == []) && p'.score == x.p.score
      case PendingH0(_, score, _) => x.p.stage == SIMULATED && score == x.p.score == p'.score
      case Ratified(_, _, score, _, signature) => x.p.stage == PENDING_H0 && score == x.p.score && !Blank(signature)
      case Rejected(_, _) => true
    ensures Staged(Object(p', x.history + [b], x.registries + [registry]))
  {
    var hist := x.history + [b];
    var n := |x.history|;
    forall k: nat | k < |hist| ensures Follows(hist, k, p'.content.class_) {
      if k < n {
        assert Follows(x.history, k, x.p.content.class_);
      } else if b.PendingH0? || b.Ratified? {
        assert Follows(x.history, n - 1, x.p.content.class_);
      }
    }
  }

  ghost predicate AllStaged(w: World) {
    forall o | o in w.objects :: Staged(w.objects[o])
  }

  lemma CallKeepsStaged(w: World, op: Op, h: Digests)
    requires AllStaged(w) && !op.Reopen? && !op.Propose? && op.o in w.objects
    ensures Staged(Step(w, op, h).objects[op.o])
  {
    var x := w.objects[op.o];
    var w' := Step(w, op, h);
    var x' := w'.objects[op.o];
    if |w.engine.ledger| < |w'.engine.ledger| {
      HistoryGrows(x, x'.p, w'.engine.ledger[|w.engine.ledger|].body, x'.registries[|x.registries|]);
    } else {
      assert x'.history == x.history;
    }
  }

  lemma {:induction false} RunsKeepStaged(w: World, ops: seq<Op>, h: Digests)
    requires AllStaged(w)
    ensures AllStaged(Run(w, ops, h))
    decreases |ops|
  {
    if ops != [] {
      StepKeepsStaged(w, ops[0], h);
      RunsKeepStaged(Step(w, ops[0], h), ops[1..], h);
    }
  }

  lemma StepKeepsStaged(w: World, op: Op, h: Digests)
    requires AllStaged(w)
    ensures AllStaged(Step(w, op, h))
  {
    if op.Propose? {
      ProposeKeepsStaged(w, op, h);
    } else if !op.Reopen? && op.o in w.objects {
      CallKeepsStaged(w, op, h);
    }
  }

  lemma ProposeKeepsStaged(w: World, op: Op, h: Digests)
    requires AllStaged(w) && op.Propose?
    ensures AllStaged(Step(w, op, h))
  {
    FoundIffPresent(w.engine.ledger, h.content(op.content));
    var w' := Step(w, op, h);
    if op.o !in w.objects && op.o in w'.objects {
      var x := w'.objects[op.o];
      assert |x.history| <= 1 && forall k: nat | k < |x.history| :: x.history[k].Proposed?;
    }
  }

  ghost predicate EveryoneCleared(w: World) {
    forall o | o in w.objects :: AllCleared(w.objects[o])
  }

  lemma CallKeepsCleared(w: World, op: Op, h: Digests)
    requires EveryoneCleared(w) && !op.Reopen? && !op.Propose? && op.o in w.objects
    ensures AllCleared(Step(w, op, h).objects[op.o])
  {
    var x := w.objects[op.o];
    var x' := Step(w, op, h).objects[op.o];
    if op.Validate? {
      ClearedIff(x.p, if op.given != [] then op.given else w.engine.registry);
    }
    forall k: nat | k < |x'.history| ensures ClearedAt(x', k) {
      assert k < |x.history| ==> ClearedAt(x, k);
    }
  }

  lemma ProposeKeepsCleared(w: World, op: Op, h: Digests)
    requires EveryoneCleared(w) && op.Propose?
    ensures EveryoneCleared(Step(w, op, h))
  {
    FoundIffPresent(w.engine.ledger, h.content(op.content));
    var w' := Step(w, op, h);
    if op.o !in w.objects && op.o in w'.objects {
      var x := w'.objects[op.o];
      assert |x.history| <= 1 && forall k: nat | k < |x.history| :: x.history[k].Proposed?;
    }
  }

  lemma {:induction false} RunsKeepCleared(w: World, ops: seq<Op>, h: Digests)
    requires EveryoneCleared(w)
    ensures EveryoneCleared(Run(w, ops, h))
    decreases |ops|
  {
    if ops != [] {
      var op := ops[0];
      if op.Propose? {
        ProposeKeepsCleared(w, op, h);
      } else if !op.Reopen? && op.o in w.objects {
        CallKeepsCleared(w, op, h);
        OthersUntouched(w, op, h);
      }
      assert EveryoneCleared(Step(w, op, h));
      RunsKeepCleared(Step(w, op, h), ops[1..], h);
    }
  }

  /** In every run, a RATIFIED event of an object directly follows its VALIDATED, SIMULATED and PENDING_H0
      events, with a signature that is not blank, a score of at least 0.72 carried through, at least three
      evidence ids, no hard invariant affected when the amendment is soft, and none left uncited, of those
      it mentions and was validated against, when it is hard. */
  lemma RatifiedOnlyInOrder(registry: seq<string>, ops: seq<Op>, h: Digests, o: nat, k: nat)
    requires o in Run(Start(registry), ops, h).objects
    requires k < |Run(Start(registry), ops, h).objects[o].history|
    requires Run(Start(registry), ops, h).objects[o].history[k].Ratified?
    ensures var x := Run(Start(registry), ops, h).objects[o];
      var hist := x.history;
      && k >= 3 && hist[k - 3].Validated? && hist[k - 2].Simulated? && hist[k - 1].PendingH0?
      && hist[k].score == hist[k - 1].score == hist[k - 3].score >= 0.72
      && !Blank(hist[k].signature)
      && |x.p.evidence| >= 3
      && (x.p.content.class_ == SOFT ==> hist[k - 2].hard == [])
      && |x.registries| == |hist| && Cleared(x.p.content, x.p.evidence, x.registries[k - 3])
  {
    RunsKeepStaged(Start(registry), ops, h);
    RunsKeepCleared(Start(registry), ops, h);
    var x := Run(Start(registry), ops, h).objects[o];
    assert Follows(x.history, k, x.p.content.class_);
    assert Follows(x.history, k - 1, x.p.content.class_);
    assert Follows(x.history, k - 2, x.p.content.class_);
    assert Follows(x.history, k - 3, x.p.content.class_);
    assert ClearedAt(x, k - 3);
  }

  // Where the guards stop.

  predicate Terminal(s: Stage) { s == RATIFIED || s == REJECTED }

  ghost predicate ChecksOut(w: World, op: Op)
    requires op.Validate? && op.o in w.objects
  {
    var p := w.objects[op.o].p;
    && |p.evidence| >= 3 && op.score >= 0.72
    && Cleared(p.content, p.evidence, if op.given != [] then op.given else w.engine.registry)
  }

  /** `validate` reads no stage, so the two final stages are not final: a call moves an object out of RATIFIED
      exactly when it validates or rejects it, and out of REJECTED exactly when it validates it and finds
      nothing wrong. */
  lemma LeavesTerminalIff(w: World, o: nat, op: Op, h: Digests)
    requires o in w.objects && Terminal(w.objects[o].p.stage)
    ensures o in Step(w, op, h).objects
    ensures Step(w, op, h).objects[o].p.stage != w.objects[o].p.stage <==>
            !op.Reopen? && op.o == o &&
            (if w.objects[o].p.stage == RATIFIED then op.Validate? || op.Reject? else op.Validate? && ChecksOut(w, op))
  {
    if !op.Reopen? && !op.Propose? && op.o in w.objects {
      OthersUntouched(w, op, h);
      if op.Validate? {
        ValidatePassesIff(w.engine, w.objects[op.o].p, op.score, op.given, h);
      }
    }
  }

  predicate Validates(op: Op, o: nat) { op.Validate? && op.o == o }

  /** While nobody validates a rejected object it stays rejected, whatever else is called. */
  lemma {:induction false} RejectedUntilValidated(w: World, o: nat, ops: seq<Op>, h: Digests)
    requires o in w.objects && w.objects[o].p.stage == REJECTED
    requires forall op | op in ops :: !Validates(op, o)
    ensures o in Run(w, ops, h).objects && Run(w, ops, h).objects[o].p.stage == REJECTED
    decreases |ops|
  {
    if ops != [] {
      LeavesTerminalIff(w, o, ops[0], h);
      assert !Validates(ops[0], o);
      RejectedUntilValidated(Step(w, ops[0], h), o, ops[1..], h);
    }
  }

  /** The calls that take a proposal object of good standing from any stage to RATIFIED. */
  function Promotion(o: nat, score: real, simulation: string, signature: string): seq<Op> {
    [Validate(o, score, []), Simulate(o, true, [], [], simulation), Queue(o), Ratify(o, signature)]
  }

  /** From any stage, RATIFIED and REJECTED included, these four calls ratify an object that meets the quorum,
      the score and the conflict check, and add one to the ratified total. */
  lemma PromotionFromAnyStage(w: World, o: nat, score: real, simulation: string, signature: string, h: Digests)
    requires o in w.objects && !Blank(signature) && ChecksOut(w, Validate(o, score, []))
    ensures var w' := Run(w, Promotion(o, score, simulation, signature), h);
      && w'.engine.state.ratified == w.engine.state.ratified + 1 && w'.engine.state.proposed == w.engine.state.proposed
      && o in w'.objects && w'.objects[o].p.stage == RATIFIED
  {
    var ops := Promotion(o, score, simulation, signature);
    var w1 := Step(w, ops[0], h);
    var w2 := Step(w1, ops[1], h);
    var w3 := Step(w2, ops[2], h);
    var w4 := Step(w3, ops[3], h);
    ReasonsIff(w.objects[o].p, score, w.engine.registry);
    assert w1.objects[o].p.stage == VALIDATED;
    assert w2.objects[o].p.stage == SIMULATED;
    assert w3.objects[o].p.stage == PENDING_H0;
    FourSteps(w, ops, h);
  }

  lemma FourSteps(w: World, ops: seq<Op>, h: Digests)
    requires |ops| == 4
    ensures Run(w, ops, h) == Step(Step(Step(Step(w, ops[0], h), ops[1], h), ops[2], h), ops[3], h)
  {
    var w1 := Step(w, ops[0], h);
    var w2 := Step(w1, ops[1], h);
    var w3 := Step(w2, ops[2], h);
    assert ops[1..][1..] == ops[2..] && ops[2..][1..] == ops[3..] && ops[3..][1..] == [];
    assert Run(w, ops, h) == Run(w1, ops[1..], h);
    assert Run(w1, ops[1..], h) == Run(w2, ops[2..], h);
    assert Run(w2, ops[2..], h) == Run(w3, ops[3..], h);
    assert Run(w3, ops[3..], h) == Step(w3, ops[3], h);
  }

  /** What an object's records say about the text it replaces. */
  ghost predicate RevertRecorded(x: Object, h: Digests) {
    && x.p.revertHash ==
       (if x.history != [] && x.history[0].Proposed? then Some(h.text(x.p.currentText)) else None)
    && forall b | b in x.history ::
         && (b.PendingH0? || b.Ratified? ==> b.revertHash == x.p.revertHash)
         && (b.Proposed? ==> b.revert == h.text(x.p.currentText))
  }

  ghost predicate AllRevertRecorded(w: World, h: Digests) {
    forall o | o in w.objects :: RevertRecorded(w.objects[o], h)
  }

  lemma ProposeRecordsRevert(w: World, op: Op, h: Digests)
    requires AllRevertRecorded(w, h) && op.Propose?
    ensures AllRevertRecorded(Step(w, op, h), h)
  {
    FoundIffPresent(w.engine.ledger, h.content(op.content));
    var w' := Step(w, op, h);
    if op.o !in w.objects && op.o in w'.objects {
      assert RevertRecorded(w'.objects[op.o], h);
    }
  }

  lemma CallRecordsRevert(w: World, op: Op, h: Digests)
    requires AllRevertRecorded(w, h) && AllStaged(w) && !op.Reopen? && !op.Propose? && op.o in w.objects
    ensures RevertRecorded(Step(w, op, h).objects[op.o], h)
  {
    var x := w.objects[op.o];
    var w' := Step(w, op, h);
    var x' := w'.objects[op.o];
    if |w.engine.ledger| < |w'.engine.ledger| {
      var b := w'.engine.ledger[|w.engine.ledger|].body;
      assert x'.history == x.history + [b] && !b.Proposed?;
      assert b.PendingH0? || b.Ratified? ==> b.revertHash == x.p.revertHash;
    } else {
      assert x'.history == x.history;
    }
  }

  lemma {:induction false} RunsRecordRevert(w: World, ops: seq<Op>, h: Digests)
    requires AllRevertRecorded(w, h) && AllStaged(w)
    ensures AllRevertRecorded(Run(w, ops, h), h)
    decreases |ops|
  {
    if ops != [] {
      StepRecordsRevert(w, ops[0], h);
      StepKeepsStaged(w, ops[0], h);
      RunsRecordRevert(Step(w, ops[0], h), ops[1..], h);
    }
  }

  lemma StepRecordsRevert(w: World, op: Op, h: Digests)
    requires AllRevertRecorded(w, h) && AllStaged(w)
    ensures AllRevertRecorded(Step(w, op, h), h)
  {
    if op.Propose? {
      ProposeRecordsRevert(w, op, h);
    } else if !op.Reopen? && op.o in w.objects {
      CallRecordsRevert(w, op, h);
      OthersUntouched(w, op, h);
    }
  }

  lemma OthersUntouched(w: World, op: Op, h: Digests)
    requires !op.Reopen? && !op.Propose? && op.o in w.objects
    ensures var w' := Step(w, op, h);
      w'.objects.Keys == w.objects.Keys && forall o | o in w.objects && o != op.o :: w'.objects[o] == w.objects[o]
  {
  }

  /** A RATIFIED record carries the digest of the replaced text exactly when its object was the first to propose
      that content: an object handed out again for known content ratifies without one. */
  lemma RevertHashIffFirstProposal(registry: seq<string>, ops: seq<Op>, h: Digests, o: nat, k: nat)
    requires o in Run(Start(registry), ops, h).objects
    requires k < |Run(Start(registry), ops, h).objects[o].history|
    requires Run(Start(registry), ops, h).objects[o].history[k].Ratified?
    ensures var x := Run(Start(registry), ops, h).objects[o];
      && (x.history[k].revertHash.Some? <==> x.history[0].Proposed?)
      && (x.history[0].Proposed? ==>
            x.history[k].revertHash == Some(h.text(x.p.currentText)) == Some(x.history[0].revert))
  {
    RunsRecordRevert(Start(registry), ops, h);
    var x := Run(Start(registry), ops, h).objects[o];
    assert x.history[k] in x.history && x.history[0] in x.history;
  }
}
