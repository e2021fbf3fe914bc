/** What the calls to the self-amendment engine write, and how a proposal object mirrors its records. */
module AmendmentLog {
  import opened HashChain
  import opened Amendment
  import opened AmendmentRuns
  import opened Text
  import opened Wrappers

  /** The record repeats what the object holds for good: its id, its content and class, and its evidence. */
  predicate Repeats(p: Proposal, b: Body) {
    && b.id == p.id
    && (b.Proposed? ==> b.content == p.content && b.evidence == p.evidence)
    && (b.Ratified? ==> b.class_ == p.content.class_)
  }

  /** The last record of a kind leaves its mark on the object. */
  function Signature(history: seq<Body>): Option<string> {
    if history == [] then None
    else
      var last := history[|history| - 1];
      if last.Ratified? then Some(last.signature) else Signature(history[..|history| - 1])
  }

  function Reasons(history: seq<Body>): seq<string> {
    if history == [] then []
    else
      var last := history[|history| - 1];
      if last.Rejected? then last.reasons else Reasons(history[..|history| - 1])
  }

  function Score(history: seq<Body>): real {
    if history == [] then 0.0
    else
      var last := history[|history| - 1];
      if last.Validated? then last.score else Score(history[..|history| - 1])
  }

  ghost predicate Mirrors(x: Object) {
    && (forall i | 0 <= i < |x.history| :: Repeats(x.p, x.history[i]))
    && x.p.signature == Signature(x.history) && x.p.rejection == Reasons(x.history) && x.p.score == Score(x.history)
  }

  ghost predicate AllMirror(w: World) {
    forall o | o in w.objects :: Mirrors(w.objects[o])
  }

  lemma OneMoreRecord(x: Object, p': Proposal, b: Body, registry: seq<string>)
    requires Mirrors(x) && Repeats(p', b)
    requires (p'.id, p'.content, p'.evidence) == (x.p.id, x.p.content, x.p.evidence)
    requires p'.signature == if b.Ratified? then Some(b.signature) else x.p.signature
    requires p'.rejection == if b.Rejected? then b.reasons else x.p.rejection
    requires p'.score == if b.Validated? then b.score else x.p.score
    ensures Mirrors(Object(p', x.history + [b], x.registries + [registry]))
  {
    var more := x.history + [b];
    assert more[..|x.history|] == x.history;
    forall i | 0 <= i < |more| ensures Repeats(p', more[i]) {
      assert i < |x.history| ==> Repeats(x.p, x.history[i]);
    }
  }

  lemma CallMirrors(w: World, op: Op, h: Digests)
    requires AllMirror(w) && !op.Reopen? && !op.Propose? && op.o in w.objects
    ensures Mirrors(Step(w, op, h).objects[op.o])
  {
    var x, w' := w.objects[op.o], Step(w, op, h);
    var x' := w'.objects[op.o];
    if |w.engine.ledger| < |w'.engine.ledger| {
      OneMoreRecord(x, x'.p, w'.engine.ledger[|w.engine.ledger|].body, x'.registries[|x.registries|]);
    } else {
      assert x' == x;
    }
  }

  lemma NewMirrors(p: Proposal, b: Body, registry: seq<string>)
    requires p.signature == None && p.rejection == [] && p.score == 0.0
    ensures Mirrors(Object(p, [], []))
    ensures b.Proposed? && Repeats(p, b) ==> Mirrors(Object(p, [] + [b], [] + [registry]))
  {
    assert ([] + [b])[..0] == [];
  }

  lemma ProposeMirrors(w: World, op: Op, h: Digests)
    requires AllMirror(w) && op.Propose?
    ensures AllMirror(Step(w, op, h))
  {
    var w' := Step(w, op, h);
    if op.o !in w.objects && op.o in w'.objects {
      var p := w'.objects[op.o].p;
      NewMirrors(p, Proposed(op.uuid, op.content, op.evidence, h.text(op.currentText), h.content(op.content)),
                 w.engine.registry);
    }
  }

  lemma {:induction false} RunsMirror(w: World, ops: seq<Op>, h: Digests)
    requires AllMirror(w)
    ensures AllMirror(Run(w, ops, h))
    decreases |ops|
  {
    if ops != [] {
      StepMirrors(w, ops[0], h);
      RunsMirror(Step(w, ops[0], h), ops[1..], h);
    }
  }

  lemma StepMirrors(w: World, op: Op, h: Digests)
    requires AllMirror(w)
    ensures AllMirror(Step(w, op, h))
  {
    if op.Propose? {
      ProposeMirrors(w, op, h);
    } else if !op.Reopen? && op.o in w.objects {
      CallMirrors(w, op, h);
      OthersUntouched(w, op, h);
    }
  }

  /** Over every run: each record of an object repeats its id, content, class and evidence, and signature, reasons and
      score of the object are those of its last ratification, rejection and validation. */
  lemma ObjectsMirrorRecords(registry: seq<string>, ops: seq<Op>, h: Digests, o: nat)
    requires o in Run(Start(registry), ops, h).objects
    ensures Mirrors(Run(Start(registry), ops, h).objects[o])
  {
    RunsMirror(Start(registry), ops, h);
  }

  // What one call writes.

  /** The record that a call on the object must write, or None. */
  ghost function Due(p: Proposal, op: Op, registry: seq<string>): Option<Body>
    requires !op.Reopen? && !op.Propose?
  {
    match op
    case Validate(_, score, given) =>
      if && |p.evidence| >= 3 && score >= 0.72
         && Cleared(p.content, p.evidence, if given != [] then given else registry)
      then Some(Validated(p.id, score))
      else Some(Rejected(p.id, FailureReasons(p, score, if given != [] then given else registry)))
    case Simulate(_, dryRunPasses, hard, soft, simulation) =>
      if p.stage != VALIDATED then None
      else if dryRunPasses && (p.content.class_ == HARD || hard == []) then
        Some(Simulated(p.id, simulation, hard, soft))
      else Some(Rejected(p.id, ["simulation failed", simulation]))
    case Queue(_) => if p.stage == SIMULATED then Some(PendingH0(p.id, p.score, p.revertHash)) else None
    case Ratify(_, signature) =>
      if p.stage == PENDING_H0 && Strip(signature) != "" then
        Some(Ratified(p.id, p.content.class_, p.score, p.revertHash, signature))
      else None
    case Reject(_, reason) => Some(Rejected(p.id, [reason]))
  }

  /** A call writes its one record at the end of the ledger and takes the object to that record's stage, or it changes
      nothing at all. */
  lemma CallWritesOneRecord(w: World, op: Op, h: Digests)
    requires !op.Reopen? && !op.Propose? && op.o in w.objects
    ensures var w', p := Step(w, op, h), w.objects[op.o].p;
      var due := Due(p, op, w.engine.registry);
      if due.None? then w' == w
      else
        && |w'.engine.ledger| == |w.engine.ledger| + 1 && w.engine.ledger <= w'.engine.ledger
        && w'.engine.ledger[|w.engine.ledger|].body == due.value
        && w'.objects[op.o].p.stage == StageOf(due.value)
        && w'.engine.state.last == w.engine.state.last
  {
    var p := w.objects[op.o].p;
    match op
    case Validate(_, score, given) => ValidatePassesIff(w.engine, p, score, given, h);
    case Ratify(_, signature) =>
      StripIsEmptyIffBlank(signature);
      Unchanged(w, op.o);
    case Simulate(_, _, _, _, _) => Unchanged(w, op.o);
    case Queue(_) => Unchanged(w, op.o);
    case Reject(_, _) =>
  }

  lemma Unchanged(w: World, o: nat)
    requires o in w.objects
    ensures World(w.engine, w.objects[o := w.objects[o].(p := w.objects[o].p)]) == w
  {
    assert w.objects[o := w.objects[o]] == w.objects;
  }

  // The latest proposal.

  /** The id of the last PROPOSED record. */
  function LastProposed(ledger: Ledger): Option<string> {
    if ledger == [] then None
    else
      var last := ledger[|ledger| - 1].body;
      if last.Proposed? then Some(last.id) else LastProposed(ledger[..|ledger| - 1])
  }

  lemma LastSnoc(ledger: Ledger, entry: Entry<Body>)
    ensures LastProposed(ledger + [entry])
         == if entry.body.Proposed? then Some(entry.body.id) else LastProposed(ledger)
  {
    assert (ledger + [entry])[..|ledger|] == ledger;
  }

  /** A proposal with quorum, of content not yet in the ledger, writes its record and is the latest; of known content it
      writes nothing. */
  lemma ProposeWrites(
    e: Engine, content: Content, currentText: string, evidence: seq<string>, uuid: string, h: Digests)
    ensures var (e', r) := ProposeStep(e, content, currentText, evidence, uuid, h);
      if |evidence| < 3 then e' == e && r == Err(QuorumViolation)
      else if exists i ::
        0 <= i < |e.ledger| && e.ledger[i].body.Proposed? && e.ledger[i].body.contentHash == h.content(content)
      then e' == e && r.Ok?
      else
        && r.Ok? && r.value.id == uuid && |e'.ledger| == |e.ledger| + 1 && e'.state.last == Some(uuid)
        && e'.ledger[|e.ledger|].body
           == Proposed(uuid, content, evidence, h.text(currentText), h.content(content))
  {
    FoundIffPresent(e.ledger, h.content(content));
  }

  lemma StepKeepsLast(w: World, op: Op, h: Digests)
    requires w.engine.state.last == w.engine.saved.last == LastProposed(w.engine.ledger)
    ensures var e := Step(w, op, h).engine; e.state.last == e.saved.last == LastProposed(e.ledger)
  {
    var w' := Step(w, op, h);
    if |w.engine.ledger| < |w'.engine.ledger| {
      LastSnoc(w.engine.ledger, w'.engine.ledger[|w.engine.ledger|]);
    }
  }

  /** Over every run the state, saved and in memory, names the latest proposal of the ledger. */
  lemma {:induction false} StateNamesLatest(w: World, ops: seq<Op>, h: Digests)
    requires w.engine.state.last == w.engine.saved.last == LastProposed(w.engine.ledger)
    ensures var e := Run(w, ops, h).engine; e.state.last == e.saved.last == LastProposed(e.ledger)
    decreases |ops|
  {
    if ops != [] {
      StepKeepsLast(w, ops[0], h);
      StateNamesLatest(Step(w, ops[0], h), ops[1..], h);
    }
  }
}
