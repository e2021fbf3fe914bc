/** The self-amendment engine of `dorkllm/autonomous_constitutional_self_amendment.py`: proposals move through
    guarded stages, and every transition is an entry of a chained ledger beside a saved state record. */
module Amendment {
  import opened HashChain
  import opened Text
  import opened Wrappers

  datatype Stage = PROPOSED | VALIDATED | SIMULATED | PENDING_H0 | RATIFIED | REJECTED

  datatype Class = SOFT | HARD

  /** The parts of a proposal that its content hash covers. */
  datatype Content = Content(title: string, targetSection: string, proposedText: string, class_: Class)

  datatype Proposal = Proposal(
    id: string, content: Content, currentText: string, evidence: seq<string>, stage: Stage, score: real,
    signature: Option<string>, revertHash: Option<string>, rejection: seq<string>)

  datatype Body =
    | Proposed(id: string, content: Content, evidence: seq<string>, revert: string, contentHash: string)
    | Validated(id: string, score: real)
    | Simulated(id: string, simulation: string, hard: seq<string>, soft: seq<string>)
    | PendingH0(id: string, score: real, revertHash: Option<string>)
    | Ratified(id: string, class_: Class, score: real, revertHash: Option<string>, signature: string)
    | Rejected(id: string, reasons: seq<string>)

  type Ledger = seq<Entry<Body>>

  datatype State = State(proposed: nat, ratified: nat, rejected: nat, last: Option<string>, head: Hash)

  const FRESH_STATE := State(0, 0, 0, None, GENESIS)

  const MIN_SCORE := 0.72

  const MIN_EVIDENCE := 3

  /** The digests, as functions of what they cover. */
  datatype Digests = Digests(mac: (Body, Hash) -> Hash, content: Content -> string, text: string -> string)

  /** The engine: its state, the state file, the ledger file, and the registry of hard invariants. */
  datatype Engine = Engine(state: State, saved: State, ledger: Ledger, registry: seq<string>)

  datatype Error = QuorumViolation | SimFirstViolation | BlankSignature | NotPending

  function StageOf(b: Body): Stage {
    match b
    case Proposed(_, _, _, _, _) => PROPOSED
    case Validated(_, _) => VALIDATED
    case Simulated(_, _, _, _) => SIMULATED
    case PendingH0(_, _, _) => PENDING_H0
    case Ratified(_, _, _, _, _) => RATIFIED
    case Rejected(_, _) => REJECTED
  }

  /** Appends one entry and saves the state. */
  function Commit(e: Engine, state: State, body: Body, h: Digests): Engine {
    var entry := Entry(body, state.head, h.mac(body, state.head));
    var state' := state.(head := entry.digest);
    e.(state := state', saved := state', ledger := e.ledger + [entry])
  }

  /** The first entry that carries this content hash. */
  function FindByContent(ledger: Ledger, contentHash: string): Option<Body> {
    if ledger == [] then None
    else if ledger[0].body.Proposed? && ledger[0].body.contentHash == contentHash then Some(ledger[0].body)
    else FindByContent(ledger[1..], contentHash)
  }

  function ProposeStep(
    e: Engine, content: Content, currentText: string, evidence: seq<string>, uuid: string, h: Digests)
    : (Engine, Result<Proposal, Error>)
  {
    if |evidence| < MIN_EVIDENCE then (e, Err(QuorumViolation))
    else
      var p := Proposal(uuid, content, currentText, evidence, PROPOSED, 0.0, None, None, []);
      match FindByContent(e.ledger, h.content(content))
      case Some(existing) => (e, Ok(p.(id := existing.id, stage := StageOf(existing))))
      case None =>
        var revert := h.text(currentText);
        var state := e.state.(proposed := e.state.proposed + 1, last := Some(uuid));
        (Commit(e, state, Proposed(uuid, content, evidence, revert, h.content(content)), h),
         Ok(p.(revertHash := Some(revert))))
  }

  predicate OccursAt(text: string, part: string, i: int) {
    0 <= i <= |text| - |part| && text[i..i + |part|] == part
  }

  predicate Contains(text: string, part: string) {
    exists i | 0 <= i <= |text| - |part| :: OccursAt(text, part, i)
  }

  /** The text before the first dash. */
  function FirstPart(s: string): string {
    if s == "" || s[0] == '-' then "" else [s[0]] + FirstPart(s[1..])
  }

  /** A hard amendment mentions a registered hard invariant that it does not cite. */
  predicate Conflicting(p: Proposal, registry: seq<string>) {
    p.content.class_ == HARD
    && exists inv | inv in registry :: Contains(p.content.proposedText, FirstPart(inv)) && inv !in p.evidence
  }

  function FailureReasons(p: Proposal, score: real, registry: seq<string>): seq<string> {
    (if |p.evidence| < MIN_EVIDENCE then ["ACSA-QUORUM-0"] else [])
    + (if score < MIN_SCORE then ["CGVF score"] else [])
    + (if Conflicting(p, registry) then ["ACSA-CONFLICT-0"] else [])
  }

  // What validation asks for.

  /** `s` falls apart into `part`, without a dash, and `rest`, which is empty or begins with one. */
  predicate SplitsAtDash(s: string, part: string, rest: string) {
    s == part + rest && '-' !in part && (rest == "" || rest[0] == '-')
  }

  predicate IsJoin(text: string, before: string, part: string, after: string) {
    text == before + part + after
  }

  ghost predicate Occurs(text: string, part: string) {
    exists before, after :: IsJoin(text, before, part, after)
  }

  /** The name of the invariant up to its first dash occurs in the text. */
  ghost predicate Mentions(text: string, inv: string) {
    exists part, rest :: SplitsAtDash(inv, part, rest) && Occurs(text, part)
  }

  /** A soft amendment, or one that cites every invariant of the registry that its text mentions. */
  ghost predicate Cleared(content: Content, evidence: seq<string>, registry: seq<string>) {
    content.class_ == SOFT || forall inv | inv in registry && Mentions(content.proposedText, inv) :: inv in evidence
  }

  lemma {:induction false} FirstPartSplits(s: string) returns (rest: string)
    ensures SplitsAtDash(s, FirstPart(s), rest)
  {
    if s == "" || s[0] == '-' {
      rest := s;
    } else {
      rest := FirstPartSplits(s[1..]);
      assert s == [s[0]] + s[1..];
    }
  }

  lemma NoShorterPart(s: string, p: string, x: string, q: string, y: string)
    requires SplitsAtDash(s, p, x) && SplitsAtDash(s, q, y)
    ensures |p| >= |q|
  {
    assert |p| < |s| ==> s[|p|] == x[0] == '-';
    assert forall i | 0 <= i < |q| :: s[i] == q[i] && q[i] != '-';
  }

  lemma SplitIsUnique(s: string, p: string, x: string, q: string, y: string)
    requires SplitsAtDash(s, p, x) && SplitsAtDash(s, q, y)
    ensures p == q
  {
    NoShorterPart(s, p, x, q, y);
    NoShorterPart(s, q, y, p, x);
    assert p == s[..|p|] && q == s[..|q|];
  }

  lemma ContainsIffOccurs(text: string, part: string)
    ensures Contains(text, part) <==> Occurs(text, part)
  {
    if i :| 0 <= i <= |text| - |part| && OccursAt(text, part, i) {
      assert IsJoin(text, text[..i], part, text[i + |part|..]);
    }
    if before, after :| IsJoin(text, before, part, after) {
      assert OccursAt(text, part, |before|);
    }
  }

  lemma MentionsIff(text: string, inv: string)
    ensures Mentions(text, inv) <==> Contains(text, FirstPart(inv))
  {
    var rest := FirstPartSplits(inv);
    ContainsIffOccurs(text, FirstPart(inv));
    if part, after :| SplitsAtDash(inv, part, after) && Occurs(text, part) {
      SplitIsUnique(inv, part, after, FirstPart(inv), rest);
    }
  }

  lemma ClearedIff(p: Proposal, registry: seq<string>)
    ensures Cleared(p.content, p.evidence, registry) <==> !Conflicting(p, registry)
  {
    forall inv | inv in registry
      ensures Mentions(p.content.proposedText, inv) <==> Contains(p.content.proposedText, FirstPart(inv))
    {
      MentionsIff(p.content.proposedText, inv);
    }
  }

  /** There is no reason to reject if and only if the three conditions hold, and each that fails is named. */
  lemma ReasonsIff(p: Proposal, score: real, registry: seq<string>)
    ensures var reasons := FailureReasons(p, score, registry);
      && (reasons == [] <==> |p.evidence| >= 3 && score >= 0.72 && Cleared(p.content, p.evidence, registry))
      && ("ACSA-QUORUM-0" in reasons <==> |p.evidence| < 3)
      && ("CGVF score" in reasons <==> score < 0.72)
      && ("ACSA-CONFLICT-0" in reasons <==> !Cleared(p.content, p.evidence, registry))
  {
    ClearedIff(p, registry);
    var quorum, cgvf, conflict := "ACSA-QUORUM-0", "CGVF score", "ACSA-CONFLICT-0";
    assert |quorum| == 13 && |cgvf| == 10 && |conflict| == 15;
  }

  function ValidateStep(e: Engine, p: Proposal, score: real, given: seq<string>, h: Digests): (Engine, Proposal, bool) {
    var reasons := FailureReasons(p, score, if given != [] then given else e.registry);
    if reasons == [] then
      (Commit(e, e.state, Validated(p.id, score), h), p.(stage := VALIDATED, score := score), true)
    else
      (Commit(e, e.state.(rejected := e.state.rejected + 1), Rejected(p.id, reasons), h),
       p.(stage := REJECTED, rejection := reasons), false)
  }

  /** Validation passes if and only if the three conditions hold, and leaves the stage accordingly. */
  lemma ValidatePassesIff(e: Engine, p: Proposal, score: real, given: seq<string>, h: Digests)
    ensures var (_, p', passed) := ValidateStep(e, p, score, given, h);
      && (passed <==> && |p.evidence| >= 3 && score >= 0.72
                      && Cleared(p.content, p.evidence, if given != [] then given else e.registry))
      && p'.stage == (if passed then VALIDATED else REJECTED)
      && (passed ==> p'.score == score) && (p'.content, p'.evidence) == (p.content, p.evidence)
  {
    ReasonsIff(p, score, if given != [] then given else e.registry);
  }

  function SimulateStep(
    e: Engine, p: Proposal, dryRunPasses: bool, hard: seq<string>, soft: seq<string>, simulation: string, h: Digests)
    : (Engine, Proposal, Result<bool, Error>)
  {
    if p.stage != VALIDATED then (e, p, Err(SimFirstViolation))
    else if dryRunPasses && !(p.content.class_ == SOFT && hard != []) then
      (Commit(e, e.state, Simulated(p.id, simulation, hard, soft), h), p.(stage := SIMULATED), Ok(true))
    else
      var reasons := ["simulation failed", simulation];
      (Commit(e, e.state.(rejected := e.state.rejected + 1), Rejected(p.id, reasons), h),
       p.(stage := REJECTED, rejection := reasons), Ok(false))
  }

  function QueueStep(e: Engine, p: Proposal, h: Digests): (Engine, Proposal, Result<(), Error>) {
    if p.stage != SIMULATED then (e, p, Err(SimFirstViolation))
    else (Commit(e, e.state, PendingH0(p.id, p.score, p.revertHash), h), p.(stage := PENDING_H0), Ok(()))
  }

  function RatifyStep(e: Engine, p: Proposal, signature: string, h: Digests): (Engine, Proposal, Result<(), Error>) {
    if Blank(signature) then (e, p, Err(BlankSignature))
    else if p.stage != PENDING_H0 then (e, p, Err(NotPending))
    else
      (Commit(e, e.state.(ratified := e.state.ratified + 1),
              Ratified(p.id, p.content.class_, p.score, p.revertHash, signature), h),
       p.(stage := RATIFIED, signature := Some(signature)), Ok(()))
  }

  function RejectStep(e: Engine, p: Proposal, reason: string, h: Digests): (Engine, Proposal) {
    (Commit(e, e.state.(rejected := e.state.rejected + 1), Rejected(p.id, [reason]), h),
     p.(stage := REJECTED, rejection := [reason]))
  }

  /** A new engine on the same files. */
  function ReopenStep(e: Engine, registry: seq<string>): Engine {
    Engine(e.saved, e.saved, e.ledger, registry)
  }

  class AmendmentProposal {
    var id: string
    const content: Content
    const currentText: string
    const evidence: seq<string>
    var stage: Stage
    var score: real
    var signature: Option<string>
    var revertHash: Option<string>
    var rejection: seq<string>

    constructor (id: string, content: Content, currentText: string, evidence: seq<string>)
      ensures View() == Proposal(id, content, currentText, evidence, PROPOSED, 0.0, None, None, [])
    {
      this.id, this.content, this.currentText, this.evidence := id, content, currentText, evidence;
      stage, score, signature, revertHash, rejection := PROPOSED, 0.0, None, None, [];
    }

    ghost function View(): Proposal
      reads this
    {
      Proposal(id, content, currentText, evidence, stage, score, signature, revertHash, rejection)
    }
  }

  class AmendmentEngine {
    const h: Digests
    const registry: seq<string>
    var state: State
    var saved: State
    var ledger: Ledger

    ghost function View(): Engine
      reads this
    {
      Engine(state, saved, ledger, registry)
    }

    /** Opens the engine on the files left by an earlier one. */
    constructor (h: Digests, registry: seq<string>, saved: State, ledger: Ledger)
      ensures View() == Engine(saved, saved, ledger, registry) && this.h == h
    {
      this.h, this.registry, this.state, this.saved, this.ledger := h, registry, saved, saved, ledger;
    }

    method AppendLedger(body: Body)
      modifies this`state, this`ledger
      ensures var entry := Entry(body, old(state).head, h.mac(body, old(state).head));
        state == old(state).(head := entry.digest) && ledger == old(ledger) + [entry]
    {
      var digest := h.mac(body, state.head);
      ledger := ledger + [Entry(body, state.head, digest)];
      state := state.(head := digest);
    }

    method SaveState()
      modifies this`saved
      ensures saved == state
    {
      saved := state;
    }

    method LoadExisting(contentHash: string) returns (found: Option<Body>)
      ensures found == FindByContent(ledger, contentHash)
    {
      var i := 0;
      while i < |ledger|
        invariant i <= |ledger|
        invariant FindByContent(ledger, contentHash) == FindByContent(ledger[i..], contentHash)
      {
        if ledger[i].body.Proposed? && ledger[i].body.contentHash == contentHash {
          return Some(ledger[i].body);
        }
        i := i + 1;
      }
      found := None;
    }

    method Propose(content: Content, currentText: string, evidence: seq<string>, uuid: string)
      returns (r: Result<AmendmentProposal, Error>)
      modifies this
      ensures var (e, v) := ProposeStep(old(View()), content, currentText, evidence, uuid, h);
        && View() == e && r.Ok? == v.Ok?
        && (r.Ok? ==> fresh(r.value) && r.value.View() == v.value)
        && (r.Err? ==> r.error == v.error)
    {
      if |evidence| < MIN_EVIDENCE {
        return Err(QuorumViolation);
      }
      var p := new AmendmentProposal(uuid, content, currentText, evidence);
      var contentHash := h.content(content);
      var existing := LoadExisting(contentHash);
      if existing.Some? {
        p.id := existing.value.id;
        p.stage := StageOf(existing.value);
        return Ok(p);
      }
      var revert := h.text(currentText);
      p.revertHash := Some(revert);
      state := state.(proposed := state.proposed + 1);
      state := state.(last := Some(uuid));
      AppendLedger(Proposed(uuid, content, evidence, revert, contentHash));
      SaveState();
      return Ok(p);
    }

    method CollectFailures(p: AmendmentProposal, score: real, hard: seq<string>) returns (reasons: seq<string>)
      ensures reasons == FailureReasons(p.View(), score, hard)
    {
      reasons := [];
      if |p.evidence| < MIN_EVIDENCE {
        reasons := reasons + ["ACSA-QUORUM-0"];
      }
      if score < MIN_SCORE {
        reasons := reasons + ["CGVF score"];
      }
      if p.content.class_ == HARD && exists inv | inv in hard ::
           Contains(p.content.proposedText, FirstPart(inv)) && inv !in p.evidence {
        reasons := reasons + ["ACSA-CONFLICT-0"];
      }
    }

    method Validate(p: AmendmentProposal, score: real, given: seq<string>) returns (passed: bool)
      modifies this, p
      ensures (View(), p.View(), passed) == ValidateStep(old(View()), old(p.View()), score, given, h)
      ensures passed <==> && |p.evidence| >= 3 && score >= 0.72
                          && Cleared(p.content, p.evidence, if given != [] then given else registry)
      ensures p.stage == if passed then VALIDATED else REJECTED
    {
      ghost var e, v := View(), p.View();
      ValidatePassesIff(e, v, score, given, h);
      var reasons := CollectFailures(p, score, if given != [] then given else registry);
      passed := reasons == [];
      if passed {
        p.stage := VALIDATED;
        p.score := score;
        AppendLedger(Validated(p.id, score));
      } else {
        p.stage := REJECTED;
        p.rejection := reasons;
        state := state.(rejected := state.rejected + 1);
        AppendLedger(Rejected(p.id, reasons));
      }
      SaveState();
    }

    method Simulate(p: AmendmentProposal, dryRunPasses: bool, hard: seq<string>, soft: seq<string>, simulation: string)
      returns (r: Result<bool, Error>)
      modifies this, p
      ensures (View(), p.View(), r) == SimulateStep(old(View()), old(p.View()), dryRunPasses, hard, soft, simulation, h)
    {
      if p.stage != VALIDATED {
        return Err(SimFirstViolation);
      }
      var passes, breakage := dryRunPasses, !dryRunPasses;
      if p.content.class_ == SOFT && hard != [] {
        passes, breakage := false, true;
      }
      if passes && !breakage {
        p.stage := SIMULATED;
        AppendLedger(Simulated(p.id, simulation, hard, soft));
        r := Ok(true);
      } else {
        p.stage := REJECTED;
        p.rejection := ["simulation failed", simulation];
        state := state.(rejected := state.rejected + 1);
        AppendLedger(Rejected(p.id, p.rejection));
        r := Ok(false);
      }
      SaveState();
    }

    method QueueForRatification(p: AmendmentProposal) returns (r: Result<(), Error>)
      modifies this, p
      ensures (View(), p.View(), r) == QueueStep(old(View()), old(p.View()), h)
    {
      if p.stage != SIMULATED {
        return Err(SimFirstViolation);
      }
      p.stage := PENDING_H0;
      AppendLedger(PendingH0(p.id, p.score, p.revertHash));
      SaveState();
      return Ok(());
    }

    method Ratify(p: AmendmentProposal, signature: string) returns (r: Result<(), Error>)
      modifies this, p
      ensures (View(), p.View(), r) == RatifyStep(old(View()), old(p.View()), signature, h)
    {
      if Blank(signature) {
        return Err(BlankSignature);
      }
      if p.stage != PENDING_H0 {
        return Err(NotPending);
      }
      p.stage := RATIFIED;
      p.signature := Some(signature);
      state := state.(ratified := state.ratified + 1);
      AppendLedger(Ratified(p.id, p.content.class_, p.score, p.revertHash, signature));
      SaveState();
      return Ok(());
    }

    method Reject(p: AmendmentProposal, reason: string)
      modifies this, p
      ensures (View(), p.View()) == RejectStep(old(View()), old(p.View()), reason, h)
    {
      p.stage := REJECTED;
      p.rejection := [reason];
      state := state.(rejected := state.rejected + 1);
      AppendLedger(Rejected(p.id, [reason]));
      SaveState();
    }

    method VerifyChain() returns (ok: bool, count: nat)
      ensures ok <==> Valid(ledger, h.mac)
      ensures ok ==> count == |ledger|
    {
      ok, count := Verify(ledger, h.mac);
    }
  }
}
