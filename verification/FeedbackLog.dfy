/** What the cycles of the feedback integrator leave in its ledger, told from the calls, and what its verifier
    notices. */
module FeedbackLog {
  import opened HashChain
  import opened FeedbackIntegrator
  import opened Wrappers

  /** The positions of the signals with this disposition. */
  function With(signals: seq<Signal>, d: Disposition): set<nat> {
    set i: nat | i < |signals| && signals[i].disposition == d
  }

  lemma {:induction false} CountIsSize(signals: seq<Signal>, d: Disposition)
    ensures Count(signals, d) == |With(signals, d)|
  {
    if signals != [] {
      var n := |signals| - 1;
      CountIsSize(signals[..n], d);
      assert With(signals, d) == With(signals[..n], d) + if signals[n].disposition == d then {n} else {};
    }
  }

  /** The record shows the call: its id, how many signals it had of each disposition, where it started, and by how much
      each weight moved. */
  ghost predicate Shows(b: Record, id: string, prior: Weights, signals: seq<Signal>) {
    && b.id == id && b.prior == prior && b.weights == Adjusted(prior, signals)
    && b.applied == |signals|
    && b.accepted == |With(signals, ACCEPTED)| && b.rejected == |With(signals, REJECTED)|
    && b.deferred == |With(signals, DEFERRED)|
    && forall a :: b.prior[a] + b.deltas[a] == b.weights[a]
  }

  lemma RecordShows(id: string, prior: Weights, signals: seq<Signal>)
    ensures Shows(RecordOf(id, prior, signals), id, prior, signals)
  {
    CountIsSize(signals, ACCEPTED);
    CountIsSize(signals, REJECTED);
    CountIsSize(signals, DEFERRED);
  }

  /** A new id leaves one record that shows the call, and its weights as snapshot; a used one leaves nothing. */
  lemma IntegrateTells(s: Store, given: Option<string>, uuid: string, signals: seq<Signal>, mac: (Record, Hash) -> Hash)
    ensures var id := match given case Some(x) => if |x| > 0 then x else uuid case None => uuid;
      var (s', r) := IntegrateStep(s, ChosenId(given, uuid), signals, mac);
      if exists i :: 0 <= i < |s.ledger| && s.ledger[i].body.id == id then s' == s && r == Err(ReplayError)
      else
        && r.Ok? && s'.ledger == s.ledger + [r.value] && Shows(r.value.body, id, CurrentWeights(s), signals)
        && s'.snapshot == Some(r.value.body.weights)
  {
    RecordShows(ChosenId(given, uuid), CurrentWeights(s), signals);
    if i :| 0 <= i < |s.ledger| && s.ledger[i].body.id == ChosenId(given, uuid) {
      assert ChosenId(given, uuid) in Ids(s.ledger);
    }
  }

  ghost predicate ShowsAt(ledger: Ledger, uses: seq<Call>, i: nat)
    requires i < |uses| == |ledger|
  {
    Shows(ledger[i].body, uses[i].id, Folded(uses[..i]), uses[i].signals)
  }

  /** The records of a run, from the first uses of each id in order. */
  ghost predicate Told(s: Store, uses: seq<Call>) {
    && |s.ledger| == |uses| && CurrentWeights(s) == Folded(uses)
    && forall i: nat | i < |uses| :: ShowsAt(s.ledger, uses, i)
  }

  lemma OldShows(ledger: Ledger, uses: seq<Call>, link: Link<Record>, c: Call, i: nat)
    requires i < |uses| == |ledger| && ShowsAt(ledger, uses, i)
    ensures ShowsAt(ledger + [link], uses + [c], i)
  {
    assert (uses + [c])[..i] == uses[..i];
  }

  lemma NewShows(ledger: Ledger, uses: seq<Call>, link: Link<Record>, c: Call)
    requires |uses| == |ledger| && Shows(link.body, c.id, Folded(uses), c.signals)
    ensures ShowsAt(ledger + [link], uses + [c], |uses|)
  {
    assert (uses + [c])[..|uses|] == uses;
  }

  lemma AppendTells(s: Store, uses: seq<Call>, c: Call, mac: (Record, Hash) -> Hash)
    requires Told(s, uses)
    ensures Told(Appended(s, RecordOf(c.id, CurrentWeights(s), c.signals), mac), uses + [c])
  {
    var body := RecordOf(c.id, CurrentWeights(s), c.signals);
    var link := Link(body, mac(body, LastDigest(s.ledger)));
    RecordShows(c.id, CurrentWeights(s), c.signals);
    FoldedSnoc(uses, c);
    NewShows(s.ledger, uses, link, c);
    forall i: nat | i < |uses| ensures ShowsAt(s.ledger + [link], uses + [c], i) {
      OldShows(s.ledger, uses, link, c, i);
    }
  }

  lemma StepTells(s: Store, uses: seq<Call>, c: Call, mac: (Record, Hash) -> Hash)
    requires Told(s, uses)
    ensures Told(IntegrateStep(s, c.id, c.signals, mac).0, uses + if c.id in Ids(s.ledger) then [] else [c])
  {
    if c.id in Ids(s.ledger) {
      assert uses + [] == uses;
    } else {
      AppendTells(s, uses, c, mac);
    }
  }

  /** Over every run from nothing, the ledger tells the first use of each id: its signals by disposition, and the
      weights that the uses before it had led to. */
  lemma {:induction false} LedgerTellsCalls(calls: seq<Call>, mac: (Record, Hash) -> Hash)
    ensures Told(Run(EMPTY, calls, mac), FirstUses(calls))
  {
    if calls != [] {
      var front, last := calls[..|calls| - 1], calls[|calls| - 1];
      LedgerTellsCalls(front, mac);
      RunIds(front, mac);
      StepTells(Run(EMPTY, front, mac), FirstUses(front), last, mac);
    }
  }

  // What the verifier compares.

  /** Two digests that the verifier cannot tell apart. */
  ghost predicate Alike(a: Hash, b: Hash) {
    if |a| < 24 || |b| < 24 then a == b else forall k | 0 <= k < 24 :: a[k] == b[k]
  }

  lemma PrefixIff(a: Hash, b: Hash)
    requires |a| == |b|
    ensures Prefix(a) == Prefix(b) <==> Alike(a, b)
  {
    if |a| >= 24 {
      assert forall k | 0 <= k < 24 :: Prefix(a)[k] == a[k] && Prefix(b)[k] == b[k];
      assert |Prefix(a)| == 24 && |Prefix(b)| == 24;
    }
  }

  ghost predicate FixedLength(mac: (Record, Hash) -> Hash, n: nat) {
    forall b, p {:trigger mac(b, p)} :: |mac(b, p)| == n
  }

  /** The walk accepts exactly the ledgers whose stored digests each agree, in their first 24 characters, with the
      digest recomputed from the records up to there. */
  lemma AcceptsIff(ledger: Ledger, mac: (Record, Hash) -> Hash, n: nat)
    requires FixedLength(mac, n) && forall i | 0 <= i < |ledger| :: |ledger[i].digest| == n
    ensures WalkAccepts(ledger, mac) <==>
            forall i: nat | i < |ledger| :: Alike(ledger[i].digest, Recomputed(ledger, i, mac))
  {
    forall i: nat | i < |ledger|
      ensures Prefix(ledger[i].digest) == Prefix(Recomputed(ledger, i, mac)) <==>
              Alike(ledger[i].digest, Recomputed(ledger, i, mac))
    {
      PrefixIff(ledger[i].digest, Recomputed(ledger, i, mac));
    }
  }

  /** Altering one record of a linked ledger is noticed, unless its new digest agrees with the stored one in the first
      24 characters. */
  lemma AlteredRecordIsNoticed(ledger: Ledger, i: nat, body: Record, mac: (Record, Hash) -> Hash, n: nat)
    requires FixedLength(mac, n) && Linked(ledger, mac) && i < |ledger|
    requires !Alike(ledger[i].digest, mac(body, if i == 0 then GENESIS else ledger[i - 1].digest))
    ensures !WalkAccepts(ledger[i := Link(body, ledger[i].digest)], mac)
  {
    var altered := ledger[i := Link(body, ledger[i].digest)];
    assert LinkIntact(ledger, i, mac);
    if i > 0 {
      SameBefore(ledger, altered, i - 1, mac);
      LinkedIsRecomputed(ledger, i - 1, mac);
    }
    PrefixIff(altered[i].digest, Recomputed(altered, i, mac));
  }

  lemma {:induction false} SameBefore(a: Ledger, b: Ledger, i: nat, mac: (Record, Hash) -> Hash)
    requires i < |a| == |b| && a[..i + 1] == b[..i + 1]
    ensures Recomputed(a, i, mac) == Recomputed(b, i, mac)
  {
    assert a[i] == a[..i + 1][i] == b[i];
    if i > 0 {
      assert a[..i] == a[..i + 1][..i] == b[..i];
      SameBefore(a, b, i - 1, mac);
    }
  }
}
