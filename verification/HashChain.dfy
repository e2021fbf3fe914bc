/** A ledger whose every entry carries the digest of its predecessor.

    The keyed digest is a parameter `mac`.  Nothing is assumed of it except where a
    lemma asks for `CollisionFree`: distinct inputs have distinct digests, and no digest
    is the all-zero genesis value.
 */
module HashChain {

  type Hash = string

  const GENESIS: Hash := "0000000000000000000000000000000000000000000000000000000000000000"

  datatype Entry<B> = Entry(body: B, prev: Hash, digest: Hash)

  ghost predicate CollisionFree<B(!new)>(mac: (B, Hash) -> Hash) {
    && (forall a, p, b, q {:trigger mac(a, p), mac(b, q)} :: mac(a, p) == mac(b, q) ==> a == b && p == q)
    && (forall a, p {:trigger mac(a, p)} :: mac(a, p) != GENESIS)
  }

  function Head<B>(log: seq<Entry<B>>): Hash {
    if log == [] then GENESIS else log[|log| - 1].digest
  }

  predicate Intact<B>(log: seq<Entry<B>>, i: nat, mac: (B, Hash) -> Hash)
    requires i < |log|
  {
    && log[i].prev == (if i == 0 then GENESIS else log[i - 1].digest)
    && log[i].digest == mac(log[i].body, log[i].prev)
  }

  /** Every entry is linked to the one before it, the first to the genesis value. */
  ghost predicate Valid<B>(log: seq<Entry<B>>, mac: (B, Hash) -> Hash) {
    forall i: nat | i < |log| :: Intact(log, i, mac)
  }

  function Seal<B>(log: seq<Entry<B>>, body: B, mac: (B, Hash) -> Hash): (entry: Entry<B>)
    ensures Valid(log, mac) ==> Valid(log + [entry], mac)
    ensures Head(log + [entry]) == entry.digest
  {
    var entry := Entry(body, Head(log), mac(body, Head(log)));
    assert Valid(log, mac) ==> Valid(log + [entry], mac) by {
      if Valid(log, mac) {
        forall i: nat | i < |log| + 1 ensures Intact(log + [entry], i, mac) {
          if i < |log| {
            assert Intact(log, i, mac);
          }
        }
      }
    }
    entry
  }

  lemma PrefixIntact<B>(log: seq<Entry<B>>, n: nat, mac: (B, Hash) -> Hash)
    requires n <= |log| && forall i: nat | i < n :: Intact(log, i, mac)
    ensures Valid(log[..n], mac)
  {
    forall i: nat | i < n ensures Intact(log[..n], i, mac) {
      assert Intact(log, i, mac);
    }
  }

  /** The head commits to the whole ledger: two valid ledgers with one head are the same ledger. */
  lemma {:induction false} HeadDeterminesLog<B(!new)>(a: seq<Entry<B>>, b: seq<Entry<B>>, mac: (B, Hash) -> Hash)
    requires CollisionFree(mac) && Valid(a, mac) && Valid(b, mac)
    requires Head(a) == Head(b)
    ensures a == b
    decreases |a|
  {
    if a != [] {
      assert Intact(a, |a| - 1, mac);
    }
    if b != [] {
      assert Intact(b, |b| - 1, mac);
    }
    if a != [] && b != [] {
      var a', b' := a[..|a| - 1], b[..|b| - 1];
      PrefixIntact(a, |a| - 1, mac);
      PrefixIntact(b, |b| - 1, mac);
      HeadDeterminesLog(a', b', mac);
      assert a == a' + [a[|a| - 1]] && b == b' + [b[|b| - 1]];
    }
  }

  /** No head value is ever seen twice, so no two entries name the same predecessor. */
  lemma HeadsNeverRepeat<B(!new)>(log: seq<Entry<B>>, i: nat, j: nat, mac: (B, Hash) -> Hash)
    requires CollisionFree(mac) && Valid(log, mac)
    requires i < j <= |log|
    ensures Head(log[..i]) != Head(log[..j])
    ensures j < |log| ==> log[i].prev != log[j].prev && log[i].digest != log[j].digest
  {
    PrefixIntact(log, i, mac);
    PrefixIntact(log, j, mac);
    if Head(log[..i]) == Head(log[..j]) {
      HeadDeterminesLog(log[..i], log[..j], mac);
      assert false;
    }
    if j < |log| {
      assert Intact(log, i, mac) && Intact(log, j, mac);
    }
  }

  /** A record that stores its digest and leaves its predecessor's to the record before it. */
  datatype Link<B> = Link(body: B, digest: Hash)

  function LastDigest<B>(log: seq<Link<B>>): Hash {
    if log == [] then GENESIS else log[|log| - 1].digest
  }

  /** The ledger with each predecessor written out. */
  function AsEntries<B>(log: seq<Link<B>>): seq<Entry<B>> {
    if log == [] then []
    else
      var front := log[..|log| - 1];
      AsEntries(front) + [Entry(log[|log| - 1].body, LastDigest(front), log[|log| - 1].digest)]
  }

  predicate LinkIntact<B>(log: seq<Link<B>>, i: nat, mac: (B, Hash) -> Hash)
    requires i < |log|
  {
    log[i].digest == mac(log[i].body, if i == 0 then GENESIS else log[i - 1].digest)
  }

  ghost predicate Linked<B>(log: seq<Link<B>>, mac: (B, Hash) -> Hash) {
    forall i: nat | i < |log| :: LinkIntact(log, i, mac)
  }

  lemma {:induction false} AsEntriesAt<B>(log: seq<Link<B>>, i: nat)
    requires i < |log|
    ensures |AsEntries(log)| == |log|
    ensures AsEntries(log)[i] == Entry(log[i].body, if i == 0 then GENESIS else log[i - 1].digest, log[i].digest)
    decreases |log|
  {
    var front := log[..|log| - 1];
    if front != [] {
      AsEntriesAt(front, if i < |front| then i else 0);
    }
  }

  lemma SameLength<B>(log: seq<Link<B>>)
    ensures |AsEntries(log)| == |log| && LastDigest(log) == Head(AsEntries(log))
  {
    if log != [] {
      AsEntriesAt(log, |log| - 1);
    }
  }

  /** Storing no predecessor loses nothing: the ledger is linked exactly when it is valid written out. */
  lemma LinkedIffValid<B>(log: seq<Link<B>>, mac: (B, Hash) -> Hash)
    ensures Linked(log, mac) <==> Valid(AsEntries(log), mac)
    ensures LastDigest(log) == Head(AsEntries(log)) && |AsEntries(log)| == |log|
  {
    SameLength(log);
    forall i: nat | i < |log| ensures LinkIntact(log, i, mac) <==> Intact(AsEntries(log), i, mac) {
      LinkIntactIff(log, i, mac);
    }
    var entries := AsEntries(log);
    assert Linked(log, mac) ==> Valid(entries, mac);
    assert Valid(entries, mac) ==> Linked(log, mac);
  }

  lemma LinkIntactIff<B>(log: seq<Link<B>>, i: nat, mac: (B, Hash) -> Hash)
    requires i < |log| == |AsEntries(log)|
    ensures LinkIntact(log, i, mac) <==> Intact(AsEntries(log), i, mac)
  {
    AsEntriesAt(log, i);
    if i > 0 {
      AsEntriesAt(log, i - 1);
    }
  }

  lemma LinkKeepsLinked<B>(log: seq<Link<B>>, body: B, mac: (B, Hash) -> Hash)
    requires Linked(log, mac)
    ensures Linked(log + [Link(body, mac(body, LastDigest(log)))], mac)
  {
    var log' := log + [Link(body, mac(body, LastDigest(log)))];
    forall i: nat | i < |log'| ensures LinkIntact(log', i, mac) {
      if i < |log| {
        assert LinkIntact(log, i, mac);
      }
    }
  }

  /** The replay loop shared by the ledgers' verifiers: `count` is the number of entries
      accepted before the first broken one. */
  method Verify<B(==)>(log: seq<Entry<B>>, mac: (B, Hash) -> Hash) returns (ok: bool, count: nat)
    ensures ok <==> Valid(log, mac)
    ensures count <= |log| && Valid(log[..count], mac)
    ensures ok ==> count == |log|
    ensures !ok ==> count < |log| && !Intact(log, count, mac)
  {
    var prev := GENESIS;
    count := 0;
    while count < |log|
      invariant count <= |log|
      invariant prev == Head(log[..count])
      invariant forall i: nat | i < count :: Intact(log, i, mac)
    {
      if log[count].prev != prev || log[count].digest != mac(log[count].body, log[count].prev) {
        PrefixIntact(log, count, mac);
        assert !Intact(log, count, mac);
        return false, count;
      }
      prev := log[count].digest;
      count := count + 1;
    }
    PrefixIntact(log, count, mac);
    ok := true;
  }
}
