/** What the score cache answers, from the operations alone. */
module LruAnswers {
  import opened LruCache
  import opened Wrappers

  /** The other keys set, or found, since `k` was last set or found; None if it never was. */
  function UsedSince(maxsize: int, ops: seq<Op>, k: Key): Option<set<Key>>
    decreases |ops|, 0
  {
    if ops == [] then None
    else
      var before, op := ops[..|ops| - 1], ops[|ops| - 1];
      if !Uses(maxsize, before, op) then UsedSince(maxsize, before, k)
      else if op.key == k then Some({})
      else if UsedSince(maxsize, before, k).None? then None
      else Some(UsedSince(maxsize, before, k).value + {op.key})
  }

  /** The operation sets its key or finds it. */
  predicate Uses(maxsize: int, before: seq<Op>, op: Op)
    decreases |before|, 2
  {
    op.Set? || Kept(maxsize, before, op.key)
  }

  /** The key was used, and fewer than `maxsize` others since. */
  predicate Kept(maxsize: int, ops: seq<Op>, k: Key)
    decreases |ops|, 1
  {
    var used := UsedSince(maxsize, ops, k);
    used.Some? && |used.value| < maxsize
  }

  function Members(s: seq<Key>): set<Key> {
    set x | x in s
  }

  /** The keys behind `k`. */
  function Behind(s: seq<Key>, k: Key): set<Key> {
    if s == [] then {} else if s[0] == k then Members(s[1..]) else Behind(s[1..], k)
  }

  /** The order of the cache is the order of use, and what it lost is what too many others were used after. */
  ghost predicate Explained(maxsize: int, ops: seq<Op>, c: Cache) {
    && Fits(c, maxsize)
    && (forall k | k in c.order :: UsedSince(maxsize, ops, k) == Some(Behind(c.order, k)))
    && (forall k | k !in c.order :: !Kept(maxsize, ops, k))
  }

  lemma {:induction false} MembersSize(s: seq<Key>)
    requires Distinct(s)
    ensures |Members(s)| == |s|
  {
    if s != [] {
      DistinctTail(s);
      MembersSize(s[1..]);
      assert Members(s) == {s[0]} + Members(s[1..]);
    }
  }

  lemma {:induction false} BehindFacts(s: seq<Key>, k: Key)
    requires Distinct(s) && k in s
    ensures Behind(s, k) <= Members(s) && k !in Behind(s, k) && |Behind(s, k)| < |s|
  {
    DistinctTail(s);
    if s[0] == k {
      MembersSize(s[1..]);
    } else {
      assert k in s[1..];
      BehindFacts(s[1..], k);
    }
  }

  lemma {:induction false} BehindWithout(s: seq<Key>, k: Key, x: Key)
    requires Distinct(s) && x in s && x != k
    ensures x in Without(s, k) && Behind(Without(s, k), x) == Behind(s, x) - {k}
  {
    DistinctTail(s);
    WithoutMember(s, k);
    if s[0] == x {
      WithoutMember(s[1..], k);
      assert Without(s, k)[1..] == Without(s[1..], k);
    } else {
      assert x in s[1..];
      BehindWithout(s[1..], k, x);
      assert s[0] != k ==> Without(s, k)[1..] == Without(s[1..], k);
    }
  }

  lemma {:induction false} BehindAppend(s: seq<Key>, k: Key, x: Key)
    requires x in s && k !in s
    ensures Behind(s + [k], x) == Behind(s, x) + {k}
  {
    assert (s + [k])[1..] == s[1..] + [k];
    if s[0] != x {
      assert x in s[1..];
      BehindAppend(s[1..], k, x);
    }
  }

  lemma {:induction false} BehindLast(s: seq<Key>, k: Key)
    requires k !in s
    ensures Behind(s + [k], k) == {}
  {
    if s == [] {
      assert s + [k] == [k];
    } else {
      assert (s + [k])[1..] == s[1..] + [k];
      BehindLast(s[1..], k);
    }
  }

  lemma BehindTail(s: seq<Key>, x: Key)
    requires Distinct(s) && s != [] && x in s[1..]
    ensures Behind(s[1..], x) == Behind(s, x)
  {
    DistinctTail(s);
  }

  /** Moving a key to the recent end adds it to what was used since each other key. */
  lemma MovedToEnd(s: seq<Key>, k: Key)
    requires Distinct(s)
    ensures var t := Without(s, k) + [k];
      && Distinct(t) && Members(t) == Members(s) + {k} && Behind(t, k) == {}
      && forall x | x in s && x != k :: Behind(t, x) == Behind(s, x) + {k}
  {
    WithoutFacts(s, k);
    WithoutMember(s, k);
    BehindLast(Without(s, k), k);
    forall x | x in s && x != k ensures Behind(Without(s, k) + [k], x) == Behind(s, x) + {k} {
      BehindWithout(s, k, x);
      BehindAppend(Without(s, k), k, x);
    }
  }

  lemma OneMoreUse(maxsize: int, before: seq<Op>, op: Op, k: Key)
    ensures UsedSince(maxsize, before + [op], k) ==
            if !Uses(maxsize, before, op) then UsedSince(maxsize, before, k)
            else if op.key == k then Some({})
            else if UsedSince(maxsize, before, k).None? then None
            else Some(UsedSince(maxsize, before, k).value + {op.key})
  {
    assert (before + [op])[..|before|] == before;
  }

  lemma KeptIffStored(maxsize: int, ops: seq<Op>, c: Cache, k: Key)
    requires Explained(maxsize, ops, c)
    ensures Kept(maxsize, ops, k) <==> k in c.values
  {
    if k in c.order {
      BehindFacts(c.order, k);
    }
  }

  lemma StaysLost(maxsize: int, before: seq<Op>, op: Op, k: Key)
    requires !Kept(maxsize, before, k) && !(Uses(maxsize, before, op) && op.key == k)
    ensures !Kept(maxsize, before + [op], k)
  {
    OneMoreUse(maxsize, before, op, k);
    var used := UsedSince(maxsize, before, k);
    if used.Some? {
      Grows(used.value, op.key);
    }
  }

  lemma Grows(s: set<Key>, k: Key)
    ensures |s + {k}| >= |s|
  {
    if k !in s {
      assert s + {k} - {k} == s;
    } else {
      assert s + {k} == s;
    }
  }

  lemma MissChangesNothing(maxsize: int, before: seq<Op>, op: Op, c: Cache)
    requires Explained(maxsize, before, c) && op.Get? && op.key !in c.values
    ensures Explained(maxsize, before + [op], Step(maxsize, c, op))
  {
    KeptIffStored(maxsize, before, c, op.key);
    forall k ensures UsedSince(maxsize, before + [op], k) == UsedSince(maxsize, before, k) {
      OneMoreUse(maxsize, before, op, k);
    }
  }

  /** The state after a use, before anything is evicted. */
  lemma UseExplained(maxsize: int, before: seq<Op>, op: Op, c: Cache)
    requires Explained(maxsize, before, c) && (op.Set? || op.key in c.values)
    ensures var t := Without(c.order, op.key) + [op.key];
      && (forall k | k in t :: UsedSince(maxsize, before + [op], k) == Some(Behind(t, k)))
      && (forall k | k !in t :: !Kept(maxsize, before + [op], k))
  {
    var t := Without(c.order, op.key) + [op.key];
    MovedToEnd(c.order, op.key);
    KeptIffStored(maxsize, before, c, op.key);
    forall k | k in t ensures UsedSince(maxsize, before + [op], k) == Some(Behind(t, k)) {
      OneMoreUse(maxsize, before, op, k);
      assert k in Members(t);
    }
    forall k | k !in t ensures !Kept(maxsize, before + [op], k) {
      assert k !in Members(t);
      StaysLost(maxsize, before, op, k);
    }
  }

  lemma EvictionExplained(maxsize: int, ops: seq<Op>, t: seq<Key>)
    requires Distinct(t) && t != [] && |t| > maxsize
    requires forall k | k in t :: UsedSince(maxsize, ops, k) == Some(Behind(t, k))
    ensures !Kept(maxsize, ops, t[0])
    ensures forall k | k in t[1..] :: UsedSince(maxsize, ops, k) == Some(Behind(t[1..], k))
  {
    DistinctTail(t);
    MembersSize(t[1..]);
    assert t[0] in t && Behind(t, t[0]) == Members(t[1..]);
    forall k | k in t[1..] ensures UsedSince(maxsize, ops, k) == Some(Behind(t[1..], k)) {
      BehindTail(t, k);
      assert k in t;
    }
  }

  lemma SetExplained(maxsize: int, before: seq<Op>, op: Op, c: Cache)
    requires Explained(maxsize, before, c) && op.Set?
    ensures Explained(maxsize, before + [op], Step(maxsize, c, op))
  {
    var t := Without(c.order, op.key) + [op.key];
    SetKeepsWellFormed(c, maxsize, op.key, op.value);
    UseExplained(maxsize, before, op, c);
    MovedToEnd(c.order, op.key);
    if |t| > maxsize {
      EvictionExplained(maxsize, before + [op], t);
      forall k | k !in t[1..] ensures !Kept(maxsize, before + [op], k) {
        assert k == t[0] || k !in t;
      }
    }
  }

  lemma HitExplained(maxsize: int, before: seq<Op>, op: Op, c: Cache)
    requires Explained(maxsize, before, c) && op.Get? && op.key in c.values
    ensures Explained(maxsize, before + [op], Step(maxsize, c, op))
  {
    GetKeepsWellFormed(c, op.key);
    UseExplained(maxsize, before, op, c);
  }

  lemma {:induction false} RunExplained(maxsize: int, ops: seq<Op>)
    ensures Explained(maxsize, ops, After(maxsize, ops))
  {
    if ops != [] {
      var before, op := ops[..|ops| - 1], ops[|ops| - 1];
      var c := After(maxsize, before);
      RunExplained(maxsize, before);
      assert ops == before + [op];
      if op.Set? {
        SetExplained(maxsize, before, op, c);
      } else if op.key in c.values {
        HitExplained(maxsize, before, op, c);
      } else {
        MissChangesNothing(maxsize, before, op, c);
      }
    }
  }

  /** After any operations, `Get` answers with the value of the last `Set` of the key, if fewer than `maxsize` other
      keys were set or found since the key last was; otherwise it answers with nothing. */
  lemma GetAnswers(maxsize: int, ops: seq<Op>, k: Key)
    ensures CacheGet(After(maxsize, ops), k).1 == if Kept(maxsize, ops, k) then LastSet(ops, k) else None
  {
    RunExplained(maxsize, ops);
    KeptIffStored(maxsize, ops, After(maxsize, ops), k);
    StoredIsLastSet(maxsize, ops);
  }
}
