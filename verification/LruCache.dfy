/** The score cache of `app/simulation_utils.py`: an ordered dictionary whose last key is the most
    recently used one. */
module LruCache {
  import opened Wrappers

  type Key = string

  /** Keys in order of use, oldest first, and their values. */
  datatype Cache = Cache(order: seq<Key>, values: map<Key, real>)

  const EMPTY := Cache([], map[])

  function Without(s: seq<Key>, k: Key): seq<Key> {
    if s == [] then []
    else if s[0] == k then Without(s[1..], k)
    else [s[0]] + Without(s[1..], k)
  }

  function CacheGet(c: Cache, k: Key): (Cache, Option<real>) {
    if k !in c.values then (c, None)
    else (c.(order := Without(c.order, k) + [k]), Some(c.values[k]))
  }

  function CacheSet(c: Cache, maxsize: int, k: Key, v: real): Cache {
    var order, values := Without(c.order, k) + [k], c.values[k := v];
    if |order| > maxsize then Cache(order[1..], values - {order[0]}) else Cache(order, values)
  }

  ghost predicate Distinct(s: seq<Key>) {
    forall i, j | 0 <= i < j < |s| :: s[i] != s[j]
  }

  ghost predicate WellFormed(c: Cache) {
    Distinct(c.order) && forall k :: k in c.order <==> k in c.values
  }

  lemma {:induction false} WithoutMember(s: seq<Key>, k: Key)
    ensures forall x :: x in Without(s, k) <==> x in s && x != k
    ensures k !in s ==> Without(s, k) == s
  {
    if s != [] {
      WithoutMember(s[1..], k);
      assert s == [s[0]] + s[1..];
    }
  }

  lemma WithoutFacts(s: seq<Key>, k: Key)
    requires Distinct(s)
    ensures Distinct(Without(s, k)) && k !in Without(s, k)
    ensures |Without(s, k)| == (if k in s then |s| - 1 else |s|)
  {
    WithoutMember(s, k);
    WithoutDistinct(s, k);
    WithoutSize(s, k);
  }

  lemma {:induction false} WithoutDistinct(s: seq<Key>, k: Key)
    requires Distinct(s)
    ensures Distinct(Without(s, k))
  {
    if s != [] {
      DistinctTail(s);
      WithoutDistinct(s[1..], k);
      if s[0] != k {
        WithoutMember(s[1..], k);
        DistinctCons(s[0], Without(s[1..], k));
      }
    }
  }

  lemma {:induction false} WithoutSize(s: seq<Key>, k: Key)
    requires Distinct(s)
    ensures |Without(s, k)| == (if k in s then |s| - 1 else |s|)
  {
    if s != [] {
      DistinctTail(s);
      WithoutSize(s[1..], k);
      assert k in s <==> k == s[0] || k in s[1..];
    }
  }

  lemma DistinctTail(s: seq<Key>)
    requires s != [] && Distinct(s)
    ensures Distinct(s[1..]) && s[0] !in s[1..]
  {
  }

  lemma DistinctCons(x: Key, s: seq<Key>)
    requires Distinct(s) && x !in s
    ensures Distinct([x] + s)
  {
  }

  lemma SetKeepsWellFormed(c: Cache, maxsize: int, k: Key, v: real)
    requires WellFormed(c) && |c.order| <= (if maxsize < 0 then 0 else maxsize)
    ensures WellFormed(CacheSet(c, maxsize, k, v))
    ensures |CacheSet(c, maxsize, k, v).order| <= if maxsize < 0 then 0 else maxsize
  {
    WithoutFacts(c.order, k);
    WithoutMember(c.order, k);
    var order, values := Without(c.order, k) + [k], c.values[k := v];
    assert WellFormed(Cache(order, values));
    if |order| > maxsize {
      PopOldest(order, values);
    }
  }

  lemma PopOldest(order: seq<Key>, values: map<Key, real>)
    requires order != [] && WellFormed(Cache(order, values))
    ensures WellFormed(Cache(order[1..], values - {order[0]}))
  {
    assert forall x :: x in order <==> x == order[0] || x in order[1..];
  }

  lemma GetKeepsWellFormed(c: Cache, k: Key)
    requires WellFormed(c)
    ensures WellFormed(CacheGet(c, k).0) && |CacheGet(c, k).0.order| == |c.order|
  {
    WithoutFacts(c.order, k);
    WithoutMember(c.order, k);
  }

  class LRUCache {
    const maxsize: int
    var order: seq<Key>
    var values: map<Key, real>

    ghost predicate Valid()
      reads this
    {
      WellFormed(View()) && |order| <= if maxsize < 0 then 0 else maxsize
    }

    ghost function View(): Cache
      reads this
    {
      Cache(order, values)
    }

    constructor (maxsize: int)
      ensures Valid() && View() == EMPTY && this.maxsize == maxsize
    {
      this.maxsize := maxsize;
      order, values := [], map[];
    }

    method MoveToEnd(key: Key)
      requires key in order
      modifies this`order
      ensures order == Without(old(order), key) + [key]
    {
      order := Without(order, key) + [key];
    }

    method Get(key: Key) returns (score: Option<real>)
      requires Valid()
      modifies this
      ensures Valid() && (View(), score) == CacheGet(old(View()), key)
    {
      GetKeepsWellFormed(View(), key);
      if key !in values {
        return None;
      }
      MoveToEnd(key);
      return Some(values[key]);
    }

    method Set(key: Key, value: real)
      requires Valid()
      modifies this
      ensures Valid() && View() == CacheSet(old(View()), maxsize, key, value)
    {
      SetKeepsWellFormed(View(), maxsize, key, value);
      AppendThenRemove(order, key);
      if key !in values {
        order := order + [key];
      }
      values := values[key := value];
      MoveToEnd(key);
      if |order| > maxsize {
        values := values - {order[0]};
        order := order[1..];
      }
    }
  }

  lemma {:induction false} AppendThenRemove(s: seq<Key>, k: Key)
    ensures Without(s + [k], k) == Without(s, k)
  {
    if s == [] {
      assert s + [k] == [k];
    } else {
      AppendThenRemove(s[1..], k);
      assert (s + [k])[1..] == s[1..] + [k];
    }
  }

  // Runs of one sequence of operations against caches of different sizes.

  datatype Op = Get(key: Key) | Set(key: Key, value: real)

  function Step(maxsize: int, c: Cache, op: Op): Cache {
    match op
    case Get(k) => CacheGet(c, k).0
    case Set(k, v) => CacheSet(c, maxsize, k, v)
  }

  function After(maxsize: int, ops: seq<Op>): Cache {
    if ops == [] then EMPTY else Step(maxsize, After(maxsize, ops[..|ops| - 1]), ops[|ops| - 1])
  }

  /** The value of the last `Set` of `k`. */
  function LastSet(ops: seq<Op>, k: Key): Option<real> {
    if ops == [] then None
    else
      var last := ops[|ops| - 1];
      if last.Set? && last.key == k then Some(last.value) else LastSet(ops[..|ops| - 1], k)
  }

  predicate IsSubsequence(a: seq<Key>, b: seq<Key>)
    decreases |b|
  {
    a == [] || (b != [] && ((a[0] == b[0] && IsSubsequence(a[1..], b[1..])) || IsSubsequence(a, b[1..])))
  }

  /** Size never exceeds the maximum, and every stored value is the last one set. */
  lemma {:induction false} StoredIsLastSet(maxsize: int, ops: seq<Op>)
    ensures var c := After(maxsize, ops);
      && WellFormed(c)
      && |c.order| <= (if maxsize < 0 then 0 else maxsize)
      && forall k | k in c.values :: LastSet(ops, k) == Some(c.values[k])
  {
    if ops != [] {
      var before := ops[..|ops| - 1];
      StoredIsLastSet(maxsize, before);
      var c, op := After(maxsize, before), ops[|ops| - 1];
      if op.Get? {
        GetKeepsWellFormed(c, op.key);
      } else {
        SetKeepsWellFormed(c, maxsize, op.key, op.value);
      }
    }
  }

  lemma {:induction false} SubsequenceFacts(a: seq<Key>, b: seq<Key>)
    requires IsSubsequence(a, b)
    ensures |a| <= |b| && forall k | k in a :: k in b
    ensures a != [] ==> IsSubsequence(a[1..], b[1..])
    decreases |b|
  {
    if a != [] {
      assert a == [a[0]] + a[1..];
      if a[0] == b[0] && IsSubsequence(a[1..], b[1..]) {
        SubsequenceFacts(a[1..], b[1..]);
      } else {
        SubsequenceFacts(a, b[1..]);
      }
    }
  }

  lemma {:induction false} SubsequenceRemove(a: seq<Key>, b: seq<Key>, k: Key)
    requires IsSubsequence(a, b)
    ensures IsSubsequence(Without(a, k), Without(b, k))
    decreases |b|
  {
    if a != [] {
      var b' := Without(b[1..], k);
      assert b[0] != k ==> Without(b, k)[0] == b[0] && Without(b, k)[1..] == b';
      if a[0] == b[0] && IsSubsequence(a[1..], b[1..]) {
        SubsequenceRemove(a[1..], b[1..], k);
        assert a[0] != k ==> Without(a, k)[0] == a[0] && Without(a, k)[1..] == Without(a[1..], k);
      } else {
        SubsequenceRemove(a, b[1..], k);
      }
    }
  }

  lemma {:induction false} SubsequenceAppend(a: seq<Key>, b: seq<Key>, k: Key)
    requires IsSubsequence(a, b)
    ensures IsSubsequence(a + [k], b + [k]) && IsSubsequence(a, b + [k])
    decreases |b|
  {
    if b == [] {
      assert a + [k] == [k] && b + [k] == [k];
    } else {
      assert (b + [k])[1..] == b[1..] + [k];
      if a == [] || IsSubsequence(a, b[1..]) {
        SubsequenceAppend(a, b[1..], k);
      } else {
        assert (a + [k])[1..] == a[1..] + [k];
        SubsequenceAppend(a[1..], b[1..], k);
      }
    }
  }

  ghost predicate Fits(c: Cache, size: int) {
    WellFormed(c) && |c.order| <= if size < 0 then 0 else size
  }

  lemma InclusionStep(m: int, n: int, a: Cache, b: Cache, op: Op)
    requires m <= n && Fits(a, m) && Fits(b, n)
    requires IsSubsequence(a.order, b.order) && (|a.order| < m ==> a == b)
    ensures IsSubsequence(Step(m, a, op).order, Step(n, b, op).order)
    ensures |Step(m, a, op).order| < m ==> Step(m, a, op) == Step(n, b, op)
  {
    var k := op.key;
    var a', b' := Without(a.order, k), Without(b.order, k);
    WithoutFacts(a.order, k);
    WithoutFacts(b.order, k);
    WithoutMember(a.order, k);
    SubsequenceFacts(a.order, b.order);
    SubsequenceRemove(a.order, b.order, k);
    SubsequenceFacts(a', b');
    SubsequenceAppend(a', b', k);
    SubsequenceFacts(a' + [k], b' + [k]);
  }

  /** LRU inclusion: driven by the same operations, the smaller cache keeps a subsequence of the
      larger one's keys, and a smaller cache with room left has lost nothing. */
  lemma {:induction false} Inclusion(m: int, n: int, ops: seq<Op>)
    requires m <= n
    ensures IsSubsequence(After(m, ops).order, After(n, ops).order)
    ensures |After(m, ops).order| < m ==> After(m, ops) == After(n, ops)
    ensures forall k | k in After(m, ops).values ::
              k in After(n, ops).values && After(n, ops).values[k] == After(m, ops).values[k]
  {
    StoredIsLastSet(m, ops);
    StoredIsLastSet(n, ops);
    if ops != [] {
      var before, op := ops[..|ops| - 1], ops[|ops| - 1];
      var a, b := After(m, before), After(n, before);
      Inclusion(m, n, before);
      StoredIsLastSet(m, before);
      StoredIsLastSet(n, before);
      InclusionStep(m, n, a, b, op);
    }
    forall k | k in After(m, ops).values
      ensures k in After(n, ops).values && After(n, ops).values[k] == After(m, ops).values[k]
    {
      SubsequenceFacts(After(m, ops).order, After(n, ops).order);
    }
  }
}
