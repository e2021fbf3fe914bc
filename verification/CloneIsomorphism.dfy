/** What the copy made by `clone_dna_for_simulation` is: an isomorphic graph of new objects. */
module CloneIsomorphism {
  import opened CloneGraph
  import opened Wrappers

  ghost predicate Edge(g: Heap, a: Id, b: Id) {
    a in g && b in g && Ref(b) in g[a].slots
  }

  ghost predicate Path(g: Heap, p: seq<Id>) {
    forall i | 0 <= i < |p| - 1 :: Edge(g, p[i], p[i + 1])
  }

  /** A path of at least one edge leads from `a` to `b`. */
  ghost predicate Reaches(g: Heap, a: Id, b: Id) {
    exists p :: |p| >= 2 && p[0] == a && p[|p| - 1] == b && Path(g, p)
  }

  ghost predicate Reachable(g: Heap, root: Id, o: Id) {
    o in g && (o == root || Reaches(g, root, o))
  }

  ghost predicate NoTupleCycle(g: Heap, root: Id) {
    forall t | Reachable(g, root, t) && g[t].Tuple? :: !Reaches(g, t, t)
  }

  ghost predicate HasUnsupported(g: Heap, root: Id) {
    exists o :: Reachable(g, root, o) && Unsupported in g[o].slots
  }

  /** `x` is the copy of `root` in `h` under the one-to-one correspondence `m`: exactly the reachable
      objects are copied, each to a new object of the same kind, with the same keys and
      corresponding slots in the same order. */
  ghost predicate IsomorphicCopy(g: Heap, h: Heap, root: Id, x: Value, m: map<Id, Id>) {
    && root in m && x == Ref(m[root])
    && (forall o :: o in m <==> Reachable(g, root, o))
    && (forall o | o in m :: m[o] in h && m[o] !in g)
    && (forall o, p | o in m && p in m && m[o] == m[p] :: o == p)
    && (forall o | o in m :: h[m[o]] == Renamed(g[o], m))
  }

  function RenamedValue(v: Value, m: map<Id, Id>): Value {
    if v.Ref? && v.id in m then Ref(m[v.id]) else v
  }

  function Renamed(o: Obj, m: map<Id, Id>): Obj {
    var slots := seq(|o.slots|, i requires 0 <= i < |o.slots| => RenamedValue(o.slots[i], m));
    match o
    case Dict(keys, _) => Dict(keys, slots)
    case List(_) => List(slots)
    case Tuple(_) => Tuple(slots)
  }

  lemma EdgeReaches(g: Heap, a: Id, b: Id)
    requires Edge(g, a, b)
    ensures Reaches(g, a, b)
  {
    var p := [a, b];
    assert Path(g, p) && p[0] == a && p[|p| - 1] == b;
  }

  lemma ReachesFurther(g: Heap, a: Id, b: Id, c: Id)
    requires Reaches(g, a, b) && Edge(g, b, c)
    ensures Reaches(g, a, c)
  {
    var p :| |p| >= 2 && p[0] == a && p[|p| - 1] == b && Path(g, p);
    var q := p + [c];
    forall i | 0 <= i < |q| - 1 ensures Edge(g, q[i], q[i + 1]) {
      if i < |p| - 1 {
        assert Edge(g, p[i], p[i + 1]);
      }
    }
    assert q[0] == a && q[|q| - 1] == c;
  }

  lemma ReachableFurther(g: Heap, root: Id, b: Id, c: Id)
    requires Reachable(g, root, b) && Edge(g, b, c)
    ensures Reachable(g, root, c)
  {
    if b == root {
      EdgeReaches(g, b, c);
    } else {
      ReachesFurther(g, root, b, c);
    }
  }

  lemma {:induction false} PathStaysIn(g: Heap, p: seq<Id>, within: set<Id>)
    requires Path(g, p) && p != [] && p[0] in within
    requires forall a, b | a in within && Edge(g, a, b) :: b in within
    ensures p[|p| - 1] in within
    decreases |p|
  {
    if |p| > 1 {
      assert Edge(g, p[0], p[1]);
      assert Path(g, p[1..]) by {
        forall i | 0 <= i < |p[1..]| - 1 ensures Edge(g, p[1..][i], p[1..][i + 1]) {
          assert Edge(g, p[i + 1], p[i + 2]);
        }
      }
      PathStaysIn(g, p[1..], within);
    }
  }

  lemma ReachableStaysIn(g: Heap, root: Id, o: Id, within: set<Id>)
    requires Reachable(g, root, o) && root in within
    requires forall a, b | a in within && Edge(g, a, b) :: b in within
    ensures o in within
  {
    if o != root {
      var p :| |p| >= 2 && p[0] == root && p[|p| - 1] == o && Path(g, p);
      PathStaysIn(g, p, within);
    }
  }

  /** The copy shares no object with its source: everything reachable from it is new. */
  lemma CopySharesNothing(g: Heap, h: Heap, root: Id, x: Value, m: map<Id, Id>, y: Id)
    requires Closed(g) && IsomorphicCopy(g, h, root, x, m) && Reachable(h, x.id, y)
    ensures y !in g
  {
    var copies := set o | o in m :: m[o];
    forall a, b | a in copies && Edge(h, a, b) ensures b in copies {
      var o :| o in m && m[o] == a;
      var i :| 0 <= i < |h[a].slots| && h[a].slots[i] == Ref(b);
      var v := g[o].slots[i];
      assert Ref(b) == RenamedValue(v, m) && Within(g, v);
      assert Edge(g, o, v.id);
      ReachableFurther(g, root, o, v.id);
      assert v.id in m && m[v.id] == b;
    }
    ReachableStaysIn(h, x.id, y, copies);
  }

  // The state of a copy in progress.

  function MemoValue(v: Value, memo: map<Id, Value>): Value {
    if v.Ref? && v.id in memo then memo[v.id] else v
  }

  /** `v` was copied; if the copy is to be tidy, it was not a tuple still being collected. */
  ghost predicate Settled(g: Heap, s: Store, tidy: bool, open: set<Id>, v: Value) {
    v != Unsupported && (v.Ref? ==> v.id in g && v.id in s.memo && (tidy && g[v.id].Tuple? ==> v.id !in open))
  }

  ghost predicate Matches(o: Obj, copy: Obj, memo: map<Id, Value>) {
    && |copy.slots| == |o.slots|
    && (forall i | 0 <= i < |o.slots| :: copy.slots[i] == MemoValue(o.slots[i], memo))
    && (match o
        case Dict(keys, _) => copy.Dict? && copy.keys == keys
        case List(_) => copy.List?
        case Tuple(_) => copy.Tuple?)
  }

  ghost predicate Finished(g: Heap, s: Store, tidy: bool, open: set<Id>, o: Id)
    requires o in g && o in s.memo && s.memo[o].Ref? && s.memo[o].id in s.heap
  {
    && (forall i | 0 <= i < |g[o].slots| :: Settled(g, s, tidy, open, g[o].slots[i]))
    && (g[o].Tuple? ==> s.heap[s.memo[o].id].Tuple?)
    && (tidy ==> Matches(g[o], s.heap[s.memo[o].id], s.memo))
  }

  /** A tuple still being collected is represented by its working list. */
  ghost predicate Marked(g: Heap, s: Store, o: Id)
    requires o in g && o in s.memo && s.memo[o].Ref? && s.memo[o].id in s.heap
  {
    g[o].Tuple? ==> s.heap[s.memo[o].id].List?
  }

  /** `open` holds the objects entered and not yet finished. */
  ghost predicate Inv(g: Heap, root: Id, tidy: bool, s: Store, open: set<Id>) {
    && Sane(g, s) && open <= s.memo.Keys
    && (forall o | o in s.memo :: Reachable(g, root, o))
    && (forall o, p | o in s.memo && p in s.memo && s.memo[o] == s.memo[p] :: o == p)
    && (forall o {:trigger Finished(g, s, tidy, open, o)} | o in s.memo && o !in open :: Finished(g, s, tidy, open, o))
    && (forall o {:trigger Marked(g, s, o)} | o in open :: Marked(g, s, o))
  }

  ghost predicate Approach(g: Heap, root: Id, open: set<Id>, v: Value) {
    v.Ref? ==> Reachable(g, root, v.id) && forall t | t in open :: Reaches(g, t, v.id)
  }

  lemma EnterKeepsInv(g: Heap, root: Id, tidy: bool, s: Store, open: set<Id>, id: Id)
    requires Closed(g) && Inv(g, root, tidy, s, open) && Reachable(g, root, id) && id !in s.memo
    ensures Inv(g, root, tidy, Enter(s, id, g[id]), open + {id})
  {
    var s1 := Enter(s, id, g[id]);
    EnterSane(g, s, id, g[id]);
    forall o | o in open + {id} ensures Marked(g, s1, o) {
      if o != id {
        assert Marked(g, s, o);
      }
    }
    forall o | o in s1.memo && o !in open + {id} ensures Finished(g, s1, tidy, open + {id}, o) {
      assert Finished(g, s, tidy, open, o);
      forall i | 0 <= i < |g[o].slots| ensures Settled(g, s1, tidy, open + {id}, g[o].slots[i]) {
        assert Settled(g, s, tidy, open, g[o].slots[i]);
      }
      if tidy {
        forall i | 0 <= i < |g[o].slots|
          ensures s1.heap[s1.memo[o].id].slots[i] == MemoValue(g[o].slots[i], s1.memo)
        {
          assert Settled(g, s, tidy, open, g[o].slots[i]);
        }
      }
    }
  }

  /** A write to an object still being filled disturbs no finished copy. */
  lemma WriteKeepsInv(g: Heap, root: Id, tidy: bool, s: Store, open: set<Id>, id: Id, n: Id, x: Obj)
    requires Inv(g, root, tidy, s, open) && id in open && s.memo[id] == Ref(n)
    requires g[id].Tuple? ==> x.List?
    ensures Inv(g, root, tidy, s.(heap := s.heap[n := x]), open)
  {
    var s1 := s.(heap := s.heap[n := x]);
    forall o | o in open ensures Marked(g, s1, o) {
      assert Marked(g, s, o);
    }
    forall o | o in s1.memo && o !in open ensures Finished(g, s1, tidy, open, o) {
      assert Finished(g, s, tidy, open, o);
      assert s.memo[o] != s.memo[id];
      forall i | 0 <= i < |g[o].slots| ensures Settled(g, s1, tidy, open, g[o].slots[i]) {
        assert Settled(g, s, tidy, open, g[o].slots[i]);
      }
    }
  }

  /** The first |done| slots of `id` were copied into `done`. */
  ghost predicate FilledTo(g: Heap, s: Store, tidy: bool, open: set<Id>, o: Obj, done: seq<Value>) {
    && |done| <= |o.slots|
    && (forall i | 0 <= i < |done| ::
          Settled(g, s, tidy, open, o.slots[i]) && done[i] == MemoValue(o.slots[i], s.memo))
  }

  lemma CloseKeepsInv(g: Heap, root: Id, tidy: bool, s: Store, open: set<Id>, id: Id, n: Id)
    requires Closed(g) && Inv(g, root, tidy, s, open + {id}) && id !in open && id in s.memo && s.memo[id] == Ref(n)
    requires !g[id].Tuple? && |s.heap[n].slots| == |g[id].slots| && s.heap[n] == Partial(g[id], s.heap[n].slots)
    requires FilledTo(g, s, tidy, open + {id}, g[id], s.heap[n].slots)
    ensures Inv(g, root, tidy, s, open)
  {
    forall o | o in open ensures Marked(g, s, o) {
      assert o in open + {id};
    }
    forall o | o in s.memo && o !in open ensures Finished(g, s, tidy, open, o) {
      if o != id {
        assert Finished(g, s, tidy, open + {id}, o);
      }
      forall i | 0 <= i < |g[o].slots| ensures Settled(g, s, tidy, open, g[o].slots[i]) {
        assert Settled(g, s, tidy, open + {id}, g[o].slots[i]);
      }
    }
  }

  lemma FreezeKeepsInv(g: Heap, root: Id, tidy: bool, s: Store, open: set<Id>, id: Id, n: Id)
    requires Closed(g) && Inv(g, root, tidy, s, open + {id}) && id !in open && id in s.memo && s.memo[id] == Ref(n)
    requires g[id].Tuple? && |s.heap[n].slots| == |g[id].slots|
    requires FilledTo(g, s, tidy, open + {id}, g[id], s.heap[n].slots)
    ensures Inv(g, root, tidy, Freeze(s, id, n), open)
  {
    var s1 := Freeze(s, id, n);
    FreezeSane(g, s, id, n);
    forall o | o in open ensures Marked(g, s1, o) {
      assert Marked(g, s, o);
    }
    forall o | o in s1.memo && o !in open ensures Finished(g, s1, tidy, open, o) {
      if o != id {
        assert Finished(g, s, tidy, open + {id}, o);
      }
      forall i | 0 <= i < |g[o].slots| ensures Settled(g, s1, tidy, open, g[o].slots[i]) {
        assert Settled(g, s, tidy, open + {id}, g[o].slots[i]);
      }
      if tidy {
        forall i | 0 <= i < |g[o].slots|
          ensures MemoValue(g[o].slots[i], s1.memo) == MemoValue(g[o].slots[i], s.memo)
        {
          assert Settled(g, s, tidy, open + {id}, g[o].slots[i]);
        }
      }
    }
  }

  lemma {:induction false} CloneKeepsInv(g: Heap, root: Id, tidy: bool, s: Store, open: set<Id>, v: Value)
    requires Closed(g) && Inv(g, root, tidy, s, open) && Within(g, v) && Approach(g, root, open, v)
    requires tidy ==> !Meets(g, s, v)
    ensures var (s', r) := Clone(g, s, v);
      && (r.Some? ==> Inv(g, root, tidy, s', open) && Settled(g, s', tidy, open, v) && r.value == MemoValue(v, s'.memo))
      && (r.None? ==> v == Unsupported || HasUnsupported(g, root))
    decreases g.Keys - s.memo.Keys, 1
  {
    if v.Ref? {
      if v.id in s.memo {
        MeetsInMemo(g, s, v.id);
        MemoIsSettled(g, root, tidy, s, open, v.id);
      } else {
        VisitKeepsInv(g, root, tidy, s, open, v.id);
      }
    }
  }

  lemma MemoIsSettled(g: Heap, root: Id, tidy: bool, s: Store, open: set<Id>, id: Id)
    requires Inv(g, root, tidy, s, open) && id in s.memo
    requires tidy ==> !(g[id].Tuple? && s.heap[s.memo[id].id].List?)
    ensures Settled(g, s, tidy, open, Ref(id)) && s.memo[id] == MemoValue(Ref(id), s.memo)
  {
    if id in open {
      assert Marked(g, s, id);
    }
  }

  lemma {:induction false} VisitKeepsInv(g: Heap, root: Id, tidy: bool, s: Store, open: set<Id>, id: Id)
    requires Closed(g) && Inv(g, root, tidy, s, open) && Approach(g, root, open, Ref(id)) && id !in s.memo
    requires tidy ==> !Meets(g, s, Ref(id))
    ensures var (s', r) := Clone(g, s, Ref(id));
      && (r.Some? ==> && Inv(g, root, tidy, s', open) && Settled(g, s', tidy, open, Ref(id))
                      && r.value == MemoValue(Ref(id), s'.memo))
      && (r.None? ==> HasUnsupported(g, root))
    decreases g.Keys - s.memo.Keys, 0
  {
    var n, s1 := s.next, Enter(s, id, g[id]);
    VisitStep(g, s, id);
    MeetsStep(g, s, id);
    EnterKeepsInv(g, root, tidy, s, open, id);
    EnteredFacts(g, root, tidy, s, open, id);
    FillKeepsInv(g, root, tidy, s1, open + {id}, id, n, []);
    var (s2, ok) := Fill(g, s1, g[id], n, []);
    if ok {
      if g[id].Tuple? {
        FreezeKeepsInv(g, root, tidy, s2, open, id, n);
      } else {
        CloseKeepsInv(g, root, tidy, s2, open, id, n);
      }
    }
  }

  lemma EnteredFacts(g: Heap, root: Id, tidy: bool, s: Store, open: set<Id>, id: Id)
    requires Approach(g, root, open, Ref(id)) && id in g && (g[id].Dict? ==> |g[id].keys| == |g[id].slots|)
    ensures var s1 := Enter(s, id, g[id]);
      && s1.memo[id] == Ref(s.next) && s1.heap[s.next] == Partial(g[id], []) && s1.next == s.next + 1
      && FilledTo(g, s1, tidy, open + {id}, g[id], [])
      && (forall t | t in open + {id} :: t == id || Reaches(g, t, id))
  {
  }

  lemma {:induction false} FillKeepsInv(
    g: Heap, root: Id, tidy: bool, s: Store, open: set<Id>, id: Id, n: Id, done: seq<Value>)
    requires Closed(g) && Inv(g, root, tidy, s, open) && id in open && s.memo[id] == Ref(n)
    requires forall t | t in open :: t == id || Reaches(g, t, id)
    requires FilledTo(g, s, tidy, open, g[id], done) && s.heap[n] == Partial(g[id], done)
    requires tidy ==> !FillMeets(g, s, g[id], n, done)
    ensures var (s', ok) := Fill(g, s, g[id], n, done);
      && (ok ==> && Inv(g, root, tidy, s', open) && s'.memo[id] == Ref(n)
                 && FilledTo(g, s', tidy, open, g[id], s'.heap[n].slots))
      && (!ok ==> HasUnsupported(g, root))
    decreases g.Keys - s.memo.Keys, |g[id].slots| - |done| + 2
  {
    if |done| < |g[id].slots| {
      var v := g[id].slots[|done|];
      FillStep(g, s, g[id], n, done);
      FillMeetsStep(g, s, g[id], n, done);
      SlotApproach(g, root, open, id, v);
      CloneKeepsInv(g, root, tidy, s, open, v);
      var (s1, x) := Clone(g, s, v);
      if x.Some? {
        var done' := done + [x.value];
        SlotKeepsInv(g, root, tidy, s, open, id, n, done, s1, x.value);
        FillKeepsInv(g, root, tidy, s1.(heap := s1.heap[n := Partial(g[id], done')]), open, id, n, done');
      }
    }
  }

  lemma SlotApproach(g: Heap, root: Id, open: set<Id>, id: Id, v: Value)
    requires Reachable(g, root, id) && v in g[id].slots && Within(g, v)
    requires forall t | t in open :: t == id || Reaches(g, t, id)
    ensures Approach(g, root, open, v)
  {
    if v.Ref? {
      assert Edge(g, id, v.id);
      ReachableFurther(g, root, id, v.id);
      forall t | t in open ensures Reaches(g, t, v.id) {
        if t == id { EdgeReaches(g, id, v.id); } else { ReachesFurther(g, t, id, v.id); }
      }
    }
  }

  lemma SlotKeepsInv(
    g: Heap, root: Id, tidy: bool, s: Store, open: set<Id>, id: Id, n: Id, done: seq<Value>, s1: Store, x: Value)
    requires Inv(g, root, tidy, s1, open) && id in open && s1.memo[id] == Ref(n) && Extends(s, s1, None)
    requires |done| < |g[id].slots| && FilledTo(g, s, tidy, open, g[id], done)
    requires g[id].Dict? ==> |g[id].keys| == |g[id].slots|
    requires Settled(g, s1, tidy, open, g[id].slots[|done|]) && x == MemoValue(g[id].slots[|done|], s1.memo)
    ensures var s2 := s1.(heap := s1.heap[n := Partial(g[id], done + [x])]);
      Inv(g, root, tidy, s2, open) && FilledTo(g, s2, tidy, open, g[id], done + [x])
  {
    var done' := done + [x];
    WriteKeepsInv(g, root, tidy, s1, open, id, n, Partial(g[id], done'));
    var s2 := s1.(heap := s1.heap[n := Partial(g[id], done')]);
    forall i | 0 <= i < |done'|
      ensures Settled(g, s2, tidy, open, g[id].slots[i]) && done'[i] == MemoValue(g[id].slots[i], s2.memo)
    {
      if i < |done| {
        assert Settled(g, s, tidy, open, g[id].slots[i]);
      }
    }
  }

  // The whole copy.

  lemma FlatRoot(g: Heap, root: Id, o: Id)
    requires root in g && forall i | 0 <= i < |g[root].slots| :: g[root].slots[i].Atom?
    requires Reachable(g, root, o)
    ensures o == root
  {
    ReachableStaysIn(g, root, o, {root});
  }

  lemma EverythingCopied(g: Heap, root: Id, tidy: bool, s: Store, o: Id)
    requires Inv(g, root, tidy, s, {}) && root in s.memo && Reachable(g, root, o)
    ensures o in s.memo && Unsupported !in g[o].slots
  {
    forall a, b | a in s.memo.Keys && Edge(g, a, b) ensures b in s.memo.Keys {
      assert Finished(g, s, tidy, {}, a);
      var i :| 0 <= i < |g[a].slots| && g[a].slots[i] == Ref(b);
      assert Settled(g, s, tidy, {}, g[a].slots[i]);
    }
    ReachableStaysIn(g, root, o, s.memo.Keys);
    assert Finished(g, s, tidy, {}, o);
    forall i | 0 <= i < |g[o].slots| ensures g[o].slots[i] != Unsupported {
      assert Settled(g, s, tidy, {}, g[o].slots[i]);
    }
  }

  function Correspondence(s: Store): map<Id, Id> {
    map o | o in s.memo && s.memo[o].Ref? :: s.memo[o].id
  }

  lemma MemoIsIsomorphism(g: Heap, root: Id, s: Store)
    requires Closed(g) && Inv(g, root, true, s, {}) && root in s.memo
    ensures IsomorphicCopy(g, s.heap, root, s.memo[root], Correspondence(s))
  {
    var m := Correspondence(s);
    forall o ensures o in m <==> Reachable(g, root, o) {
      if Reachable(g, root, o) {
        EverythingCopied(g, root, true, s, o);
      }
    }
    forall o | o in m ensures s.heap[m[o]] == Renamed(g[o], m) {
      assert Finished(g, s, true, {}, o);
      var copy := s.heap[m[o]];
      assert Matches(g[o], copy, s.memo);
      forall i | 0 <= i < |g[o].slots| ensures copy.slots[i] == RenamedValue(g[o].slots[i], m) {
        assert Settled(g, s, true, {}, g[o].slots[i]);
      }
      assert copy.slots == Renamed(g[o], m).slots;
    }
  }

  predicate Flat(g: Heap, root: Id)
    requires root in g
  {
    forall i | 0 <= i < |g[root].slots| :: g[root].slots[i].Atom?
  }

  /** The copy of the graph under `root` comes upon a tuple still being collected. */
  ghost predicate MeetsOpenTuple(g: Heap, root: Id, next: Id)
    requires Closed(g) && root in g && g[root].Dict? && forall o | o in g :: o < next
  {
    !Flat(g, root) && Meets(g, Store(g, map[], next), Ref(root))
  }

  /** The copy fails exactly when something of an unsupported type is reachable; it never changes the source;
      and a copy that comes upon no tuple still being collected is isomorphic. */
  lemma CopyWithoutMeeting(g: Heap, root: Id, next: Id)
    requires Closed(g) && root in g && g[root].Dict? && forall o | o in g :: o < next
    ensures var (s, r) := ClonedDna(g, root, next);
      && (r.None? <==> HasUnsupported(g, root))
      && (forall o | o in g :: o in s.heap && s.heap[o] == g[o])
      && (r.Some? && !MeetsOpenTuple(g, root, next) ==> exists m :: IsomorphicCopy(g, s.heap, root, r.value, m))
  {
    var (s, r) := ClonedDna(g, root, next);
    if Flat(g, root) {
      FlatClone(g, root, next);
    } else {
      var tidy := !MeetsOpenTuple(g, root, next);
      CloneKeepsInv(g, root, tidy, Store(g, map[], next), {}, Ref(root));
      if r.Some? {
        forall o | Reachable(g, root, o) ensures Unsupported !in g[o].slots {
          EverythingCopied(g, root, tidy, s, o);
        }
        if tidy {
          MemoIsIsomorphism(g, root, s);
          assert IsomorphicCopy(g, s.heap, root, r.value, Correspondence(s));
        }
      }
    }
  }

  lemma FlatClone(g: Heap, root: Id, next: Id)
    requires Closed(g) && root in g && g[root].Dict? && forall o | o in g :: o < next
    requires forall i | 0 <= i < |g[root].slots| :: g[root].slots[i].Atom?
    ensures var (s, r) := ClonedDna(g, root, next);
      r.Some? && !HasUnsupported(g, root) && IsomorphicCopy(g, s.heap, root, r.value, map[root := next])
  {
    forall o | Reachable(g, root, o) ensures o == root { FlatRoot(g, root, o); }
    assert Renamed(g[root], map[root := next]).slots == g[root].slots;
  }

  // A meeting spoils the copy: the slot that was given a working list has no counterpart.

  /** `h` holds everything of `s` as it is, except for the objects in `busy`. */
  ghost predicate Preserved(s: Store, h: Heap, busy: set<Id>) {
    forall i | i in s.heap && i !in busy :: i in h && h[i] == s.heap[i]
  }

  /** `m` sends each object to one of `h` with the same shape. */
  ghost predicate Corresponds(g: Heap, root: Id, h: Heap, m: map<Id, Id>) {
    forall o {:trigger Reachable(g, root, o)} :: Reachable(g, root, o) ==>
      o in m && m[o] in h && h[m[o]] == Renamed(g[o], m)
  }

  /** The working lists of the tuples being collected are still lists in `h`. */
  ghost predicate ListsStay(g: Heap, s: Store, open: set<Id>, h: Heap) {
    forall t | t in open && t in g && g[t].Tuple? && t in s.memo && s.memo[t].Ref? ::
      s.memo[t].id in h && h[s.memo[t].id].List?
  }

  lemma CorrespondsAt(g: Heap, root: Id, h: Heap, m: map<Id, Id>, id: Id)
    requires Corresponds(g, root, h, m) && Reachable(g, root, id)
    ensures id in m && m[id] in h && h[m[id]] == Renamed(g[id], m)
  {
  }

  lemma MemoNoMeeting(g: Heap, root: Id, s: Store, open: set<Id>, id: Id, h: Heap, m: map<Id, Id>)
    requires Inv(g, root, false, s, open) && id in s.memo && Reachable(g, root, id)
    requires Corresponds(g, root, h, m) && ListsStay(g, s, open, h) && id in m && s.memo[id] == Ref(m[id])
    ensures !(g[id].Tuple? && s.heap[s.memo[id].id].List?)
  {
    CorrespondsAt(g, root, h, m, id);
    if id !in open {
      assert Finished(g, s, false, open, id);
    }
  }

  /** If the result of copying `v` is what `m` makes of `v`, then no tuple being collected was met. */
  lemma {:induction false} NoMeetingUnder(
    g: Heap, root: Id, s: Store, open: set<Id>, v: Value, h: Heap, m: map<Id, Id>, busy: set<Id>, s': Store, x: Value)
    requires Closed(g) && Inv(g, root, false, s, open) && Within(g, v) && Approach(g, root, open, v)
    requires Corresponds(g, root, h, m) && ListsStay(g, s, open, h) && forall i | i in busy :: i < s.next
    requires Clone(g, s, v) == (s', Some(x)) && x == RenamedValue(v, m) && Preserved(s', h, busy)
    ensures !Meets(g, s, v)
    decreases g.Keys - s.memo.Keys, 1
  {
    if v.Ref? {
      CorrespondsAt(g, root, h, m, v.id);
      if v.id in s.memo {
        MeetsInMemo(g, s, v.id);
        MemoNoMeeting(g, root, s, open, v.id, h, m);
      } else {
        NoMeetingInside(g, root, s, open, v.id, h, m, busy, s', x);
      }
    }
  }

  /** The filling of an object in a copy that will end as `h`. */
  ghost predicate Filling(
    g: Heap, root: Id, s: Store, open: set<Id>, id: Id, n: Id, done: seq<Value>, h: Heap, m: map<Id, Id>,
    busy: set<Id>, final: Store)
    requires Closed(g)
  {
    && Inv(g, root, false, s, open) && id in open && s.memo[id] == Ref(n)
    && (forall t | t in open :: t == id || Reaches(g, t, id))
    && FilledTo(g, s, false, open, g[id], done) && s.heap[n] == Partial(g[id], done)
    && ListsStay(g, s, open, h) && n in busy && (forall i | i in busy :: i < s.next)
    && Fill(g, s, g[id], n, done) == (final, true) && Preserved(final, h, busy) && n in final.heap
    && SlotsRenamed(g[id], final.heap[n].slots, m)
  }

  lemma {:induction false} NoMeetingInside(
    g: Heap, root: Id, s: Store, open: set<Id>, id: Id, h: Heap, m: map<Id, Id>, busy: set<Id>, s': Store, x: Value)
    requires Closed(g) && Inv(g, root, false, s, open) && Approach(g, root, open, Ref(id)) && id !in s.memo
    requires Corresponds(g, root, h, m) && ListsStay(g, s, open, h) && forall i | i in busy :: i < s.next
    requires Clone(g, s, Ref(id)) == (s', Some(x)) && id in m && x == Ref(m[id]) && Preserved(s', h, busy)
    ensures !Meets(g, s, Ref(id))
    decreases g.Keys - s.memo.Keys, 0
  {
    var s1 := Enter(s, id, g[id]);
    var final := EnteredIsFilling(g, root, s, open, id, h, m, busy, s', x);
    NoMeetingInFill(g, root, s1, open + {id}, id, s.next, [], h, m, busy + {s.next}, final);
    MeetsStep(g, s, id);
  }

  lemma EnteredIsFilling(
    g: Heap, root: Id, s: Store, open: set<Id>, id: Id, h: Heap, m: map<Id, Id>, busy: set<Id>, s': Store, x: Value)
    returns (final: Store)
    requires Closed(g) && Inv(g, root, false, s, open) && Approach(g, root, open, Ref(id)) && id !in s.memo
    requires Corresponds(g, root, h, m) && ListsStay(g, s, open, h) && forall i | i in busy :: i < s.next
    requires Clone(g, s, Ref(id)) == (s', Some(x)) && id in m && x == Ref(m[id]) && Preserved(s', h, busy)
    ensures Filling(g, root, Enter(s, id, g[id]), open + {id}, id, s.next, [], h, m, busy + {s.next}, final)
    ensures g.Keys - Enter(s, id, g[id]).memo.Keys < g.Keys - s.memo.Keys
  {
    var s1, n := Enter(s, id, g[id]), s.next;
    CorrespondsAt(g, root, h, m, id);
    VisitStep(g, s, id);
    EnterKeepsInv(g, root, false, s, open, id);
    EnteredFacts(g, root, false, s, open, id);
    final := ClosedObject(g, s, id, h, m, busy, s', x);
    EnteredListsStay(g, s, open, id, h);
    OneMoreBelow(busy, n);
  }

  lemma OneMoreBelow(ids: set<Id>, n: Id)
    requires forall i | i in ids :: i < n
    ensures forall i | i in ids + {n} :: i < n + 1
  {
  }

  /** What the finished object tells of its slots and of its working copy. */
  lemma ClosedObject(g: Heap, s: Store, id: Id, h: Heap, m: map<Id, Id>, busy: set<Id>, s': Store, x: Value)
    returns (final: Store)
    requires Closed(g) && Sane(g, s) && id in g && id !in s.memo && (forall i | i in busy :: i < s.next)
    requires id in m && m[id] in h && h[m[id]] == Renamed(g[id], m)
    requires Clone(g, s, Ref(id)) == (s', Some(x)) && x == Ref(m[id]) && Preserved(s', h, busy)
    requires Sane(g, Enter(s, id, g[id])) && s.next !in g && (g[id].Dict? ==> |g[id].keys| == |g[id].slots|)
    ensures Fill(g, Enter(s, id, g[id]), g[id], s.next, []) == (final, true)
    ensures s.next in final.heap && Preserved(final, h, busy + {s.next})
    ensures SlotsRenamed(g[id], final.heap[s.next].slots, m)
    ensures g[id].Tuple? ==> s.next in h && h[s.next].List?
  {
    VisitStep(g, s, id);
    var n := s.next;
    final := Fill(g, Enter(s, id, g[id]), g[id], n, []).0;
    if g[id].Tuple? {
      FrozenSlots(g, final, id, n, h, m, busy, s');
    } else {
      FilledSlots(g, final, id, n, h, m, busy);
    }
  }

  lemma FilledSlots(g: Heap, s2: Store, id: Id, n: Id, h: Heap, m: map<Id, Id>, busy: set<Id>)
    requires id in g && n in s2.heap && n !in busy && Preserved(s2, h, busy)
    requires id in m && m[id] == n && n in h && h[n] == Renamed(g[id], m)
    ensures SlotsRenamed(g[id], s2.heap[n].slots, m) && Preserved(s2, h, busy + {n})
  {
    assert s2.heap[n] == Renamed(g[id], m);
  }

  ghost predicate SlotsRenamed(o: Obj, slots: seq<Value>, m: map<Id, Id>) {
    |slots| == |o.slots| && forall i | 0 <= i < |o.slots| :: slots[i] == RenamedValue(o.slots[i], m)
  }

  lemma FrozenSlots(g: Heap, s2: Store, id: Id, n: Id, h: Heap, m: map<Id, Id>, busy: set<Id>, s': Store)
    requires Sane(g, s2) && id in g && g[id].Tuple? && n in s2.heap && n !in busy && s2.heap[n].List?
    requires forall i | i in busy :: i < s2.next
    requires s' == Freeze(s2, id, n) && Preserved(s', h, busy)
    requires id in m && m[id] == s2.next && m[id] in h && h[m[id]] == Renamed(g[id], m)
    ensures SlotsRenamed(g[id], s2.heap[n].slots, m) && n in h && h[n].List? && Preserved(s2, h, busy + {n})
  {
    assert n < s2.next && s'.heap[n] == s2.heap[n];
    assert h[s2.next] == s'.heap[s2.next] == Tuple(s2.heap[n].slots);
    assert s2.heap[n].slots == Renamed(g[id], m).slots;
  }

  lemma EnteredListsStay(g: Heap, s: Store, open: set<Id>, id: Id, h: Heap)
    requires ListsStay(g, s, open, h) && id in g && id !in s.memo && (g[id].Dict? ==> |g[id].keys| == |g[id].slots|)
    requires open <= s.memo.Keys
    requires g[id].Tuple? ==> s.next in h && h[s.next].List?
    ensures ListsStay(g, Enter(s, id, g[id]), open + {id}, h)
  {
  }

  lemma {:induction false} NoMeetingInFill(
    g: Heap, root: Id, s: Store, open: set<Id>, id: Id, n: Id, done: seq<Value>, h: Heap, m: map<Id, Id>,
    busy: set<Id>, final: Store)
    requires Closed(g) && Corresponds(g, root, h, m)
    requires Filling(g, root, s, open, id, n, done, h, m, busy, final)
    ensures !FillMeets(g, s, g[id], n, done)
    decreases g.Keys - s.memo.Keys, |g[id].slots| - |done| + 2, 1
  {
    if |done| < |g[id].slots| {
      RestMeetsNothing(g, root, s, open, id, n, done, h, m, busy, final);
    }
  }

  lemma {:induction false} RestMeetsNothing(
    g: Heap, root: Id, s: Store, open: set<Id>, id: Id, n: Id, done: seq<Value>, h: Heap, m: map<Id, Id>,
    busy: set<Id>, final: Store)
    requires Closed(g) && Corresponds(g, root, h, m) && id in g && |done| < |g[id].slots|
    requires Filling(g, root, s, open, id, n, done, h, m, busy, final)
    ensures !FillMeets(g, s, g[id], n, done)
    decreases g.Keys - s.memo.Keys, |g[id].slots| - |done| + 2, 0
  {
    var s1, x, s2 := SlotMeetsNothing(g, root, s, open, id, n, done, h, m, busy, final);
    NoMeetingInFill(g, root, s2, open, id, n, done + [x], h, m, busy, final);
  }

  lemma NothingMetYet(g: Heap, s: Store, id: Id, n: Id, done: seq<Value>, s1: Store, x: Value, s2: Store)
    requires Closed(g) && Sane(g, s) && n in s.heap && n !in g && id in g && |done| < |g[id].slots|
    requires s.heap[n] == Partial(g[id], done) && Clone(g, s, g[id].slots[|done|]) == (s1, Some(x)) && n in s1.heap
    requires s2 == s1.(heap := s1.heap[n := Partial(g[id], done + [x])]) && Sane(g, s2)
    requires !Meets(g, s, g[id].slots[|done|])
    ensures FillMeets(g, s, g[id], n, done) <==> FillMeets(g, s2, g[id], n, done + [x])
  {
    FillMeetsStep(g, s, g[id], n, done);
  }

  lemma {:induction false} SlotMeetsNothing(
    g: Heap, root: Id, s: Store, open: set<Id>, id: Id, n: Id, done: seq<Value>, h: Heap, m: map<Id, Id>,
    busy: set<Id>, final: Store)
    returns (s1: Store, x: Value, s2: Store)
    requires Closed(g) && Corresponds(g, root, h, m)
    requires Filling(g, root, s, open, id, n, done, h, m, busy, final) && |done| < |g[id].slots|
    ensures Clone(g, s, g[id].slots[|done|]) == (s1, Some(x)) && n in s1.heap
    ensures s2 == s1.(heap := s1.heap[n := Partial(g[id], done + [x])])
    ensures g.Keys - s2.memo.Keys <= g.Keys - s.memo.Keys && Sane(g, s2)
    ensures Filling(g, root, s2, open, id, n, done + [x], h, m, busy, final)
    ensures FillMeets(g, s, g[id], n, done) <==> FillMeets(g, s2, g[id], n, done + [x])
    decreases g.Keys - s.memo.Keys, 2
  {
    s1, x, s2 := NextSlot(g, root, s, open, id, n, done, h, m, busy, final);
    NoMeetingUnder(g, root, s, open, g[id].slots[|done|], h, m, busy, s1, x);
    NothingMetYet(g, s, id, n, done, s1, x, s2);
  }

  lemma NextSlot(
    g: Heap, root: Id, s: Store, open: set<Id>, id: Id, n: Id, done: seq<Value>, h: Heap, m: map<Id, Id>,
    busy: set<Id>, final: Store)
    returns (s1: Store, x: Value, s2: Store)
    requires Closed(g) && Filling(g, root, s, open, id, n, done, h, m, busy, final) && |done| < |g[id].slots|
    ensures Clone(g, s, g[id].slots[|done|]) == (s1, Some(x)) && Approach(g, root, open, g[id].slots[|done|])
    ensures x == RenamedValue(g[id].slots[|done|], m) && Preserved(s1, h, busy) && n in s1.heap
    ensures g[id].Dict? ==> |g[id].keys| == |g[id].slots|
    ensures s2 == s1.(heap := s1.heap[n := Partial(g[id], done + [x])])
    ensures g.Keys - s2.memo.Keys <= g.Keys - s.memo.Keys && Sane(g, s2)
    ensures Filling(g, root, s2, open, id, n, done + [x], h, m, busy, final)
  {
    var v := g[id].slots[|done|];
    FillStep(g, s, g[id], n, done);
    SlotApproach(g, root, open, id, v);
    s1, x := Clone(g, s, v).0, Clone(g, s, v).1.value;
    s2 := s1.(heap := s1.heap[n := Partial(g[id], done + [x])]);
    SlotDone(g, root, s, open, id, n, done, s1, x, s2);
    LaterState(g, s, s1, s2, open, id, n, done + [x], final, h, m, busy, x);
  }

  lemma SlotDone(
    g: Heap, root: Id, s: Store, open: set<Id>, id: Id, n: Id, done: seq<Value>, s1: Store, x: Value, s2: Store)
    requires Closed(g) && Inv(g, root, false, s, open) && id in open && s.memo[id] == Ref(n)
    requires forall t | t in open :: t == id || Reaches(g, t, id)
    requires FilledTo(g, s, false, open, g[id], done) && |done| < |g[id].slots|
    requires Clone(g, s, g[id].slots[|done|]) == (s1, Some(x))
    requires g[id].Dict? ==> |g[id].keys| == |g[id].slots|
    requires s2 == s1.(heap := s1.heap[n := Partial(g[id], done + [x])])
    ensures Inv(g, root, false, s2, open) && FilledTo(g, s2, false, open, g[id], done + [x]) && s2.memo[id] == Ref(n)
  {
    var v := g[id].slots[|done|];
    SlotApproach(g, root, open, id, v);
    CloneKeepsInv(g, root, false, s, open, v);
    SlotKeepsInv(g, root, false, s, open, id, n, done, s1, x);
  }

  lemma LaterState(
    g: Heap, s: Store, s1: Store, s2: Store, open: set<Id>, id: Id, n: Id, done: seq<Value>, final: Store, h: Heap,
    m: map<Id, Id>, busy: set<Id>, x: Value)
    requires Closed(g) && id in g && n in s1.heap && n !in g && n in busy && Extends(s, s1, None)
    requires 0 < |done| <= |g[id].slots| && done[|done| - 1] == x && (g[id].Dict? ==> |g[id].keys| == |g[id].slots|)
    requires forall i | 0 <= i < |g[id].slots| :: Within(g, g[id].slots[i])
    requires s2 == s1.(heap := s1.heap[n := Partial(g[id], done)]) && Sane(g, s2)
    requires Fill(g, s2, g[id], n, done) == (final, true) && Preserved(final, h, busy) && n in final.heap
    requires SlotsRenamed(g[id], final.heap[n].slots, m) && open <= s.memo.Keys && ListsStay(g, s, open, h)
    ensures Preserved(s1, h, busy) && ListsStay(g, s2, open, h)
    ensures x == RenamedValue(g[id].slots[|done| - 1], m)
  {
    FillKeepsDone(g, s2, g[id], n, done);
    assert final.heap[n].slots[|done| - 1] == x;
    forall i | i in s1.heap && i !in busy ensures i in h && h[i] == s1.heap[i] {
      assert i in s2.heap && s2.heap[i] == s1.heap[i];
    }
  }

  lemma IsomorphismCorresponds(g: Heap, h: Heap, root: Id, x: Value, m: map<Id, Id>)
    requires IsomorphicCopy(g, h, root, x, m)
    ensures Corresponds(g, root, h, m)
  {
  }

  /** For every graph: a completed copy is isomorphic to its source if and only if it came upon no tuple still
      being collected. */
  lemma CopyIsIsomorphicIff(g: Heap, root: Id, next: Id)
    requires Closed(g) && root in g && g[root].Dict? && forall o | o in g :: o < next
    ensures var (s, r) := ClonedDna(g, root, next);
      r.Some? ==> ((exists m :: IsomorphicCopy(g, s.heap, root, r.value, m)) <==> !MeetsOpenTuple(g, root, next))
  {
    var (s, r) := ClonedDna(g, root, next);
    CopyWithoutMeeting(g, root, next);
    if r.Some? && !Flat(g, root) && exists m :: IsomorphicCopy(g, s.heap, root, r.value, m) {
      var m :| IsomorphicCopy(g, s.heap, root, r.value, m);
      IsomorphismMeetsNothing(g, root, next, s, r.value, m);
    }
  }

  lemma StartInv(g: Heap, root: Id, next: Id)
    requires Closed(g) && root in g && forall o | o in g :: o < next
    ensures Inv(g, root, false, Store(g, map[], next), {}) && Approach(g, root, {}, Ref(root))
  {
  }

  lemma IsomorphismMeetsNothing(g: Heap, root: Id, next: Id, s: Store, x: Value, m: map<Id, Id>)
    requires Closed(g) && root in g && forall o | o in g :: o < next
    requires Clone(g, Store(g, map[], next), Ref(root)) == (s, Some(x)) && IsomorphicCopy(g, s.heap, root, x, m)
    ensures !Meets(g, Store(g, map[], next), Ref(root))
  {
    IsomorphismCorresponds(g, s.heap, root, x, m);
    StartInv(g, root, next);
    NoMeetingUnder(g, root, Store(g, map[], next), {}, Ref(root), s.heap, m, {}, s, x);
  }

  // A cycle through a tuple is needed for a meeting, but does not always lead to one.

  lemma {:induction false} NoCycleNoMeeting(g: Heap, root: Id, s: Store, open: set<Id>, v: Value)
    requires Closed(g) && NoTupleCycle(g, root)
    requires Inv(g, root, false, s, open) && Within(g, v) && Approach(g, root, open, v)
    ensures !Meets(g, s, v)
    decreases g.Keys - s.memo.Keys, 1
  {
    if v.Ref? {
      if v.id in s.memo {
        MeetsInMemo(g, s, v.id);
        if v.id !in open {
          assert Finished(g, s, false, open, v.id);
        }
      } else {
        NoCycleNoMeetingInside(g, root, s, open, v.id);
      }
    }
  }

  lemma {:induction false} NoCycleNoMeetingInside(g: Heap, root: Id, s: Store, open: set<Id>, id: Id)
    requires Closed(g) && NoTupleCycle(g, root) && id !in s.memo
    requires Inv(g, root, false, s, open) && Approach(g, root, open, Ref(id))
    ensures !Meets(g, s, Ref(id))
    decreases g.Keys - s.memo.Keys, 0
  {
    VisitStep(g, s, id);
    EnterKeepsInv(g, root, false, s, open, id);
    EnteredFacts(g, root, false, s, open, id);
    NoCycleNoMeetingInFill(g, root, Enter(s, id, g[id]), open + {id}, id, s.next, []);
    MeetsStep(g, s, id);
  }

  lemma {:induction false} NoCycleNoMeetingInFill(
    g: Heap, root: Id, s: Store, open: set<Id>, id: Id, n: Id, done: seq<Value>)
    requires Closed(g) && NoTupleCycle(g, root)
    requires Inv(g, root, false, s, open) && id in open && s.memo[id] == Ref(n)
    requires forall t | t in open :: t == id || Reaches(g, t, id)
    requires FilledTo(g, s, false, open, g[id], done) && s.heap[n] == Partial(g[id], done)
    ensures !FillMeets(g, s, g[id], n, done)
    decreases g.Keys - s.memo.Keys, |g[id].slots| - |done| + 2
  {
    if |done| == |g[id].slots| {
      FillMeetsEnd(g, s, g[id], n, done);
    } else {
      var v := g[id].slots[|done|];
      FillStep(g, s, g[id], n, done);
      SlotApproach(g, root, open, id, v);
      NoCycleNoMeeting(g, root, s, open, v);
      var (s1, x) := Clone(g, s, v);
      if x.Some? {
        var s2 := s1.(heap := s1.heap[n := Partial(g[id], done + [x.value])]);
        SlotDone(g, root, s, open, id, n, done, s1, x.value, s2);
        NoCycleNoMeetingInFill(g, root, s2, open, id, n, done + [x.value]);
      }
      FillMeetsStep(g, s, g[id], n, done);
    }
  }

  /** The copy fails exactly when something of an unsupported type is reachable; it never changes the source;
      and if no cycle passes through a tuple, it is an isomorphic copy. */
  lemma CloneIsIsomorphic(g: Heap, root: Id, next: Id)
    requires Closed(g) && root in g && g[root].Dict? && forall o | o in g :: o < next
    ensures var (s, r) := ClonedDna(g, root, next);
      && (r.None? <==> HasUnsupported(g, root))
      && (forall o | o in g :: o in s.heap && s.heap[o] == g[o])
      && (r.Some? && NoTupleCycle(g, root) ==> exists m :: IsomorphicCopy(g, s.heap, root, r.value, m))
  {
    CopyWithoutMeeting(g, root, next);
    if NoTupleCycle(g, root) && !Flat(g, root) {
      NoCycleNoMeeting(g, root, Store(g, map[], next), {}, Ref(root));
    }
  }

  /** The objects made in copying `ids`: one each, and a working list for each tuple. */
  ghost function Cost(g: Heap, ids: set<Id>): nat {
    |ids| + |Tuples(g, ids)|
  }

  ghost function Tuples(g: Heap, ids: set<Id>): set<Id> {
    set o | o in ids && o in g && g[o].Tuple?
  }

  lemma CostOfOneMore(g: Heap, ids: set<Id>, id: Id)
    requires id in g && id !in ids
    ensures Cost(g, ids + {id}) == Cost(g, ids) + if g[id].Tuple? then 2 else 1
  {
    assert Tuples(g, ids + {id}) == if g[id].Tuple? then Tuples(g, ids) + {id} else Tuples(g, ids);
  }

  lemma {:induction false} ValueCost(g: Heap, s: Store, v: Value)
    requires Closed(g) && Sane(g, s) && Within(g, v)
    ensures var (s', r) := Clone(g, s, v);
      r.Some? ==> s'.next - Cost(g, s'.memo.Keys) == s.next - Cost(g, s.memo.Keys)
    decreases g.Keys - s.memo.Keys, 0
  {
    if v.Ref? && v.id !in s.memo {
      VisitStep(g, s, v.id);
      var s1 := Enter(s, v.id, g[v.id]);
      SlotsCost(g, s1, g[v.id], s.next, []);
      var (s2, ok) := Fill(g, s1, g[v.id], s.next, []);
      if ok {
        FillRemembers(g, s1, g[v.id], s.next);
        VisitCost(g, s, v.id, s1, s2);
      }
    }
  }

  lemma VisitCost(g: Heap, s: Store, id: Id, s1: Store, s2: Store)
    requires id in g && id !in s.memo && (g[id].Dict? ==> |g[id].keys| == |g[id].slots|)
    requires s1 == Enter(s, id, g[id]) && s1.memo.Keys <= s2.memo.Keys && s.next in s2.heap
    requires s2.next - Cost(g, s2.memo.Keys) == s1.next - Cost(g, s1.memo.Keys)
    ensures var s3 := if g[id].Tuple? then Freeze(s2, id, s.next) else s2;
      s3.next - Cost(g, s3.memo.Keys) == s.next - Cost(g, s.memo.Keys)
  {
    assert s1.memo.Keys == s.memo.Keys + {id};
    CostOfOneMore(g, s.memo.Keys, id);
    assert Freeze(s2, id, s.next).memo.Keys == s2.memo.Keys;
  }

  lemma FillRemembers(g: Heap, s: Store, o: Obj, n: Id)
    requires Closed(g) && Sane(g, s) && n in s.heap && n !in g
    requires (o.Dict? ==> |o.keys| == |o.slots|) && s.heap[n] == Partial(o, [])
    requires forall i | 0 <= i < |o.slots| :: Within(g, o.slots[i])
    ensures s.memo.Keys <= Fill(g, s, o, n, []).0.memo.Keys
  {
  }

  lemma {:induction false} SlotsCost(g: Heap, s: Store, o: Obj, n: Id, done: seq<Value>)
    requires Closed(g) && Sane(g, s) && n in s.heap && n !in g
    requires |done| <= |o.slots| && (o.Dict? ==> |o.keys| == |o.slots|)
    requires forall i | 0 <= i < |o.slots| :: Within(g, o.slots[i])
    requires s.heap[n] == Partial(o, done)
    ensures var (s', ok) := Fill(g, s, o, n, done);
      ok ==> s'.next - Cost(g, s'.memo.Keys) == s.next - Cost(g, s.memo.Keys)
    decreases g.Keys - s.memo.Keys, |o.slots| - |done| + 1
  {
    if |done| < |o.slots| {
      var (s1, x) := Clone(g, s, o.slots[|done|]);
      ValueCost(g, s, o.slots[|done|]);
      FillStep(g, s, o, n, done);
      if x.Some? {
        var s2 := s1.(heap := s1.heap[n := Partial(o, done + [x.value])]);
        assert s2.next - Cost(g, s2.memo.Keys) == s.next - Cost(g, s.memo.Keys);
        SlotsCost(g, s2, o, n, done + [x.value]);
      }
    }
  }

  /** No object is copied twice: a copy makes one new object for each reachable one, and for each
      reachable tuple one working list. */
  lemma OneCopyEach(g: Heap, root: Id, next: Id, reachable: set<Id>)
    requires Closed(g) && root in g && g[root].Dict? && forall o | o in g :: o < next
    requires forall o :: o in reachable <==> Reachable(g, root, o)
    ensures var (s, r) := ClonedDna(g, root, next);
      r.Some? ==> s.next - next == |reachable| + |Tuples(g, reachable)|
  {
    if Flat(g, root) {
      forall o | o in reachable ensures o == root { FlatRoot(g, root, o); }
      assert reachable == {root} && Tuples(g, reachable) == {};
    } else {
      DeepCopyCost(g, root, next, reachable);
    }
  }

  lemma DeepCopyCost(g: Heap, root: Id, next: Id, reachable: set<Id>)
    requires Closed(g) && root in g && forall o | o in g :: o < next
    requires forall o :: o in reachable <==> Reachable(g, root, o)
    ensures var (s, r) := Clone(g, Store(g, map[], next), Ref(root));
      r.Some? ==> s.next - next == |reachable| + |Tuples(g, reachable)|
  {
    var s0 := Store(g, map[], next);
    var (s, r) := Clone(g, s0, Ref(root));
    if r.Some? {
      ValueCost(g, s0, Ref(root));
      MemoIsReachable(g, root, s0, reachable);
      assert Tuples(g, s0.memo.Keys) == {};
    }
  }

  lemma MemoIsReachable(g: Heap, root: Id, s0: Store, reachable: set<Id>)
    requires Closed(g) && root in g && s0.heap == g && s0.memo == map[] && forall o | o in g :: o < s0.next
    requires forall o :: o in reachable <==> Reachable(g, root, o)
    requires Clone(g, s0, Ref(root)).1.Some?
    ensures Clone(g, s0, Ref(root)).0.memo.Keys == reachable
  {
    var s := Clone(g, s0, Ref(root)).0;
    CloneKeepsInv(g, root, false, s0, {}, Ref(root));
    forall o ensures o in s.memo <==> o in reachable {
      if o in reachable { EverythingCopied(g, root, false, s, o); }
    }
  }

  // The same cycle entered through its tuple and through its list.

  lemma SingleSlotMeets(g: Heap, s: Store, id: Id)
    requires Closed(g) && Sane(g, s) && id in g && id !in s.memo && |g[id].slots| == 1
    ensures Sane(g, Enter(s, id, g[id])) && Within(g, g[id].slots[0])
    ensures Meets(g, s, Ref(id)) <==> Meets(g, Enter(s, id, g[id]), g[id].slots[0])
  {
    var n, s1 := s.next, Enter(s, id, g[id]);
    MeetsStep(g, s, id);
    FillMeetsStep(g, s1, g[id], n, []);
    var (s2, x) := Clone(g, s1, g[id].slots[0]);
    if x.Some? {
      FillMeetsEnd(g, s2.(heap := s2.heap[n := Partial(g[id], [] + [x.value])]), g[id], n, [] + [x.value]);
    }
  }

  ghost predicate Holds(g: Heap, root: Id, tuple: Id, list: Id, first: Id) {
    && Closed(g) && root in g && tuple in g && list in g && root != tuple && root != list && tuple != list
    && g[root] == Dict(["k"], [Ref(first)]) && g[tuple] == Tuple([Ref(list)]) && g[list] == List([Ref(tuple)])
  }

  /** A tuple and a list that contain each other: reached through the tuple the copy is spoilt, reached through the
      list it is faithful. */
  lemma OrderOfEntryDecides(g: Heap, root: Id, tuple: Id, list: Id, first: Id, next: Id)
    requires Holds(g, root, tuple, list, first) && (first == tuple || first == list) && forall o | o in g :: o < next
    ensures MeetsOpenTuple(g, root, next) <==> first == tuple
  {
    var s0 := Store(g, map[], next);
    SingleSlotMeets(g, s0, root);
    var s1 := Enter(s0, root, g[root]);
    TwoSlotsMeet(g, s1, first, if first == tuple then list else tuple);
  }

  /** Two objects that refer to each other and nothing else, entered at the first. */
  lemma TwoSlotsMeet(g: Heap, s: Store, a: Id, b: Id)
    requires Closed(g) && Sane(g, s) && a in g && b in g && a != b && a !in s.memo && b !in s.memo
    requires g[a].slots == [Ref(b)] && g[b].slots == [Ref(a)]
    ensures Meets(g, s, Ref(a)) <==> g[a].Tuple?
  {
    SingleSlotMeets(g, s, a);
    var s1 := Enter(s, a, g[a]);
    SingleSlotMeets(g, s1, b);
    MeetsInMemo(g, Enter(s1, b, g[b]), a);
  }
}
