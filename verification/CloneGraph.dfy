/** `clone_dna_for_simulation` of `app/simulation_utils.py`: a memoised deep copy of a graph of dictionaries,
    lists and tuples that may share parts and contain cycles.

    The Python heap is an explicit store from identities to objects, so sharing and cycles are visible. */
module CloneGraph {
  import opened Wrappers

  type Id = nat

  type Key = string

  /** A slot holds an immutable atom, a reference, or something of a type the copier refuses. */
  datatype Value = Atom(a: int) | Unsupported | Ref(id: Id)

  datatype Obj =
    | Dict(keys: seq<Key>, slots: seq<Value>)
    | List(slots: seq<Value>)
    | Tuple(slots: seq<Value>)

  type Heap = map<Id, Obj>

  /** The store while copying: `memo` maps the identity of a source object to its copy. */
  datatype Store = Store(heap: Heap, memo: map<Id, Value>, next: Id)

  predicate Within(g: Heap, v: Value) { v.Ref? ==> v.id in g }

  /** Every reference leads to an object, and a dictionary has one value per key. */
  ghost predicate Closed(g: Heap) {
    forall o | o in g ::
      && (forall i | 0 <= i < |g[o].slots| :: Within(g, g[o].slots[i]))
      && (g[o].Dict? ==> |g[o].keys| == |g[o].slots|)
  }

  /** The source `g` is part of the store as it was, and copies are new objects. */
  ghost predicate Sane(g: Heap, s: Store) {
    && (forall o | o in g :: o in s.heap && s.heap[o] == g[o])
    && (forall o | o in s.heap :: o < s.next)
    && s.memo.Keys <= g.Keys
    && (forall o | o in s.memo :: s.memo[o].Ref? && s.memo[o].id in s.heap && s.memo[o].id !in g)
  }

  /** Nothing that existed in `s` is different in `s'`, except perhaps the object `n`. */
  ghost predicate Extends(s: Store, s': Store, n: Option<Id>) {
    && s.next <= s'.next && s.memo.Keys <= s'.memo.Keys
    && (forall i | i in s.heap :: i in s'.heap && (n == Some(i) || s'.heap[i] == s.heap[i]))
    && (forall o | o in s.memo :: o in s'.memo && s'.memo[o] == s.memo[o])
  }

  /** A copy under construction; a tuple is first collected in a list. */
  function Partial(o: Obj, done: seq<Value>): Obj
    requires |done| <= |o.slots| && (o.Dict? ==> |o.keys| == |o.slots|)
  {
    if o.Dict? then Dict(o.keys[..|done|], done) else List(done)
  }

  function Enter(s: Store, id: Id, o: Obj): Store
    requires o.Dict? ==> |o.keys| == |o.slots|
  {
    Store(s.heap[s.next := Partial(o, [])], s.memo[id := Ref(s.next)], s.next + 1)
  }

  function Freeze(s: Store, id: Id, n: Id): Store
    requires n in s.heap
  {
    Store(s.heap[s.next := Tuple(s.heap[n].slots)], s.memo[id := Ref(s.next)], s.next + 1)
  }

  lemma EnterSane(g: Heap, s: Store, id: Id, o: Obj)
    requires Sane(g, s) && id in g && (o.Dict? ==> |o.keys| == |o.slots|)
    ensures Sane(g, Enter(s, id, o)) && s.next !in g && s.next !in s.heap
  {
  }

  lemma FreezeSane(g: Heap, s: Store, id: Id, n: Id)
    requires Sane(g, s) && id in g && n in s.heap
    ensures Sane(g, Freeze(s, id, n))
  {
  }

  /** Copying `id` changes nothing that existed before it was entered. */
  lemma VisitExtends(g: Heap, s: Store, id: Id, o: Obj, s2: Store)
    requires Sane(g, s) && id !in s.memo && (o.Dict? ==> |o.keys| == |o.slots|)
    requires Extends(Enter(s, id, o), s2, Some(s.next))
    ensures Extends(s, s2, None) && s.next in s2.heap
  {
    assert s.next !in s.heap;
  }

  lemma FreezeExtends(g: Heap, s: Store, s2: Store, id: Id, n: Id)
    requires Sane(g, s2) && Extends(s, s2, None) && n in s2.heap && id !in s.memo
    ensures Extends(s, Freeze(s2, id, n), None)
  {
    assert s2.next !in s2.heap;
  }

  function Clone(g: Heap, s: Store, v: Value): (r: (Store, Option<Value>))
    requires Closed(g) && Sane(g, s) && Within(g, v)
    ensures Sane(g, r.0) && Extends(s, r.0, None)
    decreases g.Keys - s.memo.Keys, 0
  {
    match v
    case Atom(_) => (s, Some(v))
    case Unsupported => (s, None)
    case Ref(id) =>
      if id in s.memo then (s, Some(s.memo[id]))
      else
        var o := s.heap[id];
        var n := s.next;
        var s1 := Enter(s, id, o);
        EnterSane(g, s, id, o);
        FewerLeft(g, s, id, o);
        var (s2, ok) := Fill(g, s1, o, n, []);
        VisitExtends(g, s, id, o, s2);
        FreezeSane(g, s2, id, n);
        FreezeExtends(g, s, s2, id, n);
        if !ok then (s2, None)
        else if o.Tuple? then (Freeze(s2, id, n), Some(Ref(s2.next)))
        else (s2, Some(Ref(n)))
  }

  lemma FewerLeft(g: Heap, s: Store, id: Id, o: Obj)
    requires id in g && id !in s.memo && (o.Dict? ==> |o.keys| == |o.slots|)
    ensures g.Keys - Enter(s, id, o).memo.Keys < g.Keys - s.memo.Keys
  {
    assert id in g.Keys - s.memo.Keys;
  }

  /** Copies the slots of `o` from position |done| on into the object `n`. */
  function Fill(g: Heap, s: Store, o: Obj, n: Id, done: seq<Value>): (r: (Store, bool))
    requires Closed(g) && Sane(g, s) && n in s.heap && n !in g
    requires |done| <= |o.slots| && (o.Dict? ==> |o.keys| == |o.slots|)
    requires forall i | 0 <= i < |o.slots| :: Within(g, o.slots[i])
    requires s.heap[n] == Partial(o, done)
    ensures Sane(g, r.0) && Extends(s, r.0, Some(n))
    ensures r.1 ==> |r.0.heap[n].slots| == |o.slots| && r.0.heap[n] == Partial(o, r.0.heap[n].slots)
    decreases g.Keys - s.memo.Keys, |o.slots| - |done| + 1
  {
    if |done| == |o.slots| then (s, true)
    else
      var (s1, x) := Clone(g, s, o.slots[|done|]);
      if x.None? then (s1, false)
      else
        var done' := done + [x.value];
        Fill(g, s1.(heap := s1.heap[n := Partial(o, done')]), o, n, done')
  }

  lemma FillStep(g: Heap, s: Store, o: Obj, n: Id, done: seq<Value>)
    requires Closed(g) && Sane(g, s) && n in s.heap && n !in g
    requires |done| < |o.slots| && (o.Dict? ==> |o.keys| == |o.slots|)
    requires forall i | 0 <= i < |o.slots| :: Within(g, o.slots[i])
    requires s.heap[n] == Partial(o, done)
    ensures var (s1, x) := Clone(g, s, o.slots[|done|]);
      && n in s1.heap && s.memo.Keys <= s1.memo.Keys
      && (x.None? ==> Fill(g, s, o, n, done) == (s1, false))
      && (x.Some? ==>
            var s2 := s1.(heap := s1.heap[n := Partial(o, done + [x.value])]);
            Sane(g, s2) && Fill(g, s, o, n, done) == Fill(g, s2, o, n, done + [x.value]))
  {
    var (s1, x) := Clone(g, s, o.slots[|done|]);
    if x.Some? {
      WriteSane(g, s1, n, Partial(o, done + [x.value]));
    }
  }

  lemma WriteSane(g: Heap, s: Store, n: Id, x: Obj)
    requires Sane(g, s) && n in s.heap && n !in g
    ensures Sane(g, s.(heap := s.heap[n := x]))
  {
  }

  lemma VisitStep(g: Heap, s: Store, id: Id)
    requires Closed(g) && Sane(g, s) && id in g && id !in s.memo
    ensures var o := s.heap[id];
      var s1 := Enter(s, id, o);
      && (o.Dict? ==> |o.keys| == |o.slots|) && Sane(g, s1) && s.next !in g
      && g.Keys - s1.memo.Keys < g.Keys - s.memo.Keys
      && var (s2, ok) := Fill(g, s1, o, s.next, []);
         && s.next in s2.heap
         && Clone(g, s, Ref(id)) == (if !ok then (s2, None)
                                     else if o.Tuple? then (Freeze(s2, id, s.next), Some(Ref(s2.next)))
                                     else (s2, Some(Ref(s.next))))
  {
    EnterSane(g, s, id, s.heap[id]);
    FewerLeft(g, s, id, s.heap[id]);
  }

  /** Copying `v` comes upon a reference to a tuple that is still being collected: the memo holds the tuple's
      working list, and that is what the referring slot is given. */
  ghost predicate Meets(g: Heap, s: Store, v: Value)
    requires Closed(g) && Sane(g, s) && Within(g, v)
    decreases g.Keys - s.memo.Keys, 0
  {
    v.Ref? &&
    if v.id in s.memo then g[v.id].Tuple? && s.heap[s.memo[v.id].id].List?
    else
      VisitStep(g, s, v.id);
      FillMeets(g, Enter(s, v.id, g[v.id]), g[v.id], s.next, [])
  }

  ghost predicate FillMeets(g: Heap, s: Store, o: Obj, n: Id, done: seq<Value>)
    requires Closed(g) && Sane(g, s) && n in s.heap && n !in g
    requires |done| <= |o.slots| && (o.Dict? ==> |o.keys| == |o.slots|)
    requires forall i | 0 <= i < |o.slots| :: Within(g, o.slots[i])
    requires s.heap[n] == Partial(o, done)
    decreases g.Keys - s.memo.Keys, |o.slots| - |done| + 1
  {
    |done| < |o.slots|
    && (|| Meets(g, s, o.slots[|done|])
        || (var (s1, x) := Clone(g, s, o.slots[|done|]);
            FillStep(g, s, o, n, done);
            x.Some? && FillMeets(g, s1.(heap := s1.heap[n := Partial(o, done + [x.value])]), o, n, done + [x.value])))
  }

  lemma MeetsStep(g: Heap, s: Store, id: Id)
    requires Closed(g) && Sane(g, s) && id in g && id !in s.memo
    ensures var s1 := Enter(s, id, g[id]);
      && Sane(g, s1) && s.next !in g && (g[id].Dict? ==> |g[id].keys| == |g[id].slots|)
      && (Meets(g, s, Ref(id)) <==> FillMeets(g, s1, g[id], s.next, []))
  {
    VisitStep(g, s, id);
  }

  lemma MeetsInMemo(g: Heap, s: Store, id: Id)
    requires Closed(g) && Sane(g, s) && id in s.memo
    ensures Clone(g, s, Ref(id)) == (s, Some(s.memo[id]))
    ensures Meets(g, s, Ref(id)) <==> g[id].Tuple? && s.heap[s.memo[id].id].List?
  {
  }

  lemma FillMeetsStep(g: Heap, s: Store, o: Obj, n: Id, done: seq<Value>)
    requires Closed(g) && Sane(g, s) && n in s.heap && n !in g
    requires |done| < |o.slots| && (o.Dict? ==> |o.keys| == |o.slots|)
    requires forall i | 0 <= i < |o.slots| :: Within(g, o.slots[i])
    requires s.heap[n] == Partial(o, done)
    ensures var (s1, x) := Clone(g, s, o.slots[|done|]);
      && (x.Some? ==>
            && n in s1.heap
            && var s2 := s1.(heap := s1.heap[n := Partial(o, done + [x.value])]);
               Sane(g, s2) && (g.Keys - s2.memo.Keys <= g.Keys - s.memo.Keys))
      && (FillMeets(g, s, o, n, done) <==>
            || Meets(g, s, o.slots[|done|])
            || (x.Some? &&
                FillMeets(g, s1.(heap := s1.heap[n := Partial(o, done + [x.value])]), o, n, done + [x.value])))
  {
    FillStep(g, s, o, n, done);
  }

  /** At the end nothing is left to meet. */
  lemma FillMeetsEnd(g: Heap, s: Store, o: Obj, n: Id, done: seq<Value>)
    requires Closed(g) && Sane(g, s) && n in s.heap && n !in g
    requires |done| == |o.slots| && (o.Dict? ==> |o.keys| == |o.slots|)
    requires forall i | 0 <= i < |o.slots| :: Within(g, o.slots[i])
    requires s.heap[n] == Partial(o, done)
    ensures !FillMeets(g, s, o, n, done)
  {
  }

  /** A slot once filled is final. */
  lemma {:induction false} FillKeepsDone(g: Heap, s: Store, o: Obj, n: Id, done: seq<Value>)
    requires Closed(g) && Sane(g, s) && n in s.heap && n !in g
    requires |done| <= |o.slots| && (o.Dict? ==> |o.keys| == |o.slots|)
    requires forall i | 0 <= i < |o.slots| :: Within(g, o.slots[i])
    requires s.heap[n] == Partial(o, done)
    ensures var (s', ok) := Fill(g, s, o, n, done); ok ==> done <= s'.heap[n].slots
    decreases g.Keys - s.memo.Keys, |o.slots| - |done| + 1
  {
    if |done| < |o.slots| {
      FillStep(g, s, o, n, done);
      var (s1, x) := Clone(g, s, o.slots[|done|]);
      if x.Some? {
        FillKeepsDone(g, s1.(heap := s1.heap[n := Partial(o, done + [x.value])]), o, n, done + [x.value]);
      }
    }
  }

  /** The public entry point; `root` is a dictionary.  None stands for the type error. */
  function ClonedDna(g: Heap, root: Id, next: Id): (r: (Store, Option<Value>))
    requires Closed(g) && root in g && g[root].Dict? && forall o | o in g :: o < next
    ensures Sane(g, r.0)
  {
    var s := Store(g, map[], next);
    if forall i | 0 <= i < |g[root].slots| :: g[root].slots[i].Atom?
    then (Store(g[next := g[root]], map[], next + 1), Some(Ref(next)))
    else Clone(g, s, Ref(root))
  }

  class Cloner {
    ghost const source: Heap
    var heap: Heap
    var memo: map<Id, Value>
    var next: Id

    ghost function View(): Store
      reads this
    {
      Store(heap, memo, next)
    }

    constructor (g: Heap, next: Id)
      requires forall o | o in g :: o < next
      ensures source == g && View() == Store(g, map[], next)
    {
      source := g;
      heap := g;
      memo := map[];
      this.next := next;
    }

    method Allocate(o: Obj) returns (n: Id)
      modifies this
      ensures n == old(next) && View() == old(View()).(heap := old(heap)[n := o], next := n + 1)
    {
      n := next;
      heap := heap[n := o];
      next := next + 1;
    }

    method CloneValue(v: Value) returns (r: Option<Value>)
      requires Closed(source) && Sane(source, View()) && Within(source, v)
      modifies this
      ensures (View(), r) == Clone(source, old(View()), v)
      decreases source.Keys - memo.Keys, 1
    {
      match v
      case Atom(_) => return Some(v);
      case Unsupported => return None;
      case Ref(id) =>
        if id in memo {
          return Some(memo[id]);
        }
        r := CloneObject(id);
    }

    /** Registers an empty copy before its parts are copied. */
    method Begin(id: Id, o: Obj) returns (n: Id)
      requires o.Dict? ==> |o.keys| == |o.slots|
      modifies this
      ensures n == old(next) && View() == Enter(old(View()), id, o)
    {
      n := Allocate(Partial(o, []));
      memo := memo[id := Ref(n)];
    }

    /** Replaces a tuple's working list by the finished tuple. */
    method Finish(id: Id, n: Id) returns (t: Id)
      requires n in heap
      modifies this
      ensures t == old(next) && View() == Freeze(old(View()), id, n)
    {
      t := Allocate(Tuple(heap[n].slots));
      memo := memo[id := Ref(t)];
    }

    method CloneObject(id: Id) returns (r: Option<Value>)
      requires Closed(source) && Sane(source, View()) && id in source && id !in memo
      modifies this
      ensures (View(), r) == Clone(source, old(View()), Ref(id))
      decreases source.Keys - memo.Keys, 0
    {
      ghost var s := View();
      var o := heap[id];
      VisitStep(source, s, id);
      var n := Begin(id, o);
      var ok := FillSlots(o, n);
      ghost var s2 := View();
      assert (s2, ok) == Fill(source, Enter(s, id, o), o, n, []);
      if !ok {
        return None;
      }
      if !o.Tuple? {
        return Some(Ref(n));
      }
      var t := Finish(id, n);
      return Some(Ref(t));
    }

    /** The loop that grows a new object slot by slot. */
    method FillSlots(o: Obj, n: Id) returns (ok: bool)
      requires Closed(source) && Sane(source, View()) && n in heap && n !in source
      requires o.Dict? ==> |o.keys| == |o.slots|
      requires forall i | 0 <= i < |o.slots| :: Within(source, o.slots[i])
      requires heap[n] == Partial(o, [])
      modifies this
      ensures (View(), ok) == Fill(source, old(View()), o, n, [])
      decreases source.Keys - memo.Keys, 2
    {
      var done: seq<Value> := [];
      while |done| < |o.slots|
        invariant |done| <= |o.slots| && Sane(source, View()) && n in heap && heap[n] == Partial(o, done)
        invariant old(memo).Keys <= memo.Keys
        invariant Fill(source, old(View()), o, n, []) == Fill(source, View(), o, n, done)
        decreases |o.slots| - |done|
      {
        ghost var s := View();
        var x := CloneValue(o.slots[|done|]);
        ghost var s1 := View();
        FillStep(source, s, o, n, done);
        if x.None? {
          return false;
        }
        done := done + [x.value];
        heap := heap[n := Partial(o, done)];
        assert View() == s1.(heap := s1.heap[n := Partial(o, done)]);
      }
      ok := true;
    }

    /** Copies the graph under `root`, leaving every object of the source as it was. */
    method CloneDna(root: Id) returns (r: Option<Value>)
      requires Closed(source) && heap == source && memo == map[] && (forall o | o in source :: o < next)
      requires root in source && source[root].Dict?
      modifies this
      ensures (View(), r) == ClonedDna(source, root, old(next))
    {
      if forall i | 0 <= i < |heap[root].slots| :: heap[root].slots[i].Atom? {
        var n := Allocate(heap[root]);
        return Some(Ref(n));
      }
      r := CloneValue(Ref(root));
    }
  }
}
