/** The canonical text hashed by `stable_hash` in `app/simulation_utils.py`. */
module StableHash {
  import opened JsonText

  /** Nested plain Python values; a dictionary lists its items in insertion order. */
  datatype Value =
    | None
    | Bool(b: bool)
    | Int(n: int)
    | Str(s: string)
    | List(elems: seq<Value>)
    | Tuple(elems: seq<Value>)
    | Dict(items: seq<(Value, Value)>)

  /** Dictionary keys are hashable: neither a list nor a dictionary, at any depth. */
  predicate Hashable(k: Value) {
    match k
    case List(_) => false
    case Dict(_) => false
    case Tuple(elems) => forall i | 0 <= i < |elems| :: Hashable(elems[i])
    case _ => true
  }

  predicate DistinctKeys<K(==), V>(items: seq<(K, V)>) {
    forall i, j | 0 <= i < j < |items| :: items[i].0 != items[j].0
  }

  predicate WellFormed(v: Value) {
    match v
    case List(elems) => forall i | 0 <= i < |elems| :: WellFormed(elems[i])
    case Tuple(elems) => forall i | 0 <= i < |elems| :: WellFormed(elems[i])
    case Dict(items) =>
      && DistinctKeys(items)
      && forall i | 0 <= i < |items| :: WellFormedItem(items[i])
    case _ => true
  }

  predicate WellFormedItem(item: (Value, Value)) {
    Hashable(item.0) && WellFormed(item.0) && WellFormed(item.1)
  }

  /** Equality of values up to the order of dictionary entries. */
  ghost predicate Same(v: Value, w: Value) {
    match (v, w)
    case (List(a), List(b)) => |a| == |b| && forall i | 0 <= i < |a| :: Same(a[i], b[i])
    case (Tuple(a), Tuple(b)) => |a| == |b| && forall i | 0 <= i < |a| :: Same(a[i], b[i])
    case (Dict(a), Dict(b)) =>
      |a| == |b|
      && forall i | 0 <= i < |a| :: FoundIn(a[i], b)
    case _ => v == w
  }

  ghost predicate FoundIn(x: (Value, Value), items: seq<(Value, Value)>)
    decreases x, 1
  {
    exists j | 0 <= j < |items| :: SameItem(x, items[j])
  }

  ghost predicate SameItem(x: (Value, Value), y: (Value, Value))
    decreases x, 0
  {
    x.0 == y.0 && Same(x.1, y.1)
  }

  // Dictionaries of the normal form.

  predicate LessEq(a: string, b: string) {
    a == "" || (b != "" && (a[0] < b[0] || (a[0] == b[0] && LessEq(a[1..], b[1..]))))
  }

  /** A stable sort by key. */
  function Insert(x: (string, Json), s: seq<(string, Json)>): seq<(string, Json)> {
    if s == [] || LessEq(x.0, s[0].0) then [x] + s else [s[0]] + Insert(x, s[1..])
  }

  function SortByKey(s: seq<(string, Json)>): seq<(string, Json)> {
    if s == [] then [] else Insert(s[0], SortByKey(s[1..]))
  }

  /** Assignment into an ordered dictionary: an existing key keeps its place. */
  function Put(d: seq<(string, Json)>, k: string, v: Json): seq<(string, Json)> {
    if d == [] then [(k, v)]
    else if d[0].0 == k then [(k, v)] + d[1..]
    else [d[0]] + Put(d[1..], k, v)
  }

  function FromPairs(pairs: seq<(string, Json)>): seq<(string, Json)> {
    if pairs == [] then []
    else var last := pairs[|pairs| - 1]; Put(FromPairs(pairs[..|pairs| - 1]), last.0, last.1)
  }

  const TUPLE_TAG := "__adaad_runtime_sim_tuple_v1__"

  function TupleForm(elems: seq<Json>): Json {
    JObj([("__type__", JStr(TUPLE_TAG)), ("items", JArr(elems))])
  }

  function Normal(v: Value): Json
    requires WellFormed(v)
    decreases v, 0
  {
    match v
    case None => JNull
    case Bool(b) => JBool(b)
    case Int(n) => JNum(n)
    case Str(s) => JStr(s)
    case List(elems) => JArr(seq(|elems|, i requires 0 <= i < |elems| => Normal(elems[i])))
    case Tuple(elems) => TupleForm(seq(|elems|, i requires 0 <= i < |elems| => Normal(elems[i])))
    case Dict(items) =>
      JObj(FromPairs(SortByKey(seq(|items|, i requires 0 <= i < |items| => NormalItem(items[i])))))
  }

  function NormalItem(item: (Value, Value)): (string, Json)
    requires WellFormedItem(item)
    decreases item, 2
  {
    (NormalKey(item.0), Normal(item.1))
  }

  /** A key is written with its type in front. */
  function NormalKey(k: Value): string
    requires Hashable(k) && WellFormed(k)
    decreases k, 1
  {
    match k
    case None => "NoneType:None"
    case Bool(b) => if b then "bool:True" else "bool:False"
    case Int(n) => "int:" + IntText(n)
    case Str(s) => "str:" + s
    case Tuple(_) => "tuple:" + Print(Normal(k))
  }

  /** The text that is hashed. */
  function HashedText(v: Value): string
    requires WellFormed(v)
  {
    Print(Normal(v))
  }

  function NormalItems(items: seq<(Value, Value)>): (pairs: seq<(string, Json)>)
    requires forall i | 0 <= i < |items| :: WellFormedItem(items[i])
  {
    seq(|items|, i requires 0 <= i < |items| => NormalItem(items[i]))
  }

  // Sorting.

  lemma {:induction false} LessEqOrder(a: string, b: string)
    ensures LessEq(a, b) || LessEq(b, a)
    ensures LessEq(a, b) && LessEq(b, a) ==> a == b
  {
    if a != "" && b != "" {
      LessEqOrder(a[1..], b[1..]);
      assert a == [a[0]] + a[1..] && b == [b[0]] + b[1..];
    }
  }

  lemma {:induction false} LessEqTransitive(a: string, b: string, c: string)
    requires LessEq(a, b) && LessEq(b, c)
    ensures LessEq(a, c)
  {
    if a != "" && a[0] == b[0] == c[0] {
      LessEqTransitive(a[1..], b[1..], c[1..]);
    }
  }

  ghost predicate Sorted(s: seq<(string, Json)>) {
    forall i, j | 0 <= i < j < |s| :: LessEq(s[i].0, s[j].0)
  }

  lemma {:induction false} InsertFacts(x: (string, Json), s: seq<(string, Json)>)
    requires Sorted(s)
    ensures Sorted(Insert(x, s)) && multiset(Insert(x, s)) == multiset(s) + multiset{x}
  {
    if s == [] {
    } else if LessEq(x.0, s[0].0) {
      forall j | 0 < j < |s| ensures LessEq(x.0, s[j].0) {
        LessEqTransitive(x.0, s[0].0, s[j].0);
      }
    } else {
      var rest := Insert(x, s[1..]);
      InsertFacts(x, s[1..]);
      LessEqOrder(x.0, s[0].0);
      assert s == [s[0]] + s[1..];
      forall j | 0 <= j < |rest| ensures LessEq(s[0].0, rest[j].0) {
        assert rest[j] in multiset(rest);
        assert rest[j] == x || rest[j] in s[1..];
      }
    }
  }

  lemma {:induction false} SortFacts(s: seq<(string, Json)>)
    ensures Sorted(SortByKey(s)) && multiset(SortByKey(s)) == multiset(s) && |SortByKey(s)| == |s|
  {
    if s != [] {
      SortFacts(s[1..]);
      InsertFacts(s[0], SortByKey(s[1..]));
      assert s == [s[0]] + s[1..];
    }
    assert |multiset(SortByKey(s))| == |SortByKey(s)| && |multiset(s)| == |s|;
  }

  /** `a` comes before `b`: it is a beginning of `b`, or smaller at the first place where they differ. */
  ghost predicate Precedes(a: string, b: string) {
    || a <= b
    || exists k: nat :: k < |a| && k < |b| && a[..k] == b[..k] && a[k] < b[k]
  }

  lemma {:induction false} LessEqPrecedes(a: string, b: string)
    requires LessEq(a, b)
    ensures Precedes(a, b)
  {
    if a != "" {
      if a[0] < b[0] {
        assert a[..0] == b[..0];
      } else {
        LessEqPrecedes(a[1..], b[1..]);
        if !(a[1..] <= b[1..]) {
          var k: nat :| k < |a[1..]| && k < |b[1..]| && a[1..][..k] == b[1..][..k] && a[1..][k] < b[1..][k];
          assert a[..k + 1] == [a[0]] + a[1..][..k] && b[..k + 1] == [b[0]] + b[1..][..k];
          assert a[k + 1] < b[k + 1];
        } else {
          assert a == [a[0]] + a[1..] && b == [b[0]] + b[1..];
        }
      }
    }
  }

  lemma SameSize(a: seq<(string, Json)>, b: seq<(string, Json)>)
    requires multiset(a) == multiset(b)
    ensures |a| == |b|
  {
    assert |multiset(a)| == |a| && |multiset(b)| == |b|;
  }

  /** Sorted lists of pairs with distinct keys are determined by their members. */
  lemma {:induction false} SortedUnique(a: seq<(string, Json)>, b: seq<(string, Json)>)
    requires Sorted(a) && Sorted(b) && multiset(a) == multiset(b) && DistinctKeys(a) && DistinctKeys(b)
    ensures a == b
  {
    SameSize(a, b);
    if a != [] {
      SameFirst(a, b);
      MultisetTail(a);
      MultisetTail(b);
      SortedTail(a);
      SortedTail(b);
      SortedUnique(a[1..], b[1..]);
      SameParts(a, b);
    }
  }

  lemma SameParts(a: seq<(string, Json)>, b: seq<(string, Json)>)
    requires a != [] && b != [] && a[0] == b[0] && a[1..] == b[1..]
    ensures a == b
  {
    assert a == [a[0]] + a[1..] && b == [b[0]] + b[1..];
  }

  lemma MultisetTail(a: seq<(string, Json)>)
    requires a != []
    ensures multiset(a[1..]) == multiset(a) - multiset{a[0]}
  {
    assert a == [a[0]] + a[1..];
  }

  lemma SameFirst(a: seq<(string, Json)>, b: seq<(string, Json)>)
    requires Sorted(a) && Sorted(b) && multiset(a) == multiset(b) && DistinctKeys(a) && DistinctKeys(b)
    requires a != [] && b != []
    ensures a[0] == b[0]
  {
    assert a[0] in multiset(b) && b[0] in multiset(a);
    FirstIsLeast(a, b[0]);
    FirstIsLeast(b, a[0]);
    LessEqOrder(a[0].0, b[0].0);
  }

  lemma SortedTail(a: seq<(string, Json)>)
    requires a != [] && Sorted(a) && DistinctKeys(a)
    ensures Sorted(a[1..]) && DistinctKeys(a[1..])
  {
  }

  lemma FirstIsLeast(a: seq<(string, Json)>, x: (string, Json))
    requires Sorted(a) && DistinctKeys(a) && x in a
    ensures LessEq(a[0].0, x.0) && (a[0].0 == x.0 ==> a[0] == x)
  {
    LessEqOrder(x.0, x.0);
  }

  lemma {:induction false} PutNew(d: seq<(string, Json)>, k: string, v: Json)
    requires forall i | 0 <= i < |d| :: d[i].0 != k
    ensures Put(d, k, v) == d + [(k, v)]
  {
    if d != [] {
      PutNew(d[1..], k, v);
      assert d == [d[0]] + d[1..];
    }
  }

  /** With distinct keys, building the dictionary keeps the sorted pairs as they are. */
  lemma {:induction false} FromPairsKeeps(pairs: seq<(string, Json)>)
    requires DistinctKeys(pairs)
    ensures FromPairs(pairs) == pairs
  {
    if pairs != [] {
      var n := |pairs| - 1;
      FromPairsKeeps(pairs[..n]);
      PutNew(pairs[..n], pairs[n].0, pairs[n].1);
      assert pairs == pairs[..n] + [pairs[n]];
    }
  }

  lemma DistinctPermutation(a: seq<(string, Json)>, b: seq<(string, Json)>)
    requires multiset(a) == multiset(b) && DistinctKeys(a)
    ensures DistinctKeys(b)
  {
    forall i, j | 0 <= i < j < |b| ensures b[i].0 != b[j].0 {
      if b[i].0 == b[j].0 {
        assert b[i] in multiset(a) && b[j] in multiset(a);
        var x :| 0 <= x < |a| && a[x] == b[i];
        var y :| 0 <= y < |a| && a[y] == b[j];
        assert x == y;
        TwiceInMultiset(b, i, j);
        var p, q := TwiceInSeq(a, b[i]);
      }
    }
  }

  lemma TwiceInMultiset<T>(s: seq<T>, i: nat, j: nat)
    requires i < j < |s| && s[i] == s[j]
    ensures multiset(s)[s[i]] >= 2
  {
    assert s == s[..j] + [s[j]] + s[j + 1..];
    assert s[..j][i] in multiset(s[..j]);
  }

  lemma TwiceInSeq<T>(s: seq<T>, x: T) returns (i: nat, j: nat)
    requires multiset(s)[x] >= 2
    ensures i < j < |s| && s[i] == s[j] == x
  {
    assert x in multiset(s);
    i :| 0 <= i < |s| && s[i] == x;
    var rest := s[..i] + s[i + 1..];
    assert s == s[..i] + [s[i]] + s[i + 1..];
    assert multiset(rest)[x] >= 1;
    var k :| 0 <= k < |rest| && rest[k] == x;
    if k < i {
      i, j := k, i;
    } else {
      j := k + 1;
    }
  }

  // Equal normal forms mean equal values.

  /** Hashable values hold no dictionary, so their normal form determines them outright. */
  lemma {:induction false} HashableInjective(k: Value, l: Value)
    requires Hashable(k) && Hashable(l) && WellFormed(k) && WellFormed(l) && Normal(k) == Normal(l)
    ensures k == l
  {
    if k.Tuple? {
      var a := Normal(k).members[1].1.elems;
      assert l.Tuple? && a == Normal(l).members[1].1.elems;
      forall i | 0 <= i < |k.elems| ensures k.elems[i] == l.elems[i] {
        assert a[i] == Normal(k.elems[i]) == Normal(l.elems[i]);
        HashableInjective(k.elems[i], l.elems[i]);
      }
      assert k.elems == l.elems;
    }
  }

  lemma KeyStart(k: Value)
    requires Hashable(k) && WellFormed(k)
    ensures NormalKey(k) != "" && NormalKey(k)[0] == match k
      case None => 'N'
      case Bool(_) => 'b'
      case Int(_) => 'i'
      case Str(_) => 's'
      case _ => 't'
  {
  }

  lemma KeyInjective(k: Value, l: Value)
    requires Hashable(k) && Hashable(l) && WellFormed(k) && WellFormed(l) && NormalKey(k) == NormalKey(l)
    ensures k == l
  {
    KeyStart(k);
    KeyStart(l);
    match k
    case None =>
    case Bool(b) =>
      assert NormalKey(k)[5] == if b then 'T' else 'F';
      assert NormalKey(l)[5] == if l.b then 'T' else 'F';
    case Int(n) =>
      Split("int:", IntText(n), "int:", IntText(l.n));
      assert IntText(n) + "" == IntText(n) && IntText(l.n) + "" == IntText(l.n);
      CancelInt(n, l.n, "", "");
    case Str(s) =>
      Split("str:", s, "str:", l.s);
    case Tuple(_) =>
      Split("tuple:", Print(Normal(k)), "tuple:", Print(Normal(l)));
      PrintInjective(Normal(k), Normal(l));
      HashableInjective(k, l);
  }

  lemma ItemsDistinct(items: seq<(Value, Value)>)
    requires DistinctKeys(items) && forall i | 0 <= i < |items| :: WellFormedItem(items[i])
    ensures DistinctKeys(NormalItems(items))
  {
    var pairs := NormalItems(items);
    forall i, j | 0 <= i < j < |pairs| ensures pairs[i].0 != pairs[j].0 {
      if pairs[i].0 == pairs[j].0 {
        assert pairs[i] == NormalItem(items[i]) && pairs[j] == NormalItem(items[j]);
        KeyInjective(items[i].0, items[j].0);
      }
    }
  }

  /** The normal form of a dictionary holds exactly its normalised items, in key order. */
  lemma DictForm(items: seq<(Value, Value)>)
    requires WellFormed(Dict(items))
    ensures var d := SortByKey(NormalItems(items));
      && Normal(Dict(items)) == JObj(d) && Sorted(d) && DistinctKeys(d)
      && multiset(d) == multiset(NormalItems(items)) && |d| == |items|
  {
    var pairs := NormalItems(items);
    ItemsDistinct(items);
    SortFacts(pairs);
    DistinctPermutation(pairs, SortByKey(pairs));
    FromPairsKeeps(SortByKey(pairs));
    assert pairs == seq(|items|, i requires 0 <= i < |items| => NormalItem(items[i]));
  }

  /** The members of a dictionary's normal form are in the order of their keys. */
  lemma KeysInOrder(items: seq<(Value, Value)>, i: nat, j: nat)
    requires WellFormed(Dict(items)) && i < j < |items|
    ensures var n := Normal(Dict(items));
      n.JObj? && |n.members| == |items| && n.members[i].0 != n.members[j].0
      && Precedes(n.members[i].0, n.members[j].0)
  {
    DictForm(items);
    var d := SortByKey(NormalItems(items));
    LessEqPrecedes(d[i].0, d[j].0);
  }

  /** A tuple's normal form is never a dictionary's: every dictionary key carries a type prefix. */
  lemma TupleIsNotDict(elems: seq<Json>, items: seq<(Value, Value)>)
    requires WellFormed(Dict(items))
    ensures Normal(Dict(items)) != TupleForm(elems)
  {
    DictForm(items);
    var d := SortByKey(NormalItems(items));
    if Normal(Dict(items)) == TupleForm(elems) {
      assert d[0] in multiset(NormalItems(items));
      var i :| 0 <= i < |items| && NormalItems(items)[i] == d[0];
      KeyStart(items[i].0);
    }
  }

  lemma {:induction false} NormalInjective(v: Value, w: Value)
    requires WellFormed(v) && WellFormed(w) && Normal(v) == Normal(w)
    ensures Same(v, w)
    decreases v, 1
  {
    match v
    case List(a) =>
      var n := Normal(v).elems;
      assert forall i | 0 <= i < |a| :: n[i] == Normal(a[i]);
      assert forall i | 0 <= i < |w.elems| :: Normal(w).elems[i] == Normal(w.elems[i]);
      ElemsInjective(a, w.elems);
    case Tuple(a) =>
      TupleMeetsTuple(a, w);
      ElemsInjective(a, w.elems);
    case Dict(a) =>
      DictMeetsDict(a, w);
      ItemsInjective(a, w.items);
    case _ =>
  }

  lemma TupleMeetsTuple(a: seq<Value>, w: Value)
    requires WellFormed(Tuple(a)) && WellFormed(w) && Normal(Tuple(a)) == Normal(w)
    ensures w.Tuple? && |a| == |w.elems| && forall i | 0 <= i < |a| :: Normal(a[i]) == Normal(w.elems[i])
  {
    if w.Dict? {
      TupleIsNotDict(Normal(Tuple(a)).members[1].1.elems, w.items);
    } else {
      var n, m := Normal(Tuple(a)).members[1].1.elems, Normal(w).members[1].1.elems;
      assert forall i | 0 <= i < |a| :: n[i] == Normal(a[i]);
      assert forall i | 0 <= i < |w.elems| :: m[i] == Normal(w.elems[i]);
    }
  }

  lemma DictMeetsDict(a: seq<(Value, Value)>, w: Value)
    requires WellFormed(Dict(a)) && WellFormed(w) && Normal(Dict(a)) == Normal(w)
    ensures w.Dict? && |a| == |w.items| && multiset(NormalItems(a)) == multiset(NormalItems(w.items))
  {
    DictForm(a);
    if w.Tuple? {
      TupleIsNotDict(Normal(w).members[1].1.elems, a);
    } else {
      DictForm(w.items);
    }
  }

  lemma {:induction false} ElemsInjective(a: seq<Value>, b: seq<Value>)
    requires |a| == |b| && forall i | 0 <= i < |a| :: WellFormed(a[i]) && WellFormed(b[i])
    requires forall i | 0 <= i < |a| :: Normal(a[i]) == Normal(b[i])
    ensures forall i | 0 <= i < |a| :: Same(a[i], b[i])
    decreases a, 0
  {
    forall i | 0 <= i < |a| ensures Same(a[i], b[i]) {
      NormalInjective(a[i], b[i]);
    }
  }

  lemma {:induction false} ItemsInjective(a: seq<(Value, Value)>, b: seq<(Value, Value)>)
    requires WellFormed(Dict(a)) && WellFormed(Dict(b)) && multiset(NormalItems(a)) == multiset(NormalItems(b))
    ensures forall i | 0 <= i < |a| :: FoundIn(a[i], b)
    decreases a, 0
  {
    var p, q := NormalItems(a), NormalItems(b);
    forall i | 0 <= i < |a| ensures FoundIn(a[i], b) {
      assert p[i] in multiset(q);
      var j :| 0 <= j < |q| && q[j] == p[i];
      assert p[i] == NormalItem(a[i]) && q[j] == NormalItem(b[j]);
      KeyInjective(a[i].0, b[j].0);
      var item := a[i];
      NormalInjective(item.1, b[j].1);
    }
  }

  // Equal values have equal normal forms.

  lemma {:induction false} SubsetOfSameSize(a: seq<(string, Json)>, b: seq<(string, Json)>)
    requires DistinctKeys(a) && DistinctKeys(b) && |a| == |b| && forall x | x in a :: x in b
    ensures multiset(a) == multiset(b)
  {
    if a != [] {
      var n := |a| - 1;
      assert a[n] in b;
      var k :| 0 <= k < |b| && b[k] == a[n];
      TakenOut(a, b, k);
      SubsetOfSameSize(a[..n], b[..k] + b[k + 1..]);
      Rejoined(a, n);
      Rejoined(b, k);
      assert a[..n] + a[n + 1..] == a[..n];
    }
  }

  lemma Rejoined(b: seq<(string, Json)>, k: nat)
    requires k < |b|
    ensures multiset(b) == multiset(b[..k] + b[k + 1..]) + multiset{b[k]}
  {
    assert b == b[..k] + [b[k]] + b[k + 1..];
  }

  /** Taking one common pair out of two lists leaves the rest of the first inside the rest of the second. */
  lemma TakenOut(a: seq<(string, Json)>, b: seq<(string, Json)>, k: nat)
    requires DistinctKeys(a) && DistinctKeys(b) && a != [] && k < |b| && b[k] == a[|a| - 1]
    requires forall x | x in a :: x in b
    ensures var a', b' := a[..|a| - 1], b[..k] + b[k + 1..];
      DistinctKeys(a') && DistinctKeys(b') && forall x | x in a' :: x in b'
  {
    var n, b' := |a| - 1, b[..k] + b[k + 1..];
    forall x | x in a[..n] ensures x in b' {
      var i :| 0 <= i < n && a[i] == x;
      assert x in b && x != b[k];
      assert b == b[..k] + [b[k]] + b[k + 1..];
    }
  }

  lemma {:induction false} NormalOfSame(v: Value, w: Value)
    requires WellFormed(v) && WellFormed(w) && Same(v, w)
    ensures Normal(v) == Normal(w)
  {
    match v
    case List(a) =>
      forall i | 0 <= i < |a| ensures Normal(a[i]) == Normal(w.elems[i]) {
        NormalOfSame(a[i], w.elems[i]);
      }
      assert Normal(v).elems == Normal(w).elems;
    case Tuple(a) =>
      forall i | 0 <= i < |a| ensures Normal(a[i]) == Normal(w.elems[i]) {
        NormalOfSame(a[i], w.elems[i]);
      }
      assert Normal(v).members[1].1.elems == Normal(w).members[1].1.elems;
    case Dict(a) =>
      var p, q := NormalItems(a), NormalItems(w.items);
      forall x | x in p ensures x in q {
        var i :| 0 <= i < |p| && p[i] == x;
        var j :| 0 <= j < |w.items| && SameItem(a[i], w.items[j]);
        NormalOfSame(a[i].1, w.items[j].1);
        assert p[i] == NormalItem(a[i]) && q[j] == NormalItem(w.items[j]);
      }
      NormalOfDicts(a, w.items);
    case _ =>
  }

  lemma NormalOfDicts(a: seq<(Value, Value)>, b: seq<(Value, Value)>)
    requires WellFormed(Dict(a)) && WellFormed(Dict(b)) && |a| == |b|
    requires forall x | x in NormalItems(a) :: x in NormalItems(b)
    ensures Normal(Dict(a)) == Normal(Dict(b))
  {
    var p, q := NormalItems(a), NormalItems(b);
    ItemsDistinct(a);
    ItemsDistinct(b);
    SubsetOfSameSize(p, q);
    DictForm(a);
    DictForm(b);
    SortedUnique(SortByKey(p), SortByKey(q));
  }

  /** The hashed text is canonical: it ignores the order of dictionary entries and nothing else. */
  lemma HashedTextIsCanonical(v: Value, w: Value)
    requires WellFormed(v) && WellFormed(w)
    ensures HashedText(v) == HashedText(w) <==> Same(v, w)
  {
    if HashedText(v) == HashedText(w) {
      PrintInjective(Normal(v), Normal(w));
      NormalInjective(v, w);
    }
    if Same(v, w) {
      NormalOfSame(v, w);
    }
  }

  lemma {:induction false} SameReflexive(v: Value, w: Value)
    requires v == w
    ensures Same(v, w)
    decreases v, 1
  {
    match v
    case List(a) => forall i | 0 <= i < |a| ensures Same(a[i], w.elems[i]) { SameReflexive(a[i], a[i]); }
    case Tuple(a) => forall i | 0 <= i < |a| ensures Same(a[i], w.elems[i]) { SameReflexive(a[i], a[i]); }
    case Dict(a) => ItemsReflexive(a, w.items);
    case _ =>
  }

  lemma {:induction false} ItemsReflexive(a: seq<(Value, Value)>, b: seq<(Value, Value)>)
    requires a == b
    ensures forall i | 0 <= i < |a| :: FoundIn(a[i], b)
    decreases a, 0
  {
    forall i | 0 <= i < |a| ensures FoundIn(a[i], b) {
      ItemReflexive(a[i]);
      assert SameItem(a[i], b[i]);
    }
  }

  lemma {:induction false} ItemReflexive(item: (Value, Value))
    ensures SameItem(item, item)
    decreases item, 2
  {
    SameReflexive(item.1, item.1);
  }

  /** Two dictionaries built by inserting the same items in different orders hash the same text. */
  lemma InsertionOrderIgnored(a: seq<(Value, Value)>, b: seq<(Value, Value)>)
    requires WellFormed(Dict(a)) && WellFormed(Dict(b)) && multiset(a) == multiset(b)
    ensures HashedText(Dict(a)) == HashedText(Dict(b))
  {
    assert |multiset(a)| == |a| && |multiset(b)| == |b|;
    forall i | 0 <= i < |a| ensures FoundIn(a[i], b) {
      assert a[i] in multiset(b);
      var j :| 0 <= j < |b| && b[j] == a[i];
      SameReflexive(a[i].1, a[i].1);
    }
    HashedTextIsCanonical(Dict(a), Dict(b));
  }
}
