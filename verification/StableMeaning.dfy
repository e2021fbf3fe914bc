/** What the hashed text of `app/simulation_utils.py` says: reading it back gives the value, up to the order of
    dictionary entries. */
module StableMeaning {
  import opened JsonText
  import opened JsonReader
  import opened StableHash
  import W = Wrappers

  // The meaning of a JSON value that the normal form uses.

  function Meaning(j: Json): W.Option<Value>
    decreases Weight(j), 1
  {
    match j
    case JNull => W.Some(None)
    case JBool(b) => W.Some(Bool(b))
    case JNum(n) => W.Some(Int(n))
    case JStr(s) => W.Some(Str(s))
    case JArr(elems) =>
      var values := MeaningOfAll(elems);
      if values.None? then W.None else W.Some(List(values.value))
    case JObj(members) =>
      if IsTagged(members) then
        TaggedWeight(members);
        var values := MeaningOfAll(members[1].1.elems);
        if values.None? then W.None else W.Some(Tuple(values.value))
      else
        var items := MeaningOfMembers(members);
        if items.None? then W.None else W.Some(Dict(items.value))
  }

  /** The object that stands for a tuple. */
  predicate IsTagged(members: seq<(string, Json)>) {
    && |members| == 2 && members[0] == ("__type__", JStr("__adaad_runtime_sim_tuple_v1__"))
    && members[1].0 == "items" && members[1].1.JArr?
  }

  lemma TaggedWeight(members: seq<(string, Json)>)
    requires IsTagged(members)
    ensures WeightOfElems(members[1].1.elems) < Weight(JObj(members))
  {
    assert WeightOfMembers(members) == WeightOfMember(members[0]) + WeightOfMembers(members[1..]);
    assert WeightOfMembers(members[1..]) == WeightOfMember(members[1]) + WeightOfMembers(members[1..][1..]);
  }

  function MeaningOfAll(elems: seq<Json>): W.Option<seq<Value>>
    decreases WeightOfElems(elems), 2
  {
    if elems == [] then W.Some([])
    else
      PositiveWeight(elems[0]);
      var first, rest := Meaning(elems[0]), MeaningOfAll(elems[1..]);
      if first.None? || rest.None? then W.None else W.Some([first.value] + rest.value)
  }

  lemma PositiveWeight(j: Json)
    ensures Weight(j) > 0
  {
  }

  function MeaningOfMembers(members: seq<(string, Json)>): W.Option<seq<(Value, Value)>>
    decreases WeightOfMembers(members), 0
  {
    if members == [] then W.Some([])
    else
      var m := members[0];
      assert WeightOfMembers(members) == 1 + |m.0| + Weight(m.1) + WeightOfMembers(members[1..]) by {
        assert WeightOfMember(m) == 1 + |m.0| + Weight(m.1);
      }
      var key, v, rest := MeaningOfKey(m.0), Meaning(m.1), MeaningOfMembers(members[1..]);
      if key.None? || v.None? || rest.None? then W.None else W.Some([(key.value, v.value)] + rest.value)
  }

  /** The text behind the first colon, and what stands before it. */
  function BeforeColon(s: string): string {
    if s == "" || s[0] == ':' then "" else [s[0]] + BeforeColon(s[1..])
  }

  lemma {:induction false} BeforeColonLength(s: string)
    ensures |BeforeColon(s)| <= |s|
  {
    if s != "" {
      BeforeColonLength(s[1..]);
    }
  }

  /** A key is a type, a colon, and the text of the key. */
  function MeaningOfKey(k: string): W.Option<Value>
    decreases |k|, 0
  {
    BeforeColonLength(k);
    var t := BeforeColon(k);
    if |t| == |k| then W.None
    else
      var text := k[|t| + 1..];
      if t == "NoneType" then if text == "None" then W.Some(None) else W.None
      else if t == "bool" then
        if text == "True" then W.Some(Bool(true)) else if text == "False" then W.Some(Bool(false)) else W.None
      else if t == "int" then
        var n := ReadInt(text);
        if n.Some? && n.value.1 == "" then W.Some(Int(n.value.0)) else W.None
      else if t == "str" then W.Some(Str(text))
      else if t == "tuple" then
        var j := ReadText(text);
        if j.None? then W.None
        else
          var v := Meaning(j.value);
          if v.Some? && v.value.Tuple? then v else W.None
      else W.None
  }

  /** What the text says. */
  function TextMeans(text: string): W.Option<Value> {
    var j := ReadText(text);
    if j.None? then W.None else Meaning(j.value)
  }

  // Lists.

  lemma {:induction false} AllMean(elems: seq<Json>, values: seq<Value>)
    requires |elems| == |values| && forall i | 0 <= i < |elems| :: Meaning(elems[i]) == W.Some(values[i])
    ensures MeaningOfAll(elems) == W.Some(values)
  {
    if elems == [] {
      assert values == [];
    } else {
      AllMean(elems[1..], values[1..]);
      assert values == [values[0]] + values[1..];
    }
  }

  predicate MemberMeans(m: (string, Json), item: (Value, Value)) {
    MeaningOfKey(m.0) == W.Some(item.0) && Meaning(m.1) == W.Some(item.1)
  }

  lemma {:induction false} MembersMean(members: seq<(string, Json)>, items: seq<(Value, Value)>)
    requires |members| == |items| && forall i | 0 <= i < |members| :: MemberMeans(members[i], items[i])
    ensures MeaningOfMembers(members) == W.Some(items)
  {
    if members == [] {
      assert items == [];
    } else {
      assert MemberMeans(members[0], items[0]);
      MembersMean(members[1..], items[1..]);
      assert items == [items[0]] + items[1..];
    }
  }

  // Hashable values come back exactly.

  lemma {:induction false} SameHashable(v: Value, w: Value)
    requires Hashable(v) && Same(v, w)
    ensures w == v
  {
    if v.Tuple? {
      forall i | 0 <= i < |v.elems| ensures w.elems[i] == v.elems[i] {
        SameHashable(v.elems[i], w.elems[i]);
      }
      assert w.elems == v.elems;
    }
  }

  lemma {:induction false} ColonAt(t: string, text: string)
    requires ':' !in t
    ensures BeforeColon(t + ":" + text) == t && (t + ":" + text)[|t| + 1..] == text
  {
    if t == "" {
      assert t + ":" + text == ":" + text;
    } else {
      assert (t + ":" + text)[1..] == t[1..] + ":" + text;
      ColonAt(t[1..], text);
    }
  }

  lemma KeyText(k: Value) returns (t: string, text: string)
    requires Hashable(k) && WellFormed(k)
    ensures NormalKey(k) == t + ":" + text && ':' !in t
    ensures match k
      case None => t == "NoneType" && text == "None"
      case Bool(b) => t == "bool" && text == if b then "True" else "False"
      case Int(n) => t == "int" && text == IntText(n)
      case Str(s) => t == "str" && text == s
      case _ => t == "tuple" && text == Print(Normal(k))
  {
    match k
    case None => t, text := "NoneType", "None";
    case Bool(b) => t, text := "bool", if b then "True" else "False";
    case Int(n) => t, text := "int", IntText(n);
    case Str(s) => t, text := "str", s;
    case Tuple(_) => t, text := "tuple", Print(Normal(k));
  }

  /** A key that is no tuple comes back. */
  lemma PlainKeyMeans(k: Value)
    requires Hashable(k) && WellFormed(k) && !k.Tuple?
    ensures MeaningOfKey(NormalKey(k)) == W.Some(k)
  {
    var t, text := KeyText(k);
    ColonAt(t, text);
    if k.Int? {
      assert IntText(k.n) + "" == IntText(k.n);
      ReadIntOf(k.n, "");
    }
  }

  lemma TupleKeyMeans(k: Value)
    requires Hashable(k) && WellFormed(k) && k.Tuple? && Meaning(Normal(k)) == W.Some(k)
    ensures MeaningOfKey(NormalKey(k)) == W.Some(k)
  {
    var t, text := KeyText(k);
    ColonAt(t, text);
    ReadPrinted(Normal(k));
  }

  // The normal form of a value means the value.

  lemma {:induction false} NormalMeans(v: Value) returns (w: Value)
    requires WellFormed(v)
    ensures Meaning(Normal(v)) == W.Some(w) && Same(v, w)
    decreases v, 1
  {
    match v
    case List(elems) =>
      var values := ElemsMean(elems);
      var normal := seq(|elems|, i requires 0 <= i < |elems| => Normal(elems[i]));
      AllMean(normal, values);
      assert Normal(v) == JArr(normal);
      w := List(values);
    case Tuple(elems) =>
      var values := ElemsMean(elems);
      var normal := seq(|elems|, i requires 0 <= i < |elems| => Normal(elems[i]));
      AllMean(normal, values);
      TupleMeans(elems, normal, values);
      w := Tuple(values);
    case Dict(items) =>
      var values := ItemsMean(items);
      w := DictMeans(items, values);
    case _ => w := v;
  }

  lemma TupleMeans(elems: seq<Value>, normal: seq<Json>, values: seq<Value>)
    requires WellFormed(Tuple(elems)) && MeaningOfAll(normal) == W.Some(values)
    requires normal == seq(|elems|, i requires 0 <= i < |elems| => Normal(elems[i]))
    ensures Meaning(Normal(Tuple(elems))) == W.Some(Tuple(values))
  {
    assert Normal(Tuple(elems)) == TupleForm(normal);
    assert IsTagged(TupleForm(normal).members);
  }

  lemma {:induction false} ElemsMean(elems: seq<Value>) returns (values: seq<Value>)
    requires forall i | 0 <= i < |elems| :: WellFormed(elems[i])
    ensures |values| == |elems|
    ensures forall i | 0 <= i < |elems| :: Meaning(Normal(elems[i])) == W.Some(values[i]) && Same(elems[i], values[i])
    decreases elems, 2
  {
    values := [];
    if elems != [] {
      var first := NormalMeans(elems[0]);
      var rest := ElemsMean(elems[1..]);
      values := [first] + rest;
    }
  }

  lemma {:induction false} KeyMeans(k: Value)
    requires Hashable(k) && WellFormed(k)
    ensures MeaningOfKey(NormalKey(k)) == W.Some(k)
    decreases k, 3
  {
    if k.Tuple? {
      var w := NormalMeans(k);
      SameHashable(k, w);
      TupleKeyMeans(k);
    } else {
      PlainKeyMeans(k);
    }
  }

  /** What an item comes back as: its key, and a value that is the same up to order. */
  ghost predicate ItemMeans(item: (Value, Value), value: (Value, Value))
    requires WellFormedItem(item)
  {
    MemberMeans(NormalItem(item), value) && SameItem(item, value)
  }

  lemma {:induction false} ItemsMean(items: seq<(Value, Value)>) returns (values: seq<(Value, Value)>)
    requires forall i | 0 <= i < |items| :: WellFormedItem(items[i])
    ensures |values| == |items| && forall i | 0 <= i < |items| :: ItemMeans(items[i], values[i])
    decreases items, 4
  {
    values := [];
    if items != [] {
      var first := ItemMean(items[0]);
      var rest := ItemsMean(items[1..]);
      values := [first] + rest;
      forall i | 0 <= i < |items| ensures ItemMeans(items[i], values[i]) {
        assert i > 0 ==> items[1..][i - 1] == items[i] && ItemMeans(items[1..][i - 1], rest[i - 1]);
      }
    }
  }

  lemma {:induction false} ItemMean(item: (Value, Value)) returns (value: (Value, Value))
    requires WellFormedItem(item)
    ensures ItemMeans(item, value)
    decreases item, 5
  {
    KeyMeans(item.0);
    var w := NormalMeans(item.1);
    value := (item.0, w);
  }

  /** The members of the normal form are the items in another order; so are their meanings. */
  lemma Reordered(items: seq<(Value, Value)>, values: seq<(Value, Value)>, d: seq<(string, Json)>)
    returns (moved: seq<(Value, Value)>)
    requires |values| == |items|
    requires forall i | 0 <= i < |items| :: WellFormedItem(items[i]) && ItemMeans(items[i], values[i])
    requires multiset(d) == multiset(NormalItems(items))
    ensures |moved| == |d| && forall j | 0 <= j < |d| :: MemberMeans(d[j], moved[j])
  {
    moved := [];
    var pairs := NormalItems(items);
    for k := 0 to |d|
      invariant |moved| == k && forall j | 0 <= j < k :: MemberMeans(d[j], moved[j])
    {
      assert d[k] in multiset(d) && d[k] in multiset(pairs);
      var i :| 0 <= i < |pairs| && pairs[i] == d[k];
      assert pairs[i] == NormalItem(items[i]) && ItemMeans(items[i], values[i]);
      moved := moved + [values[i]];
    }
  }

  lemma SameReordered(
    items: seq<(Value, Value)>, values: seq<(Value, Value)>, d: seq<(string, Json)>, moved: seq<(Value, Value)>)
    requires |values| == |items|
    requires forall i | 0 <= i < |items| :: WellFormedItem(items[i]) && ItemMeans(items[i], values[i])
    requires multiset(d) == multiset(NormalItems(items)) && |d| == |items|
    requires |moved| == |d| && forall j | 0 <= j < |d| :: MemberMeans(d[j], moved[j])
    ensures Same(Dict(items), Dict(moved))
  {
    var pairs := NormalItems(items);
    forall i | 0 <= i < |items| ensures FoundIn(items[i], moved) {
      assert pairs[i] == NormalItem(items[i]) && pairs[i] in multiset(d);
      var j :| 0 <= j < |d| && d[j] == pairs[i];
      assert MemberMeans(d[j], moved[j]) && ItemMeans(items[i], values[i]);
      assert moved[j] == values[i];
      assert SameItem(items[i], moved[j]);
    }
  }

  lemma NotTagged(items: seq<(Value, Value)>)
    requires WellFormed(Dict(items))
    ensures !IsTagged(SortByKey(NormalItems(items)))
  {
    var d := SortByKey(NormalItems(items));
    DictForm(items);
    if IsTagged(d) {
      assert d[0] in multiset(NormalItems(items));
      var i :| 0 <= i < |items| && NormalItems(items)[i] == d[0];
      KeyStart(items[i].0);
    }
  }

  lemma DictMeans(items: seq<(Value, Value)>, values: seq<(Value, Value)>) returns (w: Value)
    requires WellFormed(Dict(items))
    requires |values| == |items| && forall i | 0 <= i < |items| :: ItemMeans(items[i], values[i])
    ensures Meaning(Normal(Dict(items))) == W.Some(w) && Same(Dict(items), w)
  {
    var d := SortByKey(NormalItems(items));
    DictForm(items);
    NotTagged(items);
    var moved := Reordered(items, values, d);
    MembersMean(d, moved);
    SameReordered(items, values, d, moved);
    w := Dict(moved);
  }

  /** The hashed text of every value is a JSON text that says the value, up to the order of dictionary entries. */
  lemma HashedTextMeans(v: Value)
    requires WellFormed(v)
    ensures TextMeans(HashedText(v)).Some? && Same(v, TextMeans(HashedText(v)).value)
  {
    ReadPrinted(Normal(v));
    var w := NormalMeans(v);
  }
}
