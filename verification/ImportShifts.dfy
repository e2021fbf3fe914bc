/** Removals that share a line: what the bottom-up splice loop of `fix_import_boundaries.py` then loses, and exactly
    when. */
module ImportShifts {
  import opened ImportFixer

  /** An import that moves into its only consumer. */
  datatype Move = Move(start: nat, end: nat, at: nat, text: Line)

  /** The edit list that `_apply_file` builds: a removal and an insertion for each applied import. */
  function EditsOf(moves: seq<Move>): seq<Edit> {
    if moves == [] then []
    else
      var m := moves[|moves| - 1];
      EditsOf(moves[..|moves| - 1]) + [Remove(m.start, m.end), Insert(m.at, m.text)]
  }

  /** Every edit is in range, and nothing is inserted strictly inside a removal; removals may share lines. */
  ghost predicate Outside(edits: seq<Edit>, n: nat) {
    && (forall i | 0 <= i < |edits| :: InRange(edits[i], n))
    && (forall i, j | 0 <= i < |edits| && 0 <= j < |edits| && edits[i].Remove? && edits[j].Insert? ::
          Apart(edits[i], edits[j]))
  }

  // Subsequences.

  /** `a` is `b` with some lines left out. */
  predicate Thinned(a: seq<Line>, b: seq<Line>) {
    a == [] || (b != [] && ((a[0] == b[0] && Thinned(a[1..], b[1..])) || Thinned(a, b[1..])))
  }

  lemma {:induction false} ThinnedSize(a: seq<Line>, b: seq<Line>)
    requires Thinned(a, b)
    ensures |a| <= |b| && (|a| == |b| ==> a == b)
  {
    if a != [] {
      if a[0] == b[0] && Thinned(a[1..], b[1..]) {
        ThinnedSize(a[1..], b[1..]);
        assert a == [a[0]] + a[1..] && b == [b[0]] + b[1..];
      } else {
        ThinnedSize(a, b[1..]);
      }
    }
  }

  lemma {:induction false} ThinnedBehind(x: seq<Line>, a: seq<Line>, b: seq<Line>)
    requires Thinned(a, b)
    ensures Thinned(x + a, x + b)
  {
    if x == [] {
      assert x + a == a && x + b == b;
    } else {
      assert (x + a)[1..] == x[1..] + a && (x + b)[1..] == x[1..] + b;
      ThinnedBehind(x[1..], a, b);
    }
  }

  lemma ThinnedSelf(a: seq<Line>)
    ensures Thinned(a, a)
  {
    ThinnedBehind(a, [], []);
    assert a + [] == a;
  }

  lemma {:induction false} ThinnedTail(a: seq<Line>, b: seq<Line>)
    requires Thinned(a, b) && a != []
    ensures b != [] && Thinned(a[1..], b[1..])
  {
    if !(a[0] == b[0] && Thinned(a[1..], b[1..])) {
      ThinnedTail(a, b[1..]);
    }
  }

  lemma {:induction false} ThinnedLonger(a: seq<Line>, x: seq<Line>, b: seq<Line>)
    requires Thinned(a, b)
    ensures Thinned(a, x + b)
  {
    if x == [] {
      assert x + b == b;
    } else {
      assert (x + b)[1..] == x[1..] + b;
      ThinnedLonger(a, x[1..], b);
    }
  }

  /** Dropping at least as much from the thinner list keeps it thinner. */
  lemma {:induction false} ThinnedDrop(a: seq<Line>, b: seq<Line>, m: nat, k: nat)
    requires Thinned(a, b) && k <= m && k <= |b|
    ensures Thinned(a[Min(m, |a|)..], b[k..])
    decreases m
  {
    if a == [] {
      assert a[Min(m, |a|)..] == [];
    } else if m == 0 {
      assert a[Min(m, |a|)..] == a && b[k..] == b;
    } else {
      ThinnedTail(a, b);
      ThinnedDrop(a[1..], b[1..], m - 1, if k == 0 then 0 else k - 1);
      DroppedOne(a, m);
      if k == 0 {
        ThinnedLonger(a[Min(m, |a|)..], [b[0]], b[1..]);
        FirstAndRest(b);
      } else {
        assert b[1..][k - 1..] == b[k..];
      }
    }
  }

  lemma DroppedOne(a: seq<Line>, m: nat)
    requires a != [] && m > 0
    ensures a[1..][Min(m - 1, |a| - 1)..] == a[Min(m, |a|)..]
  {
  }

  lemma FirstAndRest(b: seq<Line>)
    requires b != []
    ensures b[1..][0..] == b[1..] && [b[0]] + b[1..] == b && b[0..] == b
  {
  }

  // Splicing only loses lines.

  lemma BelowSplit(lines: seq<Line>, edits: seq<Edit>, k: nat, t: nat)
    requires k <= t <= |lines|
    ensures Below(lines, edits, k) == Flatten(Pieces(lines, edits)[k..t]) + Below(lines, edits, t)
  {
    var p := Pieces(lines, edits);
    FlattenSplit(p[k..], t - k);
    assert p[k..][..t - k] == p[k..t] && p[k..][t - k..] == p[t..];
  }

  /** No edit lies in the lines from `k` to `t`. */
  lemma BelowUntouched(lines: seq<Line>, edits: seq<Edit>, k: nat, t: nat)
    requires k <= t <= |lines| && AtOrBelow(edits, t)
    ensures Below(lines, edits, k) == lines[k..t] + Below(lines, edits, t)
  {
    var p := Pieces(lines, edits);
    BelowSplit(lines, edits, k, t);
    forall i | k <= i < t ensures p[i] == [lines[i]] {
      NoInsertions(edits, i);
      NothingAdded([lines[i]]);
    }
    FlattenLines(lines[k..t], p[k..t]);
  }

  /** The lines above `k` are as they were, and from `k` on only lines of the pass are left. */
  ghost predicate ThinBelow(s: seq<Line>, lines: seq<Line>, edits: seq<Edit>, k: nat)
    requires k <= |lines|
  {
    |s| >= k && s[..k] == lines[..k] && Thinned(s[k..], Below(lines, edits, k))
  }

  lemma ThinHigher(s: seq<Line>, lines: seq<Line>, edits: seq<Edit>, k: nat, t: nat)
    requires k <= t <= |lines| && AtOrBelow(edits, t) && ThinBelow(s, lines, edits, t)
    ensures ThinBelow(s, lines, edits, k)
  {
    BelowUntouched(lines, edits, k, t);
    ThinnedBehind(lines[k..t], s[t..], Below(lines, edits, t));
    assert s[k..] == s[k..t] + s[t..] && s[k..t] == s[..t][k..] == lines[..t][k..] == lines[k..t];
    assert s[..k] == s[..t][..k] == lines[..t][..k];
  }

  lemma ThinInsert(s: seq<Line>, lines: seq<Line>, edits: seq<Edit>, e: Edit)
    requires e.Insert? && e.at <= |lines| && ThinBelow(s, lines, edits, e.at)
    ensures ThinBelow(Spliced(s, e), lines, edits + [e], e.at)
  {
    BelowInsert(lines, edits, e);
    ThinnedBehind([e.text], s[e.at..], Below(lines, edits, e.at));
    var s' := Spliced(s, e);
    assert s'[e.at..] == [e.text] + s[e.at..] && s'[..e.at] == s[..e.at];
  }

  lemma {:induction false} FlattenShort(p: seq<seq<Line>>)
    requires forall i | 0 <= i < |p| :: |p[i]| <= 1
    ensures |Flatten(p)| <= |p|
  {
    if p != [] {
      FlattenShort(p[1..]);
    }
  }

  /** Nothing is inserted at the lines of the removal. */
  ghost predicate Bare(edits: seq<Edit>, e: Edit)
    requires e.Remove?
  {
    forall x | x in edits && x.Insert? :: x.at < e.start || e.end <= x.at
  }

  lemma RemovedPieces(lines: seq<Line>, edits: seq<Edit>, e: Edit, i: nat)
    requires e.Remove? && e.start < e.end <= |lines| && Bare(edits, e) && e.start <= i <= |lines|
    ensures Here(lines, edits + [e], i) == if i < e.end then [] else Here(lines, edits, i)
  {
    OneMore(edits, e, i);
    NothingAdded(InsertedAt(edits, i));
    if i < e.end {
      NoInsertions(edits, i);
    }
  }

  /** The removal leaves nothing of its own lines, and what was behind them. */
  lemma BelowRemoved(lines: seq<Line>, edits: seq<Edit>, e: Edit)
    requires e.Remove? && e.start < e.end <= |lines| && Bare(edits, e)
    ensures Below(lines, edits + [e], e.start) == Below(lines, edits, e.end)
  {
    PiecesTail(lines, edits, e);
    FlattenNothing(Pieces(lines, edits + [e])[e.start..e.end]);
    BelowSplit(lines, edits + [e], e.start, e.end);
    NothingAdded(Below(lines, edits + [e], e.end));
  }

  lemma PiecesTail(lines: seq<Line>, edits: seq<Edit>, e: Edit)
    requires e.Remove? && e.start < e.end <= |lines| && Bare(edits, e)
    ensures var p' := Pieces(lines, edits + [e]);
      && p'[e.end..] == Pieces(lines, edits)[e.end..]
      && forall i | 0 <= i < e.end - e.start :: p'[e.start..e.end][i] == []
  {
    forall i | e.start <= i <= |lines|
      ensures Here(lines, edits + [e], i) == if i < e.end then [] else Here(lines, edits, i)
    {
      RemovedPieces(lines, edits, e, i);
    }
  }

  /** The lines of the removal hold at most one line each. */
  lemma RemovedIsShort(lines: seq<Line>, edits: seq<Edit>, e: Edit) returns (k: nat)
    requires e.Remove? && e.start < e.end <= |lines| && Bare(edits, e)
    ensures k <= e.end - e.start && k <= |Below(lines, edits, e.start)|
    ensures Below(lines, edits, e.start)[k..] == Below(lines, edits, e.end)
  {
    var p := Pieces(lines, edits)[e.start..e.end];
    forall i | 0 <= i < |p| ensures |p[i]| <= 1 {
      NoInsertions(edits, e.start + i);
    }
    FlattenShort(p);
    BelowSplit(lines, edits, e.start, e.end);
    k := |Flatten(p)|;
  }

  lemma ThinRemove(s: seq<Line>, lines: seq<Line>, edits: seq<Edit>, e: Edit)
    requires e.Remove? && e.start < e.end <= |lines| && Bare(edits, e) && ThinBelow(s, lines, edits, e.start)
    ensures ThinBelow(Spliced(s, e), lines, edits + [e], e.start)
  {
    var k := RemovedIsShort(lines, edits, e);
    BelowRemoved(lines, edits, e);
    ThinnedDrop(s[e.start..], Below(lines, edits, e.start), e.end - e.start, k);
    CutShort(s, e);
    assert Below(lines, edits, e.start)[k..] == Below(lines, edits + [e], e.start);
  }

  lemma CutShort(s: seq<Line>, e: Edit)
    requires e.Remove? && e.start < e.end && e.start <= |s|
    ensures var x, s' := s[e.start..], Spliced(s, e);
      |s'| >= e.start && s'[..e.start] == s[..e.start] && s'[e.start..] == x[Min(e.end - e.start, |x|)..]
  {
  }

  lemma BareIfDescending(edits: seq<Edit>, e: Edit, n: nat)
    requires e.Remove? && Outside(edits + [e], n) && Descending(edits + [e])
    ensures Bare(edits, e)
  {
    var all := edits + [e];
    assert all[|edits|] == e;
    forall x | x in edits && x.Insert? ensures x.at < e.start || e.end <= x.at {
      var i :| 0 <= i < |edits| && edits[i] == x;
      assert all[i] == x && Apart(all[|edits|], all[i]) && !Before(Key(all[i]), Key(all[|edits|]));
    }
  }

  lemma OutsideFront(front: seq<Edit>, last: Edit, n: nat)
    requires Outside(front + [last], n) && Descending(front + [last])
    ensures Outside(front, n) && Descending(front) && InRange(last, n) && AtOrBelow(front, Key(last).0)
  {
    var all := front + [last];
    assert all[|front|] == last;
    forall i | 0 <= i < |front| ensures InRange(front[i], n) && !Before(Key(front[i]), Key(last)) {
      assert front[i] == all[i] && !Before(Key(all[i]), Key(all[|front|]));
    }
    forall i, j | 0 <= i < |front| && 0 <= j < |front| && front[i].Remove? && front[j].Insert?
      ensures Apart(front[i], front[j])
    {
      assert front[i] == all[i] && front[j] == all[j];
    }
    DescendingSnoc(front, last);
  }

  lemma NothingSplicedIsThin(lines: seq<Line>, k: nat)
    requires k <= |lines|
    ensures ThinBelow(lines, lines, [], k)
  {
    BelowUntouched(lines, [], k, |lines|);
    assert Pieces(lines, [])[|lines|..] == [[]];
    FlattenOne([]);
    NothingAdded(lines[k..]);
    assert lines[k..|lines|] == lines[k..];
    assert Below(lines, [], k) == lines[k..];
    ThinnedSelf(lines[k..]);
  }

  lemma SpliceThins(s: seq<Line>, lines: seq<Line>, front: seq<Edit>, e: Edit)
    requires Outside(front + [e], |lines|) && Descending(front + [e])
    requires Key(e).0 <= |lines| && ThinBelow(s, lines, front, Key(e).0) && InRange(e, |lines|)
    ensures ThinBelow(Spliced(s, e), lines, front + [e], Key(e).0)
  {
    if e.Remove? {
      BareIfDescending(front, e, |lines|);
      ThinRemove(s, lines, front, e);
    } else {
      ThinInsert(s, lines, front, e);
    }
  }

  lemma {:induction false} SplicesThin(lines: seq<Line>, edits: seq<Edit>, k: nat)
    requires Outside(edits, |lines|) && Descending(edits) && AtOrBelow(edits, k) && k <= |lines|
    ensures ThinBelow(AllSpliced(lines, edits), lines, edits, k)
    decreases |edits|
  {
    if edits == [] {
      NothingSplicedIsThin(lines, k);
    } else {
      var front, e := edits[..|edits| - 1], edits[|edits| - 1];
      assert edits == front + [e];
      OutsideFront(front, e, |lines|);
      var at := Key(e).0;
      SplicesThin(lines, front, at);
      SpliceThins(AllSpliced(lines, front), lines, front, e);
      assert e in edits;
      ThinHigher(AllSpliced(lines, edits), lines, edits, k, at);
    }
  }

  lemma SortedStaysOutside(edits: seq<Edit>, n: nat)
    requires Outside(edits, n)
    ensures Outside(Sorted(edits), n)
  {
    var s := Sorted(edits);
    SortedIsDescending(edits);
    SameMembers(edits, s);
    forall i | 0 <= i < |s| ensures InRange(s[i], n) {
      var k := PlaceOf(edits, s[i]);
    }
    forall i, j | 0 <= i < |s| && 0 <= j < |s| && s[i].Remove? && s[j].Insert? ensures Apart(s[i], s[j]) {
      var k := PlaceOf(edits, s[i]);
      var l := PlaceOf(edits, s[j]);
    }
  }

  lemma PlaceOf(edits: seq<Edit>, e: Edit) returns (i: nat)
    requires e in edits
    ensures i < |edits| && edits[i] == e
  {
    i :| 0 <= i < |edits| && edits[i] == e;
  }

  lemma SortedPass(lines: seq<Line>, edits: seq<Edit>)
    ensures Pass(lines, Sorted(edits)) == Pass(lines, edits)
  {
    var sorted := Sorted(edits);
    SortedIsDescending(edits);
    SameMembers(edits, sorted);
    forall i: nat ensures Here(lines, sorted, i) == Here(lines, edits, i) {
      SortedKeepsInsertions(edits, i);
    }
    assert Pieces(lines, sorted) == Pieces(lines, edits);
  }

  /** Whatever lines the removals share: splicing from the bottom up adds nothing to the one-pass result and keeps
      its order; at worst it loses lines of it. */
  lemma SplicingOnlyLoses(lines: seq<Line>, edits: seq<Edit>)
    requires Outside(edits, |lines|)
    ensures Thinned(AllSpliced(lines, Sorted(edits)), Pass(lines, edits))
  {
    var sorted := Sorted(edits);
    SortedIsDescending(edits);
    SortedStaysOutside(edits, |lines|);
    SplicesThin(lines, sorted, 0);
    SortedPass(lines, edits);
    assert AllSpliced(lines, sorted)[0..] == AllSpliced(lines, sorted);
    assert Pieces(lines, sorted)[0..] == Pieces(lines, sorted);
  }

  // So the lengths decide, and they follow from the line ranges alone.

  function LengthAfter(length: nat, e: Edit): nat {
    match e
    case Remove(start, end) =>
      var lo := Min(start, length);
      if end <= lo then length else lo + (length - Min(end, length))
    case Insert(_, _) => length + 1
  }

  /** The number of lines after the splices, from the number of lines before. */
  function SplicedLength(n: nat, edits: seq<Edit>): nat {
    if edits == [] then n else LengthAfter(SplicedLength(n, edits[..|edits| - 1]), edits[|edits| - 1])
  }

  lemma {:induction false} SplicedLengthIsLength(lines: seq<Line>, edits: seq<Edit>)
    ensures |AllSpliced(lines, edits)| == SplicedLength(|lines|, edits)
  {
    if edits != [] {
      SplicedLengthIsLength(lines, edits[..|edits| - 1]);
    }
  }

  function Removed(edits: seq<Edit>, n: nat): set<nat> {
    set i: nat | i < n && RemovedAt(edits, i)
  }

  function Insertions(edits: seq<Edit>): nat {
    if edits == [] then 0
    else Insertions(edits[..|edits| - 1]) + if edits[|edits| - 1].Insert? then 1 else 0
  }

  lemma {:induction false} TextsCount(edits: seq<Edit>)
    ensures |Texts(edits)| == Insertions(edits)
  {
    if edits != [] {
      TextsCount(edits[..|edits| - 1]);
    }
  }

  function GonePieces(lines: seq<Line>, edits: seq<Edit>): seq<seq<Line>> {
    seq(|lines| + 1, i requires 0 <= i => if i < |lines| && RemovedAt(edits, i) then [lines[i]] else [])
  }

  lemma {:induction false} GoneCount(lines: seq<Line>, edits: seq<Edit>, k: nat)
    requires k <= |lines|
    ensures |Flatten(GonePieces(lines, edits)[..k])| == |Removed(edits, k)|
  {
    var p := GonePieces(lines, edits);
    if k == 0 {
      assert Removed(edits, 0) == {};
    } else {
      GoneCount(lines, edits, k - 1);
      FlattenOneMore(p, k - 1);
      RemovedSize(edits, k - 1);
    }
  }

  lemma FlattenOneMore(p: seq<seq<Line>>, k: nat)
    requires k < |p|
    ensures Flatten(p[..k + 1]) == Flatten(p[..k]) + p[k]
  {
    assert p[..k + 1] == p[..k] + [p[k]];
    FlattenConcat(p[..k], [p[k]]);
    FlattenOne(p[k]);
  }

  lemma RemovedSize(edits: seq<Edit>, k: nat)
    ensures |Removed(edits, k + 1)| == |Removed(edits, k)| + if RemovedAt(edits, k) then 1 else 0
  {
    assert Removed(edits, k + 1) == Removed(edits, k) + if RemovedAt(edits, k) then {k} else {};
  }

  lemma FlattenOne(x: seq<Line>)
    ensures Flatten([x]) == x
  {
    assert [x][1..] == [];
    NothingAdded(x);
  }

  lemma PassLength(lines: seq<Line>, edits: seq<Edit>)
    requires forall i | 0 <= i < |edits| :: InRange(edits[i], |lines|)
    ensures |Pass(lines, edits)| + |Removed(edits, |lines|)| == |lines| + Insertions(edits)
  {
    PassAndGone(lines, edits, Own(lines));
    OwnIsLines(lines);
    AllInserted(edits, |lines|);
    TextsCount(edits);
    MultisetSizes(Pass(lines, edits), Gone(lines, edits), lines, Texts(edits));
    var p := GonePieces(lines, edits);
    GoneCount(lines, edits, |lines|);
    FlattenSplit(p, |lines|);
    assert p[|lines|..] == [[]];
    FlattenOne([]);
  }

  lemma MultisetSizes(a: seq<Line>, b: seq<Line>, c: seq<Line>, d: seq<Line>)
    requires multiset(a) + multiset(b) == multiset(c) + multiset(d)
    ensures |a| + |b| == |c| + |d|
  {
    assert |multiset(a) + multiset(b)| == |a| + |b|;
    assert |multiset(c) + multiset(d)| == |c| + |d|;
  }

  /** For every file and every edit list with insertions outside the removals: bottom-up splicing is the one-pass
      edit if and only if the lengths agree, which the line ranges and the number of lines decide. */
  lemma SpliceIsPassIff(lines: seq<Line>, edits: seq<Edit>)
    requires Outside(edits, |lines|)
    ensures AllSpliced(lines, Sorted(edits)) == Pass(lines, edits) <==>
            SplicedLength(|lines|, Sorted(edits)) + |Removed(edits, |lines|)| == |lines| + Insertions(edits)
  {
    SplicingOnlyLoses(lines, edits);
    ThinnedSize(AllSpliced(lines, Sorted(edits)), Pass(lines, edits));
    SplicedLengthIsLength(lines, Sorted(edits));
    PassLength(lines, edits);
  }

  // With enough lines behind the removals, a shared line always costs a surviving one.

  function Size(e: Edit): nat {
    if e.Remove? && e.start < e.end then e.end - e.start else 0
  }

  /** The lines removed, a shared line counted every time. */
  function TotalRemoved(edits: seq<Edit>): nat {
    if edits == [] then 0 else TotalRemoved(edits[..|edits| - 1]) + Size(edits[|edits| - 1])
  }

  /** No two removals share a line. */
  ghost predicate NoSharedLine(edits: seq<Edit>) {
    forall i, j | 0 <= i < j < |edits| && edits[i].Remove? && edits[j].Remove? :: Apart(edits[i], edits[j])
  }

  function Interval(lo: nat, hi: nat): set<nat> {
    set i: nat | i < hi && AtLeast(i, lo)
  }

  predicate AtLeast(i: nat, lo: nat) {
    lo <= i
  }

  lemma {:induction false} IntervalSize(lo: nat, hi: nat)
    requires lo <= hi
    ensures |Interval(lo, hi)| == hi - lo
    decreases hi
  {
    if lo == hi {
      assert Interval(lo, hi) == {};
    } else {
      IntervalSize(lo, hi - 1);
      assert Interval(lo, hi) == Interval(lo, hi - 1) + {hi - 1};
    }
  }

  lemma RemovedOneMore(edits: seq<Edit>, e: Edit, n: nat)
    requires InRange(e, n)
    ensures Removed(edits + [e], n) == Removed(edits, n) + if e.Remove? then Interval(e.start, e.end) else {}
  {
    forall i: nat ensures RemovedAt(edits + [e], i) <==> RemovedAt(edits, i) || (e.Remove? && e.start <= i < e.end) {
      OneMore(edits, e, i);
    }
  }

  /** A removal meets an earlier one exactly when it contains a line already removed. */
  lemma MeetsIff(edits: seq<Edit>, e: Edit, n: nat)
    requires e.Remove? && InRange(e, n) && forall i | 0 <= i < |edits| :: InRange(edits[i], n)
    ensures Removed(edits, n) * Interval(e.start, e.end) == {} <==>
            forall i | 0 <= i < |edits| && edits[i].Remove? :: Apart(edits[i], e)
  {
    var both := Removed(edits, n) * Interval(e.start, e.end);
    if i :| 0 <= i < |edits| && edits[i].Remove? && !Apart(edits[i], e) {
      assert InRange(edits[i], n);
      var k := if edits[i].start < e.start then e.start else edits[i].start;
      assert edits[i] in edits && RemovedAt(edits, k) && k in both;
    }
    if k :| k in both {
      var x :| x in edits && x.Remove? && x.start <= k < x.end;
      var i := PlaceOf(edits, x);
      assert !Apart(edits[i], e);
    }
  }

  lemma NoSharedLineSnoc(edits: seq<Edit>, e: Edit)
    ensures NoSharedLine(edits + [e]) <==>
            NoSharedLine(edits) && (e.Remove? ==> forall i | 0 <= i < |edits| && edits[i].Remove? :: Apart(edits[i], e))
  {
    var all := edits + [e];
    assert all[|edits|] == e && forall i | 0 <= i < |edits| :: all[i] == edits[i];
    if NoSharedLine(all) && e.Remove? {
      forall i | 0 <= i < |edits| && edits[i].Remove? ensures Apart(edits[i], e) {
        assert Apart(all[i], all[|edits|]);
      }
    }
    if NoSharedLine(all) {
      forall i, j | 0 <= i < j < |edits| && edits[i].Remove? && edits[j].Remove? ensures Apart(edits[i], edits[j]) {
        assert Apart(all[i], all[j]);
      }
    }
  }

  lemma UnionSize(a: set<nat>, b: set<nat>)
    ensures |a + b| <= |a| + |b| && (|a + b| == |a| + |b| <==> a * b == {}) && a + {} == a
  {
    assert |a + b| + |a * b| == |a| + |b|;
  }

  /** Shared lines are exactly what makes the total exceed the number of lines removed. */
  lemma {:induction false} SharedIffCountedTwice(edits: seq<Edit>, n: nat)
    requires forall i | 0 <= i < |edits| :: InRange(edits[i], n)
    ensures |Removed(edits, n)| <= TotalRemoved(edits)
    ensures |Removed(edits, n)| == TotalRemoved(edits) <==> NoSharedLine(edits)
  {
    if edits == [] {
      assert Removed([], n) == {};
    } else {
      var front, e := edits[..|edits| - 1], edits[|edits| - 1];
      assert edits == front + [e] && InRange(edits[|edits| - 1], n);
      SharedIffCountedTwice(front, n);
      NoSharedLineSnoc(front, e);
      CountOneMore(front, e, n);
    }
  }

  lemma CountOneMore(front: seq<Edit>, e: Edit, n: nat)
    requires InRange(e, n) && forall i | 0 <= i < |front| :: InRange(front[i], n)
    ensures |Removed(front + [e], n)| <= |Removed(front, n)| + Size(e)
    ensures |Removed(front + [e], n)| == |Removed(front, n)| + Size(e) <==>
            (e.Remove? ==> forall i | 0 <= i < |front| && front[i].Remove? :: Apart(front[i], e))
  {
    RemovedOneMore(front, e, n);
    if e.Remove? {
      MeetsIff(front, e, n);
      IntervalSize(e.start, e.end);
      UnionSize(Removed(front, n), Interval(e.start, e.end));
    } else {
      UnionSize(Removed(front, n), {});
    }
  }

  lemma {:induction false} PlacedTotals(edits: seq<Edit>, e: Edit)
    ensures TotalRemoved(Placed(edits, e)) == TotalRemoved(edits) + Size(e)
    ensures Insertions(Placed(edits, e)) == Insertions(edits) + if e.Insert? then 1 else 0
  {
    if edits == [] || !Before(Key(edits[|edits| - 1]), Key(e)) {
      assert (edits + [e])[..|edits|] == edits;
    } else {
      var front, last := edits[..|edits| - 1], edits[|edits| - 1];
      PlacedTotals(front, e);
      var p := Placed(front, e) + [last];
      assert p[..|p| - 1] == Placed(front, e);
    }
  }

  lemma {:induction false} SortedTotals(edits: seq<Edit>)
    ensures TotalRemoved(Sorted(edits)) == TotalRemoved(edits) && Insertions(Sorted(edits)) == Insertions(edits)
  {
    if edits != [] {
      SortedTotals(edits[..|edits| - 1]);
      PlacedTotals(Sorted(edits[..|edits| - 1]), edits[|edits| - 1]);
    }
  }

  /** The removals could all be made below each other. */
  ghost predicate Roomy(edits: seq<Edit>, total: nat, n: nat) {
    forall e | e in edits && e.Remove? :: e.end + total <= n
  }

  lemma {:induction false} RoomySplices(n: nat, edits: seq<Edit>, total: nat)
    requires Roomy(edits, total, n) && TotalRemoved(edits) <= total
    requires forall i | 0 <= i < |edits| :: InRange(edits[i], n)
    ensures SplicedLength(n, edits) + TotalRemoved(edits) == n + Insertions(edits)
  {
    if edits != [] {
      var front, e := edits[..|edits| - 1], edits[|edits| - 1];
      assert e in edits && InRange(edits[|edits| - 1], n);
      RoomySplices(n, front, total);
    }
  }

  /** If behind every removal there are at least as many lines as are removed in all, splicing is the one-pass edit
      if and only if no two removals share a line: each shared line takes a surviving line with it. */
  lemma SharedLineShifts(lines: seq<Line>, edits: seq<Edit>)
    requires Outside(edits, |lines|) && Roomy(edits, TotalRemoved(edits), |lines|)
    ensures AllSpliced(lines, Sorted(edits)) == Pass(lines, edits) <==> NoSharedLine(edits)
    ensures |Pass(lines, edits)| - |AllSpliced(lines, Sorted(edits))| ==
            TotalRemoved(edits) - |Removed(edits, |lines|)|
  {
    var n, sorted := |lines|, Sorted(edits);
    SortedIsDescending(edits);
    SameMembers(edits, sorted);
    SortedStaysOutside(edits, n);
    SortedTotals(edits);
    RoomySplices(n, sorted, TotalRemoved(edits));
    SpliceIsPassIff(lines, edits);
    SharedIffCountedTwice(edits, n);
    SplicedLengthIsLength(lines, sorted);
    PassLength(lines, edits);
  }

  // Two imports on one line.

  lemma EditsOfTwo(m: Move, w: Move)
    ensures EditsOf([m, w])
         == [Remove(m.start, m.end), Insert(m.at, m.text), Remove(w.start, w.end), Insert(w.at, w.text)]
  {
    assert [m, w][..1] == [m] && [m][..0] == [];
    assert EditsOf([m]) == EditsOf([]) + [Remove(m.start, m.end), Insert(m.at, m.text)];
  }

  lemma TotalOfTwo(m: Move, w: Move)
    requires m.start < m.end && w.start < w.end
    ensures TotalRemoved(EditsOf([m, w])) == (m.end - m.start) + (w.end - w.start)
  {
    EditsOfTwo(m, w);
    var r, i, s, j := Remove(m.start, m.end), Insert(m.at, m.text), Remove(w.start, w.end), Insert(w.at, w.text);
    TotalSnoc([], r);
    TotalSnoc([r], i);
    TotalSnoc([r, i], s);
    TotalSnoc([r, i, s], j);
    assert [] + [r] == [r] && [r] + [i] == [r, i] && [r, i] + [s] == [r, i, s] && [r, i, s] + [j] == [r, i, s, j];
  }

  lemma TotalSnoc(edits: seq<Edit>, e: Edit)
    ensures TotalRemoved(edits + [e]) == TotalRemoved(edits) + Size(e)
  {
    assert (edits + [e])[..|edits|] == edits;
  }

  lemma OutsideTwo(m: Move, w: Move, n: nat, k: nat)
    requires m.start == w.start == k && m.end == w.end == k + 1 && k < m.at <= n && k < w.at <= n && k + 3 <= n
    ensures Outside(EditsOf([m, w]), n) && Roomy(EditsOf([m, w]), 2, n) && !NoSharedLine(EditsOf([m, w]))
    ensures Removed(EditsOf([m, w]), n) == {k}
  {
    EditsOfTwo(m, w);
    var edits := EditsOf([m, w]);
    assert !Apart(edits[0], edits[2]);
    forall i: nat ensures RemovedAt(edits, i) <==> i == k {
      assert edits[0] in edits;
    }
  }

  /** In every file: two imports that share a line, alone on it, and move to consumers further down take exactly one
      surviving line with them, if two more lines follow. */
  lemma TwoImportsOnOneLine(lines: seq<Line>, m: Move, w: Move, k: nat)
    requires m.start == w.start == k && m.end == w.end == k + 1
    requires k < m.at <= |lines| && k < w.at <= |lines| && k + 3 <= |lines|
    ensures var edits := EditsOf([m, w]);
      && Thinned(AllSpliced(lines, Sorted(edits)), Pass(lines, edits))
      && |Pass(lines, edits)| == |AllSpliced(lines, Sorted(edits))| + 1
  {
    var edits := EditsOf([m, w]);
    OutsideTwo(m, w, |lines|, k);
    TotalOfTwo(m, w);
    SharedLineShifts(lines, edits);
    SplicingOnlyLoses(lines, edits);
  }
}
