/** The edit engine of `fix_import_boundaries.py`: removals and insertions, recorded against the original lines, are
    spliced into a copy from the bottom up. */
module ImportFixer {

  /** A line of the file with its line end. */
  datatype Line = Line(text: string)

  datatype Edit = Remove(start: nat, end: nat) | Insert(at: nat, text: Line)

  /** The line an edit is recorded at, and its rank among the edits of that line. */
  function Key(e: Edit): (int, int) {
    match e
    case Remove(start, _) => (start, 1)
    case Insert(at, _) => (at, 0)
  }

  predicate Before(a: (int, int), b: (int, int)) {
    a.0 < b.0 || (a.0 == b.0 && a.1 < b.1)
  }

  /** Puts an edit behind every one whose key is not smaller. */
  function Placed(edits: seq<Edit>, e: Edit): seq<Edit> {
    if edits == [] || !Before(Key(edits[|edits| - 1]), Key(e)) then edits + [e]
    else Placed(edits[..|edits| - 1], e) + [edits[|edits| - 1]]
  }

  /** The edits by descending key, those of equal key in their original order. */
  function Sorted(edits: seq<Edit>): seq<Edit> {
    if edits == [] then [] else Placed(Sorted(edits[..|edits| - 1]), edits[|edits| - 1])
  }

  function Min(a: nat, b: nat): nat {
    if a < b then a else b
  }

  /** `del lines[start:end]` or `lines.insert(at, text)`, with positions cut to the length of the list. */
  function Spliced(lines: seq<Line>, e: Edit): seq<Line> {
    match e
    case Remove(start, end) =>
      var lo := Min(start, |lines|);
      if end <= lo then lines else lines[..lo] + lines[Min(end, |lines|)..]
    case Insert(at, text) =>
      var i := Min(at, |lines|);
      lines[..i] + [text] + lines[i..]
  }

  function AllSpliced(lines: seq<Line>, edits: seq<Edit>): seq<Line> {
    if edits == [] then lines else Spliced(AllSpliced(lines, edits[..|edits| - 1]), edits[|edits| - 1])
  }

  method SortEdits(edits: seq<Edit>) returns (sorted: seq<Edit>)
    ensures sorted == Sorted(edits)
    ensures multiset(sorted) == multiset(edits) && Descending(sorted)
  {
    sorted := [];
    for i := 0 to |edits|
      invariant sorted == Sorted(edits[..i])
    {
      assert edits[..i + 1][..i] == edits[..i];
      sorted := Placed(sorted, edits[i]);
    }
    assert edits[..|edits|] == edits;
    SortedIsDescending(edits);
  }

  /** The splice loop of `_apply_file`. */
  method ApplyEdits(lines: seq<Line>, edits: seq<Edit>) returns (updated: seq<Line>)
    ensures updated == AllSpliced(lines, Sorted(edits))
    ensures Separate(edits, |lines|) ==> updated == Pass(lines, edits)
  {
    var sorted := SortEdits(edits);
    updated := lines;
    for k := 0 to |sorted|
      invariant updated == AllSpliced(lines, sorted[..k])
    {
      assert sorted[..k + 1][..k] == sorted[..k];
      match sorted[k]
      case Remove(start, end) =>
        var lo := Min(start, |updated|);
        if lo < end {
          updated := updated[..lo] + updated[Min(end, |updated|)..];
        }
      case Insert(at, text) =>
        var i := Min(at, |updated|);
        updated := updated[..i] + [text] + updated[i..];
    }
    assert sorted[..|sorted|] == sorted;
    if Separate(edits, |lines|) {
      BottomUpIsOnePass(lines, edits);
    }
  }

  // One simultaneous pass over the original lines.

  predicate RemovedAt(edits: seq<Edit>, i: nat) {
    exists e :: e in edits && e.Remove? && e.start <= i < e.end
  }

  /** The texts inserted before line `i`, the last recorded first. */
  function InsertedAt(edits: seq<Edit>, i: nat): seq<Line> {
    if edits == [] then []
    else
      var e := edits[|edits| - 1];
      (if e.Insert? && e.at == i then [e.text] else []) + InsertedAt(edits[..|edits| - 1], i)
  }

  function LineAt(lines: seq<Line>, edits: seq<Edit>, i: nat): seq<Line> {
    if i >= |lines| || RemovedAt(edits, i) then [] else [lines[i]]
  }

  /** What the edits leave at line `i`, or behind the last line: the insertions, then the line unless removed. */
  function Here(lines: seq<Line>, edits: seq<Edit>, i: nat): seq<Line> {
    InsertedAt(edits, i) + LineAt(lines, edits, i)
  }

  function Flatten(pieces: seq<seq<Line>>): seq<Line> {
    if pieces == [] then [] else pieces[0] + Flatten(pieces[1..])
  }

  function Pieces(lines: seq<Line>, edits: seq<Edit>): seq<seq<Line>> {
    seq(|lines| + 1, i requires 0 <= i => Here(lines, edits, i))
  }

  function Pass(lines: seq<Line>, edits: seq<Edit>): seq<Line> {
    Flatten(Pieces(lines, edits))
  }

  /** Two edits that do not meet: removals share no line, and nothing is inserted strictly inside a removal. */
  predicate Apart(a: Edit, b: Edit) {
    match (a, b)
    case (Remove(s, t), Remove(s', t')) => t <= s' || t' <= s
    case (Remove(s, t), Insert(at, _)) => at <= s || t <= at
    case (Insert(at, _), Remove(s, t)) => at <= s || t <= at
    case (Insert(_, _), Insert(_, _)) => true
  }

  predicate InRange(e: Edit, n: nat) {
    match e
    case Remove(start, end) => start < end <= n
    case Insert(at, _) => at <= n
  }

  ghost predicate Separate(edits: seq<Edit>, n: nat) {
    && (forall i | 0 <= i < |edits| :: InRange(edits[i], n))
    && (forall i, j | 0 <= i < j < |edits| :: Apart(edits[i], edits[j]))
  }

  // Sorting.

  ghost predicate Descending(edits: seq<Edit>) {
    forall i, j | 0 <= i < j < |edits| :: !Before(Key(edits[i]), Key(edits[j]))
  }

  lemma DescendingSnoc(edits: seq<Edit>, e: Edit)
    ensures Descending(edits + [e]) <==> Descending(edits) && forall x | x in edits :: !Before(Key(x), Key(e))
  {
    var all := edits + [e];
    forall x | x in edits && Descending(all) ensures !Before(Key(x), Key(e)) {
      var i :| 0 <= i < |edits| && edits[i] == x;
      assert !Before(Key(all[i]), Key(all[|edits|]));
    }
    if Descending(all) {
      forall i, j | 0 <= i < j < |edits| ensures !Before(Key(edits[i]), Key(edits[j])) {
        assert !Before(Key(all[i]), Key(all[j]));
      }
    }
  }

  lemma {:induction false} PlacedMembers(edits: seq<Edit>, e: Edit)
    ensures multiset(Placed(edits, e)) == multiset(edits) + multiset{e}
  {
    if edits != [] && Before(Key(edits[|edits| - 1]), Key(e)) {
      var front, last := edits[..|edits| - 1], edits[|edits| - 1];
      PlacedMembers(front, e);
      assert edits == front + [last];
    }
  }

  lemma {:induction false} PlacedIsDescending(edits: seq<Edit>, e: Edit)
    requires Descending(edits)
    ensures Descending(Placed(edits, e))
  {
    if edits == [] {
    } else {
      var front, last := edits[..|edits| - 1], edits[|edits| - 1];
      assert edits == front + [last];
      DescendingSnoc(front, last);
      if Before(Key(last), Key(e)) {
        PlacedIsDescending(front, e);
        PlacedMembers(front, e);
        SameMembers(Placed(front, e), front + [e]);
        DescendingSnoc(Placed(front, e), last);
      } else {
        DescendingSnoc(edits, e);
      }
    }
  }

  lemma {:induction false} SortedIsDescending(edits: seq<Edit>)
    ensures multiset(Sorted(edits)) == multiset(edits)
    ensures Descending(Sorted(edits))
  {
    if edits != [] {
      var front, last := edits[..|edits| - 1], edits[|edits| - 1];
      SortedIsDescending(front);
      PlacedIsDescending(Sorted(front), last);
      PlacedMembers(Sorted(front), last);
      assert edits == front + [last];
    }
  }

  lemma {:induction false} PlacedKeepsInsertions(edits: seq<Edit>, e: Edit, i: nat)
    ensures InsertedAt(Placed(edits, e), i) == InsertedAt(edits + [e], i)
  {
    assert (edits + [e])[..|edits|] == edits;
    if edits != [] && Before(Key(edits[|edits| - 1]), Key(e)) {
      var front, last := edits[..|edits| - 1], edits[|edits| - 1];
      PlacedKeepsInsertions(front, e, i);
      assert (front + [e])[..|front|] == front;
      var placed := Placed(front, e) + [last];
      assert placed[..|placed| - 1] == Placed(front, e);
    }
  }

  /** Sorting is stable: insertions at one line keep their order. */
  lemma {:induction false} SortedKeepsInsertions(edits: seq<Edit>, i: nat)
    ensures InsertedAt(Sorted(edits), i) == InsertedAt(edits, i)
  {
    if edits != [] {
      var front, last := edits[..|edits| - 1], edits[|edits| - 1];
      SortedKeepsInsertions(front, i);
      PlacedKeepsInsertions(Sorted(front), last, i);
      var s := Sorted(front) + [last];
      assert s[..|s| - 1] == Sorted(front);
    }
  }

  lemma SortedStaysSeparate(edits: seq<Edit>, n: nat)
    requires Separate(edits, n)
    ensures Separate(Sorted(edits), n)
  {
    SortedIsDescending(edits);
    PermutedStaysSeparate(edits, Sorted(edits), n);
  }

  lemma ApartIsSymmetric(a: Edit, b: Edit)
    ensures Apart(a, b) == Apart(b, a)
  {
  }

  lemma PermutedStaysSeparate(edits: seq<Edit>, t: seq<Edit>, n: nat)
    requires Separate(edits, n) && multiset(edits) == multiset(t)
    ensures Separate(t, n)
  {
    forall i | 0 <= i < |t| ensures InRange(t[i], n) {
      assert t[i] in multiset(edits);
    }
    forall i, j | 0 <= i < j < |t| ensures Apart(t[i], t[j]) {
      TwoOf(t, i, j);
      TwoFrom(edits, t[i], t[j], n);
    }
  }

  lemma TwoOf(t: seq<Edit>, i: nat, j: nat)
    requires i < j < |t|
    ensures multiset{t[i], t[j]} <= multiset(t)
  {
    assert t == t[..i] + [t[i]] + t[i + 1..j] + [t[j]] + t[j + 1..];
  }

  lemma TwoFrom(edits: seq<Edit>, a: Edit, b: Edit, n: nat)
    requires Separate(edits, n) && multiset{a, b} <= multiset(edits)
    ensures Apart(a, b)
  {
    var i, j := TwoPlaces(edits, a, b);
    if j < i {
      assert Apart(edits[j], edits[i]);
      ApartIsSymmetric(a, b);
    } else {
      assert Apart(edits[i], edits[j]);
    }
  }

  lemma Without(edits: seq<Edit>, i: nat)
    requires i < |edits|
    ensures multiset(edits) == multiset{edits[i]} + multiset(edits[..i] + edits[i + 1..])
  {
    assert edits == edits[..i] + ([edits[i]] + edits[i + 1..]);
  }

  lemma TwoPlaces(edits: seq<Edit>, a: Edit, b: Edit) returns (i: nat, j: nat)
    requires multiset{a, b} <= multiset(edits)
    ensures i < |edits| && j < |edits| && i != j && edits[i] == a && edits[j] == b
  {
    assert a in multiset{a, b};
    i :| i < |edits| && edits[i] == a;
    Without(edits, i);
    var rest := edits[..i] + edits[i + 1..];
    assert multiset{b} <= multiset(rest);
    assert b in multiset{b};
    var k: nat :| k < |rest| && rest[k] == b;
    j := if k < i then k else k + 1;
  }

  // Bottom-up splicing is the pass.

  lemma {:induction false} FlattenConcat(p: seq<seq<Line>>, q: seq<seq<Line>>)
    ensures Flatten(p + q) == Flatten(p) + Flatten(q)
  {
    if p == [] {
      assert p + q == q;
      NothingAdded(Flatten(q));
    } else {
      assert (p + q)[1..] == p[1..] + q;
      FlattenConcat(p[1..], q);
      Grouped(p[0], Flatten(p[1..]), Flatten(q));
    }
  }

  lemma FlattenSplit(p: seq<seq<Line>>, k: nat)
    requires k <= |p|
    ensures Flatten(p) == Flatten(p[..k]) + Flatten(p[k..])
  {
    assert p == p[..k] + p[k..];
    FlattenConcat(p[..k], p[k..]);
  }

  /** Lines that no edit touches are copied. */
  lemma {:induction false} FlattenLines(lines: seq<Line>, p: seq<seq<Line>>)
    requires |p| == |lines| && forall i | 0 <= i < |p| :: p[i] == [lines[i]]
    ensures Flatten(p) == lines
  {
    if p != [] {
      FlattenLines(lines[1..], p[1..]);
      assert lines == [lines[0]] + lines[1..];
    }
  }

  lemma {:induction false} FlattenNothing(p: seq<seq<Line>>)
    requires forall i | 0 <= i < |p| :: p[i] == []
    ensures Flatten(p) == []
  {
    if p != [] {
      FlattenNothing(p[1..]);
    }
  }

  lemma NothingAdded(s: seq<Line>)
    ensures [] + s == s && s + [] == s
  {
  }

  lemma Grouped(a: seq<Line>, b: seq<Line>, c: seq<Line>)
    ensures a + b + c == a + (b + c)
  {
  }

  lemma {:induction false} NoInsertions(edits: seq<Edit>, i: nat)
    requires forall e | e in edits :: !(e.Insert? && e.at == i)
    ensures InsertedAt(edits, i) == []
  {
    if edits != [] {
      NoInsertions(edits[..|edits| - 1], i);
    }
  }

  lemma OneMore(edits: seq<Edit>, e: Edit, i: nat)
    ensures InsertedAt(edits + [e], i) == (if e.Insert? && e.at == i then [e.text] else []) + InsertedAt(edits, i)
    ensures RemovedAt(edits + [e], i) <==> RemovedAt(edits, i) || (e.Remove? && e.start <= i < e.end)
  {
    assert (edits + [e])[..|edits|] == edits;
    if RemovedAt(edits, i) {
      var x :| x in edits && x.Remove? && x.start <= i < x.end;
      assert x in edits + [e];
    }
    if e.Remove? && e.start <= i < e.end {
      assert e in edits + [e];
    }
  }

  /** The edits spliced so far lie at or below line `k`. */
  ghost predicate AtOrBelow(edits: seq<Edit>, k: nat) {
    forall e | e in edits :: k <= Key(e).0
  }

  /** The pass from line `k` on. */
  function Below(lines: seq<Line>, edits: seq<Edit>, k: nat): seq<Line>
    requires k <= |lines|
  {
    Flatten(Pieces(lines, edits)[k..])
  }

  lemma TopUntouched(lines: seq<Line>, edits: seq<Edit>, k: nat)
    requires AtOrBelow(edits, k) && k <= |lines|
    ensures Pass(lines, edits) == lines[..k] + Below(lines, edits, k)
  {
    var p := Pieces(lines, edits);
    forall i | 0 <= i < k ensures p[i] == [lines[i]] {
      NoInsertions(edits, i);
      NothingAdded([lines[i]]);
    }
    FlattenSplit(p, k);
    FlattenLines(lines[..k], p[..k]);
  }

  /** An insertion changes one piece of the pass. */
  lemma PiecesInsert(lines: seq<Line>, edits: seq<Edit>, e: Edit)
    requires e.Insert? && e.at <= |lines|
    ensures var p := Pieces(lines, edits); Pieces(lines, edits + [e]) == p[e.at := [e.text] + p[e.at]]
  {
    forall i | 0 <= i <= |lines|
      ensures Here(lines, edits + [e], i)
           == if i == e.at then [e.text] + Here(lines, edits, i) else Here(lines, edits, i)
    {
      OneMore(edits, e, i);
      Grouped([e.text], InsertedAt(edits, i), LineAt(lines, edits, i));
      NothingAdded(InsertedAt(edits, i));
    }
  }

  lemma BelowInsert(lines: seq<Line>, edits: seq<Edit>, e: Edit)
    requires e.Insert? && e.at <= |lines|
    ensures Below(lines, edits + [e], e.at) == [e.text] + Below(lines, edits, e.at)
  {
    var p, p' := Pieces(lines, edits), Pieces(lines, edits + [e]);
    PiecesInsert(lines, edits, e);
    assert p'[e.at..][1..] == p[e.at..][1..];
    Grouped([e.text], p[e.at], Flatten(p[e.at..][1..]));
  }

  lemma SpliceInsert(lines: seq<Line>, edits: seq<Edit>, e: Edit)
    requires e.Insert? && e.at <= |lines| && AtOrBelow(edits, e.at)
    ensures Spliced(Pass(lines, edits), e) == Pass(lines, edits + [e])
  {
    TopUntouched(lines, edits, e.at);
    TopUntouched(lines, edits + [e], e.at);
    BelowInsert(lines, edits, e);
    PutIn(lines, Below(lines, edits, e.at), e);
  }

  lemma PutIn(lines: seq<Line>, below: seq<Line>, e: Edit)
    requires e.Insert? && e.at <= |lines|
    ensures Spliced(lines[..e.at] + below, e) == lines[..e.at] + ([e.text] + below)
  {
  }

  /** A removal empties the pieces of its lines. */
  lemma PiecesRemove(lines: seq<Line>, edits: seq<Edit>, e: Edit, i: nat)
    requires e.Remove? && e.start < e.end <= |lines| && AtOrBelow(edits, e.end) && e.start <= i <= |lines|
    ensures Here(lines, edits + [e], i) == if i < e.end then [] else Here(lines, edits, i)
  {
    OneMore(edits, e, i);
    NothingAdded(InsertedAt(edits, i));
    if i < e.end {
      NoInsertions(edits, i);
    }
  }

  lemma BelowRemove(lines: seq<Line>, edits: seq<Edit>, e: Edit)
    requires e.Remove? && e.start < e.end <= |lines| && AtOrBelow(edits, e.end)
    ensures Below(lines, edits + [e], e.start) == Below(lines, edits, e.end)
  {
    PiecesBelow(lines, edits, e);
    TailIs(Pieces(lines, edits + [e])[e.start..], e.end - e.start, Pieces(lines, edits)[e.end..]);
  }

  lemma TailIs(q: seq<seq<Line>>, n: nat, r: seq<seq<Line>>)
    requires n <= |q| && (forall i | 0 <= i < n :: q[i] == []) && q[n..] == r
    ensures Flatten(q) == Flatten(r)
  {
    FlattenTail(q, n);
  }

  lemma PiecesBelow(lines: seq<Line>, edits: seq<Edit>, e: Edit)
    requires e.Remove? && e.start < e.end <= |lines| && AtOrBelow(edits, e.end)
    ensures var q := Pieces(lines, edits + [e])[e.start..];
      && q[e.end - e.start..] == Pieces(lines, edits)[e.end..]
      && forall i | 0 <= i < e.end - e.start :: q[i] == []
  {
    var p, p' := Pieces(lines, edits), Pieces(lines, edits + [e]);
    forall i | e.start <= i <= |lines| ensures p'[i] == if i < e.end then [] else p[i] {
      PiecesRemove(lines, edits, e, i);
    }
  }

  lemma FlattenTail(q: seq<seq<Line>>, n: nat)
    requires n <= |q| && forall i | 0 <= i < n :: q[i] == []
    ensures Flatten(q) == Flatten(q[n..])
  {
    FlattenSplit(q, n);
    FlattenNothing(q[..n]);
    NothingAdded(Flatten(q[n..]));
  }

  lemma CutOut(lines: seq<Line>, below: seq<Line>, e: Edit)
    requires e.Remove? && e.start < e.end <= |lines|
    ensures Spliced(lines[..e.end] + below, e) == lines[..e.start] + below
  {
  }

  lemma SpliceRemove(lines: seq<Line>, edits: seq<Edit>, e: Edit)
    requires e.Remove? && e.start < e.end <= |lines|
    requires AtOrBelow(edits, e.end)
    ensures Spliced(Pass(lines, edits), e) == Pass(lines, edits + [e])
  {
    TopUntouched(lines, edits, e.end);
    TopUntouched(lines, edits + [e], e.start);
    BelowRemove(lines, edits, e);
    CutOut(lines, Below(lines, edits, e.end), e);
  }

  lemma SmallerKeyIsAbove(e: Edit, x: Edit, n: nat)
    requires !Before(Key(x), Key(e)) && Apart(x, e) && InRange(x, n) && InRange(e, n)
    ensures Key(x).0 >= if e.Remove? then e.end else e.at
  {
  }

  lemma SpliceNext(lines: seq<Line>, edits: seq<Edit>, e: Edit)
    requires Separate(edits + [e], |lines|) && Descending(edits + [e])
    ensures Spliced(Pass(lines, edits), e) == Pass(lines, edits + [e])
  {
    var all := edits + [e];
    var k := if e.Remove? then e.end else e.at;
    assert all[|edits|] == e && InRange(all[|edits|], |lines|);
    forall x | x in edits ensures k <= Key(x).0 {
      var i :| 0 <= i < |edits| && edits[i] == x;
      assert all[i] == x && InRange(all[i], |lines|) && Apart(all[i], all[|edits|]);
      SmallerKeyIsAbove(e, x, |lines|);
    }
    if e.Remove? {
      SpliceRemove(lines, edits, e);
    } else {
      SpliceInsert(lines, edits, e);
    }
  }

  lemma {:induction false} DescendingSplices(lines: seq<Line>, edits: seq<Edit>)
    requires Separate(edits, |lines|) && Descending(edits)
    ensures AllSpliced(lines, edits) == Pass(lines, edits)
  {
    if edits == [] {
      TopUntouched(lines, [], |lines|);
      assert Pieces(lines, [])[|lines|..] == [[]];
      FlattenNothing([[]]);
      NothingAdded(lines);
      assert lines[..|lines|] == lines;
    } else {
      var front, last := edits[..|edits| - 1], edits[|edits| - 1];
      assert edits == front + [last];
      FrontStays(front, last, |lines|);
      DescendingSplices(lines, front);
      SpliceNext(lines, front, last);
    }
  }

  lemma FrontStays(front: seq<Edit>, last: Edit, n: nat)
    requires Separate(front + [last], n) && Descending(front + [last])
    ensures Separate(front, n) && Descending(front)
  {
    var all := front + [last];
    forall i | 0 <= i < |front| ensures InRange(front[i], n) {
      assert front[i] == all[i];
    }
    forall i, j | 0 <= i < j < |front| ensures Apart(front[i], front[j]) && !Before(Key(front[i]), Key(front[j])) {
      assert front[i] == all[i] && front[j] == all[j];
    }
  }

  /** Editing in place from the bottom up is one simultaneous edit of the original, when the edits do not meet. */
  lemma BottomUpIsOnePass(lines: seq<Line>, edits: seq<Edit>)
    requires Separate(edits, |lines|)
    ensures AllSpliced(lines, Sorted(edits)) == Pass(lines, edits)
  {
    var sorted := Sorted(edits);
    SortedIsDescending(edits);
    SortedStaysSeparate(edits, |lines|);
    DescendingSplices(lines, sorted);
    forall i: nat ensures Here(lines, sorted, i) == Here(lines, edits, i) {
      SortedKeepsInsertions(edits, i);
      SameMembers(edits, sorted);
    }
    assert Pieces(lines, sorted) == Pieces(lines, edits);
  }

  lemma SameMembers(a: seq<Edit>, b: seq<Edit>)
    requires multiset(a) == multiset(b)
    ensures forall e :: e in a <==> e in b
  {
    forall e ensures e in a <==> e in b {
      assert e in a <==> e in multiset(a);
    }
  }

  // What is kept, what goes and what comes.

  /** The removed lines. */
  function Gone(lines: seq<Line>, edits: seq<Edit>): seq<Line> {
    Flatten(seq(|lines| + 1, i requires 0 <= i => if i < |lines| && RemovedAt(edits, i) then [lines[i]] else []))
  }

  /** The inserted lines. */
  function Texts(edits: seq<Edit>): seq<Line> {
    if edits == [] then []
    else Texts(edits[..|edits| - 1]) + if edits[|edits| - 1].Insert? then [edits[|edits| - 1].text] else []
  }

  function InsertedPieces(edits: seq<Edit>, n: nat): seq<seq<Line>> {
    seq(n + 1, i requires 0 <= i => InsertedAt(edits, i))
  }

  lemma TwoParts(a: seq<Line>, b: seq<Line>)
    ensures multiset(a + b) == multiset(a) + multiset(b)
  {
  }

  lemma Regroup(a: multiset<Line>, b: multiset<Line>, c: multiset<Line>, d: multiset<Line>)
    ensures (a + b) + (c + d) == (a + c) + (b + d)
  {
  }

  lemma {:induction false} FlattenSum(p: seq<seq<Line>>, q: seq<seq<Line>>, r: seq<seq<Line>>, s: seq<seq<Line>>)
    requires |p| == |q| == |r| == |s|
    requires forall i | 0 <= i < |p| :: multiset(p[i]) + multiset(q[i]) == multiset(r[i]) + multiset(s[i])
    ensures multiset(Flatten(p)) + multiset(Flatten(q)) == multiset(Flatten(r)) + multiset(Flatten(s))
  {
    if p == [] {
      assert q == [] && r == [] && s == [];
    } else {
      FlattenSum(p[1..], q[1..], r[1..], s[1..]);
      TwoParts(p[0], Flatten(p[1..]));
      TwoParts(q[0], Flatten(q[1..]));
      TwoParts(r[0], Flatten(r[1..]));
      TwoParts(s[0], Flatten(s[1..]));
      Regroup(multiset(p[0]), multiset(Flatten(p[1..])), multiset(q[0]), multiset(Flatten(q[1..])));
      Regroup(multiset(r[0]), multiset(Flatten(r[1..])), multiset(s[0]), multiset(Flatten(s[1..])));
    }
  }

  lemma FlattenUpdate(p: seq<seq<Line>>, k: nat, x: Line)
    requires k < |p|
    ensures multiset(Flatten(p[k := [x] + p[k]])) == multiset(Flatten(p)) + multiset{x}
  {
    var q := p[k := [x] + p[k]];
    assert q[..k] == p[..k] && q[k..][1..] == p[k..][1..];
    SplitAt(p, k);
    SplitAt(q, k);
    TwoParts([x], p[k]);
  }

  lemma SplitAt(p: seq<seq<Line>>, k: nat)
    requires k < |p|
    ensures multiset(Flatten(p)) == multiset(Flatten(p[..k])) + (multiset(p[k]) + multiset(Flatten(p[k..][1..])))
  {
    FlattenSplit(p, k);
    TwoParts(Flatten(p[..k]), Flatten(p[k..]));
    Headed(p[k..]);
  }

  lemma Headed(p: seq<seq<Line>>)
    requires p != []
    ensures multiset(Flatten(p)) == multiset(p[0]) + multiset(Flatten(p[1..]))
  {
    TwoParts(p[0], Flatten(p[1..]));
  }

  lemma InsertionsOneMore(edits: seq<Edit>, e: Edit, n: nat)
    requires InRange(e, n)
    ensures var p := InsertedPieces(edits, n);
      InsertedPieces(edits + [e], n) == if e.Insert? then p[e.at := [e.text] + p[e.at]] else p
  {
    forall i | 0 <= i <= n
      ensures InsertedAt(edits + [e], i) ==
              if e.Insert? && i == e.at then [e.text] + InsertedAt(edits, i) else InsertedAt(edits, i)
    {
      OneMore(edits, e, i);
      NothingAdded(InsertedAt(edits, i));
    }
  }

  lemma {:induction false} AllInserted(edits: seq<Edit>, n: nat)
    requires forall i | 0 <= i < |edits| :: InRange(edits[i], n)
    ensures multiset(Flatten(InsertedPieces(edits, n))) == multiset(Texts(edits))
  {
    if edits == [] {
      FlattenNothing(InsertedPieces([], n));
    } else {
      var front, last := edits[..|edits| - 1], edits[|edits| - 1];
      AllInserted(front, n);
      assert edits == front + [last] && InRange(edits[|edits| - 1], n);
      InsertionsOneMore(front, last, n);
      if last.Insert? {
        FlattenUpdate(InsertedPieces(front, n), last.at, last.text);
        TwoParts(Texts(front), [last.text]);
      } else {
        NothingAdded(Texts(front));
      }
    }
  }

  /** Each inserted line appears once, each removed line goes once, and nothing else changes: the result and the
      removed lines together are the original lines and the inserted ones. */
  lemma EditsConserveLines(lines: seq<Line>, edits: seq<Edit>)
    requires Separate(edits, |lines|)
    ensures var result := AllSpliced(lines, Sorted(edits));
      multiset(result) + multiset(Gone(lines, edits)) == multiset(lines) + multiset(Texts(edits))
  {
    BottomUpIsOnePass(lines, edits);
    AllInserted(edits, |lines|);
    PassAndGone(lines, edits, Own(lines));
    OwnIsLines(lines);
  }

  function Own(lines: seq<Line>): seq<seq<Line>> {
    seq(|lines| + 1, i requires 0 <= i => if i < |lines| then [lines[i]] else [])
  }

  lemma OwnIsLines(lines: seq<Line>)
    ensures Flatten(Own(lines)) == lines
  {
    var own := Own(lines);
    FlattenSplit(own, |lines|);
    FlattenLines(lines, own[..|lines|]);
    FlattenNothing(own[|lines|..]);
    NothingAdded(lines);
  }

  lemma PassAndGone(lines: seq<Line>, edits: seq<Edit>, own: seq<seq<Line>>)
    requires own == Own(lines)
    ensures multiset(Pass(lines, edits)) + multiset(Gone(lines, edits)) ==
            multiset(Flatten(own)) + multiset(Flatten(InsertedPieces(edits, |lines|)))
  {
    var gone := seq(|lines| + 1, i requires 0 <= i => if i < |lines| && RemovedAt(edits, i) then [lines[i]] else []);
    var p, ins := Pieces(lines, edits), InsertedPieces(edits, |lines|);
    forall i | 0 <= i <= |lines| ensures multiset(p[i]) + multiset(gone[i]) == multiset(own[i]) + multiset(ins[i]) {
      TwoParts(InsertedAt(edits, i), LineAt(lines, edits, i));
    }
    FlattenSum(p, gone, own, ins);
  }
}
