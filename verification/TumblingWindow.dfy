/** One budgeted tumbling window, seen apart from the limiter that keeps it.

    A window is reset by the first visit that finds it unset or expired; a request is
    admitted while fewer than `limit` requests were counted since the last reset.
 */
module TumblingWindow {

  datatype Window = Window(start: real, count: real)

  /** What one limiter call does to one window. */
  datatype Visit =
    | Bypass(now: real)   // returns, or works on other state, before reaching the window
    | Touch(now: real)    // refreshes the window without counting
    | Request(now: real)  // refreshes, then counts if the limit allows

  datatype Rule = Rule(limit: int, width: real)

  function Refresh(w: Window, width: real, now: real): Window {
    if w.start <= 0.0 || now - w.start >= width then Window(now, 0.0) else w
  }

  predicate Admits(rule: Rule, w: Window, v: Visit) {
    v.Request? && !(rule.limit > 0 && Refresh(w, rule.width, v.now).count >= rule.limit as real)
  }

  function Step(rule: Rule, w: Window, v: Visit): Window {
    match v
    case Bypass(_) => w
    case Touch(now) => Refresh(w, rule.width, now)
    case Request(now) =>
      var r := Refresh(w, rule.width, now);
      if Admits(rule, w, v) then r.(count := r.count + 1.0) else r
  }

  /** The number of requests admitted at a clock reading in the closed interval [lo, hi]. */
  function AdmittedIn(rule: Rule, w: Window, vs: seq<Visit>, lo: real, hi: real): nat
    decreases |vs|
  {
    if vs == [] then 0
    else
      (if Admits(rule, w, vs[0]) && lo <= vs[0].now <= hi then 1 else 0)
      + AdmittedIn(rule, Step(rule, w, vs[0]), vs[1..], lo, hi)
  }

  /** Clock readings are positive and never go back. */
  ghost predicate Clocked(vs: seq<Visit>) {
    && (forall i | 0 <= i < |vs| :: vs[i].now > 0.0)
    && (forall i, j | 0 <= i < j < |vs| :: vs[i].now <= vs[j].now)
  }

  lemma {:induction false} NothingAfter(rule: Rule, w: Window, vs: seq<Visit>, lo: real, hi: real)
    requires forall i | 0 <= i < |vs| :: vs[i].now > hi
    ensures AdmittedIn(rule, w, vs, lo, hi) == 0
    decreases |vs|
  {
    if vs != [] {
      NothingAfter(rule, Step(rule, w, vs[0]), vs[1..], lo, hi);
    }
  }

  /** `k` widths. */
  function Widths(k: nat, width: real): real {
    if k == 0 then 0.0 else Widths(k - 1, width) + width
  }

  lemma {:induction false} WidthsIsProduct(k: nat, width: real)
    ensures Widths(k, width) == k as real * width
  {
    if k > 0 {
      WidthsIsProduct(k - 1, width);
      OneMore((k - 1) as real, width);
    }
  }

  lemma OneMore(k: real, x: real)
    ensures (k + 1.0) * x == k * x + x
  {
  }

  /** `k` limits. */
  function Limits(k: nat, limit: nat): nat {
    if k == 0 then 0 else Limits(k - 1, limit) + limit
  }

  lemma {:induction false} LimitsIsProduct(k: nat, limit: nat)
    ensures Limits(k, limit) == k * limit
  {
    if k > 0 {
      LimitsIsProduct(k - 1, limit);
      OneMoreLimit(k - 1, limit);
    }
  }

  lemma OneMoreLimit(k: int, x: int)
    ensures (k + 1) * x == k * x + x
  {
  }

  /** With the window open since `w.start`, at most `k` resets are still to come before `hi`. */
  lemma {:induction false} AfterOpening(rule: Rule, w: Window, vs: seq<Visit>, lo: real, hi: real, m: int, k: nat)
    requires rule.limit >= 1 && rule.width > 0.0 && Clocked(vs)
    requires w.start > 0.0 && hi - w.start < Widths(k + 1, rule.width)
    requires 0 <= m <= rule.limit && m as real <= w.count
    ensures AdmittedIn(rule, w, vs, lo, hi) <= rule.limit - m + Limits(k, rule.limit)
    decreases |vs|
  {
    if vs != [] {
      var v := vs[0];
      var w' := Step(rule, w, v);
      if v.now > hi {
        NothingAfter(rule, w, vs, lo, hi);
      } else if v.Bypass? || v.now - w.start < rule.width {
        AfterOpening(rule, w', vs[1..], lo, hi, if Admits(rule, w, v) then m + 1 else m, k);
      } else {
        assert hi - v.now < Widths(k, rule.width);
        AfterOpening(rule, w', vs[1..], lo, hi, if Admits(rule, w, v) then 1 else 0, k - 1);
      }
    }
  }

  lemma OpenLongEnough(start: real, now: real, lo: real, hi: real, width: real, n: nat)
    requires lo <= now && now - start < width && hi - lo <= n as real * width
    ensures hi - start < Widths(n + 1, width)
  {
    WidthsIsProduct(n, width);
  }

  /** Refreshing a window that is about to be refreshed changes nothing. */
  lemma RefreshedFirst(rule: Rule, w: Window, vs: seq<Visit>, lo: real, hi: real)
    requires rule.width > 0.0 && vs != [] && !vs[0].Bypass? && vs[0].now > 0.0
    ensures AdmittedIn(rule, Refresh(w, rule.width, vs[0].now), vs, lo, hi) == AdmittedIn(rule, w, vs, lo, hi)
  {
    var open := Refresh(w, rule.width, vs[0].now);
    assert Refresh(open, rule.width, vs[0].now) == open;
    assert Step(rule, open, vs[0]) == Step(rule, w, vs[0]) && (Admits(rule, open, vs[0]) <==> Admits(rule, w, vs[0]));
  }

  /** The first visit of the interval that reaches the window finds it open or opens it. */
  lemma FirstVisit(rule: Rule, w: Window, vs: seq<Visit>, lo: real, hi: real, n: nat)
    requires rule.limit >= 1 && rule.width > 0.0 && Clocked(vs) && w.count >= 0.0
    requires vs != [] && !vs[0].Bypass? && lo <= vs[0].now
    requires hi - lo <= n as real * rule.width
    ensures AdmittedIn(rule, w, vs, lo, hi) <= (n + 1) * rule.limit
  {
    var open := Refresh(w, rule.width, vs[0].now);
    RefreshedFirst(rule, w, vs, lo, hi);
    OpenLongEnough(open.start, vs[0].now, lo, hi, rule.width, n);
    AfterOpening(rule, open, vs, lo, hi, 0, n);
    LimitsIsProduct(n + 1, rule.limit);
  }

  lemma NonNegativeBound(n: nat, limit: int)
    requires limit >= 1
    ensures (n + 1) * limit >= 0
  {
  }

  /** An interval no longer than `n` widths admits at most `n + 1` times the limit. */
  lemma {:induction false} IntervalBound(rule: Rule, w: Window, vs: seq<Visit>, lo: real, hi: real, n: nat)
    requires rule.limit >= 1 && rule.width > 0.0 && Clocked(vs)
    requires w.count >= 0.0
    requires hi - lo <= n as real * rule.width
    ensures AdmittedIn(rule, w, vs, lo, hi) <= (n + 1) * rule.limit
    decreases |vs|
  {
    NonNegativeBound(n, rule.limit);
    if vs != [] {
      if vs[0].now > hi {
        NothingAfter(rule, w, vs, lo, hi);
      } else if vs[0].now < lo || vs[0].Bypass? {
        IntervalBound(rule, Step(rule, w, vs[0]), vs[1..], lo, hi, n);
      } else {
        FirstVisit(rule, w, vs, lo, hi, n);
      }
    }
  }
}
