/** Blank texts and stripping, as Python's `str.strip` defines them. */
module Text {

  /** The code points that `str.strip` removes. */
  predicate IsSpace(c: char) {
    var n := c as int;
    9 <= n <= 13 || 28 <= n <= 32 || n == 133 || n == 160 || n == 0x1680 || 0x2000 <= n <= 0x200a
    || n == 0x2028 || n == 0x2029 || n == 0x202f || n == 0x205f || n == 0x3000
  }

  predicate Blank(s: string) { forall i | 0 <= i < |s| :: IsSpace(s[i]) }

  function StripLeft(s: string): string {
    if s != "" && IsSpace(s[0]) then StripLeft(s[1..]) else s
  }

  function StripRight(s: string): string {
    if s != "" && IsSpace(s[|s| - 1]) then StripRight(s[..|s| - 1]) else s
  }

  function Strip(s: string): string {
    StripRight(StripLeft(s))
  }

  lemma {:induction false} StripLeftBlank(s: string)
    ensures StripLeft(s) == "" <==> Blank(s)
    ensures StripLeft(s) != "" ==> !IsSpace(StripLeft(s)[0])
  {
    if s != "" && IsSpace(s[0]) {
      StripLeftBlank(s[1..]);
      assert Blank(s) <==> Blank(s[1..]) by {
        forall i | 0 <= i < |s| && Blank(s[1..]) ensures IsSpace(s[i]) {
          assert i > 0 ==> s[1..][i - 1] == s[i];
        }
      }
    }
  }

  lemma {:induction false} StripRightKeepsFirst(s: string)
    requires s != "" && !IsSpace(s[0])
    ensures StripRight(s) != ""
  {
    if IsSpace(s[|s| - 1]) {
      StripRightKeepsFirst(s[..|s| - 1]);
    }
  }

  /** A text is empty once stripped exactly when it is blank. */
  lemma StripIsEmptyIffBlank(s: string)
    ensures Strip(s) == "" <==> Blank(s)
  {
    StripLeftBlank(s);
    if StripLeft(s) != "" {
      StripRightKeepsFirst(StripLeft(s));
    }
  }

  lemma {:induction false} StripRightEnds(s: string)
    ensures StripRight(s) <= s
    ensures StripRight(s) != "" ==> !IsSpace(StripRight(s)[|StripRight(s)| - 1])
  {
    if s != "" && IsSpace(s[|s| - 1]) {
      StripRightEnds(s[..|s| - 1]);
    }
  }

  lemma StripIdempotent(s: string)
    ensures Strip(Strip(s)) == Strip(s)
  {
    StripLeftBlank(s);
    StripRightEnds(StripLeft(s));
  }

  lemma {:induction false} StripLeftCuts(s: string) returns (before: string)
    ensures s == before + StripLeft(s) && Blank(before)
  {
    before := "";
    if s != "" && IsSpace(s[0]) {
      var rest := StripLeftCuts(s[1..]);
      before := [s[0]] + rest;
      assert s == [s[0]] + s[1..];
    }
  }

  lemma {:induction false} StripRightCuts(s: string) returns (after: string)
    ensures s == StripRight(s) + after && Blank(after)
  {
    after := "";
    if s != "" && IsSpace(s[|s| - 1]) {
      var rest := StripRightCuts(s[..|s| - 1]);
      after := rest + [s[|s| - 1]];
      assert s == s[..|s| - 1] + [s[|s| - 1]];
    }
  }

  /** Stripping cuts off blanks at both ends and nothing else, and leaves none there. */
  lemma StripCuts(s: string) returns (before: string, after: string)
    ensures s == before + Strip(s) + after && Blank(before) && Blank(after)
    ensures Strip(s) != "" ==> !IsSpace(Strip(s)[0]) && !IsSpace(Strip(s)[|Strip(s)| - 1])
  {
    before := StripLeftCuts(s);
    after := StripRightCuts(StripLeft(s));
    StripLeftBlank(s);
    StripRightEnds(StripLeft(s));
  }
}
