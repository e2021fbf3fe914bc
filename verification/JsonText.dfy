/** Compact JSON text as Python's `json.dumps(..., separators=(",", ":"))` writes it, and a proof that the
    text determines the value (RFC 8259, sections 6 and 7). */
module JsonText {

  datatype Json =
    | JNull
    | JBool(b: bool)
    | JNum(n: int)
    | JStr(s: string)
    | JArr(elems: seq<Json>)
    | JObj(members: seq<(string, Json)>)

  function Decimal(n: nat): string {
    if n < 10 then [DigitChar(n)] else Decimal(n / 10) + [DigitChar(n % 10)]
  }

  function DigitChar(d: nat): char
    requires d < 10
  {
    "0123456789"[d]
  }

  function IntText(n: int): string {
    if n < 0 then "-" + Decimal(-n) else Decimal(n)
  }

  function HexChar(d: nat): char
    requires d < 16
  {
    "0123456789abcdef"[d]
  }

  function Hex4(n: nat): string
    requires n < 0x1_0000
  {
    [HexChar(n / 4096), HexChar(n / 256 % 16), HexChar(n / 16 % 16), HexChar(n % 16)]
  }

  /** Everything outside printable ASCII is escaped, above the basic plane as a surrogate pair. */
  function EscapeChar(c: char): string {
    var n := c as int;
    if c == '\"' then "\\\""
    else if c == '\\' then "\\\\"
    else if c == '\n' then "\\n"
    else if c == '\r' then "\\r"
    else if c == '\t' then "\\t"
    else if n == 12 then "\\f"
    else if n == 8 then "\\b"
    else if 32 <= n <= 126 then [c]
    else if n < 0x1_0000 then "\\u" + Hex4(n)
    else "\\u" + Hex4(0xd800 + (n - 0x1_0000) / 1024) + "\\u" + Hex4(0xdc00 + (n - 0x1_0000) % 1024)
  }

  function Escape(s: string): string {
    if s == "" then "" else EscapeChar(s[0]) + Escape(s[1..])
  }

  function Quote(s: string): string { "\"" + Escape(s) + "\"" }

  function Print(j: Json): string
    decreases j, 1
  {
    match j
    case JNull => "null"
    case JBool(b) => if b then "true" else "false"
    case JNum(n) => IntText(n)
    case JStr(s) => Quote(s)
    case JArr(elems) => if elems == [] then "[]" else "[" + Print(elems[0]) + PrintRest(elems[1..])
    case JObj(members) => if members == [] then "{}" else "{" + PrintMember(members[0]) + PrintMembers(members[1..])
  }

  function PrintRest(elems: seq<Json>): string
    decreases elems, 0
  {
    if elems == [] then "]" else "," + Print(elems[0]) + PrintRest(elems[1..])
  }

  function PrintMember(m: (string, Json)): string
    decreases m, 2
  {
    Quote(m.0) + ":" + Print(m.1)
  }

  function PrintMembers(members: seq<(string, Json)>): string
    decreases members, 0
  {
    if members == [] then "}" else "," + PrintMember(members[0]) + PrintMembers(members[1..])
  }

  // Concatenation.

  lemma Split(a: string, x: string, b: string, y: string)
    requires |a| == |b| && a + x == b + y
    ensures a == b && x == y
  {
    assert a == (a + x)[..|a|] && b == (b + y)[..|b|];
    assert x == (a + x)[|a|..] && y == (b + y)[|b|..];
  }

  lemma Assoc(a: string, b: string, c: string)
    ensures (a + b) + c == a + (b + c)
  {
  }

  /** Strips a common opening off two texts made of an opening, a part and a rest. */
  lemma Peel(open: string, p: string, r: string, x: string, q: string, t: string, y: string)
    requires open + p + r + x == open + q + t + y
    ensures p + (r + x) == q + (t + y)
  {
    assert open + p + r + x == open + (p + (r + x));
    assert open + q + t + y == open + (q + (t + y));
    Split(open, p + (r + x), open, q + (t + y));
  }

  // Numbers.

  predicate IsDigit(c: char) { '0' <= c <= '9' }

  function NumberOf(s: string): int {
    if s == "" then 0 else NumberOf(s[..|s| - 1]) * 10 + (s[|s| - 1] as int - '0' as int)
  }

  lemma {:induction false} DecimalFacts(n: nat)
    ensures Decimal(n) != "" && forall c | c in Decimal(n) :: IsDigit(c)
    ensures NumberOf(Decimal(n)) == n
  {
    if n >= 10 {
      DecimalFacts(n / 10);
      assert Decimal(n)[..|Decimal(n)| - 1] == Decimal(n / 10);
    } else {
      assert Decimal(n)[..0] == "";
    }
  }

  /** The text after a number starts with a delimiter. */
  predicate Delimited(rest: string) {
    rest == "" || rest[0] == ',' || rest[0] == ']' || rest[0] == '}'
  }

  lemma NoShorterNumber(a: string, x: string, b: string, y: string)
    requires a + x == b + y && Delimited(x)
    requires forall c | c in b :: IsDigit(c)
    ensures |a| >= |b|
  {
    var all := b + y;
    assert forall i | 0 <= i < |b| :: all[i] == b[i] && IsDigit(all[i]);
    assert |a| < |all| ==> all[|a|] == x[0];
  }

  lemma CancelDecimal(m: nat, n: nat, x: string, y: string)
    requires Decimal(m) + x == Decimal(n) + y && Delimited(x) && Delimited(y)
    ensures m == n && x == y
  {
    DecimalFacts(m);
    DecimalFacts(n);
    NoShorterNumber(Decimal(m), x, Decimal(n), y);
    NoShorterNumber(Decimal(n), y, Decimal(m), x);
    Split(Decimal(m), x, Decimal(n), y);
  }

  lemma CancelInt(m: int, n: int, x: string, y: string)
    requires IntText(m) + x == IntText(n) + y && Delimited(x) && Delimited(y)
    ensures m == n && x == y
  {
    SameSign(m, n, x, y);
    if m < 0 {
      CancelNegative(m, n, x, y);
    } else {
      CancelPositive(m, n, x, y);
    }
  }

  lemma CancelNegative(m: int, n: int, x: string, y: string)
    requires m < 0 && n < 0 && IntText(m) + x == IntText(n) + y && Delimited(x) && Delimited(y)
    ensures m == n && x == y
  {
    CancelMinus(-m, -n, IntText(m), IntText(n), x, y);
  }

  lemma CancelMinus(m: nat, n: nat, a: string, b: string, x: string, y: string)
    requires a == "-" + Decimal(m) && b == "-" + Decimal(n) && a + x == b + y && Delimited(x) && Delimited(y)
    ensures m == n && x == y
  {
    DropMinus(a, Decimal(m), x, b, Decimal(n), y);
    CancelDecimal(m, n, x, y);
  }

  lemma DropMinus(a: string, p: string, x: string, b: string, q: string, y: string)
    requires a == "-" + p && b == "-" + q && a + x == b + y
    ensures p + x == q + y
  {
    assert (a + x)[1..] == p + x;
    assert (b + y)[1..] == q + y;
  }

  lemma CancelPositive(m: int, n: int, x: string, y: string)
    requires m >= 0 && n >= 0 && IntText(m) + x == IntText(n) + y && Delimited(x) && Delimited(y)
    ensures m == n && x == y
  {
    CancelDecimal(m, n, x, y);
  }

  lemma SameSign(m: int, n: int, x: string, y: string)
    requires IntText(m) + x == IntText(n) + y
    ensures m < 0 <==> n < 0
  {
    FirstOfInt(m);
    FirstOfInt(n);
    assert (IntText(m) + x)[0] == IntText(m)[0] && (IntText(n) + y)[0] == IntText(n)[0];
  }

  lemma FirstOfInt(n: int)
    ensures IntText(n) != "" && (if n < 0 then IntText(n)[0] == '-' else IsDigit(IntText(n)[0]))
  {
    if n >= 0 {
      DecimalFacts(n);
      assert IntText(n)[0] in Decimal(n);
    }
  }

  // Strings.

  lemma Hex4Injective(m: nat, n: nat)
    requires m < 0x1_0000 && n < 0x1_0000 && Hex4(m) == Hex4(n)
    ensures m == n
  {
    var a, b := Hex4(m), Hex4(n);
    assert a[0] == b[0] && a[1] == b[1] && a[2] == b[2] && a[3] == b[3];
    HexCharInjective(m / 4096, n / 4096);
    HexCharInjective(m / 256 % 16, n / 256 % 16);
    HexCharInjective(m / 16 % 16, n / 16 % 16);
    HexCharInjective(m % 16, n % 16);
    HexDigits(m);
    HexDigits(n);
  }

  lemma HexDigits(n: nat)
    requires n < 0x1_0000
    ensures n == ((n / 4096 * 16 + n / 256 % 16) * 16 + n / 16 % 16) * 16 + n % 16
  {
    var a, b := n / 16, n / 256;
    assert a == n / 16 && n == a * 16 + n % 16;
    assert b == a / 16 && a == b * 16 + a % 16;
    assert n / 4096 == b / 16 && b == b / 16 * 16 + b % 16;
  }

  lemma HexCharInjective(a: nat, b: nat)
    requires a < 16 && b < 16
    ensures HexChar(a) == HexChar(b) ==> a == b
  {
  }

  /** The code units an escaped character is written with: one below the surrogate range, or two in it. */
  function High(c: char): nat {
    if c as int < 0x1_0000 then c as int else 0xd800 + (c as int - 0x1_0000) / 1024
  }

  function Low(c: char): nat {
    if c as int < 0x1_0000 then 0xdc00 else 0xdc00 + (c as int - 0x1_0000) % 1024
  }

  predicate Named(c: char) {
    c == '\"' || c == '\\' || c == '\n' || c == '\r' || c == '\t' || c as int == 12 || c as int == 8
  }

  predicate Plain(c: char) { !Named(c) && 32 <= c as int <= 126 }

  lemma EscapeShape(c: char)
    ensures High(c) < 0x1_0000 && Low(c) < 0x1_0000
    ensures Plain(c) ==> EscapeChar(c) == [c] && c != '\\' && c != '\"'
    ensures Named(c) ==> |EscapeChar(c)| == 2 && EscapeChar(c)[0] == '\\' && EscapeChar(c)[1] != 'u'
    ensures !Plain(c) && !Named(c) && c as int < 0x1_0000 ==> EscapeChar(c) == "\\u" + Hex4(High(c))
    ensures c as int >= 0x1_0000 ==> EscapeChar(c) == "\\u" + Hex4(High(c)) + ("\\u" + Hex4(Low(c)))
  {
  }

  lemma NamedInjective(c: char, d: char)
    requires Named(c) && Named(d) && EscapeChar(c) == EscapeChar(d)
    ensures c == d
  {
    assert EscapeChar(c)[1] == EscapeChar(d)[1];
  }

  lemma CodeUnitsDetermine(c: char, d: char)
    ensures High(c) == High(d) ==> (c as int < 0x1_0000 <==> d as int < 0x1_0000)
    ensures High(c) == High(d) && Low(c) == Low(d) ==> c == d
    ensures High(c) == High(d) && c as int < 0x1_0000 ==> c == d
  {
  }

  lemma CancelUnits(c: char, d: char, x: string, y: string)
    requires !Plain(c) && !Named(c) && !Plain(d) && !Named(d)
    requires EscapeChar(c) + x == EscapeChar(d) + y
    ensures c == d && x == y
  {
    EscapeShape(c);
    EscapeShape(d);
    var c', d' := "\\u" + Hex4(High(c)), "\\u" + Hex4(High(d));
    var c'', d'' := "\\u" + Hex4(Low(c)), "\\u" + Hex4(Low(d));
    var x' := if c as int < 0x1_0000 then x else c'' + x;
    var y' := if d as int < 0x1_0000 then y else d'' + y;
    Assoc(c', c'', x);
    Assoc(d', d'', y);
    assert |c'| == |d'| == |c''| == |d''| == 6;
    Split(c', x', d', y');
    Split("\\u", Hex4(High(c)), "\\u", Hex4(High(d)));
    Hex4Injective(High(c), High(d));
    CodeUnitsDetermine(c, d);
    if c as int >= 0x1_0000 {
      Split(c'', x, d'', y);
      Split("\\u", Hex4(Low(c)), "\\u", Hex4(Low(d)));
      Hex4Injective(Low(c), Low(d));
    }
  }

  /** No escape is a prefix of another. */
  lemma CancelChar(c: char, d: char, x: string, y: string)
    requires EscapeChar(c) + x == EscapeChar(d) + y
    ensures c == d && x == y
  {
    SameKind(c, d, x, y);
    if Plain(c) {
      EscapeShape(c);
      EscapeShape(d);
      Split([c], x, [d], y);
    } else if Named(c) {
      CancelNamed(c, d, x, y);
    } else {
      CancelUnits(c, d, x, y);
    }
  }

  lemma FirstTwo(s: string, x: string)
    requires s != ""
    ensures (s + x)[0] == s[0] && (|s| >= 2 ==> (s + x)[1] == s[1])
  {
  }

  lemma EscapeStarts(c: char)
    ensures Plain(c) ==> EscapeChar(c) == [c] && c != '\\'
    ensures !Plain(c) ==> |EscapeChar(c)| >= 2 && EscapeChar(c)[0] == '\\' && (Named(c) <==> EscapeChar(c)[1] != 'u')
  {
    EscapeShape(c);
  }

  lemma SameKind(c: char, d: char, x: string, y: string)
    requires EscapeChar(c) + x == EscapeChar(d) + y
    ensures Plain(c) == Plain(d) && Named(c) == Named(d)
  {
    EscapeStarts(c);
    EscapeStarts(d);
    FirstTwo(EscapeChar(c), x);
    FirstTwo(EscapeChar(d), y);
  }

  lemma CancelNamed(c: char, d: char, x: string, y: string)
    requires Named(c) && Named(d) && EscapeChar(c) + x == EscapeChar(d) + y
    ensures c == d && x == y
  {
    EscapeShape(c);
    EscapeShape(d);
    Split(EscapeChar(c), x, EscapeChar(d), y);
    NamedInjective(c, d);
  }

  lemma {:induction false} CancelEscape(s: string, t: string, x: string, y: string)
    requires Escape(s) + ("\"" + x) == Escape(t) + ("\"" + y)
    ensures s == t && x == y
  {
    if s == "" || t == "" {
      EscapeStart(s, x);
      EscapeStart(t, y);
      Split("\"", x, "\"", y);
    } else {
      var x', y' := Escape(s[1..]) + ("\"" + x), Escape(t[1..]) + ("\"" + y);
      Assoc(EscapeChar(s[0]), Escape(s[1..]), "\"" + x);
      Assoc(EscapeChar(t[0]), Escape(t[1..]), "\"" + y);
      CancelChar(s[0], t[0], x', y');
      CancelEscape(s[1..], t[1..], x, y);
      assert s == [s[0]] + s[1..] && t == [t[0]] + t[1..];
    }
  }

  lemma EscapeStart(s: string, x: string)
    ensures (Escape(s) + ("\"" + x))[0] == '\"' <==> s == ""
    ensures s == "" ==> Escape(s) + ("\"" + x) == "\"" + x
  {
    if s != "" {
      EscapeShape(s[0]);
      assert (Escape(s) + ("\"" + x))[0] == EscapeChar(s[0])[0];
    }
  }

  lemma CancelQuote(s: string, t: string, x: string, y: string)
    requires Quote(s) + x == Quote(t) + y
    ensures s == t && x == y
  {
    Peel("\"", Escape(s), "\"", x, Escape(t), "\"", y);
    CancelEscape(s, t, x, y);
  }

  // Values.

  lemma FirstChar(j: Json)
    ensures Print(j) != ""
    ensures match j
      case JNull => Print(j)[0] == 'n'
      case JBool(b) => Print(j)[0] == if b then 't' else 'f'
      case JNum(_) => Print(j)[0] == '-' || IsDigit(Print(j)[0])
      case JStr(_) => Print(j)[0] == '\"'
      case JArr(_) => Print(j)[0] == '['
      case JObj(_) => Print(j)[0] == '{'
  {
    if j.JNum? {
      FirstOfInt(j.n);
    }
  }

  /** Text followed by a delimiter is read back in one way only. */
  lemma {:induction false} Cancel(j: Json, k: Json, x: string, y: string)
    requires Print(j) + x == Print(k) + y && Delimited(x) && Delimited(y)
    ensures j == k && x == y
    decreases j, 1
  {
    var all := Print(j) + x;
    FirstChar(j);
    FirstChar(k);
    assert all[0] == Print(j)[0] == Print(k)[0];
    match j
    case JNull =>
      assert all[4..] == x && all[4..] == y;
    case JBool(b) =>
      var n := if b then 4 else 5;
      assert all[n..] == x && all[n..] == y;
    case JNum(n) =>
      CancelInt(n, k.n, x, y);
    case JStr(s) =>
      CancelQuote(s, k.s, x, y);
    case JArr(elems) =>
      CancelArr(elems, k.elems, x, y);
    case JObj(members) =>
      CancelObj(members, k.members, x, y);
  }

  lemma {:induction false} CancelArr(a: seq<Json>, b: seq<Json>, x: string, y: string)
    requires Print(JArr(a)) + x == Print(JArr(b)) + y && Delimited(x) && Delimited(y)
    ensures a == b && x == y
    decreases a, 2
  {
    if a == [] || b == [] {
      ArrSecond(a, x);
      ArrSecond(b, y);
      Split("[]", x, "[]", y);
    } else {
      Peel("[", Print(a[0]), PrintRest(a[1..]), x, Print(b[0]), PrintRest(b[1..]), y);
      RestDelimited(a[1..], x);
      RestDelimited(b[1..], y);
      Cancel(a[0], b[0], PrintRest(a[1..]) + x, PrintRest(b[1..]) + y);
      CancelRest(a[1..], b[1..], x, y);
      SameElements(a, b);
    }
  }

  lemma SameElements(a: seq<Json>, b: seq<Json>)
    requires a != [] && b != [] && a[0] == b[0] && a[1..] == b[1..]
    ensures a == b
  {
    assert a == [a[0]] + a[1..] && b == [b[0]] + b[1..];
  }

  lemma ArrSecond(a: seq<Json>, x: string)
    ensures |Print(JArr(a)) + x| >= 2 && ((Print(JArr(a)) + x)[1] == ']' <==> a == [])
  {
    if a != [] {
      FirstChar(a[0]);
      assert (Print(JArr(a)) + x)[1] == Print(a[0])[0];
    }
  }

  lemma RestDelimited(a: seq<Json>, x: string)
    ensures Delimited(PrintRest(a) + x) && ((PrintRest(a) + x)[0] == ']' <==> a == [])
  {
  }

  lemma {:induction false} CancelRest(a: seq<Json>, b: seq<Json>, x: string, y: string)
    requires PrintRest(a) + x == PrintRest(b) + y && Delimited(x) && Delimited(y)
    ensures a == b && x == y
    decreases a, 0
  {
    RestDelimited(a, x);
    RestDelimited(b, y);
    if a == [] {
      Split("]", x, "]", y);
    } else {
      Peel(",", Print(a[0]), PrintRest(a[1..]), x, Print(b[0]), PrintRest(b[1..]), y);
      RestDelimited(a[1..], x);
      RestDelimited(b[1..], y);
      Cancel(a[0], b[0], PrintRest(a[1..]) + x, PrintRest(b[1..]) + y);
      CancelRest(a[1..], b[1..], x, y);
      assert a == [a[0]] + a[1..] && b == [b[0]] + b[1..];
    }
  }

  lemma {:induction false} CancelObj(a: seq<(string, Json)>, b: seq<(string, Json)>, x: string, y: string)
    requires Print(JObj(a)) + x == Print(JObj(b)) + y && Delimited(x) && Delimited(y)
    ensures a == b && x == y
    decreases a, 2
  {
    if a == [] || b == [] {
      ObjSecond(a, x);
      ObjSecond(b, y);
      Split("{}", x, "{}", y);
    } else {
      Peel("{", PrintMember(a[0]), PrintMembers(a[1..]), x, PrintMember(b[0]), PrintMembers(b[1..]), y);
      MembersDelimited(a[1..], x);
      MembersDelimited(b[1..], y);
      CancelMember(a[0], b[0], PrintMembers(a[1..]) + x, PrintMembers(b[1..]) + y);
      CancelMembers(a[1..], b[1..], x, y);
      assert a == [a[0]] + a[1..] && b == [b[0]] + b[1..];
    }
  }

  lemma ObjSecond(a: seq<(string, Json)>, x: string)
    ensures |Print(JObj(a)) + x| >= 2 && ((Print(JObj(a)) + x)[1] == '}' <==> a == [])
  {
    if a != [] {
      assert (Print(JObj(a)) + x)[1] == PrintMember(a[0])[0];
    }
  }

  lemma MembersDelimited(a: seq<(string, Json)>, x: string)
    ensures Delimited(PrintMembers(a) + x) && ((PrintMembers(a) + x)[0] == '}' <==> a == [])
  {
  }

  lemma {:induction false} CancelMembers(a: seq<(string, Json)>, b: seq<(string, Json)>, x: string, y: string)
    requires PrintMembers(a) + x == PrintMembers(b) + y && Delimited(x) && Delimited(y)
    ensures a == b && x == y
    decreases a, 0
  {
    MembersDelimited(a, x);
    MembersDelimited(b, y);
    if a == [] {
      Split("}", x, "}", y);
    } else {
      Peel(",", PrintMember(a[0]), PrintMembers(a[1..]), x, PrintMember(b[0]), PrintMembers(b[1..]), y);
      MembersDelimited(a[1..], x);
      MembersDelimited(b[1..], y);
      CancelMember(a[0], b[0], PrintMembers(a[1..]) + x, PrintMembers(b[1..]) + y);
      CancelMembers(a[1..], b[1..], x, y);
      assert a == [a[0]] + a[1..] && b == [b[0]] + b[1..];
    }
  }

  lemma {:induction false} CancelMember(m: (string, Json), n: (string, Json), x: string, y: string)
    requires PrintMember(m) + x == PrintMember(n) + y && Delimited(x) && Delimited(y)
    ensures m == n && x == y
    decreases m, 2
  {
    var x', y' := ":" + (Print(m.1) + x), ":" + (Print(n.1) + y);
    MemberShape(Quote(m.0), Print(m.1), x);
    MemberShape(Quote(n.0), Print(n.1), y);
    CancelQuote(m.0, n.0, x', y');
    Split(":", Print(m.1) + x, ":", Print(n.1) + y);
    Cancel(m.1, n.1, x, y);
  }

  lemma MemberShape(q: string, p: string, x: string)
    ensures q + ":" + p + x == q + (":" + (p + x))
  {
  }

  /** Two values with one text are one value. */
  lemma PrintInjective(j: Json, k: Json)
    requires Print(j) == Print(k)
    ensures j == k
  {
    assert Print(j) + "" == Print(j) && Print(k) + "" == Print(k);
    Cancel(j, k, "", "");
  }

  // The text is printable ASCII, with small hexadecimal digits.

  predicate Ascii(s: string) {
    forall c | c in s :: 32 <= c as int <= 126
  }

  lemma AsciiConcat(s: string, t: string)
    requires Ascii(s) && Ascii(t)
    ensures Ascii(s + t)
  {
  }

  lemma HexIsSmall(n: nat)
    requires n < 0x1_0000
    ensures forall c | c in Hex4(n) :: IsDigit(c) || 'a' <= c <= 'f'
  {
    HexCharIsSmall(n / 4096);
    HexCharIsSmall(n / 256 % 16);
    HexCharIsSmall(n / 16 % 16);
    HexCharIsSmall(n % 16);
  }

  lemma HexCharIsSmall(d: nat)
    requires d < 16
    ensures IsDigit(HexChar(d)) || 'a' <= HexChar(d) <= 'f'
  {
  }

  lemma EscapeCharIsAscii(c: char)
    ensures Ascii(EscapeChar(c))
  {
    EscapeShape(c);
    if Plain(c) {
      assert EscapeChar(c) == [c];
    } else if Named(c) {
      NamedIsAscii(c);
    } else {
      UnitIsAscii(High(c));
      UnitIsAscii(Low(c));
      AsciiConcat("\\u" + Hex4(High(c)), "\\u" + Hex4(Low(c)));
    }
  }

  lemma NamedIsAscii(c: char)
    requires Named(c)
    ensures Ascii(EscapeChar(c))
  {
  }

  lemma UnitIsAscii(n: nat)
    requires n < 0x1_0000
    ensures Ascii("\\u" + Hex4(n))
  {
    HexIsSmall(n);
    forall c | c in Hex4(n) ensures 32 <= c as int <= 126 {
      assert IsDigit(c) || 'a' <= c <= 'f';
    }
    AsciiConcat("\\u", Hex4(n));
  }

  lemma {:induction false} EscapeIsAscii(s: string)
    ensures Ascii(Escape(s))
  {
    if s != "" {
      EscapeCharIsAscii(s[0]);
      EscapeIsAscii(s[1..]);
    }
  }

  lemma QuoteIsAscii(s: string)
    ensures Ascii(Quote(s))
  {
    EscapeIsAscii(s);
  }

  lemma IntIsAscii(n: int)
    ensures Ascii(IntText(n))
  {
    DecimalIsAscii(if n < 0 then -n else n);
    AsciiConcat("-", Decimal(if n < 0 then -n else n));
  }

  lemma DecimalIsAscii(n: nat)
    ensures Ascii(Decimal(n))
  {
    DecimalFacts(n);
    forall c | c in Decimal(n) ensures 32 <= c as int <= 126 {
      assert IsDigit(c);
    }
  }

  /** Whatever the value holds, its text is printable ASCII. */
  lemma {:induction false} PrintIsAscii(j: Json)
    ensures Ascii(Print(j))
    decreases j, 1
  {
    match j
    case JNum(n) => IntIsAscii(n);
    case JStr(s) => QuoteIsAscii(s);
    case JArr(elems) =>
      if elems != [] {
        PrintIsAscii(elems[0]);
        RestIsAscii(elems[1..]);
      }
    case JObj(members) =>
      if members != [] {
        MemberIsAscii(members[0]);
        MembersAreAscii(members[1..]);
      }
    case _ =>
  }

  lemma {:induction false} RestIsAscii(elems: seq<Json>)
    ensures Ascii(PrintRest(elems))
    decreases elems, 0
  {
    if elems != [] {
      PrintIsAscii(elems[0]);
      RestIsAscii(elems[1..]);
    }
  }

  lemma {:induction false} MemberIsAscii(m: (string, Json))
    ensures Ascii(PrintMember(m))
    decreases m, 2
  {
    QuoteIsAscii(m.0);
    PrintIsAscii(m.1);
  }

  lemma {:induction false} MembersAreAscii(members: seq<(string, Json)>)
    ensures Ascii(PrintMembers(members))
    decreases members, 0
  {
    if members != [] {
      MemberIsAscii(members[0]);
      MembersAreAscii(members[1..]);
    }
  }
}
