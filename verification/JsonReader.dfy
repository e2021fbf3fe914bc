/** A reader of JSON texts by the grammar of RFC 8259, and a proof that it reads back what `JsonText` prints.

    The grammar is that of sections 3 to 7, for compact texts: no insignificant whitespace, and numbers without fraction
    or exponent. */
module JsonReader {
  import opened JsonText
  import opened Wrappers

  /** A value and the text behind it. */
  type Read<T> = Option<(T, string)>

  // Numbers (section 6).

  function DigitValue(c: char): Option<nat> {
    match c
    case '0' => Some(0)
    case '1' => Some(1)
    case '2' => Some(2)
    case '3' => Some(3)
    case '4' => Some(4)
    case '5' => Some(5)
    case '6' => Some(6)
    case '7' => Some(7)
    case '8' => Some(8)
    case '9' => Some(9)
    case _ => None
  }

  /** The digits at the beginning of the text, as many as there are. */
  function Digits(s: string): string {
    if s == "" || DigitValue(s[0]).None? then "" else [s[0]] + Digits(s[1..])
  }

  lemma {:induction false} DigitsLength(s: string)
    ensures |Digits(s)| <= |s|
  {
    if s != "" {
      DigitsLength(s[1..]);
    }
  }

  function DecimalValue(digits: string): nat {
    if digits == "" then 0
    else
      var last := DigitValue(digits[|digits| - 1]);
      10 * DecimalValue(digits[..|digits| - 1]) + if last.Some? then last.value else 0
  }

  /** `0`, or digits that do not begin with it. */
  function ReadNat(s: string): (r: Read<int>)
    ensures r.Some? ==> |r.value.1| < |s|
  {
    var digits := Digits(s);
    DigitsLength(s);
    if digits == "" || (digits[0] == '0' && |digits| > 1) then None
    else Some((DecimalValue(digits), s[|digits|..]))
  }

  function ReadInt(s: string): (r: Read<int>)
    ensures r.Some? ==> |r.value.1| < |s|
  {
    if s != "" && s[0] == '-' then
      var r := ReadNat(s[1..]);
      if r.None? then None else Some((-r.value.0, r.value.1))
    else ReadNat(s)
  }

  // Strings (section 7).

  function HexValue(c: char): Option<nat> {
    match c
    case 'a' => Some(10)
    case 'b' => Some(11)
    case 'c' => Some(12)
    case 'd' => Some(13)
    case 'e' => Some(14)
    case 'f' => Some(15)
    case 'A' => Some(10)
    case 'B' => Some(11)
    case 'C' => Some(12)
    case 'D' => Some(13)
    case 'E' => Some(14)
    case 'F' => Some(15)
    case _ => DigitValue(c)
  }

  lemma HexValueBound(c: char)
    ensures HexValue(c).Some? ==> HexValue(c).value < 16
  {
  }

  /** Four hexadecimal digits. */
  function ReadUnit(s: string): (r: Option<nat>)
    ensures r.Some? ==> |s| >= 4 && r.value < 0x1_0000
  {
    if |s| < 4 then None
    else
      var a, b, c, d := HexValue(s[0]), HexValue(s[1]), HexValue(s[2]), HexValue(s[3]);
      HexValueBound(s[0]);
      HexValueBound(s[1]);
      HexValueBound(s[2]);
      HexValueBound(s[3]);
      if a.None? || b.None? || c.None? || d.None? then None
      else Some(4096 * a.value + 256 * b.value + 16 * c.value + d.value)
  }

  /** What follows the backslash and the `u`: a character of the basic plane, or the two halves of a pair. */
  function ReadUnits(s: string): (r: Read<char>)
    ensures r.Some? ==> |r.value.1| < |s|
  {
    var high := ReadUnit(s);
    if high.None? || 0xdc00 <= high.value < 0xe000 then None
    else if high.value < 0xd800 || 0xe000 <= high.value then Some((high.value as char, s[4..]))
    else if |s| < 6 || s[4] != '\\' || s[5] != 'u' then None
    else
      var low := ReadUnit(s[6..]);
      if low.None? || low.value < 0xdc00 || 0xe000 <= low.value then None
      else Some(((0x1_0000 + (high.value - 0xd800) * 1024 + (low.value - 0xdc00)) as char, s[10..]))
  }

  /** One character of a string, escaped or not. */
  function ReadChar(s: string): (r: Read<char>)
    ensures r.Some? ==> |r.value.1| < |s|
  {
    if s == "" || s[0] == '\"' || s[0] as int < 32 then None
    else if s[0] != '\\' then Some((s[0], s[1..]))
    else if |s| < 2 then None
    else
      match s[1]
      case '\"' => Some(('\"', s[2..]))
      case '\\' => Some(('\\', s[2..]))
      case '/' => Some(('/', s[2..]))
      case 'b' => Some((8 as char, s[2..]))
      case 'f' => Some((12 as char, s[2..]))
      case 'n' => Some((10 as char, s[2..]))
      case 'r' => Some((13 as char, s[2..]))
      case 't' => Some((9 as char, s[2..]))
      case 'u' => ReadUnits(s[2..])
      case _ => None
  }

  /** The characters up to the closing quotation mark. */
  function ReadChars(s: string): (r: Read<string>)
    ensures r.Some? ==> |r.value.0| + |r.value.1| < |s|
    decreases |s|
  {
    if s == "" then None
    else if s[0] == '\"' then Some(("", s[1..]))
    else
      var first := ReadChar(s);
      if first.None? then None
      else
        var rest := ReadChars(first.value.1);
        if rest.None? then None else Some(([first.value.0] + rest.value.0, rest.value.1))
  }

  function ReadString(s: string): (r: Read<string>)
    ensures r.Some? ==> |r.value.0| + |r.value.1| + 2 <= |s|
  {
    if s == "" || s[0] != '\"' then None else ReadChars(s[1..])
  }

  // Values (sections 3 to 5).

  /** A measure of a value that no text of it falls short of. */
  function Weight(j: Json): nat
    decreases j, 1
  {
    match j
    case JStr(s) => 1 + |s|
    case JArr(elems) => 1 + WeightOfElems(elems)
    case JObj(members) => 1 + WeightOfMembers(members)
    case _ => 1
  }

  function WeightOfElems(elems: seq<Json>): nat
    decreases elems, 0
  {
    if elems == [] then 0 else Weight(elems[0]) + WeightOfElems(elems[1..])
  }

  function WeightOfMembers(members: seq<(string, Json)>): nat
    decreases members, 0
  {
    if members == [] then 0 else WeightOfMember(members[0]) + WeightOfMembers(members[1..])
  }

  function WeightOfMember(m: (string, Json)): nat
    decreases m, 2
  {
    1 + |m.0| + Weight(m.1)
  }

  function ReadValue(s: string): (r: Read<Json>)
    ensures r.Some? ==> Weight(r.value.0) + |r.value.1| <= |s|
    decreases |s|, 1
  {
    if s == "" then None
    else if "null" <= s then Some((JNull, s[4..]))
    else if "true" <= s then Some((JBool(true), s[4..]))
    else if "false" <= s then Some((JBool(false), s[5..]))
    else if s[0] == '\"' then
      var r := ReadString(s);
      if r.None? then None else Some((JStr(r.value.0), r.value.1))
    else if s[0] == '[' then
      if |s| > 1 && s[1] == ']' then Some((JArr([]), s[2..]))
      else
        var r := ReadElems(s[1..]);
        if r.None? then None else Some((JArr(r.value.0), r.value.1))
    else if s[0] == '{' then
      if |s| > 1 && s[1] == '}' then Some((JObj([]), s[2..]))
      else
        var r := ReadMembers(s[1..]);
        if r.None? then None else Some((JObj(r.value.0), r.value.1))
    else
      var r := ReadInt(s);
      if r.None? then None else Some((JNum(r.value.0), r.value.1))
  }

  /** One or more values with commas between them, and the closing bracket. */
  function ReadElems(s: string): (r: Read<seq<Json>>)
    ensures r.Some? ==> WeightOfElems(r.value.0) + |r.value.1| <= |s|
    decreases |s|, 2
  {
    var first := ReadValue(s);
    if first.None? || first.value.1 == "" then None
    else if first.value.1[0] == ']' then Some(([first.value.0], first.value.1[1..]))
    else if first.value.1[0] != ',' then None
    else
      var rest := ReadElems(first.value.1[1..]);
      if rest.None? then None else Some(([first.value.0] + rest.value.0, rest.value.1))
  }

  function ReadMember(s: string): (r: Read<(string, Json)>)
    ensures r.Some? ==> WeightOfMember(r.value.0) + |r.value.1| <= |s|
    decreases |s|, 2
  {
    var key := ReadString(s);
    if key.None? || key.value.1 == "" || key.value.1[0] != ':' then None
    else
      var v := ReadValue(key.value.1[1..]);
      if v.None? then None else Some(((key.value.0, v.value.0), v.value.1))
  }

  function ReadMembers(s: string): (r: Read<seq<(string, Json)>>)
    ensures r.Some? ==> WeightOfMembers(r.value.0) + |r.value.1| <= |s|
    decreases |s|, 3
  {
    var first := ReadMember(s);
    if first.None? || first.value.1 == "" then None
    else if first.value.1[0] == '}' then Some(([first.value.0], first.value.1[1..]))
    else if first.value.1[0] != ',' then None
    else
      var rest := ReadMembers(first.value.1[1..]);
      if rest.None? then None else Some(([first.value.0] + rest.value.0, rest.value.1))
  }

  /** The value of a whole text. */
  function ReadText(text: string): (j: Option<Json>)
    ensures j.Some? ==> Weight(j.value) <= |text|
  {
    var r := ReadValue(text);
    if r.Some? && r.value.1 == "" then Some(r.value.0) else None
  }

  // Reading back numbers.

  lemma DigitIsRead(c: char)
    requires IsDigit(c)
    ensures DigitValue(c).Some?
  {
    var n := c as int;
    assert n == 48 || n == 49 || n == 50 || n == 51 || n == 52 || n == 53 || n == 54 || n == 55 || n == 56 || n == 57;
  }

  lemma DigitCharIsRead(d: nat)
    requires d < 10
    ensures DigitValue(DigitChar(d)) == Some(d)
  {
  }

  lemma {:induction false} DigitsOf(s: string, x: string)
    requires (forall c | c in s :: DigitValue(c).Some?) && (x == "" || DigitValue(x[0]).None?)
    ensures Digits(s + x) == s
  {
    if s == "" {
      assert s + x == x;
    } else {
      assert (s + x)[1..] == s[1..] + x;
      DigitsOf(s[1..], x);
    }
  }

  lemma {:induction false} DecimalIsRead(n: nat)
    ensures DecimalValue(Decimal(n)) == n
    ensures Decimal(n) != "" && (Decimal(n)[0] == '0' ==> n == 0)
  {
    DigitCharIsRead(n % 10);
    if n >= 10 {
      DecimalIsRead(n / 10);
      assert Decimal(n)[..|Decimal(n)| - 1] == Decimal(n / 10);
    } else {
      assert Decimal(n)[..0] == "";
      assert n > 0 ==> DigitChar(n) != '0';
    }
  }

  lemma DelimiterEndsDigits(x: string)
    requires Delimited(x)
    ensures x == "" || DigitValue(x[0]).None?
  {
  }

  lemma ReadNatOf(n: nat, x: string)
    requires Delimited(x)
    ensures ReadNat(Decimal(n) + x) == Some((n, x))
  {
    DecimalFacts(n);
    DecimalIsRead(n);
    DelimiterEndsDigits(x);
    forall c | c in Decimal(n) ensures DigitValue(c).Some? {
      DigitIsRead(c);
    }
    DigitsOf(Decimal(n), x);
    assert (Decimal(n) + x)[|Decimal(n)|..] == x;
    assert n == 0 ==> |Decimal(n)| == 1;
  }

  lemma MinusIsRead(digits: string, n: int, x: string)
    requires ReadNat(digits + x) == Some((n, x))
    ensures ReadInt("-" + digits + x) == Some((-n, x))
  {
    assert ("-" + digits + x)[1..] == digits + x;
  }

  lemma ReadIntOf(n: int, x: string)
    requires Delimited(x)
    ensures ReadInt(IntText(n) + x) == Some((n, x))
  {
    if n < 0 {
      ReadNatOf(-n, x);
      MinusIsRead(Decimal(-n), -n, x);
    } else {
      FirstOfInt(n);
      NoMinus(IntText(n), x);
      ReadNatOf(n, x);
    }
  }

  lemma NoMinus(digits: string, x: string)
    requires digits != "" && IsDigit(digits[0])
    ensures ReadInt(digits + x) == ReadNat(digits + x)
  {
  }

  // Reading back strings.

  lemma HexCharIsRead(d: nat)
    requires d < 16
    ensures HexValue(HexChar(d)) == Some(d)
  {
  }

  lemma ReadUnitOf(n: nat, x: string)
    requires n < 0x1_0000
    ensures ReadUnit(Hex4(n) + x) == Some(n)
  {
    HexCharIsRead(n / 4096);
    HexCharIsRead(n / 256 % 16);
    HexCharIsRead(n / 16 % 16);
    HexCharIsRead(n % 16);
    HexDigits(n);
  }

  lemma BasicUnit(s: string, c: char)
    requires ReadUnit(s) == Some(c as int) && c as int < 0x1_0000
    ensures ReadUnits(s) == Some((c, s[4..]))
  {
  }

  lemma PairOfUnits(s: string, high: nat, low: nat, c: char)
    requires ReadUnit(s) == Some(high) && |s| >= 10 && s[4] == '\\' && s[5] == 'u' && ReadUnit(s[6..]) == Some(low)
    requires 0xd800 <= high < 0xdc00 <= low < 0xe000
    requires c as int == 0x1_0000 + (high - 0xd800) * 1024 + (low - 0xdc00)
    ensures ReadUnits(s) == Some((c, s[10..]))
  {
  }

  lemma PairOf(c: char)
    requires c as int >= 0x1_0000
    ensures 0xd800 <= High(c) < 0xdc00 <= Low(c) < 0xe000
    ensures c as int == 0x1_0000 + (High(c) - 0xd800) * 1024 + (Low(c) - 0xdc00)
  {
  }

  lemma ReadUnitsOf(c: char, x: string)
    requires !Plain(c) && !Named(c)
    ensures var s := if c as int < 0x1_0000 then Hex4(High(c)) + x
                     else Hex4(High(c)) + ("\\u" + (Hex4(Low(c)) + x));
      ReadUnits(s) == Some((c, x))
  {
    if c as int < 0x1_0000 {
      ReadUnitOf(High(c), x);
      assert (Hex4(High(c)) + x)[4..] == x;
      BasicUnit(Hex4(High(c)) + x, c);
    } else {
      ReadPair(c, x);
    }
  }

  lemma ReadPair(c: char, x: string)
    requires c as int >= 0x1_0000
    ensures ReadUnits(Hex4(High(c)) + ("\\u" + (Hex4(Low(c)) + x))) == Some((c, x))
  {
    var tail := "\\u" + (Hex4(Low(c)) + x);
    PairOf(c);
    ReadUnitOf(High(c), tail);
    ReadUnitOf(Low(c), x);
    PairTail(Hex4(High(c)), Hex4(Low(c)), x);
    PairOfUnits(Hex4(High(c)) + tail, High(c), Low(c), c);
  }

  lemma PairTail(a: string, b: string, x: string)
    requires |a| == 4 && |b| == 4
    ensures var s := a + ("\\u" + (b + x));
      |s| >= 10 && s[4] == '\\' && s[5] == 'u' && s[6..] == b + x && s[10..] == x
  {
  }

  lemma ReadNamed(c: char, x: string)
    requires Named(c)
    ensures ReadChar(EscapeChar(c) + x) == Some((c, x))
  {
    EscapeShape(c);
    assert (EscapeChar(c) + x)[2..] == x;
    assert (EscapeChar(c) + x)[1] == EscapeChar(c)[1];
  }

  lemma EscapedUnits(c: char, x: string)
    requires !Plain(c) && !Named(c)
    ensures EscapeChar(c) + x
         == "\\u" + if c as int < 0x1_0000 then Hex4(High(c)) + x
                    else Hex4(High(c)) + ("\\u" + (Hex4(Low(c)) + x))
  {
    EscapeShape(c);
  }

  lemma UnitsAreRead(tail: string)
    ensures ReadChar("\\u" + tail) == ReadUnits(tail)
  {
    assert ("\\u" + tail)[2..] == tail;
  }

  lemma ReadPlain(c: char, x: string)
    requires Plain(c)
    ensures ReadChar([c] + x) == Some((c, x))
  {
    assert ([c] + x)[1..] == x;
  }

  lemma ReadUnitsChar(c: char, x: string)
    requires !Plain(c) && !Named(c)
    ensures ReadChar(EscapeChar(c) + x) == Some((c, x))
  {
    var tail := if c as int < 0x1_0000 then Hex4(High(c)) + x else Hex4(High(c)) + ("\\u" + (Hex4(Low(c)) + x));
    EscapedUnits(c, x);
    ReadUnitsOf(c, x);
    UnitsAreRead(tail);
  }

  lemma ReadCharOf(c: char, x: string)
    ensures ReadChar(EscapeChar(c) + x) == Some((c, x))
  {
    EscapeShape(c);
    if Plain(c) {
      ReadPlain(c, x);
    } else if Named(c) {
      ReadNamed(c, x);
    } else {
      ReadUnitsChar(c, x);
    }
  }

  lemma ReadMore(s: string, c: char, rest: string, t: string, x: string)
    requires ReadChar(s) == Some((c, rest)) && ReadChars(rest) == Some((t, x))
    ensures ReadChars(s) == Some(([c] + t, x))
  {
  }

  lemma {:induction false} ReadCharsOf(s: string, x: string)
    ensures ReadChars(Escape(s) + ("\"" + x)) == Some((s, x))
  {
    if s == "" {
      assert Escape(s) + ("\"" + x) == "\"" + x;
      assert ("\"" + x)[1..] == x;
    } else {
      var rest := Escape(s[1..]) + ("\"" + x);
      Assoc(EscapeChar(s[0]), Escape(s[1..]), "\"" + x);
      ReadCharOf(s[0], rest);
      ReadCharsOf(s[1..], x);
      ReadMore(Escape(s) + ("\"" + x), s[0], rest, s[1..], x);
      assert [s[0]] + s[1..] == s;
    }
  }

  lemma ReadStringOf(s: string, x: string)
    ensures ReadString(Quote(s) + x) == Some((s, x))
  {
    assert (Quote(s) + x)[1..] == Escape(s) + ("\"" + x);
    ReadCharsOf(s, x);
  }

  // Reading back values.

  lemma {:induction false} ReadValueOf(j: Json, x: string)
    requires Delimited(x)
    ensures ReadValue(Print(j) + x) == Some((j, x))
    decreases j, 1
  {
    var s := Print(j) + x;
    FirstChar(j);
    assert s[0] == Print(j)[0];
    match j
    case JNull => assert s[4..] == x;
    case JBool(b) => BoolIsRead(b, x);
    case JNum(n) => ReadIntOf(n, x);
    case JStr(t) => ReadStringOf(t, x);
    case JArr(elems) => ReadArrOf(elems, x);
    case JObj(members) => ReadObjOf(members, x);
  }

  lemma BoolIsRead(b: bool, x: string)
    ensures ReadValue(Print(JBool(b)) + x) == Some((JBool(b), x))
  {
    var s := Print(JBool(b)) + x;
    assert s[0] == if b then 't' else 'f';
    assert s[if b then 4 else 5..] == x;
  }

  lemma ArrIsRead(s: string, elems: seq<Json>, x: string)
    requires |s| > 1 && s[0] == '[' && s[1] != ']' && ReadElems(s[1..]) == Some((elems, x))
    ensures ReadValue(s) == Some((JArr(elems), x))
  {
  }

  lemma LastElem(s: string, v: Json, tail: string)
    requires ReadValue(s) == Some((v, tail)) && tail != "" && tail[0] == ']'
    ensures ReadElems(s) == Some(([v], tail[1..]))
  {
  }

  lemma NextElem(s: string, v: Json, tail: string, rest: seq<Json>, x: string)
    requires ReadValue(s) == Some((v, tail)) && tail != "" && tail[0] == ',' && ReadElems(tail[1..]) == Some((rest, x))
    ensures ReadElems(s) == Some(([v] + rest, x))
  {
  }

  lemma ArrText(elems: seq<Json>, x: string)
    requires elems != []
    ensures (Print(JArr(elems)) + x)[0] == '['
    ensures (Print(JArr(elems)) + x)[1..] == Print(elems[0]) + (PrintRest(elems[1..]) + x)
  {
    BehindOpening("[", Print(elems[0]), PrintRest(elems[1..]), x);
  }

  lemma RestText(elems: seq<Json>, x: string)
    ensures var tail := PrintRest(elems) + x;
      if elems == [] then tail != "" && tail[0] == ']' && tail[1..] == x
      else tail != "" && tail[0] == ',' && tail[1..] == Print(elems[0]) + (PrintRest(elems[1..]) + x)
  {
    if elems == [] {
      assert ("]" + x)[1..] == x;
    } else {
      BehindOpening(",", Print(elems[0]), PrintRest(elems[1..]), x);
    }
  }

  lemma BehindOpening(open: string, p: string, r: string, x: string)
    requires |open| == 1
    ensures var s := open + p + r + x; s[0] == open[0] && s[1..] == p + (r + x)
  {
  }

  lemma {:induction false} ReadArrOf(elems: seq<Json>, x: string)
    requires Delimited(x)
    ensures ReadValue(Print(JArr(elems)) + x) == Some((JArr(elems), x))
    decreases elems, 3
  {
    if elems == [] {
      assert ("[]" + x)[2..] == x;
    } else {
      ArrSecond(elems, x);
      ArrText(elems, x);
      ReadElemsOf(elems, x);
      ArrIsRead(Print(JArr(elems)) + x, elems, x);
    }
  }

  lemma {:induction false} ReadElemsOf(elems: seq<Json>, x: string)
    requires Delimited(x) && elems != []
    ensures ReadElems(Print(elems[0]) + (PrintRest(elems[1..]) + x)) == Some((elems, x))
    decreases elems, 2
  {
    var tail := PrintRest(elems[1..]) + x;
    var s := Print(elems[0]) + tail;
    RestDelimited(elems[1..], x);
    ReadValueOf(elems[0], tail);
    RestText(elems[1..], x);
    if elems[1..] == [] {
      LastElem(s, elems[0], tail);
      assert elems == [elems[0]];
    } else {
      ReadElemsOf(elems[1..], x);
      NextElem(s, elems[0], tail, elems[1..], x);
      assert elems == [elems[0]] + elems[1..];
    }
  }

  lemma ObjIsRead(s: string, members: seq<(string, Json)>, x: string)
    requires |s| > 1 && s[0] == '{' && s[1] != '}' && ReadMembers(s[1..]) == Some((members, x))
    ensures ReadValue(s) == Some((JObj(members), x))
  {
  }

  lemma LastMember(s: string, m: (string, Json), tail: string)
    requires ReadMember(s) == Some((m, tail)) && tail != "" && tail[0] == '}'
    ensures ReadMembers(s) == Some(([m], tail[1..]))
  {
  }

  lemma NextMember(s: string, m: (string, Json), tail: string, rest: seq<(string, Json)>, x: string)
    requires ReadMember(s) == Some((m, tail)) && tail != "" && tail[0] == ','
    requires ReadMembers(tail[1..]) == Some((rest, x))
    ensures ReadMembers(s) == Some(([m] + rest, x))
  {
  }

  lemma ObjText(members: seq<(string, Json)>, x: string)
    requires members != []
    ensures (Print(JObj(members)) + x)[0] == '{'
    ensures (Print(JObj(members)) + x)[1..] == PrintMember(members[0]) + (PrintMembers(members[1..]) + x)
  {
    BehindOpening("{", PrintMember(members[0]), PrintMembers(members[1..]), x);
  }

  lemma MembersText(members: seq<(string, Json)>, x: string)
    ensures var tail := PrintMembers(members) + x;
      if members == [] then tail != "" && tail[0] == '}' && tail[1..] == x
      else tail != "" && tail[0] == ',' && tail[1..] == PrintMember(members[0]) + (PrintMembers(members[1..]) + x)
  {
    if members == [] {
      assert ("}" + x)[1..] == x;
    } else {
      BehindOpening(",", PrintMember(members[0]), PrintMembers(members[1..]), x);
    }
  }

  lemma {:induction false} ReadObjOf(members: seq<(string, Json)>, x: string)
    requires Delimited(x)
    ensures ReadValue(Print(JObj(members)) + x) == Some((JObj(members), x))
    decreases members, 5
  {
    if members == [] {
      assert ("{}" + x)[2..] == x;
    } else {
      ObjSecond(members, x);
      ObjText(members, x);
      ReadMembersOf(members, x);
      ObjIsRead(Print(JObj(members)) + x, members, x);
    }
  }

  lemma MemberIsRead(s: string, key: string, tail: string, v: Json, x: string)
    requires ReadString(s) == Some((key, tail)) && tail != "" && tail[0] == ':'
    requires ReadValue(tail[1..]) == Some((v, x))
    ensures ReadMember(s) == Some(((key, v), x))
  {
  }

  lemma {:induction false} ReadMemberOf(m: (string, Json), x: string)
    requires Delimited(x)
    ensures ReadMember(PrintMember(m) + x) == Some((m, x))
    decreases m, 4
  {
    var tail := ":" + (Print(m.1) + x);
    MemberShape(Quote(m.0), Print(m.1), x);
    ReadStringOf(m.0, tail);
    assert tail[1..] == Print(m.1) + x;
    ReadValueOf(m.1, x);
    MemberIsRead(Quote(m.0) + tail, m.0, tail, m.1, x);
  }

  lemma {:induction false} ReadMembersOf(members: seq<(string, Json)>, x: string)
    requires Delimited(x) && members != []
    ensures ReadMembers(PrintMember(members[0]) + (PrintMembers(members[1..]) + x)) == Some((members, x))
    decreases members, 2
  {
    var tail := PrintMembers(members[1..]) + x;
    var s := PrintMember(members[0]) + tail;
    MembersDelimited(members[1..], x);
    ReadMemberOf(members[0], tail);
    MembersText(members[1..], x);
    if members[1..] == [] {
      LastMember(s, members[0], tail);
      assert members == [members[0]];
    } else {
      ReadMembersOf(members[1..], x);
      NextMember(s, members[0], tail, members[1..], x);
      assert members == [members[0]] + members[1..];
    }
  }

  /** The printed text of a value is a text of the grammar, and its value is the one printed. */
  lemma ReadPrinted(j: Json)
    ensures ReadText(Print(j)) == Some(j)
  {
    assert Print(j) + "" == Print(j);
    ReadValueOf(j, "");
  }
}
