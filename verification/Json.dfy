/** JSON text: a writer and, independently of it, a reader that follows the grammar of RFC 8259 for
    null, strings, non-negative integers, arrays and objects. */
module Json {
  import opened Wrappers

  datatype Json = Null | Str(text: string) | Num(value: nat) | Arr(items: seq<Json>) | Obj(members: seq<Member>)

  datatype Member = Member(key: string, value: Json)

  /******* Strings *******/

  const HEX := "0123456789abcdef"

  /** The text a character becomes inside quotes. */
  function EscapeChar(c: char): string {
    if c == '"' then "\\\""
    else if c == '\\' then "\\\\"
    else if c == '\U{08}' then "\\b"
    else if c == '\U{0c}' then "\\f"
    else if c == '\n' then "\\n"
    else if c == '\r' then "\\r"
    else if c == '\t' then "\\t"
    else if c <= '\U{1f}' then "\\u00" + [HEX[c as int / 16], HEX[c as int % 16]]
    else [c]
  }

  function Escape(value: string): string {
    if value == "" then "" else EscapeChar(value[0]) + Escape(value[1..])
  }

  function Quoted(value: string): string {
    "\"" + Escape(value) + "\""
  }

  datatype Parsed<T> = Parsed(value: T, rest: string)

  function HexDigit(c: char): Option<nat> {
    if '0' <= c <= '9' then Some(c as int - '0' as int)
    else if 'a' <= c <= 'f' then Some(c as int - 'a' as int + 10)
    else if 'A' <= c <= 'F' then Some(c as int - 'A' as int + 10)
    else None
  }

  /** Four hexadecimal digits (section 7). */
  function Hex4(s: string): (r: Option<nat>)
    ensures r.Some? ==> |s| >= 4 && r.value < 0x1_0000
  {
    if |s| < 4 then None
    else
      match (HexDigit(s[0]), HexDigit(s[1]), HexDigit(s[2]), HexDigit(s[3]))
      case (Some(a), Some(b), Some(c), Some(d)) =>
        if a < 16 && b < 16 && c < 16 && d < 16 then Some(((a * 16 + b) * 16 + c) * 16 + d) else None
      case _ => None
  }

  /** What follows `\u`: one code unit, or two when the first is a high surrogate (section 7). A lone
      surrogate is no character. */
  function UnicodeEscape(s: string): (r: Option<Parsed<char>>)
    ensures r.Some? ==> |r.value.rest| < |s|
  {
    match Hex4(s)
    case None => None
    case Some(unit) =>
      if unit < 0xD800 || unit >= 0xE000 then Some(Parsed(unit as char, s[4..]))
      else if unit >= 0xDC00 || |s| < 6 || s[4] != '\\' || s[5] != 'u' then None
      else
        match Hex4(s[6..])
        case None => None
        case Some(low) =>
          if low < 0xDC00 || low >= 0xE000 then None
          else Some(Parsed((0x1_0000 + (unit - 0xD800) * 0x400 + (low - 0xDC00)) as char, s[10..]))
  }

  /** What follows a backslash. */
  function Unescape(s: string): (r: Option<Parsed<char>>)
    ensures r.Some? ==> |r.value.rest| < |s|
  {
    if s == "" then None
    else if s[0] == '"' || s[0] == '\\' || s[0] == '/' then Some(Parsed(s[0], s[1..]))
    else if s[0] == 'b' then Some(Parsed('\U{08}', s[1..]))
    else if s[0] == 'f' then Some(Parsed('\U{0c}', s[1..]))
    else if s[0] == 'n' then Some(Parsed('\n', s[1..]))
    else if s[0] == 'r' then Some(Parsed('\r', s[1..]))
    else if s[0] == 't' then Some(Parsed('\t', s[1..]))
    else if s[0] == 'u' then UnicodeEscape(s[1..])
    else None
  }

  /** The characters up to the closing quote; control characters may not stand for themselves. */
  function ReadChars(s: string): (r: Option<Parsed<string>>)
    ensures r.Some? ==> |r.value.rest| < |s|
    decreases |s|
  {
    if s == "" then None
    else if s[0] == '"' then Some(Parsed("", s[1..]))
    else if s[0] < ' ' then None
    else
      match (if s[0] == '\\' then Unescape(s[1..]) else Some(Parsed(s[0], s[1..])))
      case None => None
      case Some(first) =>
        match ReadChars(first.rest)
        case None => None
        case Some(more) => Some(Parsed([first.value] + more.value, more.rest))
  }

  /** Reading undoes the escaping of one character. */
  lemma {:induction false} CharRoundTrip(c: char, t: string)
    ensures ReadChars(EscapeChar(c) + t)
            == match ReadChars(t)
               case None => None
               case Some(more) => Some(Parsed([c] + more.value, more.rest))
  {
    var e := EscapeChar(c);
    var s := e + t;
    hide ReadChars;
    assert s[0] == e[0] && e[0] >= ' ' && e[0] != '"';
    if e[0] == '\\' {
      assert s[1..] == e[1..] + t;
      EscapeRoundTrip(c, t);
    } else {
      assert s[1..] == t;
    }
    ReadStep(s);
  }

  lemma {:induction false} ReadStep(s: string)
    requires s != "" && s[0] != '"' && s[0] >= ' '
    ensures ReadChars(s)
            == match (if s[0] == '\\' then Unescape(s[1..]) else Some(Parsed(s[0], s[1..])))
               case None => None
               case Some(first) =>
                 match ReadChars(first.rest)
                 case None => None
                 case Some(more) => Some(Parsed([first.value] + more.value, more.rest))
  {
  }

  lemma {:induction false} EscapeRoundTrip(c: char, t: string)
    requires EscapeChar(c)[0] == '\\'
    ensures Unescape(EscapeChar(c)[1..] + t) == Some(Parsed(c, t))
  {
    var s := EscapeChar(c)[1..] + t;
    if |EscapeChar(c)| == 2 {
      assert s[1..] == t;
    } else {
      ControlRoundTrip(c as int, s[1..]);
      assert s[1..][4..] == t;
    }
  }

  lemma {:induction false} ControlRoundTrip(n: nat, s: string)
    requires n < 32 && |s| >= 4 && s[0] == '0' && s[1] == '0' && s[2] == HEX[n / 16] && s[3] == HEX[n % 16]
    ensures Hex4(s) == Some(n)
  {
    HexRoundTrip(n / 16);
    HexRoundTrip(n % 16);
  }

  lemma {:induction false} HexRoundTrip(n: nat)
    requires n < 16
    ensures HexDigit(HEX[n]) == Some(n)
  {
  }

  /** A string survives quoting and reading, whatever follows it. */
  lemma {:induction false} StringRoundTrip(value: string, t: string)
    ensures ReadChars(Escape(value) + "\"" + t) == Some(Parsed(value, t))
  {
    if value == "" {
      assert Escape(value) + "\"" + t == "\"" + t;
      assert ("\"" + t)[1..] == t;
    } else {
      var tail := Escape(value[1..]) + "\"" + t;
      StringRoundTrip(value[1..], t);
      CharRoundTrip(value[0], tail);
      assert Escape(value) + "\"" + t == EscapeChar(value[0]) + tail;
      assert [value[0]] + value[1..] == value;
    }
  }

  /******* Numbers *******/

  function Digit(n: nat): char
    requires n < 10
  {
    "0123456789"[n]
  }

  function Decimal(n: nat): string {
    if n < 10 then [Digit(n)] else Decimal(n / 10) + [Digit(n % 10)]
  }

  predicate IsDigit(c: char) {
    '0' <= c <= '9'
  }

  function ReadDigits(s: string, soFar: nat): (r: Parsed<nat>)
    ensures |r.rest| <= |s|
  {
    if s != "" && IsDigit(s[0]) then ReadDigits(s[1..], soFar * 10 + (s[0] as int - '0' as int))
    else Parsed(soFar, s)
  }

  /** No leading zeros; a fraction or an exponent is not read. */
  function ReadNumber(s: string): (r: Option<Parsed<nat>>)
    ensures r.Some? ==> |r.value.rest| < |s|
  {
    if s == "" || !IsDigit(s[0]) then None
    else
      var n := if s[0] == '0' then Parsed(0, s[1..]) else ReadDigits(s[1..], s[0] as int - '0' as int);
      if n.rest != "" && n.rest[0] in ".eE" then None else Some(n)
  }

  lemma {:induction false} DigitsRoundTrip(n: nat, t: string)
    ensures ReadDigits(Decimal(n) + t, 0) == ReadDigits(t, n)
  {
    if n >= 10 {
      var q, k := n / 10, n % 10;
      assert n == q * 10 + k;
      assert Decimal(n) + t == Decimal(q) + ([Digit(k)] + t);
      hide Decimal;
      DigitsRoundTrip(q, [Digit(k)] + t);
      OneDigit(k, t, q);
    } else {
      OneDigit(n, t, 0);
    }
  }

  lemma {:induction false} OneDigit(k: nat, t: string, soFar: nat)
    requires k < 10
    ensures ReadDigits([Digit(k)] + t, soFar) == ReadDigits(t, soFar * 10 + k)
  {
    assert ([Digit(k)] + t)[1..] == t;
  }

  lemma {:induction false} DecimalStarts(n: nat)
    ensures Decimal(n) != "" && IsDigit(Decimal(n)[0]) && (Decimal(n)[0] == '0' <==> n == 0)
    ensures n == 0 ==> Decimal(n) == "0"
  {
    if n >= 10 {
      DecimalStarts(n / 10);
    }
  }

  /** What may follow a value in JSON text. */
  predicate Delimited(t: string) {
    t == "" || t[0] in ",]}"
  }

  lemma {:induction false} NumberRoundTrip(n: nat, t: string)
    requires Delimited(t)
    ensures ReadNumber(Decimal(n) + t) == Some(Parsed(n, t))
  {
    var s := Decimal(n) + t;
    DecimalStarts(n);
    if n == 0 {
      assert s[1..] == t;
    } else {
      DigitsRoundTrip(n, t);
    }
  }

  /******* Values *******/

  function Print(j: Json): string {
    match j
    case Null => "null"
    case Str(text) => Quoted(text)
    case Num(n) => Decimal(n)
    case Arr(items) => "[" + PrintItems(items) + "]"
    case Obj(members) => "{" + PrintMembers(members) + "}"
  }

  function PrintItems(items: seq<Json>): string {
    if items == [] then ""
    else if |items| == 1 then Print(items[0])
    else Print(items[0]) + "," + PrintItems(items[1..])
  }

  function PrintMember(m: Member): string {
    Quoted(m.key) + ":" + Print(m.value)
  }

  function PrintMembers(members: seq<Member>): string {
    if members == [] then ""
    else if |members| == 1 then PrintMember(members[0])
    else PrintMember(members[0]) + "," + PrintMembers(members[1..])
  }

  /** White space between tokens (section 2). */
  function SkipSpace(s: string): (r: string)
    ensures |r| <= |s|
  {
    if s != "" && s[0] in " \t\n\r" then SkipSpace(s[1..]) else s
  }

  /** `c`, after white space; the text after it. */
  function Expect(s: string, c: char): (r: Option<string>)
    ensures r.Some? ==> |r.value| < |s|
  {
    var t := SkipSpace(s);
    if t != "" && t[0] == c then Some(t[1..]) else None
  }

  function ReadString(s: string): (r: Option<Parsed<string>>)
    ensures r.Some? ==> |r.value.rest| < |s|
  {
    match Expect(s, '"')
    case None => None
    case Some(t) => ReadChars(t)
  }

  /** A value at the head of the text (section 3). */
  function ReadValue(s: string): (r: Option<Parsed<Json>>)
    ensures r.Some? ==> |r.value.rest| < |s|
    decreases |s|, 2
  {
    var t := SkipSpace(s);
    if t == "" then None
    else if t[0] == '"' then
      match ReadChars(t[1..])
      case None => None
      case Some(p) => Some(Parsed(Str(p.value), p.rest))
    else if t[0] == '[' then
      match Expect(t[1..], ']')
      case Some(rest) => Some(Parsed(Arr([]), rest))
      case None =>
        match ReadItems(t[1..])
        case None => None
        case Some(p) => Some(Parsed(Arr(p.value), p.rest))
    else if t[0] == '{' then
      match Expect(t[1..], '}')
      case Some(rest) => Some(Parsed(Obj([]), rest))
      case None =>
        match ReadMembers(t[1..])
        case None => None
        case Some(p) => Some(Parsed(Obj(p.value), p.rest))
    else if "null" <= t then Some(Parsed(Null, t[4..]))
    else
      match ReadNumber(t)
      case None => None
      case Some(p) => Some(Parsed(Num(p.value), p.rest))
  }

  /** One or more values up to the closing bracket (section 5). */
  function ReadItems(s: string): (r: Option<Parsed<seq<Json>>>)
    ensures r.Some? ==> |r.value.rest| < |s|
    decreases |s|, 3
  {
    match ReadValue(s)
    case None => None
    case Some(first) =>
      match Expect(first.rest, ']')
      case Some(rest) => Some(Parsed([first.value], rest))
      case None =>
        match Expect(first.rest, ',')
        case None => None
        case Some(t) =>
          match ReadItems(t)
          case None => None
          case Some(more) => Some(Parsed([first.value] + more.value, more.rest))
  }

  function ReadMember(s: string): (r: Option<Parsed<Member>>)
    ensures r.Some? ==> |r.value.rest| < |s|
    decreases |s|, 3
  {
    match ReadString(s)
    case None => None
    case Some(key) =>
      match Expect(key.rest, ':')
      case None => None
      case Some(t) =>
        match ReadValue(t)
        case None => None
        case Some(value) => Some(Parsed(Member(key.value, value.value), value.rest))
  }

  /** One or more members up to the closing brace (section 4). */
  function ReadMembers(s: string): (r: Option<Parsed<seq<Member>>>)
    ensures r.Some? ==> |r.value.rest| < |s|
    decreases |s|, 4
  {
    match ReadMember(s)
    case None => None
    case Some(first) =>
      match Expect(first.rest, '}')
      case Some(rest) => Some(Parsed([first.value], rest))
      case None =>
        match Expect(first.rest, ',')
        case None => None
        case Some(t) =>
          match ReadMembers(t)
          case None => None
          case Some(more) => Some(Parsed([first.value] + more.value, more.rest))
  }

  /******* Reading what was written *******/

  lemma {:induction false} ExpectIs(c: char, t: string, d: char)
    requires c !in " \t\n\r"
    ensures SkipSpace([c] + t) == [c] + t
    ensures Expect([c] + t, d) == if c == d then Some(t) else None
  {
    assert ([c] + t)[1..] == t;
  }

  /** Printed text begins with the character that tells the kinds apart. */
  lemma {:induction false} PrintStarts(j: Json)
    ensures Print(j) != ""
    ensures match j
            case Null => Print(j)[0] == 'n'
            case Str(_) => Print(j)[0] == '"'
            case Num(_) => IsDigit(Print(j)[0])
            case Arr(_) => Print(j)[0] == '['
            case Obj(_) => Print(j)[0] == '{'
  {
    match j
    case Num(n) => DecimalStarts(n);
    case Null =>
    case Str(_) =>
    case Arr(_) =>
    case Obj(_) =>
  }

  lemma {:induction false} ReadQuoted(text: string, t: string)
    ensures ReadString(Quoted(text) + t) == Some(Parsed(text, t))
    ensures ReadValue(Quoted(text) + t) == Some(Parsed(Str(text), t))
  {
    var inner := Escape(text) + "\"" + t;
    assert Quoted(text) + t == ['"'] + inner;
    hide Expect, SkipSpace, ReadChars;
    ExpectIs('"', inner, '"');
    StringRoundTrip(text, t);
    assert (['"'] + inner)[1..] == inner;
  }

  lemma {:induction false} ReadNull(t: string)
    ensures ReadValue("null" + t) == Some(Parsed(Null, t))
  {
    hide SkipSpace;
    ExpectIs('n', "ull" + t, ' ');
    assert "null" + t == ['n'] + ("ull" + t);
    assert ("null" + t)[4..] == t;
  }

  lemma {:induction false} ReadDecimal(n: nat, t: string)
    requires Delimited(t)
    ensures ReadValue(Decimal(n) + t) == Some(Parsed(Num(n), t))
  {
    var s := Decimal(n) + t;
    DecimalStarts(n);
    assert s == [s[0]] + s[1..];
    ExpectIs(s[0], s[1..], ' ');
    NumberRoundTrip(n, t);
    hide SkipSpace, ReadNumber, Decimal;
    assert !("null" <= s) by {
      assert "null"[0] == 'n';
    }
  }

  /** Every value is read back, whatever delimiter follows it. */
  lemma {:induction false} ValueRoundTrip(j: Json, t: string)
    requires Delimited(t)
    ensures ReadValue(Print(j) + t) == Some(Parsed(j, t))
    decreases j, 1
  {
    hide ReadValue, Print;
    match j {
      case Null =>
        PrintIs(j);
        ReadNull(t);
      case Str(text) =>
        PrintIs(j);
        ReadQuoted(text, t);
      case Num(n) =>
        PrintIs(j);
        ReadDecimal(n, t);
      case Arr(items) =>
        if items != [] {
          ItemsRoundTrip(items, t);
        }
        ReadArr(items, t);
      case Obj(members) =>
        if members != [] {
          MembersRoundTrip(members, t);
        }
        ReadObj(members, t);
    }
  }

  lemma {:induction false} PrintIs(j: Json)
    ensures j.Null? ==> Print(j) == "null"
    ensures j.Str? ==> Print(j) == Quoted(j.text)
    ensures j.Num? ==> Print(j) == Decimal(j.value)
  {
  }

  /** Only an empty array closes at once. */
  lemma {:induction false} ArrStarts(items: seq<Json>, t: string)
    ensures var inner := PrintItems(items) + "]" + t;
            && Print(Arr(items)) + t == ['['] + inner
            && Expect(inner, ']') == if items == [] then Some(t) else None
  {
    var inner := PrintItems(items) + "]" + t;
    hide Expect, SkipSpace;
    assert Print(Arr(items)) + t == ['['] + inner;
    if items == [] {
      assert inner == [']'] + t;
      ExpectIs(']', t, ']');
    } else {
      PrintStarts(items[0]);
      assert inner == [inner[0]] + inner[1..];
      assert inner[0] == Print(items[0])[0];
      ExpectIs(inner[0], inner[1..], ']');
    }
  }

  lemma {:induction false} ReadArr(items: seq<Json>, t: string)
    requires items != [] ==> ReadItems(PrintItems(items) + "]" + t) == Some(Parsed(items, t))
    ensures ReadValue(Print(Arr(items)) + t) == Some(Parsed(Arr(items), t))
  {
    hide Expect, SkipSpace, ReadItems, Print, PrintItems, ReadNumber, ReadMembers, ReadChars;
    var inner := PrintItems(items) + "]" + t;
    ArrStarts(items, t);
    ExpectIs('[', inner, '[');
    assert (['['] + inner)[1..] == inner;
  }

  lemma {:induction false} ObjStarts(members: seq<Member>, t: string)
    ensures var inner := PrintMembers(members) + "}" + t;
            && Print(Obj(members)) + t == ['{'] + inner
            && Expect(inner, '}') == if members == [] then Some(t) else None
  {
    var inner := PrintMembers(members) + "}" + t;
    hide Expect, SkipSpace;
    assert Print(Obj(members)) + t == ['{'] + inner;
    if members == [] {
      assert inner == ['}'] + t;
      ExpectIs('}', t, '}');
    } else {
      assert inner == [inner[0]] + inner[1..];
      assert inner[0] == PrintMember(members[0])[0] == '"';
      ExpectIs(inner[0], inner[1..], '}');
    }
  }

  lemma {:induction false} ReadObj(members: seq<Member>, t: string)
    requires members != [] ==> ReadMembers(PrintMembers(members) + "}" + t) == Some(Parsed(members, t))
    ensures ReadValue(Print(Obj(members)) + t) == Some(Parsed(Obj(members), t))
  {
    hide Expect, SkipSpace, ReadItems, Print, PrintMembers, ReadNumber, ReadMembers, ReadChars;
    var inner := PrintMembers(members) + "}" + t;
    ObjStarts(members, t);
    ExpectIs('{', inner, '{');
    assert (['{'] + inner)[1..] == inner;
  }

  lemma {:induction false} ItemsRoundTrip(items: seq<Json>, t: string)
    requires items != []
    ensures ReadItems(PrintItems(items) + "]" + t) == Some(Parsed(items, t))
    decreases items
  {
    hide ReadValue, Print, Expect, SkipSpace;
    var first := Print(items[0]);
    if |items| == 1 {
      ValueRoundTrip(items[0], "]" + t);
      ExpectIs(']', t, ']');
      assert PrintItems(items) + "]" + t == first + ("]" + t);
      assert items == [items[0]];
    } else {
      var more := PrintItems(items[1..]) + "]" + t;
      ValueRoundTrip(items[0], "," + more);
      ExpectIs(',', more, ']');
      ExpectIs(',', more, ',');
      ItemsRoundTrip(items[1..], t);
      assert PrintItems(items) + "]" + t == first + ("," + more);
      assert items == [items[0]] + items[1..];
    }
  }

  lemma {:induction false} MemberRoundTrip(m: Member, t: string)
    requires Delimited(t)
    ensures ReadMember(PrintMember(m) + t) == Some(Parsed(m, t))
    decreases m
  {
    hide ReadValue, Print, Expect, SkipSpace, ReadString, Quoted;
    var value := Print(m.value) + t;
    ReadQuoted(m.key, ":" + value);
    ExpectIs(':', value, ':');
    ValueRoundTrip(m.value, t);
    assert PrintMember(m) + t == Quoted(m.key) + (":" + value);
  }

  lemma {:induction false} MembersRoundTrip(members: seq<Member>, t: string)
    requires members != []
    ensures ReadMembers(PrintMembers(members) + "}" + t) == Some(Parsed(members, t))
    decreases members
  {
    hide ReadMember, PrintMember, Expect, SkipSpace;
    var first := PrintMember(members[0]);
    if |members| == 1 {
      MemberRoundTrip(members[0], "}" + t);
      ExpectIs('}', t, '}');
      assert PrintMembers(members) + "}" + t == first + ("}" + t);
      assert members == [members[0]];
    } else {
      var more := PrintMembers(members[1..]) + "}" + t;
      MemberRoundTrip(members[0], "," + more);
      ExpectIs(',', more, '}');
      ExpectIs(',', more, ',');
      MembersRoundTrip(members[1..], t);
      assert PrintMembers(members) + "}" + t == first + ("," + more);
      assert members == [members[0]] + members[1..];
    }
  }

  /******* Line breaks *******/

  lemma {:induction false} EscapeHasNoNewline(value: string)
    ensures '\n' !in Escape(value)
  {
    if value != "" {
      EscapeHasNoNewline(value[1..]);
      EscapeCharHasNoNewline(value[0]);
    }
  }

  lemma {:induction false} EscapeCharHasNoNewline(c: char)
    ensures '\n' !in EscapeChar(c)
  {
  }

  lemma {:induction false} DecimalHasNoNewline(n: nat)
    ensures '\n' !in Decimal(n)
  {
    if n >= 10 {
      DecimalHasNoNewline(n / 10);
    }
  }

  /** Printed text is one line. */
  lemma {:induction false} PrintHasNoNewline(j: Json)
    ensures '\n' !in Print(j)
    decreases j
  {
    match j
    case Null =>
    case Str(text) => EscapeHasNoNewline(text);
    case Num(n) => DecimalHasNoNewline(n);
    case Arr(items) => ItemsHaveNoNewline(items);
    case Obj(members) => MembersHaveNoNewline(members);
  }

  lemma {:induction false} ItemsHaveNoNewline(items: seq<Json>)
    ensures '\n' !in PrintItems(items)
    decreases items
  {
    if items != [] {
      PrintHasNoNewline(items[0]);
      ItemsHaveNoNewline(items[1..]);
    }
  }

  lemma {:induction false} MembersHaveNoNewline(members: seq<Member>)
    ensures '\n' !in PrintMembers(members)
    decreases members
  {
    if members != [] {
      EscapeHasNoNewline(members[0].key);
      PrintHasNoNewline(members[0].value);
      MembersHaveNoNewline(members[1..]);
    }
  }
}
