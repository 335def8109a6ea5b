/** A reader for JSON texts after RFC 8259, sections 2 and 4 to 7, the proof partner of the
    printer. Numbers are integers, and \u escapes stand for code points below U+0080; every
    text it accepts is a JSON text. */
module JsonParser {
  import opened ByteOrder
  import opened Decimal
  import opened JsonValues

  datatype Parsed<+T> = Fail | Ok(value: T, rest: string)

  predicate IsSpace(c: char) {
    c == ' ' || c == '\t' || c == '\n' || c == '\r'
  }

  /** Insignificant whitespace, RFC 8259 section 2. */
  function SkipSpace(s: string): (r: string)
    ensures |r| <= |s|
  {
    if s != "" && IsSpace(s[0]) then SkipSpace(s[1..]) else s
  }

  predicate IsHex(c: char) {
    '0' <= c <= '9' || 'a' <= c <= 'f' || 'A' <= c <= 'F'
  }

  function HexValue(c: char): (d: nat)
    requires IsHex(c)
    ensures d < 16
  {
    if c <= '9' then c as int - '0' as int
    else if c <= 'F' then c as int - 'A' as int + 10
    else c as int - 'a' as int + 10
  }

  /** One escape sequence, after its backslash; RFC 8259 section 7. */
  function ParseEscape(s: string): (r: Parsed<char>)
    ensures r.Ok? ==> |r.rest| < |s|
  {
    if s == "" then Fail
    else match s[0]
      case '\"' => Ok('\"', s[1..])
      case '\\' => Ok('\\', s[1..])
      case '/' => Ok('/', s[1..])
      case 'b' => Ok(8 as char, s[1..])
      case 'f' => Ok(12 as char, s[1..])
      case 'n' => Ok('\n', s[1..])
      case 'r' => Ok('\r', s[1..])
      case 't' => Ok('\t', s[1..])
      case 'u' =>
        if |s| >= 5 && s[1] == '0' && s[2] == '0' && IsHex(s[3]) && IsHex(s[4]) && HexValue(s[3]) < 8
        then Ok((16 * HexValue(s[3]) + HexValue(s[4])) as char, s[5..])
        else Fail
      case _ => Fail
  }

  /** The rest of a string, after its opening quotation mark. */
  function ParseString(s: string): (r: Parsed<string>)
    ensures r.Ok? ==> |r.rest| < |s|
    decreases |s|
  {
    if s == "" || s[0] < ' ' then Fail
    else if s[0] == '\"' then Ok("", s[1..])
    else
      var head := if s[0] == '\\' then ParseEscape(s[1..]) else Ok(s[0], s[1..]);
      if head.Fail? then Fail
      else match ParseString(head.rest)
        case Fail => Fail
        case Ok(tail, rest) => Ok([head.value] + tail, rest)
  }

  function DigitCount(s: string): (n: nat)
    ensures n <= |s| && AllDigits(s[..n])
    ensures n < |s| ==> !IsDigit(s[n])
  {
    if s == "" || !IsDigit(s[0]) then 0 else 1 + DigitCount(s[1..])
  }

  function ParseNumber(s: string): (r: Parsed<Json>)
    ensures r.Ok? ==> |r.rest| < |s|
  {
    var negative := s != "" && s[0] == '-';
    var t := if negative then s[1..] else s;
    var n := DigitCount(t);
    if Canonical(t[..n])
    then Ok(Num(if negative then 0 - DigitsValue(t[..n]) else DigitsValue(t[..n])), t[n..])
    else Fail
  }

  function ParseWord(s: string, word: string, v: Json): (r: Parsed<Json>)
    requires word != ""
    ensures r.Ok? ==> |r.rest| < |s|
  {
    if word <= s then Ok(v, s[|word|..]) else Fail
  }

  function ParseValue(s: string): (r: Parsed<Json>)
    ensures r.Ok? ==> |r.rest| < |s|
    decreases |s|, 0
  {
    var t := SkipSpace(s);
    if t == "" then Fail
    else match t[0]
      case 'n' => ParseWord(t, "null", Null)
      case 't' => ParseWord(t, "true", Bool(true))
      case 'f' => ParseWord(t, "false", Bool(false))
      case '\"' => (match ParseString(t[1..])
        case Fail => Fail
        case Ok(text, rest) => Ok(Str(text), rest))
      case '[' => ParseArray(t[1..])
      case '{' => ParseObject(t[1..])
      case _ => ParseNumber(t)
  }

  /** The rest of an array, after its opening bracket. */
  function ParseArray(s: string): (r: Parsed<Json>)
    ensures r.Ok? ==> |r.rest| < |s|
    decreases |s|, 2
  {
    var u := SkipSpace(s);
    if u != "" && u[0] == ']' then Ok(Arr([]), u[1..]) else ParseItems(s, [])
  }

  /** The rest of an object, after its opening brace. */
  function ParseObject(s: string): (r: Parsed<Json>)
    ensures r.Ok? ==> |r.rest| < |s|
    decreases |s|, 2
  {
    var u := SkipSpace(s);
    if u != "" && u[0] == '}' then Ok(Obj([]), u[1..]) else ParseMembers(s, [])
  }

  function ParseItems(s: string, acc: seq<Json>): (r: Parsed<Json>)
    ensures r.Ok? ==> |r.rest| < |s|
    decreases |s|, 1
  {
    match ParseValue(s)
    case Fail => Fail
    case Ok(v, rest) =>
      var u := SkipSpace(rest);
      if u == "" then Fail
      else if u[0] == ',' then ParseItems(u[1..], acc + [v])
      else if u[0] == ']' then Ok(Arr(acc + [v]), u[1..])
      else Fail
  }

  /** A member's name with its colon. */
  function ParseKey(s: string): (r: Parsed<string>)
    ensures r.Ok? ==> |r.rest| < |s|
  {
    var t := SkipSpace(s);
    if t == "" || t[0] != '\"' then Fail
    else match ParseString(t[1..])
      case Fail => Fail
      case Ok(key, afterKey) =>
        var colon := SkipSpace(afterKey);
        if colon == "" || colon[0] != ':' then Fail else Ok(key, colon[1..])
  }

  /** A repeated key keeps its last value, as insert_or_assign does. */
  function ParseMembers(s: string, acc: seq<Member>): (r: Parsed<Json>)
    ensures r.Ok? ==> |r.rest| < |s|
    decreases |s|, 1
  {
    match ParseKey(s)
    case Fail => Fail
    case Ok(key, afterColon) =>
      match ParseValue(afterColon)
      case Fail => Fail
      case Ok(v, rest) =>
        var u := SkipSpace(rest);
        if u == "" then Fail
        else if u[0] == ',' then ParseMembers(u[1..], Assign(acc, key, v))
        else if u[0] == '}' then Ok(Obj(Assign(acc, key, v)), u[1..])
        else Fail
  }

  // ----- reading undoes printing

  lemma {:induction false} EscapeCharRoundTrip(c: char, rest: string)
    ensures var s := EscapeChar(c) + rest;
            && s[0] != '\"' && s[0] >= ' '
            && (if s[0] == '\\' then ParseEscape(s[1..]) else Ok(s[0], s[1..])) == Ok(c, rest)
  {
  }

  /** Unescaping undoes Escape on every string. */
  lemma {:induction false} EscapeRoundTrip(text: string, rest: string)
    ensures ParseString(Escape(text) + ("\"" + rest)) == Ok(text, rest)
  {
    if text == "" {
      assert Escape(text) + ("\"" + rest) == "\"" + rest;
    } else {
      var after := Escape(text[1..]) + ("\"" + rest);
      EscapedText(text, "\"" + rest);
      EscapeCharRoundTrip(text[0], after);
      EscapeRoundTrip(text[1..], rest);
      assert text == [text[0]] + text[1..];
    }
  }

  ghost predicate NotDigitLed(rest: string) {
    rest == "" || !IsDigit(rest[0])
  }

  lemma {:induction false} DigitCountOf(digits: string, rest: string)
    requires AllDigits(digits) && NotDigitLed(rest)
    ensures DigitCount(digits + rest) == |digits|
  {
    if digits == "" {
      assert digits + rest == rest;
    } else {
      DigitCountOf(digits[1..], rest);
      assert (digits + rest)[1..] == digits[1..] + rest;
    }
  }

  lemma {:induction false} DigitsRead(n: nat, rest: string)
    requires NotDigitLed(rest)
    ensures var t := ToDecimal(n) + rest;
            var k := DigitCount(t);
            && t != "" && IsDigit(t[0]) && t[..k] == ToDecimal(n) && t[k..] == rest
            && Canonical(ToDecimal(n)) && DigitsValue(ToDecimal(n)) == n
  {
    hide ToDecimal, DigitCount, DigitsValue;
    DecimalRoundTrip(n);
    DecimalIsCanonical(n);
    DigitCountOf(ToDecimal(n), rest);
  }

  lemma {:induction false} NumberRoundTrip(n: int, rest: string)
    requires NotDigitLed(rest)
    ensures ParseNumber(IntText(n) + rest) == Ok(Num(n), rest)
  {
    hide ToDecimal, DigitCount, DigitsValue, Canonical, NotDigitLed;
    var magnitude: nat := if n < 0 then -n else n;
    var t := ToDecimal(magnitude) + rest;
    DigitsRead(magnitude, rest);
    if n < 0 {
      SignRead(ToDecimal(magnitude), rest);
    }
  }

  lemma {:induction false} SignRead(digits: string, rest: string)
    ensures var s := "-" + digits + rest;
            s[0] == '-' && s[1..] == digits + rest
  {
  }

  lemma {:induction false} PrintStart(v: Json, rest: string)
    ensures var s := Print(v) + rest;
            s != "" && SkipSpace(s) == s && s[0] != ']'
  {
  }

  lemma {:induction false} WordRoundTrip(v: Json, rest: string)
    requires v.Null? || v.Bool?
    ensures ParseValue(Print(v) + rest) == Ok(v, rest)
  {
  }

  /** Reading a printed value gives back the value and leaves the rest. */
  lemma {:induction false} PrintRoundTrip(v: Json, rest: string)
    requires Ordered(v) && NotDigitLed(rest)
    ensures ParseValue(Print(v) + rest) == Ok(v, rest)
    decreases v, 0
  {
    match v
    case Null => WordRoundTrip(v, rest);
    case Bool(b) => WordRoundTrip(v, rest);
    case Num(n) => NumberValueRoundTrip(n, rest);
    case Str(text) => StringValueRoundTrip(text, rest);
    case Arr(items) =>
      ArrayText(items, rest);
      ArrayRoundTrip(items, rest);
    case Obj(ms) =>
      ObjectText(ms, rest);
      ObjectRoundTrip(ms, rest);
  }

  lemma {:induction false} NumberValueRoundTrip(n: int, rest: string)
    requires NotDigitLed(rest)
    ensures ParseValue(Print(Num(n)) + rest) == Ok(Num(n), rest)
  {
    hide ParseNumber;
    NumberRoundTrip(n, rest);
    assert IntText(n)[0] == '-' || IsDigit(IntText(n)[0]);
  }

  lemma {:induction false} StringValueRoundTrip(text: string, rest: string)
    ensures ParseValue(Print(Str(text)) + rest) == Ok(Str(text), rest)
  {
    var inner := Escape(text) + ("\"" + rest);
    StringText(text, rest);
    EscapeRoundTrip(text, rest);
    hide ParseString, Escape;
    assert ("\"" + inner)[1..] == inner;
  }

  lemma {:induction false} ArrayOpens(inner: string)
    ensures ParseValue("[" + inner) == ParseArray(inner)
  {
  }

  lemma {:induction false} ObjectOpens(inner: string)
    ensures ParseValue("{" + inner) == ParseObject(inner)
  {
  }

  lemma {:induction false} ObjectMembers(inner: string)
    requires inner != "" && inner[0] == '\"'
    ensures ParseValue("{" + inner) == ParseMembers(inner, [])
  {
    ObjectOpens(inner);
  }

  lemma {:induction false} ArrayRoundTrip(items: seq<Json>, rest: string)
    requires forall i | 0 <= i < |items| :: Ordered(items[i])
    ensures ParseValue("[" + (PrintItems(items, true) + ("]" + rest))) == Ok(Arr(items), rest)
    decreases items, 2
  {
    var inner := PrintItems(items, true) + ("]" + rest);
    if items == [] {
      assert inner == "]" + rest && inner[1..] == rest;
    } else {
      ItemsText(items, "]" + rest);
      var after := PrintItems(items[1..], false) + ("]" + rest);
      PrintStart(items[0], after);
      ItemsRoundTrip(items, [], rest);
      assert [] + items == items;
    }
    ArrayOpens(inner);
  }

  lemma {:induction false} ObjectRoundTrip(ms: seq<Member>, rest: string)
    requires Sorted(ms)
    requires forall i | 0 <= i < |ms| :: Ordered(ms[i].value)
    ensures ParseValue("{" + (PrintMembers(ms, true) + ("}" + rest))) == Ok(Obj(ms), rest)
    decreases ms, 2
  {
    var inner := PrintMembers(ms, true) + ("}" + rest);
    if ms == [] {
      assert inner == "}" + rest && inner[1..] == rest;
      ObjectOpens(inner);
    } else {
      assert PrintMember(ms[0])[0] == '\"';
      hide *;
      MembersOpen(ms, rest);
      ObjectMembers(inner);
      assert [] + ms == ms;
      MembersRoundTrip(ms, [], rest);
    }
  }

  lemma {:induction false} ItemRead(s: string, v: Json, acc: seq<Json>, after: string)
    requires ParseValue(s) == Ok(v, after)
    requires after != "" && (after[0] == ',' || after[0] == ']')
    ensures ParseItems(s, acc)
         == if after[0] == ',' then ParseItems(after[1..], acc + [v]) else Ok(Arr(acc + [v]), after[1..])
  {
  }

  lemma {:induction false} ItemsRoundTrip(items: seq<Json>, acc: seq<Json>, rest: string)
    requires items != []
    requires forall i | 0 <= i < |items| :: Ordered(items[i])
    ensures ParseItems(PrintItems(items, true) + ("]" + rest), acc) == Ok(Arr(acc + items), rest)
    decreases items, 1
  {
    hide ParseItems, ParseValue, Print;
    var v, tail := items[0], items[1..];
    var after := PrintItems(tail, false) + ("]" + rest);
    ItemsText(items, "]" + rest);
    PrintRoundTrip(v, after);
    ItemRead(Print(v) + after, v, acc, after);
    assert acc + items == acc + [v] + tail;
    if tail == [] {
      assert after[1..] == rest;
      assert acc + [v] + tail == acc + [v];
    } else {
      ItemsRoundTrip(tail, acc + [v], rest);
    }
  }

  lemma {:induction false} KeyRoundTrip(key: string, rest: string)
    ensures ParseKey("\"" + (Escape(key) + ("\"" + (":" + rest)))) == Ok(key, rest)
  {
    var t := Escape(key) + ("\"" + (":" + rest));
    EscapeRoundTrip(key, ":" + rest);
    assert ("\"" + t)[1..] == t;
    assert (":" + rest)[1..] == rest;
  }

  lemma {:induction false} MemberRead(s: string, key: string, text: string, v: Json, acc: seq<Member>, after: string)
    requires ParseKey(s) == Ok(key, text) && ParseValue(text) == Ok(v, after)
    requires after != "" && (after[0] == ',' || after[0] == '}')
    ensures ParseMembers(s, acc)
         == if after[0] == ',' then ParseMembers(after[1..], Assign(acc, key, v))
            else Ok(Obj(Assign(acc, key, v)), after[1..])
  {
  }

  /** What follows the first member, up to and past the closing brace. */
  function AfterFirst(ms: seq<Member>, rest: string): string
    requires ms != []
  {
    PrintMembers(ms[1..], false) + ("}" + rest)
  }

  lemma {:induction false} MembersOpen(ms: seq<Member>, rest: string)
    requires ms != []
    ensures var after := AfterFirst(ms, rest);
            && PrintMembers(ms, true) + ("}" + rest) == PrintMember(ms[0]) + after
            && after != "" && NotDigitLed(after) && after[0] == (if |ms| > 1 then ',' else '}')
            && after[1..] == if |ms| > 1 then PrintMembers(ms[1..], true) + ("}" + rest) else rest
  {
    MembersText(ms, "}" + rest);
    hide PrintMembers, PrintMember;
    assert ("}" + rest)[1..] == rest;
  }

  lemma {:induction false} MembersRoundTrip(ms: seq<Member>, acc: seq<Member>, rest: string)
    requires ms != [] && Sorted(acc + ms)
    requires forall i | 0 <= i < |ms| :: Ordered(ms[i].value)
    ensures ParseMembers(PrintMembers(ms, true) + ("}" + rest), acc) == Ok(Obj(acc + ms), rest)
    decreases ms, 1
  {
    hide *;
    var m, after := ms[0], AfterFirst(ms, rest);
    MembersOpen(ms, rest);
    AssignNext(acc, ms);
    if |ms| > 1 {
      MembersRoundTrip(ms[1..], acc + [m], rest);
    }
    PrintRoundTrip(m.value, after);
    MemberKeyRead(m, after);
    MemberRead(PrintMember(m) + after, m.key, Print(m.value) + after, m.value, acc, after);
  }

  lemma {:induction false} AssignNext(acc: seq<Member>, ms: seq<Member>)
    requires ms != [] && Sorted(acc + ms)
    ensures Assign(acc, ms[0].key, ms[0].value) == acc + [ms[0]]
    ensures acc + [ms[0]] + ms[1..] == acc + ms
    ensures |ms| == 1 ==> acc + [ms[0]] == acc + ms
  {
    forall i | 0 <= i < |acc| ensures Less(acc[i].key, ms[0].key) {
      assert acc[i] == (acc + ms)[i] && ms[0] == (acc + ms)[|acc|];
    }
    AssignLast(acc, ms[0].key, ms[0].value);
  }

  lemma {:induction false} MemberKeyRead(m: Member, after: string)
    ensures ParseKey(PrintMember(m) + after) == Ok(m.key, Print(m.value) + after)
  {
    hide ParseKey, Print, PrintMember;
    MemberText(m, after);
    KeyRoundTrip(m.key, Print(m.value) + after);
  }

  /** Two values that print alike are the same value. */
  lemma {:induction false} PrintInjective(a: Json, b: Json)
    requires Ordered(a) && Ordered(b) && Print(a) == Print(b)
    ensures a == b
  {
    PrintRoundTrip(a, "");
    PrintRoundTrip(b, "");
    assert Print(a) + "" == Print(b) + "";
  }
}
