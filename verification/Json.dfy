/** The JSON value type of the server: its contents as a datatype, the class whose
    methods update it in place, and the printer. */
module JsonValues {
  import opened ByteOrder
  import opened Decimal

  /** The contents of a JsonValue. An object's members are listed as std::map iterates
      them; Ordered says that the listing is strictly ascending. */
  datatype Json =
    | Null
    | Bool(b: bool)
    | Num(n: int)
    | Str(s: string)
    | Arr(items: seq<Json>)
    | Obj(members: seq<Member>)

  datatype Member = Member(key: string, value: Json)

  ghost predicate Sorted(ms: seq<Member>) {
    forall i, j | 0 <= i < j < |ms| :: Less(ms[i].key, ms[j].key)
  }

  ghost predicate Ordered(v: Json)
    decreases v
  {
    match v
    case Arr(items) => forall i | 0 <= i < |items| :: Ordered(items[i])
    case Obj(ms) => Sorted(ms) && forall i | 0 <= i < |ms| :: Ordered(ms[i].value)
    case _ => true
  }

  // ----- objects as maps

  function Find(ms: seq<Member>, key: string): Option<Json> {
    if ms == [] then None
    else if ms[0].key == key then Some(ms[0].value)
    else Find(ms[1..], key)
  }

  /** std::map::insert_or_assign. */
  function Assign(ms: seq<Member>, key: string, value: Json): seq<Member> {
    if ms == [] then [Member(key, value)]
    else if Less(key, ms[0].key) then [Member(key, value)] + ms
    else if key == ms[0].key then [Member(key, value)] + ms[1..]
    else [ms[0]] + Assign(ms[1..], key, value)
  }

  lemma {:induction false} AssignIsMapUpdate(ms: seq<Member>, key: string, value: Json, other: string)
    requires Sorted(ms)
    ensures Sorted(Assign(ms, key, value))
    ensures forall m :: m in Assign(ms, key, value) ==> m in ms || m == Member(key, value)
    ensures Find(Assign(ms, key, value), other) == if other == key then Some(value) else Find(ms, other)
  {
    AssignSorted(ms, key, value);
    AssignFind(ms, key, value, other);
  }

  lemma {:induction false} AssignSorted(ms: seq<Member>, key: string, value: Json)
    requires Sorted(ms)
    ensures Sorted(Assign(ms, key, value))
    ensures forall m :: m in Assign(ms, key, value) ==> m in ms || m == Member(key, value)
  {
    if ms != [] {
      LessTotal(key, ms[0].key);
      if Less(key, ms[0].key) {
        forall j | 0 < j < |ms| ensures Less(key, ms[j].key) {
          LessTransitive(key, ms[0].key, ms[j].key);
        }
      } else if key != ms[0].key {
        AssignSorted(ms[1..], key, value);
        var rest := Assign(ms[1..], key, value);
        forall j | 0 <= j < |rest| ensures Less(ms[0].key, rest[j].key) {
          assert rest[j] in rest;
        }
      }
    }
  }

  lemma {:induction false} AssignFind(ms: seq<Member>, key: string, value: Json, other: string)
    ensures Find(Assign(ms, key, value), other) == if other == key then Some(value) else Find(ms, other)
  {
    if ms != [] && key != ms[0].key && !Less(key, ms[0].key) {
      AssignFind(ms[1..], key, value, other);
    }
  }

  lemma {:induction false} AssignLast(ms: seq<Member>, key: string, value: Json)
    requires forall i | 0 <= i < |ms| :: Less(ms[i].key, key)
    ensures Assign(ms, key, value) == ms + [Member(key, value)]
  {
    if ms != [] {
      LessAsymmetric(ms[0].key, key);
      AssignLast(ms[1..], key, value);
    }
  }

  lemma {:induction false} FindBelowFirst(ms: seq<Member>, key: string)
    requires Sorted(ms)
    requires ms != [] ==> Less(key, ms[0].key)
    ensures Find(ms, key) == None
  {
    if ms != [] {
      LessAsymmetric(key, ms[0].key);
      if |ms| > 1 {
        LessTransitive(key, ms[0].key, ms[1].key);
      }
      FindBelowFirst(ms[1..], key);
    }
  }

  lemma {:induction false} FindTail(ms: seq<Member>, key: string)
    requires Sorted(ms) && ms != []
    ensures Find(ms[1..], key) == if key == ms[0].key then None else Find(ms, key)
  {
    if key == ms[0].key {
      FindBelowFirst(ms[1..], key);
    }
  }

  /** A sorted member list is determined by what it maps each key to. */
  lemma {:induction false} SortedUnique(a: seq<Member>, b: seq<Member>)
    requires Sorted(a) && Sorted(b)
    requires forall k :: Find(a, k) == Find(b, k)
    ensures a == b
  {
    assert a == [] || Find(a, a[0].key) == Find(b, a[0].key);
    assert b == [] || Find(a, b[0].key) == Find(b, b[0].key);
    if a == [] || b == [] {
    } else {
      LessTotal(a[0].key, b[0].key);
      if Less(a[0].key, b[0].key) {
        FindBelowFirst(b, a[0].key);
        assert false;
      } else if Less(b[0].key, a[0].key) {
        FindBelowFirst(a, b[0].key);
        assert false;
      }
      forall k ensures Find(a[1..], k) == Find(b[1..], k) {
        FindTail(a, k);
        FindTail(b, k);
      }
      SortedUnique(a[1..], b[1..]);
      assert a == [a[0]] + a[1..] && b == [b[0]] + b[1..];
    }
  }

  // ----- in-place updates, on contents

  function Pushed(v: Json, item: Json): Json {
    if v.Arr? then Arr(v.items + [item]) else Arr([item])
  }

  function With(v: Json, key: string, value: Json): Json {
    Obj(Assign(if v.Obj? then v.members else [], key, value))
  }

  function Field(v: Json, key: string): Option<Json> {
    if v.Obj? then Find(v.members, key) else None
  }

  lemma {:induction false} WithField(v: Json, key: string, value: Json, other: string)
    requires Ordered(v) && Ordered(value)
    ensures Ordered(With(v, key, value))
    ensures Field(With(v, key, value), other)
         == if other == key then Some(value) else Field(v, other)
  {
    var ms := if v.Obj? then v.members else [];
    AssignIsMapUpdate(ms, key, value, other);
    var out := Assign(ms, key, value);
    forall i | 0 <= i < |out| ensures Ordered(out[i].value) {
      assert out[i] in out;
    }
  }

  /** A sequence of Set calls on a fresh object. */
  function SetAll(calls: seq<Member>): Json {
    if calls == [] then Obj([])
    else var last := calls[|calls| - 1];
         With(SetAll(calls[..|calls| - 1]), last.key, last.value)
  }

  /** The value of the last call for a key. */
  function LastSet(calls: seq<Member>, key: string): Option<Json> {
    if calls == [] then None
    else var last := calls[|calls| - 1];
         if last.key == key then Some(last.value) else LastSet(calls[..|calls| - 1], key)
  }

  lemma {:induction false} SetAllIsLastSet(calls: seq<Member>, key: string)
    ensures SetAll(calls).Obj? && Sorted(SetAll(calls).members)
    ensures Field(SetAll(calls), key) == LastSet(calls, key)
  {
    if calls != [] {
      var last := calls[|calls| - 1];
      SetAllIsLastSet(calls[..|calls| - 1], key);
      AssignIsMapUpdate(SetAll(calls[..|calls| - 1]).members, last.key, last.value, key);
    }
  }

  /** Insertion order never shows: the same last value for every key gives the same object. */
  lemma {:induction false} InsertionOrderIrrelevant(a: seq<Member>, b: seq<Member>)
    requires forall k :: LastSet(a, k) == LastSet(b, k)
    ensures SetAll(a) == SetAll(b)
    ensures Print(SetAll(a)) == Print(SetAll(b))
    ensures Sorted(SetAll(a).members)
  {
    var x, y := SetAll(a), SetAll(b);
    SetAllIsLastSet(a, "");
    SetAllIsLastSet(b, "");
    forall k ensures Find(x.members, k) == Find(y.members, k) {
      SetAllIsLastSet(a, k);
      SetAllIsLastSet(b, k);
    }
    SortedUnique(x.members, y.members);
  }

  // ----- printing

  function HexDigit(d: nat): char
    requires d < 16
  {
    if d < 10 then '0' + d as char else 'a' + (d - 10) as char
  }

  function EscapeChar(c: char): string {
    if c == '\\' then "\\\\"
    else if c == '\"' then "\\\""
    else if c == 8 as char then "\\b"
    else if c == 12 as char then "\\f"
    else if c == '\n' then "\\n"
    else if c == '\r' then "\\r"
    else if c == '\t' then "\\t"
    else if c < ' ' then "\\u00" + [HexDigit(c as int / 16), HexDigit(c as int % 16)]
    else [c]
  }

  function Escape(s: string): string {
    if s == "" then "" else EscapeChar(s[0]) + Escape(s[1..])
  }

  predicate IsLetter(c: char) {
    'a' <= c <= 'z' || 'A' <= c <= 'Z'
  }

  predicate Alphabetic(key: string) {
    key != "" && forall i | 0 <= i < |key| :: IsLetter(key[i])
  }

  lemma {:induction false} AlphabeticEscape(key: string)
    requires forall i | 0 <= i < |key| :: IsLetter(key[i])
    ensures Escape(key) == key
  {
    if key != "" {
      AlphabeticEscape(key[1..]);
    }
  }

  function Quote(s: string): string {
    "\"" + Escape(s) + "\""
  }

  function IntText(n: int): string {
    if n < 0 then "-" + ToDecimal(-n) else ToDecimal(n)
  }

  function Print(v: Json): (text: string)
    ensures text != ""
    decreases v
  {
    match v
    case Null => "null"
    case Bool(b) => if b then "true" else "false"
    case Num(n) => IntText(n)
    case Str(s) => Quote(s)
    case Arr(items) => "[" + PrintItems(items, true) + "]"
    case Obj(ms) => "{" + PrintMembers(ms, true) + "}"
  }

  function Separator(first: bool): string {
    if first then "" else ","
  }

  function PrintItems(items: seq<Json>, first: bool): string
    decreases items
  {
    if items == [] then ""
    else Separator(first) + Print(items[0]) + PrintItems(items[1..], false)
  }

  function PrintMembers(ms: seq<Member>, first: bool): string
    decreases ms
  {
    if ms == [] then ""
    else Separator(first) + PrintMember(ms[0]) + PrintMembers(ms[1..], false)
  }

  function PrintMember(m: Member): string
    decreases m
  {
    Quote(m.key) + ":" + Print(m.value)
  }

  // The printed text with whatever follows it, taken apart from the left.

  lemma {:induction false} StringText(s: string, rest: string)
    ensures Quote(s) + rest == "\"" + (Escape(s) + ("\"" + rest))
  {
  }

  lemma {:induction false} EscapedText(s: string, rest: string)
    requires s != ""
    ensures Escape(s) + rest == EscapeChar(s[0]) + (Escape(s[1..]) + rest)
  {
  }

  lemma {:induction false} ArrayText(items: seq<Json>, rest: string)
    ensures Print(Arr(items)) + rest == "[" + (PrintItems(items, true) + ("]" + rest))
  {
  }

  lemma {:induction false} ObjectText(ms: seq<Member>, rest: string)
    ensures Print(Obj(ms)) + rest == "{" + (PrintMembers(ms, true) + ("}" + rest))
  {
  }

  lemma {:induction false} JoinText(a: string, b: string, c: string, rest: string)
    ensures (a + b + c) + rest == a + (b + (c + rest))
    ensures a == "" ==> (a + b + c) + rest == b + (c + rest)
    ensures |a| == 1 ==> ((a + b + c) + rest)[1..] == b + (c + rest)
  {
  }

  /** What follows the first element: nothing of the list, or a comma and the rest of it. */
  lemma {:induction false} ItemsText(items: seq<Json>, rest: string)
    requires items != []
    ensures var after := PrintItems(items[1..], false) + rest;
            && PrintItems(items, true) + rest == Print(items[0]) + after
            && (|items| == 1 ==> after == rest)
            && (|items| > 1 ==> after != "" && after[0] == ',' && after[1..] == PrintItems(items[1..], true) + rest)
  {
    var head, tail := Print(items[0]), items[1..];
    JoinText("", head, PrintItems(tail, false), rest);
    if |items| > 1 {
      var inner := PrintItems(tail[1..], false);
      JoinText(",", Print(tail[0]), inner, rest);
      JoinText("", Print(tail[0]), inner, rest);
    }
  }

  lemma {:induction false} MemberText(m: Member, rest: string)
    ensures PrintMember(m) + rest == "\"" + (Escape(m.key) + ("\"" + (":" + (Print(m.value) + rest))))
  {
  }

  lemma {:induction false} MembersText(ms: seq<Member>, rest: string)
    requires ms != []
    ensures var after := PrintMembers(ms[1..], false) + rest;
            && PrintMembers(ms, true) + rest == PrintMember(ms[0]) + after
            && (|ms| == 1 ==> after == rest)
            && (|ms| > 1 ==> after != "" && after[0] == ',' && after[1..] == PrintMembers(ms[1..], true) + rest)
  {
    var head, tail := PrintMember(ms[0]), ms[1..];
    JoinText("", head, PrintMembers(tail, false), rest);
    if |ms| > 1 {
      var inner := PrintMembers(tail[1..], false);
      JoinText(",", PrintMember(tail[0]), inner, rest);
      JoinText("", PrintMember(tail[0]), inner, rest);
    }
  }

  lemma {:induction false} EscapeStep(out: string, input: string, i: nat)
    requires i < |input|
    ensures out + Escape(input[i..]) == out + EscapeChar(input[i]) + Escape(input[i + 1..])
  {
  }

  method EscapeText(input: string) returns (out: string)
    ensures out == Escape(input)
  {
    out := "";
    assert input[0..] == input;
    for i := 0 to |input|
      invariant out + Escape(input[i..]) == Escape(input)
    {
      EscapeStep(out, input, i);
      var ch := input[i];
      if ch == '\\' {
        out := out + "\\\\";
      } else if ch == '\"' {
        out := out + "\\\"";
      } else if ch == 8 as char {
        out := out + "\\b";
      } else if ch == 12 as char {
        out := out + "\\f";
      } else if ch == '\n' {
        out := out + "\\n";
      } else if ch == '\r' {
        out := out + "\\r";
      } else if ch == '\t' {
        out := out + "\\t";
      } else if ch < ' ' {
        out := out + ("\\u00" + [HexDigit(ch as int / 16), HexDigit(ch as int % 16)]);
      } else {
        out := out + [ch];
      }
    }
    assert input[|input|..] == "";
    assert out + "" == out;
  }

  lemma {:induction false} ItemsStep(out: string, items: seq<Json>, i: nat, first: bool)
    requires i < |items|
    ensures out + PrintItems(items[i..], first)
         == out + Separator(first) + Print(items[i]) + PrintItems(items[i + 1..], false)
  {
  }

  lemma {:induction false} MembersStep(out: string, ms: seq<Member>, i: nat, first: bool)
    requires i < |ms|
    ensures out + PrintMembers(ms[i..], first)
         == out + Separator(first) + PrintMember(ms[i]) + PrintMembers(ms[i + 1..], false)
  {
  }

  lemma {:induction false} NoMembers()
    ensures PrintMembers([], false) == PrintMembers([], true) == ""
  {
  }

  method SerializeInternal(v: Json) returns (text: string)
    ensures text == Print(v)
    decreases v
  {
    match v
    case Null =>
      text := "null";
    case Bool(b) =>
      text := if b then "true" else "false";
    case Num(n) =>
      text := IntText(n);
    case Str(s) =>
      var escaped := EscapeText(s);
      text := "\"" + escaped + "\"";
    case Arr(items) =>
      text := SerializeArray(items);
    case Obj(ms) =>
      text := SerializeObject(ms);
  }

  method SerializeArray(items: seq<Json>) returns (out: string)
    ensures out == "[" + PrintItems(items, true) + "]"
    decreases items
  {
    out := "[";
    var first := true;
    assert items[0..] == items;
    for i := 0 to |items|
      invariant out + PrintItems(items[i..], first) == "[" + PrintItems(items, true)
    {
      ItemsStep(out, items, i, first);
      ghost var before, separator := out, Separator(first);
      if !first {
        out := out + ",";
      }
      assert out == before + separator;
      first := false;
      var inner := SerializeInternal(items[i]);
      out := out + inner;
    }
    assert items[|items|..] == [] && out + "" == out;
    out := out + "]";
  }

  method SerializeObject(ms: seq<Member>) returns (out: string)
    ensures out == "{" + PrintMembers(ms, true) + "}"
    decreases ms
  {
    NoMembers();
    hide PrintMembers, Print, Escape;
    out := "{";
    var first := true;
    assert ms[0..] == ms;
    for i := 0 to |ms|
      invariant out + PrintMembers(ms[i..], first) == "{" + PrintMembers(ms, true)
    {
      MembersStep(out, ms, i, first);
      ghost var before, separator := out, Separator(first);
      if !first {
        out := out + ",";
      }
      assert out == before + separator;
      first := false;
      var key := EscapeText(ms[i].key);
      var inner := SerializeInternal(ms[i].value);
      assert "\"" + key + "\":" + inner == PrintMember(ms[i]);
      out := out + ("\"" + key + "\":" + inner);
    }
    assert ms[|ms|..] == [] && out + "" == out;
    out := out + "}";
  }

  // ----- the value class

  /** The number a text stands for. */
  function IntOf(text: string): int {
    if text != "" && text[0] == '-' && AllDigits(text[1..]) then 0 - DigitsValue(text[1..])
    else if AllDigits(text) then DigitsValue(text)
    else 0
  }

  lemma {:induction false} IntOfText(n: int)
    ensures IntOf(IntText(n)) == n
  {
    DecimalRoundTrip(if n < 0 then -n else n);
  }

  datatype Type = TNull | TBool | TNumber | TString | TArray | TObject

  /** JsonValue with the fields the server keeps: a change of type leaves the fields of the
      old type behind, so what a value holds depends on its type. */
  class JsonValue {
    var kind: Type
    var boolValue: bool
    var scalarValue: string
    var arrayValue: seq<Json>
    var objectValue: seq<Member>

    ghost predicate Valid()
      reads this
    {
      && Sorted(objectValue)
      && (kind == TNumber ==> scalarValue == IntText(IntOf(scalarValue)))
    }

    function Contents(): Json
      reads this
    {
      match kind
      case TNull => Null
      case TBool => Json.Bool(boolValue)
      case TNumber => Num(IntOf(scalarValue))
      case TString => Str(scalarValue)
      case TArray => Arr(arrayValue)
      case TObject => Obj(objectValue)
    }

    constructor ()
      ensures Valid() && Contents() == Null && arrayValue == [] && objectValue == []
    {
      kind, boolValue, scalarValue, arrayValue, objectValue := TNull, false, "", [], [];
    }

    constructor OfBool(b: bool)
      ensures Valid() && Contents() == Json.Bool(b)
    {
      kind, boolValue, scalarValue, arrayValue, objectValue := TBool, b, "", [], [];
    }

    constructor OfNumber(n: int)
      ensures Valid() && Contents() == Num(n)
    {
      IntOfText(n);
      kind, boolValue, scalarValue, arrayValue, objectValue := TNumber, false, IntText(n), [], [];
    }

    constructor OfString(s: string)
      ensures Valid() && Contents() == Str(s)
    {
      kind, boolValue, scalarValue, arrayValue, objectValue := TString, false, s, [], [];
    }

    static method Array() returns (value: JsonValue)
      ensures fresh(value) && value.Valid() && value.Contents() == Arr([])
    {
      value := new JsonValue();
      value.kind := TArray;
    }

    static method Object() returns (value: JsonValue)
      ensures fresh(value) && value.Valid() && value.Contents() == Obj([])
    {
      value := new JsonValue();
      value.kind := TObject;
    }

    method Push(value: Json)
      requires Valid()
      modifies this
      ensures Valid() && Contents() == Pushed(old(Contents()), value)
    {
      if kind != TArray {
        kind := TArray;
        arrayValue := [];
      }
      arrayValue := arrayValue + [value];
    }

    method Set(key: string, value: Json)
      requires Valid()
      modifies this
      ensures Valid() && Contents() == With(old(Contents()), key, value)
    {
      if kind != TObject {
        kind := TObject;
        objectValue := [];
      }
      AssignIsMapUpdate(objectValue, key, value, key);
      objectValue := Assign(objectValue, key, value);
    }

    // Set with a value made from a string, a number or a bool, as the implicit constructors do.

    method SetString(key: string, text: string)
      requires Valid()
      modifies this
      ensures Valid() && Contents() == With(old(Contents()), key, Str(text))
    {
      hide With;
      var value := new JsonValue.OfString(text);
      Set(key, value.Contents());
    }

    method SetNumber(key: string, n: int)
      requires Valid()
      modifies this
      ensures Valid() && Contents() == With(old(Contents()), key, Num(n))
    {
      hide With;
      var value := new JsonValue.OfNumber(n);
      Set(key, value.Contents());
    }

    method SetBool(key: string, b: bool)
      requires Valid()
      modifies this
      ensures Valid() && Contents() == With(old(Contents()), key, Json.Bool(b))
    {
      hide With;
      var value := new JsonValue.OfBool(b);
      Set(key, value.Contents());
    }

    method Serialize() returns (text: string)
      requires Valid()
      ensures text == Print(Contents())
    {
      match kind
      case TNull => text := "null";
      case TBool => text := if boolValue then "true" else "false";
      case TNumber => text := scalarValue;
      case TString => text := SerializeInternal(Str(scalarValue));
      case TArray => text := SerializeInternal(Arr(arrayValue));
      case TObject => text := SerializeInternal(Obj(objectValue));
    }
  }
}
