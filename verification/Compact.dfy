/** No JSON text of a value is shorter than the printed one. */
module Compact {
  import opened ByteOrder
  import opened Decimal
  import opened JsonValues
  import opened JsonParser

  lemma {:induction false} EscapeSequenceShortest(s: string)
    requires ParseEscape(s).Ok?
    ensures |EscapeChar(ParseEscape(s).value)| + |ParseEscape(s).rest| <= 1 + |s|
  {
  }

  lemma {:induction false} StringShortest(s: string)
    requires ParseString(s).Ok?
    ensures |Escape(ParseString(s).value)| + 1 + |ParseString(s).rest| <= |s|
    decreases |s|
  {
    if s[0] != '\"' {
      var head := if s[0] == '\\' then ParseEscape(s[1..]) else Ok(s[0], s[1..]);
      if s[0] == '\\' {
        EscapeSequenceShortest(s[1..]);
      }
      StringShortest(head.rest);
      var tail := ParseString(head.rest).value;
      assert ([head.value] + tail)[1..] == tail;
    }
  }

  lemma {:induction false} NumberShortest(s: string)
    requires ParseNumber(s).Ok?
    ensures |Print(ParseNumber(s).value)| + |ParseNumber(s).rest| <= |s|
  {
    var t := if s != "" && s[0] == '-' then s[1..] else s;
    CanonicalRoundTrip(t[..DigitCount(t)]);
  }

  /** What is read from s takes at least as many characters there as it is printed with. */
  ghost predicate Covers(s: string, r: Parsed<Json>) {
    r.Ok? ==> |Print(r.value)| + |r.rest| <= |s|
  }

  lemma {:induction false} ValueShortest(s: string)
    ensures Covers(s, ParseValue(s))
    decreases |s|, 0
  {
    var t := SkipSpace(s);
    if t != "" && ParseValue(s).Ok? {
      match t[0]
      case 'n' =>
      case 't' =>
      case 'f' =>
      case '\"' => StringShortest(t[1..]);
      case '[' => ArrayShortest(t[1..]);
      case '{' => ObjectShortest(t[1..]);
      case _ => NumberShortest(t);
    }
  }

  lemma {:induction false} ArrayShortest(s: string)
    ensures ParseArray(s).Ok? ==> |Print(ParseArray(s).value)| + |ParseArray(s).rest| <= 1 + |s|
    decreases |s|, 2
  {
    var u := SkipSpace(s);
    if !(u != "" && u[0] == ']') && ParseItems(s, []).Ok? {
      ItemsShortest(s, []);
      var items := ParseItems(s, []).value.items;
      assert items[0..] == items;
    }
  }

  lemma {:induction false} ObjectShortest(s: string)
    ensures ParseObject(s).Ok? ==> |Print(ParseObject(s).value)| + |ParseObject(s).rest| <= 1 + |s|
    decreases |s|, 2
  {
    var u := SkipSpace(s);
    if !(u != "" && u[0] == '}') && ParseMembers(s, []).Ok? {
      MembersShortest(s, []);
    }
  }

  /** The given items stay, and the next one follows them. */
  lemma {:induction false} ItemsKeep(s: string, acc: seq<Json>)
    requires ParseItems(s, acc).Ok?
    ensures var r := ParseItems(s, acc);
            && ParseValue(s).Ok? && r.value.Arr? && |acc| < |r.value.items|
            && acc <= r.value.items && r.value.items[|acc|] == ParseValue(s).value
    decreases |s|
  {
    var v, rest := ParseValue(s).value, ParseValue(s).rest;
    var u := SkipSpace(rest);
    if u[0] == ',' {
      ItemsKeep(u[1..], acc + [v]);
      var items := ParseItems(s, acc).value.items;
      assert items[|acc|] == (acc + [v])[|acc|];
    }
  }

  /** The items read after the given ones. */
  lemma {:induction false} ItemsShortest(s: string, acc: seq<Json>)
    requires ParseItems(s, acc).Ok?
    ensures var r := ParseItems(s, acc);
            && r.value.Arr? && |acc| < |r.value.items|
            && |PrintItems(r.value.items[|acc|..], true)| + 1 + |r.rest| <= |s|
    decreases |s|, 1
  {
    ItemsKeep(s, acc);
    ValueShortest(s);
    var v, rest := ParseValue(s).value, ParseValue(s).rest;
    var u := SkipSpace(rest);
    var items := ParseItems(s, acc).value.items;
    ItemsLength(items[|acc|..]);
    if u[0] == ',' {
      ItemsShortest(u[1..], acc + [v]);
      assert items[|acc|..][1..] == items[|acc| + 1..];
    } else {
      assert items == acc + [v];
    }
    hide Print, PrintItems;
  }

  lemma {:induction false} ItemsLength(items: seq<Json>)
    requires items != []
    ensures |PrintItems(items, true)|
         == |Print(items[0])| + if |items| > 1 then 1 + |PrintItems(items[1..], true)| else 0
  {
    ItemsText(items, "");
    hide Print;
    assert PrintItems(items, true) + "" == PrintItems(items, true);
    if |items| > 1 {
      assert PrintItems(items[1..], true) + "" == PrintItems(items[1..], true);
    }
  }

  lemma {:induction false} MembersLength(ms: seq<Member>)
    requires ms != []
    ensures |PrintMembers(ms, true)|
         == |PrintMember(ms[0])| + if |ms| > 1 then 1 + |PrintMembers(ms[1..], true)| else 0
  {
    MembersText(ms, "");
    hide PrintMember;
    assert PrintMembers(ms, true) + "" == PrintMembers(ms, true);
    if |ms| > 1 {
      assert PrintMembers(ms[1..], true) + "" == PrintMembers(ms[1..], true);
    }
  }

  function CommaLength(ms: seq<Member>): nat {
    if ms == [] then 0 else 1
  }

  /** A key that comes again replaces a member, so it never makes the object longer than a new
      one does. */
  lemma {:induction false} AssignLength(ms: seq<Member>, key: string, value: Json)
    ensures |PrintMembers(Assign(ms, key, value), true)|
         <= |PrintMembers(ms, true)| + CommaLength(ms) + |PrintMember(Member(key, value))|
  {
    var m, out := Member(key, value), Assign(ms, key, value);
    MembersLength(out);
    if ms != [] {
      MembersLength(ms);
      if Less(key, ms[0].key) {
        assert out[1..] == ms;
      } else if key == ms[0].key {
        assert out[1..] == ms[1..];
      } else {
        AssignLength(ms[1..], key, value);
        assert out[1..] == Assign(ms[1..], key, value);
      }
    }
    hide PrintMember, PrintMembers, Less;
  }

  lemma {:induction false} KeyShortest(s: string)
    requires ParseKey(s).Ok?
    ensures |Quote(ParseKey(s).value)| + 1 + |ParseKey(s).rest| <= |s|
  {
    StringShortest(SkipSpace(s)[1..]);
  }

  lemma {:induction false} MembersShortest(s: string, acc: seq<Member>)
    requires ParseMembers(s, acc).Ok?
    ensures var r := ParseMembers(s, acc);
            && r.value.Obj?
            && |PrintMembers(r.value.members, true)| + 1 + |r.rest|
               <= |s| + |PrintMembers(acc, true)| + CommaLength(acc)
    decreases |s|, 1
  {
    KeyShortest(s);
    var key, text := ParseKey(s).value, ParseKey(s).rest;
    ValueShortest(text);
    var v, rest := ParseValue(text).value, ParseValue(text).rest;
    var u := SkipSpace(rest);
    AssignLength(acc, key, v);
    assert |PrintMember(Member(key, v))| == |Quote(key)| + 1 + |Print(v)|;
    assert Assign(acc, key, v) != [];
    if u[0] == ',' {
      MembersShortest(u[1..], Assign(acc, key, v));
    }
    hide PrintMember, PrintMembers, Print, Assign, Quote;
  }

  /** No text that is read as the value is shorter than the printed one. */
  lemma {:induction false} PrintShortest(v: Json, text: string)
    requires ParseValue(text) == Ok(v, "")
    ensures |Print(v)| <= |text|
  {
    ValueShortest(text);
  }

  /** Escape sequences have no upper-case letters. */
  lemma {:induction false} EscapesAreLowerCase(c: char)
    ensures |EscapeChar(c)| > 1 ==> forall i | 0 <= i < |EscapeChar(c)| :: !('A' <= EscapeChar(c)[i] <= 'Z')
  {
  }
}
