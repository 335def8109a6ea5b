/** The substring search for the quoted name of a field, and where it finds the name in
    printed text. */
module Markers {
  import opened Decimal
  import opened JsonValues
  import opened Layout
  import opened KeyScanner

  predicate At(text: string, pattern: string, i: nat) {
    i <= |text| && pattern <= text[i..]
  }

  /** std::string::find: the least match position not before start. */
  function FindFrom(text: string, pattern: string, start: nat): (r: Option<nat>)
    ensures r.Some? ==> start <= r.value && At(text, pattern, r.value)
                        && forall j | start <= j < r.value :: !At(text, pattern, j)
    ensures r.None? ==> forall j | start <= j :: !At(text, pattern, j)
    decreases |text| - start
  {
    if start > |text| then None
    else if pattern <= text[start..] then Some(start)
    else FindFrom(text, pattern, start + 1)
  }

  function Marker(key: string): string {
    "\"" + key + "\""
  }

  // ----- where a marker can occur in printed text

  predicate EndsInDecoy(s: string, key: string) {
    |s| > |key| && s[|s| - |key| - 1..] == "\"" + key
  }

  /** The string is the key, or ends with a quotation mark and the key: its printed form
      contains the marker. */
  predicate Decoy(s: string, key: string) {
    s == key || EndsInDecoy(s, key)
  }

  lemma {:induction false} NameIsNoDecoy(s: string, key: string)
    requires Alphabetic(s) && s != key
    ensures !Decoy(s, key)
  {
    assert |s| > |key| ==> s[|s| - |key| - 1..][0] != ("\"" + key)[0];
  }

  /** No key and no string value anywhere in v is a decoy. */
  ghost predicate NoDecoy(v: Json, key: string)
    decreases v
  {
    match v
    case Str(s) => !Decoy(s, key)
    case Arr(items) => forall i | 0 <= i < |items| :: NoDecoy(items[i], key)
    case Obj(ms) => forall i | 0 <= i < |ms| :: NoDecoyMember(ms[i], key)
    case _ => true
  }

  ghost predicate NoDecoyMember(m: Member, key: string)
    decreases m
  {
    !Decoy(m.key, key) && NoDecoy(m.value, key)
  }

  /** The marker does not occur in the first n positions. */
  ghost predicate Absent(text: string, key: string, n: nat) {
    forall p | 0 <= p < n :: !At(text, Marker(key), p)
  }

  lemma {:induction false} AbsentJoin(a: string, b: string, key: string, n: nat)
    requires Absent(a + b, key, |a|) && Absent(b, key, n)
    ensures Absent(a + b, key, |a| + n)
  {
    forall p | 0 <= p < |a| + n ensures !At(a + b, Marker(key), p) {
      if p >= |a| {
        assert p <= |a + b| ==> (a + b)[p..] == b[p - |a|..];
        assert !At(b, Marker(key), p - |a|);
      }
    }
  }

  /** Text without quotation marks holds no marker. */
  lemma {:induction false} AbsentInert(a: string, b: string, key: string)
    requires forall i | 0 <= i < |a| :: a[i] != '\"'
    ensures Absent(a + b, key, |a|)
  {
    forall p | 0 <= p < |a| ensures !At(a + b, Marker(key), p) {
      assert (a + b)[p..][0] == a[p];
      assert Marker(key)[0] == '\"';
    }
  }

  lemma {:induction false} PrefixStep(c: char, a: string, b: string)
    ensures [c] + a <= [c] + b <==> a <= b
  {
    assert ([c] + a)[1..] == a && ([c] + b)[1..] == b;
    if [c] + a <= [c] + b {
      assert b[..|a|] == ([c] + b)[1..][..|a|] == ([c] + b)[..|a| + 1][1..];
    }
  }

  /** The first letter of a key against the first character of an escaped text. */
  lemma {:induction false} EscapedStep(c: char, tail: string, key: string)
    requires key != "" && IsLetter(key[0])
    ensures key + "\"" <= EscapeChar(c) + tail <==> c == key[0] && key[1..] + "\"" <= tail
  {
    assert key + "\"" == [key[0]] + (key[1..] + "\"");
    if c == key[0] {
      PrefixStep(c, key[1..] + "\"", tail);
    } else {
      assert (EscapeChar(c) + tail)[0] == EscapeChar(c)[0] != key[0];
    }
  }

  lemma {:induction false} SameString(s: string, t: string)
    requires s != "" && t != ""
    ensures s == t <==> s[0] == t[0] && s[1..] == t[1..]
  {
    assert s == [s[0]] + s[1..] && t == [t[0]] + t[1..];
  }

  /** An escaped text followed by its closing mark starts with letters and a mark only when
      it is those letters. */
  lemma {:induction false} EscapedIsKey(s: string, rest: string, key: string)
    requires forall i | 0 <= i < |key| :: IsLetter(key[i])
    ensures key + "\"" <= Escape(s) + ("\"" + rest) <==> s == key
  {
    if s == "" {
      assert Escape(s) + ("\"" + rest) == "\"" + rest;
      assert key != "" ==> (key + "\"")[0] != '\"';
    } else if key == "" {
      assert (Escape(s) + ("\"" + rest))[0] == EscapeChar(s[0])[0] != '\"';
    } else {
      EscapedText(s, "\"" + rest);
      EscapedIsKey(s[1..], rest, key[1..]);
      hide *;
      EscapedStep(s[0], Escape(s[1..]) + ("\"" + rest), key);
      SameString(s, key);
    }
  }

  lemma {:induction false} MarkerStarts(key: string, text: string)
    ensures At("\"" + text, Marker(key), 0) <==> key + "\"" <= text
  {
    assert Marker(key) == ['\"'] + (key + "\"");
    assert ("\"" + text)[0..] == ['\"'] + text;
    PrefixStep('\"', key + "\"", text);
  }

  lemma {:induction false} DecoyTail(s: string, key: string)
    requires s != ""
    ensures EndsInDecoy(s, key) <==> EndsInDecoy(s[1..], key) || (s[0] == '\"' && s[1..] == key)
  {
  }

  lemma {:induction false} AbsentEscapeChar(c: char, tail: string, key: string)
    requires c == '\"' ==> !(key + "\"" <= tail)
    ensures Absent(EscapeChar(c) + tail, key, |EscapeChar(c)|)
  {
    var e := EscapeChar(c);
    var text := e + tail;
    if c == '\"' {
      MarkerStarts(key, tail);
      assert text[1..] == "\"" + tail;
      assert ("\"" + tail)[0..] == text[1..];
      assert text[0..][0] == '\\' && Marker(key)[0] == '\"';
    } else {
      AbsentInert(e, tail, key);
    }
  }

  /** Inside a string the marker occurs only when the string ends in a decoy. */
  lemma {:induction false} AbsentInEscaped(s: string, rest: string, key: string)
    requires Alphabetic(key) && !EndsInDecoy(s, key)
    ensures Absent(Escape(s) + ("\"" + rest), key, |Escape(s)|)
  {
    if s != "" {
      var c, t := s[0], s[1..];
      var tail := Escape(t) + ("\"" + rest);
      assert Escape(s) == EscapeChar(c) + Escape(t);
      assert forall i | 0 <= i < |key| :: IsLetter(key[i]);
      hide *;
      DecoyTail(s, key);
      AbsentInEscaped(t, rest, key);
      EscapedIsKey(t, rest, key);
      AbsentEscapeChar(c, tail, key);
      EscapedText(s, "\"" + rest);
      AbsentJoin(EscapeChar(c), tail, key, |Escape(t)|);
    }
  }

  ghost predicate NotLetterLed(rest: string) {
    rest == "" || !IsLetter(rest[0])
  }

  lemma {:induction false} AbsentString(s: string, rest: string, key: string)
    requires Alphabetic(key) && !Decoy(s, key) && NotLetterLed(rest)
    ensures Absent(Quote(s) + rest, key, |Quote(s)|)
  {
    var closing := "\"" + rest;
    var inner := Escape(s) + closing;
    StringText(s, rest);
    EscapedIsKey(s, rest, key);
    MarkerStarts(key, inner);
    MarkerStarts(key, rest);
    assert (key + "\"")[0] == key[0];
    AbsentInEscaped(s, rest, key);
    AbsentJoin(Escape(s), closing, key, 1);
    AbsentJoin("\"", inner, key, |Escape(s)| + 1);
  }

  // ----- a decoy puts the marker into the text

  lemma {:induction false} FoundLeft(a: string, b: string, key: string, n: nat)
    requires !Absent(a, key, n)
    ensures !Absent(a + b, key, n)
  {
    var p: nat :| p < n && At(a, Marker(key), p);
    assert (a + b)[p..] == a[p..] + b;
    assert At(a + b, Marker(key), p);
  }

  lemma {:induction false} FoundRight(a: string, b: string, key: string, n: nat)
    requires !Absent(b, key, n)
    ensures !Absent(a + b, key, |a| + n)
  {
    var p: nat :| p < n && At(b, Marker(key), p);
    assert (a + b)[|a| + p..] == b[p..];
    assert At(a + b, Marker(key), |a| + p);
  }

  lemma {:induction false} EscapeConcat(a: string, b: string)
    ensures Escape(a + b) == Escape(a) + Escape(b)
  {
    if a == "" {
      assert a + b == b;
    } else {
      assert (a + b)[1..] == a[1..] + b;
      EscapeConcat(a[1..], b);
    }
  }

  lemma {:induction false} MarkerAtStart(text: string, key: string)
    ensures !Absent(Marker(key) + text, key, |Marker(key)|)
  {
    assert (Marker(key) + text)[0..] == Marker(key) + text;
    assert At(Marker(key) + text, Marker(key), 0);
  }

  lemma {:induction false} EscapedMark(key: string)
    ensures Escape("\"" + key) == "\\" + ("\"" + Escape(key))
  {
    assert ("\"" + key)[1..] == key;
  }

  /** The escapes before the last quotation mark, and that mark with the key behind it. */
  lemma {:induction false} DecoyTextEnds(before: string, key: string)
    requires Alphabetic(key)
    ensures Escape(before + ("\"" + key)) == Escape(before) + ("\\" + ("\"" + key))
  {
    AlphabeticEscape(key);
    hide *;
    EscapedMark(key);
    EscapeConcat(before, "\"" + key);
  }

  lemma {:induction false} FoundInString(s: string, key: string)
    requires Alphabetic(key) && Decoy(s, key)
    ensures !Absent(Quote(s), key, |Quote(s)|)
  {
    MarkerAtStart("", key);
    assert Marker(key) + "" == Marker(key);
    if s == key {
      AlphabeticEscape(key);
    } else {
      var before := s[..|s| - |key| - 1];
      assert s == before + ("\"" + key);
      DecoyTextEnds(before, key);
      MarkerEnds(Escape(before), key);
      hide Absent, Escape;
      FoundRight("\"" + Escape(before) + "\\", Marker(key), key, |Marker(key)|);
    }
  }

  lemma {:induction false} MarkerEnds(escaped: string, key: string)
    ensures "\"" + (escaped + ("\\" + ("\"" + key))) + "\"" == ("\"" + escaped + "\\") + Marker(key)
  {
  }

  lemma {:induction false} MoreIsFound(text: string, key: string, n: nat)
    requires !Absent(text, key, n)
    ensures !Absent(text, key, |text|)
  {
  }

  lemma {:induction false} NotFound(text: string, key: string)
    ensures FindFrom(text, Marker(key), 0).None? <==> Absent(text, key, |text|)
  {
  }

  // ----- the marker in a text of tokens

  /** No string among the tokens is a decoy. */
  ghost predicate NoDecoyIn(tokens: seq<Token>, key: string) {
    forall i | 0 <= i < |tokens| && tokens[i].Quoted? :: !Decoy(tokens[i].s, key)
  }

  /** A string is followed by a mark, if by anything. */
  ghost predicate Separated(tokens: seq<Token>) {
    forall i | 0 <= i < |tokens| - 1 && tokens[i].Quoted? :: tokens[i + 1].Mark?
  }

  ghost predicate Plain(tokens: seq<Token>) {
    AllTokens(tokens) && Separated(tokens)
  }

  ghost predicate BlankGaps(gaps: seq<string>) {
    forall i | 0 <= i < |gaps| :: Blank(gaps[i])
  }

  lemma {:induction false} BlankAbsent(gap: string, rest: string, key: string)
    requires Blank(gap)
    ensures Absent(gap + rest, key, |gap|) && (NotLetterLed(rest) ==> NotLetterLed(gap + rest))
  {
    AbsentInert(gap, rest, key);
  }

  /** What follows a string among the tokens. */
  lemma {:induction false} LeadLed(tokens: seq<Token>, gaps: seq<string>, rest: string)
    requires |gaps| == |tokens| && AllTokens(tokens) && BlankGaps(gaps)
    requires if tokens == [] then NotLetterLed(rest) else tokens[0].Mark?
    ensures NotLetterLed(Lead(tokens, gaps) + rest)
  {
    if tokens == [] {
      assert Lead(tokens, gaps) + rest == rest;
    } else {
      LeadStep(tokens, gaps, rest);
      BlankAbsent(gaps[0], TokenText(tokens[0]) + (Lead(tokens[1..], gaps[1..]) + rest), "");
    }
  }

  lemma {:induction false} AbsentToken(t: Token, rest: string, key: string)
    requires IsToken(t) && Alphabetic(key)
    requires t.Quoted? ==> !Decoy(t.s, key) && NotLetterLed(rest)
    ensures Absent(TokenText(t) + rest, key, |TokenText(t)|)
  {
    match t
    case Mark(c) => AbsentInert([c], rest, key);
    case Quoted(s) => AbsentString(s, rest, key);
    case Word(v) =>
      ScalarInert(v);
      AbsentInert(Print(v), rest, key);
  }

  lemma {:induction false} AbsentLead(tokens: seq<Token>, gaps: seq<string>, rest: string, key: string)
    requires |gaps| == |tokens| && Plain(tokens) && BlankGaps(gaps) && Alphabetic(key)
    requires NoDecoyIn(tokens, key) && NotLetterLed(rest)
    ensures Absent(Lead(tokens, gaps) + rest, key, |Lead(tokens, gaps)|)
  {
    if tokens != [] {
      var t, tail := tokens[0], Lead(tokens[1..], gaps[1..]) + rest;
      LeadStep(tokens, gaps, rest);
      AbsentLead(tokens[1..], gaps[1..], rest, key);
      if t.Quoted? {
        LeadLed(tokens[1..], gaps[1..], rest);
      }
      hide Absent, TokenText, Decoy, NotLetterLed;
      AbsentToken(t, tail, key);
      AbsentJoin(TokenText(t), tail, key, |Lead(tokens[1..], gaps[1..])|);
      BlankAbsent(gaps[0], TokenText(t) + tail, key);
      AbsentJoin(gaps[0], TokenText(t) + tail, key, |TokenText(t)| + |Lead(tokens[1..], gaps[1..])|);
    }
  }

  lemma {:induction false} FoundInLead(tokens: seq<Token>, gaps: seq<string>, key: string)
    requires |gaps| == |tokens| && Alphabetic(key) && !NoDecoyIn(tokens, key)
    ensures !Absent(Lead(tokens, gaps), key, |Lead(tokens, gaps)|)
  {
    var t, tail := TokenText(tokens[0]), Lead(tokens[1..], gaps[1..]);
    assert Lead(tokens, gaps) == gaps[0] + (t + tail);
    if tokens[0].Quoted? && Decoy(tokens[0].s, key) {
      FoundInString(tokens[0].s, key);
      hide Absent;
      FoundLeft(t, tail, key, |t|);
      FoundRight(gaps[0], t + tail, key, |t|);
      MoreIsFound(Lead(tokens, gaps), key, |gaps[0]| + |t|);
    } else {
      var i :| 0 <= i < |tokens| && tokens[i].Quoted? && Decoy(tokens[i].s, key);
      assert tokens[1..][i - 1] == tokens[i];
      FoundInLead(tokens[1..], gaps[1..], key);
      hide Absent;
      FoundRight(t, tail, key, |tail|);
      FoundRight(gaps[0], t + tail, key, |t| + |tail|);
    }
  }

  /** The marker is in the leading tokens exactly when one of them is a decoy. */
  lemma {:induction false} LeadExact(tokens: seq<Token>, gaps: seq<string>, rest: string, key: string)
    requires |gaps| == |tokens| && Plain(tokens) && BlankGaps(gaps) && Alphabetic(key) && NotLetterLed(rest)
    ensures Absent(Lead(tokens, gaps) + rest, key, |Lead(tokens, gaps)|) <==> NoDecoyIn(tokens, key)
  {
    if NoDecoyIn(tokens, key) {
      AbsentLead(tokens, gaps, rest, key);
    } else {
      FoundInLead(tokens, gaps, key);
      FoundLeft(Lead(tokens, gaps), rest, key, |Lead(tokens, gaps)|);
    }
  }

  // ----- the tokens of a value

  lemma {:induction false} JoinExact(a: seq<Token>, b: seq<Token>, key: string)
    ensures NoDecoyIn(a + b, key) <==> NoDecoyIn(a, key) && NoDecoyIn(b, key)
  {
    if NoDecoyIn(a + b, key) {
      forall i | 0 <= i < |a| && a[i].Quoted? ensures !Decoy(a[i].s, key) {
        assert (a + b)[i] == a[i];
      }
      forall i | 0 <= i < |b| && b[i].Quoted? ensures !Decoy(b[i].s, key) {
        assert (a + b)[|a| + i] == b[i];
      }
    }
  }

  lemma {:induction false} MarkExact(c: char, key: string)
    ensures NoDecoyIn([Mark(c)], key) && forall first :: NoDecoyIn(Comma(first), key)
  {
  }

  /** The tokens of a value hold a decoy exactly when the value does. */
  lemma {:induction false} TokensExact(v: Json, key: string)
    ensures NoDecoyIn(Tokens(v), key) <==> NoDecoy(v, key)
    decreases v, 0
  {
    match v
    case Arr(items) =>
      ItemTokensExact(items, true, key);
      hide NoDecoyIn, ItemTokens;
      MarkExact('[', key);
      MarkExact(']', key);
      JoinExact(ItemTokens(items, true), [Mark(']')], key);
      JoinExact([Mark('[')], ItemTokens(items, true) + [Mark(']')], key);
    case Obj(ms) =>
      MemberTokensExact(ms, true, key);
      hide NoDecoyIn, MemberTokens;
      MarkExact('{', key);
      MarkExact('}', key);
      JoinExact(MemberTokens(ms, true), [Mark('}')], key);
      JoinExact([Mark('{')], MemberTokens(ms, true) + [Mark('}')], key);
    case Str(s) =>
      assert Tokens(v)[0] == Quoted(s);
    case _ =>
  }

  lemma {:induction false} ItemTokensExact(items: seq<Json>, first: bool, key: string)
    ensures NoDecoyIn(ItemTokens(items, first), key) <==> forall i | 0 <= i < |items| :: NoDecoy(items[i], key)
    decreases items, 1
  {
    if items != [] {
      TokensExact(items[0], key);
      ItemTokensExact(items[1..], false, key);
      assert forall i | 0 < i < |items| :: items[i] == items[1..][i - 1];
      hide NoDecoyIn, NoDecoy;
      MarkExact(',', key);
      JoinExact(Tokens(items[0]), ItemTokens(items[1..], false), key);
      JoinExact(Comma(first), Tokens(items[0]) + ItemTokens(items[1..], false), key);
    }
  }

  lemma {:induction false} KeyedExact(m: Member, key: string)
    ensures NoDecoyIn(KeyedTokens(m), key) <==> NoDecoyMember(m, key)
    decreases m, 1
  {
    var head := [Quoted(m.key), Mark(':')];
    TokensExact(m.value, key);
    assert head[0] == Quoted(m.key);
    assert NoDecoyIn(head, key) <==> !Decoy(m.key, key);
    JoinExact(head, Tokens(m.value), key);
  }

  lemma {:induction false} MemberTokensExact(ms: seq<Member>, first: bool, key: string)
    ensures NoDecoyIn(MemberTokens(ms, first), key) <==> forall i | 0 <= i < |ms| :: NoDecoyMember(ms[i], key)
    decreases ms, 1
  {
    if ms != [] {
      KeyedExact(ms[0], key);
      MemberTokensExact(ms[1..], false, key);
      assert forall i | 0 < i < |ms| :: ms[i] == ms[1..][i - 1];
      hide NoDecoyIn, NoDecoyMember;
      MarkExact(',', key);
      JoinExact(KeyedTokens(ms[0]), MemberTokens(ms[1..], false), key);
      JoinExact(Comma(first), KeyedTokens(ms[0]) + MemberTokens(ms[1..], false), key);
    }
  }

  lemma {:induction false} PlainJoin(a: seq<Token>, b: seq<Token>)
    requires Plain(a) && Plain(b) && (b != [] ==> b[0].Mark? || (a != [] ==> a[|a| - 1].Mark?))
    ensures Plain(a + b)
  {
  }

  lemma {:induction false} PlainParts(a: seq<Token>, b: seq<Token>)
    requires Plain(a + b)
    ensures Plain(a) && Plain(b)
  {
    forall i | 0 <= i < |a| ensures IsToken(a[i]) {
      assert (a + b)[i] == a[i];
    }
    forall i | 0 <= i < |b| ensures IsToken(b[i]) {
      assert (a + b)[|a| + i] == b[i];
    }
    forall i | 0 <= i < |a| - 1 && a[i].Quoted? ensures a[i + 1].Mark? {
      assert (a + b)[i] == a[i] && (a + b)[i + 1] == a[i + 1];
    }
    forall i | 0 <= i < |b| - 1 && b[i].Quoted? ensures b[i + 1].Mark? {
      assert (a + b)[|a| + i] == b[i] && (a + b)[|a| + i + 1] == b[i + 1];
    }
  }

  lemma {:induction false} ValuePlain(v: Json)
    ensures Plain(Tokens(v))
    decreases v, 0
  {
    match v
    case Arr(items) =>
      ItemsPlain(items, true);
      hide Plain, ItemTokens;
      MarkPlain('[');
      MarkPlain(']');
      PlainJoin(ItemTokens(items, true), [Mark(']')]);
      PlainJoin([Mark('[')], ItemTokens(items, true) + [Mark(']')]);
    case Obj(ms) =>
      MembersPlain(ms, true);
      hide Plain, MemberTokens;
      MarkPlain('{');
      MarkPlain('}');
      PlainJoin(MemberTokens(ms, true), [Mark('}')]);
      PlainJoin([Mark('{')], MemberTokens(ms, true) + [Mark('}')]);
    case _ =>
  }

  lemma {:induction false} MarkPlain(c: char)
    requires IsToken(Mark(c))
    ensures Plain([Mark(c)])
  {
  }

  lemma {:induction false} ItemsPlain(items: seq<Json>, first: bool)
    ensures Plain(ItemTokens(items, first)) && (!first && items != [] ==> ItemTokens(items, first)[0].Mark?)
    decreases items, 1
  {
    if items != [] {
      ValuePlain(items[0]);
      ItemsPlain(items[1..], false);
      assert items[1..] == [] ==> ItemTokens(items[1..], false) == [];
      assert Plain(Comma(first)) && (!first ==> Comma(first)[0].Mark?);
      hide Plain, Tokens;
      PlainJoin(Tokens(items[0]), ItemTokens(items[1..], false));
      PlainJoin(Comma(first), Tokens(items[0]) + ItemTokens(items[1..], false));
    }
  }

  lemma {:induction false} KeyedPlain(m: Member)
    ensures Plain(KeyedTokens(m))
    decreases m, 1
  {
    var head := [Quoted(m.key), Mark(':')];
    ValuePlain(m.value);
    PlainJoin(head, Tokens(m.value));
  }

  lemma {:induction false} MembersPlain(ms: seq<Member>, first: bool)
    ensures Plain(MemberTokens(ms, first)) && (!first && ms != [] ==> MemberTokens(ms, first)[0].Mark?)
    decreases ms, 1
  {
    if ms != [] {
      KeyedPlain(ms[0]);
      MembersPlain(ms[1..], false);
      assert ms[1..] == [] ==> MemberTokens(ms[1..], false) == [];
      assert Plain(Comma(first)) && (!first ==> Comma(first)[0].Mark?);
      hide Plain, KeyedTokens;
      PlainJoin(KeyedTokens(ms[0]), MemberTokens(ms[1..], false));
      PlainJoin(Comma(first), KeyedTokens(ms[0]) + MemberTokens(ms[1..], false));
    }
  }

  lemma {:induction false} FoundAt(text: string, key: string, n: nat)
    requires Absent(text, key, n) && At(text, Marker(key), n)
    ensures FindFrom(text, Marker(key), 0) == Some(n)
  {
  }

  /** The text of a value, with whitespace between its tokens, contains the marker of a key
      exactly when the value holds a decoy. */
  lemma {:induction false} MarkerAbsentExactly(v: Json, gaps: seq<string>, key: string)
    requires Alphabetic(key) && Gaps(gaps, Tokens(v))
    ensures FindFrom(Spaced(Tokens(v), gaps), Marker(key), 0).None? <==> NoDecoy(v, key)
  {
    var tokens, n := Tokens(v), |Tokens(v)|;
    var lead, last := Lead(tokens, gaps[..n]), gaps[n];
    ValuePlain(v);
    TokensExact(v, key);
    assert tokens + [] == tokens && gaps[n..] == [last];
    assert Spaced([], gaps[n..]) == last;
    hide Tokens, Spaced, NoDecoy, NoDecoyIn;
    SpacedJoin(tokens, [], gaps);
    NotFound(lead + last, key);
    BlankAbsent(last, "", key);
    assert last + "" == last;
    LeadExact(tokens, gaps[..n], last, key);
    if Absent(lead + last, key, |lead|) {
      AbsentJoin(lead, last, key, |last|);
    }
  }

  // ----- the member that is found

  ghost predicate NoDecoyBefore(ms: seq<Member>, i: nat, key: string)
    requires i < |ms|
  {
    forall j | 0 <= j < i :: NoDecoyMember(ms[j], key)
  }

  lemma {:induction false} BeforeExact(ms: seq<Member>, i: nat, key: string)
    requires i < |ms|
    ensures NoDecoyIn(TokensBefore(ms, i), key) <==> NoDecoyBefore(ms, i, key)
  {
    MemberTokensExact(ms[..i], true, key);
    assert forall j | 0 <= j < i :: ms[..i][j] == ms[j];
    hide NoDecoyIn, MemberTokens, NoDecoyMember;
    MarkExact('{', key);
    JoinExact(MemberTokens(ms[..i], true), Comma(i == 0), key);
    JoinExact([Mark('{')], MemberTokens(ms[..i], true) + Comma(i == 0), key);
  }

  lemma {:induction false} BeforeLength(ms: seq<Member>, i: nat)
    requires i < |ms|
    ensures |Tokens(Obj(ms))| == |TokensBefore(ms, i)| + |KeyedTokens(ms[i])| + |TokensAfter(ms, i)|
  {
    ObjectSplit(ms, i);
    hide Tokens, TokensBefore, TokensAfter, KeyedTokens;
  }

  ghost predicate Fits(ms: seq<Member>, i: nat, gaps: seq<string>) {
    i < |ms| && |gaps| == |TokensBefore(ms, i)| + |KeyedTokens(ms[i])| + |TokensAfter(ms, i)| + 1
  }

  /** The text before the i-th member and the gap there. */
  function BeforeText(ms: seq<Member>, i: nat, gaps: seq<string>): string
    requires Fits(ms, i, gaps)
  {
    Lead(TokensBefore(ms, i), gaps[..|TokensBefore(ms, i)|])
  }

  function FieldGap(ms: seq<Member>, i: nat, gaps: seq<string>): string
    requires Fits(ms, i, gaps)
  {
    gaps[|TokensBefore(ms, i)|]
  }

  function ColonGap(ms: seq<Member>, i: nat, gaps: seq<string>): string
    requires Fits(ms, i, gaps)
  {
    gaps[|TokensBefore(ms, i)| + 1]
  }

  /** The text behind the colon of the i-th member. */
  function ValueText(ms: seq<Member>, i: nat, gaps: seq<string>): string
    requires Fits(ms, i, gaps)
  {
    Spaced(Tokens(ms[i].value) + TokensAfter(ms, i), gaps[|TokensBefore(ms, i)| + 2..])
  }

  /** The text from the i-th member on. */
  function FieldText(ms: seq<Member>, i: nat, gaps: seq<string>): string
    requires Fits(ms, i, gaps)
  {
    Quote(ms[i].key) + (ColonGap(ms, i, gaps) + (":" + ValueText(ms, i, gaps)))
  }

  /** Where that text begins. */
  function FieldStart(ms: seq<Member>, i: nat, gaps: seq<string>): nat
    requires Fits(ms, i, gaps)
  {
    |BeforeText(ms, i, gaps)| + |FieldGap(ms, i, gaps)|
  }

  lemma {:induction false} KeyedSpaced(m: Member, after: seq<Token>, gaps: seq<string>)
    requires |gaps| == |KeyedTokens(m)| + |after| + 1
    ensures Spaced(KeyedTokens(m) + after, gaps)
         == gaps[0] + (Quote(m.key) + (gaps[1] + (":" + Spaced(Tokens(m.value) + after, gaps[2..]))))
  {
    var rest := Tokens(m.value) + after;
    var all := KeyedTokens(m) + after;
    assert all == [Quoted(m.key)] + ([Mark(':')] + rest);
    assert all[1..] == [Mark(':')] + rest && all[1..][1..] == rest && gaps[1..][1..] == gaps[2..];
    hide Tokens, KeyedTokens, Quote;
    SpacedStep(all, gaps);
    SpacedStep(all[1..], gaps[1..]);
  }

  lemma {:induction false} GapsFit(ms: seq<Member>, i: nat, gaps: seq<string>)
    requires i < |ms| && Gaps(gaps, Tokens(Obj(ms)))
    ensures Fits(ms, i, gaps) && BlankGaps(gaps)
  {
    BeforeLength(ms, i);
  }

  lemma {:induction false} FieldSpaced(ms: seq<Member>, i: nat, gaps: seq<string>)
    requires Fits(ms, i, gaps)
    ensures |gaps| == |Tokens(Obj(ms))| + 1
    ensures Spaced(Tokens(Obj(ms)), gaps)
         == BeforeText(ms, i, gaps) + (FieldGap(ms, i, gaps) + FieldText(ms, i, gaps))
  {
    var before, after := TokensBefore(ms, i), TokensAfter(ms, i);
    var n := |before|;
    assert gaps[n..][0] == gaps[n] && gaps[n..][1] == gaps[n + 1] && gaps[n..][2..] == gaps[n + 2..];
    BeforeLength(ms, i);
    hide Tokens, TokensBefore, TokensAfter, KeyedTokens, Quote, Lead, Spaced;
    ObjectSplit(ms, i);
    SpacedJoin(before, KeyedTokens(ms[i]) + after, gaps);
    KeyedSpaced(ms[i], after, gaps[n..]);
  }

  lemma {:induction false} MarkerBefore(ms: seq<Member>, i: nat, gaps: seq<string>, key: string)
    requires Fits(ms, i, gaps) && BlankGaps(gaps) && Alphabetic(key)
    ensures var rest := FieldGap(ms, i, gaps) + FieldText(ms, i, gaps);
            Absent(BeforeText(ms, i, gaps) + rest, key, |BeforeText(ms, i, gaps)|) <==> NoDecoyBefore(ms, i, key)
  {
    var before, after := TokensBefore(ms, i), TokensAfter(ms, i);
    var n, gap, field := |before|, FieldGap(ms, i, gaps), FieldText(ms, i, gaps);
    assert BlankGaps(gaps[..n]) && Blank(gap) && NotLetterLed(field);
    ValuePlain(Obj(ms));
    hide Tokens, TokensBefore, TokensAfter, KeyedTokens, Absent, Plain, NotLetterLed, Blank, BlankGaps;
    hide Lead, FieldText, FieldGap, NoDecoyBefore, NoDecoyIn;
    ObjectSplit(ms, i);
    PlainParts(before, KeyedTokens(ms[i]) + after);
    BlankAbsent(gap, field, key);
    LeadExact(before, gaps[..n], gap + field, key);
    BeforeExact(ms, i, key);
  }

  /** The text from the i-th member on; the marker is before it exactly when a decoy is. */
  lemma {:induction false} LocateField(ms: seq<Member>, i: nat, gaps: seq<string>, key: string)
    requires Alphabetic(key) && Fits(ms, i, gaps) && BlankGaps(gaps) && ms[i].key == key
    ensures |gaps| == |Tokens(Obj(ms))| + 1
    ensures var text, n := Spaced(Tokens(Obj(ms)), gaps), FieldStart(ms, i, gaps);
            && n <= |text|
            && text[n..] == Marker(key) + (ColonGap(ms, i, gaps) + (":" + ValueText(ms, i, gaps)))
            && (Absent(text, key, n) <==> NoDecoyBefore(ms, i, key))
  {
    hide *;
    var lead, gap, field := BeforeText(ms, i, gaps), FieldGap(ms, i, gaps), FieldText(ms, i, gaps);
    FieldMarked(ms, i, gaps, key);
    FieldSpaced(ms, i, gaps);
    MarkerBefore(ms, i, gaps, key);
    BlankAbsent(gap, field, key);
    AbsentThrough(lead, gap, field, key);
    SliceThrough(lead, gap, field);
    StartIs(ms, i, gaps);
  }

  lemma {:induction false} StartIs(ms: seq<Member>, i: nat, gaps: seq<string>)
    requires Fits(ms, i, gaps)
    ensures FieldStart(ms, i, gaps) == |BeforeText(ms, i, gaps)| + |FieldGap(ms, i, gaps)|
  {
    hide BeforeText, FieldGap;
  }

  lemma {:induction false} FieldMarked(ms: seq<Member>, i: nat, gaps: seq<string>, key: string)
    requires Alphabetic(key) && Fits(ms, i, gaps) && BlankGaps(gaps) && ms[i].key == key
    ensures FieldText(ms, i, gaps) == Marker(key) + (ColonGap(ms, i, gaps) + (":" + ValueText(ms, i, gaps)))
    ensures Blank(FieldGap(ms, i, gaps))
  {
    AlphabeticEscape(key);
    hide ValueText, Tokens, TokensBefore, Blank;
  }

  lemma {:induction false} AbsentThrough(lead: string, gap: string, field: string, key: string)
    requires Absent(gap + field, key, |gap|)
    ensures |lead| + |gap| <= |lead + (gap + field)|
    ensures Absent(lead + (gap + field), key, |lead| + |gap|) <==> Absent(lead + (gap + field), key, |lead|)
  {
    if Absent(lead + (gap + field), key, |lead|) {
      AbsentJoin(lead, gap + field, key, |gap|);
    }
  }

  lemma {:induction false} SliceThrough(lead: string, gap: string, field: string)
    ensures (lead + (gap + field))[|lead| + |gap|..] == field
  {
  }

  lemma {:induction false} MarkerHere(text: string, key: string, n: nat)
    requires n <= |text| && Marker(key) <= text[n..]
    ensures FindFrom(text, Marker(key), 0) == Some(n) <==> Absent(text, key, n)
  {
    assert At(text, Marker(key), n);
  }

  /** In an object's text with whitespace between its tokens, the first marker found is the
      field's own exactly when no earlier member holds a decoy. */
  lemma {:induction false} FirstMarkerExactly(ms: seq<Member>, i: nat, gaps: seq<string>, key: string)
    requires Alphabetic(key) && i < |ms| && ms[i].key == key && Gaps(gaps, Tokens(Obj(ms)))
    ensures Fits(ms, i, gaps)
    ensures FindFrom(Spaced(Tokens(Obj(ms)), gaps), Marker(key), 0) == Some(FieldStart(ms, i, gaps))
       <==> NoDecoyBefore(ms, i, key)
  {
    GapsFit(ms, i, gaps);
    hide Tokens, Spaced, FieldStart, ColonGap, ValueText, NoDecoyBefore, Absent;
    LocateField(ms, i, gaps, key);
    MarkerHere(Spaced(Tokens(Obj(ms)), gaps), key, FieldStart(ms, i, gaps));
  }
}
