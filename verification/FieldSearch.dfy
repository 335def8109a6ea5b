/** ExtractStringValue, the substring search for a field of a request body, and what it
    finds in a printed object. */
module FieldSearch {
  import opened ByteOrder
  import opened Decimal
  import opened JsonValues
  import opened Layout
  import opened KeyScanner
  import opened Markers

  /** The text between the two quotation marks that follow the next colon. */
  function QuotedAfterColon(body: string, start: nat): Option<string> {
    match FindFrom(body, ":", start)
    case None => None
    case Some(colonPos) =>
      match FindFrom(body, "\"", colonPos + 1)
      case None => None
      case Some(firstQuote) =>
        match FindFrom(body, "\"", firstQuote + 1)
        case None => None
        case Some(secondQuote) => Some(body[firstQuote + 1..secondQuote])
  }

  function ExtractStringValue(body: string, key: string): Option<string> {
    match FindFrom(body, Marker(key), 0)
    case None => None
    case Some(keyPos) => QuotedAfterColon(body, keyPos + |Marker(key)|)
  }

  /** Nothing is found where a value holds no decoy. */
  lemma {:induction false} FindsNothing(v: Json, gaps: seq<string>, key: string)
    requires Alphabetic(key) && NoDecoy(v, key) && Gaps(gaps, Tokens(v))
    ensures ExtractStringValue(Spaced(Tokens(v), gaps), key) == None
  {
    hide Tokens, Spaced, NoDecoy;
    MarkerAbsentExactly(v, gaps, key);
  }

  // ----- from a marker to the text behind it

  lemma {:induction false} Regroup(a: string, b: string, c: string)
    ensures a + b + c == a + (b + c)
  {
  }

  function UpToQuote(text: string): string {
    if text == "" || text[0] == '\"' then "" else [text[0]] + UpToQuote(text[1..])
  }

  /** The search for a quotation mark passes text without one. */
  lemma {:induction false} FindQuote(text: string, start: nat, gap: string, rest: string)
    requires start <= |text| && text[start..] == gap + ("\"" + rest) && QuoteFreeText(gap)
    ensures FindFrom(text, "\"", start) == Some(start + |gap|)
    decreases |gap|
  {
    if gap == "" {
      DropAt(text, start, "\"", rest);
    } else {
      assert text[start..][0] == gap[0];
      assert text[start + 1..] == text[start..][1..] == gap[1..] + ("\"" + rest);
      FindQuote(text, start + 1, gap[1..], rest);
    }
  }

  lemma {:induction false} NoQuoteFound(text: string, start: nat)
    requires start <= |text| && QuoteFreeText(text[start..])
    ensures FindFrom(text, "\"", start) == None
    decreases |text| - start
  {
    if start < |text| {
      assert text[start..][0] != '\"' && text[start + 1..] == text[start..][1..];
      NoQuoteFound(text, start + 1);
    }
  }

  lemma {:induction false} DropAt(text: string, i: nat, a: string, b: string)
    requires i <= |text| && text[i..] == a + b
    ensures i + |a| <= |text| && text[i + |a|..] == b && text[i..i + |a|] == a && At(text, a, i)
  {
  }

  predicate ColonFree(gap: string) {
    forall i | 0 <= i < |gap| :: gap[i] != ':'
  }

  lemma {:induction false} FindColon(text: string, start: nat, gap: string, rest: string)
    requires start <= |text| && text[start..] == gap + (":" + rest)
    requires ColonFree(gap)
    ensures FindFrom(text, ":", start) == Some(start + |gap|)
    decreases |gap|
  {
    if gap == "" {
      DropAt(text, start, ":", rest);
    } else {
      assert text[start..][0] == gap[0];
      assert text[start + 1..] == text[start..][1..] == gap[1..] + (":" + rest);
      FindColon(text, start + 1, gap[1..], rest);
    }
  }

  lemma {:induction false} UpToQuoteSplit(text: string, rest: string) returns (after: string)
    ensures QuoteFreeText(UpToQuote(text))
    ensures text + ("\"" + rest) == UpToQuote(text) + ("\"" + after)
  {
    if text == "" {
      after := rest;
    } else if text[0] == '\"' {
      after := text[1..] + ("\"" + rest);
      assert text == "\"" + text[1..];
    } else {
      after := UpToQuoteSplit(text[1..], rest);
      Regroup([text[0]], text[1..], "\"" + rest);
      Regroup([text[0]], UpToQuote(text[1..]), "\"" + after);
      assert text == [text[0]] + text[1..];
    }
  }

  lemma {:induction false} QuotedHere(text: string, begin: nat, lead: string, quoted: string, rest: string)
    requires begin <= |text| && QuoteFreeText(lead) && text[begin..] == lead + ("\"" + (quoted + ("\"" + rest)))
    ensures var first := begin + |lead|;
            && FindFrom(text, "\"", begin) == Some(first) && first < |text|
            && FindFrom(text, "\"", first + 1) == Some(first + 1 + |UpToQuote(quoted)|)
            && first + 1 + |UpToQuote(quoted)| <= |text|
            && text[first + 1..first + 1 + |UpToQuote(quoted)|] == UpToQuote(quoted)
  {
    var after := UpToQuoteSplit(quoted, rest);
    hide *;
    FindQuote(text, begin, lead, quoted + ("\"" + rest));
    DropAt(text, begin, lead, "\"" + (quoted + ("\"" + rest)));
    DropAt(text, begin + |lead|, "\"", quoted + ("\"" + rest));
    FindQuote(text, begin + |lead| + 1, UpToQuote(quoted), after);
    DropAt(text, begin + |lead| + 1, UpToQuote(quoted), "\"" + after);
  }

  lemma {:induction false} QuotedAt(
    text: string, start: nat, gap: string, lead: string, quoted: string, rest: string)
    requires start <= |text| && ColonFree(gap) && QuoteFreeText(lead)
    requires text[start..] == gap + (":" + (lead + ("\"" + (quoted + ("\"" + rest)))))
    ensures QuotedAfterColon(text, start) == Some(UpToQuote(quoted))
  {
    hide FindFrom, UpToQuote, ColonFree, QuoteFreeText;
    var first := lead + ("\"" + (quoted + ("\"" + rest)));
    FindColon(text, start, gap, first);
    DropAt(text, start, gap, ":" + first);
    DropAt(text, start + |gap|, ":", first);
    QuotedHere(text, start + |gap| + 1, lead, quoted, rest);
  }

  /** What the search returns once the marker is located: the quoted text after the next
      colon, up to the first quotation mark in it. */
  lemma {:induction false} ExtractAt(
    text: string, key: string, n: nat, gap: string, lead: string, quoted: string, rest: string)
    requires n <= |text| && Absent(text, key, n)
    requires ColonFree(gap) && QuoteFreeText(lead)
    requires text[n..] == Marker(key) + (gap + (":" + (lead + ("\"" + (quoted + ("\"" + rest))))))
    ensures ExtractStringValue(text, key) == Some(UpToQuote(quoted))
  {
    hide FindFrom, QuotedAfterColon, UpToQuote, Absent, ColonFree, QuoteFreeText, Marker;
    DropAt(text, n, Marker(key), gap + (":" + (lead + ("\"" + (quoted + ("\"" + rest))))));
    FoundAt(text, key, n);
    QuotedAt(text, n + |Marker(key)|, gap, lead, quoted, rest);
  }

  lemma {:induction false} ExtractNothing(text: string, key: string, n: nat, gap: string, rest: string)
    requires n <= |text| && Absent(text, key, n) && ColonFree(gap)
    requires text[n..] == Marker(key) + (gap + (":" + rest)) && QuoteFreeText(rest)
    ensures ExtractStringValue(text, key) == None
  {
    hide FindFrom, Absent, ColonFree, Marker;
    var start := n + |Marker(key)|;
    DropAt(text, n, Marker(key), gap + (":" + rest));
    FoundAt(text, key, n);
    FindColon(text, start, gap, rest);
    DropAt(text, start, gap, ":" + rest);
    DropAt(text, start + |gap|, ":", rest);
    NoQuoteFound(text, start + |gap| + 1);
  }

  lemma {:induction false} UpToQuoteSpec(text: string)
    ensures QuoteFreeText(UpToQuote(text))
    ensures QuoteFreeText(text) ==> UpToQuote(text) == text
  {
    if text != "" && text[0] != '\"' {
      UpToQuoteSpec(text[1..]);
    }
  }

  lemma {:induction false} EscapeLonger(s: string)
    ensures |Escape(s)| >= |s| && (!QuoteFreeText(s) ==> |Escape(s)| > |s|)
  {
    if s != "" {
      EscapeLonger(s[1..]);
      assert s[0] != '\"' && QuoteFreeText(s[1..]) ==> QuoteFreeText(s);
    }
  }

  lemma {:induction false} EscapeQuoteFree(s: string)
    requires QuoteFreeText(s)
    ensures QuoteFreeText(Escape(s))
  {
    if s != "" {
      EscapeQuoteFree(s[1..]);
    }
  }

  /** A string as the search returns it: as printed, up to the first quotation mark. */
  function AsFound(s: string): string {
    UpToQuote(Escape(s))
  }

  /** That is the string itself exactly when printing does not escape anything. */
  lemma {:induction false} AsFoundExact(value: string)
    ensures AsFound(value) == value <==> Escape(value) == value
  {
    UpToQuoteSpec(Escape(value));
    EscapeLonger(value);
    if QuoteFreeText(value) {
      EscapeQuoteFree(value);
    }
  }

  // ----- the text a field's value begins with

  /** The first string or key in the printed form of a value, unescaped. */
  function FirstText(v: Json): Option<string>
    decreases v, 0
  {
    match v
    case Str(s) => Some(s)
    case Arr(items) => FirstTextOf(items)
    case Obj(ms) => if ms == [] then None else Some(ms[0].key)
    case _ => None
  }

  function FirstTextOf(items: seq<Json>): Option<string>
    decreases items, 1
  {
    if items == [] then None
    else if FirstText(items[0]).Some? then FirstText(items[0])
    else FirstTextOf(items[1..])
  }

  function Earlier(a: Option<string>, b: Option<string>): Option<string> {
    if a.Some? then a else b
  }

  /** A quoted text, if there is one, and what follows it. */
  function QuotedText(quoted: Option<string>, rest: string): string {
    match quoted
    case None => ""
    case Some(s) => "\"" + (Escape(s) + ("\"" + rest))
  }

  ghost predicate Splits(text: string, lead: string, quoted: Option<string>, rest: string) {
    QuoteFreeText(lead) && text == lead + QuotedText(quoted, rest)
  }

  /** The first quotation mark of the text opens the given string, or there is none. */
  ghost predicate LeadsTo(text: string, quoted: Option<string>) {
    exists lead, rest :: Splits(text, lead, quoted, rest)
  }

  lemma {:induction false} LeadsNowhere(text: string)
    requires QuoteFreeText(text)
    ensures LeadsTo(text, None)
  {
    assert text == text + QuotedText(None, "");
    assert Splits(text, text, None, "");
  }

  lemma {:induction false} LeadsToString(s: string, rest: string)
    ensures LeadsTo(Quote(s) + rest, Some(s))
  {
    StringText(s, rest);
    assert Quote(s) + rest == "" + QuotedText(Some(s), rest);
    assert Splits(Quote(s) + rest, "", Some(s), rest);
  }

  lemma {:induction false} QuotedTextRest(s: string, a: string, b: string)
    ensures QuotedText(Some(s), a) + b == QuotedText(Some(s), a + b)
  {
    Regroup("\"", Escape(s) + ("\"" + a), b);
    Regroup(Escape(s), "\"" + a, b);
    Regroup("\"", a, b);
  }

  lemma {:induction false} LeadsOn(a: string, b: string, s: string)
    requires LeadsTo(a, Some(s))
    ensures LeadsTo(a + b, Some(s))
  {
    var lead, rest :| Splits(a, lead, Some(s), rest);
    QuotedTextRest(s, rest, b);
    hide QuotedText;
    Regroup(lead, QuotedText(Some(s), rest), b);
    assert Splits(a + b, lead, Some(s), rest + b);
  }

  lemma {:induction false} LeadsJoin(a: string, b: string, qa: Option<string>, qb: Option<string>)
    requires LeadsTo(a, qa) && LeadsTo(b, qb)
    ensures LeadsTo(a + b, Earlier(qa, qb))
  {
    if qa.Some? {
      LeadsOn(a, b, qa.value);
    } else {
      var lead, rest :| Splits(a, lead, qa, rest);
      var lead', rest' :| Splits(b, lead', qb, rest');
      assert a == lead;
      hide QuotedText;
      Regroup(lead, lead', QuotedText(qb, rest'));
      assert Splits(a + b, lead + lead', qb, rest');
    }
  }

  // ----- the first string among tokens

  function FirstQuoted(tokens: seq<Token>): Option<string> {
    if tokens == [] then None
    else if tokens[0].Quoted? then Some(tokens[0].s)
    else FirstQuoted(tokens[1..])
  }

  lemma {:induction false} TokensLead(tokens: seq<Token>, gaps: seq<string>)
    requires |gaps| == |tokens| + 1 && AllTokens(tokens) && BlankGaps(gaps)
    ensures LeadsTo(Spaced(tokens, gaps), FirstQuoted(tokens))
  {
    assert QuoteFreeText(gaps[0]);
    if tokens == [] {
      LeadsNowhere(gaps[0]);
    } else {
      var t, rest := tokens[0], Spaced(tokens[1..], gaps[1..]);
      if t.Quoted? {
        LeadsToString(t.s, rest);
      } else {
        TokensLead(tokens[1..], gaps[1..]);
        TokenQuoteFree(t);
        LeadsNowhere(TokenText(t));
        LeadsJoin(TokenText(t), rest, None, FirstQuoted(tokens[1..]));
      }
      LeadsNowhere(gaps[0]);
      LeadsJoin(gaps[0], TokenText(t) + rest, None, FirstQuoted(tokens));
      hide LeadsTo, TokenText, Spaced;
    }
  }

  lemma {:induction false} TokenQuoteFree(t: Token)
    requires IsToken(t) && !t.Quoted?
    ensures QuoteFreeText(TokenText(t))
  {
    if t.Word? {
      ScalarInert(t.v);
    }
  }

  lemma {:induction false} FirstQuotedJoin(a: seq<Token>, b: seq<Token>)
    ensures FirstQuoted(a + b) == Earlier(FirstQuoted(a), FirstQuoted(b))
  {
    if a == [] {
      assert a + b == b;
    } else {
      assert (a + b)[1..] == a[1..] + b;
      FirstQuotedJoin(a[1..], b);
    }
  }

  lemma {:induction false} NoQuotedMark(c: char)
    ensures FirstQuoted([Mark(c)]) == None && forall first :: FirstQuoted(Comma(first)) == None
  {
  }

  lemma {:induction false} FirstQuotedValue(v: Json)
    ensures FirstQuoted(Tokens(v)) == FirstText(v)
    decreases v, 0
  {
    match v
    case Arr(items) =>
      FirstQuotedItems(items, true);
      hide FirstQuoted, ItemTokens;
      NoQuotedMark('[');
      NoQuotedMark(']');
      FirstQuotedJoin(ItemTokens(items, true), [Mark(']')]);
      FirstQuotedJoin([Mark('[')], ItemTokens(items, true) + [Mark(']')]);
    case Obj(ms) =>
      FirstQuotedMembers(ms, true);
      hide FirstQuoted, MemberTokens;
      NoQuotedMark('{');
      NoQuotedMark('}');
      FirstQuotedJoin(MemberTokens(ms, true), [Mark('}')]);
      FirstQuotedJoin([Mark('{')], MemberTokens(ms, true) + [Mark('}')]);
    case _ =>
  }

  lemma {:induction false} FirstQuotedItems(items: seq<Json>, first: bool)
    ensures FirstQuoted(ItemTokens(items, first)) == FirstTextOf(items)
    decreases items, 1
  {
    if items != [] {
      FirstQuotedValue(items[0]);
      FirstQuotedItems(items[1..], false);
      hide FirstQuoted, Tokens, FirstText;
      NoQuotedMark(',');
      FirstQuotedJoin(Tokens(items[0]), ItemTokens(items[1..], false));
      FirstQuotedJoin(Comma(first), Tokens(items[0]) + ItemTokens(items[1..], false));
    }
  }

  lemma {:induction false} FirstQuotedMembers(ms: seq<Member>, first: bool)
    ensures FirstQuoted(MemberTokens(ms, first)) == if ms == [] then None else Some(ms[0].key)
  {
    if ms != [] {
      var rest := [Mark(':')] + (Tokens(ms[0].value) + MemberTokens(ms[1..], false));
      assert MemberTokens(ms, first) == Comma(first) + ([Quoted(ms[0].key)] + rest);
      NoQuotedMark(',');
      FirstQuotedJoin(Comma(first), [Quoted(ms[0].key)] + rest);
    }
  }

  // ----- the result of the search

  function NextKey(ms: seq<Member>, i: nat): Option<string>
    requires i < |ms|
  {
    if i + 1 < |ms| then Some(ms[i + 1].key) else None
  }

  /** The first text of the field's value or, when it has none, the next key. */
  function FieldResult(ms: seq<Member>, i: nat): Option<string>
    requires i < |ms|
  {
    match Earlier(FirstText(ms[i].value), NextKey(ms, i))
    case None => None
    case Some(s) => Some(AsFound(s))
  }

  /** What the search meets behind the colon of a field. */
  lemma {:induction false} FieldLeads(ms: seq<Member>, i: nat, gaps: seq<string>)
    requires Fits(ms, i, gaps) && BlankGaps(gaps)
    ensures LeadsTo(ValueText(ms, i, gaps), Earlier(FirstText(ms[i].value), NextKey(ms, i)))
  {
    var value, after, n := Tokens(ms[i].value), TokensAfter(ms, i), |TokensBefore(ms, i)|;
    assert |gaps[n + 2..]| == |value| + |after| + 1;
    hide *;
    GapsFrom(gaps, n + 2);
    ValueOnPlain(ms, i);
    FirstQuotedOn(ms, i);
    ValueTextIs(ms, i, gaps);
    TokensLead(value + after, gaps[n + 2..]);
  }

  lemma {:induction false} ValueTextIs(ms: seq<Member>, i: nat, gaps: seq<string>)
    requires Fits(ms, i, gaps)
    ensures |gaps[|TokensBefore(ms, i)| + 2..]| == |Tokens(ms[i].value) + TokensAfter(ms, i)| + 1
    ensures ValueText(ms, i, gaps)
         == Spaced(Tokens(ms[i].value) + TokensAfter(ms, i), gaps[|TokensBefore(ms, i)| + 2..])
  {
    hide Tokens, TokensAfter, TokensBefore;
  }

  lemma {:induction false} GapsFrom(gaps: seq<string>, k: nat)
    requires BlankGaps(gaps) && k <= |gaps|
    ensures BlankGaps(gaps[k..])
  {
  }

  lemma {:induction false} ValueOnPlain(ms: seq<Member>, i: nat)
    requires i < |ms|
    ensures AllTokens(Tokens(ms[i].value) + TokensAfter(ms, i))
  {
    var head, value, after := [Quoted(ms[i].key), Mark(':')], Tokens(ms[i].value), TokensAfter(ms, i);
    ValuePlain(Obj(ms));
    assert KeyedTokens(ms[i]) + after == head + (value + after);
    hide Tokens, TokensBefore, TokensAfter, KeyedTokens;
    ObjectSplit(ms, i);
    PlainParts(TokensBefore(ms, i), KeyedTokens(ms[i]) + after);
    PlainParts(head, value + after);
  }

  lemma {:induction false} FirstQuotedOn(ms: seq<Member>, i: nat)
    requires i < |ms|
    ensures FirstQuoted(Tokens(ms[i].value) + TokensAfter(ms, i)) == Earlier(FirstText(ms[i].value), NextKey(ms, i))
  {
    FirstQuotedMembers(ms[i + 1..], false);
    hide Tokens, FirstQuoted, FirstText, MemberTokens;
    FirstQuotedValue(ms[i].value);
    NoQuotedMark('}');
    FirstQuotedJoin(MemberTokens(ms[i + 1..], false), [Mark('}')]);
    FirstQuotedJoin(Tokens(ms[i].value), TokensAfter(ms, i));
  }

  /** When no member before it holds a decoy, a field is found, whatever whitespace is between
      the tokens, and what is returned is the first text of its value or, when that has none,
      the next key: as printed, and up to the first quotation mark in it. */
  lemma {:induction false} FindsField(ms: seq<Member>, i: nat, gaps: seq<string>, key: string)
    requires Alphabetic(key) && i < |ms| && ms[i].key == key && NoDecoyBefore(ms, i, key)
    requires Gaps(gaps, Tokens(Obj(ms)))
    ensures ExtractStringValue(Spaced(Tokens(Obj(ms)), gaps), key) == FieldResult(ms, i)
  {
    GapsFit(ms, i, gaps);
    var text, n, gap := Spaced(Tokens(Obj(ms)), gaps), FieldStart(ms, i, gaps), ColonGap(ms, i, gaps);
    assert Blank(gap) && ColonFree(gap);
    hide Spaced, Tokens, TokensBefore, TokensAfter, FieldStart, ColonGap, ValueText, Fits, BlankGaps;
    hide FirstText, Escape, ExtractStringValue, Absent, NoDecoyBefore, UpToQuote, ColonFree, Marker;
    LocateField(ms, i, gaps, key);
    FieldLeads(ms, i, gaps);
    var found := Earlier(FirstText(ms[i].value), NextKey(ms, i));
    var lead, rest :| Splits(ValueText(ms, i, gaps), lead, found, rest);
    if found.Some? {
      ExtractAt(text, key, n, gap, lead, Escape(found.value), rest);
    } else {
      assert lead + "" == lead;
      ExtractNothing(text, key, n, gap, lead);
    }
  }

  /** The same for the printed text. */
  lemma {:induction false} FindsPrinted(ms: seq<Member>, i: nat, key: string)
    requires Alphabetic(key) && i < |ms| && ms[i].key == key && NoDecoyBefore(ms, i, key)
    ensures ExtractStringValue(Print(Obj(ms)), key) == FieldResult(ms, i)
  {
    var none := NoGaps(Tokens(Obj(ms)));
    hide Tokens, Spaced, ExtractStringValue, FieldResult, NoDecoyBefore;
    FindsField(ms, i, none, key);
    PrintIsSpaced(Obj(ms), none);
  }

  /** A string field is returned unchanged exactly when its text needs no escapes. */
  lemma {:induction false} FieldUnchanged(ms: seq<Member>, i: nat, key: string)
    requires Alphabetic(key) && i < |ms| && ms[i].key == key && ms[i].value.Str? && NoDecoyBefore(ms, i, key)
    ensures ExtractStringValue(Print(Obj(ms)), key) == Some(ms[i].value.s) <==> Escape(ms[i].value.s) == ms[i].value.s
  {
    FindsPrinted(ms, i, key);
    AsFoundExact(ms[i].value.s);
  }

  /** A decoy misleads the search: in {"first":["key"],"second":"value"} it reports the value
      of the second field for a key that names no field. */
  lemma {:induction false} DecoyMisleads(first: string, key: string, second: string, value: string)
    requires Alphabetic(first) && Alphabetic(key) && Alphabetic(second)
    requires first != key && second != key && Less(first, second)
    ensures var ms := [Member(first, Arr([Str(key)])), Member(second, Str(value))];
            Sorted(ms) && ExtractStringValue(Print(Obj(ms)), key) == Some(AsFound(value))
  {
    var ms := [Member(first, Arr([Str(key)])), Member(second, Str(value))];
    var tail := Marker(key) + ("]," + (Marker(second) + (":" + (Quote(value) + "}"))));
    var text := "{" + (Marker(first) + (":[" + tail));
    DecoyText(first, key, second, value);
    AbsentBeforeDecoy(first, key, tail);
    DecoyResult(text, first, key, second, value, tail);
  }

  lemma {:induction false} DecoyResult(
    text: string, first: string, key: string, second: string, value: string, tail: string)
    requires Alphabetic(second) && Absent(text, key, |Marker(first)| + 3)
    requires text == "{" + (Marker(first) + (":[" + tail))
    requires tail == Marker(key) + ("]," + (Marker(second) + (":" + (Quote(value) + "}"))))
    ensures ExtractStringValue(text, key) == Some(AsFound(value))
  {
    var gap, n := "]," + Marker(second), |Marker(first)| + 3;
    assert ColonFree(gap);
    StringText(value, "}");
    var quoted := "\"" + (Escape(value) + ("\"" + "}"));
    hide *;
    assert text[n..] == tail;
    assert "" + quoted == quoted;
    Regroup("],", Marker(second), ":" + quoted);
    ExtractAt(text, key, n, gap, "", Escape(value), "}");
  }

  lemma {:induction false} NamedText(m: Member, key: string, tail: string)
    requires Alphabetic(key) && m.key == key
    ensures PrintMember(m) + tail == Marker(key) + (":" + (Print(m.value) + tail))
  {
    AlphabeticEscape(key);
    MemberText(m, tail);
    StringText(key, ":" + (Print(m.value) + tail));
  }

  lemma {:induction false} AbsentBrace(inner: string, key: string, n: nat)
    requires Absent(inner, key, n)
    ensures Absent("{" + inner, key, 1 + n)
  {
    AbsentInert("{", inner, key);
    AbsentJoin("{", inner, key, n);
  }

  lemma {:induction false} AbsentBeforeDecoy(first: string, key: string, tail: string)
    requires Alphabetic(first) && Alphabetic(key) && first != key
    ensures Absent("{" + (Marker(first) + (":[" + tail)), key, |Marker(first)| + 3)
  {
    var lead := Marker(first) + (":[" + tail);
    NameIsNoDecoy(first, key);
    AlphabeticEscape(first);
    AbsentInert(":[", tail, key);
    AbsentString(first, ":[" + tail, key);
    AbsentJoin(Marker(first), ":[" + tail, key, 2);
    AbsentBrace(lead, key, |Marker(first)| + 2);
  }

  lemma {:induction false} TwoMembers(a: Member, b: Member)
    ensures Print(Obj([a, b])) == "{" + (PrintMember(a) + ("," + (PrintMember(b) + "}")))
  {
    var ms := [a, b];
    assert ms[1..] == [b] && [b][1..] == [];
    MembersText(ms, "}");
    MembersText([b], "}");
    NoMembers();
    assert "" + "}" == "}";
    hide *;
    Regroup("{", PrintMembers(ms, true), "}");
    assert PrintMembers([b], false) + "}" == "," + (PrintMembers([b], true) + "}");
  }

  lemma {:induction false} OneItem(v: Json)
    ensures Print(Arr([v])) == "[" + (Print(v) + "]")
  {
    ArrayText([v], "");
    ItemsText([v], "]");
    NoItems();
  }

  lemma {:induction false} NoItems()
    ensures PrintItems([], false) == ""
  {
  }

  lemma {:induction false} DecoyText(first: string, key: string, second: string, value: string)
    requires Alphabetic(first) && Alphabetic(key) && Alphabetic(second)
    ensures Print(Obj([Member(first, Arr([Str(key)])), Member(second, Str(value))]))
         == "{" + (Marker(first) + (":[" + (Marker(key) + ("]," + (Marker(second) + (":" + (Quote(value) + "}")))))))
  {
    var a, b := Member(first, Arr([Str(key)])), Member(second, Str(value));
    TwoMembers(a, b);
    OneItem(Str(key));
    AlphabeticEscape(key);
    hide PrintMember, Print, PrintMembers, Escape, Quote;
    var last := PrintMember(b) + "}";
    NamedText(a, first, "," + last);
    NamedText(b, second, "}");
    DecoyBrackets(Marker(key), last);
  }

  lemma {:induction false} DecoyBrackets(marker: string, last: string)
    ensures ":" + (("[" + (marker + "]")) + ("," + last)) == ":[" + (marker + ("]," + last))
  {
  }
}
