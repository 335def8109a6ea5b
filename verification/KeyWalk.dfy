/** What the key scan does on printed text, value by value, and so which keys it finds in a
    printed object. */
module KeyWalk {
  import opened ByteOrder
  import opened Decimal
  import opened JsonValues
  import opened KeyScanner
  import opened Layout

  // ----- the scan, over the structure of a value

  function Flipped(st: Scanner): Scanner {
    st.(inString := !st.inString)
  }

  function Opened(st: Scanner): Scanner {
    if st.inString then st else st.(depth := st.depth + 1)
  }

  function Closed(st: Scanner): Scanner {
    if st.inString then st else st.(depth := st.depth - 1)
  }

  /** How one character of a string moves the scan where it does not know escapes: a quotation
      mark starts or ends a string for it, and a brace counts outside of those. */
  function CharNext(c: char, st: Scanner): Scanner {
    if c == '\"' then Flipped(st) else if c == '{' then Opened(st) else if c == '}' then Closed(st) else st
  }

  /** None when a brace of the string takes the scan to the top level in the middle of it. */
  function WalkChars(s: string, st: Scanner): Option<Scanner> {
    if s == "" then Some(st)
    else
      var next := CharNext(s[0], st);
      if next.depth == 1 then None else WalkChars(s[1..], next)
  }

  /** Only at depth 1 is a string read as such, and then kept if it is a key. */
  function WalkString(s: string, isKey: bool, w: Option<Scanner>): Option<Scanner> {
    match w
    case None => None
    case Some(st) =>
      if st.depth == 1 then Some(if isKey then st.(keys := Insert(st.keys, ReadKey(s))) else st)
      else match WalkChars(s, Flipped(st))
        case None => None
        case Some(next) => Some(Flipped(next))
  }

  function WalkOpen(w: Option<Scanner>): Option<Scanner> {
    match w
    case None => None
    case Some(st) => Some(Opened(st))
  }

  function WalkClose(w: Option<Scanner>): Option<Scanner> {
    match w
    case None => None
    case Some(st) => Some(Closed(st))
  }

  function WalkValue(v: Json, w: Option<Scanner>): Option<Scanner>
    decreases v
  {
    match v
    case Str(s) => WalkString(s, false, w)
    case Arr(items) => WalkItems(items, w)
    case Obj(ms) => WalkClose(WalkMembers(ms, WalkOpen(w)))
    case _ => w
  }

  function WalkItems(items: seq<Json>, w: Option<Scanner>): Option<Scanner>
    decreases items
  {
    if items == [] then w else WalkItems(items[1..], WalkValue(items[0], w))
  }

  function WalkMember(m: Member, w: Option<Scanner>): Option<Scanner>
    decreases m
  {
    WalkValue(m.value, WalkString(m.key, true, w))
  }

  function WalkMembers(ms: seq<Member>, w: Option<Scanner>): Option<Scanner>
    decreases ms
  {
    if ms == [] then w else WalkMembers(ms[1..], WalkMember(ms[0], w))
  }

  /** The keys found in a printed object, unless a string takes the scan to the top level. */
  function FoundKeys(ms: seq<Member>): Option<seq<string>> {
    match WalkValue(Obj(ms), Some(Start))
    case None => None
    case Some(st) => Some(st.keys)
  }

  // ----- the scan of printed text is that walk

  /** The scan between two tokens of the printed text. */
  ghost predicate Calm(st: Scanner) {
    !st.escape && st.current == "" && (st.inString ==> st.depth != 1)
  }

  /** Whatever follows the text, scanning it amounts to the walk. */
  ghost predicate Scans(text: string, rest: string, st: Scanner, w: Option<Scanner>) {
    w.Some? ==> Calm(w.value) && Scan(text + rest, st) == Scan(rest, w.value)
  }

  lemma {:induction false} OpenScans(rest: string, st: Scanner)
    requires Calm(st)
    ensures Scans("{", rest, st, Some(Opened(st)))
  {
    ScanStep('{', rest, st);
  }

  lemma {:induction false} CloseScans(rest: string, st: Scanner)
    requires Calm(st)
    ensures Scans("}", rest, st, Some(Closed(st)))
  {
    ScanStep('}', rest, st);
  }

  /** Away from the top level an escaped character moves the scan as the character does. */
  lemma {:induction false} CharScans(c: char, rest: string, st: Scanner)
    requires !st.escape && st.depth != 1 && CharNext(c, st).depth != 1
    ensures Scan(EscapeChar(c) + rest, st) == Scan(rest, CharNext(c, st))
  {
    if c == '\"' {
      assert EscapeChar(c) + rest == ['\\'] + (['\"'] + rest);
      ScanStep('\\', ['\"'] + rest, st);
      ScanStep('\"', rest, st);
    } else if c == '{' || c == '}' {
      ScanStep(c, rest, st);
    } else {
      PassInert(EscapeChar(c), rest, st);
    }
  }

  lemma {:induction false} CharsScan(s: string, rest: string, st: Scanner)
    requires !st.escape && st.depth != 1 && WalkChars(s, st).Some?
    ensures var next := WalkChars(s, st).value;
            && Scan(Escape(s) + rest, st) == Scan(rest, next)
            && next.depth != 1 && !next.escape && next.current == st.current
  {
    if s == "" {
      assert Escape(s) + rest == rest;
    } else {
      EscapedText(s, rest);
      CharScans(s[0], Escape(s[1..]) + rest, st);
      hide Scan, Escape;
      CharsScan(s[1..], rest, CharNext(s[0], st));
    }
  }

  lemma {:induction false} MarkFlips(rest: string, st: Scanner)
    requires !st.escape && st.depth != 1
    ensures Scan("\"" + rest, st) == Scan(rest, Flipped(st))
  {
    ScanStep('\"', rest, st);
  }

  lemma {:induction false} DeepStringScans(s: string, rest: string, st: Scanner)
    requires Calm(st) && st.depth != 1 && WalkChars(s, Flipped(st)).Some?
    ensures Scans(Quote(s), rest, st, Some(Flipped(WalkChars(s, Flipped(st)).value)))
  {
    hide Scan, Escape, WalkChars;
    StringText(s, rest);
    MarkFlips(Escape(s) + ("\"" + rest), st);
    CharsScan(s, "\"" + rest, Flipped(st));
    MarkFlips(rest, WalkChars(s, Flipped(st)).value);
  }

  lemma {:induction false} StringScans(s: string, isKey: bool, rest: string, st: Scanner)
    requires Calm(st) && (ColonFollows(rest) <==> isKey)
    ensures Scans(Quote(s), rest, st, WalkString(s, isKey, Some(st)))
  {
    hide Scan, ColonFollows, WalkChars, Quote;
    if st.depth == 1 {
      ReadString(s, rest, st);
    } else if WalkChars(s, Flipped(st)).Some? {
      DeepStringScans(s, rest, st);
    }
  }

  // ----- token by token, whatever whitespace is between

  /** The look-ahead finds the next colon behind any whitespace, and nothing else. */
  lemma {:induction false} LookAheadExact(text: string)
    ensures ColonFollows(text) <==> exists n :: 0 <= n < |text| && Blank(text[..n]) && text[n] == ':'
  {
    if text != "" && IsSpace(text[0]) {
      LookAheadExact(text[1..]);
      if n :| 0 <= n < |text| && Blank(text[..n]) && text[n] == ':' {
        assert n > 0 && text[1..][..n - 1] == text[..n][1..] && text[1..][n - 1] == text[n];
        assert Blank(text[1..][..n - 1]);
      }
      if n :| 0 <= n < |text[1..]| && Blank(text[1..][..n]) && text[1..][n] == ':' {
        assert text[..n + 1] == [text[0]] + text[1..][..n];
        assert Blank(text[..n + 1]) && text[n + 1] == ':';
      }
    } else if text != "" {
      assert Blank(text[..0]);
      if n :| 0 <= n < |text| && Blank(text[..n]) && text[n] == ':' {
        assert n > 0 ==> text[..n][0] == text[0];
      }
    }
  }

  function WalkToken(t: Token, isKey: bool, w: Option<Scanner>): Option<Scanner> {
    match t
    case Mark(c) => if c == '{' then WalkOpen(w) else if c == '}' then WalkClose(w) else w
    case Quoted(s) => WalkString(s, isKey, w)
    case Word(_) => w
  }

  /** A string is a key exactly when the next token is a colon. */
  predicate KeyFirst(tokens: seq<Token>) {
    |tokens| > 1 && tokens[1] == Mark(':')
  }

  function WalkTokens(tokens: seq<Token>, w: Option<Scanner>): Option<Scanner> {
    if tokens == [] then w else WalkTokens(tokens[1..], WalkToken(tokens[0], KeyFirst(tokens), w))
  }

  lemma {:induction false} BlankInert(gap: string)
    requires Blank(gap)
    ensures forall i | 0 <= i < |gap| :: Inert(gap[i])
  {
  }

  lemma {:induction false} BlankAhead(gap: string, rest: string)
    requires Blank(gap)
    ensures ColonFollows(gap + rest) <==> ColonFollows(rest)
  {
    if gap == "" {
      assert gap + rest == rest;
    } else {
      assert (gap + rest)[1..] == gap[1..] + rest;
      BlankAhead(gap[1..], rest);
    }
  }

  lemma {:induction false} TokenAhead(t: Token, rest: string)
    requires IsToken(t)
    ensures ColonFollows(TokenText(t) + rest) <==> t == Mark(':')
  {
    if t.Word? {
      ScalarStart(t.v);
    }
    hide Print, Escape;
    assert (TokenText(t) + rest)[0] == TokenText(t)[0];
  }

  lemma {:induction false} ScalarStart(v: Json)
    requires v.Null? || v.Bool? || v.Num?
    ensures Print(v)[0] != ':' && !IsSpace(Print(v)[0])
  {
  }

  lemma {:induction false} SpacedAhead(tokens: seq<Token>, gaps: seq<string>)
    requires Gaps(gaps, tokens) && AllTokens(tokens)
    ensures ColonFollows(Spaced(tokens, gaps)) <==> tokens != [] && tokens[0] == Mark(':')
  {
    if tokens == [] {
      BlankAhead(gaps[0], "");
      assert gaps[0] + "" == gaps[0];
    } else {
      var rest := Spaced(tokens[1..], gaps[1..]);
      BlankAhead(gaps[0], TokenText(tokens[0]) + rest);
      TokenAhead(tokens[0], rest);
    }
  }

  lemma {:induction false} TokenScans(t: Token, isKey: bool, rest: string, st: Scanner)
    requires Calm(st) && IsToken(t) && (ColonFollows(rest) <==> isKey)
    ensures Scans(TokenText(t), rest, st, WalkToken(t, isKey, Some(st)))
  {
    hide Scan, ColonFollows, WalkString;
    match t
    case Mark(c) =>
      if c == '{' {
        OpenScans(rest, st);
      } else if c == '}' {
        CloseScans(rest, st);
      } else {
        PassChar(c, rest, st);
      }
    case Quoted(s) =>
      StringScans(s, isKey, rest, st);
    case Word(v) =>
      ScalarInert(v);
      PassInert(Print(v), rest, st);
  }

  lemma {:induction false} NoTokensLost(tokens: seq<Token>)
    ensures WalkTokens(tokens, None) == None
  {
    if tokens != [] {
      NoTokensLost(tokens[1..]);
    }
  }

  lemma {:induction false} TokensScan(tokens: seq<Token>, gaps: seq<string>, st: Scanner)
    requires Calm(st) && Gaps(gaps, tokens) && AllTokens(tokens)
    ensures WalkTokens(tokens, Some(st)).Some? ==>
              Scan(Spaced(tokens, gaps), st) == WalkTokens(tokens, Some(st)).value
  {
    BlankInert(gaps[0]);
    if tokens == [] {
      PassInert(gaps[0], "", st);
      assert gaps[0] + "" == gaps[0];
    } else {
      var t, rest := tokens[0], Spaced(tokens[1..], gaps[1..]);
      var next := WalkToken(t, KeyFirst(tokens), Some(st));
      SpacedAhead(tokens[1..], gaps[1..]);
      hide Scan, WalkToken, ColonFollows, TokenText;
      PassInert(gaps[0], TokenText(t) + rest, st);
      TokenScans(t, KeyFirst(tokens), rest, st);
      if next.None? {
        NoTokensLost(tokens[1..]);
      } else {
        TokensScan(tokens[1..], gaps[1..], next.value);
      }
    }
  }

  // ----- the tokens of a value

  lemma {:induction false} FirstToken(t: Token, more: seq<Token>, w: Option<Scanner>)
    ensures WalkTokens([t] + more, w) == WalkTokens(more, WalkToken(t, more != [] && more[0] == Mark(':'), w))
  {
    assert ([t] + more)[1..] == more;
  }

  ghost predicate NoColonNext(more: seq<Token>) {
    more == [] || more[0] != Mark(':')
  }

  lemma {:induction false} ValueWalk(v: Json, more: seq<Token>, w: Option<Scanner>)
    requires NoColonNext(more)
    ensures WalkTokens(Tokens(v) + more, w) == WalkTokens(more, WalkValue(v, w))
    decreases v, 0
  {
    match v
    case Str(s) =>
      FirstToken(Quoted(s), more, w);
    case Arr(items) =>
      var close := [Mark(']')] + more;
      assert Tokens(v) + more == [Mark('[')] + (ItemTokens(items, true) + close);
      hide WalkTokens, ItemTokens, WalkItems;
      FirstToken(Mark('['), ItemTokens(items, true) + close, w);
      ItemsWalk(items, true, close, w);
      FirstToken(Mark(']'), more, WalkItems(items, w));
    case Obj(ms) =>
      var close := [Mark('}')] + more;
      assert Tokens(v) + more == [Mark('{')] + (MemberTokens(ms, true) + close);
      hide WalkTokens, MemberTokens, WalkMembers;
      FirstToken(Mark('{'), MemberTokens(ms, true) + close, w);
      MembersWalk(ms, true, close, WalkOpen(w));
      FirstToken(Mark('}'), more, WalkMembers(ms, WalkOpen(w)));
    case _ =>
      FirstToken(Word(v), more, w);
  }

  lemma {:induction false} CommaWalk(first: bool, more: seq<Token>, w: Option<Scanner>)
    ensures WalkTokens(Comma(first) + more, w) == WalkTokens(more, w)
  {
    if first {
      assert Comma(first) + more == more;
    } else {
      FirstToken(Mark(','), more, w);
    }
  }

  lemma {:induction false} ItemsWalk(items: seq<Json>, first: bool, more: seq<Token>, w: Option<Scanner>)
    requires NoColonNext(more)
    ensures WalkTokens(ItemTokens(items, first) + more, w) == WalkTokens(more, WalkItems(items, w))
    decreases items, 1
  {
    if items == [] {
      assert ItemTokens(items, first) + more == more;
    } else {
      var tail := ItemTokens(items[1..], false) + more;
      assert ItemTokens(items, first) + more == Comma(first) + (Tokens(items[0]) + tail);
      assert NoColonNext(tail);
      hide WalkTokens, ItemTokens, Tokens, Comma, NoColonNext;
      CommaWalk(first, Tokens(items[0]) + tail, w);
      ValueWalk(items[0], tail, w);
      ItemsWalk(items[1..], false, more, WalkValue(items[0], w));
    }
  }

  lemma {:induction false} KeyedWalk(m: Member, more: seq<Token>, w: Option<Scanner>)
    requires NoColonNext(more)
    ensures WalkTokens(KeyedTokens(m) + more, w) == WalkTokens(more, WalkMember(m, w))
    decreases m, 1
  {
    var value := Tokens(m.value) + more;
    assert KeyedTokens(m) + more == [Quoted(m.key)] + ([Mark(':')] + value);
    hide WalkTokens, Tokens;
    FirstToken(Quoted(m.key), [Mark(':')] + value, w);
    FirstToken(Mark(':'), value, WalkString(m.key, true, w));
    ValueWalk(m.value, more, WalkString(m.key, true, w));
  }

  lemma {:induction false} MembersWalk(ms: seq<Member>, first: bool, more: seq<Token>, w: Option<Scanner>)
    requires NoColonNext(more)
    ensures WalkTokens(MemberTokens(ms, first) + more, w) == WalkTokens(more, WalkMembers(ms, w))
    decreases ms, 1
  {
    if ms == [] {
      assert MemberTokens(ms, first) + more == more;
    } else {
      var tail := MemberTokens(ms[1..], false) + more;
      assert MemberTokens(ms, first) + more == Comma(first) + (KeyedTokens(ms[0]) + tail);
      assert NoColonNext(tail);
      hide WalkTokens, MemberTokens, KeyedTokens, Comma, NoColonNext;
      CommaWalk(first, KeyedTokens(ms[0]) + tail, w);
      KeyedWalk(ms[0], tail, w);
      MembersWalk(ms[1..], false, more, WalkMember(ms[0], w));
    }
  }

  /** Whitespace does not matter: around the tokens of an object the scan finds exactly the keys
      of the walk, unless a brace in a string takes the scan to the top level there. */
  lemma {:induction false} SpacesDoNotMatter(ms: seq<Member>, gaps: seq<string>)
    requires FoundKeys(ms).Some? && Gaps(gaps, Tokens(Obj(ms)))
    ensures TopLevelKeys(Spaced(Tokens(Obj(ms)), gaps)) == FoundKeys(ms).value
  {
    var tokens := Tokens(Obj(ms));
    ValueTokens(Obj(ms));
    ValueWalk(Obj(ms), [], Some(Start));
    assert tokens + [] == tokens;
    TokensScan(tokens, gaps, Start);
  }

  /** The scan of a printed object finds exactly the keys of the walk, whatever the object
      holds, unless a brace in one of its strings takes the scan to the top level there. */
  lemma {:induction false} ScanFollowsWalk(ms: seq<Member>)
    requires FoundKeys(ms).Some?
    ensures TopLevelKeys(Print(Obj(ms))) == FoundKeys(ms).value
  {
    var none := NoGaps(Tokens(Obj(ms)));
    SpacesDoNotMatter(ms, none);
    PrintIsSpaced(Obj(ms), none);
  }
}
