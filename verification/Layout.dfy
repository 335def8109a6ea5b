/** JSON texts with whitespace around every token; the printed text is the one without any. */
module Layout {
  import opened JsonValues

  // ----- tokens

  datatype Token = Mark(c: char) | Quoted(s: string) | Word(v: Json)

  function Tokens(v: Json): seq<Token>
    decreases v
  {
    match v
    case Str(s) => [Quoted(s)]
    case Arr(items) => [Mark('[')] + (ItemTokens(items, true) + [Mark(']')])
    case Obj(ms) => [Mark('{')] + (MemberTokens(ms, true) + [Mark('}')])
    case _ => [Word(v)]
  }

  function Comma(first: bool): seq<Token> {
    if first then [] else [Mark(',')]
  }

  function ItemTokens(items: seq<Json>, first: bool): seq<Token>
    decreases items
  {
    if items == [] then [] else Comma(first) + (Tokens(items[0]) + ItemTokens(items[1..], false))
  }

  function KeyedTokens(m: Member): seq<Token>
    decreases m
  {
    [Quoted(m.key), Mark(':')] + Tokens(m.value)
  }

  function MemberTokens(ms: seq<Member>, first: bool): seq<Token>
    decreases ms
  {
    if ms == [] then [] else Comma(first) + (KeyedTokens(ms[0]) + MemberTokens(ms[1..], false))
  }

  predicate IsToken(t: Token) {
    match t
    case Mark(c) => c in ['{', '}', '[', ']', ',', ':']
    case Quoted(_) => true
    case Word(v) => v.Null? || v.Bool? || v.Num?
  }

  ghost predicate AllTokens(tokens: seq<Token>) {
    forall i | 0 <= i < |tokens| :: IsToken(tokens[i])
  }

  function TokenText(t: Token): (text: string)
    ensures text != ""
  {
    match t
    case Mark(c) => [c]
    case Quoted(s) => Quote(s)
    case Word(v) => Print(v)
  }

  /** Space, tab, line feed, vertical tab, form feed and carriage return. */
  predicate Blank(gap: string) {
    forall i | 0 <= i < |gap| :: gap[i] in [' ', '\t', '\n', 11 as char, 12 as char, '\r']
  }

  /** One gap before each token and one at the end. */
  ghost predicate Gaps(gaps: seq<string>, tokens: seq<Token>) {
    |gaps| == |tokens| + 1 && forall i | 0 <= i < |gaps| :: Blank(gaps[i])
  }

  function Spaced(tokens: seq<Token>, gaps: seq<string>): string
    requires |gaps| == |tokens| + 1
  {
    if tokens == [] then gaps[0]
    else gaps[0] + (TokenText(tokens[0]) + Spaced(tokens[1..], gaps[1..]))
  }

  /** The tokens with their gaps, and no gap behind them. */
  function Lead(tokens: seq<Token>, gaps: seq<string>): string
    requires |gaps| == |tokens|
  {
    if tokens == [] then "" else gaps[0] + (TokenText(tokens[0]) + Lead(tokens[1..], gaps[1..]))
  }

  lemma {:induction false} LeadStep(tokens: seq<Token>, gaps: seq<string>, rest: string)
    requires |gaps| == |tokens| > 0
    ensures Lead(tokens, gaps) + rest == gaps[0] + (TokenText(tokens[0]) + (Lead(tokens[1..], gaps[1..]) + rest))
    ensures |Lead(tokens, gaps)| == |gaps[0]| + |TokenText(tokens[0])| + |Lead(tokens[1..], gaps[1..])|
  {
    hide TokenText;
  }

  lemma {:induction false} SpacedJoin(a: seq<Token>, b: seq<Token>, gaps: seq<string>)
    requires |gaps| == |a| + |b| + 1
    ensures Spaced(a + b, gaps) == Lead(a, gaps[..|a|]) + Spaced(b, gaps[|a|..])
  {
    if a == [] {
      assert a + b == b && gaps[0..] == gaps;
      assert "" + Spaced(b, gaps) == Spaced(b, gaps);
    } else {
      assert (a + b)[0] == a[0] && (a + b)[1..] == a[1..] + b;
      assert gaps[..|a|][1..] == gaps[1..][..|a| - 1] && gaps[1..][|a| - 1..] == gaps[|a|..];
      SpacedJoin(a[1..], b, gaps[1..]);
      LeadStep(a, gaps[..|a|], Spaced(b, gaps[|a|..]));
    }
  }

  lemma {:induction false} SpacedStep(tokens: seq<Token>, gaps: seq<string>)
    requires |gaps| == |tokens| + 1 && tokens != []
    ensures Spaced(tokens, gaps) == gaps[0] + (TokenText(tokens[0]) + Spaced(tokens[1..], gaps[1..]))
  {
  }

  // ----- the printed text is the one without gaps

  function Bare(tokens: seq<Token>): string {
    if tokens == [] then "" else TokenText(tokens[0]) + Bare(tokens[1..])
  }

  lemma {:induction false} SpacedBare(tokens: seq<Token>, gaps: seq<string>)
    requires |gaps| == |tokens| + 1 && forall i | 0 <= i < |gaps| :: gaps[i] == ""
    ensures Spaced(tokens, gaps) == Bare(tokens)
  {
    if tokens != [] {
      SpacedBare(tokens[1..], gaps[1..]);
    }
  }

  lemma {:induction false} BareJoin(a: seq<Token>, b: seq<Token>)
    ensures Bare(a + b) == Bare(a) + Bare(b)
  {
    if a == [] {
      assert a + b == b;
    } else {
      assert (a + b)[1..] == a[1..] + b;
      BareJoin(a[1..], b);
    }
  }

  lemma {:induction false} BareOne(t: Token)
    ensures Bare([t]) == TokenText(t)
  {
  }

  lemma {:induction false} BareComma(first: bool)
    ensures Bare(Comma(first)) == Separator(first)
  {
  }

  lemma {:induction false} BareValue(v: Json)
    ensures Bare(Tokens(v)) == Print(v)
    decreases v, 0
  {
    match v
    case Arr(items) =>
      BareItems(items, true);
      hide Bare, ItemTokens, PrintItems;
      BareOne(Mark('['));
      BareOne(Mark(']'));
      BareJoin(ItemTokens(items, true), [Mark(']')]);
      BareJoin([Mark('[')], ItemTokens(items, true) + [Mark(']')]);
    case Obj(ms) =>
      BareMembers(ms, true);
      hide Bare, MemberTokens, PrintMembers;
      BareOne(Mark('{'));
      BareOne(Mark('}'));
      BareJoin(MemberTokens(ms, true), [Mark('}')]);
      BareJoin([Mark('{')], MemberTokens(ms, true) + [Mark('}')]);
    case Str(s) =>
      BareOne(Quoted(s));
    case _ =>
      BareOne(Word(v));
  }

  lemma {:induction false} BareItems(items: seq<Json>, first: bool)
    ensures Bare(ItemTokens(items, first)) == PrintItems(items, first)
    decreases items, 1
  {
    if items != [] {
      var head, tail := Tokens(items[0]), ItemTokens(items[1..], false);
      assert ItemTokens(items, first) == Comma(first) + (head + tail);
      assert PrintItems(items, first) == Separator(first) + Print(items[0]) + PrintItems(items[1..], false);
      hide *;
      BareValue(items[0]);
      BareItems(items[1..], false);
      BareThree(Comma(first), head, tail);
      BareComma(first);
    }
  }

  lemma {:induction false} BareKeyed(m: Member)
    ensures Bare(KeyedTokens(m)) == PrintMember(m)
    decreases m, 1
  {
    BareValue(m.value);
    hide Tokens, Print, Quote;
    BareJoin([Quoted(m.key), Mark(':')], Tokens(m.value));
    assert Bare([Quoted(m.key), Mark(':')]) == Quote(m.key) + ":" by {
      assert [Quoted(m.key), Mark(':')][1..] == [Mark(':')];
      BareOne(Mark(':'));
    }
  }

  lemma {:induction false} BareMembers(ms: seq<Member>, first: bool)
    ensures Bare(MemberTokens(ms, first)) == PrintMembers(ms, first)
    decreases ms, 1
  {
    if ms != [] {
      var head, tail := KeyedTokens(ms[0]), MemberTokens(ms[1..], false);
      assert MemberTokens(ms, first) == Comma(first) + (head + tail);
      assert PrintMembers(ms, first) == Separator(first) + PrintMember(ms[0]) + PrintMembers(ms[1..], false);
      hide *;
      BareKeyed(ms[0]);
      BareMembers(ms[1..], false);
      BareThree(Comma(first), head, tail);
      BareComma(first);
    }
  }

  lemma {:induction false} BareThree(a: seq<Token>, b: seq<Token>, c: seq<Token>)
    ensures Bare(a + (b + c)) == Bare(a) + Bare(b) + Bare(c)
  {
    hide Bare;
    BareJoin(b, c);
    BareJoin(a, b + c);
  }

  function NoGaps(tokens: seq<Token>): (gaps: seq<string>)
    ensures |gaps| == |tokens| + 1 && forall i | 0 <= i < |gaps| :: gaps[i] == ""
  {
    seq(|tokens| + 1, _ => "")
  }

  /** Without gaps the text is the printed one. */
  lemma {:induction false} PrintIsSpaced(v: Json, gaps: seq<string>)
    requires |gaps| == |Tokens(v)| + 1 && forall i | 0 <= i < |gaps| :: gaps[i] == ""
    ensures Spaced(Tokens(v), gaps) == Print(v)
  {
    SpacedBare(Tokens(v), gaps);
    BareValue(v);
  }

  /** The text is that of the value, with any whitespace around its tokens. */
  ghost predicate TextOf(text: string, v: Json) {
    exists gaps :: Gaps(gaps, Tokens(v)) && text == Spaced(Tokens(v), gaps)
  }

  lemma {:induction false} PrintIsText(v: Json)
    ensures TextOf(Print(v), v)
  {
    var none := NoGaps(Tokens(v));
    PrintIsSpaced(v, none);
    assert Gaps(none, Tokens(v));
  }

  // ----- the tokens of an object around one of its members

  function TokensBefore(ms: seq<Member>, i: nat): seq<Token>
    requires i < |ms|
  {
    [Mark('{')] + (MemberTokens(ms[..i], true) + Comma(i == 0))
  }

  function TokensAfter(ms: seq<Member>, i: nat): seq<Token>
    requires i < |ms|
  {
    MemberTokens(ms[i + 1..], false) + [Mark('}')]
  }

  lemma {:induction false} MemberTokensSplit(ms: seq<Member>, i: nat, first: bool)
    requires i < |ms|
    ensures MemberTokens(ms, first)
         == MemberTokens(ms[..i], first)
            + (Comma(first && i == 0) + (KeyedTokens(ms[i]) + MemberTokens(ms[i + 1..], false)))
  {
    assert MemberTokens(ms, first) == Comma(first) + (KeyedTokens(ms[0]) + MemberTokens(ms[1..], false));
    if i > 0 {
      var head := Comma(first) + KeyedTokens(ms[0]);
      var inner := MemberTokens(ms[1..][..i - 1], false);
      var last := Comma(false) + (KeyedTokens(ms[i]) + MemberTokens(ms[i + 1..], false));
      assert ms[..i][0] == ms[0] && ms[..i][1..] == ms[1..][..i - 1];
      assert MemberTokens(ms[..i], first) == Comma(first) + (KeyedTokens(ms[0]) + inner);
      assert ms[1..][i..] == ms[i + 1..] && ms[1..][i - 1] == ms[i];
      hide *;
      MemberTokensSplit(ms[1..], i - 1, false);
      Regrouped(Comma(first), KeyedTokens(ms[0]), inner, last);
    } else {
      assert ms[..0] == [] && MemberTokens([], first) == [];
    }
  }

  lemma {:induction false} Regrouped(a: seq<Token>, b: seq<Token>, c: seq<Token>, d: seq<Token>)
    ensures a + (b + (c + d)) == (a + (b + c)) + d
  {
  }

  lemma {:induction false} ObjectSplit(ms: seq<Member>, i: nat)
    requires i < |ms|
    ensures Tokens(Obj(ms)) == TokensBefore(ms, i) + (KeyedTokens(ms[i]) + TokensAfter(ms, i))
  {
    var before, after := MemberTokens(ms[..i], true), MemberTokens(ms[i + 1..], false);
    assert TokensBefore(ms, i) == [Mark('{')] + (before + Comma(i == 0));
    assert TokensAfter(ms, i) == after + [Mark('}')];
    assert Tokens(Obj(ms)) == [Mark('{')] + (MemberTokens(ms, true) + [Mark('}')]);
    hide *;
    MemberTokensSplit(ms, i, true);
    SplitBraced(Mark('{'), before, Comma(i == 0), KeyedTokens(ms[i]), after, Mark('}'));
  }

  lemma {:induction false} SplitBraced(
    open: Token, before: seq<Token>, comma: seq<Token>, keyed: seq<Token>, after: seq<Token>, close: Token)
    ensures [open] + ((before + (comma + (keyed + after))) + [close])
         == ([open] + (before + comma)) + (keyed + (after + [close]))
  {
  }

  // ----- which token sequences there are

  lemma {:induction false} ValueTokens(v: Json)
    ensures Tokens(v) != [] && AllTokens(Tokens(v)) && Tokens(v)[0] != Mark(':')
    decreases v, 0
  {
    match v
    case Arr(items) => ListTokens(items, true);
    case Obj(ms) => ObjectTokens(ms, true);
    case _ =>
  }

  lemma {:induction false} ListTokens(items: seq<Json>, first: bool)
    ensures AllTokens(ItemTokens(items, first))
    decreases items, 1
  {
    if items != [] {
      ValueTokens(items[0]);
      ListTokens(items[1..], false);
    }
  }

  lemma {:induction false} ObjectTokens(ms: seq<Member>, first: bool)
    ensures AllTokens(MemberTokens(ms, first))
    decreases ms, 1
  {
    if ms != [] {
      ValueTokens(ms[0].value);
      ObjectTokens(ms[1..], false);
    }
  }

  // ----- the shape of such a text

  lemma {:induction false} SpacedEnds(tokens: seq<Token>, gaps: seq<string>)
    requires Gaps(gaps, tokens) && tokens != []
    requires tokens[0].Mark? && tokens[|tokens| - 1].Mark? && IsToken(tokens[0]) && IsToken(tokens[|tokens| - 1])
    ensures var text := Spaced(tokens, gaps);
            && text != ""
            && (if gaps[0] == "" then text[0] == tokens[0].c else text[0] == gaps[0][0])
    ensures var text, n := Spaced(tokens, gaps), |tokens|;
            if gaps[n] == "" then text[|text| - 1] == tokens[n - 1].c
            else text[|text| - 1] == gaps[n][|gaps[n]| - 1]
  {
    SpacedLast(tokens, gaps);
  }

  lemma {:induction false} SpacedLast(tokens: seq<Token>, gaps: seq<string>)
    requires |gaps| == |tokens| + 1 && tokens != [] && tokens[|tokens| - 1].Mark?
    ensures var text, n := Spaced(tokens, gaps), |tokens|;
            && text != ""
            && text[|text| - 1] == if gaps[n] == "" then tokens[n - 1].c else gaps[n][|gaps[n]| - 1]
  {
    hide TokenText;
    SpacedStep(tokens, gaps);
    var rest := Spaced(tokens[1..], gaps[1..]);
    if |tokens| > 1 {
      SpacedLast(tokens[1..], gaps[1..]);
      hide Spaced;
      LastOf(gaps[0], TokenText(tokens[0]), rest);
    } else {
      LastMark(tokens[0], gaps[0], gaps[1]);
    }
  }

  lemma {:induction false} LastOf(a: string, b: string, rest: string)
    requires rest != ""
    ensures var text := a + (b + rest); text != "" && text[|text| - 1] == rest[|rest| - 1]
  {
  }

  lemma {:induction false} LastMark(t: Token, gap: string, last: string)
    requires t.Mark?
    ensures var text := gap + (TokenText(t) + last);
            text != "" && text[|text| - 1] == if last == "" then t.c else last[|last| - 1]
  {
    if last != "" {
      LastOf(gap, TokenText(t), last);
    }
  }
}
