/** Which strings let the key scan find every key of a printed object, which hide keys and which
    forge them. */
module KeyStrings {
  import opened ByteOrder
  import opened Decimal
  import opened JsonValues
  import opened Layout
  import opened KeyScanner
  import opened KeyWalk

  // ----- paired strings do not disturb the scan

  /** How the scan reads the text of a string inside an inner object: escapes do not count
      there, so each quotation mark ends or starts a string for it and braces between an odd
      and the next mark count. None when such a brace closes the object around the string. */
  function Inside(s: string, inString: bool, depth: nat): Option<(bool, nat)> {
    if s == "" then Some((inString, depth))
    else if s[0] == '\"' then Inside(s[1..], !inString, depth)
    else if inString || (s[0] != '{' && s[0] != '}') then Inside(s[1..], inString, depth)
    else if s[0] == '{' then Inside(s[1..], inString, depth + 1)
    else if depth == 0 then None
    else Inside(s[1..], inString, depth - 1)
  }

  /** The quotation marks pair up and the braces between the marks of a pair balance; a string
      without quotation marks is one such. */
  predicate Paired(s: string) {
    Inside(s, true, 0) == Some((true, 0))
  }

  lemma {:induction false} QuoteFreeIsPaired(s: string)
    requires QuoteFreeText(s)
    ensures Paired(s)
  {
    if s != "" {
      QuoteFreeIsPaired(s[1..]);
    }
  }

  /** Every key and every string inside the value is paired. */
  ghost predicate AllPaired(v: Json)
    decreases v
  {
    match v
    case Str(s) => Paired(s)
    case Arr(items) => forall i | 0 <= i < |items| :: AllPaired(items[i])
    case Obj(ms) => forall i | 0 <= i < |ms| :: Paired(ms[i].key) && AllPaired(ms[i].value)
    case _ => true
  }

  /** Below the top level the scan ignores escapes, so strings must be paired there: in the
      objects that a member's value is or holds in an array. */
  ghost predicate Scannable(v: Json)
    decreases v
  {
    match v
    case Arr(items) => forall i | 0 <= i < |items| :: Scannable(items[i])
    case Obj(ms) => AllPaired(v)
    case _ => true
  }

  ghost predicate PairedMember(m: Member) {
    Paired(m.key) && AllPaired(m.value)
  }

  /** At any depth below the top level the string moves the scan as Inside says. */
  lemma {:induction false} InsideWalk(s: string, inString: bool, depth: nat, st: Scanner, base: nat)
    requires base >= 2 && st.inString == inString && st.depth == base + depth
    requires Inside(s, inString, depth).Some?
    ensures var (inString', depth') := Inside(s, inString, depth).value;
            WalkChars(s, st) == Some(st.(inString := inString', depth := base + depth'))
  {
    if s != "" {
      var next := CharNext(s[0], st);
      assert Inside(s, inString, depth) == Inside(s[1..], next.inString, next.depth - base);
      InsideWalk(s[1..], next.inString, next.depth - base, next, base);
    }
  }

  lemma {:induction false} DeepStringWalk(s: string, isKey: bool, st: Scanner)
    requires !st.inString && st.depth >= 2 && Inside(s, true, 0).Some?
    ensures var (inString, depth) := Inside(s, true, 0).value;
            WalkString(s, isKey, Some(st)) == Some(st.(inString := !inString, depth := st.depth + depth))
  {
    InsideWalk(s, true, 0, Flipped(st), st.depth);
  }

  lemma {:induction false} PairedWalk(v: Json, st: Scanner)
    requires AllPaired(v) && !st.inString && st.depth >= 2
    ensures WalkValue(v, Some(st)) == Some(st)
    decreases v, 0
  {
    match v
    case Str(s) => DeepStringWalk(s, false, st);
    case Arr(items) => PairedItemsWalk(items, st);
    case Obj(ms) => PairedMembersWalk(ms, Opened(st));
    case _ =>
  }

  lemma {:induction false} PairedItemsWalk(items: seq<Json>, st: Scanner)
    requires forall i | 0 <= i < |items| :: AllPaired(items[i])
    requires !st.inString && st.depth >= 2
    ensures WalkItems(items, Some(st)) == Some(st)
    decreases items, 1
  {
    if items != [] {
      PairedWalk(items[0], st);
      PairedItemsWalk(items[1..], st);
    }
  }

  lemma {:induction false} PairedMembersWalk(ms: seq<Member>, st: Scanner)
    requires forall i | 0 <= i < |ms| :: PairedMember(ms[i])
    requires !st.inString && st.depth >= 2
    ensures WalkMembers(ms, Some(st)) == Some(st)
    decreases ms, 1
  {
    if ms != [] {
      DeepStringWalk(ms[0].key, true, st);
      PairedWalk(ms[0].value, st);
      PairedMembersWalk(ms[1..], st);
    }
  }

  /** The scan is at the top level. */
  ghost predicate OnTop(st: Scanner) {
    !st.inString && st.depth == 1
  }

  lemma {:induction false} ScannableWalk(v: Json, st: Scanner)
    requires Scannable(v) && OnTop(st)
    ensures WalkValue(v, Some(st)) == Some(st)
    decreases v, 0
  {
    match v
    case Str(s) =>
    case Arr(items) => ScannableItemsWalk(items, st);
    case Obj(ms) => PairedMembersWalk(ms, Opened(st));
    case _ =>
  }

  lemma {:induction false} ScannableItemsWalk(items: seq<Json>, st: Scanner)
    requires forall i | 0 <= i < |items| :: Scannable(items[i])
    requires OnTop(st)
    ensures WalkItems(items, Some(st)) == Some(st)
    decreases items, 1
  {
    if items != [] {
      ScannableWalk(items[0], st);
      ScannableItemsWalk(items[1..], st);
    }
  }

  lemma {:induction false} ScannableMembersWalk(ms: seq<Member>, st: Scanner)
    requires forall i | 0 <= i < |ms| :: Scannable(ms[i].value)
    requires OnTop(st)
    ensures WalkMembers(ms, Some(st)) == Some(st.(keys := ReadKeys(ms, st.keys)))
  {
    if ms != [] {
      var next := st.(keys := Insert(st.keys, ReadKey(ms[0].key)));
      ScannableWalk(ms[0].value, next);
      ScannableMembersWalk(ms[1..], next);
    }
  }

  /** When the strings in the objects inside are paired, each key is found, as the scan reads
      it, and nothing else. */
  lemma {:induction false} PairedFound(ms: seq<Member>)
    requires forall i | 0 <= i < |ms| :: Scannable(ms[i].value)
    ensures FoundKeys(ms) == Some(ReadKeys(ms, []))
  {
    ScannableMembersWalk(ms, Opened(Start));
  }

  lemma {:induction false} ScanFindsReadKeys(ms: seq<Member>)
    requires forall i | 0 <= i < |ms| :: Scannable(ms[i].value)
    ensures TopLevelKeys(Print(Obj(ms))) == ReadKeys(ms, [])
  {
    PairedFound(ms);
    ScanFollowsWalk(ms);
  }

  /** The scan returns an object's own keys exactly when no key has a control character. */
  lemma {:induction false} ScanFindsKeysExactly(ms: seq<Member>)
    requires Sorted(ms)
    requires forall i | 0 <= i < |ms| :: Scannable(ms[i].value)
    ensures TopLevelKeys(Print(Obj(ms))) == KeysOf(ms)
       <==> forall i | 0 <= i < |ms| :: NoControl(ms[i].key)
  {
    ScanFindsReadKeys(ms);
    ReadKeysExactly(ms);
  }

  // ----- an unpaired string hides what follows

  /** A string that is not paired but leaves the object around it open. */
  predicate Unpaired(s: string) {
    Inside(s, true, 0).Some? && !Paired(s)
  }

  /** Free of quotation marks and braces. */
  predicate InertText(s: string) {
    forall i | 0 <= i < |s| :: Inert(s[i])
  }

  ghost predicate AllInert(v: Json)
    decreases v
  {
    match v
    case Str(s) => InertText(s)
    case Arr(items) => forall i | 0 <= i < |items| :: AllInert(items[i])
    case Obj(ms) => forall i | 0 <= i < |ms| :: InertMember(ms[i])
    case _ => true
  }

  ghost predicate InertMember(m: Member)
    decreases m
  {
    InertText(m.key) && AllInert(m.value)
  }

  /** The value holds an unpaired string in an object, at any depth, as a value or as a key;
      the strings before it do not disturb the scan, and those after it are inert. The flag
      says whether the value is itself inside such an object. */
  ghost predicate Spoiled(v: Json, inObject: bool)
    decreases v
  {
    match v
    case Str(s) => inObject && Unpaired(s)
    case Arr(items) =>
      exists k | 0 <= k < |items| ::
        && Spoiled(items[k], inObject)
        && (forall j | 0 <= j < k :: if inObject then AllPaired(items[j]) else Scannable(items[j]))
        && (forall j | k < j < |items| :: AllInert(items[j]))
    case Obj(ms) =>
      exists k | 0 <= k < |ms| ::
        && SpoiledMember(ms[k])
        && (forall j | 0 <= j < k :: PairedMember(ms[j]))
        && (forall j | k < j < |ms| :: InertMember(ms[j]))
    case _ => false
  }

  ghost predicate SpoiledMember(m: Member)
    decreases m
  {
    if Paired(m.key) then Spoiled(m.value, true) else Unpaired(m.key) && AllInert(m.value)
  }

  /** The scan is inside a string for good, or too deep by at least one object. */
  ghost predicate Astray(st: Scanner, w: Option<Scanner>) {
    && w.Some? && w.value.keys == st.keys
    && w.value.depth >= 2 && (w.value.inString || w.value.depth > st.depth)
  }

  lemma {:induction false} InertChars(s: string, st: Scanner)
    requires InertText(s) && st.depth != 1
    ensures WalkChars(s, st) == Some(st)
  {
    if s != "" {
      InertChars(s[1..], st);
    }
  }

  /** Inert values do not move the scan away from the top level, whichever way it reads them. */
  lemma {:induction false} InertWalk(v: Json, st: Scanner)
    requires AllInert(v) && st.depth >= 2
    ensures WalkValue(v, Some(st)) == Some(st)
    decreases v, 0
  {
    match v
    case Str(s) => InertChars(s, Flipped(st));
    case Arr(items) => InertItemsWalk(items, st);
    case Obj(ms) => InertMembersWalk(ms, Opened(st));
    case _ =>
  }

  lemma {:induction false} InertItemsWalk(items: seq<Json>, st: Scanner)
    requires forall i | 0 <= i < |items| :: AllInert(items[i])
    requires st.depth >= 2
    ensures WalkItems(items, Some(st)) == Some(st)
    decreases items, 1
  {
    if items != [] {
      InertWalk(items[0], st);
      InertItemsWalk(items[1..], st);
    }
  }

  lemma {:induction false} InertMembersWalk(ms: seq<Member>, st: Scanner)
    requires forall i | 0 <= i < |ms| :: InertMember(ms[i])
    requires st.depth >= 2
    ensures WalkMembers(ms, Some(st)) == Some(st)
    decreases ms, 1
  {
    if ms != [] {
      InertChars(ms[0].key, Flipped(st));
      InertWalk(ms[0].value, st);
      InertMembersWalk(ms[1..], st);
    }
  }

  lemma {:induction false} ItemsSplit(items: seq<Json>, k: nat, w: Option<Scanner>)
    requires k < |items|
    ensures WalkItems(items, w) == WalkItems(items[k + 1..], WalkValue(items[k], WalkItems(items[..k], w)))
  {
    if k > 0 {
      ItemsSplit(items[1..], k - 1, WalkValue(items[0], w));
      assert items[..k][1..] == items[1..][..k - 1] && items[1..][k..] == items[k + 1..];
    }
  }

  lemma {:induction false} MembersSplit(ms: seq<Member>, k: nat, w: Option<Scanner>)
    requires k < |ms|
    ensures WalkMembers(ms, w) == WalkMembers(ms[k + 1..], WalkMember(ms[k], WalkMembers(ms[..k], w)))
  {
    if k > 0 {
      MembersSplit(ms[1..], k - 1, WalkMember(ms[0], w));
      assert ms[..k][1..] == ms[1..][..k - 1] && ms[1..][k..] == ms[k + 1..];
    }
  }

  lemma {:induction false} SpoiledString(s: string, isKey: bool, st: Scanner)
    requires Unpaired(s) && !st.inString && st.depth >= 2
    ensures Astray(st, WalkString(s, isKey, Some(st)))
  {
    DeepStringWalk(s, isKey, st);
    var (inString, depth) := Inside(s, true, 0).value;
    assert inString ==> depth > 0;
  }

  lemma {:induction false} SpoiledWalk(v: Json, inObject: bool, st: Scanner)
    requires Spoiled(v, inObject) && !st.inString
    requires if inObject then st.depth >= 2 else st.depth == 1
    ensures Astray(st, WalkValue(v, Some(st)))
    decreases v, 0
  {
    match v
    case Str(s) => SpoiledString(s, false, st);
    case Arr(items) => SpoiledItemsWalk(items, inObject, st);
    case Obj(ms) => SpoiledMembersWalk(ms, Opened(st));
  }

  lemma {:induction false} SpoiledItemsWalk(items: seq<Json>, inObject: bool, st: Scanner)
    requires Spoiled(Arr(items), inObject) && !st.inString
    requires if inObject then st.depth >= 2 else st.depth == 1
    ensures Astray(st, WalkItems(items, Some(st)))
    decreases items, 1
  {
    var k :| && 0 <= k < |items| && Spoiled(items[k], inObject)
             && (forall j | 0 <= j < k :: if inObject then AllPaired(items[j]) else Scannable(items[j]))
             && (forall j | k < j < |items| :: AllInert(items[j]));
    ItemsSplit(items, k, Some(st));
    if inObject {
      PairedItemsWalk(items[..k], st);
    } else {
      ScannableItemsWalk(items[..k], st);
    }
    SpoiledWalk(items[k], inObject, st);
    InertItemsWalk(items[k + 1..], WalkValue(items[k], Some(st)).value);
  }

  lemma {:induction false} SpoiledMembersWalk(ms: seq<Member>, st: Scanner)
    requires Spoiled(Obj(ms), true) && !st.inString && st.depth >= 2
    ensures Astray(st, WalkMembers(ms, Some(st)))
    decreases ms, 1
  {
    var k :| && 0 <= k < |ms| && SpoiledMember(ms[k])
             && (forall j | 0 <= j < k :: PairedMember(ms[j]))
             && (forall j | k < j < |ms| :: InertMember(ms[j]));
    MembersSplit(ms, k, Some(st));
    PairedMembersWalk(ms[..k], st);
    SpoiledMemberWalk(ms[k], st);
    InertMembersWalk(ms[k + 1..], WalkMember(ms[k], Some(st)).value);
  }

  lemma {:induction false} SpoiledMemberWalk(m: Member, st: Scanner)
    requires SpoiledMember(m) && !st.inString && st.depth >= 2
    ensures Astray(st, WalkMember(m, Some(st)))
    decreases m, 1
  {
    if Paired(m.key) {
      DeepStringWalk(m.key, true, st);
      SpoiledWalk(m.value, true, st);
    } else {
      SpoiledString(m.key, true, st);
      InertWalk(m.value, WalkString(m.key, true, Some(st)).value);
    }
  }

  /** One unpaired string hides the keys of all later members: the scan finds the keys up to
      the member that holds it and no other. */
  lemma {:induction false} UnpairedHidesRest(ms: seq<Member>, i: nat)
    requires i < |ms| && Spoiled(ms[i].value, false)
    requires forall j | 0 <= j < i :: Scannable(ms[j].value)
    requires forall j | i < j < |ms| :: InertMember(ms[j])
    ensures TopLevelKeys(Print(Obj(ms))) == ReadKeys(ms[..i + 1], [])
  {
    var top := Opened(Start);
    var before := top.(keys := ReadKeys(ms[..i], []));
    var keyed := before.(keys := Insert(before.keys, ReadKey(ms[i].key)));
    MembersSplit(ms, i, Some(top));
    ScannableMembersWalk(ms[..i], top);
    SpoiledWalk(ms[i].value, false, keyed);
    InertMembersWalk(ms[i + 1..], WalkValue(ms[i].value, Some(keyed)).value);
    ReadKeysLast(ms[..i + 1], []);
    assert ms[..i + 1][..i] == ms[..i];
    ScanFollowsWalk(ms);
  }

  lemma {:induction false} ReadKeysLast(ms: seq<Member>, acc: seq<string>)
    requires ms != []
    ensures var n := |ms| - 1;
            ReadKeys(ms, acc) == Insert(ReadKeys(ms[..n], acc), ReadKey(ms[n].key))
  {
    var n := |ms| - 1;
    if n > 0 {
      ReadKeysLast(ms[1..], Insert(acc, ReadKey(ms[0].key)));
      assert ms[..n][1..] == ms[1..][..n - 1];
    }
  }

  /** In {"a":{"b":s},"c":null}, for every string s that does not close the object around it,
      the scan finds both keys exactly when s is paired; otherwise the key "c" goes unseen. */
  lemma {:induction false} InnerStringExact(s: string)
    requires Inside(s, true, 0).Some?
    ensures var ms := [Member("a", Obj([Member("b", Str(s))])), Member("c", Null)];
            TopLevelKeys(Print(Obj(ms))) == if Paired(s) then KeysOf(ms) else ["a"]
  {
    var inner := [Member("b", Str(s))];
    var ms := [Member("a", Obj(inner)), Member("c", Null)];
    assert Paired("b");
    if Paired(s) {
      assert Scannable(ms[0].value) && Scannable(ms[1].value);
      ScanFindsKeysExactly(ms);
    } else {
      assert SpoiledMember(inner[0]);
      assert Spoiled(ms[0].value, false);
      UnpairedHidesRest(ms, 0);
      assert ms[..1] == [ms[0]];
      ReadKeyExact("a");
    }
  }

  // ----- a second one can bring the scan back

  function QuoteCount(s: string): nat {
    if s == "" then 0 else QuoteCount(s[1..]) + if s[0] == '\"' then 1 else 0
  }

  predicate BraceFree(s: string) {
    forall i | 0 <= i < |s| :: s[i] != '{' && s[i] != '}'
  }

  lemma {:induction false} BraceFreeChars(s: string, st: Scanner)
    requires BraceFree(s) && st.depth != 1
    ensures WalkChars(s, st) == Some(if QuoteCount(s) % 2 == 1 then Flipped(st) else st)
  {
    if s != "" {
      BraceFreeChars(s[1..], CharNext(s[0], st));
    }
  }

  /** A string without braces flips the scan exactly when its number of quotation marks is odd. */
  lemma {:induction false} BraceFreeWalk(s: string, isKey: bool, st: Scanner)
    requires BraceFree(s) && st.depth != 1
    ensures WalkString(s, isKey, Some(st)) == Some(if QuoteCount(s) % 2 == 1 then Flipped(st) else st)
  {
    BraceFreeChars(s, Flipped(st));
  }

  lemma {:induction false} OneFieldWalk(key: string, s: string, w: Option<Scanner>)
    ensures WalkValue(Obj([Member(key, Str(s))]), w)
         == WalkClose(WalkString(s, false, WalkString(key, true, WalkOpen(w))))
  {
    var ms := [Member(key, Str(s))];
    assert WalkMembers(ms, WalkOpen(w)) == WalkMembers(ms[1..], WalkMember(ms[0], WalkOpen(w)));
    assert ms[1..] == [];
  }

  /** In {"a":{"b":s},"c":{"d":t},"e":v}, whatever the keys are called, with an odd number of
      quotation marks in s and in t and no braces there, the second string undoes the first:
      the key "c" goes unseen, and "e" is found again. */
  lemma {:induction false} UnpairedUndoesUnpaired(
    a: string, b: string, s: string, c: string, d: string, t: string, e: string, v: Json)
    requires BraceFree(s) && BraceFree(t) && QuoteCount(s) % 2 == QuoteCount(t) % 2 == 1
    requires InertText(b) && InertText(c) && InertText(d) && Scannable(v)
    ensures var ms := [Member(a, Obj([Member(b, Str(s))])), Member(c, Obj([Member(d, Str(t))])), Member(e, v)];
            TopLevelKeys(Print(Obj(ms))) == Insert([ReadKey(a)], ReadKey(e))
  {
    var x, y, z := Member(a, Obj([Member(b, Str(s))])), Member(c, Obj([Member(d, Str(t))])), Member(e, v);
    var top := Opened(Start).(keys := [ReadKey(a)]);
    var deep := Opened(top);
    OneFieldWalk(b, s, Some(top));
    InertChars(b, Flipped(deep));
    BraceFreeWalk(s, false, deep);
    assert WalkMember(x, Some(Opened(Start))) == Some(Flipped(deep));
    InertChars(c, deep);
    OneFieldWalk(d, t, Some(Flipped(deep)));
    InertChars(d, deep);
    BraceFreeWalk(t, false, Flipped(deep));
    assert WalkMember(y, Some(Flipped(deep))) == Some(top);
    var last := top.(keys := Insert(top.keys, ReadKey(e)));
    ScannableWalk(v, last);
    assert WalkMember(z, Some(top)) == Some(last);
    hide WalkMember, WalkMembers;
    ThreeMembersWalk(x, y, z, Some(Opened(Start)));
    ScanFollowsWalk([x, y, z]);
  }

  lemma {:induction false} ThreeMembersWalk(x: Member, y: Member, z: Member, w: Option<Scanner>)
    ensures WalkMembers([x, y, z], w) == WalkMember(z, WalkMember(y, WalkMember(x, w)))
  {
    var after := WalkMember(x, w);
    assert [x, y, z][1..] == [y, z] && [y, z][1..] == [z] && [z][1..] == [];
    assert WalkMembers([z], WalkMember(y, after)) == WalkMember(z, WalkMember(y, after));
    assert WalkMembers([y, z], after) == WalkMembers([z], WalkMember(y, after));
  }

  // ----- a string can forge a key

  lemma {:induction false} EscapedFirst(c: char, s: string, rest: string)
    ensures Escape([c] + s) + rest == EscapeChar(c) + (Escape(s) + rest)
  {
    assert ([c] + s)[1..] == s;
    EscapedText([c] + s, rest);
  }

  lemma {:induction false} EscapedMarkText(rest: string)
    ensures EscapeChar('\"') + rest == "\\" + ("\"" + rest)
    ensures EscapeChar('}') == "}" && EscapeChar(',') == ","
  {
  }

  lemma {:induction false} ForgingText(b: string, rest: string)
    ensures Quote("\"},\"" + b) + rest
         == "\"" + ("\\" + ("\"" + ("}" + ("," + ("\\" + (Quote(b) + rest))))))
  {
    var text := "\"" + rest;
    assert "\"},\"" + b == ['\"'] + (['}'] + ([','] + (['\"'] + b)));
    hide *;
    StringText("\"},\"" + b, rest);
    StringText(b, rest);
    EscapedFirst('\"', ['}'] + ([','] + (['\"'] + b)), text);
    EscapedFirst('}', [','] + (['\"'] + b), text);
    EscapedFirst(',', ['\"'] + b, text);
    EscapedFirst('\"', b, text);
    EscapedMarkText(Escape(b) + text);
    EscapedMarkText("}" + ("," + ("\\" + (Quote(b) + rest))));
  }

  /** Inside an object of the top level the string closes that object for the scan, and its end
      is read as a string of the top level. */
  lemma {:induction false} ForgingScan(b: string, rest: string, st: Scanner)
    requires Calm(st) && !st.inString && st.depth == 2 && ColonFollows(rest)
    ensures Scan(Quote("\"},\"" + b) + rest, st)
         == Scan(rest, st.(depth := 1, keys := Insert(st.keys, ReadKey(b))))
  {
    ForgingText(b, rest);
    hide Scan, Quote;
    var top := Closed(st);
    var tail := "," + ("\\" + (Quote(b) + rest));
    MarkFlips("\\" + ("\"" + ("}" + tail)), st);
    PassChar('\\', "\"" + ("}" + tail), Flipped(st));
    MarkFlips("}" + tail, Flipped(st));
    CloseScans(tail, st);
    PassChar(',', "\\" + (Quote(b) + rest), top);
    PassChar('\\', Quote(b) + rest, top);
    ReadString(b, rest, top);
  }

  lemma {:induction false} OneMemberText(m: Member, rest: string)
    ensures Print(Obj([m])) + rest == "{" + (Quote(m.key) + (":" + (Print(m.value) + ("}" + rest))))
  {
    ObjectText([m], rest);
    MembersText([m], "}" + rest);
    assert [m][1..] == [] && PrintMembers([m][1..], false) + ("}" + rest) == "}" + rest;
    MemberText(m, "}" + rest);
    StringText(m.key, ":" + (Print(m.value) + ("}" + rest)));
  }

  /** In {"a":{"\"},\"b":v}} the inner key closes its object for the scan, and the end of it is
      found as a key of its own. */
  lemma {:induction false} ForgedKeyFound(a: string, b: string, v: Json)
    requires Scannable(v)
    ensures var ms := [Member(a, Obj([Member("\"},\"" + b, v)]))];
            TopLevelKeys(Print(Obj(ms))) == Insert([ReadKey(a)], ReadKey(b))
  {
    var inner := Member("\"},\"" + b, v);
    var outer := Member(a, Obj([inner]));
    var top := Opened(Start);
    var keyed := top.(keys := [ReadKey(a)]);
    var rest := ":" + (Print(v) + ("}" + "}"));
    assert WalkString(a, true, Some(top)) == Some(keyed);
    assert ColonFollows(rest);
    assert Print(Obj([outer])) + "" == Print(Obj([outer]));
    assert "}" + "" == "}";
    var body := Quote(inner.key) + rest;
    assert ColonFollows(":" + ("{" + body));
    hide Scan, Print, Quote, ColonFollows, WalkString;
    OneMemberText(outer, "");
    OneMemberText(inner, "}");
    OpenScans(Quote(a) + (":" + ("{" + body)), Start);
    StringScans(a, true, ":" + ("{" + body), top);
    PassChar(':', "{" + body, keyed);
    OpenScans(body, keyed);
    ForgingScan(b, rest, Opened(keyed));
    ForgedRest(v, keyed.(keys := Insert(keyed.keys, ReadKey(b))));
  }

  /** Behind the forged key the value is read at the top level, and two braces close. */
  lemma {:induction false} ForgedRest(v: Json, st: Scanner)
    requires Scannable(v) && OnTop(st) && Calm(st)
    ensures Scan(":" + (Print(v) + ("}" + "}")), st).keys == st.keys
  {
    var closing := [Mark('}'), Mark('}')];
    var tokens := Tokens(v) + closing;
    var none := NoGaps(tokens);
    ScannableWalk(v, st);
    ValueWalk(v, closing, Some(st));
    FirstToken(Mark('}'), [Mark('}')], Some(st));
    FirstToken(Mark('}'), [], Some(Closed(st)));
    assert closing == [Mark('}')] + [Mark('}')] && [Mark('}')] + [] == [Mark('}')];
    ValueTokens(v);
    assert Bare(closing) == "}" + "}" by {
      assert closing[1..] == [Mark('}')];
      BareOne(Mark('}'));
    }
    hide Scan, WalkTokens, Tokens, Print, Bare;
    BareValue(v);
    BareJoin(Tokens(v), closing);
    SpacedBare(tokens, none);
    TokensScan(tokens, none, st);
    PassChar(':', Print(v) + ("}" + "}"), st);
  }
}
