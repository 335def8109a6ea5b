/** ExtractTopLevelKeys, the one-pass scan for the keys of a request body, and how it reads
    single strings. */
module KeyScanner {
  import opened ByteOrder
  import opened Decimal
  import opened JsonValues

  /** std::isspace in the C locale. */
  predicate IsSpace(c: char) {
    c == ' ' || 9 <= c as int <= 13
  }

  /** After any whitespace comes a colon. */
  predicate ColonFollows(text: string) {
    text != "" && (if IsSpace(text[0]) then ColonFollows(text[1..]) else text[0] == ':')
  }

  datatype Scanner = Scanner(inString: bool, escape: bool, depth: int, current: string, keys: seq<string>)

  const Start := Scanner(false, false, 0, "", [])

  /** The scanner after character c, when the given text follows it. */
  function Advance(st: Scanner, c: char, following: string): Scanner {
    if !st.inString && c == '{' then st.(depth := st.depth + 1)
    else if !st.inString && c == '}' then st.(depth := st.depth - 1)
    else if c == '\"' && !st.escape then
      if st.inString && st.depth == 1 then
        Scanner(false, st.escape, st.depth, "",
                if ColonFollows(following) then Insert(st.keys, st.current) else st.keys)
      else st.(inString := !st.inString)
    else if st.inString && st.depth == 1 then
      if st.escape then st.(current := st.current + [c], escape := false)
      else if c == '\\' then st.(escape := true)
      else st.(current := st.current + [c])
    else st
  }

  function Scan(text: string, st: Scanner): Scanner {
    if text == "" then st else Scan(text[1..], Advance(st, text[0], text[1..]))
  }

  /** The keys the scan collects from a body. */
  function TopLevelKeys(body: string): seq<string> {
    Scan(body, Start).keys
  }

  method LooksAheadToColon(body: string, start: nat) returns (found: bool)
    requires start <= |body|
    ensures found <==> ColonFollows(body[start..])
  {
    var j := start;
    while j < |body| && IsSpace(body[j])
      invariant start <= j <= |body|
      invariant ColonFollows(body[start..]) <==> ColonFollows(body[j..])
    {
      assert body[j..][1..] == body[j + 1..];
      j := j + 1;
    }
    found := j < |body| && body[j] == ':';
  }

  method ExtractTopLevelKeys(body: string) returns (keys: seq<string>)
    ensures keys == TopLevelKeys(body)
  {
    keys := [];
    var inString, escape, depth, current := false, false, 0, "";
    assert body[0..] == body;
    for i := 0 to |body|
      invariant Scan(body, Start) == Scan(body[i..], Scanner(inString, escape, depth, current, keys))
    {
      var c := body[i];
      assert body[i..][0] == c && body[i..][1..] == body[i + 1..];
      if !inString && c == '{' {
        depth := depth + 1;
        continue;
      }
      if !inString && c == '}' {
        depth := depth - 1;
        continue;
      }
      if c == '\"' && !escape {
        inString := !inString;
        if !inString && depth == 1 {
          var colon := LooksAheadToColon(body, i + 1);
          if colon {
            keys := Insert(keys, current);
          }
          current := "";
        }
        continue;
      }
      if inString && depth == 1 {
        if escape {
          current := current + [c];
          escape := false;
          continue;
        }
        if c == '\\' {
          escape := true;
          continue;
        }
        current := current + [c];
      }
    }
    assert body[|body|..] == "";
  }

  // ----- what the scan reads a key as

  /** A scanned key: each escape sequence of its text loses only the backslash. */
  function ReadChar(c: char): string {
    var e := EscapeChar(c);
    if e[0] == '\\' then e[1..] else e
  }

  function ReadKey(key: string): string {
    if key == "" then "" else ReadChar(key[0]) + ReadKey(key[1..])
  }

  predicate NoControl(s: string) {
    forall i | 0 <= i < |s| :: s[i] >= ' '
  }

  lemma {:induction false} ReadKeyHasNoControl(key: string)
    ensures NoControl(ReadKey(key))
  {
    if key != "" {
      ReadKeyHasNoControl(key[1..]);
    }
  }

  /** A key is read as itself exactly when it has no control character. */
  lemma {:induction false} ReadKeyExact(key: string)
    ensures ReadKey(key) == key <==> NoControl(key)
  {
    ReadKeyHasNoControl(key);
    if NoControl(key) && key != "" {
      ReadKeyExact(key[1..]);
      assert key == [key[0]] + key[1..];
    }
  }

  // ----- stretches of text the scan passes over

  predicate Inert(c: char) {
    c != '\"' && c != '{' && c != '}'
  }

  lemma {:induction false} PassInert(text: string, rest: string, st: Scanner)
    requires forall i | 0 <= i < |text| :: Inert(text[i])
    requires st.inString ==> st.depth != 1
    ensures Scan(text + rest, st) == Scan(rest, st)
  {
    if text == "" {
      assert text + rest == rest;
    } else {
      assert (text + rest)[1..] == text[1..] + rest;
      PassInert(text[1..], rest, st);
    }
  }

  lemma {:induction false} PassChar(c: char, rest: string, st: Scanner)
    requires Inert(c) && (st.inString ==> st.depth != 1)
    ensures Scan([c] + rest, st) == Scan(rest, st)
  {
    PassInert([c], rest, st);
  }

  predicate QuoteFreeText(s: string) {
    forall i | 0 <= i < |s| :: s[i] != '\"'
  }

  lemma {:induction false} ScanStep(c: char, rest: string, st: Scanner)
    ensures Scan([c] + rest, st) == Scan(rest, Advance(st, c, rest))
  {
  }

  lemma {:induction false} ScalarInert(v: Json)
    requires v.Null? || v.Bool? || v.Num?
    ensures forall i | 0 <= i < |Print(v)| :: Inert(Print(v)[i])
  {
    if v.Num? {
      forall i | 0 <= i < |Print(v)| ensures Inert(Print(v)[i]) {
        assert Print(v)[i] == '-' || IsDigit(Print(v)[i]);
      }
    }
  }

  // ----- the top level

  lemma {:induction false} ReadCurrent(current: string, s: string)
    requires s != ""
    ensures current + ReadChar(s[0]) + ReadKey(s[1..]) == current + ReadKey(s)
  {
  }

  lemma {:induction false} ReadText(s: string, rest: string, st: Scanner)
    requires st.inString && !st.escape && st.depth == 1
    ensures Scan(Escape(s) + rest, st) == Scan(rest, st.(current := st.current + ReadKey(s)))
  {
    if s == "" {
      assert Escape(s) + rest == rest && st.current + ReadKey(s) == st.current;
    } else {
      var next := st.(current := st.current + ReadChar(s[0]));
      EscapedText(s, rest);
      ReadEscape(s[0], Escape(s[1..]) + rest, st);
      ReadText(s[1..], rest, next);
      ReadCurrent(st.current, s);
    }
  }

  lemma {:induction false} ReadLiteral(text: string, rest: string, st: Scanner)
    requires forall i | 0 <= i < |text| :: text[i] != '\"' && text[i] != '\\'
    requires st.inString && !st.escape && st.depth == 1
    ensures Scan(text + rest, st) == Scan(rest, st.(current := st.current + text))
  {
    if text == "" {
      assert text + rest == rest && st.current + text == st.current;
    } else {
      assert (text + rest)[1..] == text[1..] + rest;
      ReadLiteral(text[1..], rest, st.(current := st.current + [text[0]]));
      assert st.current + [text[0]] + text[1..] == st.current + text;
    }
  }

  lemma {:induction false} EscapeParts(e: string, rest: string, current: string)
    requires |e| >= 2
    ensures e + rest == [e[0]] + ([e[1]] + (e[2..] + rest))
    ensures current + [e[1]] + e[2..] == current + e[1..]
  {
  }

  lemma {:induction false} ReadEscape(c: char, rest: string, st: Scanner)
    requires st.inString && !st.escape && st.depth == 1
    ensures Scan(EscapeChar(c) + rest, st) == Scan(rest, st.(current := st.current + ReadChar(c)))
  {
    var e := EscapeChar(c);
    if e[0] == '\\' {
      var escaped := st.(escape := true);
      var read := st.(current := st.current + [e[1]]);
      assert forall i | 0 <= i < |e[2..]| :: e[2..][i] != '\"' && e[2..][i] != '\\';
      assert ReadChar(c) == e[1..];
      hide EscapeChar, Scan, ReadChar;
      EscapeParts(e, rest, st.current);
      ScanStep('\\', [e[1]] + (e[2..] + rest), st);
      ScanStep(e[1], e[2..] + rest, escaped);
      ReadLiteral(e[2..], rest, read);
    } else {
      ReadLiteral(e, rest, st);
    }
  }

  ghost predicate AtTop(st: Scanner) {
    !st.inString && !st.escape && st.depth == 1 && st.current == ""
  }

  /** A string at the top level is taken for a key exactly when a colon follows. */
  lemma {:induction false} ReadString(s: string, rest: string, st: Scanner)
    requires AtTop(st)
    ensures Scan(Quote(s) + rest, st)
         == Scan(rest, if ColonFollows(rest) then st.(keys := Insert(st.keys, ReadKey(s))) else st)
  {
    var inside := st.(inString := true);
    StringText(s, rest);
    ScanStep('\"', Escape(s) + ("\"" + rest), st);
    ReadText(s, "\"" + rest, inside);
    assert "" + ReadKey(s) == ReadKey(s);
    ScanStep('\"', rest, inside.(current := ReadKey(s)));
  }

  // ----- the keys of an object as the scan reads them

  function ReadKeys(ms: seq<Member>, acc: seq<string>): seq<string> {
    if ms == [] then acc else ReadKeys(ms[1..], Insert(acc, ReadKey(ms[0].key)))
  }

  function KeysOf(ms: seq<Member>): (keys: seq<string>)
    ensures |keys| == |ms| && forall i | 0 <= i < |ms| :: keys[i] == ms[i].key
  {
    seq(|ms|, i requires 0 <= i < |ms| => ms[i].key)
  }

  lemma {:induction false} ReadKeysMembers(ms: seq<Member>, acc: seq<string>)
    requires Ascending(acc)
    ensures Ascending(ReadKeys(ms, acc))
    ensures forall k :: k in ReadKeys(ms, acc) <==> k in acc || exists i | 0 <= i < |ms| :: ReadKey(ms[i].key) == k
  {
    if ms != [] {
      var key := ReadKey(ms[0].key);
      InsertIsSetInsert(acc, key);
      ReadKeysMembers(ms[1..], Insert(acc, key));
      forall k ensures k in ReadKeys(ms, acc) <==> k in acc || exists i | 0 <= i < |ms| :: ReadKey(ms[i].key) == k {
        if k in ReadKeys(ms, acc) && k !in acc && k != key {
          var i :| 0 <= i < |ms[1..]| && ReadKey(ms[1..][i].key) == k;
          assert ReadKey(ms[i + 1].key) == k;
        }
        if i :| 0 <= i < |ms| && ReadKey(ms[i].key) == k {
          assert i == 0 || ReadKey(ms[1..][i - 1].key) == k;
        }
      }
    }
  }

  lemma {:induction false} ReadKeysPlain(ms: seq<Member>, acc: seq<string>)
    requires forall i | 0 <= i < |ms| :: NoControl(ms[i].key)
    requires Ascending(acc + KeysOf(ms))
    ensures ReadKeys(ms, acc) == acc + KeysOf(ms)
  {
    if ms == [] {
      assert acc + KeysOf(ms) == acc;
    } else {
      ReadKeyExact(ms[0].key);
      hide NoControl, ReadKey, Less, Insert;
      NextKeyLast(ms, acc);
      ReadKeysPlain(ms[1..], acc + [ms[0].key]);
    }
  }

  lemma {:induction false} NextKeyLast(ms: seq<Member>, acc: seq<string>)
    requires ms != [] && Ascending(acc + KeysOf(ms))
    ensures Insert(acc, ms[0].key) == acc + [ms[0].key]
    ensures acc + [ms[0].key] + KeysOf(ms[1..]) == acc + KeysOf(ms)
  {
    var all := acc + KeysOf(ms);
    hide Less, Insert;
    forall i | 0 <= i < |acc| ensures Less(acc[i], ms[0].key) {
      assert all[i] == acc[i] && all[|acc|] == ms[0].key;
    }
    InsertLast(acc, ms[0].key);
  }

  lemma {:induction false} ReadKeysExactly(ms: seq<Member>)
    requires Sorted(ms)
    ensures ReadKeys(ms, []) == KeysOf(ms) <==> forall i | 0 <= i < |ms| :: NoControl(ms[i].key)
  {
    KeysAscending(ms);
    hide ReadKeys, NoControl, Ascending, Sorted;
    if i :| 0 <= i < |ms| && !NoControl(ms[i].key) {
      ControlKeyMissed(ms, i);
      assert KeysOf(ms)[i] == ms[i].key;
    } else {
      assert [] + KeysOf(ms) == KeysOf(ms);
      ReadKeysPlain(ms, []);
    }
  }

  lemma {:induction false} KeysAscending(ms: seq<Member>)
    requires Sorted(ms)
    ensures Ascending(KeysOf(ms))
  {
  }

  lemma {:induction false} ControlKeyMissed(ms: seq<Member>, i: nat)
    requires i < |ms| && !NoControl(ms[i].key)
    ensures ms[i].key !in ReadKeys(ms, [])
  {
    ReadKeysMembers(ms, []);
    if ms[i].key in ReadKeys(ms, []) {
      var j :| 0 <= j < |ms| && ReadKey(ms[j].key) == ms[i].key;
      ReadKeyHasNoControl(ms[j].key);
    }
  }
}
