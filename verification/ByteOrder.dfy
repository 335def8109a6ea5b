/** The order std::string compares by, and std::set<std::string> as the strictly
    ascending sequence its iterators walk. */
module ByteOrder {

  predicate Less(a: string, b: string) {
    b != "" && (a == "" || a[0] < b[0] || (a[0] == b[0] && Less(a[1..], b[1..])))
  }

  lemma {:induction false} LessTotal(a: string, b: string)
    ensures Less(a, b) || a == b || Less(b, a)
  {
    if a != "" && b != "" && a[0] == b[0] {
      LessTotal(a[1..], b[1..]);
      assert a == [a[0]] + a[1..] && b == [b[0]] + b[1..];
    }
  }

  lemma {:induction false} LessAsymmetric(a: string, b: string)
    requires Less(a, b)
    ensures a != b && !Less(b, a)
  {
    if a != "" && a[0] == b[0] {
      LessAsymmetric(a[1..], b[1..]);
    }
  }

  lemma {:induction false} LessTransitive(a: string, b: string, c: string)
    requires Less(a, b) && Less(b, c)
    ensures Less(a, c)
  {
    if a != "" && a[0] == b[0] == c[0] {
      LessTransitive(a[1..], b[1..], c[1..]);
    }
  }

  ghost predicate Ascending(keys: seq<string>) {
    forall i, j | 0 <= i < j < |keys| :: Less(keys[i], keys[j])
  }

  /** std::set::insert. */
  function Insert(keys: seq<string>, key: string): seq<string> {
    if keys == [] then [key]
    else if Less(key, keys[0]) then [key] + keys
    else if key == keys[0] then keys
    else [keys[0]] + Insert(keys[1..], key)
  }

  lemma {:induction false} InsertIsSetInsert(keys: seq<string>, key: string)
    requires Ascending(keys)
    ensures Ascending(Insert(keys, key))
    ensures forall x :: x in Insert(keys, key) <==> x in keys || x == key
  {
    if keys != [] {
      LessTotal(key, keys[0]);
      if Less(key, keys[0]) {
        forall j | 0 < j < |keys| ensures Less(key, keys[j]) {
          LessTransitive(key, keys[0], keys[j]);
        }
      } else if key != keys[0] {
        InsertIsSetInsert(keys[1..], key);
        assert keys == [keys[0]] + keys[1..];
        var rest := Insert(keys[1..], key);
        forall j | 0 <= j < |rest| ensures Less(keys[0], rest[j]) {
          assert rest[j] in rest;
        }
      }
    }
  }

  /** A set has one strictly ascending listing. */
  lemma {:induction false} AscendingUnique(a: seq<string>, b: seq<string>)
    requires Ascending(a) && Ascending(b)
    requires forall x :: x in a <==> x in b
    ensures a == b
  {
    assert b == [] || b[0] in b;
    if a != [] {
      assert a[0] in b;
      assert b[0] in a;
      if a[0] != b[0] {
        var i :| 0 <= i < |b| && b[i] == a[0];
        var j :| 0 <= j < |a| && a[j] == b[0];
        LessAsymmetric(b[0], b[i]);
        assert false;
      }
      forall x ensures x in a[1..] <==> x in b[1..] {
        TailMembers(a, x);
        TailMembers(b, x);
      }
      AscendingUnique(a[1..], b[1..]);
      assert a == [a[0]] + a[1..] && b == [b[0]] + b[1..];
    }
  }

  lemma {:induction false} TailMembers(a: seq<string>, x: string)
    requires Ascending(a) && a != []
    ensures x in a[1..] <==> x in a && x != a[0]
  {
    assert a == [a[0]] + a[1..];
    if x in a[1..] {
      var i :| 0 <= i < |a[1..]| && a[1..][i] == x;
      LessAsymmetric(a[0], a[i + 1]);
    }
  }

  /** A key above everything stored goes to the end. */
  lemma {:induction false} InsertLast(keys: seq<string>, key: string)
    requires forall i | 0 <= i < |keys| :: Less(keys[i], key)
    ensures Insert(keys, key) == keys + [key]
  {
    if keys != [] {
      LessAsymmetric(keys[0], key);
      InsertLast(keys[1..], key);
    }
  }
}
