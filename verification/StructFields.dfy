/** How encoding/json fills a struct from an object it has itself written: the keys come
    in sorted order, a key matches a field by case folding, and the last match wins. */
module StructFields {
  import opened Text
  import opened JsonTree

  type Fields = map<string, Json>

  predicate Spells(key: string, name: string) {
    EqualFold(key, name)
  }

  /** strings.Compare, on runes as on bytes. */
  predicate AtMost(s: string, t: string) {
    s == "" || (t != "" && (s[0] < t[0] || (s[0] == t[0] && AtMost(s[1..], t[1..]))))
  }

  /** A prefix, or smaller at the first place where the two differ. */
  predicate ComesFirst(s: string, t: string) {
    || (|s| <= |t| && t[..|s|] == s)
    || exists i :: 0 <= i < |s| && i < |t| && s[..i] == t[..i] && s[i] < t[i]
  }

  lemma {:induction false} AtMostExactly(s: string, t: string)
    ensures AtMost(s, t) <==> ComesFirst(s, t)
  {
    if s != "" && t != "" && s[0] == t[0] {
      AtMostExactly(s[1..], t[1..]);
      SameFirst(s, t);
    } else if s != "" && t != "" {
      OtherFirst(s, t);
    }
  }

  lemma SameFirst(s: string, t: string)
    requires s != "" && t != "" && s[0] == t[0]
    ensures ComesFirst(s, t) <==> ComesFirst(s[1..], t[1..])
  {
    assert s == [s[0]] + s[1..] && t == [t[0]] + t[1..];
    if i :| 0 <= i < |s[1..]| && i < |t[1..]| && s[1..][..i] == t[1..][..i] && s[1..][i] < t[1..][i] {
      assert s[..i + 1] == [s[0]] + s[1..][..i] && t[..i + 1] == [t[0]] + t[1..][..i];
      assert s[i + 1] < t[i + 1];
    }
    if i :| 0 <= i < |s| && i < |t| && s[..i] == t[..i] && s[i] < t[i] {
      assert i > 0;
      assert s[1..][..i - 1] == s[..i][1..] && t[1..][..i - 1] == t[..i][1..];
      assert s[1..][i - 1] < t[1..][i - 1];
    }
    if |s| <= |t| {
      assert t[..|s|] == [t[0]] + t[1..][..|s[1..]|];
    }
  }

  lemma OtherFirst(s: string, t: string)
    requires s != "" && t != "" && s[0] != t[0]
    ensures ComesFirst(s, t) <==> s[0] < t[0]
  {
    assert s[..0] == t[..0];
    forall i | 0 < i < |s| && i < |t| ensures s[..i] != t[..i] {
      assert s[..i][0] == s[0] && t[..i][0] == t[0];
    }
    assert |s| <= |t| ==> t[..|s|][0] == t[0];
  }

  lemma {:induction false} AtMostIsTotal(s: string, t: string)
    ensures AtMost(s, t) || AtMost(t, s)
    ensures AtMost(s, t) && AtMost(t, s) ==> s == t
  {
    if s != "" && t != "" && s[0] == t[0] {
      AtMostIsTotal(s[1..], t[1..]);
      assert s == [s[0]] + s[1..] && t == [t[0]] + t[1..];
    }
  }

  lemma {:induction false} AtMostIsTransitive(s: string, t: string, u: string)
    requires AtMost(s, t) && AtMost(t, u)
    ensures AtMost(s, u)
  {
    if s != "" && s[0] == t[0] == u[0] {
      AtMostIsTransitive(s[1..], t[1..], u[1..]);
    }
  }

  predicate IsLast(keys: set<string>, key: string) {
    key in keys && forall other :: other in keys ==> AtMost(other, key)
  }

  lemma {:induction false} LastExists(keys: set<string>)
    requires keys != {}
    ensures exists key :: IsLast(keys, key)
    decreases |keys|
  {
    var some :| some in keys;
    var others := keys - {some};
    AtMostIsTotal(some, some);
    if others == {} {
      assert keys == {some};
      assert IsLast(keys, some);
    } else {
      LastExists(others);
      var last :| IsLast(others, last);
      AtMostIsTotal(some, last);
      if AtMost(some, last) {
        assert IsLast(keys, last);
      } else {
        forall other | other in keys ensures AtMost(other, some) {
          if other != some {
            AtMostIsTransitive(other, last, some);
          }
        }
        assert IsLast(keys, some);
      }
    }
  }

  lemma LastIsUnique(keys: set<string>, a: string, b: string)
    requires IsLast(keys, a) && IsLast(keys, b)
    ensures a == b
  {
    AtMostIsTotal(a, b);
  }

  function Last(keys: set<string>): (key: string)
    requires keys != {}
    ensures IsLast(keys, key)
  {
    LastExists(keys);
    assert forall a, b :: IsLast(keys, a) && IsLast(keys, b) ==> a == b by {
      forall a, b | IsLast(keys, a) && IsLast(keys, b) ensures a == b { LastIsUnique(keys, a, b); }
    }
    var key :| key in keys && IsLast(keys, key);
    key
  }

  function Spellings(fields: Fields, name: string): set<string> {
    set key | key in fields && Spells(key, name)
  }

  /** The value of a struct field, null if no key matches it. */
  function Pick(fields: Fields, name: string): (raw: Json)
    ensures Spellings(fields, name) == {} ==> raw == Null
    ensures Spellings(fields, name) != {} ==> exists key :: key in fields && Spells(key, name) && raw == fields[key]
  {
    var keys := Spellings(fields, name);
    if keys == {} then Null else fields[Last(keys)]
  }

  /** No key that matches, or the value of the one that comes last. */
  lemma PickExactly(fields: Fields, name: string)
    ensures (forall key :: key in fields ==> !EqualFold(key, name)) ==> Pick(fields, name) == Null
    ensures forall key :: key in fields && EqualFold(key, name)
                          && (forall other :: other in fields && EqualFold(other, name) ==> AtMost(other, key)) ==>
              Pick(fields, name) == fields[key]
  {
    forall key | key in fields && EqualFold(key, name)
                 && (forall other :: other in fields && EqualFold(other, name) ==> AtMost(other, key))
      ensures Pick(fields, name) == fields[key]
    {
      assert IsLast(Spellings(fields, name), key);
      LastIsUnique(Spellings(fields, name), key, Last(Spellings(fields, name)));
    }
  }
}
