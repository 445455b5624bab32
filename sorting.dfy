/**
 * Python's ordering of `str` values (lexicographic by code point) and the
 * built-in `sorted`, which is a stable sort, over any key function into strings.
 */
module Sorting {

  /** Python's `a <= b` on strings. */
  predicate LessEq(a: string, b: string)
    decreases |a|
  {
    |a| == 0 || (|b| > 0 && (a[0] < b[0] || (a[0] == b[0] && LessEq(a[1..], b[1..]))))
  }

  /** Python's `a < b` on strings. */
  predicate Less(a: string, b: string) {
    LessEq(a, b) && a != b
  }

  lemma {:induction false} LessEqRefl(a: string)
    ensures LessEq(a, a)
    decreases |a|
  {
    if |a| > 0 { LessEqRefl(a[1..]); }
  }

  lemma {:induction false} LessEqTotal(a: string, b: string)
    ensures LessEq(a, b) || LessEq(b, a)
    decreases |a|
  {
    if |a| > 0 && |b| > 0 && a[0] == b[0] { LessEqTotal(a[1..], b[1..]); }
  }

  lemma {:induction false} LessEqTrans(a: string, b: string, c: string)
    requires LessEq(a, b) && LessEq(b, c)
    ensures LessEq(a, c)
    decreases |a|
  {
    if |a| > 0 && a[0] == b[0] && b[0] == c[0] { LessEqTrans(a[1..], b[1..], c[1..]); }
  }

  lemma {:induction false} LessEqAntisym(a: string, b: string)
    requires LessEq(a, b) && LessEq(b, a)
    ensures a == b
    decreases |a|
  {
    if |a| > 0 {
      LessEqAntisym(a[1..], b[1..]);
      assert a == [a[0]] + a[1..] && b == [b[0]] + b[1..];
    }
  }

  function Id(s: string): string { s }

  predicate SortedBy<T>(s: seq<T>, key: T -> string) {
    forall i, j :: 0 <= i < j < |s| ==> LessEq(key(s[i]), key(s[j]))
  }

  predicate StrictlySorted(s: seq<string>) {
    forall i, j :: 0 <= i < j < |s| ==> Less(s[i], s[j])
  }

  /** The elements of `s` whose key is `k`, in their order in `s`. */
  function WithKey<T>(s: seq<T>, key: T -> string, k: string): seq<T> {
    if s == [] then [] else (if key(s[0]) == k then [s[0]] else []) + WithKey(s[1..], key, k)
  }

  /** `x` goes in front of the first element whose key is not below its own. */
  function Insert<T>(x: T, s: seq<T>, key: T -> string): (r: seq<T>)
    ensures multiset(r) == multiset(s) + multiset{x}
  {
    if s == [] || LessEq(key(x), key(s[0])) then [x] + s
    else
      assert s == [s[0]] + s[1..];
      [s[0]] + Insert(x, s[1..], key)
  }

  lemma {:induction false} InsertSorted<T>(x: T, s: seq<T>, key: T -> string)
    requires SortedBy(s, key)
    ensures SortedBy(Insert(x, s, key), key)
    decreases |s|
  {
    if s == [] || LessEq(key(x), key(s[0])) {
      forall j | 0 <= j < |s| ensures LessEq(key(x), key(s[j])) {
        if j > 0 { LessEqTrans(key(x), key(s[0]), key(s[j])); }
      }
    } else {
      var rest := Insert(x, s[1..], key);
      InsertSorted(x, s[1..], key);
      LessEqTotal(key(x), key(s[0]));
      forall j | 0 <= j < |rest| ensures LessEq(key(s[0]), key(rest[j])) {
        assert rest[j] in multiset(rest);
        if rest[j] != x {
          assert rest[j] in multiset(s[1..]);
          var i :| 0 <= i < |s| - 1 && s[1..][i] == rest[j];
          assert s[i + 1] == rest[j];
        }
      }
      var r := [s[0]] + rest;
      forall i, j | 0 <= i < j < |r| ensures LessEq(key(r[i]), key(r[j])) {
        if i > 0 { assert r[i] == rest[i - 1] && r[j] == rest[j - 1]; }
        else { assert r[j] == rest[j - 1]; }
      }
    }
  }

  /** `sorted(s, key=key)`. */
  function SortBy<T>(s: seq<T>, key: T -> string): (r: seq<T>)
    ensures SortedBy(r, key)
    ensures multiset(r) == multiset(s)
  {
    if s == [] then []
    else
      assert s == [s[0]] + s[1..];
      InsertSorted(s[0], SortBy(s[1..], key), key);
      Insert(s[0], SortBy(s[1..], key), key)
  }

  lemma {:induction false} InsertWithKey<T>(x: T, s: seq<T>, key: T -> string, k: string)
    ensures WithKey(Insert(x, s, key), key, k)
            == (if key(x) == k then [x] else []) + WithKey(s, key, k)
    decreases |s|
  {
    var tail := if key(x) == k then [x] else [];
    if s == [] || LessEq(key(x), key(s[0])) {
      var r := [x] + s;
      assert r[0] == x && r[1..] == s;
    } else {
      LessEqRefl(key(x));
      assert key(x) != key(s[0]);
      var ins := Insert(x, s[1..], key);
      var r := [s[0]] + ins;
      assert r[0] == s[0] && r[1..] == ins;
      InsertWithKey(x, s[1..], key, k);
      var front := if key(s[0]) == k then [s[0]] else [];
      assert front == [] || tail == [];
      assert WithKey(r, key, k) == front + (tail + WithKey(s[1..], key, k));
    }
  }

  /** `sorted` is stable: elements with equal keys keep their relative order. */
  lemma {:induction false} SortByStable<T>(s: seq<T>, key: T -> string, k: string)
    ensures WithKey(SortBy(s, key), key, k) == WithKey(s, key, k)
    decreases |s|
  {
    if s != [] {
      SortByStable(s[1..], key, k);
      InsertWithKey(s[0], SortBy(s[1..], key), key, k);
    }
  }

  /** Drops repeats from a sorted sequence of strings, keeping one of each. */
  function Dedup(s: seq<string>): (r: seq<string>)
    requires SortedBy(s, Id)
    ensures StrictlySorted(r)
    ensures forall x :: x in r <==> x in s
    ensures |s| > 0 ==> |r| > 0 && r[0] == s[0]
  {
    if |s| <= 1 then s
    else
      var rest := Dedup(s[1..]);
      if s[0] == s[1] then rest
      else
        assert forall j :: 0 <= j < |rest| ==> Less(s[0], rest[j]) by {
          forall j | 0 <= j < |rest| ensures Less(s[0], rest[j]) {
            assert rest[j] in s[1..];
            var i :| 0 <= i < |s| - 1 && s[1..][i] == rest[j];
            assert LessEq(Id(s[0]), Id(s[1]));
            if i > 0 { assert LessEq(Id(s[1]), Id(s[i + 1])); } else { LessEqRefl(s[1]); }
            LessEqTrans(s[0], s[1], rest[j]);
            if s[0] == rest[j] {
              assert LessEq(Id(s[1]), Id(s[0]));
              LessEqAntisym(s[0], s[1]);
            }
          }
        }
        [s[0]] + rest
  }

  /** `sorted(set(s))`: each distinct string once, in increasing order. */
  function SortedUnique(s: seq<string>): (r: seq<string>)
    ensures StrictlySorted(r)
    ensures forall x :: x in r <==> x in s
  {
    var sorted := SortBy(s, Id);
    assert forall x :: x in sorted <==> x in multiset(sorted);
    Dedup(sorted)
  }

  lemma SameElementsBothEmpty(a: seq<string>, b: seq<string>)
    requires forall x :: x in a <==> x in b
    ensures a == [] <==> b == []
  {
    if a != [] { assert a[0] in b; }
    if b != [] { assert b[0] in a; }
  }

  /** A strictly increasing enumeration of a set of strings is unique. */
  lemma {:induction false} StrictlySortedUnique(a: seq<string>, b: seq<string>)
    requires StrictlySorted(a) && StrictlySorted(b)
    requires forall x :: x in a <==> x in b
    ensures a == b
    decreases |a|
  {
    if a != [] {
      assert b != [] by { assert a[0] in b; }
      assert a[0] in b && b[0] in a;
      var i :| 0 <= i < |b| && b[i] == a[0];
      var j :| 0 <= j < |a| && a[j] == b[0];
      if j > 0 { assert Less(a[0], a[j]); } else { LessEqRefl(a[0]); }
      if i > 0 { assert Less(b[0], b[i]); } else { LessEqRefl(b[0]); }
      LessEqAntisym(a[0], b[0]);
      forall x ensures x in a[1..] <==> x in b[1..] {
        if x in a[1..] {
          var p :| 1 <= p < |a| && a[p] == x;
          assert Less(a[0], a[p]);
          assert x in b;
        }
        if x in b[1..] {
          var q :| 1 <= q < |b| && b[q] == x;
          assert Less(b[0], b[q]);
          assert x in a;
        }
      }
      StrictlySortedUnique(a[1..], b[1..]);
      assert a == [a[0]] + a[1..] && b == [b[0]] + b[1..];
    } else {
      SameElementsBothEmpty(a, b);
    }
  }
}
