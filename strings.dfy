/**
 * The pieces of Python's string toolkit that the model manager uses: `str()` on
 * integers, the `in` substring test, `str.replace`, `str.split` on a one-character
 * separator and `str.strip`. Strings are sequences of code points, as in Python 3.
 */
module Strings {

  predicate IsDigit(c: char) { '0' <= c <= '9' }

  predicate AllDigits(s: string) {
    forall i :: 0 <= i < |s| ==> IsDigit(s[i])
  }

  function DigitChar(d: nat): (c: char)
    requires d < 10
    ensures IsDigit(c) && DigitValue(c) == d
  {
    ('0' as int + d) as char
  }

  function DigitValue(c: char): nat
    requires IsDigit(c)
  {
    c as int - '0' as int
  }

  // ---------------------------------------------------------------------------
  // str(n) and its inverse int(s)

  /** `str(n)` for a natural number: its decimal digits, most significant first. */
  function NatToString(n: nat): (r: string)
    ensures |r| > 0 && AllDigits(r)
    decreases n
  {
    if n < 10 then [DigitChar(n)] else NatToString(n / 10) + [DigitChar(n % 10)]
  }

  /** `str(n)` for any integer: a leading '-' for a negative one. */
  function IntToString(n: int): (r: string)
    ensures |r| > 0
    ensures forall i :: 0 <= i < |r| ==> IsDigit(r[i]) || r[i] == '-'
  {
    if n < 0 then "-" + NatToString(-n) else NatToString(n)
  }

  /** The value of a run of decimal digits (the reading direction of `int(s)`). */
  function ParseNat(s: string): nat
    requires AllDigits(s)
    decreases |s|
  {
    if s == [] then 0 else ParseNat(s[..|s| - 1]) * 10 + DigitValue(s[|s| - 1])
  }

  /** Texts that `int(s)` reads as a decimal integer without surrounding blanks. */
  predicate IsIntText(s: string) {
    |s| > 0 && (if s[0] == '-' then |s| > 1 && AllDigits(s[1..]) else AllDigits(s))
  }

  function ParseInt(s: string): int
    requires IsIntText(s)
  {
    if s[0] == '-' then -(ParseNat(s[1..]) as int) else ParseNat(s)
  }

  lemma {:induction false} NatToStringRoundTrip(n: nat)
    ensures ParseNat(NatToString(n)) == n
    decreases n
  {
    if n >= 10 {
      var s := NatToString(n);
      var front := NatToString(n / 10);
      assert s[..|s| - 1] == front;
      NatToStringRoundTrip(n / 10);
    }
  }

  /** `int(str(n)) == n`: the rendering of an integer loses nothing. */
  lemma IntToStringRoundTrip(n: int)
    ensures IsIntText(IntToString(n)) && ParseInt(IntToString(n)) == n
  {
    var s := IntToString(n);
    if n < 0 {
      assert s[1..] == NatToString(-n);
      NatToStringRoundTrip(-n);
    } else {
      assert IsDigit(s[0]);
      NatToStringRoundTrip(n);
    }
  }

  /** Distinct integers render as distinct texts. */
  // ---------------------------------------------------------------------------
  // Prefixes and the `in` substring test

  predicate IsPrefix(p: string, s: string) {
    |p| <= |s| && s[..|p|] == p
  }

  /** Python's `sub in s`, searched from the left. */
  predicate Contains(s: string, sub: string)
    decreases |s|
  {
    IsPrefix(sub, s) || (|s| > 0 && Contains(s[1..], sub))
  }

  /** `sub` occurs in `s` starting at position `i`. */
  predicate OccursAt(s: string, sub: string, i: int) {
    0 <= i <= |s| - |sub| && s[i..i + |sub|] == sub
  }

  /** `sub in s` holds exactly when `sub` occurs at some position of `s`. */
  lemma {:induction false} ContainsAt(s: string, sub: string)
    ensures Contains(s, sub) <==> exists i :: OccursAt(s, sub, i)
    decreases |s|
  {
    if IsPrefix(sub, s) {
      assert OccursAt(s, sub, 0);
    } else if |s| > 0 {
      ContainsAt(s[1..], sub);
      if Contains(s[1..], sub) {
        var i :| OccursAt(s[1..], sub, i);
        assert s[1..][i..i + |sub|] == s[i + 1..i + 1 + |sub|];
        assert OccursAt(s, sub, i + 1);
      }
      if exists i :: OccursAt(s, sub, i) {
        var i :| OccursAt(s, sub, i);
        assert i != 0;
        assert s[1..][i - 1..i - 1 + |sub|] == s[i..i + |sub|];
        assert OccursAt(s[1..], sub, i - 1);
      }
    }
  }

  /** A character of a contained substring is a character of the string. */
  lemma ContainsChar(s: string, sub: string, c: char)
    requires Contains(s, sub) && c in sub
    ensures c in s
  {
    ContainsAt(s, sub);
    var i :| OccursAt(s, sub, i);
    var j :| 0 <= j < |sub| && sub[j] == c;
    assert s[i + j] == s[i..i + |sub|][j];
  }

  // ---------------------------------------------------------------------------
  // str.replace(pat, rep): every non-overlapping occurrence, scanned left to right

  function ReplaceAll(s: string, pat: string, rep: string): (r: string)
    requires |pat| > 0
    ensures !Contains(s, pat) ==> r == s
    decreases |s|
  {
    if |s| == 0 then ""
    else if IsPrefix(pat, s) then rep + ReplaceAll(s[|pat|..], pat, rep)
    else [s[0]] + ReplaceAll(s[1..], pat, rep)
  }

  /** Text that cannot start the pattern passes through unchanged. */
  lemma {:induction false} ReplaceAllSkips(a: string, t: string, pat: string, rep: string)
    requires |pat| > 0 && pat[0] !in a
    ensures ReplaceAll(a + t, pat, rep) == a + ReplaceAll(t, pat, rep)
    decreases |a|
  {
    if |a| > 0 {
      var s := a + t;
      assert s[0] == a[0];
      assert s[1..] == a[1..] + t;
      ReplaceAllSkips(a[1..], t, pat, rep);
    } else {
      assert a + t == t;
    }
  }

  /** An occurrence at the front is replaced and the scan resumes after it. */
  lemma ReplaceAllHit(t: string, pat: string, rep: string)
    requires |pat| > 0
    ensures ReplaceAll(pat + t, pat, rep) == rep + ReplaceAll(t, pat, rep)
  {
    var s := pat + t;
    assert s[..|pat|] == pat;
    assert s[|pat|..] == t;
  }

  /** `str.replace` chained: each (pattern, replacement) pair applied in turn to the previous result. */
  function ReplaceInOrder(s: string, subs: seq<(string, string)>): string
    requires forall k :: 0 <= k < |subs| ==> |subs[k].0| > 0
    decreases |subs|
  {
    if subs == [] then s else ReplaceInOrder(ReplaceAll(s, subs[0].0, subs[0].1), subs[1..])
  }

  /** A chain of replacements whose every pattern holds a character `s` lacks leaves `s` as it is. */
  lemma {:induction false} ReplaceInOrderMissing(s: string, subs: seq<(string, string)>, c: char)
    requires forall k :: 0 <= k < |subs| ==> |subs[k].0| > 0 && c in subs[k].0
    requires c !in s
    ensures ReplaceInOrder(s, subs) == s
    decreases |subs|
  {
    if subs != [] {
      if Contains(s, subs[0].0) {
        ContainsChar(s, subs[0].0, c);
      }
      ReplaceInOrderMissing(s, subs[1..], c);
    }
  }

  /** The first pair of a chain is applied first. */
  lemma ReplaceInOrderStep(s: string, pat: string, rep: string, rest: seq<(string, string)>)
    requires |pat| > 0 && forall k :: 0 <= k < |rest| ==> |rest[k].0| > 0
    ensures ReplaceInOrder(s, [(pat, rep)] + rest) == ReplaceInOrder(ReplaceAll(s, pat, rep), rest)
  {
    assert ([(pat, rep)] + rest)[1..] == rest;
  }

  /** One step of a chain, taken at position `k` of the list. */
  lemma ReplaceInOrderAt(s: string, subs: seq<(string, string)>, k: nat)
    requires forall i :: 0 <= i < |subs| ==> |subs[i].0| > 0
    requires k < |subs|
    ensures ReplaceInOrder(s, subs[k..]) == ReplaceInOrder(ReplaceAll(s, subs[k].0, subs[k].1), subs[k + 1..])
  {
    assert subs[k..][1..] == subs[k + 1..];
  }

  // ---------------------------------------------------------------------------
  // str.split(sep) and its inverse sep.join(parts)

  /** `sep.join(parts)`; Python's split never yields an empty list. */
  function Join(parts: seq<string>, sep: char): string
    requires |parts| > 0
  {
    if |parts| == 1 then parts[0] else parts[0] + [sep] + Join(parts[1..], sep)
  }

  /** Putting a character in front of the first part puts it in front of the joined text. */
  lemma JoinConsHead(c: char, parts: seq<string>, sep: char)
    requires |parts| > 0
    ensures Join([[c] + parts[0]] + parts[1..], sep) == [c] + Join(parts, sep)
  {
    var front := [[c] + parts[0]] + parts[1..];
    assert front[1..] == parts[1..];
  }

  /** `s.split(sep)` for a one-character separator. */
  function Split(s: string, sep: char): (parts: seq<string>)
    ensures |parts| > 0
    ensures forall i :: 0 <= i < |parts| ==> sep !in parts[i]
    ensures Join(parts, sep) == s
    decreases |s|
  {
    if |s| == 0 then [""]
    else
      var rest := Split(s[1..], sep);
      if s[0] == sep then
        var parts := [""] + rest;
        assert parts[1..] == rest;
        assert [sep] + s[1..] == s;
        parts
      else
        var parts := [[s[0]] + rest[0]] + rest[1..];
        assert forall i :: 1 <= i < |parts| ==> parts[i] == rest[i];
        JoinConsHead(s[0], rest, sep);
        assert s == [s[0]] + s[1..];
        parts
  }

  /** Where the first `sep` of `s` is, or `|s|` when there is none. */
  function FirstSep(s: string, sep: char): (k: nat)
    ensures k <= |s|
    decreases |s|
  {
    if s == [] || s[0] == sep then 0 else 1 + FirstSep(s[1..], sep)
  }

  /** A text without `sep` in front of another shifts the first `sep` by its length. */
  lemma {:induction false} FirstSepSkip(a: string, b: string, sep: char)
    requires sep !in a
    ensures FirstSep(a + b, sep) == |a| + FirstSep(b, sep)
    decreases |a|
  {
    if a == [] {
      assert a + b == b;
    } else {
      assert (a + b)[1..] == a[1..] + b;
      FirstSepSkip(a[1..], b, sep);
    }
  }

  /**
   * A joined text whose first part holds no `sep` begins with that part, up to the
   * first `sep`; the rest after that `sep` is the join of the other parts.
   */
  lemma JoinFirstPart(parts: seq<string>, sep: char)
    requires |parts| > 0 && sep !in parts[0]
    ensures var s := Join(parts, sep);
            && |parts[0]| <= |s| && s[..|parts[0]|] == parts[0]
            && FirstSep(s, sep) == |parts[0]|
            && (|parts| > 1 <==> |parts[0]| < |s|)
            && (|parts| > 1 ==> s[|parts[0]| + 1..] == Join(parts[1..], sep))
  {
    var s, head := Join(parts, sep), parts[0];
    if |parts| == 1 {
      assert FirstSep(s, sep) == |head| by {
        assert s == head + [];
        FirstSepSkip(head, [], sep);
      }
    } else {
      var tail := [sep] + Join(parts[1..], sep);
      assert s == head + tail;
      assert FirstSep(s, sep) == |head| by {
        FirstSepSkip(head, tail, sep);
      }
      assert s[..|head|] == head;
      assert s[|head| + 1..] == tail[1..];
    }
  }

  /** Parts free of the separator are recovered from their join. */
  lemma {:induction false} JoinInjective(p: seq<string>, q: seq<string>, sep: char)
    requires |p| > 0 && forall i :: 0 <= i < |p| ==> sep !in p[i]
    requires |q| > 0 && forall i :: 0 <= i < |q| ==> sep !in q[i]
    requires Join(p, sep) == Join(q, sep)
    ensures p == q
    decreases |p|
  {
    JoinFirstPart(p, sep);
    JoinFirstPart(q, sep);
    if |p| > 1 {
      JoinInjective(p[1..], q[1..], sep);
      assert p == [p[0]] + p[1..] && q == [q[0]] + q[1..];
    }
  }

  /** `sep.join(parts).split(sep) == parts` when no part holds the separator. */
  lemma SplitJoin(parts: seq<string>, sep: char)
    requires |parts| > 0 && forall i :: 0 <= i < |parts| ==> sep !in parts[i]
    ensures Split(Join(parts, sep), sep) == parts
  {
    JoinInjective(Split(Join(parts, sep), sep), parts, sep);
  }

  /** How many times `c` occurs in `s` (`s.count(c)`). */
  function Count(s: string, c: char): nat {
    if s == [] then 0 else (if s[0] == c then 1 else 0) + Count(s[1..], c)
  }

  /** The separator count fixes the number of parts. */
  lemma {:induction false} SplitCount(s: string, sep: char)
    ensures |Split(s, sep)| == Count(s, sep) + 1
    decreases |s|
  {
    if |s| > 0 {
      SplitCount(s[1..], sep);
    }
  }

  // ---------------------------------------------------------------------------
  // str.strip() with no argument

  /** Python's `str.isspace()` code points: the C0 separators, NEL, NBSP and the Unicode spaces. */
  predicate IsSpace(c: char) {
    var n := c as int;
    (0x09 <= n <= 0x0D) || (0x1C <= n <= 0x20) || n == 0x85 || n == 0xA0 || n == 0x1680
    || (0x2000 <= n <= 0x200A) || n == 0x2028 || n == 0x2029 || n == 0x202F || n == 0x205F
    || n == 0x3000
  }

  predicate AllSpace(s: string) {
    forall i :: 0 <= i < |s| ==> IsSpace(s[i])
  }

  /** How many blanks `s` starts with. */
  function LeadingBlanks(s: string): (n: nat)
    ensures n <= |s|
    ensures forall i :: 0 <= i < n ==> IsSpace(s[i])
    ensures n < |s| ==> !IsSpace(s[n])
    decreases |s|
  {
    if |s| > 0 && IsSpace(s[0]) then
      var m := LeadingBlanks(s[1..]);
      assert forall i :: 1 <= i < m + 1 ==> s[i] == s[1..][i - 1];
      m + 1
    else 0
  }

  /** Where `s[lo..hi]` ends once its trailing blanks are dropped. */
  function BlankEnd(s: string, lo: nat, hi: nat): (e: nat)
    requires lo <= hi <= |s|
    ensures lo <= e <= hi
    ensures forall i :: e <= i < hi ==> IsSpace(s[i])
    ensures e > lo ==> !IsSpace(s[e - 1])
    decreases hi
  {
    if hi > lo && IsSpace(s[hi - 1]) then BlankEnd(s, lo, hi - 1) else hi
  }

  /** Where `s.strip()` ends in `s`. */
  function StripEnd(s: string): nat
    ensures LeadingBlanks(s) <= StripEnd(s) <= |s|
  {
    BlankEnd(s, LeadingBlanks(s), |s|)
  }

  /**
   * `s.strip()`: the part of `s` between its leading and its trailing blanks,
   * which starts and ends with a non-blank.
   */
  function Strip(s: string): (r: string)
    ensures r == s[LeadingBlanks(s)..StripEnd(s)]
    ensures forall i :: 0 <= i < LeadingBlanks(s) ==> IsSpace(s[i])
    ensures forall i :: StripEnd(s) <= i < |s| ==> IsSpace(s[i])
    ensures r == [] || (!IsSpace(r[0]) && !IsSpace(r[|r| - 1]))
    ensures forall c :: c in r ==> c in s
  {
    s[LeadingBlanks(s)..StripEnd(s)]
  }

  /** A string of blanks strips to the empty string. */
  lemma StripAllSpace(s: string)
    requires AllSpace(s)
    ensures Strip(s) == ""
  {
  }

  /** A string with a non-blank character never strips to the empty string. */
  lemma StripKeepsNonBlank(s: string, i: nat)
    requires i < |s| && !IsSpace(s[i])
    ensures Strip(s) != []
  {
    assert LeadingBlanks(s) <= i < StripEnd(s);
  }
}
