/** Character and string helpers shared by the TypeScript and the Python parts of the model.
    Case mapping and whitespace are the ASCII subsets of what the two runtimes use. */
module Strings {

  /** Concatenation regroups freely. */
  lemma ConcatAssoc<T>(a: seq<T>, b: seq<T>, c: seq<T>)
    ensures a + (b + c) == (a + b) + c
  {
  }

  /** A sequence is its part before index k, the element at k, and its part after k. */
  lemma SplitAt<T>(s: seq<T>, k: nat)
    requires k < |s|
    ensures s == s[..k] + s[k..k + 1] + s[k + 1..]
  {
  }

  /** A non-empty sequence is its init followed by its last element. */
  lemma LastSplit<T>(s: seq<T>)
    requires s != []
    ensures s == s[..|s| - 1] + [s[|s| - 1]]
  {
  }

  /** A suffix splits at any later index. */
  lemma SliceSplit<T>(s: seq<T>, i: nat, j: nat)
    requires i <= j <= |s|
    ensures s[i..] == s[i..j] + s[j..]
  {
  }

  /** The head and tail of `a + b`, for a non-empty `a`. */
  lemma ConsOfAppend<T>(a: seq<T>, b: seq<T>)
    requires a != []
    ensures a + b != [] && (a + b)[0] == a[0] && (a + b)[1..] == a[1..] + b
  {
  }

  /** Dropping the last element of `a + b`, for a non-empty `b`, drops the last element of `b`. */
  lemma InitOfAppend<T>(a: seq<T>, b: seq<T>)
    requires b != []
    ensures (a + b)[..|a + b| - 1] == a + b[..|b| - 1]
    ensures (a + b)[|a + b| - 1] == b[|b| - 1]
  {
    assert (a + b)[..|a + b| - 1] == a + b[..|b| - 1];
  }

  /** The elements of `s` have strictly increasing ranks: at most one element of each rank, in
      rank order. */
  predicate RankedBy<T>(s: seq<T>, rank: T -> nat) {
    forall i, j :: 0 <= i < j < |s| ==> rank(s[i]) < rank(s[j])
  }

  /** A list ranked this way is determined by which elements it holds. */
  lemma {:induction false} RankedEqual<T>(a: seq<T>, b: seq<T>, rank: T -> nat)
    requires RankedBy(a, rank) && RankedBy(b, rank)
    requires forall x :: x in a <==> x in b
    ensures a == b
  {
    if a == [] {
    } else {
      assert a[0] in b;
      assert b[0] in a;
      var j :| 0 <= j < |b| && b[j] == a[0];
      var i :| 0 <= i < |a| && a[i] == b[0];
      assert j == 0;
      forall x ensures x in a[1..] <==> x in b[1..] {
        if x in a[1..] {
          var k :| 1 <= k < |a| && a[k] == x;
          assert rank(a[0]) < rank(a[k]);
          assert x in b && x != b[0];
        }
        if x in b[1..] {
          var k :| 1 <= k < |b| && b[k] == x;
          assert rank(b[0]) < rank(b[k]);
          assert x in a && x != a[0];
        }
      }
      RankedEqual(a[1..], b[1..], rank);
      assert a == [a[0]] + a[1..] && b == [b[0]] + b[1..];
    }
  }

  /** ASCII lower-casing of one character (what `toLowerCase`/`lower()` do on ASCII). */
  function LowerChar(c: char): char {
    if 'A' <= c <= 'Z' then (c as int + 32) as char else c
  }

  /** ASCII upper-casing of one character. */
  function UpperChar(c: char): char {
    if 'a' <= c <= 'z' then (c as int - 32) as char else c
  }

  predicate IsLetter(c: char) {
    'a' <= c <= 'z' || 'A' <= c <= 'Z'
  }

  predicate IsDigit(c: char) {
    '0' <= c <= '9'
  }

  /** The whitespace characters of Python's `\s`, `str.split()` and `str.strip()`, ASCII part:
      space, tab, line feed, vertical tab, form feed, carriage return and the separators 28-31. */
  predicate IsSpace(c: char) {
    c == ' ' || c == '\t' || c == '\n' || c == '\r' || c == 11 as char || c == 12 as char
    || 28 <= c as int <= 31
  }

  function Lower(s: string): (r: string)
    ensures |r| == |s|
    ensures forall i :: 0 <= i < |s| ==> r[i] == LowerChar(s[i])
  {
    seq(|s|, i requires 0 <= i < |s| => LowerChar(s[i]))
  }

  /** A text without upper-case letters is its own lower-casing. */
  lemma LowerOfLowercase(w: string)
    requires forall i :: 0 <= i < |w| ==> !('A' <= w[i] <= 'Z')
    ensures Lower(w) == w
  {
  }

  lemma LowerAppend(a: string, b: string)
    ensures Lower(a + b) == Lower(a) + Lower(b)
  {
  }

  /** Lower-casing never introduces a space. */
  lemma LowerKeepsNoSpace(s: string)
    requires ' ' !in s
    ensures ' ' !in Lower(s)
  {
    forall i | 0 <= i < |s| ensures Lower(s)[i] != ' ' {
    }
  }

  /** `p` occurs in `s` as a contiguous substring (JS `includes`, Python `in`). */
  predicate Contains(s: string, p: string) {
    exists i :: 0 <= i <= |s| && p <= s[i..]
  }

  /** Some word of `words` occurs in `s` (Python `any(w in s for w in words)`). */
  predicate ContainsAny(s: string, words: seq<string>) {
    exists k :: 0 <= k < |words| && Contains(s, words[k])
  }

  lemma ContainsInfix(a: string, b: string, c: string, p: string)
    requires Contains(b, p)
    ensures Contains(a + b + c, p)
  {
    var i :| 0 <= i <= |b| && p <= b[i..];
    var j := |a| + i;
    assert (a + b + c)[j..] == b[i..] + c;
  }

  lemma ContainsPrefix(a: string, c: string, p: string)
    requires Contains(a, p)
    ensures Contains(a + c, p)
  {
    ContainsInfix([], a, c, p);
    assert [] + a + c == a + c;
  }

  lemma ContainsSuffix(a: string, b: string, p: string)
    requires Contains(b, p)
    ensures Contains(a + b, p)
  {
    ContainsInfix(a, b, [], p);
    assert a + b + [] == a + b;
  }

  lemma ContainsSelf(s: string)
    ensures Contains(s, s)
  {
    assert s[0..] == s;
  }

  /** An occurrence in an occurrence is an occurrence. */
  lemma ContainsTrans(s: string, q: string, p: string)
    requires Contains(s, q) && Contains(q, p)
    ensures Contains(s, p)
  {
    var i :| 0 <= i <= |s| && q <= s[i..];
    var j :| 0 <= j <= |q| && p <= q[j..];
    PrefixAt(s, q, p, i, j);
  }

  lemma PrefixAt<T>(s: seq<T>, q: seq<T>, p: seq<T>, i: nat, j: nat)
    requires i <= |s| && j <= |q| && q <= s[i..] && p <= q[j..]
    ensures i + j <= |s| && p <= s[i + j..]
  {
    forall k | 0 <= k < |p| ensures p[k] == s[i + j + k] {
      assert p[k] == q[j + k];
      assert q[j + k] == s[i..][j + k];
    }
  }

  /** Each of four texts occurs in their space-separated join. */
  lemma ContainsInJoin4(a: string, b: string, c: string, d: string)
    ensures var t := a + " " + b + " " + c + " " + d;
      Contains(t, a) && Contains(t, b) && Contains(t, c) && Contains(t, d)
  {
    ContainsSelf(a);
    ContainsSelf(b);
    ContainsSelf(c);
    ContainsSelf(d);
    var ab := a + " " + b;
    var abc := ab + " " + c;
    ContainsPrefix(a, " " + b, a);
    assert a + (" " + b) == ab;
    ContainsSuffix(a + " ", b, b);
    ContainsPrefix(ab, " " + c, a);
    ContainsPrefix(ab, " " + c, b);
    assert ab + (" " + c) == abc;
    ContainsSuffix(ab + " ", c, c);
    ContainsPrefix(abc, " " + d, a);
    ContainsPrefix(abc, " " + d, b);
    ContainsPrefix(abc, " " + d, c);
    assert abc + (" " + d) == abc + " " + d;
    ContainsSuffix(abc + " ", d, d);
  }

  /** A pattern found in `a + " " + b` lies entirely in `a`, entirely in `b`, or covers the space. */
  lemma {:induction false} ContainsAcrossSpace(a: string, b: string, p: string)
    requires Contains(a + " " + b, p)
    ensures Contains(a, p) || Contains(b, p) || ' ' in p
  {
    var s := a + " " + b;
    var i :| 0 <= i <= |s| && p <= s[i..];
    if i + |p| <= |a| {
      assert s[i..] == a[i..] + " " + b;
      assert p <= a[i..];
    } else if i > |a| {
      var j := i - |a| - 1;
      assert s[i..] == b[j..];
    } else {
      assert p[|a| - i] == s[|a|];
    }
  }

  /** Joins with a separator, like JS `Array.join` and Python `str.join`. */
  function JoinWith(xs: seq<string>, sep: string): string
  {
    if |xs| == 0 then ""
    else if |xs| == 1 then xs[0]
    else JoinWith(xs[..|xs| - 1], sep) + sep + xs[|xs| - 1]
  }

  /** Number of leading whitespace characters. */
  function LeadingSpaces(s: string): (n: nat)
    ensures n <= |s|
    ensures forall i :: 0 <= i < n ==> IsSpace(s[i])
    ensures n < |s| ==> !IsSpace(s[n])
  {
    if s == [] || !IsSpace(s[0]) then 0 else 1 + LeadingSpaces(s[1..])
  }

  /** Number of leading non-whitespace characters. */
  function LeadingWord(s: string): (n: nat)
    ensures n <= |s|
    ensures forall i :: 0 <= i < n ==> !IsSpace(s[i])
    ensures n < |s| ==> IsSpace(s[n])
  {
    if s == [] || IsSpace(s[0]) then 0 else 1 + LeadingWord(s[1..])
  }

  /** Number of trailing whitespace characters. */
  function TrailingSpaces(s: string): (n: nat)
    ensures n <= |s|
    ensures forall i :: |s| - n <= i < |s| ==> IsSpace(s[i])
    ensures n < |s| ==> !IsSpace(s[|s| - n - 1])
  {
    if s == [] || !IsSpace(s[|s| - 1]) then 0 else 1 + TrailingSpaces(s[..|s| - 1])
  }

  /** Python `str.strip()`. */
  function Strip(s: string): (r: string)
    ensures r == [] || (!IsSpace(r[0]) && !IsSpace(r[|r| - 1]))
    ensures exists i :: 0 <= i <= |s| && r <= s[i..]
    ensures (forall i :: 0 <= i < |s| ==> IsSpace(s[i])) <==> r == []
  {
    StripFacts(s);
    var t := s[LeadingSpaces(s)..];
    t[..|t| - TrailingSpaces(t)]
  }

  lemma StripFacts(s: string)
    ensures var t := s[LeadingSpaces(s)..]; var r := t[..|t| - TrailingSpaces(t)];
      && (r == [] || (!IsSpace(r[0]) && !IsSpace(r[|r| - 1])))
      && r <= s[LeadingSpaces(s)..]
      && ((forall i :: 0 <= i < |s| ==> IsSpace(s[i])) <==> r == [])
  {
    var n := LeadingSpaces(s);
    var t := s[n..];
    var r := t[..|t| - TrailingSpaces(t)];
    StripEnds(s, n, t, r);
    StripEmptyIff(s, n, t, r);
  }

  lemma StripEnds(s: string, n: nat, t: string, r: string)
    requires n == LeadingSpaces(s) && t == s[n..] && r == t[..|t| - TrailingSpaces(t)]
    ensures r == [] || (!IsSpace(r[0]) && !IsSpace(r[|r| - 1]))
  {
    if r != [] {
      assert r[0] == s[n];
      assert r[|r| - 1] == t[|t| - TrailingSpaces(t) - 1];
    }
  }

  lemma StripEmptyIff(s: string, n: nat, t: string, r: string)
    requires n == LeadingSpaces(s) && t == s[n..] && r == t[..|t| - TrailingSpaces(t)]
    ensures (forall i :: 0 <= i < |s| ==> IsSpace(s[i])) <==> r == []
  {
    if r == [] {
      assert t == [] && n == |s|;
    } else {
      assert n < |s| && !IsSpace(s[n]);
    }
  }

  /** Python `str.split()` with no argument: the maximal runs of non-whitespace. */
  function Words(s: string): (ws: seq<string>)
    ensures forall k :: 0 <= k < |ws| ==> ws[k] != [] && forall i :: 0 <= i < |ws[k]| ==> !IsSpace(ws[k][i])
    ensures (forall i :: 0 <= i < |s| ==> IsSpace(s[i])) <==> ws == []
    decreases |s|
  {
    var t := s[LeadingSpaces(s)..];
    if t == [] then []
    else
      var n := LeadingWord(t);
      assert n > 0;
      var rest := Words(t[n..]);
      assert !IsSpace(s[LeadingSpaces(s)]);
      ConsWord(t[..n], rest);
      [t[..n]] + rest
  }

  predicate AllWords(ws: seq<string>) {
    forall k :: 0 <= k < |ws| ==> ws[k] != [] && forall i :: 0 <= i < |ws[k]| ==> !IsSpace(ws[k][i])
  }

  lemma ConsWord(w: string, rest: seq<string>)
    requires w != [] && (forall i :: 0 <= i < |w| ==> !IsSpace(w[i])) && AllWords(rest)
    ensures AllWords([w] + rest) && [w] + rest != []
  {
    var ws := [w] + rest;
    forall k | 0 <= k < |ws| ensures ws[k] != [] && forall i :: 0 <= i < |ws[k]| ==> !IsSpace(ws[k][i]) {
      if k > 0 { assert ws[k] == rest[k - 1]; }
    }
  }

  /** No leading, trailing or repeated whitespace, and every whitespace character is a plain space. */
  predicate SingleSpaced(r: string) {
    forall i :: 0 <= i < |r| && IsSpace(r[i]) ==>
      r[i] == ' ' && 0 < i < |r| - 1 && !IsSpace(r[i - 1]) && !IsSpace(r[i + 1])
  }

  lemma {:induction false} JoinWordsSingleSpaced(xs: seq<string>)
    requires forall k :: 0 <= k < |xs| ==> xs[k] != [] && forall i :: 0 <= i < |xs[k]| ==> !IsSpace(xs[k][i])
    ensures SingleSpaced(JoinWith(xs, " "))
    ensures |xs| > 0 ==> JoinWith(xs, " ") != []
  {
    if |xs| > 1 {
      var init := xs[..|xs| - 1];
      var w := xs[|xs| - 1];
      JoinWordsSingleSpaced(init);
      var a := JoinWith(init, " ");
      var r := a + " " + w;
      assert JoinWith(xs, " ") == r;
      forall i | 0 <= i < |r| && IsSpace(r[i])
        ensures r[i] == ' ' && 0 < i < |r| - 1 && !IsSpace(r[i - 1]) && !IsSpace(r[i + 1])
      {
        if i < |a| {
          assert r[i] == a[i];
          assert r[i + 1] == a[i + 1];
        } else if i > |a| {
          assert false;
        }
      }
    }
  }

  /** Python `' '.join(s.split())`. */
  function NormalizeSpaces(s: string): (r: string)
    ensures SingleSpaced(r)
    ensures r == [] <==> forall i :: 0 <= i < |s| ==> IsSpace(s[i])
    ensures Words(r) == Words(s)
  {
    JoinWordsSingleSpaced(Words(s));
    WordsOfJoin(Words(s));
    JoinWith(Words(s), " ")
  }

  /** Python `str.title()` on ASCII: a letter is upper-cased when the character before it is not
      a letter and lower-cased otherwise. */
  function Title(s: string): (r: string)
    ensures |r| == |s|
  {
    TitleAfter(s, false)
  }

  function TitleAfter(s: string, afterLetter: bool): (r: string)
    ensures |r| == |s|
  {
    if s == [] then []
    else
      var c := s[0];
      var c' := if !IsLetter(c) then c else if afterLetter then LowerChar(c) else UpperChar(c);
      [c'] + TitleAfter(s[1..], IsLetter(c))
  }

  /** Each character of `TitleAfter(s, a)`: a letter is lower-cased when a letter precedes it
      (for the first one, when `a` says so) and upper-cased otherwise; other characters stay. */
  lemma {:induction false} TitleAfterAt(s: string, afterLetter: bool, i: nat)
    requires i < |s|
    ensures var before := if i == 0 then afterLetter else IsLetter(s[i - 1]);
      TitleAfter(s, afterLetter)[i]
        == if !IsLetter(s[i]) then s[i] else if before then LowerChar(s[i]) else UpperChar(s[i])
  {
    if i > 0 {
      TitleAfterAt(s[1..], IsLetter(s[0]), i - 1);
      if i > 1 {
        assert s[1..][i - 2] == s[i - 1];
      }
      assert s[1..][i - 1] == s[i];
    }
  }

  /** `str.title()` character by character: a letter starting a run of letters is upper-cased,
      every other letter is lower-cased, and a character that is not a letter is kept. */
  lemma TitleAt(s: string, i: nat)
    requires i < |s|
    ensures Title(s)[i] == if !IsLetter(s[i]) then s[i]
      else if i > 0 && IsLetter(s[i - 1]) then LowerChar(s[i]) else UpperChar(s[i])
  {
    TitleAfterAt(s, false, i);
  }

  /** Strict lexicographic order on character codes (the model's stand-in for `localeCompare`). */
  predicate LexLess(a: string, b: string)
    decreases |a|
  {
    if a == [] then b != []
    else if b == [] then false
    else if a[0] != b[0] then a[0] < b[0]
    else LexLess(a[1..], b[1..])
  }

  lemma {:induction false} LexIrreflexive(a: string)
    ensures !LexLess(a, a)
  {
    if a != [] { LexIrreflexive(a[1..]); }
  }

  lemma {:induction false} LexTransitive(a: string, b: string, c: string)
    ensures LexLess(a, b) && LexLess(b, c) ==> LexLess(a, c)
    decreases |a|
  {
    if a != [] && b != [] && c != [] && a[0] == b[0] == c[0] {
      LexTransitive(a[1..], b[1..], c[1..]);
    }
  }

  lemma {:induction false} LexTotal(a: string, b: string)
    ensures LexLess(a, b) || a == b || LexLess(b, a)
    decreases |a|
  {
    if a != [] && b != [] && a[0] == b[0] {
      LexTotal(a[1..], b[1..]);
      if a[1..] == b[1..] {
        assert a == [a[0]] + a[1..] && b == [b[0]] + b[1..];
      }
    }
  }

  /** `LeadingSpaces` is the only count with its three properties. */
  lemma LeadingSpacesUnique(s: string, n: nat)
    requires n <= |s| && (forall i :: 0 <= i < n ==> IsSpace(s[i])) && (n < |s| ==> !IsSpace(s[n]))
    ensures LeadingSpaces(s) == n
  {
  }

  /** A whitespace character appended to a text disappears under `strip()`. */
  lemma StripTrailingSpace(x: string, c: char)
    requires IsSpace(c)
    ensures Strip(x + [c]) == Strip(x)
  {
    var n := LeadingSpaces(x);
    if n == |x| {
      AllSpaceAppend(x, c);
    } else {
      LeadingSpacesAppend(x, c);
      var tx := x[n..];
      SuffixOfAppend(x, c, n);
      TrailingSpacesAppend(tx, c);
      PrefixOfAppend(tx, c, |tx| - TrailingSpaces(tx));
    }
  }

  lemma AllSpaceAppend(x: string, c: char)
    requires IsSpace(c) && LeadingSpaces(x) == |x|
    ensures Strip(x + [c]) == [] && Strip(x) == []
  {
    var y := x + [c];
    assert forall i :: 0 <= i < |y| ==> IsSpace(y[i]);
  }

  lemma LeadingSpacesAppend(x: string, c: char)
    requires LeadingSpaces(x) < |x|
    ensures LeadingSpaces(x + [c]) == LeadingSpaces(x)
  {
    var y, n := x + [c], LeadingSpaces(x);
    assert forall i :: 0 <= i < n ==> y[i] == x[i];
    assert y[n] == x[n];
    LeadingSpacesUnique(y, n);
  }

  lemma SuffixOfAppend(x: string, c: char, n: nat)
    requires n <= |x|
    ensures (x + [c])[n..] == x[n..] + [c]
  {
  }

  lemma TrailingSpacesAppend(a: string, c: char)
    requires IsSpace(c)
    ensures TrailingSpaces(a + [c]) == 1 + TrailingSpaces(a)
  {
    assert (a + [c])[..|a|] == a;
  }

  lemma PrefixOfAppend(a: string, c: char, m: nat)
    requires m <= |a|
    ensures (a + [c])[..m] == a[..m]
  {
  }

  /** `JoinWith` seen from the front. */
  lemma {:induction false} JoinWithCons(w: string, ws: seq<string>, sep: string)
    requires ws != []
    ensures JoinWith([w] + ws, sep) == w + sep + JoinWith(ws, sep)
    decreases |ws|
  {
    var xs := [w] + ws;
    if |ws| == 1 {
      assert xs[..1] == [w];
    } else {
      var init := ws[..|ws| - 1];
      JoinWithCons(w, init, sep);
      assert xs[..|xs| - 1] == [w] + init;
    }
  }

  /** `split()` on a text that starts with a word: that word, then the split of the rest. */
  lemma WordsFromWord(s: string)
    requires s != [] && !IsSpace(s[0])
    ensures Words(s) == [s[..LeadingWord(s)]] + Words(s[LeadingWord(s)..])
  {
    assert LeadingSpaces(s) == 0;
    assert s[0..] == s;
  }

  /** A single whitespace character before a word does not change `split()`. */
  lemma WordsSkipSpace(v: string)
    requires |v| >= 2 && IsSpace(v[0]) && !IsSpace(v[1])
    ensures Words(v) == Words(v[1..])
  {
    LeadingSpacesUnique(v, 1);
    var u := v[1..];
    assert LeadingSpaces(u) == 0;
    assert u[0..] == u;
  }

  /** A single-spaced text that holds a space splits at it: the first word, then the words of
      the single-spaced rest. */
  lemma WordsOfSingleSpaced(s: string, n: nat)
    requires SingleSpaced(s) && s != [] && n == LeadingWord(s) && n < |s|
    ensures n + 1 < |s| && s == s[..n] + " " + s[n + 1..]
    ensures Words(s) == [s[..n]] + Words(s[n + 1..])
    ensures SingleSpaced(s[n + 1..])
  {
    assert IsSpace(s[n]);
    assert s[n] == ' ' && n + 1 < |s| && !IsSpace(s[n + 1]);
    SplitAtSpace(s, n);
    assert !IsSpace(s[0]);
    WordsFromWord(s);
    var v := s[n..];
    assert v[0] == s[n] && v[1] == s[n + 1];
    WordsSkipSpace(v);
    assert v[1..] == s[n + 1..];
    SingleSpacedSuffix(s, n + 1);
  }

  lemma SplitAtSpace(s: string, n: nat)
    requires n < |s| && s[n] == ' '
    ensures s == s[..n] + " " + s[n + 1..]
  {
    assert s == s[..n] + [s[n]] + s[n + 1..];
  }

  lemma SingleSpacedSuffix(s: string, m: nat)
    requires SingleSpaced(s) && 0 < m < |s| && !IsSpace(s[m])
    ensures SingleSpaced(s[m..])
  {
    var u := s[m..];
    forall i | 0 <= i < |u| && IsSpace(u[i])
      ensures u[i] == ' ' && 0 < i < |u| - 1 && !IsSpace(u[i - 1]) && !IsSpace(u[i + 1])
    {
      assert u[i] == s[m + i];
      assert i > 0;
      assert u[i + 1] == s[m + i + 1];
      assert u[i - 1] == s[m + i - 1];
    }
  }

  /** A text that is already single-spaced is left unchanged by `' '.join(s.split())`. */
  lemma {:induction false} NormalizeSingleSpaced(s: string)
    requires SingleSpaced(s)
    ensures NormalizeSpaces(s) == s
    decreases |s|
  {
    if s != [] {
      var n := LeadingWord(s);
      if n == |s| {
        NormalizeOneWord(s);
      } else {
        RestSingleSpaced(s, n);
        NormalizeSingleSpaced(s[n + 1..]);
        NormalizeAfterWord(s, n);
      }
    }
  }

  lemma NormalizeOneWord(s: string)
    requires SingleSpaced(s) && s != [] && LeadingWord(s) == |s|
    ensures NormalizeSpaces(s) == s
  {
    assert !IsSpace(s[0]);
    WordsFromWord(s);
    assert s[|s|..] == [] && s[..|s|] == s;
  }

  lemma RestSingleSpaced(s: string, n: nat)
    requires SingleSpaced(s) && s != [] && n == LeadingWord(s) && n < |s|
    ensures SingleSpaced(s[n + 1..])
  {
    WordsOfSingleSpaced(s, n);
  }

  lemma NormalizeAfterWord(s: string, n: nat)
    requires SingleSpaced(s) && s != [] && n == LeadingWord(s) && n < |s|
    requires NormalizeSpaces(s[n + 1..]) == s[n + 1..]
    ensures NormalizeSpaces(s) == s
  {
    WordsOfSingleSpaced(s, n);
    var u := s[n + 1..];
    var w := Words(u);
    assert JoinWith(w, " ") == u;
    assert u != [] && w != [];
    assert Words(s) == [s[..n]] + w;
    JoinWithCons(s[..n], w, " ");
    assert NormalizeSpaces(s) == s[..n] + " " + u;
  }

  lemma LeadingWordUnique(s: string, n: nat)
    requires n <= |s| && (forall i :: 0 <= i < n ==> !IsSpace(s[i])) && (n < |s| ==> IsSpace(s[n]))
    ensures LeadingWord(s) == n
  {
  }

  /** A word followed by a space and a text that starts with a word splits into that word and
      the words of the text. */
  lemma WordsOfWordSpace(w: string, u: string)
    requires w != [] && (forall i :: 0 <= i < |w| ==> !IsSpace(w[i]))
    requires u != [] && !IsSpace(u[0])
    ensures Words(w + " " + u) == [w] + Words(u)
  {
    var s := w + " " + u;
    LeadingWordUnique(s, |w|);
    WordsFromWord(s);
    assert s[..|w|] == w;
    var v := s[|w|..];
    assert v == " " + u;
    assert v[0] == ' ' && v[1] == u[0];
    WordsSkipSpace(v);
    assert v[1..] == u;
  }

  /** `split()` undoes the join of words with single spaces. */
  lemma {:induction false} WordsOfJoin(ws: seq<string>)
    requires AllWords(ws)
    ensures Words(JoinWith(ws, " ")) == ws
    ensures ws != [] ==> JoinWith(ws, " ") != [] && JoinWith(ws, " ")[0] == ws[0][0]
    decreases |ws|
  {
    if |ws| == 1 {
      var w := ws[0];
      assert !IsSpace(w[0]);
      LeadingWordUnique(w, |w|);
      WordsFromWord(w);
      assert w[..|w|] == w && w[|w|..] == [];
    } else if |ws| > 1 {
      var w, rest := ws[0], ws[1..];
      assert ws == [w] + rest;
      assert AllWords(rest) by {
        forall k | 0 <= k < |rest| ensures rest[k] != [] && forall i :: 0 <= i < |rest[k]| ==> !IsSpace(rest[k][i]) {
          assert rest[k] == ws[k + 1];
        }
      }
      WordsOfJoin(rest);
      JoinWithCons(w, rest, " ");
      var u := JoinWith(rest, " ");
      WordsOfWordSpace(w, u);
      assert (w + " " + u)[0] == w[0];
    }
  }

}
