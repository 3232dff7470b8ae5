/** Helpers shared by the Python backend's scrapers: list slicing, the "collect the listed skills
    that occur in a text" loop, order-preserving selection, and thousands grouping. */
module PyText {
  import opened Strings
  import opened Salary

  /** Python `s[:n]`: a negative `n` counts from the end. */
  function PyTake<T>(s: seq<T>, n: int): (r: seq<T>)
    ensures |r| <= |s|
    ensures n >= 0 ==> |r| == if n < |s| then n else |s|
    ensures n >= 0 ==> r == s[..if n < |s| then n else |s|]
  {
    if n >= 0 then s[..if n < |s| then n else |s|]
    else if |s| + n <= 0 then [] else s[..|s| + n]
  }

  lemma TakeOfAppend<T>(a: seq<T>, b: seq<T>, n: int)
    requires n == |a|
    ensures PyTake(a + b, n) == a && PyTake(a, n) == a
  {
    assert (a + b)[..n] == a;
  }

  /** The elements of `skills` whose lower-cased form occurs in `text`, in list order. */
  function FoundIn(skills: seq<string>, text: string): (r: seq<string>)
    ensures |r| <= |skills|
  {
    if skills == [] then []
    else
      var last := skills[|skills| - 1];
      FoundIn(skills[..|skills| - 1], text) + (if Contains(text, Lower(last)) then [last] else [])
  }

  /** Exactly the listed skills that occur are found. */
  lemma {:induction false} FoundInMembers(skills: seq<string>, text: string)
    ensures forall x :: x in FoundIn(skills, text) <==> x in skills && Contains(text, Lower(x))
  {
    if skills != [] {
      var init, last := skills[..|skills| - 1], skills[|skills| - 1];
      FoundInMembers(init, text);
      assert skills == init + [last];
    }
  }

  /** Found skills keep list order: the skills found in `a + b` are those found in `a`, then
      those found in `b`. */
  lemma {:induction false} FoundInAppend(a: seq<string>, b: seq<string>, text: string)
    ensures FoundIn(a + b, text) == FoundIn(a, text) + FoundIn(b, text)
    decreases |b|
  {
    if b == [] {
      assert a + b == a;
    } else {
      var b', last := b[..|b| - 1], b[|b| - 1];
      FoundInAppend(a, b', text);
      InitOfAppend(a, b);
      var step := if Contains(text, Lower(last)) then [last] else [];
      ConcatAssoc(FoundIn(a, text), FoundIn(b', text), step);
    }
  }

  /** Nothing is found in an empty text when every skill is non-empty. */
  lemma {:induction false} NothingFoundInEmpty(skills: seq<string>)
    requires forall k :: 0 <= k < |skills| ==> skills[k] != []
    ensures FoundIn(skills, "") == []
  {
    if skills != [] {
      var init := skills[..|skills| - 1];
      assert forall k :: 0 <= k < |init| ==> init[k] == skills[k];
      NothingFoundInEmpty(init);
      var p := Lower(skills[|skills| - 1]);
      assert !Contains("", p) by {
        forall i | 0 <= i <= 0 ensures !(p <= ""[i..]) { }
      }
    }
  }

  /** The `for skill in skills: if skill.lower() in text: found.append(skill)` loop. */
  method CollectFound(skills: seq<string>, text: string) returns (found: seq<string>)
    ensures found == FoundIn(skills, text)
  {
    found := [];
    for i := 0 to |skills|
      invariant found == FoundIn(skills[..i], text)
    {
      assert skills[..i + 1][..i] == skills[..i];
      if Contains(text, Lower(skills[i])) {
        found := found + [skills[i]];
      }
    }
    assert skills[..|skills|] == skills;
  }

  /** What the skill extractors return: the first `n` found skills (so at most `n`), each one
      of the list and occurring in the text; when at most `n` occur, all of them. */
  lemma FirstFound(skills: seq<string>, text: string, n: nat)
    ensures var r := PyTake(FoundIn(skills, text), n);
      && |r| <= n
      && r == FoundIn(skills, text)[..|r|]
      && (forall x :: x in r ==> x in skills && Contains(text, Lower(x)))
      && (|FoundIn(skills, text)| <= n ==> forall x :: x in skills && Contains(text, Lower(x)) ==> x in r)
  {
    var f := FoundIn(skills, text);
    FoundInMembers(skills, text);
    var m := if n < |f| then n else |f|;
    forall x | x in f[..m] ensures x in f {
      var i :| 0 <= i < m && f[..m][i] == x;
      assert f[i] == x;
    }
    if |f| <= n {
      assert f[..m] == f;
    }
  }

  /** Python `text[:n] + '...'` when the text is longer than `n`, else the text. */
  function Truncate(text: string, n: nat): (r: string)
    ensures |text| <= n ==> r == text
    ensures |text| > n ==> |r| == n + 3 && r[..n] == text[..n] && r[n..] == "..."
  {
    if |text| > n then text[..n] + "..." else text
  }

  // ---- thousands grouping: Python's `f"{n:,}"` ----

  /** Three decimal digits with leading zeros. */
  function Pad3(n: nat): (s: string)
    requires n < 1000
    ensures |s| == 3 && forall i :: 0 <= i < 3 ==> IsDigit(s[i])
    ensures DigitsValue(s) == n
  {
    var d0, d1, d2 := DigitChar(n / 100), DigitChar(n / 10 % 10), DigitChar(n % 10);
    ThreeDigits(d0, d1, d2);
    Decimal3(n);
    [d0, d1, d2]
  }

  lemma ThreeDigits(d0: char, d1: char, d2: char)
    requires IsDigit(d0) && IsDigit(d1) && IsDigit(d2)
    ensures DigitsValue([d0, d1, d2])
         == 100 * (d0 as int - '0' as int) + 10 * (d1 as int - '0' as int) + (d2 as int - '0' as int)
  {
    var s := [d0, d1, d2];
    assert s[..2] == [d0, d1] && [d0, d1][..1] == [d0] && [d0][..0] == [];
    var v0, v1 := d0 as int - '0' as int, d1 as int - '0' as int;
    assert DigitsValue([d0]) == v0;
    assert DigitsValue([d0, d1]) == 10 * v0 + v1;
  }

  lemma Decimal3(n: nat)
    requires n < 1000
    ensures n == 100 * (n / 100) + 10 * (n / 10 % 10) + n % 10
  {
  }

  function Pow10(k: nat): (p: nat)
    ensures p >= 1
  {
    if k == 0 then 1 else 10 * Pow10(k - 1)
  }

  /** Decimal digits of `n` with a comma between groups of three, counted from the right. */
  function GroupThousands(n: nat): (s: string)
    ensures s != [] && IsDigit(s[0])
  {
    if n < 1000 then NatToString(n) else GroupThousands(n / 1000) + "," + Pad3(n % 1000)
  }

  /** `f"{n:,}"` on an integer, with the minus sign of a negative one. */
  function FormatThousands(n: int): (s: string)
    ensures s != [] && (s[0] == '-' <==> n < 0)
  {
    if n < 0 then "-" + GroupThousands(-n) else GroupThousands(n)
  }

  function RemoveCommas(s: string): (r: string)
    ensures |r| <= |s|
  {
    if s == [] then [] else (if s[0] == ',' then [] else [s[0]]) + RemoveCommas(s[1..])
  }

  lemma {:induction false} RemoveCommasAppend(a: string, b: string)
    ensures RemoveCommas(a + b) == RemoveCommas(a) + RemoveCommas(b)
  {
    if a != [] {
      RemoveCommasAppend(a[1..], b);
      assert (a + b)[1..] == a[1..] + b;
    } else {
      assert a + b == b;
    }
  }

  lemma {:induction false} RemoveCommasOfDigits(s: string)
    requires forall i :: 0 <= i < |s| ==> IsDigit(s[i])
    ensures RemoveCommas(s) == s
  {
    if s != [] { RemoveCommasOfDigits(s[1..]); }
  }

  lemma {:induction false} DigitsValueAppend(a: string, b: string)
    requires forall i :: 0 <= i < |a| ==> IsDigit(a[i])
    requires forall i :: 0 <= i < |b| ==> IsDigit(b[i])
    ensures DigitsValue(a + b) == DigitsValue(a) * Pow10(|b|) + DigitsValue(b)
    decreases |b|
  {
    if b == [] {
      assert a + b == a;
    } else {
      var b' := b[..|b| - 1];
      var d := b[|b| - 1] as int - '0' as int;
      DigitsValueAppend(a, b');
      var ab := a + b;
      assert ab[..|ab| - 1] == a + b' && ab[|ab| - 1] == b[|b| - 1];
      assert DigitsValue(ab) == 10 * DigitsValue(a + b') + d;
      assert DigitsValue(b) == 10 * DigitsValue(b') + d;
      assert Pow10(|b|) == 10 * Pow10(|b'|);
      ShiftDecimal(DigitsValue(a), Pow10(|b'|), DigitsValue(b'));
    }
  }

  lemma ShiftDecimal(x: int, p: int, y: int)
    ensures 10 * (x * p + y) == x * (10 * p) + 10 * y
  {
  }

  lemma {:induction false} GroupedDigits(n: nat)
    ensures var s := RemoveCommas(GroupThousands(n));
      (forall i :: 0 <= i < |s| ==> IsDigit(s[i])) && DigitsValue(s) == n
  {
    if n < 1000 {
      RemoveCommasOfDigits(NatToString(n));
      NatToStringRoundTrip(n);
    } else {
      var q, m := n / 1000, n % 1000;
      GroupedDigits(q);
      var g, p := GroupThousands(q), Pad3(m);
      assert GroupThousands(n) == g + "," + p;
      var rg := RemoveCommas(g);
      DropGroupComma(g, p);
      DigitsConcat(rg, p);
      DigitsValueAppend(rg, p);
      assert Pow10(3) == 1000;
      assert DigitsValue(rg + p) == q * 1000 + m;
    }
  }

  lemma DropGroupComma(g: string, p: string)
    requires forall i :: 0 <= i < |p| ==> IsDigit(p[i])
    ensures RemoveCommas(g + "," + p) == RemoveCommas(g) + p
  {
    var gc := g + ",";
    RemoveCommasAppend(gc, p);
    RemoveCommasAppend(g, ",");
    RemoveCommasOfDigits(p);
    CommaDropped();
    assert RemoveCommas(gc) == RemoveCommas(g);
  }

  lemma CommaDropped()
    ensures RemoveCommas(",") == []
  {
    assert ","[1..] == [];
  }

  lemma DigitsConcat(a: string, b: string)
    requires forall i :: 0 <= i < |a| ==> IsDigit(a[i])
    requires forall i :: 0 <= i < |b| ==> IsDigit(b[i])
    ensures forall i :: 0 <= i < |a + b| ==> IsDigit((a + b)[i])
  {
  }

  /** Dropping the commas and reading the digits gives the number back. */
  lemma GroupThousandsRoundTrip(n: nat)
    ensures forall i :: 0 <= i < |RemoveCommas(GroupThousands(n))| ==> IsDigit(RemoveCommas(GroupThousands(n))[i])
    ensures DigitsValue(RemoveCommas(GroupThousands(n))) == n
  {
    GroupedDigits(n);
  }

  /** Digits with a comma before every group of three counted from the right, the leading group
      holding one to three digits. */
  predicate CommaGroups(g: string)
    decreases |g|
  {
    if |g| <= 3 then g != [] && forall i :: 0 <= i < |g| ==> IsDigit(g[i])
    else g[|g| - 4] == ',' && (forall i :: |g| - 3 <= i < |g| ==> IsDigit(g[i])) && CommaGroups(g[..|g| - 4])
  }

  /** The shape of `f"{n:,}"` for a natural number: comma groups with no leading zero, unless the
      text is "0" itself. */
  predicate Grouped(g: string) {
    g != [] && CommaGroups(g) && (g[0] == '0' ==> g == "0")
  }

  lemma {:induction false} NatToStringShort(n: nat)
    ensures n < 10 ==> |NatToString(n)| == 1
    ensures n < 100 ==> |NatToString(n)| <= 2
    ensures n < 1000 ==> |NatToString(n)| <= 3
    ensures n >= 10 ==> |NatToString(n)| >= 2
  {
    if n >= 10 { NatToStringShort(n / 10); }
  }

  /** The commas of `GroupThousands(n)` fall before every group of three digits from the right,
      and it starts with '0' only for zero. */
  lemma {:induction false} GroupThousandsGrouped(n: nat)
    ensures Grouped(GroupThousands(n))
    ensures GroupThousands(n)[0] == '0' <==> n == 0
  {
    var s := GroupThousands(n);
    if n < 1000 {
      NatToStringShort(n);
      if n < 10 {
        assert s == [DigitChar(n)];
      } else {
        assert s[0] != '0';
      }
    } else {
      var q, m := n / 1000, n % 1000;
      GroupThousandsGrouped(q);
      var g, p := GroupThousands(q), Pad3(m);
      assert s == g + "," + p;
      assert s[..|s| - 4] == g;
      assert s[0] == g[0];
    }
  }

  lemma {:induction false} DigitsValueBelow(s: string)
    requires forall i :: 0 <= i < |s| ==> IsDigit(s[i])
    ensures DigitsValue(s) < Pow10(|s|)
  {
    if s != [] { DigitsValueBelow(s[..|s| - 1]); }
  }

  lemma {:induction false} DigitsValueLead(s: string)
    requires s != [] && forall i :: 0 <= i < |s| ==> IsDigit(s[i])
    ensures DigitsValue(s) >= s[0] as int - '0' as int
  {
    var init := s[..|s| - 1];
    if |s| > 1 {
      DigitsValueLead(init);
      assert init[0] == s[0];
    } else {
      assert init == [];
    }
  }

  /** Two digit texts of the same length with the same value are equal. */
  lemma {:induction false} DigitsInjective(a: string, b: string)
    requires |a| == |b|
    requires forall i :: 0 <= i < |a| ==> IsDigit(a[i])
    requires forall i :: 0 <= i < |b| ==> IsDigit(b[i])
    requires DigitsValue(a) == DigitsValue(b)
    ensures a == b
  {
    if a != [] {
      var a', b' := a[..|a| - 1], b[..|b| - 1];
      var da, db := a[|a| - 1] as int - '0' as int, b[|b| - 1] as int - '0' as int;
      LastDigit(DigitsValue(a'), da);
      LastDigit(DigitsValue(b'), db);
      DigitsInjective(a', b');
      LastSplit(a);
      LastSplit(b);
    }
  }

  lemma LastDigit(x: nat, d: int)
    requires 0 <= d < 10
    ensures (10 * x + d) % 10 == d && (10 * x + d) / 10 == x
  {
  }

  /** A digit text without a leading zero (other than "0") is the decimal text of its value. */
  lemma {:induction false} NatToStringUnique(s: string)
    requires s != [] && forall i :: 0 <= i < |s| ==> IsDigit(s[i])
    requires |s| == 1 || s[0] != '0'
    ensures s == NatToString(DigitsValue(s))
  {
    var init := s[..|s| - 1];
    var d := s[|s| - 1] as int - '0' as int;
    var v := DigitsValue(s);
    if |s| == 1 {
      assert init == [];
      assert v == 10 * DigitsValue(init) + d;
      assert NatToString(v) == [DigitChar(v)];
    } else {
      assert init[0] == s[0];
      NatToStringUnique(init);
      DigitsValueLead(init);
      assert v == 10 * DigitsValue(init) + d;
      assert v / 10 == DigitsValue(init) && v % 10 == d;
      assert NatToString(v) == NatToString(v / 10) + [DigitChar(v % 10)];
      assert s == init + [s[|s| - 1]];
    }
  }

  lemma {:induction false} CommaGroupsFacts(g: string)
    requires CommaGroups(g)
    ensures g != [] && IsDigit(g[0])
    ensures var r := RemoveCommas(g); r != [] && r[0] == g[0] && forall i :: 0 <= i < |r| ==> IsDigit(r[i])
    decreases |g|
  {
    if |g| <= 3 {
      RemoveCommasOfDigits(g);
    } else {
      var h, t := g[..|g| - 4], g[|g| - 3..];
      CommaGroupsFacts(h);
      assert g == h + "," + t;
      DropGroupComma(h, t);
      DigitsConcat(RemoveCommas(h), t);
      assert g[0] == h[0];
    }
  }

  /** The last group of a comma-grouped text of more than three characters, and its value. */
  lemma LastGroup(g: string)
    requires CommaGroups(g) && |g| > 3
    ensures var h, t := g[..|g| - 4], g[|g| - 3..];
      && CommaGroups(h) && h[0] == g[0]
      && |t| == 3 && (forall i :: 0 <= i < |t| ==> IsDigit(t[i]))
      && var rh := RemoveCommas(h);
      && rh != [] && rh[0] == g[0] && (forall i :: 0 <= i < |rh| ==> IsDigit(rh[i]))
      && RemoveCommas(g) == rh + t
      && DigitsValue(rh + t) == DigitsValue(rh) * 1000 + DigitsValue(t)
      && DigitsValue(t) < 1000
  {
    var h, t := g[..|g| - 4], g[|g| - 3..];
    assert g == h + "," + t;
    CommaGroupsFacts(h);
    DropGroupComma(h, t);
    DigitsValueAppend(RemoveCommas(h), t);
    assert Pow10(3) == 1000;
    DigitsValueBelow(t);
  }

  lemma ShortGroupUnique(g: string, n: nat)
    requires Grouped(g) && |g| <= 3
    requires forall i :: 0 <= i < |RemoveCommas(g)| ==> IsDigit(RemoveCommas(g)[i])
    requires DigitsValue(RemoveCommas(g)) == n
    ensures g == GroupThousands(n)
  {
    RemoveCommasOfDigits(g);
    DigitsValueBelow(g);
    assert Pow10(1) == 10 && Pow10(2) == 100 && Pow10(3) == 1000;
    NatToStringUnique(g);
  }

  lemma GroupThousandsStep(n: nat, q: nat, m: nat)
    requires q >= 1 && m < 1000 && n == q * 1000 + m
    ensures GroupThousands(n) == GroupThousands(q) + "," + Pad3(m)
  {
    DivMod1000(q, m);
  }

  lemma DivMod1000(q: nat, m: nat)
    requires m < 1000
    ensures (q * 1000 + m) / 1000 == q && (q * 1000 + m) % 1000 == m
  {
  }

  /** A grouped digit text is `GroupThousands` of its value: the grouping is unique. */
  lemma {:induction false} GroupedUnique(g: string, n: nat)
    requires Grouped(g)
    requires forall i :: 0 <= i < |RemoveCommas(g)| ==> IsDigit(RemoveCommas(g)[i])
    requires DigitsValue(RemoveCommas(g)) == n
    ensures g == GroupThousands(n)
    decreases |g|
  {
    if |g| <= 3 {
      ShortGroupUnique(g, n);
    } else {
      var h, t := g[..|g| - 4], g[|g| - 3..];
      LastGroup(g);
      var rh := RemoveCommas(h);
      var vh, vt := DigitsValue(rh), DigitsValue(t);
      DigitsValueLead(rh);
      DivMod1000(vh, vt);
      GroupedUnique(h, vh);
      DigitsInjective(t, Pad3(vt));
      GroupThousandsStep(n, vh, vt);
      SplitAt(g, |g| - 4);
      assert g[|g| - 4..|g| - 3] == ",";
      assert g == h + "," + t;
    }
  }

  /** `g` is a grouped rendering of the natural number `m`: comma groups whose digits read as
      `m` once the commas are dropped. */
  predicate GroupedAs(g: string, m: nat) {
    && Grouped(g)
    && (forall i :: 0 <= i < |RemoveCommas(g)| ==> IsDigit(RemoveCommas(g)[i]))
    && DigitsValue(RemoveCommas(g)) == m
  }

  /** `x` is a thousands-grouped rendering of `n`: an optional minus sign, then a grouped
      rendering of |n|. */
  predicate ReadsAs(x: string, n: int) {
    && x != []
    && (n < 0 <==> x[0] == '-')
    && GroupedAs(if n < 0 then x[1..] else x, if n < 0 then -n else n)
  }

  /** The grouped text of `m` is a grouped rendering of `m`. */
  lemma GroupThousandsAs(m: nat)
    ensures GroupedAs(GroupThousands(m), m)
  {
    GroupedDigits(m);
    GroupThousandsGrouped(m);
  }

  /** `f"{n:,}"` reads back as `n`. */
  lemma FormatThousandsReads(n: int)
    ensures ReadsAs(FormatThousands(n), n)
  {
    if n < 0 {
      GroupThousandsAs(-n);
      assert FormatThousands(n)[1..] == GroupThousands(-n);
    } else {
      GroupThousandsAs(n);
    }
  }

  /** The only text that reads as `n` is `f"{n:,}"`. */
  lemma ReadsAsUnique(x: string, n: int)
    requires ReadsAs(x, n)
    ensures x == FormatThousands(n)
  {
    if n < 0 {
      GroupedUnique(x[1..], -n);
      assert x == "-" + x[1..];
    } else {
      GroupedUnique(x, n);
    }
  }

  // ---- `re.sub(r'<[^>]+>', '', s)` ----

  /** Index of the first '>' in `s`, or |s| when there is none. */
  function FirstClose(s: string): (n: nat)
    ensures n <= |s|
    ensures forall i :: 0 <= i < n ==> s[i] != '>'
    ensures n < |s| ==> s[n] == '>'
  {
    if s == [] || s[0] == '>' then 0 else 1 + FirstClose(s[1..])
  }

  /** A tag starts at the front: '<', at least one character other than '>', then '>'. */
  predicate TagAtFront(s: string) {
    |s| >= 2 && s[0] == '<' && 1 < 1 + FirstClose(s[1..]) < |s|
  }

  /** Removes every match of `<[^>]+>`, scanning left to right. */
  function StripTags(s: string): (r: string)
    ensures |r| <= |s|
    ensures forall c :: c in r ==> c in s
    ensures s != [] && !TagAtFront(s) ==> r != [] && r[0] == s[0]
    decreases |s|
  {
    if s == [] then []
    else if TagAtFront(s) then StripTags(s[1 + FirstClose(s[1..]) + 1..])
    else [s[0]] + StripTags(s[1..])
  }

  /** No `<[^>]+>` match: after every '<', the next '>' is the very next character or absent. */
  predicate NoTag(r: string) {
    forall i, j :: 0 <= i && i + 1 < j < |r| && r[i] == '<' && r[j] == '>' ==> '>' in r[i + 1..j]
  }

  /** The removal leaves no tag behind. */
  lemma {:induction false} StripTagsLeavesNoTag(s: string)
    ensures NoTag(StripTags(s))
    decreases |s|
  {
    if s == [] {
    } else if TagAtFront(s) {
      StripTagsLeavesNoTag(s[1 + FirstClose(s[1..]) + 1..]);
    } else {
      var q := StripTags(s[1..]);
      StripTagsLeavesNoTag(s[1..]);
      var r := [s[0]] + q;
      var n := FirstClose(s[1..]);
      // s[0] == '<' with no tag there: s[1] is '>', or no '>' follows at all.
      assert s[0] == '<' && n > 0 ==> forall k :: 0 <= k < |q| ==> q[k] != '>' by {
        if s[0] == '<' && n > 0 {
          forall k | 0 <= k < |q| ensures q[k] != '>' {
            assert q[k] in q;
            assert q[k] in s[1..];
          }
        }
      }
      forall i, j | 0 <= i && i + 1 < j < |r| && r[i] == '<' && r[j] == '>' ensures '>' in r[i + 1..j] {
        assert r[j] == q[j - 1];
        if i > 0 {
          assert r[i + 1..j] == q[i..j - 1];
          assert q[i - 1] == '<';
        } else if n == 0 {
          assert r[1] == s[1];
        } else {
          assert false;
        }
      }
    }
  }

  /** A text with no '<' holds no tag and is kept as it is. */
  lemma {:induction false} StripTagsPlain(s: string)
    requires '<' !in s
    ensures StripTags(s) == s
    decreases |s|
  {
    if s != [] {
      assert s[1..] <= s[1..] && forall c :: c in s[1..] ==> c in s;
      StripTagsPlain(s[1..]);
      assert s == [s[0]] + s[1..];
    }
  }

  /** Text before the first '<' is kept as it is. */
  lemma {:induction false} StripTagsKeepsText(a: string, b: string)
    requires '<' !in a
    ensures StripTags(a + b) == a + StripTags(b)
    decreases |a|
  {
    if a != [] {
      var s := a + b;
      assert a[0] in a;
      assert s[0] == a[0] && s[1..] == a[1..] + b;
      assert '<' !in a[1..] by { assert forall c :: c in a[1..] ==> c in a; }
      assert !TagAtFront(s);
      assert StripTags(s) == [a[0]] + StripTags(a[1..] + b);
      StripTagsKeepsText(a[1..], b);
      assert a + StripTags(b) == [a[0]] + (a[1..] + StripTags(b));
    } else {
      assert a + b == b;
    }
  }

  /** A tag at the front, '<' then at least one character other than '>' then '>', is dropped
      whole. */
  lemma StripTagsDropsTag(x: string, b: string)
    requires x != [] && '>' !in x
    ensures StripTags("<" + x + ">" + b) == StripTags(b)
  {
    var s := "<" + x + ">" + b;
    var t := s[1..];
    assert t == x + ">" + b;
    assert forall i :: 0 <= i < |x| ==> t[i] == x[i];
    assert t[|x|] == '>';
    FirstCloseAt(t, |x|);
    assert TagAtFront(s);
    assert s[1 + |x| + 1..] == b;
  }

  lemma FirstCloseAt(s: string, n: nat)
    requires n < |s| && s[n] == '>' && forall i :: 0 <= i < n ==> s[i] != '>'
    ensures FirstClose(s) == n
  {
    var m := FirstClose(s);
    assert !(m < n) && !(n < m);
  }

  /** A '>' at index m lies in every slice around m. */
  lemma CloseIn(s: string, lo: nat, hi: nat, m: nat)
    requires lo <= m < hi <= |s| && s[m] == '>'
    ensures '>' in s[lo..hi]
  {
    assert s[lo..hi][m - lo] == '>';
  }

  /** The index of a '>' that lies in a slice. */
  lemma CloseAt(s: string, lo: nat, hi: nat) returns (m: nat)
    requires lo <= hi <= |s| && '>' in s[lo..hi]
    ensures lo <= m < hi && s[m] == '>'
  {
    var k :| 0 <= k < hi - lo && s[lo..hi][k] == '>';
    m := lo + k;
  }

  /** A suffix of a text without tags has none. */
  lemma NoTagSuffix(s: string, k: nat)
    requires NoTag(s) && k <= |s|
    ensures NoTag(s[k..])
  {
    var u := s[k..];
    forall i, j | 0 <= i && i + 1 < j < |u| && u[i] == '<' && u[j] == '>' ensures '>' in u[i + 1..j] {
      assert s[k + i] == '<' && s[k + j] == '>';
      var m := CloseAt(s, k + i + 1, k + j);
      CloseIn(u, i + 1, j, m - k);
    }
  }

  /** A prefix of a text without tags has none. */
  lemma NoTagPrefix(s: string, k: nat)
    requires NoTag(s) && k <= |s|
    ensures NoTag(s[..k])
  {
    var u := s[..k];
    forall i, j | 0 <= i && i + 1 < j < |u| && u[i] == '<' && u[j] == '>' ensures '>' in u[i + 1..j] {
      assert s[i] == '<' && s[j] == '>';
      var m := CloseAt(s, i + 1, j);
      CloseIn(u, i + 1, j, m);
    }
  }

  /** In a text without tags, a '<' not directly followed by '>' has no '>' anywhere after it. */
  lemma OpenNeverCloses(s: string, i: nat)
    requires NoTag(s) && i < |s| && s[i] == '<' && (i + 1 < |s| ==> s[i + 1] != '>')
    ensures '>' !in s[i + 1..]
    ensures forall k :: i < k < |s| ==> s[k] != '>'
  {
    var u := s[i + 1..];
    var n := FirstClose(u);
    if n < |u| {
      assert false;
    }
    assert forall k :: 0 <= k < |u| ==> u[k] != '>';
  }

  /** Joining a word and a text without tags by a space makes no tag, when a '<' left open in the
      word meets no '>' in the text. */
  lemma NoTagJoin(w: string, v: string)
    requires NoTag(w) && NoTag(v)
    requires (forall i :: 0 <= i < |w| && w[i] == '<' ==> '>' in w[i + 1..]) || '>' !in v
    ensures NoTag(w + " " + v)
  {
    var s := w + " " + v;
    forall i, j | 0 <= i && i + 1 < j < |s| && s[i] == '<' && s[j] == '>' ensures '>' in s[i + 1..j] {
      if i > |w| {
        var i', j' := i - |w| - 1, j - |w| - 1;
        assert v[i'] == '<' && v[j'] == '>';
        var m := CloseAt(v, i' + 1, j');
        assert s[m + |w| + 1] == '>';
        CloseIn(s, i + 1, j, m + |w| + 1);
      } else if j < |w| {
        assert w[i] == '<' && w[j] == '>';
        var m := CloseAt(w, i + 1, j);
        assert s[m] == '>';
        CloseIn(s, i + 1, j, m);
      } else {
        assert i < |w| && j > |w|;
        assert w[i] == '<';
        CloseIn(v, 0, |v|, j - |w| - 1);
        assert v[0..|v|] == v;
        var m := CloseAt(w, i + 1, |w|);
        assert s[m] == '>';
        CloseIn(s, i + 1, j, m);
      }
    }
  }

  /** `' '.join(t.split())` seen from the front: the first word, then, unless it was the last
      word, a space and the collapsed rest. */
  lemma NormalizeFront(t: string, u: string, n: nat)
    requires u == t[LeadingSpaces(t)..] && u != [] && n == LeadingWord(u)
    ensures 0 < n <= |u| && (n < |u| ==> IsSpace(u[n]))
    ensures Words(u[n..]) == [] ==> NormalizeSpaces(t) == u[..n]
    ensures Words(u[n..]) != [] ==> NormalizeSpaces(t) == u[..n] + " " + NormalizeSpaces(u[n..])
  {
    assert Words(t) == [u[..n]] + Words(u[n..]);
    if Words(u[n..]) != [] {
      JoinWithCons(u[..n], Words(u[n..]), " ");
    }
  }

  /** The index of a '>' in a text. */
  lemma CloseOf(s: string) returns (m: nat)
    requires '>' in s
    ensures m < |s| && s[m] == '>'
  {
    var k :| 0 <= k < |s| && s[k] == '>';
    m := k;
  }

  /** Collapsing whitespace brings no '>' into a text. */
  lemma {:induction false} NormalizeKeepsClose(t: string)
    ensures '>' in NormalizeSpaces(t) ==> '>' in t
    decreases |t|
  {
    var ls := LeadingSpaces(t);
    var u := t[ls..];
    if u != [] {
      var n := LeadingWord(u);
      NormalizeFront(t, u, n);
      if Words(u[n..]) == [] {
        CloseFromSlice(t, ls, ls + n);
      } else {
        NormalizeKeepsClose(u[n..]);
        CloseStep(t, ls, n, NormalizeSpaces(u[n..]));
      }
    }
  }

  /** A '>' in a slice of a text is a '>' in the text. */
  lemma CloseFromSlice(t: string, lo: nat, hi: nat)
    requires lo <= hi <= |t|
    ensures '>' in t[lo..hi] ==> '>' in t
  {
    if '>' in t[lo..hi] {
      var m := CloseAt(t, lo, hi);
      CloseIn(t, 0, |t|, m);
      assert t[0..|t|] == t;
    }
  }

  /** The word at `ls`, a space and a text that has a '>' only where `t` has one after the word,
      have a '>' only where `t` has one. */
  lemma CloseStep(t: string, ls: nat, n: nat, r: string)
    requires ls + n <= |t| && ('>' in r ==> '>' in t[ls..][n..])
    ensures '>' in t[ls..][..n] + " " + r ==> '>' in t
  {
    var s := t[ls..][..n] + " " + r;
    assert t[ls..][..n] == t[ls..ls + n] && t[ls..][n..] == t[ls + n..];
    if '>' in s {
      var m := CloseOf(s);
      if m < n {
        CloseIn(t, ls, ls + n, ls + m);
        CloseFromSlice(t, ls, ls + n);
      } else {
        assert r[m - n - 1] == '>';
        CloseIn(r, 0, |r|, m - n - 1);
        assert r[0..|r|] == r;
        CloseFromSlice(t, ls + n, |t|);
      }
    }
  }

  /** Collapsing whitespace brings no tag into a text. */
  lemma {:induction false} NormalizeKeepsNoTag(t: string)
    requires NoTag(t)
    ensures NoTag(NormalizeSpaces(t))
    decreases |t|
  {
    var u := t[LeadingSpaces(t)..];
    if u != [] {
      var n := LeadingWord(u);
      NormalizeFront(t, u, n);
      NoTagSuffix(t, LeadingSpaces(t));
      NoTagPrefix(u, n);
      if Words(u[n..]) != [] {
        NoTagSuffix(u, n);
        NormalizeKeepsNoTag(u[n..]);
        NormalizeKeepsClose(u[n..]);
        NoTagStep(u, n, NormalizeSpaces(u[n..]));
      }
    }
  }

  /** The first word of a text without tags, a space, and a text without tags that has a '>' only
      where the rest of the text has one, make no tag. */
  lemma NoTagStep(u: string, n: nat, r: string)
    requires NoTag(u) && 0 < n < |u| && IsSpace(u[n])
    requires NoTag(r) && ('>' in r ==> '>' in u[n..])
    ensures NoTag(u[..n] + " " + r)
  {
    NoTagPrefix(u, n);
    OpenWord(u, n);
    NoTagJoin(u[..n], r);
  }

  /** A '<' left open in the first word of a text without tags sees no '>' in the rest. */
  lemma OpenWord(u: string, n: nat)
    requires NoTag(u) && 0 < n < |u| && IsSpace(u[n])
    ensures (forall i :: 0 <= i < n && u[i] == '<' ==> '>' in u[i + 1..n]) || '>' !in u[n..]
  {
    if exists i :: 0 <= i < n && u[i] == '<' && '>' !in u[i + 1..n] {
      var i :| 0 <= i < n && u[i] == '<' && '>' !in u[i + 1..n];
      assert i + 1 < n ==> u[i + 1..n][0] == u[i + 1];
      OpenNeverCloses(u, i);
      assert forall k :: 0 <= k < |u| - n ==> u[n..][k] == u[n + k];
    }
  }

  /** `' '.join(re.sub(r'<[^>]+>', '', text).split())`: markup tags removed, whitespace collapsed to
      single spaces. */
  function CleanHtml(text: string): (r: string)
    ensures SingleSpaced(r)
    ensures NoTag(r)
    ensures Words(r) == Words(StripTags(text))
  {
    StripTagsLeavesNoTag(text);
    NormalizeKeepsNoTag(StripTags(text));
    NormalizeSpaces(StripTags(text))
  }

  /** The words of the text before the first '<' survive the cleaning, in order, followed by
      the words left of the rest; a tag at the front is dropped whole. */
  lemma CleanHtmlWords(a: string, x: string, b: string)
    requires '<' !in a
    ensures Words(CleanHtml(a + b)) == Words(a + StripTags(b))
    ensures '<' !in b ==> Words(CleanHtml(a + b)) == Words(a + b)
    ensures x != [] && '>' !in x ==> CleanHtml("<" + x + ">" + b) == CleanHtml(b)
  {
    StripTagsKeepsText(a, b);
    if '<' !in b {
      StripTagsPlain(b);
    }
    if x != [] && '>' !in x {
      StripTagsDropsTag(x, b);
    }
  }

  /** Text without markup and already single-spaced comes back unchanged, and the tag removal
      leaves no tag behind. */
  lemma CleanHtmlPlain(text: string)
    ensures '<' !in text && SingleSpaced(text) ==> CleanHtml(text) == text
    ensures NoTag(StripTags(text))
  {
    StripTagsLeavesNoTag(text);
    if '<' !in text && SingleSpaced(text) {
      StripTagsPlain(text);
      NormalizeSingleSpaced(text);
    }
  }

  // ---- `for skill in skills: if skill in a or skill in b: score += k` ----

  /** How many of `skills` occur in either of two texts. */
  function CountInEither(skills: seq<string>, a: string, b: string): (n: nat)
    ensures n <= |skills|
  {
    if skills == [] then 0
    else
      var last := skills[|skills| - 1];
      CountInEither(skills[..|skills| - 1], a, b)
        + (if Contains(a, last) || Contains(b, last) then 1 else 0)
  }

  lemma CountInEitherStep(skills: seq<string>, i: nat, a: string, b: string)
    requires i < |skills|
    ensures CountInEither(skills[..i + 1], a, b)
         == CountInEither(skills[..i], a, b) + (if Contains(a, skills[i]) || Contains(b, skills[i]) then 1 else 0)
  {
    assert skills[..i + 1][..i] == skills[..i];
  }

  /** Finding more of the skills can only raise the count. */
  lemma {:induction false} CountInEitherMonotone(skills: seq<string>, t: string, d: string, t': string, d': string)
    requires forall k :: 0 <= k < |skills| ==>
      (Contains(t, skills[k]) || Contains(d, skills[k]) ==> Contains(t', skills[k]) || Contains(d', skills[k]))
    ensures CountInEither(skills, t, d) <= CountInEither(skills, t', d')
  {
    if skills != [] {
      var init := skills[..|skills| - 1];
      assert forall k :: 0 <= k < |init| ==> init[k] == skills[k];
      CountInEitherMonotone(init, t, d, t', d');
    }
  }
}
