/** The salary tokeniser used twice in the front end: `salary.match(/\d+,?\d*\/g)`, each match
    with its first comma removed and read by `parseInt`, and `[0]` when nothing matches. */
module Salary {
  import opened Strings

  /** Length of the leading run of ASCII digits (JS `\d`). */
  function DigitRun(s: string): (n: nat)
    ensures n <= |s|
    ensures forall i :: 0 <= i < n ==> IsDigit(s[i])
    ensures n < |s| ==> !IsDigit(s[n])
  {
    if s == [] || !IsDigit(s[0]) then 0 else 1 + DigitRun(s[1..])
  }

  /** Decimal value of a string of digits. */
  function DigitsValue(s: string): nat
    requires forall i :: 0 <= i < |s| ==> IsDigit(s[i])
  {
    if s == [] then 0
    else
      assert IsDigit(s[|s| - 1]);
      10 * DigitsValue(s[..|s| - 1]) + (s[|s| - 1] as int - '0' as int)
  }

  /** `parseInt` of a string that starts with a digit: the value of its leading digits. */
  function ParseLeadingInt(s: string): nat {
    DigitsValue(s[..DigitRun(s)])
  }

  /** JS `s.replace(',', '')`: only the first comma goes. */
  function RemoveFirstComma(s: string): (r: string)
    ensures ',' !in s ==> r == s
  {
    if s == [] then []
    else if s[0] == ',' then s[1..]
    else [s[0]] + RemoveFirstComma(s[1..])
  }

  /** The successive matches of the global regex `\d+,?\d*`, left to right: a run of digits, then
      a comma and the digits after it if a comma follows. */
  function MatchTokens(s: string): (ts: seq<string>)
    ensures forall k :: 0 <= k < |ts| ==> ts[k] != [] && IsDigit(ts[k][0])
    ensures (forall i :: 0 <= i < |s| ==> !IsDigit(s[i])) ==> ts == []
    decreases |s|
  {
    if s == [] then []
    else if !IsDigit(s[0]) then MatchTokens(s[1..])
    else
      var n := DigitRun(s);
      var m := if n < |s| && s[n] == ',' then n + 1 + DigitRun(s[n + 1..]) else n;
      [s[..m]] + MatchTokens(s[m..])
  }

  /** The numbers the front end reads out of a salary text; `[0]` when there is none. */
  function SalaryNumbers(salary: string): (ns: seq<nat>)
    ensures |ns| > 0
    ensures MatchTokens(salary) == [] ==> ns == [0]
    ensures MatchTokens(salary) != [] ==>
      |ns| == |MatchTokens(salary)| &&
      forall k :: 0 <= k < |ns| ==> ns[k] == ParseLeadingInt(RemoveFirstComma(MatchTokens(salary)[k]))
  {
    var ts := MatchTokens(salary);
    if ts == [] then [0] else ParseTokens(ts)
  }

  /** Each token with its first comma removed, read by `parseInt`. */
  function ParseTokens(ts: seq<string>): (ns: seq<nat>)
    ensures |ns| == |ts|
    ensures forall k :: 0 <= k < |ns| ==> ns[k] == ParseLeadingInt(RemoveFirstComma(ts[k]))
  {
    if ts == [] then [] else [ParseLeadingInt(RemoveFirstComma(ts[0]))] + ParseTokens(ts[1..])
  }

  /** JS `Math.max(...ns)` on a non-empty list. */
  function Max(ns: seq<nat>): (m: nat)
    requires |ns| > 0
    ensures m in ns
    ensures forall k :: 0 <= k < |ns| ==> ns[k] <= m
  {
    if |ns| == 1 then ns[0]
    else
      var m := Max(ns[1..]);
      if ns[0] >= m then ns[0] else m
  }

  /** JS `Math.min(...ns)` on a non-empty list. */
  function Min(ns: seq<nat>): (m: nat)
    requires |ns| > 0
    ensures m in ns
    ensures forall k :: 0 <= k < |ns| ==> m <= ns[k]
  {
    if |ns| == 1 then ns[0]
    else
      var m := Min(ns[1..]);
      if ns[0] <= m then ns[0] else m
  }

  function MaxSalary(salary: string): nat {
    Max(SalaryNumbers(salary))
  }

  function MinSalary(salary: string): nat {
    Min(SalaryNumbers(salary))
  }

  /** The extremes are parsed numbers of the text, every parsed number lies between them, and
      the minimum is at most the maximum. */
  lemma SalaryExtremes(salary: string)
    ensures var ns, lo, hi := SalaryNumbers(salary), MinSalary(salary), MaxSalary(salary);
      && lo in ns && hi in ns && lo <= hi
      && forall x :: x in ns ==> lo <= x <= hi
  {
  }

  /** A salary text without digits reads as the single number 0. */
  lemma NoDigitsReadsAsZero(salary: string)
    requires forall i :: 0 <= i < |salary| ==> !IsDigit(salary[i])
    ensures SalaryNumbers(salary) == [0]
    ensures MaxSalary(salary) == 0 && MinSalary(salary) == 0
  {
  }

  /** The decimal digit of a value below ten. */
  function DigitChar(d: nat): (c: char)
    requires d < 10
    ensures IsDigit(c) && c as int - '0' as int == d
  {
    ('0' as int + d) as char
  }

  /** Decimal text of a natural number, no leading zeros (JS `String(n)`, Python `str(n)`). */
  function NatToString(n: nat): (s: string)
    ensures s != [] && forall i :: 0 <= i < |s| ==> IsDigit(s[i])
    ensures |s| == 1 || s[0] != '0'
  {
    if n < 10 then [DigitChar(n)] else NatToString(n / 10) + [DigitChar(n % 10)]
  }

  /** Reading back the decimal text of `n` gives `n`. */
  lemma {:induction false} NatToStringRoundTrip(n: nat)
    ensures DigitsValue(NatToString(n)) == n
    ensures ParseLeadingInt(NatToString(n)) == n
  {
    var s := NatToString(n);
    if n >= 10 {
      NatToStringRoundTrip(n / 10);
      assert s[..|s| - 1] == NatToString(n / 10);
    }
    DigitRunAll(s);
    assert s[..|s|] == s;
  }

  lemma {:induction false} DigitRunAll(s: string)
    requires forall i :: 0 <= i < |s| ==> IsDigit(s[i])
    ensures DigitRun(s) == |s|
  {
    if s != [] { DigitRunAll(s[1..]); }
  }
}

