/** The regular expressions the Indeed scraper looks for salaries with, modelled as sequences of
    simple pieces, and Python's backtracking search for them: `re.search` tries start positions
    from the left, and at each start tries the choices of every piece greedily (longest first),
    backing up to the next choice when the rest of the pattern fails. */
module SalaryPattern {
  import opened Strings
  import opened JobModel
  import opened Salary

  /** One piece of a pattern: a literal character, a literal letter matched without case
      (`re.IGNORECASE`), `\d{lo,hi}`, `,?` and `\s*`. */
  datatype Piece = Lit(c: char) | LitNoCase(c: char) | Digits(lo: nat, hi: nat) | OptComma | Spaces

  /** The texts a piece matches. */
  predicate PieceText(pc: Piece, t: string) {
    match pc
    case Lit(c) => t == [c]
    case LitNoCase(c) => |t| == 1 && LowerChar(t[0]) == LowerChar(c)
    case Digits(lo, hi) => lo <= |t| <= hi && forall i :: 0 <= i < |t| ==> IsDigit(t[i])
    case OptComma => t == [] || t == [',']
    case Spaces => forall i :: 0 <= i < |t| ==> IsSpace(t[i])
  }

  /** `hi, hi - 1, ..., lo`. */
  function Down(hi: nat, lo: nat): (r: seq<nat>)
    ensures forall q :: q in r <==> lo <= q <= hi
    ensures forall i, j :: 0 <= i < j < |r| ==> r[i] > r[j]
    decreases hi
  {
    if hi < lo then [] else if hi == lo then [lo] else [hi] + Down(hi - 1, lo)
  }

  /** `r` lists, from the longest down, exactly the ends of the texts piece `pc` can match from `p`. */
  predicate EndsOf(pc: Piece, s: string, p: nat, r: seq<nat>)
    requires p <= |s|
  {
    && (forall k :: 0 <= k < |r| ==> p <= r[k] <= |s|)
    && (forall q :: p <= q <= |s| ==> (q in r <==> PieceText(pc, s[p..q])))
    && (forall i, j :: 0 <= i < j < |r| ==> r[i] > r[j])
  }

  /** The ends of the texts piece `pc` can match from position `p`, in the order the engine
      tries them. */
  function Options(pc: Piece, s: string, p: nat): (r: seq<nat>)
    requires p <= |s|
    ensures forall k :: 0 <= k < |r| ==> p <= r[k] <= |s|
    ensures forall q :: p <= q <= |s| ==> (q in r <==> PieceText(pc, s[p..q]))
    ensures forall i, j :: 0 <= i < j < |r| ==> r[i] > r[j]
  {
    var r := match pc
      case Lit(c) => LitOptions(c, s, p)
      case LitNoCase(c) => LitNoCaseOptions(c, s, p)
      case Digits(lo, hi) => DigitsOptions(lo, hi, s, p)
      case OptComma => OptCommaOptions(s, p)
      case Spaces => SpacesOptions(s, p);
    assert EndsOf(pc, s, p, r);
    r
  }

  function LitOptions(c: char, s: string, p: nat): (r: seq<nat>)
    requires p <= |s|
    ensures EndsOf(Lit(c), s, p, r)
  {
    assert forall q :: p <= q <= |s| && PieceText(Lit(c), s[p..q]) ==> q == p + 1;
    if p < |s| && s[p] == c then [p + 1] else []
  }

  function LitNoCaseOptions(c: char, s: string, p: nat): (r: seq<nat>)
    requires p <= |s|
    ensures EndsOf(LitNoCase(c), s, p, r)
  {
    assert forall q :: p <= q <= |s| && PieceText(LitNoCase(c), s[p..q]) ==> q == p + 1;
    if p < |s| && LowerChar(s[p]) == LowerChar(c) then [p + 1] else []
  }

  /** Greedy: the longest digit run allowed first, down to the shortest. */
  function DigitsOptions(lo: nat, hi: nat, s: string, p: nat): (r: seq<nat>)
    requires p <= |s|
    ensures EndsOf(Digits(lo, hi), s, p, r)
  {
    var k := DigitRun(s[p..]);
    var top := if k < hi then k else hi;
    DigitsEnds(s, p, lo, hi);
    var r := Down(p + top, p + lo);
    assert forall j :: 0 <= j < |r| ==> r[j] in r;
    r
  }

  /** Greedy: the comma first when there is one, then the empty match. */
  function OptCommaOptions(s: string, p: nat): (r: seq<nat>)
    requires p <= |s|
    ensures EndsOf(OptComma, s, p, r)
  {
    assert forall q :: p <= q <= |s| && PieceText(OptComma, s[p..q]) ==> q == p || q == p + 1;
    assert s[p..p] == [];
    assert p < |s| ==> s[p..p + 1] == [s[p]];
    if p < |s| && s[p] == ',' then [p + 1, p] else [p]
  }

  /** Greedy: every whitespace character from `p` on first, down to none. */
  function SpacesOptions(s: string, p: nat): (r: seq<nat>)
    requires p <= |s|
    ensures EndsOf(Spaces, s, p, r)
  {
    SpacesEnds(s, p);
    var r := Down(p + LeadingSpaces(s[p..]), p);
    assert forall j :: 0 <= j < |r| ==> r[j] in r;
    r
  }

  lemma DigitsEnds(s: string, p: nat, lo: nat, hi: nat)
    requires p <= |s|
    ensures var k := DigitRun(s[p..]); var top := if k < hi then k else hi;
      forall q :: p <= q <= |s| ==> (PieceText(Digits(lo, hi), s[p..q]) <==> p + lo <= q <= p + top)
  {
    var k := DigitRun(s[p..]);
    forall q | p <= q <= |s| ensures (forall i :: 0 <= i < q - p ==> IsDigit(s[p..q][i])) <==> q - p <= k {
      assert forall i :: 0 <= i < q - p ==> s[p..q][i] == s[p..][i];
      if q - p > k {
        assert s[p..q][k] == s[p..][k];
      }
    }
  }

  lemma SpacesEnds(s: string, p: nat)
    requires p <= |s|
    ensures forall q :: p <= q <= |s| ==> (PieceText(Spaces, s[p..q]) <==> q <= p + LeadingSpaces(s[p..]))
  {
    var k := LeadingSpaces(s[p..]);
    forall q | p <= q <= |s| ensures (forall i :: 0 <= i < q - p ==> IsSpace(s[p..q][i])) <==> q - p <= k {
      assert forall i :: 0 <= i < q - p ==> s[p..q][i] == s[p..][i];
      if q - p > k {
        assert s[p..q][k] == s[p..][k];
      }
    }
  }

  /** The language of a pattern: `s[p..e]` splits into texts of its pieces, in order. */
  predicate Reaches(ps: seq<Piece>, s: string, p: nat, e: nat)
    requires p <= e <= |s|
    decreases |ps|
  {
    if ps == [] then p == e
    else exists q :: p <= q <= e && PieceText(ps[0], s[p..q]) && Reaches(ps[1..], s, q, e)
  }

  /** The pattern matches some text starting at `i`. */
  predicate MatchesAt(ps: seq<Piece>, s: string, i: nat)
    requires i <= |s|
  {
    exists e :: i <= e <= |s| && Reaches(ps, s, i, e)
  }

  /** The end of the match the backtracking engine finds from `p`, if any. */
  function MatchFrom(ps: seq<Piece>, s: string, p: nat): (r: Option<nat>)
    requires p <= |s|
    ensures r.Some? ==> p <= r.value <= |s|
    decreases |ps|, 1, 0
  {
    if ps == [] then Some(p) else FirstEnd(ps, s, p, Options(ps[0], s, p))
  }

  /** Tries the choices `opts` of the first piece in order; the first one the rest of the pattern
      can continue from wins. */
  function FirstEnd(ps: seq<Piece>, s: string, p: nat, opts: seq<nat>): (r: Option<nat>)
    requires ps != [] && p <= |s|
    requires forall k :: 0 <= k < |opts| ==> p <= opts[k] <= |s|
    ensures r.Some? ==> p <= r.value <= |s|
    decreases |ps|, 0, |opts|
  {
    if opts == [] then None
    else
      match MatchFrom(ps[1..], s, opts[0])
      case Some(e) => Some(e)
      case None => FirstEnd(ps, s, p, opts[1..])
  }

  /** What the engine finds is a match. */
  lemma {:induction false} MatchFromSound(ps: seq<Piece>, s: string, p: nat)
    requires p <= |s|
    ensures MatchFrom(ps, s, p).Some? ==> Reaches(ps, s, p, MatchFrom(ps, s, p).value)
    decreases |ps|, 1, 0
  {
    if ps != [] {
      FirstEndSound(ps, s, p, Options(ps[0], s, p));
    }
  }

  lemma {:induction false} FirstEndSound(ps: seq<Piece>, s: string, p: nat, opts: seq<nat>)
    requires ps != [] && p <= |s|
    requires forall k :: 0 <= k < |opts| ==> p <= opts[k] <= |s|
    requires forall k :: 0 <= k < |opts| ==> PieceText(ps[0], s[p..opts[k]])
    ensures FirstEnd(ps, s, p, opts).Some? ==> Reaches(ps, s, p, FirstEnd(ps, s, p, opts).value)
    decreases |ps|, 0, |opts|
  {
    if opts != [] {
      var q := opts[0];
      MatchFromSound(ps[1..], s, q);
      if MatchFrom(ps[1..], s, q).Some? {
        var e := MatchFrom(ps[1..], s, q).value;
        assert q <= e;
        assert Reaches(ps[1..], s, q, e);
      } else {
        FirstEndSound(ps, s, p, opts[1..]);
      }
    }
  }

  /** Whenever the pattern can match from `p`, the engine finds a match there. */
  lemma {:induction false} MatchFromComplete(ps: seq<Piece>, s: string, p: nat, e: nat)
    requires p <= e <= |s| && Reaches(ps, s, p, e)
    ensures MatchFrom(ps, s, p).Some?
    decreases |ps|, 1, 0
  {
    if ps != [] {
      var q :| p <= q <= e && PieceText(ps[0], s[p..q]) && Reaches(ps[1..], s, q, e);
      var opts := Options(ps[0], s, p);
      assert q in opts;
      var k :| 0 <= k < |opts| && opts[k] == q;
      MatchFromComplete(ps[1..], s, q, e);
      FirstEndComplete(ps, s, p, opts, k);
    }
  }

  lemma {:induction false} FirstEndComplete(ps: seq<Piece>, s: string, p: nat, opts: seq<nat>, k: nat)
    requires ps != [] && p <= |s|
    requires forall j :: 0 <= j < |opts| ==> p <= opts[j] <= |s|
    requires k < |opts| && MatchFrom(ps[1..], s, opts[k]).Some?
    ensures FirstEnd(ps, s, p, opts).Some?
    decreases |opts|
  {
    if k > 0 && MatchFrom(ps[1..], s, opts[0]).None? {
      FirstEndComplete(ps, s, p, opts[1..], k - 1);
    }
  }

  /** The engine finds a match from `i` exactly when the pattern matches there. */
  lemma MatchFromIff(ps: seq<Piece>, s: string, i: nat)
    requires i <= |s|
    ensures MatchFrom(ps, s, i).Some? <==> MatchesAt(ps, s, i)
    ensures MatchFrom(ps, s, i).Some? ==> Reaches(ps, s, i, MatchFrom(ps, s, i).value)
  {
    MatchFromSound(ps, s, i);
    if MatchesAt(ps, s, i) {
      var e :| i <= e <= |s| && Reaches(ps, s, i, e);
      MatchFromComplete(ps, s, i, e);
    }
  }

  /** `re.search`: the leftmost start from `from` on with a match, and the match's end. */
  function Search(ps: seq<Piece>, s: string, from: nat): (r: Option<(nat, nat)>)
    requires from <= |s|
    ensures r.Some? ==> from <= r.value.0 <= r.value.1 <= |s| && MatchFrom(ps, s, r.value.0) == Some(r.value.1)
    ensures r.Some? ==> forall k :: from <= k < r.value.0 ==> MatchFrom(ps, s, k).None?
    ensures r.None? ==> forall k :: from <= k <= |s| ==> MatchFrom(ps, s, k).None?
    decreases |s| - from
  {
    match MatchFrom(ps, s, from)
    case Some(e) => Some((from, e))
    case None => if from == |s| then None else Search(ps, s, from + 1)
  }

  /** The pattern matches nowhere in `s`. */
  predicate NoMatch(ps: seq<Piece>, s: string) {
    forall i :: 0 <= i <= |s| ==> !MatchesAt(ps, s, i)
  }

  /** `i` is the leftmost start of a match, and `e` the end the engine settles on there. */
  predicate LeftmostMatch(ps: seq<Piece>, s: string, i: nat, e: nat) {
    i <= e <= |s| && MatchFrom(ps, s, i) == Some(e) && Reaches(ps, s, i, e)
    && forall j :: 0 <= j < i ==> !MatchesAt(ps, s, j)
  }

  /** Search's result, in the declarative terms. */
  lemma SearchMeaning(ps: seq<Piece>, s: string)
    ensures Search(ps, s, 0).None? <==> NoMatch(ps, s)
    ensures Search(ps, s, 0).Some? ==> LeftmostMatch(ps, s, Search(ps, s, 0).value.0, Search(ps, s, 0).value.1)
  {
    var r := Search(ps, s, 0);
    forall i | 0 <= i <= |s| ensures MatchFrom(ps, s, i).Some? <==> MatchesAt(ps, s, i) {
      MatchFromIff(ps, s, i);
    }
    if r.Some? {
      MatchFromIff(ps, s, r.value.0);
    }
  }
}
