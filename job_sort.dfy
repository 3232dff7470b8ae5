/** The four orders `filterJobs` and `searchJobs` sort by, and a stable sort over them.
    `Array.prototype.sort` is stable (ECMAScript 2019), so its result is the unique sequence that
    is sorted and keeps tied jobs in input order; `Sort` below is one definition of it. */
module JobSort {
  import opened Strings
  import opened JobModel
  import opened Salary

  datatype SortKey = ByRelevance | ByDate | BySalary | ByCompany

  /** The sortBy values `filterJobs` recognises; any other value leaves the order unchanged. */
  function ParseSortKey(sortBy: string): (k: Option<SortKey>)
    ensures k == None <==> sortBy !in {"relevance", "date", "salary", "company"}
  {
    if sortBy == "relevance" then Some(ByRelevance)
    else if sortBy == "date" then Some(ByDate)
    else if sortBy == "salary" then Some(BySalary)
    else if sortBy == "company" then Some(ByCompany)
    else None
  }

  /** Date order, newest first. An unparseable date (NaN in the source) sorts after every date. */
  predicate NewerThan(a: Option<int>, b: Option<int>) {
    match (a, b)
    case (Some(x), Some(y)) => x > y
    case (Some(_), None) => true
    case (None, _) => false
  }

  /** `Precedes(k, a, b)`: the comparator of key `k` puts `a` strictly before `b`. */
  predicate Precedes(k: SortKey, a: Job, b: Job) {
    match k
    case ByRelevance => a.relevanceScore > b.relevanceScore
    case ByDate => NewerThan(a.postedDate, b.postedDate)
    case BySalary => MaxSalary(a.salary) > MaxSalary(b.salary)
    case ByCompany => LexLess(a.company, b.company)
  }

  /** Equal sort keys: the comparator returns 0. */
  predicate Tied(k: SortKey, a: Job, b: Job) {
    !Precedes(k, a, b) && !Precedes(k, b, a)
  }

  lemma PrecedesIrreflexive(k: SortKey, a: Job)
    ensures !Precedes(k, a, a)
  {
    if k == ByCompany { LexIrreflexive(a.company); }
  }

  lemma PrecedesTransitive(k: SortKey, a: Job, b: Job, c: Job)
    ensures Precedes(k, a, b) && Precedes(k, b, c) ==> Precedes(k, a, c)
  {
    if k == ByCompany { LexTransitive(a.company, b.company, c.company); }
  }

  /** Each order is a strict weak order: if `a` precedes `c`, any `b` is after `a` or before `c`. */
  lemma PrecedesComparable(k: SortKey, a: Job, b: Job, c: Job)
    ensures Precedes(k, a, c) ==> Precedes(k, a, b) || Precedes(k, b, c)
  {
    if k == ByCompany {
      LexTotal(a.company, b.company);
      LexTotal(b.company, c.company);
      LexTransitive(c.company, b.company, a.company);
      LexTransitive(c.company, a.company, c.company);
      LexTransitive(a.company, c.company, a.company);
      LexIrreflexive(a.company);
      LexIrreflexive(c.company);
    }
  }

  predicate Sorted(k: SortKey, s: seq<Job>) {
    forall i, j :: 0 <= i < j < |s| ==> !Precedes(k, s[j], s[i])
  }

  /** Inserts `x` after every job that `x` does not precede. */
  function Insert(k: SortKey, x: Job, t: seq<Job>): seq<Job> {
    if t == [] then [x]
    else if Precedes(k, x, t[0]) then [x] + t
    else [t[0]] + Insert(k, x, t[1..])
  }

  /** Stable sort by key `k`. */
  function Sort(k: SortKey, s: seq<Job>): seq<Job> {
    if s == [] then []
    else Insert(k, s[|s| - 1], Sort(k, s[..|s| - 1]))
  }

  /** The jobs of `s` tied with `e`, in the order of `s`. */
  function TiedWith(k: SortKey, s: seq<Job>, e: Job): seq<Job> {
    if s == [] then []
    else (if Tied(k, s[0], e) then [s[0]] else []) + TiedWith(k, s[1..], e)
  }

  lemma {:induction false} InsertPermutation(k: SortKey, x: Job, t: seq<Job>)
    ensures multiset(Insert(k, x, t)) == multiset(t) + multiset{x}
  {
    if t == [] {
    } else if Precedes(k, x, t[0]) {
      assert Insert(k, x, t) == [x] + t;
    } else {
      var rest := Insert(k, x, t[1..]);
      InsertPermutation(k, x, t[1..]);
      assert Insert(k, x, t) == [t[0]] + rest;
      ConsMultiset(t, rest, x);
    }
  }

  /** Putting the head of `t` back in front of a permutation of `t[1..]` plus `x`. */
  lemma ConsMultiset<T>(t: seq<T>, rest: seq<T>, x: T)
    requires t != [] && multiset(rest) == multiset(t[1..]) + multiset{x}
    ensures multiset([t[0]] + rest) == multiset(t) + multiset{x}
  {
    assert t == [t[0]] + t[1..];
  }

  /** Sorting only reorders: the result is a permutation of the input. */
  lemma {:induction false} SortPermutation(k: SortKey, s: seq<Job>)
    ensures multiset(Sort(k, s)) == multiset(s)
    ensures |Sort(k, s)| == |s|
  {
    if s != [] {
      SortPermutation(k, s[..|s| - 1]);
      InsertPermutation(k, s[|s| - 1], Sort(k, s[..|s| - 1]));
      SnocMultiset(s);
    }
    assert |multiset(Sort(k, s))| == |Sort(k, s)| && |multiset(s)| == |s|;
  }

  lemma SnocMultiset<T>(s: seq<T>)
    requires s != []
    ensures multiset(s) == multiset(s[..|s| - 1]) + multiset{s[|s| - 1]}
  {
    assert s == s[..|s| - 1] + [s[|s| - 1]];
  }

  /** A head that no later job precedes extends a sorted sequence. */
  lemma ConsSorted(k: SortKey, h: Job, r: seq<Job>)
    requires Sorted(k, r)
    requires forall j :: 0 <= j < |r| ==> !Precedes(k, r[j], h)
    ensures Sorted(k, [h] + r)
  {
    var s := [h] + r;
    forall i, j | 0 <= i < j < |s| ensures !Precedes(k, s[j], s[i]) {
      ConsPair(k, h, r, i, j);
    }
  }

  lemma ConsPair(k: SortKey, h: Job, r: seq<Job>, i: nat, j: nat)
    requires Sorted(k, r)
    requires forall j :: 0 <= j < |r| ==> !Precedes(k, r[j], h)
    requires i < j <= |r|
    ensures !Precedes(k, ([h] + r)[j], ([h] + r)[i])
  {
    var s := [h] + r;
    assert s[j] == r[j - 1];
    if i > 0 {
      assert s[i] == r[i - 1];
    }
  }

  /** A permutation of `t[1..]` plus a job not before `t[0]` holds nothing before `t[0]`. */
  lemma NoneBeforeHead(k: SortKey, x: Job, t: seq<Job>, rest: seq<Job>)
    requires Sorted(k, t) && t != [] && !Precedes(k, x, t[0])
    requires multiset(rest) == multiset(t[1..]) + multiset{x}
    ensures forall j :: 0 <= j < |rest| ==> !Precedes(k, rest[j], t[0])
  {
    forall j | 0 <= j < |rest| ensures !Precedes(k, rest[j], t[0]) {
      var y := rest[j];
      assert y in multiset(rest);
      if y != x {
        assert y in multiset(t[1..]);
        var m :| 0 <= m < |t[1..]| && t[1..][m] == y;
        assert t[m + 1] == y;
      }
    }
  }

  lemma {:induction false} InsertSorted(k: SortKey, x: Job, t: seq<Job>)
    requires Sorted(k, t)
    ensures Sorted(k, Insert(k, x, t))
  {
    if t == [] {
    } else if Precedes(k, x, t[0]) {
      forall j | 0 <= j < |t| ensures !Precedes(k, t[j], x) {
        PrecedesTransitive(k, t[j], x, t[0]);
        PrecedesIrreflexive(k, t[0]);
      }
      ConsSorted(k, x, t);
    } else {
      var rest := Insert(k, x, t[1..]);
      InsertSorted(k, x, t[1..]);
      InsertPermutation(k, x, t[1..]);
      NoneBeforeHead(k, x, t, rest);
      ConsSorted(k, t[0], rest);
    }
  }

  /** The sort's result is ordered by key `k`: no job precedes a job placed before it. */
  lemma {:induction false} SortSorted(k: SortKey, s: seq<Job>)
    ensures Sorted(k, Sort(k, s))
  {
    if s != [] {
      SortSorted(k, s[..|s| - 1]);
      InsertSorted(k, s[|s| - 1], Sort(k, s[..|s| - 1]));
    }
  }

  lemma {:induction false} TiedWithAppend(k: SortKey, a: seq<Job>, b: seq<Job>, e: Job)
    ensures TiedWith(k, a + b, e) == TiedWith(k, a, e) + TiedWith(k, b, e)
  {
    if a != [] {
      TiedWithAppend(k, a[1..], b, e);
      var h := if Tied(k, a[0], e) then [a[0]] else [];
      ConsOfAppend(a, b);
      assert TiedWith(k, a + b, e) == h + TiedWith(k, a[1..] + b, e);
      assert TiedWith(k, a, e) == h + TiedWith(k, a[1..], e);
      ConcatAssoc(h, TiedWith(k, a[1..], e), TiedWith(k, b, e));
    } else {
      assert a + b == b;
    }
  }

  lemma {:induction false} NoneTied(k: SortKey, t: seq<Job>, e: Job)
    requires forall j :: 0 <= j < |t| ==> !Tied(k, t[j], e)
    ensures TiedWith(k, t, e) == []
  {
    if t != [] { NoneTied(k, t[1..], e); }
  }

  /** A job tied with `e` that precedes the head of a sorted sequence is tied with none of it. */
  lemma TiedNoneAfter(k: SortKey, x: Job, t: seq<Job>, e: Job)
    requires Sorted(k, t) && t != [] && Precedes(k, x, t[0]) && Tied(k, x, e)
    ensures TiedWith(k, t, e) == []
  {
    forall j | 0 <= j < |t| ensures !Tied(k, t[j], e) {
      PrecedesIrreflexive(k, t[0]);
      PrecedesComparable(k, x, t[j], t[0]);
      PrecedesComparable(k, x, e, t[j]);
    }
    NoneTied(k, t, e);
  }

  lemma TiedWithCons(k: SortKey, h: Job, r: seq<Job>, e: Job)
    ensures TiedWith(k, [h] + r, e) == (if Tied(k, h, e) then [h] else []) + TiedWith(k, r, e)
  {
    assert ([h] + r)[0] == h;
    assert ([h] + r)[1..] == r;
  }

  lemma {:induction false} InsertTied(k: SortKey, x: Job, t: seq<Job>, e: Job)
    requires Sorted(k, t)
    ensures TiedWith(k, Insert(k, x, t), e) == TiedWith(k, t, e) + (if Tied(k, x, e) then [x] else [])
  {
    if t == [] {
      TiedWithCons(k, x, [], e);
      assert Insert(k, x, t) == [x] + [];
    } else if Precedes(k, x, t[0]) {
      InsertTiedFront(k, x, t, e);
    } else {
      SortedTail(k, t);
      InsertTied(k, x, t[1..], e);
      InsertTiedStep(k, x, t, e);
    }
  }

  /** Inserting behind the head: the head's tie status comes first on both sides. */
  lemma InsertTiedStep(k: SortKey, x: Job, t: seq<Job>, e: Job)
    requires t != [] && !Precedes(k, x, t[0])
    requires TiedWith(k, Insert(k, x, t[1..]), e) == TiedWith(k, t[1..], e) + (if Tied(k, x, e) then [x] else [])
    ensures TiedWith(k, Insert(k, x, t), e) == TiedWith(k, t, e) + (if Tied(k, x, e) then [x] else [])
  {
    var rest := Insert(k, x, t[1..]);
    var h := if Tied(k, t[0], e) then [t[0]] else [];
    var tail := if Tied(k, x, e) then [x] else [];
    assert Insert(k, x, t) == [t[0]] + rest;
    TiedWithCons(k, t[0], rest, e);
    var a := TiedWith(k, t[1..], e);
    assert TiedWith(k, t, e) == h + a;
    ConcatAssoc(h, a, tail);
  }

  lemma SortedTail(k: SortKey, t: seq<Job>)
    requires Sorted(k, t) && t != []
    ensures Sorted(k, t[1..])
  {
    forall j | 0 <= j < |t| - 1 ensures t[1..][j] == t[j + 1] { }
  }

  /** Inserting in front of a sorted sequence: `x` precedes all of it, so no job of it is tied with `x`. */
  lemma InsertTiedFront(k: SortKey, x: Job, t: seq<Job>, e: Job)
    requires Sorted(k, t) && t != [] && Precedes(k, x, t[0])
    ensures TiedWith(k, Insert(k, x, t), e) == TiedWith(k, t, e) + (if Tied(k, x, e) then [x] else [])
  {
    assert Insert(k, x, t) == [x] + t;
    TiedWithCons(k, x, t, e);
    if Tied(k, x, e) {
      TiedNoneAfter(k, x, t, e);
    }
  }

  /** Stability: the jobs tied with any `e` come out in the order they went in. */
  lemma {:induction false} SortStable(k: SortKey, s: seq<Job>, e: Job)
    ensures TiedWith(k, Sort(k, s), e) == TiedWith(k, s, e)
  {
    if s != [] {
      var init, last := s[..|s| - 1], s[|s| - 1];
      SortStable(k, init, e);
      SortSorted(k, init);
      InsertTied(k, last, Sort(k, init), e);
      TiedWithAppend(k, init, [last], e);
      TiedWithCons(k, last, [], e);
      assert [last] + [] == [last];
      assert init + [last] == s;
    }
  }

  lemma {:induction false} InsertLast(k: SortKey, x: Job, t: seq<Job>)
    requires forall j :: 0 <= j < |t| ==> !Precedes(k, x, t[j])
    ensures Insert(k, x, t) == t + [x]
  {
    if t != [] {
      InsertLast(k, x, t[1..]);
      assert t == [t[0]] + t[1..];
    }
  }

  /** Sorting an already sorted sequence changes nothing. */
  lemma {:induction false} SortOfSorted(k: SortKey, s: seq<Job>)
    requires Sorted(k, s)
    ensures Sort(k, s) == s
  {
    if s != [] {
      var init, last := s[..|s| - 1], s[|s| - 1];
      SortedSplit(k, s);
      SortOfSorted(k, init);
      InsertLast(k, last, init);
      LastSplit(s);
    }
  }

  /** The init of a sorted sequence is sorted, and its last job precedes none of the init. */
  lemma SortedSplit(k: SortKey, s: seq<Job>)
    requires Sorted(k, s) && s != []
    ensures Sorted(k, s[..|s| - 1])
    ensures var init := s[..|s| - 1]; forall j :: 0 <= j < |init| ==> !Precedes(k, s[|s| - 1], init[j])
  {
    var init := s[..|s| - 1];
    forall j | 0 <= j < |init| ensures init[j] == s[j] { }
  }
}
