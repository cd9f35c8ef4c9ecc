/** Filtering and summing: the two ways the controllers look at lists of pods. */
module Seqs {

  predicate Distinct<T(==)>(s: seq<T>) {
    forall i, j | 0 <= i < j < |s| :: s[i] != s[j]
  }

  /** The elements that satisfy f, in their order. */
  function Where<T>(f: T -> bool, s: seq<T>): (r: seq<T>)
    ensures |r| <= |s|
  {
    if s == [] then []
    else
      var rest := Where(f, s[..|s| - 1]);
      if f(s[|s| - 1]) then rest + [s[|s| - 1]] else rest
  }

  lemma WhereSnoc<T>(f: T -> bool, s: seq<T>, x: T)
    ensures Where(f, s + [x]) == if f(x) then Where(f, s) + [x] else Where(f, s)
  {
    assert (s + [x])[..|s|] == s;
  }

  lemma {:induction false} WhereMember<T>(f: T -> bool, s: seq<T>, x: T)
    ensures x in Where(f, s) <==> x in s && f(x)
  {
    if s != [] {
      WhereMember(f, s[..|s| - 1], x);
      assert s == s[..|s| - 1] + [s[|s| - 1]];
    }
  }

  lemma {:induction false} WhereDistinct<T>(f: T -> bool, s: seq<T>)
    requires Distinct(s)
    ensures Distinct(Where(f, s))
  {
    if s != [] {
      var prefix := s[..|s| - 1];
      WhereDistinct(f, prefix);
      WhereMember(f, prefix, s[|s| - 1]);
    }
  }

  lemma {:induction false} WhereCommute<T>(f: T -> bool, g: T -> bool, s: seq<T>)
    ensures Where(f, Where(g, s)) == Where(g, Where(f, s))
  {
    if s != [] {
      var prefix, x := s[..|s| - 1], s[|s| - 1];
      WhereCommute(f, g, prefix);
      WhereSnoc(f, Where(g, prefix), x);
      WhereSnoc(g, Where(f, prefix), x);
    }
  }

  lemma {:induction false} WhereAll<T>(f: T -> bool, s: seq<T>)
    requires forall x | x in s :: f(x)
    ensures Where(f, s) == s
  {
    if s != [] {
      WhereAll(f, s[..|s| - 1]);
      assert s == s[..|s| - 1] + [s[|s| - 1]];
    }
  }

  lemma {:induction false} WhereNone<T>(f: T -> bool, s: seq<T>)
    requires forall x | x in s :: !f(x)
    ensures Where(f, s) == []
  {
    if s != [] {
      WhereNone(f, s[..|s| - 1]);
    }
  }

  lemma {:induction false} WhereConcat<T>(f: T -> bool, s: seq<T>, t: seq<T>)
    ensures Where(f, s + t) == Where(f, s) + Where(f, t)
  {
    if t == [] {
      assert s + t == s;
    } else {
      WhereConcat(f, s, t[..|t| - 1]);
      assert (s + t)[..|s + t| - 1] == s + t[..|t| - 1];
    }
  }

  /** The set of elements of a list without repetitions is as large as the list. */
  lemma {:induction false} DistinctSize<T>(s: seq<T>)
    requires Distinct(s)
    ensures |set x | x in s| == |s|
  {
    if s != [] {
      var prefix, x := s[..|s| - 1], s[|s| - 1];
      DistinctSize(prefix);
      assert (set y | y in s) == (set y | y in prefix) + {x} by {
        assert s == prefix + [x];
      }
    }
  }

  function Sum(xs: seq<nat>): nat {
    if xs == [] then 0 else Sum(xs[..|xs| - 1]) + xs[|xs| - 1]
  }

  lemma {:induction false} SumUpdate(xs: seq<nat>, i: nat, x: nat)
    requires i < |xs|
    ensures Sum(xs[i := x]) == Sum(xs) - xs[i] + x
  {
    var last := |xs| - 1;
    if i == last {
      assert xs[i := x][..last] == xs[..last];
    } else {
      SumUpdate(xs[..last], i, x);
      assert xs[i := x][..last] == xs[..last][i := x];
    }
  }

  lemma {:induction false} SumMonotone(xs: seq<nat>, ys: seq<nat>)
    requires |xs| == |ys| && forall i | 0 <= i < |xs| :: xs[i] <= ys[i]
    ensures Sum(xs) <= Sum(ys)
  {
    if xs != [] {
      SumMonotone(xs[..|xs| - 1], ys[..|ys| - 1]);
    }
  }

  lemma {:induction false} SumZero(xs: seq<nat>)
    requires forall i | 0 <= i < |xs| :: xs[i] == 0
    ensures Sum(xs) == 0
  {
    if xs != [] {
      SumZero(xs[..|xs| - 1]);
    }
  }

  /** The sum of a map's values. */
  ghost function Total<K>(m: map<K, nat>): nat
    decreases m.Keys
  {
    if m == map[] then 0
    else
      var k :| k in m;
      m[k] + Total(m - {k})
  }

  lemma {:induction false} TotalSplit<K>(m: map<K, nat>, k: K)
    requires k in m
    ensures Total(m) == m[k] + Total(m - {k})
    decreases m.Keys
  {
    var pick :| pick in m && Total(m) == m[pick] + Total(m - {pick});
    if pick != k {
      TotalSplit(m - {pick}, k);
      TotalSplit(m - {k}, pick);
      assert m - {pick} - {k} == m - {k} - {pick};
    }
  }

  lemma TotalUpdate<K>(m: map<K, nat>, k: K, x: nat)
    requires k in m
    ensures Total(m[k := x]) == Total(m) - m[k] + x
  {
    TotalSplit(m, k);
    TotalSplit(m[k := x], k);
    assert m[k := x] - {k} == m - {k};
  }

  lemma {:induction false} TotalZero<K>(m: map<K, nat>)
    ensures Total(m) == 0 <==> forall k | k in m :: m[k] == 0
    decreases m.Keys
  {
    if m != map[] {
      var k :| k in m;
      TotalSplit(m, k);
      TotalZero(m - {k});
      assert forall j | j in m :: j == k || j in m - {k};
    }
  }

  /** Values add up key by key. */
  lemma {:induction false} TotalAdd<K>(m: map<K, nat>, a: map<K, nat>, b: map<K, nat>)
    requires m.Keys == a.Keys == b.Keys
    requires forall k | k in m :: m[k] == a[k] + b[k]
    ensures Total(m) == Total(a) + Total(b)
    decreases m.Keys
  {
    if m == map[] {
      assert a == map[] && b == map[];
    } else {
      var k :| k in m;
      TotalSplit(m, k);
      TotalSplit(a, k);
      TotalSplit(b, k);
      TotalAdd(m - {k}, a - {k}, b - {k});
    }
  }

  /** Keys whose value is zero may be dropped. */
  lemma {:induction false} TotalRestrict<K>(m: map<K, nat>, keys: set<K>)
    requires forall k | k in m && k !in keys :: m[k] == 0
    ensures Total(map k | k in m && k in keys :: m[k]) == Total(m)
    decreases m.Keys
  {
    if k :| k in m && k !in keys {
      TotalSplit(m, k);
      TotalRestrict(m - {k}, keys);
      assert (map j | j in m - {k} && j in keys :: (m - {k})[j]) == map j | j in m && j in keys :: m[j];
    } else {
      assert (map k | k in m && k in keys :: m[k]) == m;
    }
  }

  lemma {:induction false} DistinctOnce<T>(s: seq<T>)
    ensures Distinct(s) <==> forall x :: multiset(s)[x] <= 1
  {
    if s != [] {
      var prefix, last := s[..|s| - 1], s[|s| - 1];
      DistinctOnce(prefix);
      assert s == prefix + [last];
      assert forall x :: multiset(s)[x] == multiset(prefix)[x] + if x == last then 1 else 0;
      assert last in prefix <==> last in multiset(prefix);
      if forall x :: multiset(s)[x] <= 1 {
        assert multiset(s)[last] <= 1;
      }
    }
  }

  lemma DistinctPermutation<T>(s: seq<T>, t: seq<T>)
    requires Distinct(s) && multiset(s) == multiset(t)
    ensures Distinct(t)
  {
    DistinctOnce(s);
    DistinctOnce(t);
  }

  function Outside<T(==)>(e: set<T>): T -> bool {
    (x: T) => x !in e
  }

  function Common<T(==)>(s: seq<T>, e: set<T>): set<T> {
    set x | x in s && x in e
  }

  /** Removing the elements of e from a list without repetitions shortens it by as many as were there. */
  lemma {:induction false} OutsideSize<T>(s: seq<T>, e: set<T>)
    requires Distinct(s)
    ensures |Where(Outside(e), s)| == |s| - |Common(s, e)|
  {
    if s != [] {
      var prefix, last := s[..|s| - 1], s[|s| - 1];
      OutsideSize(prefix, e);
      assert s == prefix + [last];
      assert last !in Common(prefix, e);
      assert Common(s, e) == Common(prefix, e) + if last in e then {last} else {};
    } else {
      assert Common(s, e) == {};
    }
  }

  lemma {:induction false} WhereOccurrences<T>(f: T -> bool, s: seq<T>, x: T)
    ensures multiset(Where(f, s))[x] == if f(x) then multiset(s)[x] else 0
  {
    if s != [] {
      WhereOccurrences(f, s[..|s| - 1], x);
      assert s == s[..|s| - 1] + [s[|s| - 1]];
    }
  }

  lemma {:induction false} ElementsAtMost<T>(s: seq<T>)
    ensures |set x | x in s| <= |s|
  {
    if s != [] {
      var prefix, last := s[..|s| - 1], s[|s| - 1];
      ElementsAtMost(prefix);
      assert s == prefix + [last];
      assert (set x | x in s) == (set x | x in prefix) + {last};
    }
  }

  lemma SubsetSize<T>(a: set<T>, b: set<T>)
    requires a <= b
    ensures |a| <= |b|
  {
    assert b == a + (b - a);
  }
}
