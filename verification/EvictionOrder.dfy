/** The order in which the descheduler prefers to evict the pods of one topology value. */
module EvictionOrder {
  import opened Cluster
  import opened Seqs

  /** Go's < on strings. */
  predicate NameLess(a: string, b: string) {
    b != [] && (a == [] || a[0] < b[0] || (a[0] == b[0] && NameLess(a[1..], b[1..])))
  }

  /** The first place where the names differ decides, and a name comes before its own extensions. */
  lemma {:induction false} NameLessMeans(a: string, b: string)
    ensures NameLess(a, b) <==>
      exists k :: 0 <= k <= |a| && k <= |b| && a[..k] == b[..k]
               && (k == |a| < |b| || (k < |a| && k < |b| && a[k] < b[k]))
  {
    if a == [] || b == [] || a[0] != b[0] {
      assert a[..0] == b[..0];
      assert forall k | 0 < k <= |a| && k <= |b| && a[..k] == b[..k] :: a[..k][0] == b[..k][0];
    } else {
      NameLessMeans(a[1..], b[1..]);
      if k :| (0 <= k <= |a| - 1 && k <= |b| - 1 && a[1..][..k] == b[1..][..k]
               && (k == |a| - 1 < |b| - 1 || (k < |a| - 1 && k < |b| - 1 && a[1..][k] < b[1..][k]))) {
        assert a[..k + 1] == [a[0]] + a[1..][..k] && b[..k + 1] == [b[0]] + b[1..][..k];
      }
      if k :| (0 <= k <= |a| && k <= |b| && a[..k] == b[..k]
               && (k == |a| < |b| || (k < |a| && k < |b| && a[k] < b[k]))) {
        assert a[1..][..k - 1] == a[..k][1..] && b[1..][..k - 1] == b[..k][1..];
      }
    }
  }

  lemma {:induction false} NameLessIrreflexive(a: string)
    ensures !NameLess(a, a)
  {
    if a != [] {
      NameLessIrreflexive(a[1..]);
    }
  }

  lemma {:induction false} NameLessTransitive(a: string, b: string, c: string)
    requires NameLess(a, b) && NameLess(b, c)
    ensures NameLess(a, c)
  {
    if a != [] && a[0] == b[0] == c[0] {
      NameLessTransitive(a[1..], b[1..], c[1..]);
    }
  }

  lemma {:induction false} NameLessConnected(a: string, b: string)
    requires a != b
    ensures NameLess(a, b) || NameLess(b, a)
  {
    if a != [] && b != [] && a[0] == b[0] {
      assert a == [a[0]] + a[1..] && b == [b[0]] + b[1..];
      NameLessConnected(a[1..], b[1..]);
    }
  }

  predicate Less(p: Pod, q: Pod) {
    if p.phase == Failed || p.phase == Succeeded then true
    else if p.phase == Pending then true
    else if q.phase == Failed || q.phase == Succeeded then false
    else if q.phase == Pending then false
    else NameLess(p.name, q.name)
  }

  /** Pods that are not running any more, or not yet. */
  predicate Idle(p: Pod) {
    p.phase == Failed || p.phase == Succeeded || p.phase == Pending
  }

  /** p may stand before q. */
  predicate Before(p: Pod, q: Pod) {
    Less(p, q) || !Less(q, p)
  }

  /** The source's comparison, in terms of the phases and the letters of the names. */
  lemma LessMeans(p: Pod, q: Pod)
    ensures Less(p, q) <==>
      || p.phase in {Failed, Succeeded, Pending}
      || (&& q.phase !in {Failed, Succeeded, Pending}
          && exists k :: 0 <= k <= |p.name| && k <= |q.name| && p.name[..k] == q.name[..k]
                      && (k == |p.name| < |q.name| || (k < |p.name| && k < |q.name| && p.name[k] < q.name[k])))
  {
    NameLessMeans(p.name, q.name);
  }

  /** Less is reflexive on idle pods, so it is not the strict order that package sort asks for. */
  lemma LessIsStrictIffNotIdle(p: Pod)
    ensures Less(p, p) <==> p.phase in {Failed, Succeeded, Pending}
  {
    NameLessIrreflexive(p.name);
  }

  lemma LessTransitive(p: Pod, q: Pod, r: Pod)
    requires Less(p, q) && Less(q, r)
    ensures Less(p, r)
  {
    if !Idle(p) {
      NameLessTransitive(p.name, q.name, r.name);
    }
  }

  lemma BeforeTransitive(p: Pod, q: Pod, r: Pod)
    requires Before(p, q) && Before(q, r)
    ensures Before(p, r)
  {
    if !Idle(p) && !Before(p, r) {
      assert NameLess(r.name, p.name);
      if q.name == r.name {
      } else if q.name == p.name {
      } else {
        NameLessConnected(p.name, q.name);
        NameLessConnected(q.name, r.name);
        NameLessTransitive(r.name, p.name, q.name);
        NameLessTransitive(q.name, r.name, q.name);
        NameLessIrreflexive(q.name);
      }
    }
  }

  /** Where names are unique, as within a namespace, the sorted order is the source's own Less. */
  lemma BeforeIsLess(p: Pod, q: Pod)
    requires p.name != q.name
    ensures Before(p, q) <==> Less(p, q)
  {
    NameLessConnected(p.name, q.name);
    if !Idle(p) && !Idle(q) && NameLess(p.name, q.name) && NameLess(q.name, p.name) {
      NameLessTransitive(p.name, q.name, p.name);
      NameLessIrreflexive(p.name);
    }
  }

  ghost predicate Sorted(pods: seq<Pod>) {
    forall i, j | 0 <= i < j < |pods| :: Before(pods[i], pods[j])
  }

  /**
   In a sorted list no running pod stands before one that is Failed, Succeeded or Pending, and the running
   pods stand in the order of their names: the first letter in which two of them differ is smaller in the
   earlier one, or that one's name is the beginning of the later one's.
   */
  lemma SortedMeaning(pods: seq<Pod>, i: nat, j: nat)
    requires Sorted(pods) && i < j < |pods|
    ensures pods[j].phase in {Failed, Succeeded, Pending} ==> pods[i].phase in {Failed, Succeeded, Pending}
    ensures pods[i].phase !in {Failed, Succeeded, Pending} && pods[i].name != pods[j].name ==>
      var a, b := pods[i].name, pods[j].name;
      exists k :: 0 <= k <= |a| && k <= |b| && a[..k] == b[..k]
               && (k == |a| < |b| || (k < |a| && k < |b| && a[k] < b[k]))
  {
    assert Before(pods[i], pods[j]);
    if pods[i].name != pods[j].name {
      NameLessConnected(pods[i].name, pods[j].name);
      NameLessMeans(pods[i].name, pods[j].name);
    }
  }

  /** TopoPairCount: the pods found for one topology value. */
  class TopoPairCount {
    var count: int32
    var pods: seq<Pod>

    constructor (pod: Pod)
      ensures count == 1 && pods == [pod]
    {
      count := 1;
      pods := [pod];
    }

    method Append(pod: Pod)
      modifies this
      ensures pods == old(pods) + [pod] && count == Add(old(count), 1)
    {
      count := Add(count, 1);
      pods := pods + [pod];
    }

    method Swap(i: nat, j: nat)
      requires i < |pods| && j < |pods|
      modifies `pods
      ensures pods == old(pods)[i := old(pods)[j]][j := old(pods)[i]]
      ensures multiset(pods) == multiset(old(pods))
    {
      pods := pods[i := pods[j]][j := pods[i]];
    }

    /** sort.Sort over Len, Less and Swap, as an insertion sort. */
    method Sort()
      modifies `pods
      ensures multiset(pods) == multiset(old(pods)) && Sorted(pods)
    {
      var i := 0;
      while i < |pods|
        invariant 0 <= i <= |pods| && multiset(pods) == multiset(old(pods))
        invariant Sorted(pods[..i])
      {
        Insert(i);
        i := i + 1;
      }
      assert pods[..|pods|] == pods;
    }

    method Insert(i: nat)
      requires i < |pods| && Sorted(pods[..i])
      modifies `pods
      ensures |pods| == |old(pods)| && multiset(pods) == multiset(old(pods))
      ensures Sorted(pods[..i + 1])
    {
      var j := i;
      while j > 0 && Less(pods[j], pods[j - 1])
        invariant 0 <= j <= i && |pods| == |old(pods)| && multiset(pods) == multiset(old(pods))
        invariant forall k, l | 0 <= k < l <= i && l != j :: Before(pods[k], pods[l])
      {
        Swap(j, j - 1);
        j := j - 1;
      }
      forall k | 0 <= k < j ensures Before(pods[k], pods[j]) {
        if k < j - 1 {
          BeforeTransitive(pods[k], pods[j - 1], pods[j]);
        }
      }
    }
  }
}
