/** Sequences without repetition, and the counting facts the protocols rest on. */
module Distinct {

  predicate NoDup<T(==)>(s: seq<T>) {
    forall i, j :: 0 <= i < j < |s| ==> s[i] != s[j]
  }

  function Elements<T>(s: seq<T>): set<T> {
    set x | x in s
  }

  lemma {:induction false} NoDupSize<T>(s: seq<T>)
    requires NoDup(s)
    ensures |Elements(s)| == |s|
  {
    if s == [] {
      assert Elements(s) == {};
    } else {
      var last := |s| - 1;
      NoDupSize(s[..last]);
      assert Elements(s) == Elements(s[..last]) + {s[last]};
    }
  }

  lemma AppendNoDup<T>(a: seq<T>, b: seq<T>)
    requires NoDup(a) && NoDup(b) && forall x :: x in a ==> x !in b
    ensures NoDup(a + b)
  {
    assert forall i :: 0 <= i < |a| ==> a[i] in a;
    assert forall i :: 0 <= i < |b| ==> b[i] in b;
  }

  /** Two repetition-free listings of the same elements have the same length. */
  lemma SameElementsSameLength<T>(s: seq<T>, t: seq<T>)
    requires NoDup(s) && NoDup(t)
    requires forall x :: x in s <==> x in t
    ensures |s| == |t|
  {
    NoDupSize(s);
    NoDupSize(t);
    assert Elements(s) == Elements(t);
  }

  function Below(n: nat): (r: set<nat>)
    ensures |r| == n
    ensures forall k :: k in r <==> 0 <= k < n
  {
    if n == 0 then {} else Below(n - 1) + {n - 1}
  }

  /** Repetition-free identifiers below n: at most n of them, and n of them only if none is missing. */
  lemma Pigeonhole(s: seq<nat>, n: nat)
    requires NoDup(s)
    requires forall x :: x in s ==> x < n
    ensures |s| <= n
    ensures |s| == n ==> forall w :: 0 <= w < n ==> w in s
  {
    NoDupSize(s);
    var e := Elements(s);
    assert e <= Below(n);
    Subset(e, Below(n));
    forall w | |s| == n && 0 <= w < n
      ensures w in s
    {
      if w !in s {
        assert e <= Below(n) - {w};
        Subset(e, Below(n) - {w});
        assert false;
      }
    }
  }

  /** The converse: a repetition-free listing that leaves none out has n entries. */
  lemma Complete(s: seq<nat>, n: nat)
    requires NoDup(s)
    requires forall w: nat :: w in s <==> w < n
    ensures |s| == n
  {
    NoDupSize(s);
    assert Elements(s) == Below(n);
  }

  lemma Subset<T>(a: set<T>, b: set<T>)
    requires a <= b
    ensures |a| <= |b|
  {
    assert b == a + (b - a);
  }

  /** Dropping repetitions is not needed to compare: a permutation keeps membership. */
  lemma PermutationMembers<T>(s: seq<T>, t: seq<T>)
    requires multiset(s) == multiset(t)
    ensures |s| == |t|
    ensures forall x :: x in s <==> x in t
  {
    assert |multiset(s)| == |multiset(t)|;
    forall x
      ensures x in s <==> x in t
    {
      assert x in s <==> x in multiset(s);
      assert x in t <==> x in multiset(t);
    }
  }

  /** The entries of s at these positions, in this order. */
  function Picked<T>(s: seq<T>, ids: seq<nat>): (r: seq<T>)
    requires forall i :: 0 <= i < |ids| ==> ids[i] < |s|
    ensures |r| == |ids| && forall i :: 0 <= i < |ids| ==> r[i] == s[ids[i]]
  {
    seq(|ids|, i requires 0 <= i < |ids| => s[ids[i]])
  }

  /** s without its k-th entry. */
  function Without<T>(s: seq<T>, k: nat): (r: seq<T>)
    requires k < |s|
    ensures |r| == |s| - 1
  {
    s[..k] + s[k + 1..]
  }

  lemma WithoutMultiset<T>(s: seq<T>, k: nat)
    requires k < |s|
    ensures multiset(s) == multiset(Without(s, k)) + multiset{s[k]}
    ensures multiset(Without(s, k)) == multiset(s) - multiset{s[k]}
  {
    assert s == s[..k] + ([s[k]] + s[k + 1..]);
    assert multiset(s) == multiset(s[..k]) + multiset([s[k]] + s[k + 1..]);
  }

  lemma WithoutKeeps<T>(s: seq<T>, k: nat)
    requires NoDup(s) && k < |s|
    ensures NoDup(Without(s, k))
    ensures forall x :: x in Without(s, k) <==> x in s && x != s[k]
  {
    var r := Without(s, k);
    forall x | x in s && x != s[k]
      ensures x in r
    {
      var i :| 0 <= i < |s| && s[i] == x;
      assert r[if i < k then i else i - 1] == x;
    }
  }

  lemma PickedWithout<T>(s: seq<T>, ids: seq<nat>, k: nat)
    requires s != [] && k < |ids| && ids[k] == |s| - 1 && NoDup(ids)
    requires forall i :: 0 <= i < |ids| ==> ids[i] < |s|
    ensures forall i :: 0 <= i < |ids| - 1 ==> Without(ids, k)[i] < |s| - 1
    ensures Picked(s[..|s| - 1], Without(ids, k)) == Without(Picked(s, ids), k)
  {
  }

  /** Every position below n, each once. */
  ghost predicate Covers(ids: seq<nat>, n: nat) {
    NoDup(ids) && (forall i :: 0 <= i < |ids| ==> ids[i] < n) && forall w: nat :: w < n ==> w in ids
  }

  lemma CoversWithout(ids: seq<nat>, n: nat, k: nat)
    requires Covers(ids, n + 1) && k < |ids| && ids[k] == n
    ensures Covers(Without(ids, k), n)
  {
    WithoutKeeps(ids, k);
    var r := Without(ids, k);
    forall i | 0 <= i < |r|
      ensures r[i] < n
    {
      assert r[i] in r;
      assert r[i] in ids && r[i] != n;
    }
  }

  lemma NothingToPick(ids: seq<nat>)
    requires Covers(ids, 0)
    ensures ids == []
  {
    Pigeonhole(ids, 0);
  }

  lemma PutBack<T>(s: seq<T>, r: seq<T>, k: nat)
    requires s != [] && k < |r| && r[k] == s[|s| - 1]
    requires multiset(Without(r, k)) == multiset(s[..|s| - 1])
    ensures multiset(r) == multiset(s)
  {
    WithoutMultiset(r, k);
    WithoutMultiset(s, |s| - 1);
    assert Without(s, |s| - 1) == s[..|s| - 1];
  }

  /** Picking every position once rearranges the sequence. */
  lemma {:induction false} PickedAll<T>(s: seq<T>, ids: seq<nat>)
    requires Covers(ids, |s|)
    ensures multiset(Picked(s, ids)) == multiset(s)
    decreases |s|
  {
    if s == [] {
      NothingToPick(ids);
    } else {
      var last: nat := |s| - 1;
      assert last in ids;
      var k: nat :| k < |ids| && ids[k] == last;
      CoversWithout(ids, last, k);
      PickedAll(s[..last], Without(ids, k));
      PickedWithout(s, ids, k);
      PutBack(s, Picked(s, ids), k);
    }
  }
}
