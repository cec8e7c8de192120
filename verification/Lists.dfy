/** Set difference on slices. */
module Lists {
  import opened Distinct

  /** The different elements of a, in the arbitrary order of a map iteration. */
  method Uniq<T(==)>(a: seq<T>) returns (list: seq<T>)
    ensures NoDup(list)
    ensures forall x :: x in list <==> x in a
  {
    var hash: set<T> := {};
    for i := 0 to |a|
      invariant forall x :: x in hash <==> x in a[..i]
    {
      hash := hash + {a[i]};
    }
    list := [];
    while hash != {}
      invariant NoDup(list)
      invariant forall x :: x in list ==> x !in hash
      invariant forall x :: x in list || x in hash <==> x in a
      decreases hash
    {
      var k :| k in hash;
      list := list + [k];
      hash := hash - {k};
    }
  }

  /** The elements of a that are not in b, each once. */
  method SetSubstract<T(==)>(a: seq<T>, b: seq<T>) returns (list: seq<T>)
    ensures NoDup(list)
    ensures forall x :: x in list <==> x in a && x !in b
  {
    var aSet := Uniq(a);
    var bSet := Uniq(b);
    var hash: set<T> := {};
    for i := 0 to |bSet|
      invariant forall x :: x in hash <==> x in bSet[..i]
    {
      hash := hash + {bSet[i]};
    }
    list := [];
    for i := 0 to |aSet|
      invariant NoDup(list)
      invariant forall x :: x in list <==> x in aSet[..i] && x !in b
    {
      assert aSet[i] !in aSet[..i];
      if aSet[i] !in hash {
        list := list + [aSet[i]];
      }
    }
  }
}
