/** Strict weak orders on sequences, and the theory of stable sorting that
    both list sorts of the repository are measured against.

    An Order compares elements through a key, so that it can order linked
    nodes (the key is the node's payload) as well as plain values. */
module Orders {

  datatype Order<!E, !V(!new)> = Order(key: E -> V, lt: (V, V) -> bool) {
    predicate Less(a: E, b: E) {
      lt(key(a), key(b))
    }

    /** Neither is below the other. */
    predicate Equivalent(v: V, e: E) {
      !lt(v, key(e)) && !lt(key(e), v)
    }

    /** A strict weak order: asymmetric, and "not below" is transitive. */
    ghost predicate StrictWeak() {
      && (forall a, b :: lt(a, b) ==> !lt(b, a))
      && (forall a, b, c :: lt(a, c) ==> lt(a, b) || lt(b, c))
    }

    /** A strict total order: moreover only equal keys are equivalent. */
    ghost predicate StrictTotal() {
      && StrictWeak()
      && forall a, b :: !lt(a, b) && !lt(b, a) ==> a == b
    }
  }

  /** No element of s is below x. */
  ghost predicate Above<E, V(!new)>(o: Order<E, V>, x: E, s: seq<E>) {
    forall i :: 0 <= i < |s| ==> !o.Less(s[i], x)
  }

  /** Nondecreasing, over all pairs and not only adjacent ones. */
  ghost predicate Sorted<E, V(!new)>(o: Order<E, V>, s: seq<E>) {
    forall i, j :: 0 <= i < j < |s| ==> !o.Less(s[j], s[i])
  }

  lemma SortedMeans<E, V(!new)>(o: Order<E, V>, s: seq<E>)
    ensures Sorted(o, s) <==> forall i, j :: 0 <= i < j < |s| ==> !o.lt(o.key(s[j]), o.key(s[i]))
  {
    forall i, j | 0 <= i < j < |s| ensures o.Less(s[j], s[i]) <==> o.lt(o.key(s[j]), o.key(s[i])) {}
  }

  /** The elements of s equivalent to v, in the order they have in s. */
  ghost function Class<E, V(!new)>(o: Order<E, V>, v: V, s: seq<E>): seq<E> {
    if s == [] then []
    else (if o.Equivalent(v, s[0]) then [s[0]] else []) + Class(o, v, s[1..])
  }

  /** Same elements, and equivalent ones in the same relative order. */
  ghost predicate StablePermutation<E, V(!new)>(o: Order<E, V>, xs: seq<E>, ys: seq<E>) {
    forall v :: Class(o, v, xs) == Class(o, v, ys)
  }

  // ----- Insertion: the simple sort that serves as the reference -----

  /** x placed just before the first element it is below. */
  function Insert<E, V(!new)>(o: Order<E, V>, x: E, s: seq<E>): seq<E> {
    if s == [] then [x]
    else if o.Less(x, s[0]) then [x] + s
    else [s[0]] + Insert(o, x, s[1..])
  }

  /** The elements of s inserted one by one, left to right, into an empty list. */
  function InsertionSort<E, V(!new)>(o: Order<E, V>, s: seq<E>): seq<E> {
    if s == [] then [] else Insert(o, s[|s| - 1], InsertionSort(o, s[..|s| - 1]))
  }

  // ----- Merging -----

  /** Two-way merge that takes from the left unless the right is strictly below. */
  function Merge<E, V(!new)>(o: Order<E, V>, a: seq<E>, b: seq<E>): (m: seq<E>)
    ensures |m| == |a| + |b|
  {
    if a == [] then b
    else if b == [] then a
    else if !o.Less(b[0], a[0]) then [a[0]] + Merge(o, a[1..], b)
    else [b[0]] + Merge(o, a, b[1..])
  }

  // ----- Lemmas on Sorted and Class -----

  lemma SortedCons<E, V(!new)>(o: Order<E, V>, x: E, s: seq<E>)
    requires Sorted(o, s) && Above(o, x, s)
    ensures Sorted(o, [x] + s)
  {
    var t := [x] + s;
    forall i, j | 0 <= i < j < |t| ensures !o.Less(t[j], t[i]) {
      assert t[j] == s[j - 1];
      if i > 0 {
        assert t[i] == s[i - 1];
      }
    }
  }

  lemma {:induction false} ClassAppend<E, V(!new)>(o: Order<E, V>, v: V, a: seq<E>, b: seq<E>)
    ensures Class(o, v, a + b) == Class(o, v, a) + Class(o, v, b)
  {
    if a == [] {
      assert a + b == b;
    } else {
      assert (a + b)[1..] == a[1..] + b;
      ClassAppend(o, v, a[1..], b);
    }
  }

  lemma ClassSplit<E, V(!new)>(o: Order<E, V>, v: V, s: seq<E>, j: nat, k: nat)
    requires j <= k <= |s|
    ensures Class(o, v, s) == Class(o, v, s[..j]) + Class(o, v, s[j..k]) + Class(o, v, s[k..])
  {
    ClassAppend(o, v, s[..j], s[j..k]);
    ClassAppend(o, v, s[..j] + s[j..k], s[k..]);
    assert s == (s[..j] + s[j..k]) + s[k..];
  }

  lemma {:induction false} ClassMember<E, V(!new)>(o: Order<E, V>, v: V, s: seq<E>, e: E)
    ensures e in Class(o, v, s) <==> e in s && o.Equivalent(v, e)
  {
    if s != [] {
      ClassMember(o, v, s[1..], e);
      assert e in s <==> e == s[0] || e in s[1..];
    }
  }

  /** The class of an element counts its occurrences, so a stable permutation
      is a permutation. */
  lemma {:induction false} ClassCount<E, V(!new)>(o: Order<E, V>, s: seq<E>, e: E)
    requires o.StrictWeak()
    ensures multiset(s)[e] == multiset(Class(o, o.key(e), s))[e]
  {
    if s != [] {
      assert s == [s[0]] + s[1..];
      ClassCount(o, s[1..], e);
    }
  }

  lemma StableIsPermutation<E, V(!new)>(o: Order<E, V>, xs: seq<E>, ys: seq<E>)
    requires o.StrictWeak() && StablePermutation(o, xs, ys)
    ensures multiset(xs) == multiset(ys) && |xs| == |ys|
  {
    forall e ensures multiset(xs)[e] == multiset(ys)[e] {
      ClassCount(o, xs, e);
      ClassCount(o, ys, e);
    }
    assert |multiset(xs)| == |xs| && |multiset(ys)| == |ys|;
  }

  /** There is at most one stable sorted permutation. */
  lemma {:induction false} StableSortUnique<E, V(!new)>(o: Order<E, V>, xs: seq<E>, ys: seq<E>)
    requires o.StrictWeak() && Sorted(o, xs) && Sorted(o, ys) && StablePermutation(o, xs, ys)
    ensures xs == ys
  {
    StableIsPermutation(o, xs, ys);
    if xs != [] {
      var x, y := xs[0], ys[0];
      assert x in ys && y in xs by {
        assert x in multiset(xs) && y in multiset(ys);
      }
      assert o.Equivalent(o.key(x), y);
      assert Class(o, o.key(x), xs)[0] == x && Class(o, o.key(x), ys)[0] == y;
      forall v ensures Class(o, v, xs[1..]) == Class(o, v, ys[1..]) {
        assert Class(o, v, xs) == Class(o, v, ys);
        var h := if o.Equivalent(v, x) then [x] else [];
        assert h + Class(o, v, xs[1..]) == h + Class(o, v, ys[1..]);
        assert Class(o, v, xs[1..]) == (h + Class(o, v, xs[1..]))[|h|..];
      }
      StableSortUnique(o, xs[1..], ys[1..]);
      assert xs == [x] + xs[1..] && ys == [y] + ys[1..];
    }
  }

  // ----- Insertion sort is the stable sort -----

  lemma {:induction false} InsertMembers<E, V(!new)>(o: Order<E, V>, x: E, s: seq<E>)
    ensures |Insert(o, x, s)| == |s| + 1
    ensures multiset(Insert(o, x, s)) == multiset(s) + multiset{x}
  {
    if s != [] && !o.Less(x, s[0]) {
      InsertMembers(o, x, s[1..]);
      assert s == [s[0]] + s[1..];
    }
  }

  lemma {:induction false} InsertSorted<E, V(!new)>(o: Order<E, V>, x: E, s: seq<E>)
    requires o.StrictWeak() && Sorted(o, s)
    ensures Sorted(o, Insert(o, x, s))
  {
    if s == [] {
    } else if o.Less(x, s[0]) {
      SortedCons(o, x, s);
    } else {
      var r := Insert(o, x, s[1..]);
      InsertSorted(o, x, s[1..]);
      InsertMembers(o, x, s[1..]);
      forall i | 0 <= i < |r| ensures !o.Less(r[i], s[0]) {
        assert r[i] in multiset(r);
        assert r[i] == x || r[i] in s[1..];
      }
      SortedCons(o, s[0], r);
    }
  }

  /** The new element comes after every element equivalent to it. */
  lemma {:induction false} InsertClass<E, V(!new)>(o: Order<E, V>, v: V, x: E, s: seq<E>)
    requires o.StrictWeak() && Sorted(o, s)
    ensures Class(o, v, Insert(o, x, s)) == Class(o, v, s + [x])
  {
    ClassAppend(o, v, s, [x]);
    if s == [] {
    } else if o.Less(x, s[0]) {
      ClassAppend(o, v, [x], s);
      if o.Equivalent(v, x) {
        NothingEquivalent(o, v, x, s);
      }
    } else {
      InsertClass(o, v, x, s[1..]);
      ClassAppend(o, v, s[1..], [x]);
      assert s + [x] == [s[0]] + (s[1..] + [x]);
    }
  }

  lemma NotBelowTransitive<E, V(!new)>(o: Order<E, V>, a: E, b: E, c: E)
    requires o.StrictWeak()
    ensures o.Less(a, c) ==> o.Less(a, b) || o.Less(b, c)
  {}

  /** An element below the head of a sorted sequence is below all of it. */
  lemma BelowAll<E, V(!new)>(o: Order<E, V>, x: E, s: seq<E>)
    requires o.StrictWeak() && Sorted(o, s) && s != [] && o.Less(x, s[0])
    ensures forall i :: 0 <= i < |s| ==> o.Less(x, s[i])
  {
    forall i | 0 <= i < |s| ensures o.Less(x, s[i]) {
      NotBelowTransitive(o, x, s[i], s[0]);
    }
  }

  /** No element of a sorted sequence is equivalent to one below its head. */
  lemma NothingEquivalent<E, V(!new)>(o: Order<E, V>, v: V, x: E, s: seq<E>)
    requires o.StrictWeak() && Sorted(o, s) && s != []
    requires o.Equivalent(v, x) && o.Less(x, s[0])
    ensures Class(o, v, s) == []
  {
    BelowAll(o, x, s);
    EmptyClass(o, v, x, s);
  }

  lemma {:induction false} EmptyClass<E, V(!new)>(o: Order<E, V>, v: V, x: E, s: seq<E>)
    requires o.StrictWeak() && o.Equivalent(v, x)
    requires forall i :: 0 <= i < |s| ==> o.Less(x, s[i])
    ensures Class(o, v, s) == []
  {
    if s != [] {
      EmptyClass(o, v, x, s[1..]);
      assert o.lt(o.key(x), v) || o.lt(v, o.key(s[0]));
    }
  }

  lemma {:induction false} InsertionSortCorrect<E, V(!new)>(o: Order<E, V>, s: seq<E>)
    requires o.StrictWeak()
    ensures Sorted(o, InsertionSort(o, s))
    ensures StablePermutation(o, s, InsertionSort(o, s))
  {
    if s != [] {
      var n := |s| - 1;
      InsertionSortCorrect(o, s[..n]);
      InsertSorted(o, s[n], InsertionSort(o, s[..n]));
      forall v ensures Class(o, v, s) == Class(o, v, InsertionSort(o, s)) {
        InsertClass(o, v, s[n], InsertionSort(o, s[..n]));
        ClassAppend(o, v, s[..n], [s[n]]);
        ClassAppend(o, v, InsertionSort(o, s[..n]), [s[n]]);
        assert s == s[..n] + [s[n]];
        assert Class(o, v, s[..n]) == Class(o, v, InsertionSort(o, s[..n]));
      }
    }
  }

  /** Any stable sort yields, element for element, what insertion sort yields. */
  lemma StableSortIsInsertionSort<E, V(!new)>(o: Order<E, V>, s: seq<E>, t: seq<E>)
    requires o.StrictWeak() && Sorted(o, t) && StablePermutation(o, s, t)
    ensures t == InsertionSort(o, s)
  {
    InsertionSortCorrect(o, s);
    StableSortUnique(o, t, InsertionSort(o, s));
  }

  // ----- Merging keeps order and stability -----

  lemma MultisetCons<E>(x: E, s: seq<E>)
    ensures multiset([x] + s) == multiset{x} + multiset(s)
  {}

  lemma {:induction false} MergeMembers<E, V(!new)>(o: Order<E, V>, a: seq<E>, b: seq<E>)
    ensures multiset(Merge(o, a, b)) == multiset(a) + multiset(b)
  {
    if a == [] || b == [] {
    } else if !o.Less(b[0], a[0]) {
      MergeMembers(o, a[1..], b);
      MultisetCons(a[0], a[1..]);
      MultisetCons(a[0], Merge(o, a[1..], b));
      assert a == [a[0]] + a[1..];
    } else {
      MergeMembers(o, a, b[1..]);
      MultisetCons(b[0], b[1..]);
      MultisetCons(b[0], Merge(o, a, b[1..]));
      assert b == [b[0]] + b[1..];
    }
  }

  lemma MergeAbove<E, V(!new)>(o: Order<E, V>, x: E, a: seq<E>, b: seq<E>)
    requires Above(o, x, a) && Above(o, x, b)
    ensures Above(o, x, Merge(o, a, b))
  {
    var m := Merge(o, a, b);
    MergeMembers(o, a, b);
    forall i | 0 <= i < |m| ensures !o.Less(m[i], x) {
      assert m[i] in multiset(m);
      assert m[i] in a || m[i] in b;
    }
  }

  lemma {:induction false} MergeSorted<E, V(!new)>(o: Order<E, V>, a: seq<E>, b: seq<E>)
    requires o.StrictWeak() && Sorted(o, a) && Sorted(o, b)
    ensures Sorted(o, Merge(o, a, b))
  {
    if a != [] && b != [] {
      if !o.Less(b[0], a[0]) {
        MergeSorted(o, a[1..], b);
        HeadBelow(o, a[0], b);
        MergeAbove(o, a[0], a[1..], b);
        SortedCons(o, a[0], Merge(o, a[1..], b));
      } else {
        MergeSorted(o, a, b[1..]);
        HeadBelow(o, b[0], a);
        MergeAbove(o, b[0], a, b[1..]);
        SortedCons(o, b[0], Merge(o, a, b[1..]));
      }
    }
  }

  /** Not above the head of a sorted sequence means not above any of it. */
  lemma HeadBelow<E, V(!new)>(o: Order<E, V>, x: E, s: seq<E>)
    requires o.StrictWeak() && Sorted(o, s)
    requires s != [] && !o.Less(s[0], x)
    ensures Above(o, x, s)
  {
    forall i | 0 <= i < |s| ensures !o.Less(s[i], x) {
      NotBelowTransitive(o, s[i], s[0], x);
    }
  }

  lemma ClassCons<E, V(!new)>(o: Order<E, V>, v: V, x: E, s: seq<E>)
    ensures Class(o, v, [x] + s) == (if o.Equivalent(v, x) then [x] else []) + Class(o, v, s)
  {
    assert ([x] + s)[1..] == s;
  }

  /** Merging is stable: in each class, first all of a, then all of b. */
  lemma {:induction false} MergeClass<E, V(!new)>(o: Order<E, V>, v: V, a: seq<E>, b: seq<E>)
    requires o.StrictWeak() && Sorted(o, a)
    ensures Class(o, v, Merge(o, a, b)) == Class(o, v, a) + Class(o, v, b)
  {
    if a != [] && b != [] {
      if !o.Less(b[0], a[0]) {
        MergeClass(o, v, a[1..], b);
        ClassCons(o, v, a[0], Merge(o, a[1..], b));
      } else {
        MergeClass(o, v, a, b[1..]);
        ClassCons(o, v, b[0], Merge(o, a, b[1..]));
        if o.Equivalent(v, b[0]) {
          NothingEquivalent(o, v, b[0], a);
        }
      }
    }
  }

  lemma SameMembers<E>(a: seq<E>, b: seq<E>)
    requires multiset(a) == multiset(b)
    ensures forall x :: x in b ==> x in a
  {
    forall x | x in b ensures x in a {
      assert x in multiset(b);
    }
  }

  ghost predicate Distinct<E>(s: seq<E>) {
    forall i, j :: 0 <= i < j < |s| ==> s[i] != s[j]
  }

  lemma {:induction false} DistinctCount<E>(a: seq<E>, x: E)
    requires Distinct(a)
    ensures multiset(a)[x] <= 1
  {
    if a != [] {
      DistinctCount(a[1..], x);
      assert a == [a[0]] + a[1..];
      if x == a[0] {
        assert x !in a[1..];
      }
    }
  }

  lemma DistinctPermuted<E>(a: seq<E>, b: seq<E>)
    requires Distinct(a) && multiset(a) == multiset(b)
    ensures Distinct(b)
  {
    forall i, j | 0 <= i < j < |b| ensures b[i] != b[j] {
      DistinctCount(a, b[i]);
      assert b == b[..i] + [b[i]] + b[i + 1..j] + [b[j]] + b[j + 1..];
    }
  }
}
