/** The insertion sort of word_count.c, as functions on sequences: where an
    element is put, what the sort leaves, and exactly when it is stable. */
module Placing {
  import opened Orders

  /** How many leading elements are below e. */
  ghost function Below<E, V(!new)>(o: Order<E, V>, e: E, s: seq<E>): (k: nat)
    ensures k <= |s|
  {
    if s != [] && o.Less(s[0], e) then 1 + Below(o, e, s[1..]) else 0
  }

  /** Before the first element if below it; otherwise after the first element
      and those that follow it and are below e. */
  ghost function Place<E, V(!new)>(o: Order<E, V>, e: E, s: seq<E>): (k: nat)
    ensures k <= |s|
  {
    if s == [] || o.Less(e, s[0]) then 0 else 1 + Below(o, e, s[1..])
  }

  lemma {:induction false} BelowStops<E, V(!new)>(o: Order<E, V>, e: E, s: seq<E>)
    ensures forall i :: 0 <= i < Below(o, e, s) ==> o.Less(s[i], e)
    ensures Below(o, e, s) < |s| ==> !o.Less(s[Below(o, e, s)], e)
  {
    if s != [] && o.Less(s[0], e) {
      BelowStops(o, e, s[1..]);
      forall i | 0 <= i < Below(o, e, s) ensures o.Less(s[i], e) {
        assert i > 0 ==> s[i] == s[1..][i - 1];
      }
    }
  }

  /** That place keeps a sorted sequence sorted, wherever ties fall. */
  lemma PlaceSorted<E, V(!new)>(o: Order<E, V>, e: E, s: seq<E>)
    requires o.StrictWeak() && Sorted(o, s)
    ensures var k := Place(o, e, s); Sorted(o, s[..k] + [e] + s[k..])
  {
    var k := Place(o, e, s);
    var t := s[..k] + [e] + s[k..];
    if k > 0 {
      BelowStops(o, e, s[1..]);
      assert forall i :: 0 < i < |s| ==> s[i] == s[1..][i - 1];
    }
    forall i | 0 <= i < k ensures !o.Less(e, s[i]) {}
    forall i | k <= i < |s| ensures !o.Less(s[i], e) {
      NotBelowTransitive(o, s[i], s[k], e);
    }
    forall i, j | 0 <= i < j < |t| ensures !o.Less(t[j], t[i]) {
      assert t[i] == if i < k then s[i] else if i == k then e else s[i - 1];
      assert t[j] == if j < k then s[j] else if j == k then e else s[j - 1];
    }
  }

  /** s with e at its place. */
  ghost function Placed<E, V(!new)>(o: Order<E, V>, e: E, s: seq<E>): seq<E> {
    var k := Place(o, e, s);
    s[..k] + [e] + s[k..]
  }

  /** The elements placed one by one, first to last, into an empty list. */
  ghost function PlaceSort<E, V(!new)>(o: Order<E, V>, s: seq<E>): seq<E> {
    if s == [] then []
    else Placed(o, s[|s| - 1], PlaceSort(o, s[..|s| - 1]))
  }

  lemma PlaceSortNext<E, V(!new)>(o: Order<E, V>, s: seq<E>, n: nat)
    requires n < |s|
    ensures PlaceSort(o, s[..n + 1]) == Placed(o, s[n], PlaceSort(o, s[..n]))
  {
    assert s[..n + 1][..n] == s[..n];
  }

  lemma PlacedMembers<E, V(!new)>(o: Order<E, V>, e: E, s: seq<E>)
    ensures multiset(Placed(o, e, s)) == multiset(s) + multiset{e}
  {
    var k := Place(o, e, s);
    assert s == s[..k] + s[k..];
  }

  lemma {:induction false} PlaceSortMembers<E, V(!new)>(o: Order<E, V>, s: seq<E>)
    ensures multiset(PlaceSort(o, s)) == multiset(s)
  {
    if s != [] {
      var n := |s| - 1;
      PlaceSortMembers(o, s[..n]);
      PlacedMembers(o, s[n], PlaceSort(o, s[..n]));
      assert s == s[..n] + [s[n]];
    }
  }

  lemma {:induction false} PlaceSortCorrect<E, V(!new)>(o: Order<E, V>, s: seq<E>)
    requires o.StrictWeak()
    ensures Sorted(o, PlaceSort(o, s)) && multiset(PlaceSort(o, s)) == multiset(s)
  {
    if s != [] {
      var n := |s| - 1;
      PlaceSortCorrect(o, s[..n]);
      PlaceSorted(o, s[n], PlaceSort(o, s[..n]));
    }
    PlaceSortMembers(o, s);
  }

  // ----- Exactly when the sort is stable -----

  /** If e ties with an element of s, it is below all the others. */
  ghost predicate TiesFirst<E, V(!new)>(o: Order<E, V>, e: E, s: seq<E>) {
    forall x, y :: x in s && y in s && x != y && o.Equivalent(o.key(e), x) ==> o.Less(e, y)
  }

  /** Nothing from the k-th element on ties with e. */
  ghost predicate NoTieFrom<E, V(!new)>(o: Order<E, V>, e: E, s: seq<E>, k: nat) {
    forall i :: k <= i < |s| ==> !o.Equivalent(o.key(e), s[i])
  }

  lemma PlacePasses<E, V(!new)>(o: Order<E, V>, e: E, s: seq<E>)
    ensures forall i :: 0 < i < Place(o, e, s) ==> o.Less(s[i], e)
  {
    if s != [] {
      BelowStops(o, e, s[1..]);
      assert forall i :: 0 < i < |s| ==> s[i] == s[1..][i - 1];
    }
  }

  /** What e ties with is passed over only if it heads the list. */
  lemma TieIsHead<E, V(!new)>(o: Order<E, V>, e: E, s: seq<E>, i: nat)
    requires o.StrictWeak() && i < Place(o, e, s) && o.Equivalent(o.key(e), s[i])
    ensures i == 0
  {
    PlacePasses(o, e, s);
  }

  lemma TiesFirstPlace<E, V(!new)>(o: Order<E, V>, e: E, s: seq<E>)
    requires o.StrictWeak() && Sorted(o, s) && TiesFirst(o, e, s)
    requires Distinct(s)
    ensures NoTieFrom(o, e, s, Place(o, e, s))
  {
    forall i | Place(o, e, s) <= i < |s| ensures !o.Equivalent(o.key(e), s[i]) {
      NotBelowTransitive(o, e, s[i], s[0]);
    }
  }

  lemma PlaceTiesFirst<E, V(!new)>(o: Order<E, V>, e: E, s: seq<E>)
    requires o.StrictWeak() && Sorted(o, s) && NoTieFrom(o, e, s, Place(o, e, s))
    ensures TiesFirst(o, e, s)
  {
    forall x, y | x in s && y in s && x != y && o.Equivalent(o.key(e), x) ensures o.Less(e, y) {
      var i :| 0 <= i < |s| && s[i] == x;
      var j :| 0 <= j < |s| && s[j] == y;
      TieIsHead(o, e, s, i);
      if o.Equivalent(o.key(e), y) {
        TieIsHead(o, e, s, j);
      }
      NotBelowTransitive(o, y, x, e);
    }
  }

  /** A class of the list with e put at k, and of the list itself, cut at k. */
  lemma PlacedClass<E, V(!new)>(o: Order<E, V>, v: V, e: E, s: seq<E>, k: nat)
    requires o.StrictWeak() && k <= |s|
    ensures Class(o, v, s[..k] + [e] + s[k..]) == Class(o, v, s[..k]) + Class(o, v, [e]) + Class(o, v, s[k..])
    ensures Class(o, v, s) == Class(o, v, s[..k]) + Class(o, v, s[k..])
  {
    hide Class, Order.StrictWeak;
    ClassAppend(o, v, s[..k] + [e], s[k..]);
    ClassAppend(o, v, s[..k], [e]);
    ClassAppend(o, v, s[..k], s[k..]);
    assert s == s[..k] + s[k..];
  }

  lemma {:induction false} NoTieClass<E, V(!new)>(o: Order<E, V>, v: V, e: E, s: seq<E>)
    requires o.StrictWeak() && NoTieFrom(o, e, s, 0) && o.Equivalent(v, e)
    ensures Class(o, v, s) == []
  {
    if s != [] {
      assert !o.Equivalent(o.key(e), s[0]);
      assert !o.Equivalent(v, s[0]);
      assert NoTieFrom(o, e, s[1..], 0);
      NoTieClass(o, v, e, s[1..]);
    }
  }

  lemma PlacedStableClass<E, V(!new)>(o: Order<E, V>, v: V, e: E, s: seq<E>, t: seq<E>, k: nat)
    requires o.StrictWeak() && k <= |t| && Class(o, v, s) == Class(o, v, t) && NoTieFrom(o, e, t, k)
    ensures Class(o, v, s + [e]) == Class(o, v, t[..k] + [e] + t[k..])
  {
    hide Class, Order.StrictWeak, Order.Equivalent;
    PlacedClass(o, v, e, t, k);
    ClassAppend(o, v, s, [e]);
    SingleClass(o, v, e);
    var a, b := Class(o, v, t[..k]), Class(o, v, t[k..]);
    if o.Equivalent(v, e) {
      assert NoTieFrom(o, e, t[k..], 0);
      NoTieClass(o, v, e, t[k..]);
      assert (a + []) + [e] == a + [e] + [];
    } else {
      assert (a + b) + [] == a + [] + b;
    }
  }

  /** One placement behind a stable start. */
  lemma PlacedStable<E, V(!new)>(o: Order<E, V>, e: E, s: seq<E>, t: seq<E>)
    requires o.StrictWeak() && StablePermutation(o, s, t) && NoTieFrom(o, e, t, Place(o, e, t))
    ensures StablePermutation(o, s + [e], Placed(o, e, t))
  {
    hide Class, Place, NoTieFrom, Order.StrictWeak;
    forall v ensures Class(o, v, s + [e]) == Class(o, v, Placed(o, e, t)) {
      PlacedStableClass(o, v, e, s, t, Place(o, e, t));
    }
  }

  lemma LastIsBehind<E>(a: seq<E>, e: E, b: seq<E>)
    ensures var w := a + [e] + b; b != [] ==> w[|w| - 1] in b
  {
    assert b != [] ==> b[|b| - 1] in b;
  }

  lemma SingleClass<E, V(!new)>(o: Order<E, V>, v: V, e: E)
    ensures Class(o, v, [e]) == if o.Equivalent(v, e) then [e] else []
  {
    assert [e][1..] == [];
  }

  /** A class that ends in e, which occurs in b only there, has nothing behind. */
  lemma LastOfClass<E>(s: seq<E>, a: seq<E>, b: seq<E>, e: E)
    requires s + [e] == a + [e] + b && e !in b
    ensures b == [] && s == a
  {
    var w := a + [e] + b;
    LastIsBehind(a, e, b);
    assert w[|w| - 1] == (s + [e])[|s|] == e;
    assert s == (s + [e])[..|s|] && a == w[..|a|];
  }

  lemma StablePlacedClass<E, V(!new)>(o: Order<E, V>, v: V, e: E, s: seq<E>, t: seq<E>, k: nat)
    requires o.StrictWeak() && e !in t && k <= |t|
    requires Class(o, v, s + [e]) == Class(o, v, t[..k] + [e] + t[k..])
    ensures Class(o, v, s) == Class(o, v, t) && (o.Equivalent(v, e) ==> Class(o, v, t[k..]) == [])
  {
    hide Class, Order.Equivalent, Order.StrictWeak;
    PlacedClass(o, v, e, t, k);
    ClassAppend(o, v, s, [e]);
    SingleClass(o, v, e);
    if o.Equivalent(v, e) {
      ClassMember(o, v, t[k..], e);
      LastOfClass(Class(o, v, s), Class(o, v, t[..k]), Class(o, v, t[k..]), e);
    } else {
      assert Class(o, v, s) + [] == Class(o, v, s);
      assert Class(o, v, t[..k]) + [] == Class(o, v, t[..k]);
    }
  }

  lemma StablePlaced<E, V(!new)>(o: Order<E, V>, e: E, s: seq<E>, t: seq<E>)
    requires o.StrictWeak() && e !in t && StablePermutation(o, s + [e], Placed(o, e, t))
    ensures StablePermutation(o, s, t) && NoTieFrom(o, e, t, Place(o, e, t))
  {
    hide Class, Place;
    var k := Place(o, e, t);
    forall v ensures Class(o, v, s) == Class(o, v, t) && (o.Equivalent(v, e) ==> Class(o, v, t[k..]) == []) {
      assert Class(o, v, s + [e]) == Class(o, v, Placed(o, e, t));
      StablePlacedClass(o, v, e, s, t, k);
    }
    forall i | k <= i < |t| ensures !o.Equivalent(o.key(e), t[i]) {
      ClassMember(o, o.key(e), t[k..], t[i]);
      assert t[k..][i - k] == t[i];
    }
  }

  /** Every element that ties with an earlier one is below all the other earlier
      ones. */
  ghost predicate TiesApart<E, V(!new)>(o: Order<E, V>, s: seq<E>) {
    forall j :: 0 <= j < |s| ==> TiesFirst(o, s[j], s[..j])
  }

  lemma TiesApartNext<E, V(!new)>(o: Order<E, V>, r: seq<E>, e: E)
    ensures TiesApart(o, r + [e]) <==> TiesApart(o, r) && TiesFirst(o, e, r)
  {
    hide TiesFirst;
    var s := r + [e];
    assert s[..|r|] == r && s[|r|] == e;
    assert forall j :: 0 <= j < |r| ==> s[j] == r[j] && s[..j] == r[..j];
  }

  /** That is exactly when the sort is stable. */
  lemma {:induction false} PlaceSortStable<E, V(!new)>(o: Order<E, V>, s: seq<E>)
    requires o.StrictWeak() && Distinct(s)
    ensures StablePermutation(o, s, PlaceSort(o, s)) <==> TiesApart(o, s)
  {
    hide StablePermutation, TiesFirst, TiesApart, NoTieFrom, Placed, Place, Sorted, Order.StrictWeak;
    if s == [] {
      NothingToSort(o);
    } else {
      var n := |s| - 1;
      var r, e, t := s[..n], s[n], PlaceSort(o, s[..n]);
      assert s == r + [e] && Distinct(r) && e !in r;
      hide PlaceSort, Distinct;
      assert PlaceSort(o, s) == Placed(o, e, t) by {
        PlaceSortNext(o, s, n);
        assert s[..n + 1] == s;
      }
      PlaceSortStable(o, r);
      TiesApartNext(o, r, e);
      PlaceSortCorrect(o, r);
      PlaceOfTies(o, e, r, t);
      if StablePermutation(o, s, PlaceSort(o, s)) {
        StablePlaced(o, e, r, t);
      }
      if StablePermutation(o, r, t) && NoTieFrom(o, e, t, Place(o, e, t)) {
        PlacedStable(o, e, r, t);
      }
    }
  }

  lemma NothingToSort<E, V(!new)>(o: Order<E, V>)
    ensures StablePermutation(o, [], PlaceSort(o, [])) && TiesApart(o, [])
  {}

  lemma PlaceOfTies<E, V(!new)>(o: Order<E, V>, e: E, r: seq<E>, t: seq<E>)
    requires o.StrictWeak() && Sorted(o, t) && multiset(t) == multiset(r) && e !in r && Distinct(r)
    ensures e !in t && (TiesFirst(o, e, r) <==> NoTieFrom(o, e, t, Place(o, e, t)))
  {
    SameMembers(r, t);
    SameMembers(t, r);
    DistinctPermuted(r, t);
    assert TiesFirst(o, e, r) <==> TiesFirst(o, e, t);
    if TiesFirst(o, e, t) {
      TiesFirstPlace(o, e, t);
    }
    if NoTieFrom(o, e, t, Place(o, e, t)) {
      PlaceTiesFirst(o, e, t);
    }
  }

  // ----- It is not always -----

  /** What is not below the head nor above the second goes between them. */
  lemma PlacedSecond<E, V(!new)>(o: Order<E, V>, e: E, a: E, rest: seq<E>)
    requires !o.Less(e, a) && (rest != [] ==> !o.Less(rest[0], e))
    ensures Placed(o, e, [a] + rest) == [a, e] + rest
  {
    var s := [a] + rest;
    assert s[1..] == rest && s[..1] == [a];
    assert Below(o, e, rest) == 0;
    assert Place(o, e, s) == 1;
    assert [a] + [e] + rest == [a, e] + rest;
  }

  lemma PlaceSortThree<E, V(!new)>(o: Order<E, V>, a: E, b: E, c: E)
    requires !o.Less(b, a) && !o.Less(c, a) && !o.Less(b, c)
    ensures PlaceSort(o, [a, b, c]) == [a, c, b]
  {
    var s := [a, b, c];
    assert PlaceSort(o, [a]) == [a];
    hide Placed, PlaceSort;
    assert s[..1] == [a] && s[..2] == [a, b] && s[..3] == s;
    PlaceSortNext(o, s, 1);
    PlaceSortNext(o, s, 2);
    PlacedSecond(o, b, a, []);
    assert [a] + [] == [a] && [a, b] + [] == [a, b];
    PlacedSecond(o, c, a, [b]);
    assert [a] + [b] == [a, b] && [a, c] + [b] == [a, c, b];
  }

  lemma PairLast<E, V(!new)>(o: Order<E, V>, v: V, s: seq<E>, b: E, c: E)
    requires o.Equivalent(v, b) && o.Equivalent(v, c)
    ensures Class(o, v, s + [b, c]) == Class(o, v, s) + [b, c]
  {
    hide Class;
    ClassAppend(o, v, s, [b, c]);
    ClassAppend(o, v, [b], [c]);
    SingleClass(o, v, b);
    SingleClass(o, v, c);
    assert [b] + [c] == [b, c];
  }

  /** Two ties after an element that is not above them are turned round. */
  lemma PlaceSortUnstable<E, V(!new)>(o: Order<E, V>, a: E, b: E, c: E)
    requires o.StrictWeak() && !o.Less(b, a) && o.Equivalent(o.key(b), c) && b != c
    ensures PlaceSort(o, [a, b, c]) == [a, c, b]
    ensures !StablePermutation(o, [a, b, c], PlaceSort(o, [a, b, c]))
  {
    NotBelowTransitive(o, c, b, a);
    hide Class, Order.StrictWeak;
    PlaceSortThree(o, a, b, c);
    var v := o.key(b);
    assert o.Equivalent(v, b) by {
      NotBelowItself(o, b);
    }
    PairLast(o, v, [a], b, c);
    PairLast(o, v, [a], c, b);
    assert [a] + [b, c] == [a, b, c] && [a] + [c, b] == [a, c, b];
    var k := |Class(o, v, [a])|;
    assert Class(o, v, [a, b, c])[k] == b && Class(o, v, [a, c, b])[k] == c;
  }

  lemma NotBelowItself<E, V(!new)>(o: Order<E, V>, e: E)
    requires o.StrictWeak()
    ensures !o.Less(e, e)
  {}
}
