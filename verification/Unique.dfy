/** What list_unique keeps and drops, as functions on sequences. */
module Unique {
  import opened Orders

  /** The elements list_unique leaves in the list. */
  ghost function Kept<E, V(!new)>(o: Order<E, V>, s: seq<E>): seq<E>
    decreases |s|
  {
    if |s| <= 1 then s
    else if o.Equivalent(o.key(s[0]), s[1]) then Kept(o, [s[0]] + s[2..])
    else [s[0]] + Kept(o, s[1..])
  }

  /** The elements it takes out, in the order it takes them out. */
  ghost function Dropped<E, V(!new)>(o: Order<E, V>, s: seq<E>): seq<E>
    decreases |s|
  {
    if |s| <= 1 then []
    else if o.Equivalent(o.key(s[0]), s[1]) then [s[1]] + Dropped(o, [s[0]] + s[2..])
    else Dropped(o, s[1..])
  }

  /** Where a run over s stands: what is kept and dropped so far, and the rest. */
  ghost predicate Midway<E, V(!new)>(o: Order<E, V>, s: seq<E>, kept: seq<E>, dropped: seq<E>, rest: seq<E>) {
    Kept(o, s) == kept + Kept(o, rest) && Dropped(o, s) == dropped + Dropped(o, rest)
  }

  lemma MidwayStart<E, V(!new)>(o: Order<E, V>, s: seq<E>)
    ensures Midway(o, s, [], [], s)
  {}

  lemma MidwayEnd<E, V(!new)>(o: Order<E, V>, s: seq<E>, kept: seq<E>, dropped: seq<E>, rest: seq<E>)
    requires |rest| <= 1 && Midway(o, s, kept, dropped, rest)
    ensures Kept(o, s) == kept + rest && Dropped(o, s) == dropped
  {}

  lemma MidwayDrop<E, V(!new)>(o: Order<E, V>, s: seq<E>, kept: seq<E>, dropped: seq<E>, rest: seq<E>)
    requires |rest| >= 2 && o.Equivalent(o.key(rest[0]), rest[1]) && Midway(o, s, kept, dropped, rest)
    ensures Midway(o, s, kept, dropped + [rest[1]], [rest[0]] + rest[2..])
  {
    var r := Dropped(o, [rest[0]] + rest[2..]);
    assert dropped + ([rest[1]] + r) == (dropped + [rest[1]]) + r;
  }

  lemma MidwayKeep<E, V(!new)>(o: Order<E, V>, s: seq<E>, kept: seq<E>, dropped: seq<E>, rest: seq<E>)
    requires |rest| >= 2 && !o.Equivalent(o.key(rest[0]), rest[1]) && Midway(o, s, kept, dropped, rest)
    ensures Midway(o, s, kept + [rest[0]], dropped, rest[1..])
  {
    var r := Kept(o, rest[1..]);
    assert kept + ([rest[0]] + r) == (kept + [rest[0]]) + r;
  }

  // ----- The independent description: the input falls into groups -----

  /** A kept element with the elements dropped in its favour. */
  datatype Group<E> = Group(keep: E, drop: seq<E>)

  ghost function Laid<E>(g: seq<Group<E>>): seq<E> {
    if g == [] then [] else [g[0].keep] + g[0].drop + Laid(g[1..])
  }

  ghost function Keeps<E>(g: seq<Group<E>>): seq<E> {
    if g == [] then [] else [g[0].keep] + Keeps(g[1..])
  }

  ghost function Drops<E>(g: seq<Group<E>>): seq<E> {
    if g == [] then [] else g[0].drop + Drops(g[1..])
  }

  /** Every dropped element is the same as the kept element on its left, and
      neighbouring kept elements differ. */
  ghost predicate Grouped<E, V(!new)>(o: Order<E, V>, g: seq<Group<E>>) {
    && (forall i, x :: 0 <= i < |g| && x in g[i].drop ==> o.Equivalent(o.key(g[i].keep), x))
    && (forall i :: 0 <= i < |g| - 1 ==> !o.Equivalent(o.key(g[i].keep), g[i + 1].keep))
  }

  lemma GroupsCons<E>(k: Group<E>, t: seq<Group<E>>)
    ensures Laid([k] + t) == [k.keep] + k.drop + Laid(t)
    ensures Keeps([k] + t) == [k.keep] + Keeps(t)
    ensures Drops([k] + t) == k.drop + Drops(t)
  {
    assert ([k] + t)[1..] == t;
  }

  lemma Regroup<E>(k: E, x: E, d: seq<E>, l: seq<E>, r: seq<E>)
    ensures [k] + ([x] + d) + l == [k] + [x] + ([k] + d + l)[1..]
    ensures ([x] + d) + r == [x] + (d + r)
  {
    assert ([k] + d + l)[1..] == d + l;
  }

  lemma WithDroppedGrouped<E, V(!new)>(o: Order<E, V>, x: E, h: seq<Group<E>>)
    requires h != [] && Grouped(o, h) && o.Equivalent(o.key(h[0].keep), x)
    ensures Grouped(o, [Group(h[0].keep, [x] + h[0].drop)] + h[1..])
  {
    var g := [Group(h[0].keep, [x] + h[0].drop)] + h[1..];
    assert forall i :: 0 < i < |g| ==> g[i] == h[i];
    assert forall i :: 0 <= i < |g| ==> g[i].keep == h[i].keep;
    forall i, y | 0 <= i < |g| && y in g[i].drop ensures o.Equivalent(o.key(g[i].keep), y) {
      assert i == 0 ==> y == x || y in h[0].drop;
      assert i > 0 ==> y in h[i].drop;
    }
    forall i | 0 <= i < |g| - 1 ensures !o.Equivalent(o.key(g[i].keep), g[i + 1].keep) {
      assert g[i].keep == h[i].keep && g[i + 1].keep == h[i + 1].keep;
    }
  }

  /** One more element dropped, right after the first kept one. */
  lemma WithDropped<E, V(!new)>(o: Order<E, V>, x: E, h: seq<Group<E>>) returns (g: seq<Group<E>>)
    requires h != [] && Grouped(o, h) && o.Equivalent(o.key(h[0].keep), x)
    ensures g != [] && g[0].keep == h[0].keep && Grouped(o, g)
    ensures Laid(g) == [h[0].keep] + [x] + Laid(h)[1..]
    ensures Keeps(g) == Keeps(h) && Drops(g) == [x] + Drops(h)
  {
    hide Laid, Keeps, Drops, Grouped;
    var k, d, t := h[0].keep, h[0].drop, h[1..];
    g := [Group(k, [x] + d)] + t;
    assert h == [h[0]] + t;
    GroupsCons(Group(k, [x] + d), t);
    GroupsCons(h[0], t);
    WithDroppedGrouped(o, x, h);
    Regroup(k, x, d, Laid(t), Drops(t));
  }

  /** The input is laid out as groups whose heads are kept and whose rests are
      dropped, both in input order. */
  lemma {:induction false} UniqueGroups<E, V(!new)>(o: Order<E, V>, s: seq<E>) returns (g: seq<Group<E>>)
    ensures Laid(g) == s && Keeps(g) == Kept(o, s) && Drops(g) == Dropped(o, s)
    ensures Grouped(o, g)
    ensures s != [] ==> g != [] && g[0].keep == s[0]
    decreases |s|
  {
    if s == [] {
      g := [];
    } else if |s| == 1 {
      g := [Group(s[0], [])];
      assert Laid(g[1..]) == [] && Keeps(g[1..]) == [] && Drops(g[1..]) == [];
    } else if o.Equivalent(o.key(s[0]), s[1]) {
      var h := UniqueGroups(o, [s[0]] + s[2..]);
      g := WithDropped(o, s[1], h);
      assert s == [s[0]] + [s[1]] + ([s[0]] + s[2..])[1..];
    } else {
      var h := UniqueGroups(o, s[1..]);
      g := [Group(s[0], [])] + h;
      assert g[1..] == h;
      assert s == [s[0]] + s[1..];
    }
  }

  lemma {:induction false} GroupsPermute<E>(g: seq<Group<E>>)
    ensures multiset(Laid(g)) == multiset(Keeps(g)) + multiset(Drops(g))
  {
    if g != [] {
      GroupsPermute(g[1..]);
    }
  }

  /** Kept and dropped elements together are exactly the input. */
  lemma UniqueConserves<E, V(!new)>(o: Order<E, V>, s: seq<E>)
    ensures multiset(Kept(o, s)) + multiset(Dropped(o, s)) == multiset(s)
  {
    var g := UniqueGroups(o, s);
    GroupsPermute(g);
  }

  /** A sorted input becomes strictly increasing. */
  lemma {:induction false} UniqueStrict<E, V(!new)>(o: Order<E, V>, s: seq<E>)
    requires o.StrictWeak() && Sorted(o, s)
    ensures forall i, j :: 0 <= i < j < |Kept(o, s)| ==> o.Less(Kept(o, s)[i], Kept(o, s)[j])
    ensures s != [] ==> Kept(o, s) != [] && Kept(o, s)[0] == s[0]
    decreases |s|
  {
    if |s| <= 1 {
    } else if o.Equivalent(o.key(s[0]), s[1]) {
      var t := [s[0]] + s[2..];
      assert Sorted(o, t) by {
        assert forall i :: 0 < i < |t| ==> t[i] == s[i + 1];
      }
      UniqueStrict(o, t);
    } else {
      UniqueStrict(o, s[1..]);
      var k := Kept(o, s[1..]);
      forall j | 0 <= j < |k| ensures o.Less(s[0], k[j]) {
        if j > 0 {
          NotBelowTransitive(o, s[0], k[j], k[0]);
          assert o.Less(k[0], k[j]);
        }
      }
    }
  }
}
