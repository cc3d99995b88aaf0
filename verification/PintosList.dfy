/** The Pintos doubly linked list with two sentinels: link surgery, reversal,
    natural merge sort, ordered insertion and removal of duplicates, all done
    in place on the prev and next fields. */
module PintosList {
  import opened Orders
  import opened NaturalRuns
  import opened Unique

  /** A list element. As in C it carries links only; what is compared is the
      structure it is embedded in, reached through an Order's key. */
  class Elem {
    var prev: Elem?
    var next: Elem?

    constructor ()
      ensures prev == null && next == null
    {
      prev, next := null, null;
    }
  }

  /** A stretch of distinct nodes linked among themselves in both directions;
      its outer links are free. */
  ghost predicate Segment(s: seq<Elem>)
    reads s
  {
    && (forall i {:trigger s[i].next} :: 0 <= i < |s| - 1 ==> s[i].next == s[i + 1])
    && (forall i {:trigger s[i].prev} :: 1 <= i < |s| ==> s[i].prev == s[i - 1])
    && (forall i, j :: 0 <= i < j < |s| ==> s[i] != s[j])
  }

  /** A whole list: prev and next are mutually inverse along c, and both end in null. */
  ghost predicate Linked(c: seq<Elem>)
    reads c
  {
    |c| >= 2 && Segment(c) && c[0].prev == null && c[|c| - 1].next == null
  }

  lemma SegmentJoin(a: seq<Elem>, b: seq<Elem>)
    requires Segment(a) && Segment(b) && a != [] && b != []
    requires forall x :: x in a ==> x !in b
    requires a[|a| - 1].next == b[0] && b[0].prev == a[|a| - 1]
    ensures Segment(a + b)
  {
    var c := a + b;
    assert forall i :: 0 <= i < |c| ==> c[i] == if i < |a| then a[i] else b[i - |a|];
    forall i, j | 0 <= i < |a| && 0 <= j < |b| ensures a[i] != b[j] {
      assert a[i] in a && b[j] in b;
    }
  }

  lemma LinkedJoin(a: seq<Elem>, b: seq<Elem>)
    requires Segment(a) && Segment(b) && a != [] && b != []
    requires forall x :: x in a ==> x !in b
    requires a[|a| - 1].next == b[0] && b[0].prev == a[|a| - 1]
    requires a[0].prev == null && b[|b| - 1].next == null
    ensures Linked(a + b)
  {
    SegmentJoin(a, b);
  }

  class List {
    const head: Elem
    const tail: Elem
    /** Every node from head to tail, sentinels included. */
    ghost var chain: seq<Elem>
    /** The same nodes as a set. */
    ghost var nodes: set<Elem>

    ghost predicate Valid()
      reads this, chain
    {
      && |chain| >= 2 && chain[0] == head && chain[|chain| - 1] == tail && Linked(chain)
      && (forall e :: e in nodes ==> e in chain)
      && (forall e :: e in chain ==> e in nodes)
    }

    /** What walking the list sees at position k. */
    lemma At(k: nat)
      requires Valid()
      ensures |chain| >= 2 && chain[0] == head && chain[|chain| - 1] == tail
      ensures 0 < k < |chain| ==> chain[k].prev == chain[k - 1]
      ensures k < |chain| - 1 ==> chain[k].next == chain[k + 1]
      ensures k < |chain| ==> chain[k] in nodes && (chain[k] == head <==> k == 0)
      ensures k < |chain| ==> (chain[k] == tail <==> k == |chain| - 1)
    {}

    lemma Different(i: nat, j: nat)
      requires Valid() && i < |chain| && j < |chain|
      ensures chain[i] == chain[j] <==> i == j
    {}

    lemma Outside(elem: Elem)
      requires Valid() && elem !in nodes
      ensures elem !in chain
    {}

    lemma ChainDistinct()
      requires Valid()
      ensures forall j, k :: 0 <= j < k < |chain| ==> chain[j] != chain[k]
      ensures forall j :: 0 <= j < |chain| ==> chain[j] in nodes
    {}

    /** The interior elements, in list order. */
    ghost function Elems(): seq<Elem>
      requires |chain| >= 2
      reads this
    {
      chain[1..|chain| - 1]
    }

    lemma ElemsDistinct()
      requires Valid()
      ensures |Elems()| == |chain| - 2
      ensures forall i, j :: 0 <= i < j < |Elems()| ==> Elems()[i] != Elems()[j]
      ensures forall i :: 0 <= i < |Elems()| ==> Elems()[i] in nodes
    {}

    constructor ()
      ensures Valid() && fresh(nodes)
      ensures Elems() == []
    {
      var h := new Elem();
      var t := new Elem();
      head, tail, chain, nodes := h, t, [h, t], {h, t};
      new;
      h.next := t;
      t.prev := h;
    }

    /** list_insert: elem goes just before the node at position p. */
    method Insert(before: Elem, elem: Elem, ghost p: nat)
      requires Valid() && elem !in chain
      requires 1 <= p < |chain| && chain[p] == before
      modifies this, nodes, elem
      ensures Valid()
      ensures chain == old(chain)[..p] + [elem] + old(chain)[p..]
      ensures nodes == old(nodes) + {elem}
    {
      hide Segment, Linked;
      ghost var d := chain;
      At(0);
      InsertChain(before, elem, d, p);
      chain, nodes := d[..p] + [elem] + d[p..], nodes + {elem};
      PastedMembers(d, p, [elem]);
    }

    /** list_push_back. */
    method PushBack(elem: Elem)
      requires Valid() && elem !in nodes
      modifies this, nodes, elem
      ensures Valid() && nodes == old(nodes) + {elem}
      ensures Elems() == old(Elems()) + [elem]
    {
      hide Linked;
      At(0);
      Insert(tail, elem, |chain| - 1);
    }

    /** list_remove: returns the element that followed. */
    method Remove(elem: Elem, ghost p: nat) returns (r: Elem)
      requires Valid()
      requires 1 <= p < |chain| - 1 && chain[p] == elem
      modifies this, nodes
      ensures Valid()
      ensures chain == old(chain)[..p] + old(chain)[p + 1..]
      ensures nodes == old(nodes) - {elem}
      ensures r == old(chain)[p + 1]
    {
      elem.prev.next := elem.next;
      elem.next.prev := elem.prev;
      chain, nodes := chain[..p] + chain[p + 1..], nodes - {elem};
      r := elem.next;
    }
  }

  /** The assignments of list_insert, on a bare chain. */
  method InsertChain(before: Elem, elem: Elem, ghost d: seq<Elem>, ghost p: nat)
    requires Linked(d) && elem !in d && 1 <= p < |d| && d[p] == before
    modifies before, elem, d[p - 1]
    ensures Linked(d[..p] + [elem] + d[p..])
  {
    assert before.prev == d[p - 1];
    PartsLinked(d, p);
    SegmentDistinct(d);
    assert forall k :: 0 <= k < |d| ==> d[k] != elem;
    elem.prev := before.prev;
    elem.next := before;
    before.prev.next := elem;
    before.prev := elem;
    KeptSegment(d[..p]);
    KeptSegment(d[p..]);
    LinkedPaste(d, p, [elem]);
  }

  /** First half of list_splice: closes the gap around positions [i, l). */
  method Cut(first: Elem, final: Elem, ghost src: List, ghost i: nat, ghost l: nat)
    requires src.Valid()
    requires 1 <= i < l < |src.chain| && src.chain[i] == first && src.chain[l - 1] == final
    modifies src, src.nodes
    ensures src.Valid() && Segment(old(src.chain[i..l]))
    ensures src.chain == old(src.chain[..i] + src.chain[l..])
    ensures src.nodes == old(src.nodes - set x | x in src.chain[i..l])
  {
    hide Segment, Linked;
    src.At(0);
    ghost var c := src.chain;
    CutChain(first, final, c, i, l);
    CutNodes(c, i, l, src.nodes);
    src.chain := c[..i] + c[l..];
    src.nodes := src.nodes - set x | x in c[i..l];
  }

  /** The two assignments of the first half of list_splice, on a bare chain. */
  method CutChain(first: Elem, final: Elem, ghost c: seq<Elem>, ghost i: nat, ghost l: nat)
    requires Linked(c)
    requires 1 <= i < l < |c| && c[i] == first && c[l - 1] == final
    modifies c[i - 1], c[l]
    ensures Linked(c[..i] + c[l..]) && Segment(c[i..l])
    ensures forall j, k :: 0 <= j < k < |c| ==> c[j] != c[k]
  {
    SegmentDistinct(c);
    ThreePartsLinked(c, i, l);
    PartsOf(c, i, l);
    first.prev.next := final.next;
    final.next.prev := first.prev;
    KeptSegment(c[..i]);
    KeptSegment(c[i..l]);
    KeptSegment(c[l..]);
    CutApart(c, i, l);
    LinkedJoin(c[..i], c[l..]);
  }

  lemma CutNodes(c: seq<Elem>, i: nat, l: nat, nodes: set<Elem>)
    requires i <= l <= |c|
    requires forall j, k :: 0 <= j < k < |c| ==> c[j] != c[k]
    requires (forall e :: e in nodes ==> e in c) && (forall e :: e in c ==> e in nodes)
    ensures forall e :: e in nodes - (set x | x in c[i..l]) ==> e in c[..i] + c[l..]
    ensures forall e :: e in c[..i] + c[l..] ==> e in nodes - (set x | x in c[i..l])
  {
    CutApart(c, i, l);
    PartsOf(c, i, l);
  }

  lemma ThreePartsLinked(c: seq<Elem>, i: nat, l: nat)
    requires Segment(c) && i <= l <= |c|
    ensures Segment(c[..i]) && Segment(c[i..l]) && Segment(c[l..])
  {
    PartsOf(c, i, l);
  }

  /** Positions in the parts of a sequence, and what the parts contain. */
  lemma PartsOf<E>(c: seq<E>, i: nat, l: nat)
    requires i <= l <= |c|
    ensures forall k :: 0 <= k < i ==> c[..i][k] == c[k]
    ensures forall k :: 0 <= k < l - i ==> c[i..l][k] == c[i + k]
    ensures forall k :: 0 <= k < |c| - l ==> c[l..][k] == c[l + k]
    ensures forall x :: x in c[..i] + c[l..] ==> x in c
    ensures forall x :: x in c ==> x in c[..i] + c[l..] || x in c[i..l]
  {
    assert c == c[..i] + c[i..l] + c[l..];
  }

  /** Second half of list_splice: links a stretch in just before position p. */
  method Paste(before: Elem, first: Elem, final: Elem, ghost dst: List, ghost p: nat, ghost s: seq<Elem>)
    requires dst.Valid() && Segment(s)
    requires forall x :: x in s ==> x !in dst.chain
    requires 1 <= p < |dst.chain| && dst.chain[p] == before
    requires s != [] && s[0] == first && s[|s| - 1] == final
    modifies dst, dst.nodes, s
    ensures dst.Valid()
    ensures dst.chain == old(dst.chain[..p] + s + dst.chain[p..])
    ensures dst.nodes == old(dst.nodes) + set x | x in s
  {
    hide Segment, Linked;
    ghost var d := dst.chain;
    dst.At(0);
    PasteChain(before, first, final, d, p, s);
    dst.chain := d[..p] + s + d[p..];
    dst.nodes := dst.nodes + set x | x in s;
    PastedMembers(d, p, s);
  }

  lemma PastedMembers(d: seq<Elem>, p: nat, s: seq<Elem>)
    requires p <= |d|
    ensures forall x :: x in d[..p] + s + d[p..] ==> x in d || x in s
    ensures forall x :: x in d || x in s ==> x in d[..p] + s + d[p..]
  {
    PartsOf(d, p, p);
  }

  /** The four assignments of the second half of list_splice, on a bare chain. */
  method PasteChain(before: Elem, first: Elem, final: Elem, ghost d: seq<Elem>, ghost p: nat, ghost s: seq<Elem>)
    requires Linked(d) && Segment(s)
    requires forall x :: x in s ==> x !in d
    requires 1 <= p < |d| && d[p] == before
    requires s != [] && s[0] == first && s[|s| - 1] == final
    modifies before, first, final, d[p - 1]
    ensures Linked(d[..p] + s + d[p..])
  {
    assert before.prev == d[p - 1];
    PartsLinked(d, p);
    SegmentDistinct(d);
    SegmentDistinct(s);
    assert forall k :: 0 <= k < |d| ==> d[k] !in s;
    first.prev := before.prev;
    final.next := before;
    before.prev.next := first;
    before.prev := final;
    KeptSegment(d[..p]);
    KeptSegment(d[p..]);
    KeptSegment(s);
    LinkedPaste(d, p, s);
  }

  lemma LinkedPaste(d: seq<Elem>, p: nat, s: seq<Elem>)
    requires 1 <= p < |d| && Segment(d[..p]) && Segment(s) && Segment(d[p..]) && s != []
    requires forall x :: x in s ==> x !in d
    requires forall j, k :: 0 <= j < k < |d| ==> d[j] != d[k]
    requires d[0].prev == null && d[|d| - 1].next == null
    requires d[p - 1].next == s[0] && s[0].prev == d[p - 1]
    requires s[|s| - 1].next == d[p] && d[p].prev == s[|s| - 1]
    ensures Linked(d[..p] + s + d[p..])
  {
    PartsOf(d, p, p);
    SegmentJoin(d[..p], s);
    assert d[..p][0] == d[0] && d[p..][|d| - p - 1] == d[|d| - 1];
    LinkedJoin(d[..p] + s, d[p..]);
  }

  /** A stretch survives any change to its outer links only. */
  twostate lemma KeptSegment(s: seq<Elem>)
    requires old(Segment(s))
    requires forall k {:trigger s[k].next} :: 0 <= k < |s| - 1 ==> s[k].next == old(s[k].next)
    requires forall k {:trigger s[k].prev} :: 1 <= k < |s| ==> s[k].prev == old(s[k].prev)
    ensures Segment(s)
  {
    forall k {:trigger s[k].next} | 0 <= k < |s| - 1 ensures s[k].next == s[k + 1] {
      assert old(s[k].next) == s[k + 1];
    }
    forall k {:trigger s[k].prev} | 1 <= k < |s| ensures s[k].prev == s[k - 1] {
      assert old(s[k].prev) == s[k - 1];
    }
  }

  lemma PartsLinked(d: seq<Elem>, p: nat)
    requires Segment(d) && p <= |d|
    ensures Segment(d[..p]) && Segment(d[p..])
  {
    PartsOf(d, p, p);
  }

  /** list_splice within one list: positions [i, l) go just before the node at
      position p, which is not one of them. */
  method Splice(before: Elem, first: Elem, last: Elem, ghost list: List, ghost p: nat, ghost i: nat, ghost l: nat)
    requires list.Valid()
    requires 1 <= i <= l < |list.chain| && list.chain[i] == first && list.chain[l] == last
    requires 1 <= p < |list.chain| && list.chain[p] == before
    requires p < i || l <= p
    modifies list, list.nodes
    ensures list.Valid() && list.nodes == old(list.nodes)
    ensures p < i ==>
      list.chain == old(list.chain[..p] + list.chain[i..l] + list.chain[p..i] + list.chain[l..])
    ensures l <= p ==>
      list.chain == old(list.chain[..i] + list.chain[l..p] + list.chain[i..l] + list.chain[p..])
  {
    hide Segment;
    ghost var c := list.chain;
    SegmentDistinct(c);
    list.At(l);
    if first == last {
      EmptyMove(c, p, i);
      return;
    }
    SpliceSome(before, first, last.prev, list, p, i, l);
    MoveWithin(c, p, i, l);
  }

  /** The two halves of list_splice on a range that is not empty. */
  method SpliceSome(before: Elem, first: Elem, final: Elem, ghost list: List, ghost p: nat, ghost i: nat, ghost l: nat)
    requires list.Valid()
    requires 1 <= i < l < |list.chain| && list.chain[i] == first && list.chain[l - 1] == final
    requires 1 <= p < |list.chain| && list.chain[p] == before && (p < i || l <= p)
    modifies list, list.nodes
    ensures list.Valid() && list.nodes == old(list.nodes)
    ensures list.chain == Moved(old(list.chain), p, i, l)
  {
    hide Segment, Linked, List.Valid;
    ghost var c := list.chain;
    list.ChainDistinct();
    CutApart(c, i, l);
    Cut(first, final, list, i, l);
    Paste(before, first, final, list, if p < i then p else p - (l - i), c[i..l]);
  }

  /** c without positions [i, l), which are put back before what was at p. */
  ghost function Moved<E>(c: seq<E>, p: nat, i: nat, l: nat): seq<E>
    requires i <= l <= |c| && p <= |c| && (p < i || l <= p)
  {
    var rest, q := c[..i] + c[l..], if p < i then p else p - (l - i);
    rest[..q] + c[i..l] + rest[q..]
  }

  /** list_splice between lists that share no node: positions [i, l) of src go
      just before the node at position p of dst. */
  method SpliceAcross(before: Elem, first: Elem, last: Elem, ghost dst: List, ghost src: List,
                      ghost p: nat, ghost i: nat, ghost l: nat)
    requires dst.Valid() && src.Valid() && dst != src && dst.nodes !! src.nodes
    requires 1 <= i <= l < |src.chain| && src.chain[i] == first && src.chain[l] == last
    requires 1 <= p < |dst.chain| && dst.chain[p] == before
    modifies dst, src, dst.nodes, src.nodes
    ensures dst.Valid() && src.Valid() && dst.nodes !! src.nodes
    ensures dst.chain == old(dst.chain[..p] + src.chain[i..l] + dst.chain[p..])
    ensures src.chain == old(src.chain[..i] + src.chain[l..])
  {
    hide Segment, Linked, List.Valid;
    ghost var d, c := dst.chain, src.chain;
    src.ChainDistinct();
    src.At(l);
    if first == last {
      assert i == l;
      assert d == d[..p] + c[i..i] + d[p..];
      assert c == c[..i] + c[i..];
      return;
    }
    SpliceAcrossSome(before, first, last.prev, dst, src, p, i, l);
  }

  lemma ChainsApart(a: List, b: List)
    requires a.Valid() && b.Valid() && a.nodes !! b.nodes
    ensures forall k :: 0 <= k < |a.chain| ==> a.chain[k] !in b.chain && a.chain[k] !in b.nodes
    ensures forall x :: x in b.chain ==> x !in a.chain && x !in a.nodes
  {}

  method SpliceAcrossSome(before: Elem, first: Elem, final: Elem, ghost dst: List, ghost src: List,
                          ghost p: nat, ghost i: nat, ghost l: nat)
    requires dst.Valid() && src.Valid() && dst != src && dst.nodes !! src.nodes
    requires 1 <= i < l < |src.chain| && src.chain[i] == first && src.chain[l - 1] == final
    requires 1 <= p < |dst.chain| && dst.chain[p] == before
    modifies dst, src, dst.nodes, src.nodes
    ensures dst.Valid() && src.Valid() && dst.nodes !! src.nodes
    ensures dst.chain == old(dst.chain[..p] + src.chain[i..l] + dst.chain[p..])
    ensures src.chain == old(src.chain[..i] + src.chain[l..])
  {
    hide Segment, Linked, List.Valid;
    ghost var d, c := dst.chain, src.chain;
    src.ChainDistinct();
    CutApart(c, i, l);
    ChainsApart(dst, src);
    Cut(first, final, src, i, l);
    ChainsApart(src, dst);
    Paste(before, first, final, dst, p, c[i..l]);
  }

  lemma SegmentDistinct(s: seq<Elem>)
    requires Segment(s)
    ensures forall j, k :: 0 <= j < k < |s| ==> s[j] != s[k]
  {}

  /** What is cut out shares no node with what stays. */
  lemma CutApart(c: seq<Elem>, i: nat, l: nat)
    requires i <= l <= |c|
    requires forall j, k :: 0 <= j < k < |c| ==> c[j] != c[k]
    ensures forall x :: x in c[i..l] ==> x !in c[..i] + c[l..] && x in c
    ensures forall k :: 0 <= k < |c| - (l - i) ==> (c[..i] + c[l..])[k] !in c[i..l]
    ensures forall k :: 0 <= k < |c| - (l - i) ==> (c[..i] + c[l..])[k] in c
  {}

  lemma EmptyMove(c: seq<Elem>, p: nat, i: nat)
    requires i <= |c|
    ensures p < i ==> c == c[..p] + c[i..i] + c[p..i] + c[i..]
    ensures i <= p <= |c| ==> c == c[..i] + c[i..p] + c[i..i] + c[p..]
  {}

  /** Taking out and putting back, against the move written in one piece. */
  lemma MoveWithin(c: seq<Elem>, p: nat, i: nat, l: nat)
    requires i <= l <= |c|
    ensures var r := c[..i] + c[l..];
      && (p < i ==> r[..p] + c[i..l] + r[p..] == c[..p] + c[i..l] + c[p..i] + c[l..])
      && (l <= p <= |c| ==>
            r[..p - (l - i)] + c[i..l] + r[p - (l - i)..] == c[..i] + c[l..p] + c[i..l] + c[p..])
  {
    var r := c[..i] + c[l..];
    if p < i {
      assert r[..p] == c[..p] && r[p..] == c[p..i] + c[l..];
    } else if l <= p <= |c| {
      assert r[..p - (l - i)] == c[..i] + c[l..p] && r[p - (l - i)..] == c[p..];
    }
  }

  // ----- Natural merge sort -----

  /** find_end_of_run, on positions [i, n). Also counts the calls to less. */
  method FindEndOfRun<V(!new)>(a: Elem, b: Elem, o: Order<Elem, V>, ghost list: List, ghost i: nat, ghost n: nat)
    returns (end: Elem, ghost comparisons: nat)
    requires list.Valid()
    requires 1 <= i < n < |list.chain| && list.chain[i] == a && list.chain[n] == b
    ensures var r := FirstRun(o, list.chain[i..n]); end == list.chain[i + r] && (end == b <==> i + r == n)
    ensures var r := FirstRun(o, list.chain[i..n]); comparisons == if i + r == n then r - 1 else r
  {
    ghost var c, k := list.chain, i + 1;
    end := a.next;
    comparisons := 0;
    assert c[i..n][..] == c[i..n];
    while end != b && !o.Less(end, end.prev)
      invariant i < k <= n && end == c[k]
      invariant comparisons == k - 1 - i
      invariant FirstRun(o, c[i..n]) == k - 1 - i + FirstRun(o, c[k - 1..n])
      decreases n - k
    {
      assert c[k - 1..n][1..] == c[k..n];
      end := end.next;
      k := k + 1;
      comparisons := comparisons + 1;
    }
    if end != b {
      comparisons := comparisons + 1;
    }
  }

  /** The splice inplace_merge makes: the node at position y moves to x. */
  method MoveNode(a: Elem, b: Elem, next: Elem, ghost list: List, ghost x: nat, ghost y: nat)
    requires list.Valid()
    requires 1 <= x < y < |list.chain| - 1
    requires list.chain[x] == a && list.chain[y] == b && list.chain[y + 1] == next
    modifies list, list.nodes
    ensures list.Valid() && list.nodes == old(list.nodes)
    ensures list.chain == old(list.chain[..x] + [list.chain[y]] + list.chain[x..y] + list.chain[y + 1..])
  {
    hide Linked, List.Valid;
    ghost var d := list.chain;
    Splice(a, b, next, list, x, y, y + 1);
    assert d[y..y + 1] == [d[y]];
    assert d == d[..x] + d[x..y] + [d[y]] + d[y + 1..];
  }

  /** inplace_merge: positions [i, j) and [j, k) become their merge, node by
      node, and nothing outside [i, k) moves. */
  method InplaceMerge<V(!new)>(a0: Elem, a1b0: Elem, b1: Elem, o: Order<Elem, V>,
                               ghost list: List, ghost i: nat, ghost j: nat, ghost k: nat)
    returns (ghost comparisons: nat)
    requires list.Valid() && o.StrictWeak()
    requires 1 <= i < j < k < |list.chain|
    requires list.chain[i] == a0 && list.chain[j] == a1b0 && list.chain[k] == b1
    requires Sorted(o, list.chain[i..j]) && Sorted(o, list.chain[j..k])
    modifies list, list.nodes
    ensures list.Valid() && list.nodes == old(list.nodes)
    ensures list.chain == old(list.chain[..i] + Merge(o, list.chain[i..j], list.chain[j..k]) + list.chain[k..])
    ensures comparisons < k - i
  {
    hide Linked, List.Valid, Order.StrictWeak, Sorted, Merge;
    ghost var c, x, y := list.chain, i, j;
    ghost var m := Merge(o, c[i..j], c[j..k]);
    var a, b := a0, a1b0;
    comparisons := 0;
    while a != b && b != b1
      invariant list.Valid() && list.nodes == old(list.nodes) && |list.chain| == |c|
      invariant i <= x <= y <= k && x < k
      invariant list.chain[x] == a && list.chain[y] == b && list.chain[k] == b1
      invariant comparisons == x - i
      invariant list.chain[k..] == c[k..]
      invariant list.chain[..x] + Merge(o, list.chain[x..y], list.chain[y..k]) == c[..i] + m
      decreases k - x
    {
      ghost var d := list.chain;
      list.At(y);
      assert x < y && y < k;
      if !o.Less(b, a) {
        list.At(x);
        MergeTakesLeft(o, d, x, y, k);
        a := a.next;
      } else {
        b := b.next;
        list.At(y + 1);
        MoveNode(a, b.prev, b, list, x, y);
        MergeTakesRight(o, d, list.chain, x, y, k);
        y := y + 1;
      }
      x := x + 1;
      comparisons := comparisons + 1;
    }
    list.Different(x, y);
    list.Different(y, k);
    Rejoin(list.chain, x, y, k);
    MergeNothing(o, list.chain[x..y], list.chain[y..k]);
  }

  lemma MergeNothing<E, V(!new)>(o: Order<E, V>, a: seq<E>, b: seq<E>)
    ensures a == [] ==> Merge(o, a, b) == b
    ensures b == [] ==> Merge(o, a, b) == a
  {}

  lemma Rejoin<E>(c: seq<E>, x: nat, y: nat, k: nat)
    requires x <= y <= k <= |c|
    ensures c == c[..x] + (c[x..y] + c[y..k]) + c[k..]
    ensures x == y ==> c == c[..x] + c[y..k] + c[k..]
    ensures y == k ==> c == c[..x] + c[x..y] + c[k..]
  {}

  lemma MergeTakesLeft<V(!new)>(o: Order<Elem, V>, d: seq<Elem>, x: nat, y: nat, k: nat)
    requires x < y < k <= |d| && !o.Less(d[y], d[x])
    ensures d[..x] + Merge(o, d[x..y], d[y..k]) == d[..x + 1] + Merge(o, d[x + 1..y], d[y..k])
  {
    assert d[x..y][1..] == d[x + 1..y];
  }

  lemma MergeTakesRight<V(!new)>(o: Order<Elem, V>, d: seq<Elem>, e: seq<Elem>, x: nat, y: nat, k: nat)
    requires x < y < k < |d| && o.Less(d[y], d[x])
    requires e == d[..x] + [d[y]] + d[x..y] + d[y + 1..]
    ensures |e| == |d| && e[k..] == d[k..] && e[x + 1] == d[x] && e[y + 1] == d[y + 1]
    ensures d[..x] + Merge(o, d[x..y], d[y..k]) == e[..x + 1] + Merge(o, e[x + 1..y + 1], e[y + 1..k])
  {
    assert e[x + 1..y + 1] == d[x..y];
    assert e[y + 1..k] == d[y + 1..k] == d[y..k][1..];
    assert e[..x + 1] == d[..x] + [d[y]];
  }

  lemma SliceOfSlice<E>(d: seq<E>, q: nat, n: nat, i: nat, j: nat)
    requires q + i <= q + j <= n <= |d|
    ensures d[q..n][i..j] == d[q + i..q + j]
    ensures d[q..n][..j] == d[q..q + j]
    ensures d[q..n][i..] == d[q + i..n]
  {
    var s := d[q..n];
    assert forall k :: 0 <= k < |s| ==> s[k] == d[q + k];
  }

  /** After a merge in place: the merged part joins what is done, the rest stays. */
  lemma MergedChain<E>(d: seq<E>, e: seq<E>, m: seq<E>, q: nat, k: nat, n: nat)
    requires 1 <= q <= k <= n <= |d| && |m| == k - q && e == d[..q] + m + d[k..]
    ensures |e| == |d| && e[1..k] == d[1..q] + m && e[k..n] == d[k..n]
  {}

  /** Where a pass stands in the list: done is behind a0, rest begins at it. */
  ghost predicate PassAt(list: List, a0: Elem, n: nat, q: nat, done: seq<Elem>, rest: seq<Elem>)
    reads list
  {
    && |list.chain| == n + 1 && 1 <= q <= n && list.chain[q] == a0 && list.chain[n] == list.tail
    && done == list.chain[1..q] && rest == list.chain[q..n]
    && (a0 == list.tail <==> rest == [])
  }

  /** Locates the end of the run at a0. */
  method FirstRunEnd<V(!new)>(a0: Elem, o: Order<Elem, V>, list: List,
                              ghost n: nat, ghost q: nat, ghost done: seq<Elem>, ghost rest: seq<Elem>)
    returns (a1b0: Elem, ghost comparisons: nat)
    requires list.Valid() && PassAt(list, a0, n, q, done, rest) && rest != []
    ensures var j := FirstRun(o, rest);
      && q + j <= n && |list.chain| == n + 1 && a1b0 == list.chain[q + j]
      && (a1b0 == list.tail <==> j == |rest|)
      && comparisons == if j == |rest| then j - 1 else j
  {
    hide Linked;
    list.At(0);
    a1b0, comparisons := FindEndOfRun(a0, list.tail, o, list, q, n);
  }

  /** The rest of one iteration of the inner loop of list_sort, once the end of
      the first run is known: finds the second run and merges the two. */
  method MergePair<V(!new)>(a0: Elem, a1b0: Elem, o: Order<Elem, V>, list: List,
                            ghost n: nat, ghost q: nat, ghost done: seq<Elem>, ghost rest: seq<Elem>)
    returns (b1: Elem, ghost comparisons: nat)
    requires list.Valid() && o.StrictWeak()
    requires PassAt(list, a0, n, q, done, rest) && rest != [] && FirstRun(o, rest) < |rest|
    requires q + FirstRun(o, rest) <= n && |list.chain| == n + 1 && a1b0 == list.chain[q + FirstRun(o, rest)]
    modifies list, list.nodes
    ensures list.Valid() && list.nodes == old(list.nodes)
    ensures var j, k := FirstRun(o, rest), SecondRun(o, rest);
      && PassAt(list, b1, n, q + k, done + Merge(o, rest[..j], rest[j..k]), rest[k..])
      && j + comparisons <= 2 * k - (if k == |rest| then 2 else 1)
  {
    hide Segment, Sorted, Merge, FirstRun;
    ghost var d := list.chain;
    ghost var j, k := FirstRun(o, rest), SecondRun(o, rest);
    SliceOfSlice(d, q, n, 0, j);
    SliceOfSlice(d, q, n, j, k);
    SliceOfSlice(d, q, n, k, k);
    FirstPairSorted(o, rest);
    b1, comparisons := FindEndOfRun(a1b0, list.tail, o, list, q + j, n);
    var cmp := InplaceMerge(a0, a1b0, b1, o, list, q, q + j, q + k);
    comparisons := comparisons + cmp;
    MergedChain(d, list.chain, Merge(o, rest[..j], rest[j..k]), q, q + k, n);
  }

  /** One iteration of the outer loop of list_sort: a pass over the whole list. */
  method SortPass<V(!new)>(list: List, o: Order<Elem, V>) returns (outputRunCnt: nat, ghost comparisons: nat)
    requires list.Valid() && o.StrictWeak()
    modifies list, list.nodes
    ensures list.Valid()
    ensures list.Elems() == Pass(o, old(list.Elems()))
    ensures outputRunCnt == Outputs(o, old(list.Elems()))
    ensures list.nodes == old(list.nodes) && |list.chain| == |old(list.chain)|
    ensures comparisons <= PassComparisons(|list.Elems()|)
  {
    hide Linked, List.Valid, Order.StrictWeak, Sorted, Merge, FirstRun, SecondRun, MidPass, Pass, Outputs, PassAt;
    PassStart(list);
    ghost var s, n, q, done: seq<Elem>, rest := list.Elems(), |list.chain| - 1, 1, [], list.Elems();
    MidPassStart(o, s);
    outputRunCnt, comparisons := 0, 0;
    var a0: Elem := list.head.next;
    while a0 != list.tail
      invariant list.Valid() && list.nodes == old(list.nodes)
      invariant PassAt(list, a0, n, q, done, rest) && (a0 == list.tail <==> rest == []) && |rest| <= n - 1
      invariant MidPass(o, s, done, outputRunCnt, rest)
      invariant comparisons <= PassComparisons(n - 1) - PassComparisons(|rest|)
      decreases |rest|
    {
      var a1b0, cmp1 := FirstRunEnd(a0, o, list, n, q, done, rest);
      comparisons := comparisons + cmp1;
      if a1b0 == list.tail {
        MidPassEnd(o, s, done, outputRunCnt, rest);
        PassEnds(list, a0, n, q, done, rest);
        outputRunCnt := outputRunCnt + 1;
        return;
      }
      ghost var j, k := FirstRun(o, rest), SecondRun(o, rest);
      MidPassMerge(o, s, done, outputRunCnt, rest);
      outputRunCnt := outputRunCnt + 1;
      var b1, cmp2 := MergePair(a0, a1b0, o, list, n, q, done, rest);
      comparisons := comparisons + cmp2;
      a0 := b1;
      q, done, rest := q + k, done + Merge(o, rest[..j], rest[j..k]), rest[k..];
      PassEnds(list, a0, n, q, done, rest);
    }
    MidPassEnd(o, s, done, outputRunCnt, rest);
    PassEnds(list, a0, n, q, done, rest);
  }

  lemma PassStart(list: List)
    requires list.Valid()
    ensures |list.chain| >= 2 && list.chain[0] == list.head && list.head.next == list.chain[1]
    ensures PassAt(list, list.chain[1], |list.chain| - 1, 1, [], list.Elems())
    ensures list.chain[1] == list.tail <==> list.Elems() == []
  {
    hide Linked;
    list.At(0);
    list.At(1);
  }

  lemma PassEnds(list: List, a0: Elem, n: nat, q: nat, done: seq<Elem>, rest: seq<Elem>)
    requires PassAt(list, a0, n, q, done, rest)
    ensures |list.chain| == n + 1 >= 2 && list.Elems() == done + rest && |rest| <= n - 1
    ensures a0 == list.tail <==> rest == []
  {}

  /** The comparisons one pass may make on n elements. */
  function PassComparisons(n: nat): nat {
    if n == 0 then 0 else 2 * (n - 1)
  }

  function SortComparisons(passes: nat, n: nat): nat {
    passes * PassComparisons(n)
  }

  lemma SortComparisonsAre(passes: nat, n: nat)
    ensures SortComparisons(passes, n) == passes * if n == 0 then 0 else 2 * (n - 1)
    ensures SortComparisons(passes + 1, n) == SortComparisons(passes, n) + PassComparisons(n)
    ensures SortComparisons(0, n) == 0
  {}

  /** list_sort. The first six clauses are its promise: a well-formed list of
      the same nodes, sorted, equal ones in their old order; node for node the
      list that ordered insertion would have built. The others are its cost. */
  method Sort<V(!new)>(list: List, o: Order<Elem, V>) returns (ghost passes: nat, ghost comparisons: nat)
    requires list.Valid() && o.StrictWeak()
    modifies list, list.nodes
    ensures list.Valid() && list.nodes == old(list.nodes)
    ensures multiset(list.Elems()) == multiset(old(list.Elems()))
    ensures Sorted(o, list.Elems())
    ensures var t := list.Elems(); forall i, j :: 0 <= i < j < |t| ==> !o.lt(o.key(t[j]), o.key(t[i]))
    ensures StablePermutation(o, old(list.Elems()), list.Elems())
    ensures list.Elems() == InsertionSort(o, old(list.Elems()))
    ensures var r := Runs(o, old(list.Elems())); passes <= if r <= 2 then 1 else CeilLog2(r)
    ensures var n := |list.Elems()|; comparisons <= passes * if n == 0 then 0 else 2 * (n - 1)
  {
    hide Linked, List.Valid, Order.StrictWeak, Sorted, Pass, Outputs, Runs, PassBound, SortComparisons, PassComparisons;
    hide InsertionSort, StablePermutation, CeilLog2;
    list.At(0);
    ghost var start, n := list.Elems(), |list.Elems()|;
    SortComparisonsAre(0, n);
    var outputRunCnt: nat;
    outputRunCnt, comparisons := SortPass(list, o);
    passes := 1;
    while outputRunCnt > 1
      invariant list.Valid() && list.nodes == old(list.nodes) && |list.chain| == |old(list.chain)|
      invariant comparisons <= SortComparisons(passes, n)
      invariant if outputRunCnt > 1
                then passes + Passes(o, list.Elems()) == Passes(o, start)
                  && NaturalSort(o, list.Elems()) == NaturalSort(o, start)
                else passes == Passes(o, start) && list.Elems() == NaturalSort(o, start)
      decreases Passes(o, start) - passes
    {
      ghost var cmp: nat;
      outputRunCnt, cmp := SortPass(list, o);
      SortComparisonsAre(passes, n);
      passes, comparisons := passes + 1, comparisons + cmp;
    }
    SortComparisonsAre(passes, n);
    PassesBound(o, start);
    NaturalSortIsInsertionSort(o, start);
    InsertionSortCorrect(o, start);
    StableIsPermutation(o, start, list.Elems());
    SortedMeans(o, list.Elems());
    PassBoundIs(Runs(o, start));
  }

  /** is_sorted, on positions [i, n): compares neighbours only. */
  method IsSorted<V(!new)>(a: Elem, b: Elem, o: Order<Elem, V>, ghost list: List, ghost i: nat, ghost n: nat)
    returns (r: bool)
    requires list.Valid() && o.StrictWeak()
    requires 1 <= i <= n < |list.chain| && list.chain[i] == a && list.chain[n] == b
    ensures r <==> Sorted(o, list.chain[i..n])
  {
    ghost var c := list.chain;
    list.Different(i, n);
    if a == b {
      return true;
    }
    var e := a;
    ghost var k := i;
    while true
      invariant i <= k < n && e == c[k]
      invariant Sorted(o, c[i..k + 1])
      decreases n - k
    {
      list.At(k);
      list.At(k + 1);
      e, k := e.next, k + 1;
      if e == b {
        list.Different(k, n);
        return true;
      }
      if o.Less(e, e.prev) {
        assert c[i..n][k - i] == e && c[i..n][k - 1 - i] == e.prev;
        return false;
      }
      SortedSnoc(o, c[i..k], e);
      assert c[i..k + 1] == c[i..k] + [e];
    }
  }

  lemma SortedSnoc<V(!new)>(o: Order<Elem, V>, s: seq<Elem>, e: Elem)
    requires o.StrictWeak() && Sorted(o, s)
    requires s != [] && !o.Less(e, s[|s| - 1])
    ensures Sorted(o, s + [e])
  {
    forall i | 0 <= i < |s| ensures !o.Less(e, s[i]) {
      NotBelowTransitive(o, e, s[|s| - 1], s[i]);
    }
  }

  /** The search loop of list_insert_ordered: the first element that elem is
      below, or the tail. */
  method FindAbove<V(!new)>(list: List, elem: Elem, o: Order<Elem, V>) returns (e: Elem, ghost k: nat)
    requires list.Valid()
    ensures 1 <= k + 1 < |list.chain| && e == list.chain[k + 1]
    ensures Insert(o, elem, list.Elems()) == list.Elems()[..k] + [elem] + list.Elems()[k..]
  {
    hide Linked, List.Valid, Insert;
    list.At(0);
    list.At(1);
    ghost var c, s := list.chain, list.Elems();
    e, k := list.head.next, 0;
    while e != list.tail && !o.Less(elem, e)
      invariant 0 <= k <= |s| && e == c[k + 1]
      invariant e == list.tail <==> k == |s|
      invariant Insert(o, elem, s) == s[..k] + Insert(o, elem, s[k..])
      decreases |s| - k
    {
      list.At(k + 1);
      list.At(k + 2);
      InsertPasses(o, elem, s, k);
      e, k := e.next, k + 1;
    }
    InsertStops(o, elem, s, k);
  }

  lemma InsertPasses<V(!new)>(o: Order<Elem, V>, x: Elem, s: seq<Elem>, k: nat)
    requires k < |s| && !o.Less(x, s[k])
    ensures s[..k] + Insert(o, x, s[k..]) == s[..k + 1] + Insert(o, x, s[k + 1..])
  {
    assert s[k..][1..] == s[k + 1..];
  }

  lemma InsertStops<V(!new)>(o: Order<Elem, V>, x: Elem, s: seq<Elem>, k: nat)
    requires k < |s| ==> o.Less(x, s[k])
    requires k <= |s|
    ensures s[..k] + Insert(o, x, s[k..]) == s[..k] + [x] + s[k..]
  {}

  /** list_insert_ordered. */
  method InsertOrdered<V(!new)>(list: List, elem: Elem, o: Order<Elem, V>)
    requires list.Valid() && elem !in list.nodes
    modifies list, list.nodes, elem
    ensures list.Valid() && list.nodes == old(list.nodes) + {elem}
    ensures list.Elems() == Insert(o, elem, old(list.Elems()))
  {
    hide Linked, Insert, List.Valid;
    var e, k := FindAbove(list, elem, o);
    list.Outside(elem);
    ghost var c, s := list.chain, list.Elems();
    list.Insert(e, elem, k + 1);
    InsertedAt(c, k, elem);
  }

  lemma InsertedAt<E>(c: seq<E>, k: nat, e: E)
    requires k + 1 < |c|
    ensures var d, s := c[..k + 1] + [e] + c[k + 1..], c[1..|c| - 1];
      d[1..|d| - 1] == s[..k] + [e] + s[k..]
  {}

  // ----- Reversal -----

  ghost function Reversed<E>(s: seq<E>): (r: seq<E>)
    ensures |r| == |s| && forall k :: 0 <= k < |s| ==> r[k] == s[|s| - 1 - k]
  {
    seq(|s|, k requires 0 <= k < |s| => s[|s| - 1 - k])
  }

  /** The loop of list_reverse: both links of every interior node change places. */
  method SwapLinks(head: Elem, tail: Elem, ghost c: seq<Elem>)
    requires Linked(c) && |c| > 2 && head == c[0] && tail == c[|c| - 1]
    modifies c
    ensures forall i {:trigger c[i].next} :: 1 <= i < |c| - 1 ==> c[i].next == c[i - 1]
    ensures forall i {:trigger c[i].prev} :: 1 <= i < |c| - 1 ==> c[i].prev == c[i + 1]
    ensures head.prev == null && head.next == c[1] && tail.prev == c[|c| - 2] && tail.next == null
  {
    ghost var n, k := |c| - 1, 1;
    var e := head.next;
    while e != tail
      invariant 1 <= k <= n && e == c[k]
      invariant forall i {:trigger c[i].next} :: 1 <= i < k ==> c[i].next == c[i - 1]
      invariant forall i {:trigger c[i].prev} :: 1 <= i < k ==> c[i].prev == c[i + 1]
      invariant forall i {:trigger c[i].next} :: k <= i <= n || i == 0 ==> c[i].next == old(c[i].next)
      invariant forall i {:trigger c[i].prev} :: k <= i <= n || i == 0 ==> c[i].prev == old(c[i].prev)
      decreases n - k
    {
      assert old(c[k].next) == c[k + 1] && old(c[k].prev) == c[k - 1];
      e.prev, e.next := e.next, e.prev;
      e := e.prev;
      k := k + 1;
    }
    assert old(c[0].next) == c[1] && old(c[n].prev) == c[n - 1];
  }

  /** The two swaps that repair the sentinels afterwards. */
  method SwapEnds(head: Elem, tail: Elem, ghost c: seq<Elem>)
    requires |c| > 2 && head == c[0] && tail == c[|c| - 1] && forall j, k :: 0 <= j < k < |c| ==> c[j] != c[k]
    requires forall i {:trigger c[i].next} :: 1 <= i < |c| - 1 ==> c[i].next == c[i - 1]
    requires forall i {:trigger c[i].prev} :: 1 <= i < |c| - 1 ==> c[i].prev == c[i + 1]
    requires head.prev == null && head.next == c[1] && tail.prev == c[|c| - 2] && tail.next == null
    modifies c
    ensures Linked([head] + Reversed(c[1..|c| - 1]) + [tail])
    ensures var r := [head] + Reversed(c[1..|c| - 1]) + [tail];
      |r| == |c| && (forall e :: e in r ==> e in c) && (forall e :: e in c ==> e in r)
  {
    hide Linked;
    head.next, tail.prev := tail.prev, head.next;
    var first, last := head.next, tail.prev;
    var t := first.prev;
    first.prev := last.next;
    last.next := t;
    ReversedLinked(c, [head] + Reversed(c[1..|c| - 1]) + [tail]);
  }

  /** list_reverse: swaps both links of every interior node, then repairs the
      sentinels. */
  method Reverse(list: List)
    requires list.Valid()
    modifies list, list.nodes
    ensures list.Valid() && list.nodes == old(list.nodes)
    ensures list.Elems() == Reversed(old(list.Elems()))
  {
    hide Linked;
    list.At(0);
    list.At(1);
    list.ChainDistinct();
    ghost var c := list.chain;
    if list.head.next != list.tail {
      SwapLinks(list.head, list.tail, c);
      SwapEnds(list.head, list.tail, c);
      list.chain := [list.head] + Reversed(c[1..|c| - 1]) + [list.tail];
    }
  }

  lemma ReversedLinked(c: seq<Elem>, r: seq<Elem>)
    requires |c| > 2 && forall j, k :: 0 <= j < k < |c| ==> c[j] != c[k]
    requires r == [c[0]] + Reversed(c[1..|c| - 1]) + [c[|c| - 1]]
    requires forall i {:trigger c[i].next} :: 2 <= i < |c| - 1 ==> c[i].next == c[i - 1]
    requires forall i {:trigger c[i].prev} :: 1 <= i < |c| - 2 ==> c[i].prev == c[i + 1]
    requires c[0].prev == null && c[0].next == c[|c| - 2] && c[|c| - 2].prev == c[0]
    requires c[|c| - 1].next == null && c[|c| - 1].prev == c[1] && c[1].next == c[|c| - 1]
    ensures Linked(r) && |r| == |c|
    ensures (forall e :: e in r ==> e in c) && (forall e :: e in c ==> e in r)
  {
    var n := |c| - 1;
    assert forall k :: 0 < k < n ==> r[k] == c[n - k];
    assert forall k :: 0 < k < n ==> c[k] == r[n - k];
    assert r[0] == c[0] && r[n] == c[n];
  }

  // ----- Removal of duplicates -----

  /** Takes the element after elem out and appends it to the list of
      duplicates, if any. */
  method Discard(list: List, duplicates: List?, elem: Elem, next: Elem,
                 ghost q: nat, ghost kept: seq<Elem>, ghost rest: seq<Elem>)
    requires list.Valid()
    requires duplicates != null ==> duplicates != list && duplicates.Valid() && duplicates.nodes !! list.nodes
    requires 1 <= q && q + 2 < |list.chain| && list.chain[q] == elem && list.chain[q + 1] == next
    requires |kept| == q - 1 && |rest| >= 2 && list.Elems() == kept + rest
    modifies list, list.nodes
    modifies if duplicates == null then {} else {duplicates} + duplicates.nodes
    ensures list.Valid() && list.nodes == old(list.nodes) - {next} && next in old(list.nodes)
    ensures q + 1 < |list.chain| && list.chain[q] == elem
    ensures list.Elems() == kept + ([elem] + rest[2..])
    ensures duplicates != null ==>
      && duplicates.Valid() && duplicates.nodes !! list.nodes
      && duplicates.nodes == old(duplicates.nodes) + {next} && |duplicates.chain| >= 2
      && duplicates.Elems() == old(duplicates.Elems()) + [next]
  {
    hide Linked;
    list.At(q + 1);
    ghost var c := list.chain;
    assert rest[0] == list.Elems()[|kept|] == elem && rest[1] == list.Elems()[|kept| + 1] == next;
    RemovedAt(c, kept, rest);
    var r := list.Remove(next, q + 1);
    if duplicates != null {
      duplicates.PushBack(next);
    }
  }

  /** What the list for duplicates, if there is one, holds on the way. */
  ghost predicate Collected(duplicates: List?, list: List, before: seq<Elem>, dropped: seq<Elem>)
    reads list, duplicates, if duplicates == null then [] else duplicates.chain
  {
    duplicates != null ==>
      && duplicates != list && duplicates.Valid() && duplicates.nodes !! list.nodes && |duplicates.chain| >= 2
      && duplicates.Elems() == before + dropped
  }

  /** The removing branch of list_unique. */
  method DropNext(list: List, duplicates: List?, elem: Elem, next: Elem, ghost q: nat, ghost kept: seq<Elem>,
                  ghost rest: seq<Elem>, ghost before: seq<Elem>, ghost dropped: seq<Elem>)
    requires list.Valid() && Collected(duplicates, list, before, dropped)
    requires 1 <= q && q + 2 < |list.chain| && list.chain[q] == elem && list.chain[q + 1] == next
    requires |kept| == q - 1 && |rest| >= 2 && list.Elems() == kept + rest
    modifies list, list.nodes
    modifies if duplicates == null then {} else {duplicates} + duplicates.nodes
    ensures list.Valid() && list.nodes <= old(list.nodes)
    ensures duplicates != null ==> duplicates.nodes <= old(duplicates.nodes) + old(list.nodes)
    ensures q + 1 < |list.chain| && list.chain[q] == elem
    ensures list.Elems() == kept + ([elem] + rest[2..])
    ensures Collected(duplicates, list, before, dropped + [next])
  {
    hide Linked, List.Valid;
    Discard(list, duplicates, elem, next, q, kept, rest);
    assert before + dropped + [next] == before + (dropped + [next]);
  }

  lemma CollectedStart(duplicates: List?, list: List)
    requires duplicates != null ==> duplicates != list && duplicates.Valid() && duplicates.nodes !! list.nodes
    ensures duplicates != null ==> |duplicates.chain| >= 2
    ensures Collected(duplicates, list, if duplicates == null then [] else duplicates.Elems(), [])
  {
    assert duplicates != null ==> duplicates.Elems() + [] == duplicates.Elems();
  }

  lemma CollectedEnd(duplicates: List?, list: List, before: seq<Elem>, dropped: seq<Elem>)
    requires Collected(duplicates, list, before, dropped)
    ensures duplicates != null ==>
      && duplicates != list && duplicates.Valid() && duplicates.nodes !! list.nodes && |duplicates.chain| >= 2
      && duplicates.Elems() == before + dropped
  {}

  /** Where the loop of list_unique stands in the list: kept is behind it, rest
      begins at elem. */
  ghost predicate UniqueAt(list: List, elem: Elem, next: Elem, q: nat, kept: seq<Elem>, rest: seq<Elem>)
    reads list
  {
    && 1 <= q < |list.chain| - 1 && list.chain[q] == elem && list.chain[q + 1] == next
    && |kept| == q - 1 && rest != [] && list.Elems() == kept + rest
    && (|rest| == 1 <==> q + 2 == |list.chain|)
  }

  lemma UniqueKeeps(list: List, elem: Elem, next: Elem, q: nat, kept: seq<Elem>, rest: seq<Elem>)
    requires list.Valid() && UniqueAt(list, elem, next, q, kept, rest) && |rest| >= 2
    ensures rest[0] == elem && rest[1] == next && q + 2 < |list.chain|
    ensures UniqueAt(list, next, list.chain[q + 2], q + 1, kept + [elem], rest[1..])
  {
    hide Linked;
    assert rest[0] == list.Elems()[|kept|] && rest[1] == list.Elems()[|kept| + 1];
    assert kept + rest == (kept + [elem]) + rest[1..];
  }

  /** One turn of the loop of list_unique. */
  method UniqueTurn<V(!new)>(list: List, duplicates: List?, elem: Elem, next: Elem, o: Order<Elem, V>,
                             ghost s: seq<Elem>, ghost q: nat, ghost kept: seq<Elem>, ghost rest: seq<Elem>,
                             ghost before: seq<Elem>, ghost dropped: seq<Elem>)
    returns (elem': Elem, next': Elem, ghost q': nat, ghost kept': seq<Elem>, ghost rest': seq<Elem>,
             ghost dropped': seq<Elem>)
    requires list.Valid() && Collected(duplicates, list, before, dropped)
    requires UniqueAt(list, elem, next, q, kept, rest) && |rest| >= 2 && Midway(o, s, kept, dropped, rest)
    modifies list, list.nodes
    modifies if duplicates == null then {} else {duplicates} + duplicates.nodes
    ensures list.Valid() && list.nodes <= old(list.nodes)
    ensures duplicates != null ==> duplicates.nodes <= old(duplicates.nodes) + old(list.nodes)
    ensures Collected(duplicates, list, before, dropped')
    ensures UniqueAt(list, elem', next', q', kept', rest') && Midway(o, s, kept', dropped', rest')
    ensures |rest'| < |rest| && (|rest'| == 1 <==> next' == list.tail)
  {
    hide Linked, List.Valid, Midway, Collected, Kept, Dropped;
    UniqueKeeps(list, elem, next, q, kept, rest);
    elem', q', kept', rest', dropped' := elem, q, kept, rest, dropped;
    if !o.Less(elem, next) && !o.Less(next, elem) {
      MidwayDrop(o, s, kept, dropped, rest);
      DropNext(list, duplicates, elem, next, q, kept, rest, before, dropped);
      dropped', rest' := dropped + [next], [elem] + rest[2..];
    } else {
      MidwayKeep(o, s, kept, dropped, rest);
      elem', q', kept', rest' := next, q + 1, kept + [elem], rest[1..];
    }
    list.At(q');
    list.At(q' + 1);
    next' := elem'.next;
  }

  /** list_unique, with or without a list to collect what is taken out. */
  method ListUnique<V(!new)>(list: List, duplicates: List?, o: Order<Elem, V>)
    requires list.Valid()
    requires duplicates != null ==> duplicates != list && duplicates.Valid() && duplicates.nodes !! list.nodes
    modifies list, list.nodes
    modifies if duplicates == null then {} else {duplicates} + duplicates.nodes
    ensures list.Valid()
    ensures list.Elems() == Kept(o, old(list.Elems()))
    ensures duplicates != null ==>
      && duplicates.Valid() && duplicates.nodes !! list.nodes
      && duplicates.Elems() == old(duplicates.Elems()) + Dropped(o, old(list.Elems()))
  {
    CollectedStart(duplicates, list);
    ghost var before := if duplicates == null then [] else duplicates.Elems();
    hide Linked, List.Valid, Kept, Dropped, Midway, Collected;
    list.At(0);
    list.At(1);
    ghost var s := list.Elems();
    MidwayStart(o, s);
    if list.head.next == list.tail {
      MidwayEnd(o, s, [], [], s);
      CollectedEnd(duplicates, list, before, []);
      return;
    }
    list.At(2);
    var elem: Elem, next: Elem := list.head.next, list.head.next.next;
    ghost var q, kept: seq<Elem>, dropped: seq<Elem>, rest := 1, [], [], s;
    while next != list.tail
      invariant list.Valid() && list.nodes <= old(list.nodes)
      invariant duplicates != null ==> duplicates.nodes <= old(duplicates.nodes) + old(list.nodes)
      invariant UniqueAt(list, elem, next, q, kept, rest) && Midway(o, s, kept, dropped, rest)
      invariant |rest| == 1 <==> next == list.tail
      invariant Collected(duplicates, list, before, dropped)
      decreases |rest|
    {
      hide UniqueAt;
      UniqueNotEmpty(list, elem, next, q, kept, rest);
      elem, next, q, kept, rest, dropped :=
        UniqueTurn(list, duplicates, elem, next, o, s, q, kept, rest, before, dropped);
    }
    MidwayEnd(o, s, kept, dropped, rest);
    CollectedEnd(duplicates, list, before, dropped);
  }

  lemma UniqueNotEmpty(list: List, elem: Elem, next: Elem, q: nat, kept: seq<Elem>, rest: seq<Elem>)
    requires UniqueAt(list, elem, next, q, kept, rest)
    ensures rest != []
  {}

  lemma RemovedAt<E>(c: seq<E>, kept: seq<E>, rest: seq<E>)
    requires |c| >= 2 && |rest| >= 2 && c[1..|c| - 1] == kept + rest
    ensures var q := |kept| + 1; var d := c[..q + 1] + c[q + 2..];
      d[1..|d| - 1] == kept + ([rest[0]] + rest[2..])
  {
    var q := |kept| + 1;
    var d := c[..q + 1] + c[q + 2..];
    assert c == [c[0]] + (kept + rest) + [c[|c| - 1]];
    assert c[..q + 1] == [c[0]] + kept + [rest[0]];
    assert c[q + 2..] == rest[2..] + [c[|c| - 1]];
  }
}
