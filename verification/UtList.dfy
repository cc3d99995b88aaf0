/** The merge sorts of utlist.h on singly linked, doubly linked and circular
    lists: links are rewritten while p and q still walk the old list. */
module UtList {
  import opened Orders
  import opened NaturalRuns
  import opened Blocks

  /** A node of a user's list: the two link fields and the user's own data. The
      nodes of a singly linked list leave prev alone. */
  class Node {
    const data: int
    var prev: Node?
    var next: Node?

    constructor (data: int)
      ensures this.data == data
    {
      this.data := data;
      prev, next := null, null;
    }
  }

  /** The lists of the LL, DL and CDL macros. */
  datatype Kind = Single | Double | Circular

  /** Each node points on to the following one; the last next is free. */
  ghost predicate Nexts(s: seq<Node>)
    reads s
  {
    forall i {:trigger s[i].next} :: 0 <= i < |s| - 1 ==> s[i].next == s[i + 1]
  }

  /** Each node points back to the one before; the first prev is free. */
  ghost predicate Prevs(s: seq<Node>)
    reads s
  {
    forall i {:trigger s[i].prev} :: 1 <= i < |s| ==> s[i].prev == s[i - 1]
  }

  /** The list as next tells it: from the head to the last node, whose next is
      null or, in a circular list, the head. */
  ghost predicate IsForward(head: Node?, s: seq<Node>, kind: Kind)
    reads s
  {
    if s == [] then head == null
    else
      && Distinct(s) && Nexts(s)
      && head == s[0]
      && s[|s| - 1].next == if kind.Circular? then s[0] else null
  }

  /** The list proper: unless it is singly linked, prev leads back all the way,
      and from the head to the last node. */
  ghost predicate IsList(head: Node?, s: seq<Node>, kind: Kind)
    reads s
  {
    && IsForward(head, s, kind)
    && (!kind.Single? && s != [] ==> Prevs(s) && s[0].prev == s[|s| - 1])
  }

  /** The nodes whose prev a sort may write. */
  ghost function Backs(kind: Kind, nodes: set<Node>): set<Node> {
    if kind.Single? then {} else nodes
  }

  /** The cmp macro argument, reading the payload of a node through key. */
  datatype Comparison<!V(!new)> = Comparison(key: Node -> V, cmp: (V, V) -> int) {
    ghost predicate TotalPreorder() {
      && (forall a, b :: cmp(a, b) <= 0 || cmp(b, a) <= 0)
      && (forall a, b, c :: cmp(a, b) <= 0 && cmp(b, c) <= 0 ==> cmp(a, c) <= 0)
    }

    /** b is below a just when cmp(a, b) is positive. */
    function AsOrder(): Order<Node, V> {
      Order(key, (b: V, a: V) => cmp(a, b) > 0)
    }

    lemma OrderStrictWeak()
      requires TotalPreorder()
      ensures AsOrder().StrictWeak()
    {}

    /** Sorted means ascending by cmp. */
    lemma SortedMeans(t: seq<Node>)
      ensures Sorted(AsOrder(), t) <==> forall i, j :: 0 <= i < j < |t| ==> cmp(key(t[i]), key(t[j])) <= 0
    {
      forall i, j | 0 <= i < j < |t| ensures AsOrder().Less(t[j], t[i]) <==> cmp(key(t[i]), key(t[j])) > 0 {}
    }
  }

  // ----- The state of a pass -----

  /** What the pass has linked so far: out, from list to tail. */
  ghost predicate Built(list: Node?, tail: Node?, out: seq<Node>, kind: Kind)
    reads out
  {
    && Nexts(out) && (!kind.Single? ==> Prevs(out))
    && list == (if out == [] then null else out[0])
    && tail == (if out == [] then null else out[|out| - 1])
  }

  /** What is left of the old list: rest, from q on; the old list ends at a node
      whose next is end. */
  ghost predicate Ahead(q: Node?, rest: seq<Node>, end: Node?)
    reads rest
  {
    && Nexts(rest)
    && q == (if rest == [] then null else rest[0])
    && (rest != [] ==> rest[|rest| - 1].next == end)
    && (forall i :: 1 <= i < |rest| ==> rest[i] != end)
  }

  twostate lemma KeptNexts(s: seq<Node>)
    requires old(Nexts(s))
    requires forall k {:trigger s[k].next} :: 0 <= k < |s| - 1 ==> s[k].next == old(s[k].next)
    ensures Nexts(s)
  {
    forall k {:trigger s[k].next} | 0 <= k < |s| - 1 ensures s[k].next == s[k + 1] {
      assert old(s[k].next) == s[k + 1];
    }
  }

  /** The first block as p walks it: once it is used up, p is not looked at. */
  ghost predicate WalksBlock(p: Node?, ps: seq<Node>, end: Node?)
    reads ps
  {
    && Nexts(ps)
    && (ps != [] ==> p == ps[0])
    && (forall i :: 1 <= i < |ps| ==> ps[i] != end)
  }

  /** What linking node e next needs to know. */
  ghost predicate MayLink(e: Node, done: seq<Node>, ps: seq<Node>, qs: seq<Node>, nodes: set<Node>) {
    && Distinct(done) && e !in done && e in nodes
    && (forall x :: x in done ==> x in nodes && x !in ps && x !in qs)
  }

  /** The end of the inner loop body: node e becomes the new tail. What p and q
      have yet to walk is not disturbed. */
  method Append(list: Node?, tail: Node?, e: Node, kind: Kind, ghost out: seq<Node>,
                ghost p: Node?, ghost ps: seq<Node>, ghost q: Node?, ghost qs: seq<Node>, ghost end: Node?,
                ghost nodes: set<Node>)
    returns (list': Node, tail': Node)
    requires Built(list, tail, out, kind) && MayLink(e, out, ps, qs, nodes)
    requires WalksBlock(p, ps, end) && Ahead(q, qs, end)
    modifies Backs(kind, nodes)`prev, nodes`next
    ensures Built(list', tail', out + [e], kind)
    ensures WalksBlock(p, ps, end) && Ahead(q, qs, end)
  {
    assert tail != null ==> tail in out;
    assert forall k :: 0 <= k < |ps| ==> ps[k] != tail;
    assert forall k :: 0 <= k < |qs| ==> qs[k] != tail;
    assert tail != null ==> tail in nodes;
    if tail != null {
      tail.next := e;
      list' := list;
    } else {
      list' := e;
    }
    if !kind.Single? {
      e.prev := tail;
    }
    tail' := e;
    KeptNexts(ps);
    KeptNexts(qs);
  }

  /** The step of p or q along the old list. */
  method Advance(q: Node, end: Node?, ghost rest: seq<Node>) returns (r: Node?)
    requires rest != [] && Ahead(q, rest, end)
    ensures Ahead(r, rest[1..], end)
  {
    r := if q.next == end then null else q.next;
    assert |rest| > 1 ==> rest[0].next == rest[1] != end;
    assert forall i :: 0 <= i < |rest| - 1 ==> rest[1..][i] == rest[i + 1];
  }

  /** The counting loop that finds the second block. */
  method Split(p: Node, insize: nat, end: Node?, ghost rest: seq<Node>) returns (q: Node?, psize: nat)
    requires insize >= 1 && rest != [] && Ahead(p, rest, end)
    ensures psize == Min(insize, |rest|) && Ahead(q, rest[psize..], end)
  {
    q, psize := p, 0;
    assert rest[0..] == rest;
    while psize < insize
      invariant psize <= insize && psize < |rest|
      invariant q != null && Ahead(q, rest[psize..], end)
    {
      psize := psize + 1;
      q := Advance(q, end, rest[psize - 1..]);
      assert rest[psize - 1..][1..] == rest[psize..];
      if q == null {
        return;
      }
    }
  }

  // ----- Merging two blocks while their links are being overwritten -----

  /** No node occurs twice in what is built, the first block and the rest. */
  ghost predicate Apart(out: seq<Node>, p: seq<Node>, q: seq<Node>) {
    Distinct(out + p + q)
  }

  lemma ApartTakeP(out: seq<Node>, p: seq<Node>, q: seq<Node>)
    requires p != [] && Apart(out, p, q)
    ensures Apart(out + [p[0]], p[1..], q) && Distinct(out)
    ensures p[0] !in out && p[0] !in p[1..] && p[0] !in q
    ensures forall x :: x in out ==> x !in p && x !in q
  {
    var s := out + p + q;
    assert out + [p[0]] + p[1..] + q == s;
    assert s[|out|] == p[0];
    PartsApart(out, p, q);
  }

  lemma ApartTakeQ(out: seq<Node>, p: seq<Node>, q: seq<Node>)
    requires q != [] && Apart(out, p, q)
    ensures Apart(out + [q[0]], p, q[1..]) && Distinct(out)
    ensures q[0] !in out && q[0] !in p && q[0] !in q[1..]
    ensures forall x :: x in out ==> x !in p && x !in q
  {
    PartsApart(out, p, q);
    var s, m, n := out + p + q, |out|, |out| + |p|;
    var t := out + [q[0]] + p + q[1..];
    forall i, j | 0 <= i < j < |t| ensures t[i] != t[j] {
      assert t[i] == s[if i < m then i else if i == m then n else if i <= n then i - 1 else i];
      assert t[j] == s[if j < m then j else if j == m then n else if j <= n then j - 1 else j];
    }
  }

  lemma PartsApart(out: seq<Node>, p: seq<Node>, q: seq<Node>)
    requires Apart(out, p, q)
    ensures Distinct(out) && Distinct(p) && Distinct(q)
    ensures forall x :: x in out ==> x !in p && x !in q
    ensures forall x :: x in p ==> x !in q
  {
    var s := out + p + q;
    assert forall i :: 0 <= i < |out| ==> s[i] == out[i];
    assert forall i :: 0 <= i < |p| ==> s[|out| + i] == p[i];
    assert forall i :: 0 <= i < |q| ==> s[|out| + |p| + i] == q[i];
  }

  /** The first n nodes of s, or all of them. */
  ghost function Block(s: seq<Node>, n: nat): seq<Node> {
    s[..Min(n, |s|)]
  }

  /** The state of a merge: done is linked, ps and the first n of qs are to be
      merged behind it, and left is what will remain of qs. */
  ghost predicate Merging<V(!new)>(o: Order<Node, V>, done: seq<Node>, ps: seq<Node>, qs: seq<Node>, n: nat,
                                   target: seq<Node>, left: seq<Node>, nodes: set<Node>) {
    && Apart(done, ps, qs) && (forall x :: x in done + ps + qs ==> x in nodes)
    && done + Merge(o, ps, Block(qs, n)) == target
    && qs[Min(n, |qs|)..] == left
  }

  lemma MergingStart<V(!new)>(o: Order<Node, V>, out: seq<Node>, ps: seq<Node>, qs: seq<Node>, n: nat, nodes: set<Node>)
    requires Apart(out, ps, qs) && forall x :: x in out + ps + qs ==> x in nodes
    ensures Merging(o, out, ps, qs, n, out + Merge(o, ps, Block(qs, n)), qs[Min(n, |qs|)..], nodes)
  {}

  lemma Heads(p: Node?, ps: seq<Node>, q: Node?, qs: seq<Node>, end: Node?)
    requires WalksBlock(p, ps, end) && Ahead(q, qs, end)
    ensures (ps != [] ==> p == ps[0]) && q == (if qs == [] then null else qs[0])
  {}

  lemma TakeFromP<V(!new)>(o: Order<Node, V>, done: seq<Node>, ps: seq<Node>, qs: seq<Node>, n: nat,
                           target: seq<Node>, left: seq<Node>, nodes: set<Node>)
    requires Merging(o, done, ps, qs, n, target, left, nodes)
    requires ps != [] && (n == 0 || qs == [] || !o.Less(qs[0], ps[0]))
    ensures Merging(o, done + [ps[0]], ps[1..], qs, n, target, left, nodes)
    ensures MayLink(ps[0], done, ps[1..], qs, nodes)
  {
    ApartTakeP(done, ps, qs);
    assert ps == [ps[0]] + ps[1..];
    var r := Merge(o, ps[1..], Block(qs, n));
    assert Merge(o, ps, Block(qs, n)) == [ps[0]] + r;
    assert done + ([ps[0]] + r) == (done + [ps[0]]) + r;
  }

  lemma TakeFromQ<V(!new)>(o: Order<Node, V>, done: seq<Node>, ps: seq<Node>, qs: seq<Node>, n: nat,
                           target: seq<Node>, left: seq<Node>, nodes: set<Node>)
    requires Merging(o, done, ps, qs, n, target, left, nodes)
    requires qs != [] && n > 0 && (ps == [] || o.Less(qs[0], ps[0]))
    ensures Merging(o, done + [qs[0]], ps, qs[1..], n - 1, target, left, nodes)
    ensures MayLink(qs[0], done, ps, qs[1..], nodes)
  {
    ApartTakeQ(done, ps, qs);
    assert Block(qs, n)[1..] == Block(qs[1..], n - 1);
    assert Block(qs, n) == [qs[0]] + Block(qs[1..], n - 1);
    var r := Merge(o, ps, Block(qs[1..], n - 1));
    assert Merge(o, ps, Block(qs, n)) == [qs[0]] + r;
    assert done + ([qs[0]] + r) == (done + [qs[0]]) + r;
    assert qs[1..][Min(n - 1, |qs| - 1)..] == qs[Min(n, |qs|)..];
  }

  lemma MergingDone<V(!new)>(o: Order<Node, V>, done: seq<Node>, ps: seq<Node>, qs: seq<Node>, n: nat,
                             target: seq<Node>, left: seq<Node>, nodes: set<Node>)
    requires Merging(o, done, ps, qs, n, target, left, nodes)
    requires ps == [] && (n == 0 || qs == [])
    ensures done == target && qs == left
  {}

  /** Of total nodes left remain, and every comparison so far has linked one; no
      comparison is made for the last. */
  predicate Spent(comparisons: nat, left: nat, total: nat) {
    comparisons + left <= total && (left == 0 < total ==> comparisons < total)
  }

  lemma SpentStart(total: nat)
    ensures Spent(0, total, total)
  {}

  lemma SpentStep(comparisons: nat, n: nat, left: nat, total: nat)
    requires Spent(comparisons, left, total) && n <= 1 && n < left
    ensures Spent(comparisons + n, left - 1, total)
  {}

  lemma SpentEnd(comparisons: nat, total: nat)
    requires Spent(comparisons, 0, total)
    ensures total > 0 ==> comparisons < total
  {}

  method AdvanceInBlock(p: Node, end: Node?, ghost ps: seq<Node>) returns (r: Node?)
    requires ps != [] && WalksBlock(p, ps, end)
    ensures WalksBlock(r, ps[1..], end)
  {
    r := if p.next == end then null else p.next;
    assert |ps| > 1 ==> ps[0].next == ps[1] != end;
    assert forall i :: 0 <= i < |ps| - 1 ==> ps[1..][i] == ps[i + 1];
  }

  /** The first half of the inner loop body: chooses the node to link next and
      steps past it. */
  method TakeNext<V(!new)>(p: Node?, q: Node?, psize: nat, qsize: nat, c: Comparison<V>, end: Node?,
                           ghost done: seq<Node>, ghost ps: seq<Node>, ghost qs: seq<Node>,
                           ghost target: seq<Node>, ghost left: seq<Node>, ghost nodes: set<Node>,
                           ghost comparisons: nat, ghost total: nat)
    returns (e: Node, p': Node?, q': Node?, psize': nat, qsize': nat,
             ghost ps': seq<Node>, ghost qs': seq<Node>, ghost cmps: nat)
    requires WalksBlock(p, ps, end) && psize == |ps| && Ahead(q, qs, end)
    requires (ps != [] ==> p == ps[0]) && q == (if qs == [] then null else qs[0])
    requires psize > 0 || (qsize > 0 && q != null)
    requires Merging(c.AsOrder(), done, ps, qs, qsize, target, left, nodes)
    requires Spent(comparisons, |ps| + Min(qsize, |qs|), total)
    ensures Merging(c.AsOrder(), done + [e], ps', qs', qsize', target, left, nodes)
    ensures MayLink(e, done, ps', qs', nodes)
    ensures WalksBlock(p', ps', end) && psize' == |ps'| && Ahead(q', qs', end)
    ensures (ps' != [] ==> p' == ps'[0]) && q' == (if qs' == [] then null else qs'[0])
    ensures Spent(comparisons + cmps, |ps'| + Min(qsize', |qs'|), total)
    ensures |ps'| + |qs'| < |ps| + |qs|
  {
    hide Merging, WalksBlock, Ahead, MayLink, Spent;
    p', q', psize', qsize', ps', qs' := p, q, psize, qsize, ps, qs;
    cmps := if psize > 0 && qsize > 0 && q != null then 1 else 0;
    SpentStep(comparisons, cmps, |ps| + Min(qsize, |qs|), total);
    if psize > 0 && (qsize == 0 || q == null || c.cmp(c.key(p), c.key(q)) <= 0) {
      e := p;
      TakeFromP(c.AsOrder(), done, ps, qs, qsize, target, left, nodes);
      p' := AdvanceInBlock(e, end, ps);
      ps', psize' := ps[1..], psize - 1;
    } else {
      e := q;
      TakeFromQ(c.AsOrder(), done, ps, qs, qsize, target, left, nodes);
      q' := Advance(e, end, qs);
      qs', qsize' := qs[1..], qsize - 1;
    }
    Heads(p', ps', q', qs', end);
  }

  /** The inner merge loop: appends to out the merge of the block p with the
      block of qsize nodes from q on, and steps q past that block. */
  method MergeBlocks<V(!new)>(list: Node?, tail: Node?, p: Node?, q: Node?, psize: nat, qsize: nat,
                              c: Comparison<V>, kind: Kind, end: Node?,
                              ghost out: seq<Node>, ghost ps: seq<Node>, ghost qs: seq<Node>, ghost nodes: set<Node>)
    returns (list': Node?, tail': Node?, q': Node?, ghost comparisons: nat)
    requires Built(list, tail, out, kind) && WalksBlock(p, ps, end) && psize == |ps| && Ahead(q, qs, end)
    requires Apart(out, ps, qs) && forall x :: x in out + ps + qs ==> x in nodes
    modifies Backs(kind, nodes)`prev, nodes`next
    ensures Built(list', tail', out + Merge(c.AsOrder(), ps, Block(qs, qsize)), kind)
    ensures Ahead(q', qs[Min(qsize, |qs|)..], end)
    ensures ps != [] ==> comparisons < |ps| + Min(qsize, |qs|)
  {
    hide Merging, Apart, WalksBlock, Ahead, Built, Merge, Block, MayLink, Backs, Spent;
    ghost var o, target := c.AsOrder(), out + Merge(c.AsOrder(), ps, Block(qs, qsize));
    ghost var left := qs[Min(qsize, |qs|)..];
    MergingStart(o, out, ps, qs, qsize, nodes);
    Heads(p, ps, q, qs, end);
    ghost var done, ps', qs' := out, ps, qs;
    list', tail', q', comparisons := list, tail, q, 0;
    var p', psize', qsize' := p, psize, qsize;
    ghost var total := |ps| + Min(qsize, |qs|);
    SpentStart(total);
    while psize' > 0 || (qsize' > 0 && q' != null)
      invariant Built(list', tail', done, kind) && WalksBlock(p', ps', end) && psize' == |ps'| && Ahead(q', qs', end)
      invariant Merging(o, done, ps', qs', qsize', target, left, nodes)
      invariant (ps' != [] ==> p' == ps'[0]) && q' == (if qs' == [] then null else qs'[0])
      invariant Spent(comparisons, |ps'| + Min(qsize', |qs'|), total)
      decreases |ps'| + |qs'|
    {
      var e: Node;
      ghost var cmps: nat;
      e, p', q', psize', qsize', ps', qs', cmps :=
        TakeNext(p', q', psize', qsize', c, end, done, ps', qs', target, left, nodes, comparisons, total);
      comparisons := comparisons + cmps;
      list', tail' := Append(list', tail', e, kind, done, p', ps', q', qs', end, nodes);
      done := done + [e];
    }
    MergingDone(o, done, ps', qs', qsize', target, left, nodes);
    SpentEnd(comparisons, total);
  }

  // ----- One pass and the whole sort -----

  /** Where a pass over s stands: out is merged in nmerges merges, rest is left. */
  ghost predicate UnderWay<V(!new)>(o: Order<Node, V>, s: seq<Node>, w: nat, out: seq<Node>, rest: seq<Node>,
                                    nmerges: nat, nodes: set<Node>)
    requires w >= 1
  {
    && Distinct(out + rest) && (forall x :: x in out + rest ==> x in nodes)
    && out + BlockPass(o, rest, w) == BlockPass(o, s, w)
    && nmerges + Merges(|rest|, w) == Merges(|s|, w)
  }

  lemma UnderWayStart<V(!new)>(o: Order<Node, V>, s: seq<Node>, w: nat, nodes: set<Node>)
    requires w >= 1 && Distinct(s) && forall x :: x in s ==> x in nodes
    ensures UnderWay(o, s, w, [], s, 0, nodes)
  {
    assert [] + s == s;
  }

  lemma UnderWayEnd<V(!new)>(o: Order<Node, V>, s: seq<Node>, w: nat, out: seq<Node>, nmerges: nat, nodes: set<Node>)
    requires w >= 1 && UnderWay(o, s, w, out, [], nmerges, nodes)
    ensures out == BlockPass(o, s, w) && Distinct(out) && nmerges == Merges(|s|, w)
  {
    assert out + [] == out;
  }

  /** The first two blocks of what is left, as MergeBlocks is to find them. */
  lemma NextBlocks<V(!new)>(o: Order<Node, V>, s: seq<Node>, w: nat, out: seq<Node>, rest: seq<Node>,
                            nmerges: nat, nodes: set<Node>)
    requires w >= 1 && rest != [] && UnderWay(o, s, w, out, rest, nmerges, nodes)
    ensures var j, k := Min(w, |rest|), Min(2 * w, |rest|);
      && Apart(out, rest[..j], rest[j..]) && (forall x :: x in out + rest[..j] + rest[j..] ==> x in nodes)
      && Block(rest[j..], w) == rest[j..k] && rest[j..][Min(w, |rest[j..]|)..] == rest[k..]
  {
    var j, k := Min(w, |rest|), Min(2 * w, |rest|);
    assert out + rest[..j] + rest[j..] == out + rest;
    assert k - j == Min(w, |rest[j..]|);
  }

  /** Merging them keeps all nodes apart. */
  lemma MergedApart<V(!new)>(o: Order<Node, V>, out: seq<Node>, rest: seq<Node>, j: nat, k: nat)
    requires j <= k <= |rest| && Distinct(out + rest)
    ensures Distinct((out + Merge(o, rest[..j], rest[j..k])) + rest[k..])
    ensures forall x :: x in (out + Merge(o, rest[..j], rest[j..k])) + rest[k..] ==> x in out + rest
  {
    var a, b, r := rest[..j], rest[j..k], rest[k..];
    var m := Merge(o, a, b);
    assert out + rest == out + (a + b + r);
    MergeMembers(o, a, b);
    assert multiset((out + m) + r) == multiset(out) + (multiset(a) + multiset(b)) + multiset(r);
    DistinctPermuted(out + rest, (out + m) + r);
    SameMembers(out + rest, (out + m) + r);
  }

  lemma UnderWayStep<V(!new)>(o: Order<Node, V>, s: seq<Node>, w: nat, out: seq<Node>, rest: seq<Node>,
                              nmerges: nat, nodes: set<Node>)
    requires w >= 1 && rest != [] && UnderWay(o, s, w, out, rest, nmerges, nodes)
    ensures var j, k := Min(w, |rest|), Min(2 * w, |rest|);
      UnderWay(o, s, w, out + Merge(o, rest[..j], rest[j..k]), rest[k..], nmerges + 1, nodes)
  {
    var j, k := Min(w, |rest|), Min(2 * w, |rest|);
    MergedApart(o, out, rest, j, k);
    hide Distinct, Merge;
    var m, r := Merge(o, rest[..j], rest[j..k]), BlockPass(o, rest[k..], w);
    assert out + (m + r) == (out + m) + r;
  }

  /** The middle loop: one pass over the old list s, which ends at a node whose
      next is end. */
  method MergePass<V(!new)>(oldList: Node, insize: nat, c: Comparison<V>, kind: Kind, end: Node?,
                            ghost s: seq<Node>, ghost nodes: set<Node>)
    returns (list: Node?, tail: Node?, nmerges: nat, ghost comparisons: nat)
    requires insize >= 1 && s != [] && Distinct(s) && Ahead(oldList, s, end)
    requires forall x :: x in s ==> x in nodes
    modifies Backs(kind, nodes)`prev, nodes`next
    ensures Built(list, tail, BlockPass(c.AsOrder(), s, insize), kind)
    ensures Distinct(BlockPass(c.AsOrder(), s, insize))
    ensures nmerges == Merges(|s|, insize) && comparisons + nmerges <= |s|
  {
    ghost var o := c.AsOrder();
    UnderWayStart(o, s, insize, nodes);
    hide Distinct, Merge, Apart, Block, BlockPass, Merges, Backs, Built, Ahead, UnderWay;
    var p: Node? := oldList;
    list, tail, nmerges, comparisons := null, null, 0, 0;
    ghost var out: seq<Node>, rest := [], s;
    NothingBuilt(kind);
    AheadHead(p, rest, end);
    while p != null
      invariant p == null <==> rest == []
      invariant Built(list, tail, out, kind) && Ahead(p, rest, end)
      invariant UnderWay(o, s, insize, out, rest, nmerges, nodes)
      invariant comparisons + nmerges + |rest| <= |s|
      decreases |rest|
    {
      ghost var j, k := Min(insize, |rest|), Min(2 * insize, |rest|);
      NextBlocks(o, s, insize, out, rest, nmerges, nodes);
      UnderWayStep(o, s, insize, out, rest, nmerges, nodes);
      nmerges := nmerges + 1;
      var q, psize := Split(p, insize, end, rest);
      BlockWalk(p, rest, j, end);
      ghost var cmps;
      list, tail, p, cmps :=
        MergeBlocks(list, tail, p, q, psize, insize, c, kind, end, out, rest[..j], rest[j..], nodes);
      comparisons := comparisons + cmps;
      out, rest := out + Merge(o, rest[..j], rest[j..k]), rest[k..];
      AheadHead(p, rest, end);
    }
    UnderWayEnd(o, s, insize, out, nmerges, nodes);
  }

  lemma NothingBuilt(kind: Kind)
    ensures Built(null, null, [], kind)
  {}

  lemma AheadHead(p: Node?, rest: seq<Node>, end: Node?)
    requires Ahead(p, rest, end)
    ensures p == null <==> rest == []
  {}

  lemma BlockWalk(p: Node?, rest: seq<Node>, j: nat, end: Node?)
    requires Ahead(p, rest, end) && 1 <= j <= |rest|
    ensures WalksBlock(p, rest[..j], end)
  {}

  /** The comparisons that so many passes may make on n nodes. */
  function SortComparisons(passes: nat, n: nat): int {
    passes * (n - 1)
  }

  lemma SortComparisonsAre(passes: nat, n: nat)
    ensures SortComparisons(passes, n) == passes * (n - 1)
  {}

  lemma NoPassYet(n: nat)
    ensures SortComparisons(0, n) == 0
  {}

  lemma OnePassMore(passes: nat, n: nat)
    ensures SortComparisons(passes + 1, n) == SortComparisons(passes, n) + n - 1
  {}

  /** The outer loop, on a list that is not empty. */
  method SortPasses<V(!new)>(list: Node, c: Comparison<V>, kind: Kind, ghost s: seq<Node>)
    returns (head: Node, ghost passes: nat, ghost comparisons: nat)
    requires IsForward(list, s, kind) && s != [] && c.AsOrder().StrictWeak()
    modifies s`next, Backs(kind, set x | x in s)`prev
    ensures IsList(head, BlockSort(c.AsOrder(), s, 1), kind)
    ensures passes == BlockPasses(|s|, 1) && comparisons <= SortComparisons(passes, |s|)
  {
    hide Distinct, Nexts, Prevs, BlockPass, BlockSort, SortComparisons, Order.StrictWeak, Merges;
    ghost var o := c.AsOrder();
    head, passes, comparisons := list, 0, 0;
    NoPassYet(|s|);
    ghost var t, nodes := s, set x | x in s;
    var insize, looping := 1, true;
    while looping
      invariant t != [] && IsForward(head, t, kind) && forall x :: x in t ==> x in nodes
      invariant passes > 0 ==> IsList(head, t, kind)
      invariant looping || passes > 0
      invariant insize >= 1 && |t| == |s| && comparisons <= SortComparisons(passes, |s|)
      invariant if looping
                then PassesLeft(o, s, t, insize, passes)
                else passes == BlockPasses(|s|, 1) && t == BlockSort(o, s, 1)
      decreases BlockPasses(|s|, 1) - passes, looping
    {
      ghost var u := BlockPass(o, t, insize);
      BlockPassMembers(o, t, insize);
      SameMembers(t, u);
      PassMade(o, s, t, insize, passes);
      var nmerges;
      ghost var cmps;
      head, nmerges, cmps := SortIteration(head, insize, c, kind, t, nodes);
      t := u;
      OnePassMore(passes, |s|);
      passes, comparisons := passes + 1, comparisons + cmps;
      if nmerges <= 1 {
        looping := false;
      }
      insize := insize * 2;
    }
  }

  /** What the outer loop leaves, said without its passes. */
  lemma SortPassesMean<V(!new)>(c: Comparison<V>, s: seq<Node>, passes: nat)
    requires c.TotalPreorder() && (s != [] ==> passes == BlockPasses(|s|, 1))
    ensures var t := InsertionSort(c.AsOrder(), s);
      && t == BlockSort(c.AsOrder(), s, 1)
      && Sorted(c.AsOrder(), t) && StablePermutation(c.AsOrder(), s, t) && multiset(t) == multiset(s)
      && (forall i, j :: 0 <= i < j < |t| ==> c.cmp(c.key(t[i]), c.key(t[j])) <= 0)
    ensures c.AsOrder().StrictWeak()
    ensures s != [] ==> passes == if |s| <= 2 then 1 else CeilLog2(|s|)
    ensures SortComparisons(passes, |s|) == passes * (|s| - 1)
  {
    c.OrderStrictWeak();
    var o := c.AsOrder();
    SortComparisonsAre(passes, |s|);
    hide Sorted, InsertionSort, StablePermutation, BlockSort, BlockPasses, SortComparisons;
    hide Order.StrictWeak, Comparison.TotalPreorder, Comparison.AsOrder;
    InsertionSortCorrect(o, s);
    StableIsPermutation(o, s, InsertionSort(o, s));
    c.SortedMeans(InsertionSort(o, s));
    BlockSortIsNaturalSort(o, s);
    BlockPassesExact(|s|, 0);
  }

  /** LL_SORT2, DL_SORT2 and CDL_SORT2: whatever prev was before, every next is
      rebuilt, and every prev where the kind of list has one; the nodes come out
      in stable ascending order by cmp, after exactly as many passes as doubling
      takes to reach the length, with fewer comparisons than nodes in each. */
  method Sort<V(!new)>(list: Node?, c: Comparison<V>, kind: Kind, ghost s: seq<Node>)
    returns (head: Node?, ghost passes: nat, ghost comparisons: nat)
    requires IsForward(list, s, kind) && c.TotalPreorder()
    modifies s`next, Backs(kind, set x | x in s)`prev
    ensures IsList(head, InsertionSort(c.AsOrder(), s), kind)
    ensures Sorted(c.AsOrder(), InsertionSort(c.AsOrder(), s))
    ensures StablePermutation(c.AsOrder(), s, InsertionSort(c.AsOrder(), s))
    ensures multiset(InsertionSort(c.AsOrder(), s)) == multiset(s)
    ensures var t := InsertionSort(c.AsOrder(), s);
      forall i, j :: 0 <= i < j < |t| ==> c.cmp(c.key(t[i]), c.key(t[j])) <= 0
    ensures s != [] ==> passes == if |s| <= 2 then 1 else CeilLog2(|s|)
    ensures comparisons <= passes * (|s| - 1)
  {
    hide Distinct, Nexts, Prevs, BlockSort, Sorted, InsertionSort, StablePermutation, SortComparisons, CeilLog2;
    hide Order.StrictWeak, Comparison.TotalPreorder, Comparison.AsOrder, BlockPasses;
    head, passes, comparisons := list, 0, 0;
    if list != null {
      c.OrderStrictWeak();
      head, passes, comparisons := SortPasses(list, c, kind, s);
    }
    SortPassesMean(c, s, passes);
  }

  /** The state between passes, against the whole sort of s. */
  ghost predicate PassesLeft<V(!new)>(o: Order<Node, V>, s: seq<Node>, t: seq<Node>, w: nat, passes: nat)
    requires w >= 1
  {
    && passes + BlockPasses(|s|, w) == BlockPasses(|s|, 1)
    && BlockSort(o, t, w) == BlockSort(o, s, 1)
  }

  lemma PassMade<V(!new)>(o: Order<Node, V>, s: seq<Node>, t: seq<Node>, w: nat, passes: nat)
    requires w >= 1 && |t| == |s| && PassesLeft(o, s, t, w, passes)
    ensures passes < BlockPasses(|s|, 1)
    ensures if Merges(|s|, w) <= 1
            then passes + 1 == BlockPasses(|s|, 1) && BlockPass(o, t, w) == BlockSort(o, s, 1)
            else PassesLeft(o, s, BlockPass(o, t, w), 2 * w, passes + 1)
  {}

  lemma ListAhead(head: Node?, s: seq<Node>, kind: Kind)
    requires IsForward(head, s, kind) && s != []
    ensures Distinct(s) && Ahead(head, s, if kind.Circular? then head else null)
  {}

  /** The body of the outer loop: a pass, then the repair of both ends. */
  method SortIteration<V(!new)>(list: Node, insize: nat, c: Comparison<V>, kind: Kind,
                                ghost s: seq<Node>, ghost nodes: set<Node>)
    returns (head: Node, nmerges: nat, ghost comparisons: nat)
    requires insize >= 1 && s != [] && IsForward(list, s, kind)
    requires forall x :: x in s ==> x in nodes
    modifies Backs(kind, nodes)`prev, nodes`next
    ensures IsList(head, BlockPass(c.AsOrder(), s, insize), kind)
    ensures 1 <= nmerges == Merges(|s|, insize) && comparisons + nmerges <= |s|
  {
    ListAhead(list, s, kind);
    ghost var t := BlockPass(c.AsOrder(), s, insize);
    BlockPassMembers(c.AsOrder(), s, insize);
    SameMembers(s, t);
    var h, tail;
    h, tail, nmerges, comparisons := MergePass(list, insize, c, kind, if kind.Circular? then list else null, s, nodes);
    head := h;
    if !kind.Single? {
      head.prev := tail;
    }
    tail.next := if kind.Circular? then head else null;
  }

  // ----- Appending and deleting in a linear list -----

  /** DL_APPEND2. */
  method DlAppend(head: Node?, add: Node, ghost s: seq<Node>) returns (head': Node)
    requires IsList(head, s, Double) && add !in s
    modifies s, add
    ensures IsList(head', s + [add], Double)
  {
    if head != null {
      assert s[|s| - 1] in s && s[0] in s;
      add.prev := head.prev;
      head.prev.next := add;
      head.prev := add;
      add.next := null;
      head' := head;
    } else {
      head' := add;
      head'.prev := head';
      head'.next := null;
    }
    ghost var t := s + [add];
    assert forall i :: 0 <= i < |s| ==> t[i] == s[i];
  }

  /** DL_DELETE2: takes out the node at position k, whether it is the only
      node, the first, an inner one or the last. */
  method DlDelete(head: Node, del: Node, ghost s: seq<Node>, ghost k: nat) returns (head': Node?)
    requires IsList(head, s, Double) && k < |s| && s[k] == del
    modifies s
    ensures IsList(head', s[..k] + s[k + 1..], Double)
  {
    head' := head;
    assert k > 0 ==> del.prev == s[k - 1] != del;
    if del.prev == del {
      assert |s| == 1;
      head' := null;
    } else if del == head {
      assert k == 0;
      del.next.prev := del.prev;
      head' := del.next;
    } else {
      del.prev.next := del.next;
      if del.next != null {
        del.next.prev := del.prev;
      } else {
        assert k == |s| - 1;
        head.prev := del.prev;
      }
    }
    Deleted(head', s, k);
  }

  /** A list again, once every remaining node is linked past position k. */
  lemma Deleted(head: Node?, s: seq<Node>, k: nat)
    requires k < |s| && Distinct(s)
    requires head == if |s| == 1 then null else if k == 0 then s[1] else s[0]
    requires forall i {:trigger s[i].next} :: 0 <= i < |s| && i != k ==>
      s[i].next == (var j := if i + 1 == k then i + 2 else i + 1; if j < |s| then s[j] else null)
    requires forall i {:trigger s[i].prev} :: 0 <= i < |s| && i != k ==>
      s[i].prev == (if i == 0 || (i == 1 && k == 0) then s[if k == |s| - 1 then |s| - 2 else |s| - 1]
                    else s[if i - 1 == k then i - 2 else i - 1])
    ensures IsList(head, s[..k] + s[k + 1..], Double)
  {
    var t := s[..k] + s[k + 1..];
    assert forall i :: 0 <= i < |t| ==> t[i] == s[if i < k then i else i + 1];
  }
}
