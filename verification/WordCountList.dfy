/** word_count.c: word counts on a singly linked list, sorted in place by
    insertion. */
module WordCountList {
  import opened Orders
  import opened Placing
  import opened Words
  import opened WordText

  class WordCount {
    const word: string
    var count: int
    var next: WordCount?

    constructor (word: string, count: int)
      ensures this.word == word && this.count == count
    {
      this.word, this.count, this.next := word, count, null;
    }
  }

  /** The nodes s hang together by next, from head to null. */
  ghost predicate Chain(head: WordCount?, s: seq<WordCount>)
    reads s
  {
    && head == (if s == [] then null else s[0])
    && (forall i {:trigger s[i].next} :: 0 <= i < |s| ==> s[i].next == if i == |s| - 1 then null else s[i + 1])
    && (forall i, j :: 0 <= i < j < |s| ==> s[i] != s[j])
  }

  ghost function EntryOf(n: WordCount): Entry
    reads n
  {
    Entry(n.word, n.count)
  }

  ghost function Entries(s: seq<WordCount>): (es: seq<Entry>)
    reads s
    ensures |es| == |s| && forall i :: 0 <= i < |s| ==> es[i] == EntryOf(s[i])
  {
    if s == [] then [] else [EntryOf(s[0])] + Entries(s[1..])
  }

  /** key says what the nodes of s hold; sorting does not change it. */
  ghost predicate Holds(key: WordCount -> Entry, s: seq<WordCount>)
    reads s
  {
    forall i :: 0 <= i < |s| ==> key(s[i]) == EntryOf(s[i])
  }

  ghost function HeldNow(s: seq<WordCount>): map<WordCount, Entry>
    reads s
  {
    map n | n in s :: EntryOf(n)
  }

  ghost function HeldBy(held: map<WordCount, Entry>): WordCount -> Entry {
    (n: WordCount) => if n in held then held[n] else Entry("", 0)
  }

  lemma HoldsNow(s: seq<WordCount>)
    ensures Holds(HeldBy(HeldNow(s)), s)
    ensures forall n :: n in s ==> HeldBy(HeldNow(s))(n) == EntryOf(n)
  {}

  lemma HeldStill(key: WordCount -> Entry, s: seq<WordCount>, t: seq<WordCount>)
    requires Holds(key, t) && multiset(s) == multiset(t)
    ensures forall n :: n in s ==> key(n) == EntryOf(n)
  {
    SameMembers(t, s);
  }

  /** The search of wordcount_insert_ordered past the first node: the nodes
      between which elem belongs. */
  method FindPlace(list: WordCount, elem: WordCount, less: (Entry, Entry) -> bool,
                   ghost key: WordCount -> Entry, ghost s: seq<WordCount>)
    returns (prev: WordCount, cur: WordCount?, ghost k: nat)
    requires Chain(list, s) && Holds(key, s) && key(elem) == EntryOf(elem)
    requires !less(EntryOf(elem), EntryOf(list))
    ensures 1 <= k <= |s| && k == Place(Order(key, less), elem, s)
    ensures prev == s[k - 1] && cur == if k == |s| then null else s[k]
  {
    ghost var o := Order(key, less);
    prev, cur, k := list, list.next, 1;
    while cur != null && less(Entry(cur.word, cur.count), Entry(elem.word, elem.count))
      invariant 1 <= k <= |s| && prev == s[k - 1]
      invariant cur == if k == |s| then null else s[k]
      invariant Place(o, elem, s) == k + Below(o, elem, s[k..])
      decreases |s| - k
    {
      assert s[k..][0] == s[k] && s[k..][1..] == s[k + 1..];
      prev, cur, k := cur, cur.next, k + 1;
    }
    assert k < |s| ==> s[k..][0] == s[k];
  }

  /** wordcount_insert_ordered: links elem into the chain s. */
  method InsertOrdered(list: WordCount?, elem: WordCount, less: (Entry, Entry) -> bool,
                       ghost key: WordCount -> Entry, ghost s: seq<WordCount>)
    returns (list': WordCount, ghost k: nat)
    requires Chain(list, s) && elem !in s && Holds(key, s) && key(elem) == EntryOf(elem)
    modifies s`next, elem`next
    ensures k == Place(Order(key, less), elem, s)
    ensures Chain(list', s[..k] + [elem] + s[k..])
  {
    k := 0;
    if list == null || less(Entry(elem.word, elem.count), Entry(list.word, list.count)) {
      elem.next := list;
      list' := elem;
    } else {
      hide Place;
      var prev, cur;
      prev, cur, k := FindPlace(list, elem, less, key, s);
      prev.next := elem;
      elem.next := cur;
      list' := list;
    }
    Inserted(list', s, elem, k);
  }

  lemma Inserted(list: WordCount?, s: seq<WordCount>, elem: WordCount, k: nat)
    requires k <= |s| && elem !in s
    requires list == if k == 0 then elem else s[0]
    requires forall i {:trigger s[i].next} :: 0 <= i < |s| && i != k - 1 ==>
      s[i].next == if i == |s| - 1 then null else s[i + 1]
    requires k > 0 ==> s[k - 1].next == elem
    requires elem.next == if k == |s| then null else s[k]
    requires forall i, j :: 0 <= i < j < |s| ==> s[i] != s[j]
    ensures Chain(list, s[..k] + [elem] + s[k..])
  {
    var t := s[..k] + [elem] + s[k..];
    assert forall i :: 0 <= i < |t| ==> t[i] == if i < k then s[i] else if i == k then elem else s[i - 1];
  }

  class WordList {
    var head: WordCount?
    ghost var nodes: seq<WordCount>

    ghost predicate Valid()
      reads this, nodes
    {
      Chain(head, nodes)
    }

    ghost function Contents(): seq<Entry>
      reads this, nodes
    {
      Entries(nodes)
    }

    /** init_words. */
    constructor ()
      ensures Valid() && Contents() == [] && nodes == []
    {
      head, nodes := null, [];
    }

    /** find_word. */
    method FindWord(word: string) returns (wc: WordCount?)
      requires Valid()
      ensures var k := Find(Contents(), word); wc == if k < |nodes| then nodes[k] else null
    {
      wc := head;
      ghost var es, k := Contents(), 0;
      while wc != null && word != wc.word
        invariant 0 <= k <= |nodes| && wc == if k == |nodes| then null else nodes[k]
        invariant Find(es, word) == k + Find(es[k..], word)
        decreases |nodes| - k
      {
        assert es[k..][0] == EntryOf(nodes[k]) && es[k..][1..] == es[k + 1..];
        wc := wc.next;
        k := k + 1;
      }
      assert k < |nodes| ==> es[k..][0] == EntryOf(nodes[k]);
    }

    /** add_word. */
    method AddWord(word: string)
      requires Valid()
      modifies this, nodes
      ensures Valid() && Contents() == AddFront(old(Contents()), word)
      ensures forall i :: 0 <= i < |nodes| ==> nodes[i] in old(nodes) || fresh(nodes[i])
    {
      hide Chain, Entries, Find, Bump;
      ghost var k := Find(Contents(), word);
      var wc := FindWord(word);
      if wc != null {
        Increment(wc, head, nodes, k);
      } else {
        head := Prepend(word, head, nodes);
        nodes := [head] + nodes;
      }
    }

    /** count_words over this list. */
    method CountWords(infile: Stream)
      requires Valid() && infile.Valid()
      modifies this, nodes, infile
      ensures Valid() && Contents() == AddAllFront(old(Contents()), LongOnes(Stretches(infile.text, old(infile.pos))))
      ensures forall i :: 0 <= i < |nodes| ==> nodes[i] in old(nodes) || fresh(nodes[i])
    {
      hide Valid, Chain, Entries, Contents, AddAllFront, Stretches, AddFront, LongOnes;
      NothingLong(infile.text);
      ghost var target := AddAllFront(Contents(), LongOnes(Stretches(infile.text, infile.pos)));
      var word, len := GetWord(infile);
      while len != 0
        invariant Valid() && infile.Valid() && len == |word|
        invariant forall i :: 0 <= i < |nodes| ==> nodes[i] in old(nodes) || fresh(nodes[i])
        invariant target == AddAllFront(Contents(), LongOnes(
                    if len == 0 then [] else [word] + Stretches(infile.text, infile.pos)))
        decreases len != 0, |infile.text| - infile.pos
      {
        ghost var rest := Stretches(infile.text, infile.pos);
        LongOnesCons(word, rest);
        if len != 1 {
          AddAllFrontCons(Contents(), word, LongOnes(rest));
          AddWord(word);
        }
        word, len := GetWord(infile);
      }
      NoWordsLeft(Contents());
    }

    /** wordcount_sort: the same nodes, relinked in the order that placing them
        one by one gives. */
    method Sort(less: (Entry, Entry) -> bool)
      requires Valid()
      modifies this, nodes
      ensures Valid() && multiset(nodes) == multiset(old(nodes))
      ensures forall n :: n in old(nodes) ==> EntryOf(n) == old(EntryOf(n))
      ensures Contents() == PlaceSort(ByLess(less), old(Contents()))
    {
      hide Chain, Entries, PlaceSort, Keys, Holds, HeldBy, HeldNow;
      ghost var key := HeldBy(HeldNow(nodes));
      ghost var s := nodes;
      HoldsNow(s);
      KeysAt(key, s);
      head, nodes := SortChain(head, less, key, nodes);
      KeysAt(key, nodes);
      KeysPlaceSort(key, less, s);
      PlaceSortMembers(Order(key, less), s);
      SameMembers(s, nodes);
      HeldStill(key, s, nodes);
    }
  }

  /** Stability does fail: three entries compared by count alone. */
  lemma UnstableExample()
    ensures var o := ByLess((a: Entry, b: Entry) => a.count < b.count);
      var es := [Entry("a", 1), Entry("b", 2), Entry("c", 2)];
      o.StrictWeak() && PlaceSort(o, es) == [es[0], es[2], es[1]] && !StablePermutation(o, es, PlaceSort(o, es))
  {
    var o := ByLess((a: Entry, b: Entry) => a.count < b.count);
    PlaceSortUnstable(o, Entry("a", 1), Entry("b", 2), Entry("c", 2));
  }

  lemma {:induction false} KeysBelow<N>(key: N -> Entry, less: (Entry, Entry) -> bool, e: N, s: seq<N>)
    ensures Below(Order(key, less), e, s) == Below(ByLess(less), key(e), Keys(key, s))
    decreases |s|
  {
    if s != [] {
      assert Keys(key, s)[1..] == Keys(key, s[1..]);
      KeysBelow(key, less, e, s[1..]);
    }
  }

  lemma KeysPlace<N>(key: N -> Entry, less: (Entry, Entry) -> bool, e: N, s: seq<N>)
    ensures Place(Order(key, less), e, s) == Place(ByLess(less), key(e), Keys(key, s))
  {
    if s != [] {
      assert Keys(key, s)[1..] == Keys(key, s[1..]);
      KeysBelow(key, less, e, s[1..]);
    }
  }

  lemma KeysPlaced<N>(key: N -> Entry, less: (Entry, Entry) -> bool, e: N, s: seq<N>)
    ensures Keys(key, Placed(Order(key, less), e, s)) == Placed(ByLess(less), key(e), Keys(key, s))
  {
    KeysPlace(key, less, e, s);
    hide Place;
    var k := Place(Order(key, less), e, s);
    assert Keys(key, s[..k] + [e] + s[k..]) == Keys(key, s)[..k] + [key(e)] + Keys(key, s)[k..];
  }

  lemma KeysParts<N>(key: N -> Entry, s: seq<N>)
    ensures |Keys(key, s)| == |s|
    ensures s != [] ==> var n := |s| - 1; Keys(key, s)[n] == key(s[n]) && Keys(key, s)[..n] == Keys(key, s[..n])
  {}

  /** Sorting nodes by their entries sorts the entries the same way. */
  lemma {:induction false} KeysPlaceSort<N>(key: N -> Entry, less: (Entry, Entry) -> bool, s: seq<N>)
    ensures Keys(key, PlaceSort(Order(key, less), s)) == PlaceSort(ByLess(less), Keys(key, s))
    decreases |s|
  {
    hide Keys, Placed, ByLess;
    KeysParts(key, s);
    if s == [] {
      KeysParts(key, PlaceSort(Order(key, less), s));
    } else {
      var n := |s| - 1;
      KeysPlaceSort(key, less, s[..n]);
      KeysPlaced(key, less, s[n], PlaceSort(Order(key, less), s[..n]));
    }
  }

  lemma KeysAt(key: WordCount -> Entry, s: seq<WordCount>)
    requires Holds(key, s)
    ensures Entries(s) == Keys(key, s)
  {}

  /** The loop of wordcount_sort, on a bare chain. */
  method SortChain(list: WordCount?, less: (Entry, Entry) -> bool,
                   ghost key: WordCount -> Entry, ghost s: seq<WordCount>)
    returns (sorted: WordCount?, ghost t: seq<WordCount>)
    requires Chain(list, s) && Holds(key, s)
    modifies s`next
    ensures Chain(sorted, t) && Holds(key, t) && t == PlaceSort(Order(key, less), s)
  {
    ghost var o := Order(key, less);
    ghost var rest := s;
    var head := list;
    sorted, t := null, [];
    SortingStart(o, key, list, s);
    hide Sorting, Chain, Holds;
    while head != null
      invariant Sorting(o, key, sorted, t, head, rest, s)
      invariant head == null <==> rest == []
      decreases |rest|
    {
      SortingMembers(o, key, sorted, t, head, rest, s);
      sorted, head, t := SortStep(sorted, head, less, key, t, rest, s);
      rest := rest[1..];
      SortingMembers(o, key, sorted, t, head, rest, s);
    }
    SortingEnd(o, key, sorted, t, s);
  }

  /** The two chains of wordcount_sort: t is what has been placed, rest is left. */
  ghost predicate Sorting(o: Order<WordCount, Entry>, key: WordCount -> Entry, sorted: WordCount?, t: seq<WordCount>,
                          head: WordCount?, rest: seq<WordCount>, s: seq<WordCount>)
    reads t, rest
  {
    && Chain(sorted, t) && Chain(head, rest) && (forall n :: n in t ==> n !in rest)
    && Holds(key, t) && Holds(key, rest)
    && |rest| <= |s| && rest == s[|s| - |rest|..] && t == PlaceSort(o, s[..|s| - |rest|])
    && multiset(t) + multiset(rest) == multiset(s)
  }

  lemma SortingStart(o: Order<WordCount, Entry>, key: WordCount -> Entry, head: WordCount?, s: seq<WordCount>)
    requires Chain(head, s) && Holds(key, s)
    ensures Sorting(o, key, null, [], head, s, s)
    ensures head == null <==> s == []
  {}

  lemma SortingMembers(o: Order<WordCount, Entry>, key: WordCount -> Entry, sorted: WordCount?, t: seq<WordCount>,
                       head: WordCount?, rest: seq<WordCount>, s: seq<WordCount>)
    requires Sorting(o, key, sorted, t, head, rest, s)
    ensures (head == null <==> rest == []) && (rest != [] ==> head == rest[0])
    ensures forall n :: n in t || n in rest ==> n in s
  {
    forall n | n in t || n in rest ensures n in s {
      assert n in multiset(t) + multiset(rest);
      assert n in multiset(s);
    }
  }

  lemma SortingEnd(o: Order<WordCount, Entry>, key: WordCount -> Entry, sorted: WordCount?,
                   t: seq<WordCount>, s: seq<WordCount>)
    requires Sorting(o, key, sorted, t, null, [], s)
    ensures Chain(sorted, t) && Holds(key, t) && t == PlaceSort(o, s)
  {
    assert s[..|s|] == s;
  }

  /** One turn of the loop of wordcount_sort. */
  method SortStep(sorted: WordCount?, head: WordCount, less: (Entry, Entry) -> bool, ghost key: WordCount -> Entry,
                  ghost t: seq<WordCount>, ghost rest: seq<WordCount>, ghost s: seq<WordCount>)
    returns (sorted': WordCount, head': WordCount?, ghost t': seq<WordCount>)
    requires rest != []
    requires Sorting(Order(key, less), key, sorted, t, head, rest, s)
    modifies s`next
    ensures Sorting(Order(key, less), key, sorted', t', head', rest[1..], s)
  {
    hide Chain, Sorting, Place, PlaceSort;
    SortingParts(Order(key, less), key, sorted, t, head, rest, s);
    var toInsert := head;
    head' := TakeFirst(head, rest);
    ghost var k;
    sorted', k := InsertOrdered(sorted, toInsert, less, key, t);
    t' := t[..k] + [toInsert] + t[k..];
    HoldsInserted(key, t, toInsert, k);
    HoldsTail(key, rest);
    SortingStep(Order(key, less), key, sorted', t, k, head', rest, s);
  }

  lemma SortingParts(o: Order<WordCount, Entry>, key: WordCount -> Entry, sorted: WordCount?, t: seq<WordCount>,
                     head: WordCount?, rest: seq<WordCount>, s: seq<WordCount>)
    requires Sorting(o, key, sorted, t, head, rest, s) && rest != []
    ensures Chain(sorted, t) && Chain(head, rest) && Holds(key, t) && Holds(key, rest)
    ensures |rest| <= |s| && rest == s[|s| - |rest|..] && t == PlaceSort(o, s[..|s| - |rest|])
    ensures head == rest[0] && key(head) == EntryOf(head)
    ensures (forall n :: n in t ==> n !in rest && n != head) && rest[0] !in rest[1..] && head !in t
    ensures forall i :: 0 <= i < |rest| - 1 ==> rest[1..][i] !in t && rest[1..][i] != head
    ensures multiset(t) + multiset(rest) == multiset(s)
    ensures head in s && forall i :: 0 <= i < |t| ==> t[i] in s
  {
    SortingMembers(o, key, sorted, t, head, rest, s);
  }

  lemma HoldsTail(key: WordCount -> Entry, s: seq<WordCount>)
    requires Holds(key, s) && s != []
    ensures Holds(key, s[1..])
  {}

  lemma SortingStep(o: Order<WordCount, Entry>, key: WordCount -> Entry, sorted: WordCount?, t: seq<WordCount>, k: nat,
                    head: WordCount?, rest: seq<WordCount>, s: seq<WordCount>)
    requires k <= |t| && rest != []
    requires Chain(sorted, t[..k] + [rest[0]] + t[k..]) && Chain(head, rest[1..])
    requires Holds(key, t[..k] + [rest[0]] + t[k..]) && Holds(key, rest[1..])
    requires |rest| <= |s| && rest == s[|s| - |rest|..] && t == PlaceSort(o, s[..|s| - |rest|])
    requires k == Place(o, rest[0], t)
    requires (forall n :: n in t ==> n !in rest) && rest[0] !in rest[1..]
    requires multiset(t) + multiset(rest) == multiset(s)
    ensures Sorting(o, key, sorted, t[..k] + [rest[0]] + t[k..], head, rest[1..], s)
  {
    hide Chain, Holds, PlaceSort, Place;
    InsertedMultiset(t, rest, k);
    var n := |s| - |rest|;
    PlaceSortNext(o, s, n);
    assert s[n] == rest[0] && s[n + 1..] == rest[1..];
  }

  method TakeFirst(head: WordCount, ghost s: seq<WordCount>) returns (head': WordCount?)
    requires Chain(head, s)
    modifies head`next
    ensures Chain(head', s[1..]) && head !in s[1..]
  {
    head' := head.next;
    head.next := null;
    assert forall i :: 0 <= i < |s| - 1 ==> s[1..][i] == s[i + 1];
  }

  lemma HoldsInserted(key: WordCount -> Entry, s: seq<WordCount>, n: WordCount, k: nat)
    requires Holds(key, s) && key(n) == EntryOf(n) && k <= |s|
    ensures Holds(key, s[..k] + [n] + s[k..])
  {}

  lemma InsertedMultiset<T>(a: seq<T>, b: seq<T>, k: nat)
    requires k <= |a| && b != []
    ensures multiset(a[..k] + [b[0]] + a[k..]) + multiset(b[1..]) == multiset(a) + multiset(b)
    ensures forall x :: x in a[..k] + [b[0]] + a[k..] <==> x in a || x == b[0]
  {
    assert a == a[..k] + a[k..];
    assert b == [b[0]] + b[1..];
  }

  method Increment(wc: WordCount, ghost head: WordCount?, ghost s: seq<WordCount>, ghost k: nat)
    requires Chain(head, s) && k < |s| && s[k] == wc
    modifies wc`count
    ensures Chain(head, s) && Entries(s) == Bump(old(Entries(s)), k, 1)
  {
    hide Entries;
    ghost var es := Entries(s);
    wc.count := wc.count + 1;
    EntriesAre(s, Bump(es, k, 1));
  }

  lemma EntriesAre(s: seq<WordCount>, es: seq<Entry>)
    requires |es| == |s| && forall i :: 0 <= i < |s| ==> EntryOf(s[i]) == es[i]
    ensures Entries(s) == es
  {}

  method Prepend(word: string, list: WordCount?, ghost s: seq<WordCount>) returns (n: WordCount)
    requires Chain(list, s)
    ensures fresh(n) && Chain(n, [n] + s) && Entries([n] + s) == [Entry(word, 1)] + old(Entries(s))
  {
    hide Entries;
    ghost var es := Entries(s);
    n := new WordCount(word, 1);
    n.next := list;
    ghost var t := [n] + s;
    assert forall i :: 0 < i < |t| ==> t[i] == s[i - 1];
    EntriesAre(t, [Entry(word, 1)] + es);
  }
}
