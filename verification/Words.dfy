/** Lists of words with counts, as values: the comparison functions, the two
    ways of adding a word, and why any correct sort gives the same listing. */
module Words {
  import opened Orders

  datatype Entry = Entry(word: string, count: int)

  // ----- less_word and less_count -----

  /** strcmp(a, b) < 0. */
  predicate StrLess(a: string, b: string)
    decreases |a|
  {
    b != [] && (a == [] || a[0] < b[0] || (a[0] == b[0] && StrLess(a[1..], b[1..])))
  }

  predicate LessCount(a: Entry, b: Entry) {
    a.count < b.count || (a.count == b.count && StrLess(a.word, b.word))
  }

  function ByLess(less: (Entry, Entry) -> bool): Order<Entry, Entry> {
    Order((e: Entry) => e, less)
  }

  function ByCount(): Order<Entry, Entry> {
    ByLess(LessCount)
  }

  // ----- The order of the report, spelled out -----

  /** a comes before b in the dictionary: at the first position where they differ,
      a ends or has the smaller character. */
  ghost predicate Dictionary(a: string, b: string) {
    exists k: nat :: FirstDifference(a, b, k)
  }

  ghost predicate FirstDifference(a: string, b: string, k: nat) {
    k <= |a| && k < |b| && a[..k] == b[..k] && (k == |a| || a[k] < b[k])
  }

  /** Fewer occurrences first, and words with equally many in dictionary order. */
  ghost predicate InReportOrder(es: seq<Entry>) {
    forall i, j :: 0 <= i < j < |es| ==>
      es[i].count < es[j].count || (es[i].count == es[j].count && Dictionary(es[i].word, es[j].word))
  }

  lemma {:induction false} StrLessDiffers(a: string, b: string) returns (k: nat)
    requires StrLess(a, b)
    ensures FirstDifference(a, b, k)
    decreases |a|
  {
    if a == [] || a[0] < b[0] {
      k := 0;
    } else {
      k := StrLessDiffers(a[1..], b[1..]);
      k := k + 1;
      assert a[..k] == [a[0]] + a[1..][..k - 1] && b[..k] == [b[0]] + b[1..][..k - 1];
    }
  }

  lemma {:induction false} DiffersStrLess(a: string, b: string, k: nat)
    requires FirstDifference(a, b, k)
    ensures StrLess(a, b)
    decreases k
  {
    if k > 0 {
      assert a[0] == a[..k][0] && b[0] == b[..k][0];
      assert a[1..][..k - 1] == a[..k][1..] && b[1..][..k - 1] == b[..k][1..];
      DiffersStrLess(a[1..], b[1..], k - 1);
    }
  }

  /** strcmp compares as the dictionary does. */
  lemma StrLessIsDictionary(a: string, b: string)
    ensures StrLess(a, b) <==> Dictionary(a, b)
  {
    if StrLess(a, b) {
      var k := StrLessDiffers(a, b);
    }
    if k: nat :| FirstDifference(a, b, k) {
      DiffersStrLess(a, b, k);
    }
  }

  /** Sorting by less_count is putting in report order, when words are distinct. */
  lemma SortedInOrder(es: seq<Entry>)
    requires forall i, j :: 0 <= i < j < |es| ==> es[i].word != es[j].word
    ensures Sorted(ByCount(), es) <==> InReportOrder(es)
  {
    forall i, j | 0 <= i < j < |es|
      ensures !ByCount().Less(es[j], es[i]) <==>
        es[i].count < es[j].count || (es[i].count == es[j].count && Dictionary(es[i].word, es[j].word))
    {
      var a, b := es[i].word, es[j].word;
      StrLessIsDictionary(a, b);
      hide Dictionary;
      if StrLess(a, b) {
        StrLessAsymmetric(a, b);
      } else if !StrLess(b, a) {
        StrLessTotal(a, b);
      }
    }
  }

  // ----- less_count is a strict total order -----

  lemma {:induction false} StrLessAsymmetric(a: string, b: string)
    requires StrLess(a, b)
    ensures !StrLess(b, a)
    decreases |a|
  {
    if a != [] && a[0] == b[0] {
      StrLessAsymmetric(a[1..], b[1..]);
    }
  }

  lemma {:induction false} StrLessSplits(a: string, b: string, c: string)
    requires StrLess(a, c)
    ensures StrLess(a, b) || StrLess(b, c)
    decreases |a|
  {
    if a != [] && b != [] && a[0] == b[0] == c[0] {
      StrLessSplits(a[1..], b[1..], c[1..]);
    }
  }

  lemma {:induction false} StrLessTotal(a: string, b: string)
    requires !StrLess(a, b) && !StrLess(b, a)
    ensures a == b
    decreases |a|
  {
    if a != [] && b != [] {
      StrLessTotal(a[1..], b[1..]);
      assert a == [a[0]] + a[1..] && b == [b[0]] + b[1..];
    }
  }

  /** less_count leaves no two different entries tied. */
  lemma LessCountStrictTotal()
    ensures ByCount().StrictTotal()
  {
    forall a: Entry, b: Entry ensures LessCount(a, b) ==> !LessCount(b, a) {
      if StrLess(a.word, b.word) {
        StrLessAsymmetric(a.word, b.word);
      }
    }
    forall a: Entry, b: Entry, c: Entry ensures LessCount(a, c) ==> LessCount(a, b) || LessCount(b, c) {
      if StrLess(a.word, c.word) {
        StrLessSplits(a.word, b.word, c.word);
      }
    }
    forall a: Entry, b: Entry ensures !LessCount(a, b) && !LessCount(b, a) ==> a == b {
      if !StrLess(a.word, b.word) && !StrLess(b.word, a.word) {
        StrLessTotal(a.word, b.word);
      }
    }
  }

  lemma MultisetTail<V>(xs: seq<V>)
    requires xs != []
    ensures multiset(xs[1..]) == multiset(xs) - multiset{xs[0]}
  {
    assert xs == [xs[0]] + xs[1..];
  }

  /** The heads of two sorted orderings of the same elements are equal. */
  lemma SameHead<V(!new)>(o: Order<V, V>, xs: seq<V>, ys: seq<V>)
    requires o.StrictTotal() && (forall v :: o.key(v) == v)
    requires Sorted(o, xs) && Sorted(o, ys) && multiset(xs) == multiset(ys)
    requires xs != [] && ys != []
    ensures xs[0] == ys[0]
  {
    assert xs[0] in multiset(xs) && ys[0] in multiset(ys);
    assert xs[0] in ys && ys[0] in xs;
    assert !o.Less(xs[0], ys[0]) && !o.Less(ys[0], xs[0]);
  }

  lemma SortedTail<V(!new)>(o: Order<V, V>, xs: seq<V>)
    requires Sorted(o, xs) && xs != []
    ensures Sorted(o, xs[1..])
  {}

  lemma SameTails<V>(xs: seq<V>, ys: seq<V>)
    requires multiset(xs) == multiset(ys)
    ensures |xs| == |ys|
    ensures xs != [] && xs[0] == ys[0] ==> multiset(xs[1..]) == multiset(ys[1..])
  {
    assert |multiset(xs)| == |xs| && |multiset(ys)| == |ys|;
    if xs != [] && xs[0] == ys[0] {
      MultisetTail(xs);
      MultisetTail(ys);
    }
  }

  /** Under a strict total order a sorted permutation is unique, stable or not. */
  lemma {:induction false} TotalSortUnique<V(!new)>(o: Order<V, V>, xs: seq<V>, ys: seq<V>)
    requires o.StrictTotal() && (forall v :: o.key(v) == v)
    requires Sorted(o, xs) && Sorted(o, ys) && multiset(xs) == multiset(ys)
    ensures xs == ys
    decreases |xs|
  {
    hide Sorted, Order.StrictTotal;
    SameTails(xs, ys);
    if xs != [] {
      SameHead(o, xs, ys);
      SortedTail(o, xs);
      SortedTail(o, ys);
      TotalSortUnique(o, xs[1..], ys[1..]);
      assert xs == [xs[0]] + xs[1..] && ys == [ys[0]] + ys[1..];
    }
  }

  // ----- Lists of entries -----

  /** All that the list says about word x. */
  ghost function Total(es: seq<Entry>, x: string): int {
    if es == [] then 0 else (if es[0].word == x then es[0].count else 0) + Total(es[1..], x)
  }

  /** A proper word list: words occur once, and each has been seen. */
  ghost predicate Proper(es: seq<Entry>) {
    && (forall i, j :: 0 <= i < j < |es| ==> es[i].word != es[j].word)
    && (forall i :: 0 <= i < |es| ==> es[i].count >= 1)
  }

  /** find_word: the position of the first entry for word, or the length. */
  function Find(es: seq<Entry>, word: string): (k: nat)
    ensures k <= |es|
  {
    if es == [] then 0 else if es[0].word == word then 0 else 1 + Find(es[1..], word)
  }

  lemma {:induction false} FindFirst(es: seq<Entry>, word: string)
    ensures forall i :: 0 <= i < Find(es, word) ==> es[i].word != word
    ensures Find(es, word) < |es| ==> es[Find(es, word)].word == word
  {
    if es != [] && es[0].word != word {
      FindFirst(es[1..], word);
      forall i | 0 <= i < Find(es, word) ensures es[i].word != word {
        assert i > 0 ==> es[i] == es[1..][i - 1];
      }
    }
  }

  /** The list after a known word has been counted n more times. */
  function Bump(es: seq<Entry>, k: nat, n: int): seq<Entry>
    requires k < |es|
  {
    es[k := Entry(es[k].word, es[k].count + n)]
  }

  /** add_word of word_count.c: a new word goes to the front, with count 1. */
  function AddFront(es: seq<Entry>, word: string): seq<Entry> {
    var k := Find(es, word);
    if k < |es| then Bump(es, k, 1) else [Entry(word, 1)] + es
  }

  /** add_word_with_count of word_count_l.c: a new word goes to the back. */
  function AddBack(es: seq<Entry>, word: string, n: int): seq<Entry> {
    var k := Find(es, word);
    if k < |es| then Bump(es, k, n) else es + [Entry(word, n)]
  }

  /** The first entry for word is at position k. */
  ghost predicate FirstAt(es: seq<Entry>, word: string, k: nat) {
    k < |es| && es[k].word == word && forall i :: 0 <= i < k ==> es[i].word != word
  }

  lemma FoundAt(es: seq<Entry>, word: string)
    ensures (forall i :: 0 <= i < |es| ==> es[i].word != word) ==> Find(es, word) == |es|
    ensures forall k: nat :: FirstAt(es, word, k) ==> Find(es, word) == k
  {
    FindFirst(es, word);
  }

  /** The two ways of adding a word, without reference to the search: the first
      entry for the word is counted up where it is; failing one, a new entry
      goes to the front, or to the back. */
  lemma AddedWhere(es: seq<Entry>, word: string, n: int)
    ensures (forall i :: 0 <= i < |es| ==> es[i].word != word) ==>
      AddFront(es, word) == [Entry(word, 1)] + es && AddBack(es, word, n) == es + [Entry(word, n)]
    ensures forall k: nat :: FirstAt(es, word, k) ==>
      && k < |es|
      && AddFront(es, word) == es[..k] + [Entry(word, es[k].count + 1)] + es[k + 1..]
      && AddBack(es, word, n) == es[..k] + [Entry(word, es[k].count + n)] + es[k + 1..]
  {
    FoundAt(es, word);
    hide Find, FirstAt;
    forall k: nat | FirstAt(es, word, k)
      ensures k < |es|
      ensures AddFront(es, word) == es[..k] + [Entry(word, es[k].count + 1)] + es[k + 1..]
      ensures AddBack(es, word, n) == es[..k] + [Entry(word, es[k].count + n)] + es[k + 1..]
    {
      BumpIs(es, word, k, 1);
      BumpIs(es, word, k, n);
    }
  }

  lemma BumpIs(es: seq<Entry>, word: string, k: nat, n: int)
    requires FirstAt(es, word, k)
    ensures k < |es| && Bump(es, k, n) == es[..k] + [Entry(word, es[k].count + n)] + es[k + 1..]
  {}

  lemma {:induction false} TotalAppend(a: seq<Entry>, b: seq<Entry>, x: string)
    ensures Total(a + b, x) == Total(a, x) + Total(b, x)
  {
    if a == [] {
      assert a + b == b;
    } else {
      assert (a + b)[1..] == a[1..] + b;
      TotalAppend(a[1..], b, x);
    }
  }

  lemma BumpTotal(es: seq<Entry>, k: nat, n: int, x: string)
    requires k < |es|
    ensures Total(Bump(es, k, n), x) == Total(es, x) + if es[k].word == x then n else 0
  {
    var e := Entry(es[k].word, es[k].count + n);
    TotalAppend(es[..k], [es[k]] + es[k + 1..], x);
    TotalAppend(es[..k], [e] + es[k + 1..], x);
    assert es == es[..k] + ([es[k]] + es[k + 1..]);
    assert Bump(es, k, n) == es[..k] + ([e] + es[k + 1..]);
    assert ([es[k]] + es[k + 1..])[1..] == es[k + 1..] && ([e] + es[k + 1..])[1..] == es[k + 1..];
  }

  /** Adding a word counts that word, and no other, n more times, and keeps the
      list proper. */
  lemma AddBackCounts(es: seq<Entry>, word: string, n: int)
    requires Proper(es) && n >= 1
    ensures Proper(AddBack(es, word, n))
    ensures forall x :: Total(AddBack(es, word, n), x) == Total(es, x) + if x == word then n else 0
  {
    FindFirst(es, word);
    forall x ensures Total(AddBack(es, word, n), x) == Total(es, x) + if x == word then n else 0 {
      if Find(es, word) < |es| {
        BumpTotal(es, Find(es, word), n, x);
      } else {
        TotalAppend(es, [Entry(word, n)], x);
      }
    }
  }

  lemma AddFrontCounts(es: seq<Entry>, word: string)
    requires Proper(es)
    ensures Proper(AddFront(es, word))
    ensures forall x :: Total(AddFront(es, word), x) == Total(es, x) + if x == word then 1 else 0
  {
    FindFirst(es, word);
    AddFrontProper(es, word);
    hide Proper, Total, Find, Bump;
    forall x ensures Total(AddFront(es, word), x) == Total(es, x) + if x == word then 1 else 0 {
      if Find(es, word) < |es| {
        BumpTotal(es, Find(es, word), 1, x);
      } else {
        TotalAppend([Entry(word, 1)], es, x);
        TotalSingle(Entry(word, 1), x);
      }
    }
  }

  lemma TotalSingle(e: Entry, x: string)
    ensures Total([e], x) == if e.word == x then e.count else 0
  {
    assert [e][1..] == [];
  }

  lemma AddFrontProper(es: seq<Entry>, word: string)
    requires Proper(es)
    ensures Proper(AddFront(es, word))
  {
    FindFirst(es, word);
    hide Find;
    if Find(es, word) == |es| {
      assert forall i :: 0 < i <= |es| ==> AddFront(es, word)[i] == es[i - 1];
    }
  }

  // ----- The listing depends on the totals alone -----

  lemma {:induction false} TotalOfMember(es: seq<Entry>, e: Entry)
    requires Proper(es)
    ensures multiset(es)[e] == if e.count >= 1 && Total(es, e.word) == e.count then 1 else 0
    ensures Total(es, e.word) >= 0
    ensures Total(es, e.word) == 0 <==> forall i :: 0 <= i < |es| ==> es[i].word != e.word
  {
    if es != [] {
      assert es == [es[0]] + es[1..];
      TotalOfMember(es[1..], e);
      if es[0].word == e.word {
        assert Total(es[1..], e.word) == 0;
        assert multiset(es)[e] == (if es[0] == e then 1 else 0) + multiset(es[1..])[e];
      } else {
        assert forall i :: 0 <= i < |es| - 1 ==> es[i + 1] == es[1..][i];
      }
    }
  }

  lemma SameTotalsSameEntries(es: seq<Entry>, fs: seq<Entry>)
    requires Proper(es) && Proper(fs) && forall x :: Total(es, x) == Total(fs, x)
    ensures multiset(es) == multiset(fs)
  {
    forall e ensures multiset(es)[e] == multiset(fs)[e] {
      TotalOfMember(es, e);
      TotalOfMember(fs, e);
    }
  }

  /** The listing of a word list: its entries in less_count order. */
  ghost function Listing(es: seq<Entry>): seq<Entry> {
    InsertionSort(ByCount(), es)
  }

  /** Two proper lists that agree on every total have the same listing, however
      they were built. */
  lemma ListingOfTotals(es: seq<Entry>, fs: seq<Entry>)
    requires Proper(es) && Proper(fs) && forall x :: Total(es, x) == Total(fs, x)
    ensures Listing(es) == Listing(fs)
  {
    SameTotalsSameEntries(es, fs);
    var o := ByCount();
    LessCountStrictTotal();
    InsertionSortCorrect(o, es);
    InsertionSortCorrect(o, fs);
    StableIsPermutation(o, es, Listing(es));
    StableIsPermutation(o, fs, Listing(fs));
    TotalSortUnique(o, Listing(es), Listing(fs));
  }

  /** Whatever sorts a list by less_count produces its listing. */
  lemma SortedIsListing(es: seq<Entry>, fs: seq<Entry>)
    requires Sorted(ByCount(), fs) && multiset(fs) == multiset(es)
    ensures fs == Listing(es)
  {
    var o := ByCount();
    LessCountStrictTotal();
    InsertionSortCorrect(o, es);
    StableIsPermutation(o, es, Listing(es));
    TotalSortUnique(o, fs, Listing(es));
  }

  // ----- Lists of nodes and what they hold -----

  ghost function Keys<N>(key: N -> Entry, s: seq<N>): seq<Entry> {
    seq(|s|, i requires 0 <= i < |s| => key(s[i]))
  }

  lemma KeysSorted<N>(key: N -> Entry, less: (Entry, Entry) -> bool, s: seq<N>)
    requires Sorted(Order(key, less), s)
    ensures Sorted(ByLess(less), Keys(key, s))
  {
    var o, es := ByLess(less), Keys(key, s);
    forall i, j | 0 <= i < j < |es| ensures !o.Less(es[j], es[i]) {
      assert !Order(key, less).Less(s[j], s[i]);
    }
  }

  lemma {:induction false} KeysPermuted<N>(key: N -> Entry, s: seq<N>, t: seq<N>)
    requires multiset(s) == multiset(t)
    ensures multiset(Keys(key, s)) == multiset(Keys(key, t))
    decreases |s|
  {
    hide Keys;
    assert |multiset(s)| == |s| && |multiset(t)| == |t|;
    if s != [] {
      var j := WithoutHead(s, t);
      KeysPermuted(key, s[1..], t[..j] + t[j + 1..]);
      KeysWithout(key, s, 0);
      KeysWithout(key, t, j);
      assert s[..0] + s[1..] == s[1..];
    } else {
      assert t == [];
    }
  }

  lemma WithoutHead<T>(s: seq<T>, t: seq<T>) returns (j: nat)
    requires s != [] && multiset(s) == multiset(t)
    ensures j < |t| && t[j] == s[0]
    ensures multiset(s[1..]) == multiset(t[..j] + t[j + 1..])
  {
    j := IndexOf(s[0], s, t);
    Without(t, j);
    MultisetTail(s);
  }

  lemma IndexOf<T>(x: T, s: seq<T>, t: seq<T>) returns (j: nat)
    requires x in s && multiset(s) == multiset(t)
    ensures j < |t| && t[j] == x
  {
    assert x in multiset(s);
    j :| 0 <= j < |t| && t[j] == x;
  }

  lemma Without<T>(s: seq<T>, j: nat)
    requires j < |s|
    ensures multiset(s) == multiset{s[j]} + multiset(s[..j] + s[j + 1..])
    ensures multiset(s[..j] + s[j + 1..]) == multiset(s) - multiset{s[j]}
  {
    assert s == s[..j] + [s[j]] + s[j + 1..];
  }

  lemma KeysWithout<N>(key: N -> Entry, s: seq<N>, j: nat)
    requires j < |s|
    ensures multiset(Keys(key, s)) == multiset{key(s[j])} + multiset(Keys(key, s[..j] + s[j + 1..]))
  {
    var es := Keys(key, s);
    Without(es, j);
    assert es[..j] + es[j + 1..] == Keys(key, s[..j] + s[j + 1..]);
  }

  // ----- Whole streams of words -----

  /** The list after a whole stream of words. */
  ghost function AddAllFront(es: seq<Entry>, ws: seq<string>): seq<Entry>
    decreases |ws|
  {
    if ws == [] then es else AddAllFront(AddFront(es, ws[0]), ws[1..])
  }

  lemma NoWordsLeft(es: seq<Entry>)
    ensures AddAllFront(es, []) == es
  {}

  lemma AddAllFrontCons(es: seq<Entry>, w: string, ws: seq<string>)
    ensures AddAllFront(es, [w] + ws) == AddAllFront(AddFront(es, w), ws)
  {
    assert ([w] + ws)[1..] == ws;
  }

  ghost function AddAllBack(es: seq<Entry>, ws: seq<string>): seq<Entry>
    decreases |ws|
  {
    if ws == [] then es else AddAllBack(AddBack(es, ws[0], 1), ws[1..])
  }

  lemma AddAllBackCons(es: seq<Entry>, w: string, ws: seq<string>)
    ensures AddAllBack(es, [w] + ws) == AddAllBack(AddBack(es, w, 1), ws)
  {
    assert ([w] + ws)[1..] == ws;
  }

  lemma NoWordsLeftBack(es: seq<Entry>)
    ensures AddAllBack(es, []) == es
  {}
}
