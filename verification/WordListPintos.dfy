/** word_count_l.c and word_count_p.c: word counts on a Pintos list. */
module WordListPintos {
  import opened Orders
  import opened PintosList
  import opened Words
  import opened WordText

  /** list_entry: the word count in whose structure an element is embedded. */
  function EntryOf(held: map<Elem, Entry>): Elem -> Entry {
    (e: Elem) => if e in held then held[e] else Entry("", 0)
  }

  ghost predicate AllHeld(held: map<Elem, Entry>, s: seq<Elem>) {
    forall i :: 0 <= i < |s| ==> s[i] in held
  }

  class WordList {
    const list: List
    var held: map<Elem, Entry>

    ghost predicate Valid()
      reads this, list, list.chain
    {
      list.Valid() && AllHeld(held, list.Elems())
    }

    ghost function Contents(): (es: seq<Entry>)
      requires |list.chain| >= 2
      reads this, list
    {
      Keys(EntryOf(held), list.Elems())
    }

    /** init_words. */
    constructor ()
      ensures Valid() && |list.chain| >= 2 && Contents() == []
      ensures fresh(list) && fresh(list.nodes)
    {
      var l := new List();
      list, held := l, map[];
    }

    /** find_word. */
    method FindWord(word: string) returns (wc: Elem?)
      requires Valid()
      ensures |list.chain| >= 2 && |Contents()| == |list.Elems()|
      ensures var k := Find(Contents(), word); wc == if k < |list.Elems()| then list.Elems()[k] else null
    {
      hide Linked, Keys;
      list.At(0);
      list.At(1);
      ghost var es, s := Contents(), list.Elems();
      KeysAt(EntryOf(held), s);
      var e := list.head.next;
      ghost var k := 0;
      while e != list.tail
        invariant 0 <= k <= |s| && e == list.chain[k + 1]
        invariant e == list.tail <==> k == |s|
        invariant Find(es, word) == k + Find(es[k..], word)
        decreases |s| - k
      {
        assert es[k..][0] == held[e] && es[k..][1..] == es[k + 1..];
        if held[e].word == word {
          return e;
        }
        list.At(k + 1);
        list.At(k + 2);
        e, k := e.next, k + 1;
      }
      wc := null;
    }

    /** add_word_with_count; add_word is the same with count 1, and in
        word_count_p.c runs under the list's lock. */
    method AddWordWithCount(word: string, count: int)
      requires Valid()
      modifies this, list, list.nodes
      ensures Valid() && |list.chain| >= 2 && old(|list.chain| >= 2)
      ensures Contents() == AddBack(old(Contents()), word, count)
      ensures forall e :: e in list.nodes ==> e in old(list.nodes) || fresh(e)
    {
      hide Linked, Keys;
      list.At(0);
      ghost var s, m := list.Elems(), held;
      KeysAt(EntryOf(m), s);
      ghost var k := Find(Contents(), word);
      var res := FindWord(word);
      if res != null {
        list.ElemsDistinct();
        held := held[res := Entry(held[res].word, held[res].count + count)];
        KeysBump(m, s, k, count);
      } else {
        var e := new Elem();
        held := held[e := Entry(word, count)];
        list.PushBack(e);
        KeysPush(m, s, e, Entry(word, count));
      }
    }

    /** count_words over this list. */
    method CountWords(infile: Stream)
      requires Valid() && infile.Valid()
      modifies this, list, list.nodes, infile
      ensures Valid() && |list.chain| >= 2 && old(|list.chain| >= 2)
      ensures Contents() == AddAllBack(old(Contents()), LongOnes(Stretches(infile.text, old(infile.pos))))
      ensures forall e :: e in list.nodes ==> e in old(list.nodes) || fresh(e)
    {
      hide Linked, Keys, AddAllBack, Stretches, AddBack, LongOnes;
      list.At(0);
      NothingLong(infile.text);
      ghost var target := AddAllBack(Contents(), LongOnes(Stretches(infile.text, infile.pos)));
      var word, len := GetWord(infile);
      while len != 0
        invariant Valid() && |list.chain| >= 2 && infile.Valid() && len == |word|
        invariant forall e :: e in list.nodes ==> e in old(list.nodes) || fresh(e)
        invariant target == AddAllBack(Contents(), LongOnes(
                    if len == 0 then [] else [word] + Stretches(infile.text, infile.pos)))
        decreases len != 0, |infile.text| - infile.pos
      {
        ghost var rest := Stretches(infile.text, infile.pos);
        LongOnesCons(word, rest);
        if len != 1 {
          AddAllBackCons(Contents(), word, LongOnes(rest));
          AddWordWithCount(word, 1);
        }
        word, len := GetWord(infile);
      }
      NoWordsLeftBack(Contents());
    }

    /** wordcount_sort: list_sort with less on the embedding structures. */
    method Sort(less: (Entry, Entry) -> bool)
      requires Valid() && ByLess(less).StrictWeak()
      modifies list, list.nodes
      ensures Valid() && |list.chain| >= 2 && old(|list.chain| >= 2)
      ensures Sorted(ByLess(less), Contents())
      ensures forall i, j :: 0 <= i < j < |Contents()| ==> !less(Contents()[j], Contents()[i])
      ensures multiset(Contents()) == multiset(old(Contents()))
    {
      list.At(0);
      hide Linked, Keys, Sorted;
      ghost var s := list.Elems();
      var key := EntryOf(held);
      var passes, comparisons := PintosList.Sort(list, Order(key, less));
      list.At(0);
      KeysPermuted(key, s, list.Elems());
      KeysSorted(key, less, list.Elems());
      SameMembers(s, list.Elems());
      HeldSame(held, s, list.Elems());
      SortedMeans(ByLess(less), Contents());
    }
  }

  lemma HeldSame(held: map<Elem, Entry>, s: seq<Elem>, t: seq<Elem>)
    requires AllHeld(held, s) && forall x :: x in t ==> x in s
    ensures AllHeld(held, t)
  {
    forall i | 0 <= i < |t| ensures t[i] in held {
      assert t[i] in s;
    }
  }

  lemma KeysAt(key: Elem -> Entry, s: seq<Elem>)
    ensures |Keys(key, s)| == |s| && forall i :: 0 <= i < |s| ==> Keys(key, s)[i] == key(s[i])
  {}

  lemma KeysBump(m: map<Elem, Entry>, s: seq<Elem>, k: nat, n: int)
    requires k < |s| && s[k] in m && forall i, j :: 0 <= i < j < |s| ==> s[i] != s[j]
    ensures |Keys(EntryOf(m), s)| == |s|
    ensures Keys(EntryOf(m[s[k] := Entry(m[s[k]].word, m[s[k]].count + n)]), s) == Bump(Keys(EntryOf(m), s), k, n)
  {}

  lemma KeysPush(m: map<Elem, Entry>, s: seq<Elem>, e: Elem, x: Entry)
    requires e !in s
    ensures Keys(EntryOf(m[e := x]), s + [e]) == Keys(EntryOf(m), s) + [x]
  {}
}
