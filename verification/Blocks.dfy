/** The bottom-up merge sort of utlist.h, as functions on sequences: pass
    number k merges neighbouring blocks of 2^k elements. */
module Blocks {
  import opened Orders
  import opened NaturalRuns

  function Min(a: nat, b: nat): nat {
    if a <= b then a else b
  }

  /** One pass that merges blocks of w elements pairwise. */
  function BlockPass<E, V(!new)>(o: Order<E, V>, s: seq<E>, w: nat): (t: seq<E>)
    requires w >= 1
    ensures |t| == |s|
  {
    if s == [] then []
    else
      var j, k := Min(w, |s|), Min(2 * w, |s|);
      Merge(o, s[..j], s[j..k]) + BlockPass(o, s[k..], w)
  }

  /** How many merges that pass makes. */
  function Merges(n: nat, w: nat): nat
    requires w >= 1
    decreases n
  {
    if n == 0 then 0 else 1 + Merges(n - Min(2 * w, n), w)
  }

  /** Every aligned block of w elements is sorted. */
  ghost predicate BlocksSorted<E, V(!new)>(o: Order<E, V>, s: seq<E>, w: nat)
    requires w >= 1
    decreases |s|
  {
    s == [] || (Sorted(o, s[..Min(w, |s|)]) && BlocksSorted(o, s[Min(w, |s|)..], w))
  }

  lemma {:induction false} BlockPassMembers<E, V(!new)>(o: Order<E, V>, s: seq<E>, w: nat)
    requires w >= 1
    ensures multiset(BlockPass(o, s, w)) == multiset(s)
    decreases |s|
  {
    if s != [] {
      var j, k := Min(w, |s|), Min(2 * w, |s|);
      var m, r := Merge(o, s[..j], s[j..k]), BlockPass(o, s[k..], w);
      BlockPassMembers(o, s[k..], w);
      MergeMembers(o, s[..j], s[j..k]);
      MultisetSplit(s, j, k);
      assert multiset(m + r) == multiset(m) + multiset(r);
    }
  }

  lemma MultisetSplit<E>(s: seq<E>, j: nat, k: nat)
    requires j <= k <= |s|
    ensures multiset(s) == multiset(s[..j]) + multiset(s[j..k]) + multiset(s[k..])
  {
    assert s == (s[..j] + s[j..k]) + s[k..];
  }

  /** At most one merge just when the two blocks cover the whole list. */
  lemma OneMerge(n: nat, w: nat)
    requires w >= 1
    ensures Merges(n, w) <= 1 <==> n <= 2 * w
  {
    if n > 2 * w {
      assert Merges(n - 2 * w, w) >= 1;
    }
  }

  lemma {:induction false} SingletonsSorted<E, V(!new)>(o: Order<E, V>, s: seq<E>)
    ensures BlocksSorted(o, s, 1)
    decreases |s|
  {
    if s != [] {
      SingletonsSorted(o, s[1..]);
    }
  }

  /** The first two blocks, cut the way a pass cuts them. */
  lemma FirstBlocks<E, V(!new)>(o: Order<E, V>, s: seq<E>, w: nat)
    requires w >= 1 && s != [] && BlocksSorted(o, s, w)
    ensures var j, k := Min(w, |s|), Min(2 * w, |s|);
      && Sorted(o, s[..j]) && Sorted(o, s[j..k]) && BlocksSorted(o, s[k..], w)
  {
    var j, k := Min(w, |s|), Min(2 * w, |s|);
    var t := s[j..];
    if t == [] {
      assert s[j..k] == [] && s[k..] == [];
    } else {
      assert k - j == Min(w, |t|);
      assert t[..k - j] == s[j..k] && t[k - j..] == s[k..];
    }
  }

  /** A pass doubles the size of the sorted blocks. */
  lemma {:induction false} PassDoublesBlocks<E, V(!new)>(o: Order<E, V>, s: seq<E>, w: nat)
    requires o.StrictWeak() && w >= 1 && BlocksSorted(o, s, w)
    ensures BlocksSorted(o, BlockPass(o, s, w), 2 * w)
    decreases |s|
  {
    if s != [] {
      var j, k := Min(w, |s|), Min(2 * w, |s|);
      FirstBlocks(o, s, w);
      var m, r := Merge(o, s[..j], s[j..k]), BlockPass(o, s[k..], w);
      MergeSorted(o, s[..j], s[j..k]);
      PassDoublesBlocks(o, s[k..], w);
      assert (m + r)[..k] == m && (m + r)[k..] == r;
      assert BlockPass(o, s, w) == m + r;
    }
  }

  lemma {:induction false} BlockPassClass<E, V(!new)>(o: Order<E, V>, v: V, s: seq<E>, w: nat)
    requires o.StrictWeak() && w >= 1 && BlocksSorted(o, s, w)
    ensures Class(o, v, BlockPass(o, s, w)) == Class(o, v, s)
    decreases |s|
  {
    if s != [] {
      var j, k := Min(w, |s|), Min(2 * w, |s|);
      var m, r := Merge(o, s[..j], s[j..k]), BlockPass(o, s[k..], w);
      FirstBlocks(o, s, w);
      BlockPassClass(o, v, s[k..], w);
      MergeClass(o, v, s[..j], s[j..k]);
      ClassAppend(o, v, m, r);
      ClassSplit(o, v, s, j, k);
    }
  }

  lemma OneBlockSorted<E, V(!new)>(o: Order<E, V>, s: seq<E>, w: nat)
    requires w >= 1 && |s| <= w && BlocksSorted(o, s, w)
    ensures Sorted(o, s)
  {
    if s != [] {
      assert s[..Min(w, |s|)] == s;
    }
  }

  // ----- The whole sort -----

  /** The list after the pass with blocks of w and every pass that follows it. */
  ghost function BlockSort<E, V(!new)>(o: Order<E, V>, s: seq<E>, w: nat): seq<E>
    requires w >= 1
    decreases |s| - 2 * w
  {
    if Merges(|s|, w) <= 1 then BlockPass(o, s, w)
    else
      OneMerge(|s|, w);
      BlockSort(o, BlockPass(o, s, w), 2 * w)
  }

  /** The number of those passes. */
  ghost function BlockPasses(n: nat, w: nat): nat
    requires w >= 1
    decreases n - 2 * w
  {
    if Merges(n, w) <= 1 then 1
    else
      OneMerge(n, w);
      1 + BlockPasses(n, 2 * w)
  }

  lemma {:induction false} BlockSortCorrect<E, V(!new)>(o: Order<E, V>, s: seq<E>, w: nat)
    requires o.StrictWeak() && w >= 1 && BlocksSorted(o, s, w)
    ensures Sorted(o, BlockSort(o, s, w))
    ensures StablePermutation(o, s, BlockSort(o, s, w))
    decreases |s| - 2 * w
  {
    var t := BlockPass(o, s, w);
    OneMerge(|s|, w);
    PassDoublesBlocks(o, s, w);
    forall v ensures Class(o, v, t) == Class(o, v, s) {
      BlockPassClass(o, v, s, w);
    }
    if Merges(|s|, w) <= 1 {
      OneBlockSorted(o, t, 2 * w);
    } else {
      BlockSortCorrect(o, t, 2 * w);
    }
  }

  /** The two merge sorts of the repository agree, and both agree with insertion. */
  lemma BlockSortIsNaturalSort<E, V(!new)>(o: Order<E, V>, s: seq<E>)
    requires o.StrictWeak()
    ensures BlockSort(o, s, 1) == NaturalSort(o, s) == InsertionSort(o, s)
  {
    SingletonsSorted(o, s);
    BlockSortCorrect(o, s, 1);
    StableSortIsInsertionSort(o, s, BlockSort(o, s, 1));
    NaturalSortIsInsertionSort(o, s);
  }

  /** With blocks of 2^k, the passes left are those that bring 2^k up to n. */
  lemma {:induction false} BlockPassesExact(n: nat, k: nat)
    requires k == 0 || Power2(k) < n
    ensures BlockPasses(n, Power2(k)) == (if n <= 1 then 1 else CeilLog2(n) - k)
    decreases n - Power2(k)
  {
    OneMerge(n, Power2(k));
    if n > 1 {
      if n <= Power2(k + 1) {
        CeilLog2Is(n, k + 1);
      } else {
        BlockPassesExact(n, k + 1);
      }
    }
  }

  lemma {:induction false} CeilLog2Is(n: nat, k: nat)
    requires k >= 1 && Power2(k - 1) < n <= Power2(k)
    ensures CeilLog2(n) == k
  {
    if k > 1 {
      CeilLog2Is((n + 1) / 2, k - 1);
    } else {
      assert Power2(0) == 1 && Power2(1) == 2;
    }
  }
}
