/** The natural merge sort of the Pintos list, as functions on sequences: one
    pass merges adjacent maximal runs pairwise, and passes repeat until a pass
    leaves a single run. */
module NaturalRuns {
  import opened Orders

  /** Length of the maximal nondecreasing run that starts s. */
  function FirstRun<E, V(!new)>(o: Order<E, V>, s: seq<E>): (r: nat)
    requires s != []
    ensures 1 <= r <= |s|
  {
    if |s| == 1 || o.Less(s[1], s[0]) then 1 else 1 + FirstRun(o, s[1..])
  }

  /** Number of maximal nondecreasing runs. */
  function Runs<E, V(!new)>(o: Order<E, V>, s: seq<E>): nat {
    if s == [] then 0 else 1 + Runs(o, s[FirstRun(o, s)..])
  }

  /** End of the second of the two runs that a step of a pass merges; the end
      of the first when there is no second. */
  function SecondRun<E, V(!new)>(o: Order<E, V>, s: seq<E>): (r: nat)
    requires s != []
    ensures FirstRun(o, s) <= r <= |s|
    ensures FirstRun(o, s) < |s| ==> FirstRun(o, s) < r
  {
    var j := FirstRun(o, s);
    if j == |s| then j else j + FirstRun(o, s[j..])
  }

  /** The list one pass leaves. */
  function Pass<E, V(!new)>(o: Order<E, V>, s: seq<E>): (t: seq<E>)
    ensures |t| == |s|
  {
    if s == [] then []
    else
      var j, k := FirstRun(o, s), SecondRun(o, s);
      Merge(o, s[..j], s[j..k]) + Pass(o, s[k..])
  }

  /** The number of output runs one pass counts. */
  function Outputs<E, V(!new)>(o: Order<E, V>, s: seq<E>): nat {
    if s == [] then 0 else 1 + Outputs(o, s[SecondRun(o, s)..])
  }

  // ----- One pass -----

  lemma {:induction false} FirstRunSorted<E, V(!new)>(o: Order<E, V>, s: seq<E>)
    requires o.StrictWeak() && s != []
    ensures Sorted(o, s[..FirstRun(o, s)])
  {
    var r := FirstRun(o, s);
    if r > 1 {
      FirstRunSorted(o, s[1..]);
      var t := s[1..][..r - 1];
      HeadBelow(o, s[0], t);
      SortedCons(o, s[0], t);
      assert s[..r] == [s[0]] + t;
    } else {
      assert |s[..r]| == 1;
    }
  }

  lemma NothingSorted<E, V(!new)>(o: Order<E, V>)
    ensures Sorted(o, [])
  {}

  lemma SecondRunIs<E, V(!new)>(o: Order<E, V>, s: seq<E>)
    requires s != []
    ensures SecondRun(o, s) == FirstRun(o, s)
      + if FirstRun(o, s) == |s| then 0 else FirstRun(o, s[FirstRun(o, s)..])
  {
    hide FirstRun;
  }

  lemma FirstPairSorted<E, V(!new)>(o: Order<E, V>, s: seq<E>)
    requires o.StrictWeak() && s != []
    ensures Sorted(o, s[..FirstRun(o, s)])
    ensures Sorted(o, s[FirstRun(o, s)..SecondRun(o, s)])
  {
    hide Order.StrictWeak, Sorted, FirstRun, SecondRun;
    var j, k := FirstRun(o, s), SecondRun(o, s);
    FirstRunSorted(o, s);
    SecondRunIs(o, s);
    NothingSorted(o);
    if j < |s| {
      FirstRunSorted(o, s[j..]);
      assert s[j..][..k - j] == s[j..k];
    } else {
      assert s[j..k] == [];
    }
  }

  lemma PassOfOneRun<E, V(!new)>(o: Order<E, V>, s: seq<E>)
    requires s != [] && FirstRun(o, s) == |s|
    ensures Pass(o, s) == s && Outputs(o, s) == 1
  {
    assert s[..|s|] == s && s[|s|..] == [];
  }

  /** Where a pass over s stands: what is merged so far, how many runs that
      is, and what is left. */
  ghost predicate MidPass<E, V(!new)>(o: Order<E, V>, s: seq<E>, done: seq<E>, count: nat, rest: seq<E>) {
    Pass(o, s) == done + Pass(o, rest) && Outputs(o, s) == count + Outputs(o, rest)
  }

  lemma MidPassStart<E, V(!new)>(o: Order<E, V>, s: seq<E>)
    ensures MidPass(o, s, [], 0, s)
  {}

  lemma MidPassMerge<E, V(!new)>(o: Order<E, V>, s: seq<E>, done: seq<E>, count: nat, rest: seq<E>)
    requires rest != [] && MidPass(o, s, done, count, rest)
    ensures var j, k := FirstRun(o, rest), SecondRun(o, rest);
      && MidPass(o, s, done + Merge(o, rest[..j], rest[j..k]), count + 1, rest[k..])
      && |Merge(o, rest[..j], rest[j..k])| == k
  {
    var j, k := FirstRun(o, rest), SecondRun(o, rest);
    var m, r := Merge(o, rest[..j], rest[j..k]), Pass(o, rest[k..]);
    assert Pass(o, rest) == m + r;
    assert done + (m + r) == (done + m) + r;
  }

  /** A pass ends at the end of the list, or at a run that has no partner. */
  lemma MidPassEnd<E, V(!new)>(o: Order<E, V>, s: seq<E>, done: seq<E>, count: nat, rest: seq<E>)
    requires rest != [] ==> FirstRun(o, rest) == |rest|
    requires MidPass(o, s, done, count, rest)
    ensures Pass(o, s) == done + rest
    ensures Outputs(o, s) == count + if rest == [] then 0 else 1
  {
    if rest != [] {
      PassOfOneRun(o, rest);
    }
  }

  lemma {:induction false} PassClass<E, V(!new)>(o: Order<E, V>, v: V, s: seq<E>)
    requires o.StrictWeak()
    ensures Class(o, v, Pass(o, s)) == Class(o, v, s)
  {
    if s != [] {
      var j, k := FirstRun(o, s), SecondRun(o, s);
      FirstPairSorted(o, s);
      PassClass(o, v, s[k..]);
      MergeClass(o, v, s[..j], s[j..k]);
      ClassAppend(o, v, Merge(o, s[..j], s[j..k]), Pass(o, s[k..]));
      ClassSplit(o, v, s, j, k);
    }
  }

  /** A pass that counts at most one output run has sorted the list. */
  lemma LastPassSorts<E, V(!new)>(o: Order<E, V>, s: seq<E>)
    requires o.StrictWeak() && Outputs(o, s) <= 1
    ensures Sorted(o, Pass(o, s))
  {
    if s != [] {
      var j, k := FirstRun(o, s), SecondRun(o, s);
      assert s[k..] == [];
      FirstPairSorted(o, s);
      MergeSorted(o, s[..j], s[j..k]);
      assert Pass(o, s) == Merge(o, s[..j], s[j..k]);
    }
  }

  // ----- How fast the runs go away -----

  /** The element at position i is below the one before it. */
  ghost predicate Descent<E, V(!new)>(o: Order<E, V>, s: seq<E>, i: nat) {
    0 < i < |s| && o.lt(o.key(s[i]), o.key(s[i - 1]))
  }

  ghost function Descents<E, V(!new)>(o: Order<E, V>, s: seq<E>, p: nat): set<nat> {
    set i: nat | p < i < |s| && Descent(o, s, i)
  }

  lemma FirstRunStops<E, V(!new)>(o: Order<E, V>, s: seq<E>, p: nat)
    requires p < |s|
    ensures var e := p + FirstRun(o, s[p..]);
      (forall i :: p < i < e ==> !Descent(o, s, i)) && (e < |s| ==> Descent(o, s, e))
    decreases |s| - p
  {
    assert s[p..][1..] == s[p + 1..];
    if p + 1 < |s| && !o.Less(s[p + 1], s[p]) {
      FirstRunStops(o, s, p + 1);
    }
  }

  lemma DescentsFrom<E, V(!new)>(o: Order<E, V>, s: seq<E>, p: nat)
    requires p < |s|
    ensures var e := p + FirstRun(o, s[p..]);
      |Descents(o, s, p)| == if e < |s| then 1 + |Descents(o, s, e)| else 0
  {
    var e := p + FirstRun(o, s[p..]);
    FirstRunStops(o, s, p);
    hide FirstRun, Descent;
    if e < |s| {
      forall i: nat ensures i in Descents(o, s, p) <==> i in Descents(o, s, e) + {e} {}
      assert Descents(o, s, p) == Descents(o, s, e) + {e};
    } else {
      assert Descents(o, s, p) == {};
    }
  }

  lemma {:induction false} RunsFrom<E, V(!new)>(o: Order<E, V>, s: seq<E>, p: nat)
    requires p < |s|
    ensures Runs(o, s[p..]) == 1 + |Descents(o, s, p)|
    decreases |s| - p
  {
    hide FirstRun, Descents;
    var e := p + FirstRun(o, s[p..]);
    DescentsFrom(o, s, p);
    assert s[p..][e - p..] == s[e..];
    if e < |s| {
      RunsFrom(o, s, e);
    } else {
      assert Runs(o, s[e..]) == 0;
    }
  }

  /** There is one run more than there are descents. */
  lemma RunsAreDescents<E, V(!new)>(o: Order<E, V>, s: seq<E>)
    ensures Runs(o, s) == if s == [] then 0 else 1 + |Descents(o, s, 0)|
  {
    if s != [] {
      RunsFrom(o, s, 0);
      assert s[0..] == s;
    }
  }

  /** The pass counter halves the runs it was given. */
  lemma {:induction false} OutputsHalveRuns<E, V(!new)>(o: Order<E, V>, s: seq<E>)
    ensures Outputs(o, s) == (Runs(o, s) + 1) / 2
  {
    if s != [] {
      var j, k := FirstRun(o, s), SecondRun(o, s);
      OutputsHalveRuns(o, s[k..]);
      if j < |s| {
        assert s[j..][k - j..] == s[k..];
        assert Runs(o, s) == 2 + Runs(o, s[k..]);
      }
    }
  }

  /** Putting a sorted stretch in front adds at most one run. */
  lemma {:induction false} RunsAfterSorted<E, V(!new)>(o: Order<E, V>, m: seq<E>, t: seq<E>)
    requires m != [] && Sorted(o, m)
    ensures Runs(o, m + t) <= 1 + Runs(o, t)
    decreases |m|
  {
    var s := m + t;
    if |m| == 1 {
      assert s[1..] == t;
      if t != [] && !o.Less(t[0], m[0]) {
        assert s[FirstRun(o, s)..] == t[FirstRun(o, t)..];
      }
    } else {
      RunsAfterSorted(o, m[1..], t);
      assert s[1..] == m[1..] + t;
      assert !o.Less(m[1], m[0]);
      assert s[FirstRun(o, s)..] == s[1..][FirstRun(o, s[1..])..];
    }
  }

  /** What a pass leaves has no more runs than the pass counted. */
  lemma {:induction false} PassRuns<E, V(!new)>(o: Order<E, V>, s: seq<E>)
    requires o.StrictWeak()
    ensures Runs(o, Pass(o, s)) <= Outputs(o, s)
  {
    if s != [] {
      var j, k := FirstRun(o, s), SecondRun(o, s);
      FirstPairSorted(o, s);
      MergeSorted(o, s[..j], s[j..k]);
      PassRuns(o, s[k..]);
      RunsAfterSorted(o, Merge(o, s[..j], s[j..k]), Pass(o, s[k..]));
    }
  }

  /** One pass leaves at most half of the maximal runs, rounded up. */
  lemma PassHalvesRuns<E, V(!new)>(o: Order<E, V>, s: seq<E>)
    requires o.StrictWeak()
    ensures Runs(o, Pass(o, s)) <= (Runs(o, s) + 1) / 2
  {
    PassRuns(o, s);
    OutputsHalveRuns(o, s);
  }

  /** Least k with 2^k >= n. */
  function CeilLog2(n: nat): nat {
    if n <= 1 then 0 else 1 + CeilLog2((n + 1) / 2)
  }

  function Power2(k: nat): (p: nat)
    ensures p >= 1
  {
    if k == 0 then 1 else 2 * Power2(k - 1)
  }

  lemma {:induction false} CeilLog2Least(n: nat)
    ensures n <= Power2(CeilLog2(n))
    ensures n > 1 ==> Power2(CeilLog2(n) - 1) < n
  {
    if n > 1 {
      CeilLog2Least((n + 1) / 2);
    }
  }

  lemma {:induction false} CeilLog2Monotone(m: nat, n: nat)
    requires m <= n
    ensures CeilLog2(m) <= CeilLog2(n)
  {
    if m > 1 {
      CeilLog2Monotone((m + 1) / 2, (n + 1) / 2);
    }
  }

  /** Number of passes the sort makes: it always makes one, and stops after
      the first that counts at most one output run. */
  ghost function Passes<E, V(!new)>(o: Order<E, V>, s: seq<E>): nat
    requires o.StrictWeak()
    decreases Runs(o, s)
  {
    if Outputs(o, s) <= 1 then 1
    else
      PassRuns(o, s);
      OutputsHalveRuns(o, s);
      1 + Passes(o, Pass(o, s))
  }

  /** One pass at least, and otherwise the logarithm of the number of runs. */
  function PassBound(runs: nat): nat {
    if runs <= 2 then 1 else CeilLog2(runs)
  }

  lemma PassBoundIs(runs: nat)
    ensures PassBound(runs) == if runs <= 2 then 1 else CeilLog2(runs)
  {
    assert CeilLog2(2) == 1 + CeilLog2(1);
  }

  lemma PassBoundStep(runs: nat, left: nat)
    requires runs > 2 && left <= (runs + 1) / 2
    ensures 1 + PassBound(left) <= PassBound(runs)
  {
    CeilLog2Monotone(left, (runs + 1) / 2);
    CeilLog2Monotone(2, (runs + 1) / 2);
  }

  lemma {:induction false} PassesBound<E, V(!new)>(o: Order<E, V>, s: seq<E>)
    requires o.StrictWeak()
    ensures Passes(o, s) <= PassBound(Runs(o, s))
    decreases Runs(o, s)
  {
    OutputsHalveRuns(o, s);
    if Outputs(o, s) > 1 {
      PassRuns(o, s);
      PassesBound(o, Pass(o, s));
      PassBoundStep(Runs(o, s), Runs(o, Pass(o, s)));
    }
  }

  // ----- The whole sort -----

  ghost function NaturalSort<E, V(!new)>(o: Order<E, V>, s: seq<E>): seq<E>
    requires o.StrictWeak()
    decreases Runs(o, s)
  {
    if Outputs(o, s) <= 1 then Pass(o, s)
    else
      PassRuns(o, s);
      OutputsHalveRuns(o, s);
      NaturalSort(o, Pass(o, s))
  }

  lemma {:induction false} NaturalSortCorrect<E, V(!new)>(o: Order<E, V>, s: seq<E>)
    requires o.StrictWeak()
    ensures Sorted(o, NaturalSort(o, s))
    ensures StablePermutation(o, s, NaturalSort(o, s))
    decreases Runs(o, s)
  {
    forall v ensures Class(o, v, Pass(o, s)) == Class(o, v, s) {
      PassClass(o, v, s);
    }
    if Outputs(o, s) <= 1 {
      LastPassSorts(o, s);
    } else {
      PassRuns(o, s);
      OutputsHalveRuns(o, s);
      NaturalSortCorrect(o, Pass(o, s));
    }
  }

  /** The fast sort refines the simple one: merging natural runs and inserting
      one element at a time give the same list, element for element. */
  lemma NaturalSortIsInsertionSort<E, V(!new)>(o: Order<E, V>, s: seq<E>)
    requires o.StrictWeak()
    ensures NaturalSort(o, s) == InsertionSort(o, s)
  {
    NaturalSortCorrect(o, s);
    StableSortIsInsertionSort(o, s, NaturalSort(o, s));
  }
}
