/** A shared counter whose limit is tested outside the lock that guards it. */
module Counter {

  /** Where a thread of threadfun is: about to test, past the test and about to
      take the lock, or done. */
  datatype Where = Testing | Passed | Gone

  datatype State = State(global: int, at: seq<Where>, counts: seq<int>)

  ghost function Start(threads: nat): State {
    State(0, seq(threads, _ => Testing), seq(threads, _ => 0))
  }

  ghost predicate CanStep(s: State, t: nat) {
    t < |s.at| == |s.counts| && s.at[t] != Gone
  }

  /** Thread t reads the counter, or does its locked increments. */
  ghost function Step(s: State, limit: int, t: nat): State
    requires CanStep(s, t)
  {
    if s.at[t] == Testing then
      s.(at := s.at[t := if s.global < limit then Passed else Gone])
    else
      State(s.global + 1, s.at[t := Testing], s.counts[t := s.counts[t] + 1])
  }

  ghost predicate Possible(s: State, limit: int, schedule: seq<nat>)
    decreases |schedule|
  {
    schedule == [] || (CanStep(s, schedule[0]) && Possible(Step(s, limit, schedule[0]), limit, schedule[1..]))
  }

  ghost function After(s: State, limit: int, schedule: seq<nat>): State
    requires Possible(s, limit, schedule)
    decreases |schedule|
  {
    if schedule == [] then s else After(Step(s, limit, schedule[0]), limit, schedule[1..])
  }

  ghost predicate Finished(s: State) {
    forall t :: 0 <= t < |s.at| ==> s.at[t] == Gone
  }

  ghost function Sum(counts: seq<int>): int {
    if counts == [] then 0 else counts[0] + Sum(counts[1..])
  }

  /** How many threads are at w. */
  ghost function HowMany(at: seq<Where>, w: Where): nat {
    if at == [] then 0 else (if at[0] == w then 1 else 0) + HowMany(at[1..], w)
  }

  lemma {:induction false} SumUpdate(counts: seq<int>, t: nat, c: int)
    requires t < |counts|
    ensures Sum(counts[t := c]) == Sum(counts) - counts[t] + c
  {
    if t == 0 {
      assert counts[0 := c][1..] == counts[1..];
    } else {
      SumUpdate(counts[1..], t - 1, c);
      assert counts[t := c][1..] == counts[1..][t - 1 := c];
    }
  }

  lemma {:induction false} HowManyUpdate(at: seq<Where>, t: nat, v: Where, w: Where)
    requires t < |at|
    ensures HowMany(at[t := v], w) == HowMany(at, w) - (if at[t] == w then 1 else 0) + (if v == w then 1 else 0)
  {
    if t == 0 {
      assert at[0 := v][1..] == at[1..];
    } else {
      HowManyUpdate(at[1..], t - 1, v, w);
      assert at[t := v][1..] == at[1..][t - 1 := v];
    }
  }

  lemma {:induction false} HowManyAtMost(at: seq<Where>)
    ensures HowMany(at, Passed) + HowMany(at, Gone) <= |at|
    ensures HowMany(at, Gone) == |at| <==> forall t :: 0 <= t < |at| ==> at[t] == Gone
  {
    if at != [] {
      HowManyAtMost(at[1..]);
      assert forall t :: 0 < t < |at| ==> at[t] == at[1..][t - 1];
    }
  }

  /** The threads' counts make up the counter; whoever is past the test may
      still add one, but one thread fewer than all can be ahead of the limit;
      and nobody leaves before the limit is reached. */
  ghost predicate Inv(s: State, limit: int, threads: nat) {
    && |s.at| == |s.counts| == threads
    && Sum(s.counts) == s.global >= 0
    && (limit >= 1 ==> s.global + HowMany(s.at, Passed) <= limit + threads - 1)
    && (limit < 1 ==> s.global == HowMany(s.at, Passed) == 0)
    && (HowMany(s.at, Gone) > 0 ==> s.global >= limit)
  }

  lemma StepKeepsInv(s: State, limit: int, threads: nat, t: nat)
    requires Inv(s, limit, threads) && CanStep(s, t)
    ensures Inv(Step(s, limit, t), limit, threads)
  {
    hide Sum, HowMany;
    HowManyAtMost(s.at);
    var v := if s.at[t] == Passed then Testing else if s.global < limit then Passed else Gone;
    SumUpdate(s.counts, t, s.counts[t] + 1);
    HowManyUpdate(s.at, t, v, Passed);
    HowManyUpdate(s.at, t, v, Gone);
    HowManyAtMost(s.at[t := v]);
  }

  lemma StartInv(limit: int, threads: nat)
    requires threads >= 1
    ensures Inv(Start(threads), limit, threads)
  {
    NothingYet(threads);
  }

  lemma {:induction false} NothingYet(threads: nat)
    ensures Sum(Start(threads).counts) == 0
    ensures HowMany(Start(threads).at, Passed) == HowMany(Start(threads).at, Gone) == 0
  {
    if threads > 0 {
      NothingYet(threads - 1);
      assert Start(threads).counts[1..] == Start(threads - 1).counts;
      assert Start(threads).at[1..] == Start(threads - 1).at;
    }
  }

  lemma {:induction false} RunKeepsInv(s: State, limit: int, threads: nat, schedule: seq<nat>)
    requires Inv(s, limit, threads) && Possible(s, limit, schedule)
    ensures Inv(After(s, limit, schedule), limit, threads)
    decreases |schedule|
  {
    hide Inv;
    if schedule != [] {
      StepKeepsInv(s, limit, threads, schedule[0]);
      RunKeepsInv(Step(s, limit, schedule[0]), limit, threads, schedule[1..]);
    }
  }

  /** The steps taken so far: two for each count, one for each thread past the
      test, one for each that has left. */
  ghost function Taken(s: State): int {
    2 * s.global + HowMany(s.at, Passed) + HowMany(s.at, Gone)
  }

  lemma StepTaken(s: State, limit: int, t: nat)
    requires CanStep(s, t)
    ensures Taken(Step(s, limit, t)) == Taken(s) + 1
  {
    hide HowMany;
    var v := if s.at[t] == Passed then Testing else if s.global < limit then Passed else Gone;
    HowManyUpdate(s.at, t, v, Passed);
    HowManyUpdate(s.at, t, v, Gone);
  }

  lemma {:induction false} RunTaken(s: State, limit: int, schedule: seq<nat>)
    requires Possible(s, limit, schedule)
    ensures Taken(After(s, limit, schedule)) == Taken(s) + |schedule|
    decreases |schedule|
  {
    hide Taken;
    if schedule != [] {
      StepTaken(s, limit, schedule[0]);
      RunTaken(Step(s, limit, schedule[0]), limit, schedule[1..]);
    }
  }

  /** How many of the scheduled steps are increments made by thread t. */
  ghost function Increments(s: State, limit: int, schedule: seq<nat>, t: nat): nat
    requires Possible(s, limit, schedule)
    decreases |schedule|
  {
    if schedule == [] then 0
    else
      var now := if schedule[0] == t && s.at[t] == Passed then 1 else 0;
      now + Increments(Step(s, limit, schedule[0]), limit, schedule[1..], t)
  }

  /** A thread's count is the number of increments it made itself. */
  lemma {:induction false} OwnCounts(s: State, limit: int, schedule: seq<nat>, t: nat)
    requires Possible(s, limit, schedule) && t < |s.at| == |s.counts|
    ensures t < |After(s, limit, schedule).counts|
    ensures After(s, limit, schedule).counts[t] == s.counts[t] + Increments(s, limit, schedule, t)
    decreases |schedule|
  {
    if schedule != [] {
      OwnCounts(Step(s, limit, schedule[0]), limit, schedule[1..], t);
    }
  }

  /** In every interleaving the threads' counts add up to the counter, which
      ends at the limit or at most one count for each other thread above it.
      The number of steps follows from the state, so that no run goes on for ever. */
  lemma CountsAndOvershoot(limit: int, threads: nat, schedule: seq<nat>)
    requires threads >= 1 && Possible(Start(threads), limit, schedule)
    ensures var s := After(Start(threads), limit, schedule);
      && Sum(s.counts) == s.global
      && (limit >= 1 ==> s.global <= limit + threads - 1)
      && (limit < 1 ==> s.global == 0)
      && (limit >= 1 && Finished(s) ==> limit <= s.global <= limit + threads - 1)
      && |schedule| == Taken(s)
      && |schedule| <= (if limit >= 1 then 2 * (limit + threads - 1) else 0) + threads
      && (Finished(s) ==> |schedule| == 2 * s.global + threads)
  {
    hide Sum, HowMany;
    StartInv(limit, threads);
    NothingYet(threads);
    RunTaken(Start(threads), limit, schedule);
    RunKeepsInv(Start(threads), limit, threads, schedule);
    HowManyAtMost(After(Start(threads), limit, schedule).at);
  }

  // ----- Every value within the bounds is reached -----

  lemma {:induction false} PossibleConcat(s: State, limit: int, a: seq<nat>, b: seq<nat>)
    requires Possible(s, limit, a) && Possible(After(s, limit, a), limit, b)
    ensures Possible(s, limit, a + b)
    ensures After(s, limit, a + b) == After(After(s, limit, a), limit, b)
    decreases |a|
  {
    if a == [] {
      assert a + b == b;
    } else {
      assert (a + b)[1..] == a[1..] + b;
      PossibleConcat(Step(s, limit, a[0]), limit, a[1..], b);
    }
  }

  lemma PossibleCons(s: State, limit: int, t: nat, rest: seq<nat>)
    requires CanStep(s, t) && Possible(Step(s, limit, t), limit, rest)
    ensures Possible(s, limit, [t] + rest)
    ensures After(s, limit, [t] + rest) == After(Step(s, limit, t), limit, rest)
  {
    assert ([t] + rest)[1..] == rest;
  }

  /** Thread 0 counts n times on its own. */
  lemma {:induction false} Alone(s: State, limit: int, n: nat) returns (run: seq<nat>)
    requires |s.at| == |s.counts| >= 1 && s.at[0] == Testing && s.global + n <= limit
    ensures Possible(s, limit, run)
    ensures var r := After(s, limit, run); r.at == s.at && |r.counts| == |s.counts| && r.global == s.global + n
    decreases n
  {
    if n == 0 {
      run := [];
    } else {
      var s' := Step(s, limit, 0);
      var s'' := Step(s', limit, 0);
      assert s''.at == s.at;
      run := Alone(s'', limit, n - 1);
      PossibleCons(s', limit, 0, run);
      PossibleCons(s, limit, 0, [0] + run);
      run := [0] + ([0] + run);
    }
  }

  /** Threads t to k - 1 take one step each, all from w to v. */
  lemma {:induction false} Sweep(s: State, limit: int, t: nat, k: nat, w: Where, v: Where) returns (run: seq<nat>)
    requires t <= k <= |s.at| == |s.counts| && forall i :: t <= i < k ==> s.at[i] == w
    requires if w == Testing then v == (if s.global < limit then Passed else Gone) else w == Passed && v == Testing
    ensures Possible(s, limit, run)
    ensures var r := After(s, limit, run);
      && |r.at| == |r.counts| == |s.at|
      && (forall i :: 0 <= i < |s.at| ==> r.at[i] == if t <= i < k then v else s.at[i])
      && r.global == s.global + if w == Passed then k - t else 0
    decreases k - t
  {
    if t == k {
      run := [];
    } else {
      run := Sweep(Step(s, limit, t), limit, t + 1, k, w, v);
      PossibleCons(s, limit, t, run);
      run := [t] + run;
    }
  }

  /** A run that ends with the counter at g: one thread counts to just below
      the limit, then g - limit + 1 threads pass the test together. */
  lemma RunTo(limit: int, threads: nat, g: int) returns (run: seq<nat>)
    requires limit >= 1 && limit <= g <= limit + threads - 1
    ensures Possible(Start(threads), limit, run)
    ensures Finished(After(Start(threads), limit, run)) && After(Start(threads), limit, run).global == g
  {
    hide After, Possible;
    var k := g - limit + 1;
    var s := Start(threads);
    var alone := Alone(s, limit, limit - 1);
    var s1 := After(s, limit, alone);
    var test := Sweep(s1, limit, 0, k, Testing, Passed);
    var s2 := After(s1, limit, test);
    var add := Sweep(s2, limit, 0, k, Passed, Testing);
    var s3 := After(s2, limit, add);
    var leave := Sweep(s3, limit, 0, threads, Testing, Gone);
    PossibleConcat(s2, limit, add, leave);
    PossibleConcat(s1, limit, test, add + leave);
    PossibleConcat(s, limit, alone, test + (add + leave));
    run := alone + (test + (add + leave));
  }

  /** The values the counter can end with are exactly the limit and up to one
      more for each other thread. */
  lemma FinalValues(limit: int, threads: nat, g: int)
    requires limit >= 1 && threads >= 1
    ensures limit <= g <= limit + threads - 1 <==>
      exists run :: Possible(Start(threads), limit, run)
        && Finished(After(Start(threads), limit, run)) && After(Start(threads), limit, run).global == g
  {
    hide After, Possible, Finished;
    if limit <= g <= limit + threads - 1 {
      var run := RunTo(limit, threads, g);
    }
    forall run | Possible(Start(threads), limit, run)
      && Finished(After(Start(threads), limit, run)) && After(Start(threads), limit, run).global == g
      ensures limit <= g <= limit + threads - 1
    {
      CountsAndOvershoot(limit, threads, run);
    }
  }
}
