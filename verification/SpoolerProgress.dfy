/** Progress of the spooler: no stuck state short of the end, exactly when the
    shutdown broadcast does not miss a consumer about to sleep; and, with two
    condition variables, a bound on every run. */
module SpoolerProgress {
  import opened Options
  import opened Ring
  import opened Spooler

  // ----- Counting threads by status -----

  ghost function Count<T>(s: seq<T>, f: T -> bool): nat {
    if s == [] then 0 else Count(s[..|s| - 1], f) + if f(s[|s| - 1]) then 1 else 0
  }

  lemma {:induction false} CountUpdate<T>(s: seq<T>, i: nat, x: T, f: T -> bool)
    requires i < |s|
    ensures Count(s[i := x], f) + (if f(s[i]) then 1 else 0) == Count(s, f) + (if f(x) then 1 else 0)
    decreases |s|
  {
    var n := |s| - 1;
    if i == n {
      assert s[i := x][..n] == s[..n];
    } else {
      CountUpdate(s[..n], i, x, f);
      assert s[i := x][..n] == s[..n][i := x];
    }
  }

  /** More elements satisfy h in t than f in s, strictly so when one is new. */
  lemma {:induction false} CountGrows<T>(s: seq<T>, f: T -> bool, t: seq<T>, h: T -> bool)
    requires |s| == |t| && forall i :: 0 <= i < |s| && f(s[i]) ==> h(t[i])
    ensures Count(s, f) <= Count(t, h)
    ensures (exists i :: 0 <= i < |s| && !f(s[i]) && h(t[i])) ==> Count(s, f) < Count(t, h)
    decreases |s|
  {
    if s != [] {
      CountGrows(s[..|s| - 1], f, t[..|t| - 1], h);
    }
  }

  lemma {:induction false} CountZero<T>(s: seq<T>, f: T -> bool)
    ensures Count(s, f) == 0 <==> forall i :: 0 <= i < |s| ==> !f(s[i])
    decreases |s|
  {
    if s != [] {
      CountZero(s[..|s| - 1], f);
    }
  }

  lemma {:induction false} CountBound<T>(s: seq<T>, f: T -> bool)
    ensures Count(s, f) <= |s|
    decreases |s|
  {
    if s != [] {
      CountBound(s[..|s| - 1], f);
    }
  }

  predicate Active(c: Consumer) {
    c == Ready || c == Committed
  }

  predicate Sleeps(c: Consumer) {
    c == Waiting
  }

  predicate SleepsP(p: Producer) {
    p.waiting
  }

  ghost function ActiveP(g: Config): Producer -> bool {
    (p: Producer) => !p.waiting && p.done < g.strings
  }

  // ----- Two condition variables -----

  function Used(s: State): int {
    s.ring.Size() - s.ring.capacity
  }

  /** A consumer sleeps only while the awake ones can take every item. */
  ghost predicate ConsumersEnough(s: State) {
    WaitingConsumers(s) != {} ==> Used(s) <= Count(s.cons, Active)
  }

  /** A producer sleeps only while the awake ones can fill every free slot. */
  ghost predicate ProducersEnough(g: Config, s: State) {
    WaitingProducers(s) != {} ==> s.ring.capacity <= Count(s.prods, ActiveP(g))
  }

  lemma WakeConsumersCount(s: State, w: set<nat>)
    requires w <= WaitingConsumers(s)
    ensures Count(s.cons, Active) <= Count(WakeConsumers(s.cons, w), Active)
    ensures w != {} ==> Count(s.cons, Active) < Count(WakeConsumers(s.cons, w), Active)
  {
    var t := WakeConsumers(s.cons, w);
    if w != {} {
      var i :| i in w;
      assert !Active(s.cons[i]) && Active(t[i]);
    }
    CountGrows(s.cons, Active, t, Active);
  }

  lemma WakeProducersCount(g: Config, s: State, w: set<nat>)
    requires Histories(g, s.inserted, s.prods) && w <= WaitingProducers(s)
    ensures Count(s.prods, ActiveP(g)) <= Count(WakeProducers(s.prods, w), ActiveP(g))
    ensures w != {} ==> Count(s.prods, ActiveP(g)) < Count(WakeProducers(s.prods, w), ActiveP(g))
  {
    var t, f := WakeProducers(s.prods, w), ActiveP(g);
    if w != {} {
      var i :| i in w;
      assert !f(s.prods[i]) && f(t[i]);
    }
    CountGrows(s.prods, f, t, f);
  }

  lemma SafeParts(g: Config, s: State)
    requires Safe(g, s)
    ensures s.ring.Valid() && LockOk(s) && Histories(g, s.inserted, s.prods)
  {}

  /** What a step does to the number of free slots. */
  lemma CapacityStep(g: Config, s: State, a: Action)
    requires s.ring.Valid() && Enabled(g, s, a)
    ensures var t := Next(g, s, a);
      && t.ring.Size() == s.ring.Size()
      && t.ring.capacity ==
           (if a.Insert? then s.ring.capacity - 1
            else if a.Remove? && !s.ring.Empty() then s.ring.capacity + 1
            else s.ring.capacity)
  {
    hide Signals, LockFree, WakeProducers, WakeConsumers;
  }

  /** Waking consumers, on behalf of at most one more item. */
  lemma WokenConsumersEnough(s: State, t: State, w: set<nat>)
    requires ConsumersEnough(s) && w <= WaitingConsumers(s) && (w == {} ==> WaitingConsumers(s) == {})
    requires t.cons == WakeConsumers(s.cons, w) && Used(t) <= Used(s) + 1
    ensures ConsumersEnough(t)
  {
    WakeConsumersCount(s, w);
    forall i | i in WaitingConsumers(t) ensures i in WaitingConsumers(s) {}
  }

  lemma SameConsumersEnough(s: State, t: State)
    requires ConsumersEnough(s) && t.cons == s.cons && Used(t) <= Used(s)
    ensures ConsumersEnough(t)
  {
    assert WaitingConsumers(t) == WaitingConsumers(s);
  }

  lemma CommitConsumersEnough(s: State, t: State, c: nat)
    requires ConsumersEnough(s) && c < |s.cons| && s.cons[c] == Ready
    requires t.cons == s.cons[c := Committed] && Used(t) == Used(s)
    ensures ConsumersEnough(t)
  {
    CountUpdate(s.cons, c, Committed, Active);
    assert WaitingConsumers(t) == WaitingConsumers(s);
  }

  lemma StepConsumersEnough(g: Config, s: State, a: Action)
    requires g.twoCvs && s.ring.Valid() && LockOk(s) && Enabled(g, s, a) && ConsumersEnough(s)
    ensures ConsumersEnough(Next(g, s, a))
  {
    CapacityStep(g, s, a);
    hide Ring.Contents, Ring.InsertUnchecked, Ring.RemoveUnchecked, LockFree, Count;
    var t := Next(g, s, a);
    assert WakeConsumers(s.cons, {}) == s.cons;
    match a {
      case Insert(p, w) => hide ConsumersEnough; WokenConsumersEnough(s, t, w.cons);
      case WaitFull(p, w) => hide ConsumersEnough; WokenConsumersEnough(s, t, w.cons);
      case Remove(c, w) =>
        if !s.ring.Empty() {
          hide ConsumersEnough;
          SameConsumersEnough(s, t);
        }
      case Commit(c) => hide ConsumersEnough; CommitConsumersEnough(s, t, c);
      case WaitEmpty(c, w) =>
      case Shutdown => hide ConsumersEnough; SameConsumersEnough(s, t);
      case Broadcast => assert WaitingConsumers(t) == {};
      case SpuriousProducer(p) => hide ConsumersEnough; SameConsumersEnough(s, t);
      case SpuriousConsumer(c) => hide ConsumersEnough; WokenConsumersEnough(s, t, {c});
    }
  }

  lemma WokenProducersEnough(g: Config, s: State, t: State, w: set<nat>)
    requires ProducersEnough(g, s) && Histories(g, s.inserted, s.prods)
    requires w <= WaitingProducers(s) && (w == {} ==> WaitingProducers(s) == {})
    requires t.prods == WakeProducers(s.prods, w) && t.ring.capacity <= s.ring.capacity + 1
    ensures ProducersEnough(g, t)
  {
    WakeProducersCount(g, s, w);
    forall i | i in WaitingProducers(t) ensures i in WaitingProducers(s) {}
  }

  lemma SameProducersEnough(g: Config, s: State, t: State)
    requires ProducersEnough(g, s) && t.prods == s.prods && t.ring.capacity == s.ring.capacity
    ensures ProducersEnough(g, t)
  {
    assert WaitingProducers(t) == WaitingProducers(s);
  }

  lemma InsertProducersEnough(g: Config, s: State, t: State, p: nat)
    requires ProducersEnough(g, s) && p < |s.prods| && ActiveP(g)(s.prods[p])
    requires t.prods == s.prods[p := Producer(s.prods[p].done + 1, false)]
    requires t.ring.capacity == s.ring.capacity - 1
    ensures ProducersEnough(g, t)
  {
    CountUpdate(s.prods, p, Producer(s.prods[p].done + 1, false), ActiveP(g));
    forall i | i in WaitingProducers(t) ensures i in WaitingProducers(s) {}
  }

  /** What a step does to the producers when they wait on a variable of their own. */
  lemma ProducersAfter(g: Config, s: State, a: Action)
    requires g.twoCvs && Enabled(g, s, a)
    ensures var ps := Next(g, s, a).prods;
      match a
      case Insert(p, w) => ProducerReady(g, s, p) && ps == s.prods[p := Producer(s.prods[p].done + 1, false)]
      case WaitFull(p, w) =>
        ProducerReady(g, s, p) && s.ring.Full() && ps == s.prods[p := Producer(s.prods[p].done, true)]
      case Remove(c, w) => ps == WakeProducers(s.prods, w.prods) && SignalsProducers(s, w.prods)
      case WaitEmpty(c, w) => ps == WakeProducers(s.prods, w.prods) && SignalsProducers(s, w.prods)
      case SpuriousProducer(p) => ps == WakeProducers(s.prods, {p}) && SignalsProducers(s, {p})
      case _ => ps == s.prods
  {
    hide Ring.InsertUnchecked, Ring.RemoveUnchecked, LockFree;
    assert WakeProducers(s.prods, {}) == s.prods;
  }

  ghost predicate SignalsProducers(s: State, w: set<nat>) {
    w <= WaitingProducers(s) && (w == {} ==> WaitingProducers(s) == {})
  }

  lemma StepProducersEnough(g: Config, s: State, a: Action)
    requires g.twoCvs && s.ring.Valid() && Histories(g, s.inserted, s.prods) && Enabled(g, s, a)
    requires ProducersEnough(g, s)
    ensures ProducersEnough(g, Next(g, s, a))
  {
    hide Next, Enabled, Count, Histories, ProducersEnough, WakeProducers;
    CapacityStep(g, s, a);
    ProducersAfter(g, s, a);
    var t := Next(g, s, a);
    match a {
      case Insert(p, w) => InsertProducersEnough(g, s, t, p);
      case WaitFull(p, w) => FullProducersEnough(g, t);
      case Remove(c, w) => WokenProducersEnough(g, s, t, w.prods);
      case Commit(c) => SameProducersEnough(g, s, t);
      case WaitEmpty(c, w) => WokenProducersEnough(g, s, t, w.prods);
      case Shutdown => SameProducersEnough(g, s, t);
      case Broadcast => SameProducersEnough(g, s, t);
      case SpuriousProducer(p) => WokenProducersEnough(g, s, t, {p});
      case SpuriousConsumer(c) => SameProducersEnough(g, s, t);
    }
  }

  lemma FullProducersEnough(g: Config, s: State)
    requires s.ring.capacity == 0
    ensures ProducersEnough(g, s)
  {}

  // ----- Stuck states -----

  /** No thread can take a step, other than by waking up for no reason. */
  ghost predicate Stuck(g: Config, s: State) {
    forall a :: Enabled(g, s, a) ==> a.Spurious()
  }

  /** In a stuck state nobody is awake. */
  lemma StuckAsleep(g: Config, s: State)
    requires Stuck(g, s)
    ensures forall c :: 0 <= c < |s.cons| ==> s.cons[c] == Waiting || s.cons[c] == Finished
    ensures forall p :: 0 <= p < |s.prods| ==> !ProducerReady(g, s, p)
    ensures ProducersDone(g, s) ==> s.shutdown && s.broadcast
  {
    var on, pro := OnConCv(g, s), OnProCv(g, s);
    forall c | 0 <= c < |s.cons| ensures s.cons[c] != Committed {
      assert Enabled(g, s, WaitEmpty(c, pro)) || s.cons[c] != Committed;
    }
    forall c | 0 <= c < |s.cons| ensures s.cons[c] != Ready {
      assert Enabled(g, s, Remove(c, pro)) || Enabled(g, s, Commit(c)) || s.cons[c] != Ready;
    }
    forall p | 0 <= p < |s.prods| ensures !ProducerReady(g, s, p) {
      assert Enabled(g, s, Insert(p, on)) || Enabled(g, s, WaitFull(p, on)) || !ProducerReady(g, s, p);
    }
    if ProducersDone(g, s) {
      assert Enabled(g, s, Shutdown) || s.shutdown;
      assert s.shutdown ==> Enabled(g, s, Broadcast) || s.broadcast;
    }
  }

  /** If somebody still has to produce, a stuck state has all such threads
      asleep, and all consumers too. */
  lemma StuckWhileProducing(g: Config, s: State) returns (p: nat)
    requires Safe(g, s) && Stuck(g, s) && !ProducersDone(g, s)
    ensures p < |s.prods| && s.prods[p].waiting
    ensures forall c :: 0 <= c < |s.cons| ==> s.cons[c] == Waiting
  {
    StuckAsleep(g, s);
    p :| p < |s.prods| && s.prods[p].done != g.strings;
    assert !ProducerReady(g, s, p);
  }

  /** With two condition variables, a state that no run can leave has everybody
      done, unless the broadcast was lost on a consumer about to sleep. */
  lemma TwoCvStuckIsFinal(g: Config, s: State)
    requires g.Valid() && g.twoCvs && g.consumers >= 1 && Safe(g, s)
    requires ConsumersEnough(s) && ProducersEnough(g, s)
    requires Stuck(g, s) && !s.lost
    ensures Final(g, s)
  {
    StuckAsleep(g, s);
    NoneActive(g, s);
    assert forall p :: 0 <= p < |s.prods| && s.prods[p].waiting ==> p in WaitingProducers(s);
    assert s.cons[0] == Waiting ==> 0 in WaitingConsumers(s);
    if !ProducersDone(g, s) {
      var p := StuckWhileProducing(g, s);
      assert false;
    }
  }

  lemma NoneActive(g: Config, s: State)
    requires Stuck(g, s)
    ensures Count(s.prods, ActiveP(g)) == 0 && Count(s.cons, Active) == 0
  {
    StuckAsleep(g, s);
    CountZero(s.prods, ActiveP(g));
    CountZero(s.cons, Active);
    assert forall p :: 0 <= p < |s.prods| ==> !ProducerReady(g, s, p) ==> !ActiveP(g)(s.prods[p]);
  }

  // ----- The lost broadcast -----

  /** Once the broadcast is lost on a consumer, that consumer never finishes. */
  ghost predicate LostSleeper(s: State) {
    s.lost ==> exists c :: 0 <= c < |s.cons| && Missed(s.cons[c])
  }

  lemma StepLostSleeper(g: Config, s: State, a: Action)
    requires g.twoCvs || g.consumers == 1
    requires Safe(g, s) && LostSleeper(s) && Enabled(g, s, a) && !a.Spurious()
    ensures LostSleeper(Next(g, s, a))
  {
    hide Ring.Contents, Ring.InsertUnchecked, Ring.RemoveUnchecked, Histories, Count;
    var t := Next(g, s, a);
    if a.Broadcast? {
      if Committed in s.cons {
        var c :| 0 <= c < |s.cons| && s.cons[c] == Committed;
        assert Missed(t.cons[c]);
      }
    } else if s.lost {
      var c :| 0 <= c < |s.cons| && Missed(s.cons[c]);
      assert !a.Insert? && !a.WaitFull? && !a.Shutdown? && !a.Commit?;
      if a.WaitEmpty? {
        assert Missed(t.cons[a.c]);
      } else {
        assert a.Remove? && g.twoCvs;
        assert Missed(t.cons[c]);
      }
    }
  }

  // ----- One condition variable -----

  /** At most one thread, of either kind, waits on the condition variable. */
  ghost predicate OneSleeper(s: State) {
    Count(s.prods, SleepsP) + Count(s.cons, Sleeps) <= 1
  }

  predicate Missed(c: Consumer) {
    c == Committed || c == Waiting
  }

  /** After the broadcast, beside a consumer that missed it everybody is awake. */
  ghost predicate OthersAwake(s: State) {
    s.broadcast ==>
      forall i, j :: 0 <= i < |s.cons| && 0 <= j < |s.cons| && i != j && Missed(s.cons[i]) ==> s.cons[j] == Ready
  }

  /** A signal under the lock leaves nobody asleep, if at most one was. */
  lemma SignalWakesTheOne(s: State, w: Woken)
    requires OneSleeper(s) && Signals(Woken(WaitingProducers(s), WaitingConsumers(s)), w)
    ensures Count(WakeProducers(s.prods, w.prods), SleepsP) == 0
    ensures Count(WakeConsumers(s.cons, w.cons), Sleeps) == 0
  {
    var ps, cs := WakeProducers(s.prods, w.prods), WakeConsumers(s.cons, w.cons);
    CountGrows(ps, SleepsP, s.prods, SleepsP);
    CountGrows(cs, Sleeps, s.cons, Sleeps);
    if w.prods != {} {
      var p :| p in w.prods;
      assert !SleepsP(ps[p]) && SleepsP(s.prods[p]);
    } else if w.cons != {} {
      var c :| c in w.cons;
      assert !Sleeps(cs[c]) && Sleeps(s.cons[c]);
    } else {
      assert forall p :: 0 <= p < |s.prods| && SleepsP(s.prods[p]) ==> p in WaitingProducers(s);
      assert forall c :: 0 <= c < |s.cons| && Sleeps(s.cons[c]) ==> c in WaitingConsumers(s);
      CountZero(s.prods, SleepsP);
      CountZero(s.cons, Sleeps);
    }
  }

  /** A producer that signals and then sleeps or works. */
  lemma ProducerOneSleeper(s: State, t: State, w: Woken, p: nat, x: Producer)
    requires OneSleeper(s) && Signals(Woken(WaitingProducers(s), WaitingConsumers(s)), w) && p < |s.prods|
    requires t.prods == WakeProducers(s.prods, w.prods)[p := x] && t.cons == WakeConsumers(s.cons, w.cons)
    ensures OneSleeper(t)
  {
    hide Count, Signals;
    SignalWakesTheOne(s, w);
    CountUpdate(WakeProducers(s.prods, w.prods), p, x, SleepsP);
  }

  /** A consumer that signals and then sleeps or works. */
  lemma ConsumerOneSleeper(s: State, t: State, w: Woken, c: nat, x: Consumer)
    requires OneSleeper(s) && Signals(Woken(WaitingProducers(s), WaitingConsumers(s)), w) && c < |s.cons|
    requires t.prods == WakeProducers(s.prods, w.prods)
    requires t.cons == WakeConsumers(s.cons, w.cons)[c := x] || t.cons == WakeConsumers(s.cons, w.cons)
    ensures OneSleeper(t)
  {
    hide Count, Signals;
    SignalWakesTheOne(s, w);
    CountUpdate(WakeConsumers(s.cons, w.cons), c, x, Sleeps);
  }

  lemma WokenOneSleeper(s: State, t: State, w: Woken)
    requires OneSleeper(s)
    requires t.prods == WakeProducers(s.prods, w.prods) && t.cons == WakeConsumers(s.cons, w.cons)
    ensures OneSleeper(t)
  {
    hide Count;
    CountGrows(t.prods, SleepsP, s.prods, SleepsP);
    CountGrows(t.cons, Sleeps, s.cons, Sleeps);
  }

  lemma CommitOneSleeper(s: State, t: State, c: nat)
    requires OneSleeper(s) && c < |s.cons| && t.prods == s.prods && t.cons == s.cons[c := Committed]
    ensures OneSleeper(t)
  {
    hide Count;
    CountUpdate(s.cons, c, Committed, Sleeps);
  }

  /** Who is asleep after a step when there is one condition variable. */
  lemma SleepersAfter(g: Config, s: State, a: Action)
    requires !g.twoCvs && Enabled(g, s, a)
    ensures var t := Next(g, s, a);
      var all := Woken(WaitingProducers(s), WaitingConsumers(s));
      match a
      case Insert(p, w) =>
        p < |s.prods| && Signals(all, w) && t.cons == WakeConsumers(s.cons, w.cons)
        && t.prods == WakeProducers(s.prods, w.prods)[p := Producer(s.prods[p].done + 1, false)]
      case WaitFull(p, w) =>
        p < |s.prods| && Signals(all, w) && t.cons == WakeConsumers(s.cons, w.cons)
        && t.prods == WakeProducers(s.prods, w.prods)[p := Producer(s.prods[p].done, true)]
      case Remove(c, w) =>
        c < |s.cons| && Signals(all, w) && t.prods == WakeProducers(s.prods, w.prods)
        && (t.cons == WakeConsumers(s.cons, w.cons)[c := Finished] || t.cons == WakeConsumers(s.cons, w.cons))
      case Commit(c) => c < |s.cons| && t.prods == s.prods && t.cons == s.cons[c := Committed]
      case WaitEmpty(c, w) =>
        c < |s.cons| && Signals(all, w) && t.prods == WakeProducers(s.prods, w.prods)
        && t.cons == WakeConsumers(s.cons, w.cons)[c := Waiting]
      case Shutdown => t.prods == s.prods && t.cons == s.cons
      case Broadcast => t.prods == WakeProducers(s.prods, all.prods) && t.cons == WakeConsumers(s.cons, all.cons)
      case SpuriousProducer(p) => t.prods == WakeProducers(s.prods, {p}) && t.cons == WakeConsumers(s.cons, {})
      case SpuriousConsumer(c) => t.prods == WakeProducers(s.prods, {}) && t.cons == WakeConsumers(s.cons, {c})
  {
    hide Ring.InsertUnchecked, Ring.RemoveUnchecked, LockFree, Signals, WakeProducers, WakeConsumers;
  }

  lemma StepOneSleeper(g: Config, s: State, a: Action)
    requires !g.twoCvs && OneSleeper(s) && Enabled(g, s, a)
    ensures OneSleeper(Next(g, s, a))
  {
    SleepersAfter(g, s, a);
    var t := Next(g, s, a);
    assert a.Shutdown? ==> Count(t.prods, SleepsP) + Count(t.cons, Sleeps) <= 1;
    hide Next, Enabled, Signals, WakeProducers, WakeConsumers, Count;
    match a {
      case Insert(p, w) => ProducerOneSleeper(s, t, w, p, Producer(s.prods[p].done + 1, false));
      case WaitFull(p, w) => ProducerOneSleeper(s, t, w, p, Producer(s.prods[p].done, true));
      case Remove(c, w) => ConsumerOneSleeper(s, t, w, c, Finished);
      case Commit(c) => CommitOneSleeper(s, t, c);
      case WaitEmpty(c, w) => ConsumerOneSleeper(s, t, w, c, Waiting);
      case Shutdown =>
      case Broadcast => WokenOneSleeper(s, t, Woken(WaitingProducers(s), WaitingConsumers(s)));
      case SpuriousProducer(p) => WokenOneSleeper(s, t, Woken({p}, {}));
      case SpuriousConsumer(c) => WokenOneSleeper(s, t, Woken({}, {c}));
    }
  }

  lemma StepOthersAwake(g: Config, s: State, a: Action)
    requires !g.twoCvs && Safe(g, s) && OneSleeper(s) && OthersAwake(s) && Enabled(g, s, a)
    ensures OthersAwake(Next(g, s, a))
  {
    hide Ring.Contents, Ring.InsertUnchecked, Ring.RemoveUnchecked, Count, Histories;
    var t := Next(g, s, a);
    ConsumerStep(g, s, a);
    if a.Remove? && s.broadcast {
      SignalWakesTheOne(s, a.w);
      CountZero(WakeConsumers(s.cons, a.w.cons), Sleeps);
      assert forall i :: 0 <= i < |t.cons| ==> t.cons[i] != Waiting && t.cons[i] != Committed;
    }
  }

  lemma OneCvStuckProducersDone(g: Config, s: State)
    requires g.Valid() && !g.twoCvs && g.consumers >= 1 && Safe(g, s) && OneSleeper(s) && Stuck(g, s)
    ensures ProducersDone(g, s)
  {
    CountZero(s.prods, SleepsP);
    CountZero(s.cons, Sleeps);
    assert forall p :: 0 <= p < |s.prods| && s.prods[p].waiting ==> SleepsP(s.prods[p]);
    assert s.cons[0] == Waiting ==> Sleeps(s.cons[0]);
    if !ProducersDone(g, s) {
      var p := StuckWhileProducing(g, s);
      assert false;
    }
  }

  /** With one condition variable, a stuck state has everybody done, except in
      one case: the broadcast was lost on the only consumer there is. */
  lemma OneCvStuckIsFinal(g: Config, s: State)
    requires g.Valid() && !g.twoCvs && g.consumers >= 1 && Safe(g, s) && OneSleeper(s) && OthersAwake(s)
    requires Stuck(g, s) && !(s.lost && g.consumers == 1)
    ensures Final(g, s)
  {
    StuckAsleep(g, s);
    OneCvStuckProducersDone(g, s);
    forall c | 0 <= c < |s.cons| ensures s.cons[c] == Finished {
      var j := if c == 0 then g.consumers - 1 else 0;
      assert j != c && Missed(s.cons[c]) ==> s.cons[j] == Ready;
    }
  }

  // ----- A bound on every run -----

  ghost function InsertsLeft(g: Config, ps: seq<Producer>): nat
    requires forall p :: p in ps ==> p.done <= g.strings
  {
    if ps == [] then 0
    else InsertsLeft(g, ps[..|ps| - 1]) + g.strings - ps[|ps| - 1].done
  }

  lemma {:induction false} InsertsLeftUpdate(g: Config, ps: seq<Producer>, qs: seq<Producer>, p: nat)
    requires forall x :: x in ps ==> x.done <= g.strings
    requires forall x :: x in qs ==> x.done <= g.strings
    requires |ps| == |qs| && p < |ps|
    requires forall i :: 0 <= i < |ps| ==> qs[i].done == ps[i].done + (if i == p then 1 else 0)
    requires ps[p].done < g.strings
    ensures InsertsLeft(g, qs) == InsertsLeft(g, ps) - 1
    decreases |ps|
  {
    var n := |ps| - 1;
    if p == n {
      InsertsLeftSame(g, ps[..n], qs[..n]);
    } else {
      InsertsLeftUpdate(g, ps[..n], qs[..n], p);
    }
  }

  lemma {:induction false} InsertsLeftSame(g: Config, ps: seq<Producer>, qs: seq<Producer>)
    requires forall x :: x in ps ==> x.done <= g.strings
    requires |ps| == |qs| && forall i :: 0 <= i < |ps| ==> qs[i].done == ps[i].done
    ensures forall x :: x in qs ==> x.done <= g.strings
    ensures InsertsLeft(g, qs) == InsertsLeft(g, ps)
    decreases |ps|
  {
    forall x | x in qs ensures x.done <= g.strings {
      var i :| 0 <= i < |qs| && qs[i] == x;
      assert ps[i] in ps;
    }
    if ps != [] {
      var n := |ps| - 1;
      InsertsLeftSame(g, ps[..n], qs[..n]);
    }
  }

  predicate Unfinished(c: Consumer) {
    c != Finished
  }

  predicate IsReady(c: Consumer) {
    c == Ready
  }

  predicate IsCommitted(c: Consumer) {
    c == Committed
  }

  /** The work still to be done: what no waiting or waking changes. */
  ghost function Work(g: Config, s: State): int
    requires Safe(g, s)
  {
    2 * InsertsLeft(g, s.prods) + Used(s) + Count(s.cons, Unfinished)
      + (if !s.shutdown then 2 else if !s.broadcast then 1 else 0)
  }

  /** How many threads may still go to sleep before somebody works. */
  ghost function Idle(g: Config, s: State): nat {
    if s.ring.Empty() then 2 * Count(s.cons, IsReady) + Count(s.cons, IsCommitted)
    else if s.ring.Full() then Count(s.prods, ActiveP(g))
    else 0
  }

  lemma WakeKeepsWork(g: Config, s: State, w: Woken)
    requires forall p :: p in s.prods ==> p.done <= g.strings
    requires w.cons <= WaitingConsumers(s)
    ensures forall p :: p in WakeProducers(s.prods, w.prods) ==> p.done <= g.strings
    ensures InsertsLeft(g, WakeProducers(s.prods, w.prods)) == InsertsLeft(g, s.prods)
    ensures Count(WakeConsumers(s.cons, w.cons), Unfinished) == Count(s.cons, Unfinished)
  {
    InsertsLeftSame(g, s.prods, WakeProducers(s.prods, w.prods));
    CountGrows(s.cons, Unfinished, WakeConsumers(s.cons, w.cons), Unfinished);
    CountGrows(WakeConsumers(s.cons, w.cons), Unfinished, s.cons, Unfinished);
  }

  lemma SafeDone(g: Config, s: State)
    requires Safe(g, s)
    ensures forall p :: p in s.prods ==> p.done <= g.strings
  {}

  predicate Works(a: Action) {
    a.Insert? || a.Remove? || a.Shutdown? || a.Broadcast?
  }

  lemma StepWorkProducer(g: Config, s: State, a: Action)
    requires g.twoCvs && Safe(g, s) && Enabled(g, s, a)
    requires a.Insert? || a.WaitFull?
    ensures Safe(g, Next(g, s, a))
    ensures Work(g, Next(g, s, a)) == Work(g, s) - if a.Insert? then 1 else 0
  {
    hide Safe, Enabled, Next, InsertsLeft, Count;
    StepSafe(g, s, a);
    var t := Next(g, s, a);
    SafeDone(g, s);
    SafeDone(g, t);
    SafeParts(g, s);
    CapacityStep(g, s, a);
    ProducersAfter(g, s, a);
    ConsumersAfter(g, s, a);
    if a.Insert? {
      InsertsLeftUpdate(g, s.prods, t.prods, a.p);
    } else {
      InsertsLeftSame(g, s.prods, t.prods);
    }
  }

  /** A producer's step only wakes consumers, and leaves the main thread's flags. */
  lemma ConsumersAfter(g: Config, s: State, a: Action)
    requires g.twoCvs && Enabled(g, s, a) && (a.Insert? || a.WaitFull?)
    ensures var t := Next(g, s, a);
      && t.shutdown == s.shutdown && t.broadcast == s.broadcast
      && Count(t.cons, Unfinished) == Count(s.cons, Unfinished)
  {
    hide Ring.InsertUnchecked, Count, LockFree;
    var t := Next(g, s, a);
    CountGrows(s.cons, Unfinished, t.cons, Unfinished);
    CountGrows(t.cons, Unfinished, s.cons, Unfinished);
  }

  /** A consumer's step wakes threads and changes that consumer. */
  lemma ConsumerActs(g: Config, s: State, a: Action)
    requires Enabled(g, s, a) && (a.Remove? || a.WaitEmpty? || a.Commit?)
    ensures var t := Next(g, s, a);
      && t.shutdown == s.shutdown && t.broadcast == s.broadcast && a.c < |s.cons|
      && (a.Commit? ==> s.cons[a.c] == Ready && t.prods == s.prods && t.cons == s.cons[a.c := Committed])
      && (!a.Commit? ==>
            && a.w.cons <= WaitingConsumers(s) && t.prods == WakeProducers(s.prods, a.w.prods)
            && WakeConsumers(s.cons, a.w.cons)[a.c] == (if a.Remove? then Ready else Committed))
      && (a.WaitEmpty? ==> t.cons == WakeConsumers(s.cons, a.w.cons)[a.c := Waiting])
      && (a.Remove? ==>
            t.cons == if s.ring.Empty() then WakeConsumers(s.cons, a.w.cons)[a.c := Finished]
                      else WakeConsumers(s.cons, a.w.cons))
  {
    hide Ring.InsertUnchecked, LockFree, WakeProducers;
  }

  lemma StepWorkConsumer(g: Config, s: State, a: Action)
    requires Safe(g, s) && Enabled(g, s, a)
    requires a.Remove? || a.WaitEmpty? || a.Commit?
    ensures Safe(g, Next(g, s, a))
    ensures Work(g, Next(g, s, a)) == Work(g, s) - if a.Remove? then 1 else 0
  {
    hide Safe, Enabled, Next, InsertsLeft, Count, WakeProducers, WakeConsumers;
    StepSafe(g, s, a);
    SafeDone(g, s);
    SafeDone(g, Next(g, s, a));
    SafeParts(g, s);
    CapacityStep(g, s, a);
    ConsumerActs(g, s, a);
    match a {
      case Remove(c, w) =>
        WakeKeepsWork(g, s, w);
        CountUpdate(WakeConsumers(s.cons, w.cons), c, Finished, Unfinished);
      case WaitEmpty(c, w) =>
        WakeKeepsWork(g, s, w);
        CountUpdate(WakeConsumers(s.cons, w.cons), c, Waiting, Unfinished);
      case Commit(c) =>
        CountUpdate(s.cons, c, Committed, Unfinished);
    }
  }

  lemma StepWorkMain(g: Config, s: State, a: Action)
    requires Safe(g, s) && Enabled(g, s, a)
    requires a.Shutdown? || a.Broadcast?
    ensures Safe(g, Next(g, s, a))
    ensures Work(g, Next(g, s, a)) == Work(g, s) - 1
  {
    hide Safe, Enabled, Next, InsertsLeft, Count;
    StepSafe(g, s, a);
    BroadcastAfterShutdown(g, s);
    SafeDone(g, s);
    SafeDone(g, Next(g, s, a));
    MainAfter(g, s, a);
  }

  /** The main thread's steps set a flag and wake consumers. */
  lemma MainAfter(g: Config, s: State, a: Action)
    requires Enabled(g, s, a) && (a.Shutdown? || a.Broadcast?)
    requires forall p :: p in s.prods ==> p.done <= g.strings
    ensures var t := Next(g, s, a);
      && t.ring == s.ring
      && (if a.Shutdown? then t.shutdown && !s.shutdown && t.broadcast == s.broadcast
          else s.shutdown && t.shutdown && t.broadcast && !s.broadcast)
      && (forall p :: p in t.prods ==> p.done <= g.strings)
      && InsertsLeft(g, t.prods) == InsertsLeft(g, s.prods)
      && Count(t.cons, Unfinished) == Count(s.cons, Unfinished)
  {
    hide InsertsLeft, Count, LockFree, ProducersDone;
    if a.Broadcast? {
      WakeKeepsWork(g, s, OnConCv(g, s));
    }
  }

  lemma BroadcastAfterShutdown(g: Config, s: State)
    requires Safe(g, s)
    ensures s.broadcast ==> s.shutdown
  {}

  /** A step that does no work puts somebody to sleep for good, as long as no
      work is done: with two condition variables it wakes only the other kind. */
  lemma StepIdle(g: Config, s: State, a: Action)
    requires g.Valid() && g.twoCvs && Safe(g, s) && Enabled(g, s, a) && !a.Spurious() && !Works(a)
    ensures Idle(g, Next(g, s, a)) < Idle(g, s)
  {
    hide Ring.Contents, Histories, ShutdownOk, Count;
    var t := Next(g, s, a);
    match a {
      case WaitFull(p, w) =>
        assert w.prods == {} && WakeProducers(s.prods, w.prods) == s.prods;
        assert t.prods == s.prods[p := Producer(s.prods[p].done, true)];
        CountUpdate(s.prods, p, Producer(s.prods[p].done, true), ActiveP(g));
        assert ActiveP(g)(s.prods[p]) && !s.ring.Empty();
      case Commit(c) =>
        CountUpdate(s.cons, c, Committed, IsReady);
        CountUpdate(s.cons, c, Committed, IsCommitted);
      case WaitEmpty(c, w) =>
        assert s.ring.Empty();
        assert w.cons == {} && WakeConsumers(s.cons, w.cons) == s.cons;
        CountUpdate(s.cons, c, Waiting, IsReady);
        CountUpdate(s.cons, c, Waiting, IsCommitted);
      case _ =>
    }
  }

  /** A natural number that every step makes smaller. */
  ghost function Rank(g: Config, s: State): int
    requires Safe(g, s)
  {
    Work(g, s) * Weight(g) + Idle(g, s)
  }

  /** More than Idle can ever be. */
  function Weight(g: Config): nat {
    2 * g.consumers + g.producers + 1
  }

  lemma IdleBound(g: Config, s: State)
    requires Safe(g, s)
    ensures Idle(g, s) < Weight(g)
  {
    CountBound(s.prods, ActiveP(g));
    ReadyOrCommitted(s.cons);
  }

  lemma {:induction false} ReadyOrCommitted(cs: seq<Consumer>)
    ensures Count(cs, IsReady) + Count(cs, IsCommitted) <= |cs|
    decreases |cs|
  {
    if cs != [] {
      ReadyOrCommitted(cs[..|cs| - 1]);
    }
  }

  lemma RankNonNegative(g: Config, s: State)
    requires Safe(g, s)
    ensures Work(g, s) >= 0 && Rank(g, s) >= 0
  {
    ProductNonNegative(Work(g, s), Weight(g));
  }

  lemma ProductNonNegative(w: int, k: nat)
    ensures w >= 0 ==> w * k >= 0
  {}

  lemma StepRank(g: Config, s: State, a: Action)
    requires g.Valid() && g.twoCvs && Safe(g, s) && Enabled(g, s, a) && !a.Spurious()
    ensures Safe(g, Next(g, s, a)) && Rank(g, Next(g, s, a)) < Rank(g, s)
  {
    StepSafe(g, s, a);
    hide Safe, Next, Enabled, Work, Idle, Weight;
    var t := Next(g, s, a);
    IdleBound(g, t);
    if a.Insert? || a.WaitFull? {
      StepWorkProducer(g, s, a);
    } else if a.Shutdown? || a.Broadcast? {
      StepWorkMain(g, s, a);
    } else {
      StepWorkConsumer(g, s, a);
    }
    if !Works(a) {
      StepIdle(g, s, a);
    }
    Drop(Work(g, s), Work(g, t), Weight(g), Idle(g, s), Idle(g, t));
  }

  /** Lexicographic descent as descent of one number. */
  lemma Drop(w: int, v: int, k: nat, i: nat, j: nat)
    requires (v == w - 1 && j < k) || (v == w && j < i)
    ensures v * k + j < w * k + i
  {
    assert v == w - 1 ==> v * k == w * k - k;
  }

  ghost predicate NoSpurious(acts: seq<Action>) {
    forall i :: 0 <= i < |acts| ==> !acts[i].Spurious()
  }

  lemma {:induction false} RunRank(g: Config, ss: seq<State>, acts: seq<Action>)
    requires g.Valid() && g.twoCvs && Run(g, ss, acts) && NoSpurious(acts)
    ensures Safe(g, ss[0]) && Safe(g, ss[|acts|])
    ensures |acts| + Rank(g, ss[|acts|]) <= Rank(g, ss[0])
    decreases |acts|
  {
    hide Safe, Enabled, Next, Rank, Init;
    RunSafe(g, ss, acts);
    var n := |acts|;
    if n > 0 {
      assert Run(g, ss[..n], acts[..n - 1]);
      RunRank(g, ss[..n], acts[..n - 1]);
      StepRank(g, ss[n - 1], acts[n - 1]);
    }
  }

  lemma InitRank(g: Config, s: State)
    requires g.Valid() && Init(g, s) && Safe(g, s)
    ensures Rank(g, s) ==
      (2 * g.producers * g.strings + g.consumers + 2) * Weight(g) + 2 * g.consumers
  {
    InitWork(g, s);
    InitIdle(g, s);
    hide Safe, Init, Work, Idle, Weight;
  }

  lemma InitWork(g: Config, s: State)
    requires Init(g, s) && Safe(g, s)
    ensures Work(g, s) == 2 * g.producers * g.strings + g.consumers + 2
  {
    hide InsertsLeft, Count;
    InitInserts(g, s.prods);
    AllReady(s.cons);
    assert Used(s) == 0;
    assert InsertsLeft(g, s.prods) == g.producers * g.strings;
    hide Safe, Init;
  }

  lemma InitIdle(g: Config, s: State)
    requires Init(g, s)
    ensures Idle(g, s) == 2 * g.consumers
  {
    hide Count;
    AllReady(s.cons);
  }

  lemma {:induction false} InitInserts(g: Config, ps: seq<Producer>)
    requires forall i :: 0 <= i < |ps| ==> ps[i] == Producer(0, false)
    ensures forall p :: p in ps ==> p.done <= g.strings
    ensures InsertsLeft(g, ps) == |ps| * g.strings
    decreases |ps|
  {
    if ps != [] {
      InitInserts(g, ps[..|ps| - 1]);
    }
  }

  lemma {:induction false} AllReady(cs: seq<Consumer>)
    requires forall i :: 0 <= i < |cs| ==> cs[i] == Ready
    ensures Count(cs, IsReady) == Count(cs, Unfinished) == |cs| && Count(cs, IsCommitted) == 0
    decreases |cs|
  {
    if cs != [] {
      AllReady(cs[..|cs| - 1]);
    }
  }

  // ----- Main results, over whole runs -----

  lemma RunPrefix(g: Config, ss: seq<State>, acts: seq<Action>)
    requires Run(g, ss, acts) && acts != []
    ensures Run(g, ss[..|acts|], acts[..|acts| - 1])
    ensures Enabled(g, ss[|acts| - 1], acts[|acts| - 1])
    ensures ss[|acts|] == Next(g, ss[|acts| - 1], acts[|acts| - 1])
  {
    hide Init, Enabled, Next;
  }

  lemma InitEnough(g: Config, s: State)
    requires Init(g, s)
    ensures ConsumersEnough(s) && ProducersEnough(g, s)
  {
    assert WaitingConsumers(s) == {} && WaitingProducers(s) == {};
  }

  lemma {:induction false} RunEnough(g: Config, ss: seq<State>, acts: seq<Action>)
    requires g.Valid() && g.twoCvs && Run(g, ss, acts)
    ensures Safe(g, ss[|acts|]) && ConsumersEnough(ss[|acts|]) && ProducersEnough(g, ss[|acts|])
    decreases |acts|
  {
    hide Enabled, Next, Init, Safe, ConsumersEnough, ProducersEnough;
    RunSafe(g, ss, acts);
    var n := |acts|;
    if n == 0 {
      InitEnough(g, ss[0]);
    } else {
      RunPrefix(g, ss, acts);
      StepSafe(g, ss[n - 1], acts[n - 1]);
      SafeParts(g, ss[n - 1]);
      RunEnough(g, ss[..n], acts[..n - 1]);
      StepConsumersEnough(g, ss[n - 1], acts[n - 1]);
      StepProducersEnough(g, ss[n - 1], acts[n - 1]);
    }
  }

  lemma {:induction false} RunLostSleeper(g: Config, ss: seq<State>, acts: seq<Action>)
    requires g.Valid() && (g.twoCvs || g.consumers == 1) && Run(g, ss, acts) && NoSpurious(acts)
    ensures Safe(g, ss[|acts|]) && LostSleeper(ss[|acts|])
    decreases |acts|
  {
    hide Enabled, Next, Init, Safe, LostSleeper;
    RunSafe(g, ss, acts);
    var n := |acts|;
    if n == 0 {
      InitAwake(g, ss[0]);
    } else {
      RunPrefix(g, ss, acts);
      RunLostSleeper(g, ss[..n], acts[..n - 1]);
      StepLostSleeper(g, ss[n - 1], acts[n - 1]);
    }
  }

  lemma InitAwake(g: Config, s: State)
    requires Init(g, s)
    ensures OneSleeper(s) && OthersAwake(s) && LostSleeper(s)
  {
    CountZero(s.prods, SleepsP);
    CountZero(s.cons, Sleeps);
  }

  lemma {:induction false} RunOneSleeper(g: Config, ss: seq<State>, acts: seq<Action>)
    requires g.Valid() && !g.twoCvs && Run(g, ss, acts)
    ensures Safe(g, ss[|acts|]) && OneSleeper(ss[|acts|]) && OthersAwake(ss[|acts|])
    decreases |acts|
  {
    hide Enabled, Next, Init, Safe, OneSleeper, OthersAwake;
    RunSafe(g, ss, acts);
    var n := |acts|;
    if n == 0 {
      InitAwake(g, ss[0]);
    } else {
      RunPrefix(g, ss, acts);
      SafeParts(g, ss[n - 1]);
      RunOneSleeper(g, ss[..n], acts[..n - 1]);
      StepOneSleeper(g, ss[n - 1], acts[n - 1]);
      StepOthersAwake(g, ss[n - 1], acts[n - 1]);
    }
  }

  /** Two condition variables, no spurious wake-ups: every run is bounded, and
      one that cannot go on has everybody done exactly when the broadcast did
      not fall between a consumer's test and its wait. */
  lemma TwoCvTotalCorrectness(g: Config, ss: seq<State>, acts: seq<Action>)
    requires g.Valid() && g.twoCvs && g.consumers >= 1 && Run(g, ss, acts) && NoSpurious(acts)
    ensures |acts| <=
      (2 * g.producers * g.strings + g.consumers + 2) * (2 * g.consumers + g.producers + 1) + 2 * g.consumers
    ensures Stuck(g, ss[|acts|]) ==> (Final(g, ss[|acts|]) <==> !ss[|acts|].lost)
  {
    RunRank(g, ss, acts);
    InitRank(g, ss[0]);
    RankNonNegative(g, ss[|acts|]);
    RunLostSleeper(g, ss, acts);
    TwoCvNoDeadlock(g, ss, acts);
    hide Safe, Run, Init, Rank;
  }

  /** The safety half holds with spurious wake-ups too. */
  lemma TwoCvNoDeadlock(g: Config, ss: seq<State>, acts: seq<Action>)
    requires g.Valid() && g.twoCvs && g.consumers >= 1 && Run(g, ss, acts)
    ensures Stuck(g, ss[|acts|]) && !ss[|acts|].lost ==> Final(g, ss[|acts|])
  {
    RunEnough(g, ss, acts);
    if Stuck(g, ss[|acts|]) && !ss[|acts|].lost {
      TwoCvStuckIsFinal(g, ss[|acts|]);
    }
  }

  /** One condition variable: whatever happens, at most one thread waits on it. */
  lemma OneCvAtMostOneWaits(g: Config, ss: seq<State>, acts: seq<Action>, i: nat)
    requires g.Valid() && !g.twoCvs && Run(g, ss, acts) && i < |ss|
    ensures |WaitingProducers(ss[i])| + |WaitingConsumers(ss[i])| <= 1
  {
    hide Init, Enabled, Next;
    assert Run(g, ss[..i + 1], acts[..i]);
    RunOneSleeper(g, ss[..i + 1], acts[..i]);
    CardProducers(ss[i].prods);
    CardConsumers(ss[i].cons);
  }

  lemma {:induction false} CardProducers(ps: seq<Producer>)
    ensures |set i | 0 <= i < |ps| && ps[i].waiting| == Count(ps, SleepsP)
    decreases |ps|
  {
    if ps != [] {
      var n := |ps| - 1;
      CardProducers(ps[..n]);
      var small, all := set i | 0 <= i < n && ps[..n][i].waiting, set i | 0 <= i < |ps| && ps[i].waiting;
      assert all == small + if ps[n].waiting then {n} else {};
    }
  }

  lemma {:induction false} CardConsumers(cs: seq<Consumer>)
    ensures |set i | 0 <= i < |cs| && cs[i] == Waiting| == Count(cs, Sleeps)
    decreases |cs|
  {
    if cs != [] {
      var n := |cs| - 1;
      CardConsumers(cs[..n]);
      var small, all := set i | 0 <= i < n && cs[..n][i] == Waiting, set i | 0 <= i < |cs| && cs[i] == Waiting;
      assert all == small + if cs[n] == Waiting then {n} else {};
    }
  }

  /** One condition variable: while a string is still to be inserted some
      thread can step; and a run without spurious wake-ups that cannot go on
      has everybody done, except when the broadcast was lost on the only
      consumer. A second consumer's last signal repairs the loss. */
  lemma OneCvNoDeadlock(g: Config, ss: seq<State>, acts: seq<Action>)
    requires g.Valid() && !g.twoCvs && g.consumers >= 1 && Run(g, ss, acts)
    ensures Stuck(g, ss[|acts|]) ==> ProducersDone(g, ss[|acts|])
    ensures Stuck(g, ss[|acts|]) && NoSpurious(acts) ==>
      (Final(g, ss[|acts|]) <==> !(ss[|acts|].lost && g.consumers == 1))
  {
    var s := ss[|acts|];
    RunOneSleeper(g, ss, acts);
    if g.consumers == 1 && NoSpurious(acts) {
      RunLostSleeper(g, ss, acts);
    }
    if Stuck(g, s) {
      OneCvStuckProducersDone(g, s);
      if !(s.lost && g.consumers == 1) {
        OneCvStuckIsFinal(g, s);
      }
    }
  }

  // ----- The loss does happen -----

  /** One producer of one string and one consumer, who has taken the string,
      goes back for another, finds nothing, and sleeps through the end. */
  ghost function Loss(k: nat): State {
    var x := Item(0, 0);
    State(if k == 0 then Ring([x, x], 0, 0, 2) else if k == 1 then Ring([x, x], 0, 1, 1) else Ring([x, x], 1, 1, 2),
          [Producer(if k == 0 then 0 else 1, false)],
          [if k <= 2 then Ready else if k <= 5 then Committed else Waiting],
          k >= 4, k >= 5, k >= 5,
          if k == 0 then [] else [x], if k <= 1 then [] else [(0, x)])
  }

  function LossAction(k: nat): Action {
    var none := Woken({}, {});
    if k == 0 then Insert(0, none) else if k == 1 then Remove(0, none) else if k == 2 then Commit(0)
    else if k == 3 then Shutdown else if k == 4 then Broadcast else WaitEmpty(0, none)
  }

  lemma LossStep(g: Config, k: nat)
    requires g.producers == g.consumers == g.strings == 1 && g.size == 2 && k < 6
    ensures Enabled(g, Loss(k), LossAction(k)) && Next(g, Loss(k), LossAction(k)) == Loss(k + 1)
  {
    var s, a := Loss(k), LossAction(k);
    assert WaitingProducers(s) == {} && WaitingConsumers(s) == {};
    assert WakeProducers(s.prods, {}) == s.prods && WakeConsumers(s.cons, {}) == s.cons;
    assert Committed in s.cons <==> s.cons[0] == Committed;
    if k == 0 {
      assert s.ring.InsertUnchecked(Item(0, 0)) == Ring([Item(0, 0), Item(0, 0)], 0, 1, 1);
    } else if k == 1 {
      assert s.ring.RemoveUnchecked() == (Some(Item(0, 0)), Ring([Item(0, 0), Item(0, 0)], 1, 1, 2));
    }
  }

  lemma LossStuck(g: Config)
    requires g.producers == g.consumers == g.strings == 1 && g.size == 2
    ensures Stuck(g, Loss(6)) && !Final(g, Loss(6))
  {
    var s := Loss(6);
    assert s.cons[0] == Waiting && s.prods[0] == Producer(1, false);
    forall a | Enabled(g, s, a) ensures a.Spurious() {}
  }

  /** Under either scheme such a run exists: it ends stuck, with the consumer
      asleep for good. */
  lemma LostBroadcastHappens(twoCvs: bool) returns (g: Config, ss: seq<State>, acts: seq<Action>)
    ensures g.Valid() && g.twoCvs == twoCvs && g.producers == g.consumers == g.strings == 1
    ensures Run(g, ss, acts) && NoSpurious(acts)
    ensures Stuck(g, ss[|acts|]) && !Final(g, ss[|acts|]) && ss[|acts|].cons == [Waiting]
  {
    g := Config(1, 1, 1, 2, twoCvs);
    ss := seq(7, i requires 0 <= i => Loss(i));
    acts := seq(6, i requires 0 <= i => LossAction(i));
    assert Init(g, Loss(0)) by {
      assert Loss(0).prods == seq(1, i => Producer(0, false)) && Loss(0).cons == seq(1, i => Ready);
    }
    forall i | 0 <= i < 6 ensures Enabled(g, ss[i], acts[i]) && ss[i + 1] == Next(g, ss[i], acts[i]) {
      LossStep(g, i);
    }
    LossStuck(g);
    hide Enabled, Next, Init, Stuck, Final;
  }

  // ----- Why there is no bound in the other cases -----

  /** One condition variable, one producer and two consumers: before anything is
      inserted the consumers keep waking each other. */
  ghost function Idling(k: nat): State {
    Loss(0).(cons :=
      if k == 0 then [Ready, Ready]
      else if k == 1 then [Committed, Ready]
      else if k % 4 == 2 then [Waiting, Ready]
      else if k % 4 == 3 then [Waiting, Committed]
      else if k % 4 == 0 then [Ready, Waiting]
      else [Committed, Waiting])
  }

  function IdlingAction(k: nat): Action {
    if k == 1 then WaitEmpty(0, Woken({}, {}))
    else if k % 4 == 0 then Commit(0)
    else if k % 4 == 1 then WaitEmpty(0, Woken({}, {1}))
    else if k % 4 == 2 then Commit(1)
    else WaitEmpty(1, Woken({}, {0}))
  }

  /** The steps of consumers that find the ring empty, as changes of cons alone. */
  lemma EmptyHanded(g: Config, s: State, a: Action)
    requires WaitingProducers(s) == {} && s.ring.Empty() && !s.shutdown
    requires match a
      case Commit(c) => Committed !in s.cons && c < |s.cons| && s.cons[c] == Ready
      case WaitEmpty(c, w) =>
        c < |s.cons| && s.cons[c] == Committed && w.prods == {}
        && w.cons == if g.twoCvs then {} else WaitingConsumers(s)
      case SpuriousConsumer(c) => c in WaitingConsumers(s)
      case _ => false
    ensures Enabled(g, s, a)
    ensures Next(g, s, a) == s.(cons := match a
      case Commit(c) => s.cons[c := Committed]
      case WaitEmpty(c, w) => WakeConsumers(s.cons, w.cons)[c := Waiting]
      case SpuriousConsumer(c) => WakeConsumers(s.cons, {c})
      case _ => s.cons)
  {
    hide WaitingConsumers, WakeConsumers;
    assert WakeProducers(s.prods, {}) == s.prods;
  }

  lemma StillEmpty(cons: seq<Consumer>)
    ensures var s := Loss(0).(cons := cons);
      WaitingProducers(s) == {} && s.ring.Empty() && !s.shutdown
  {}

  lemma WakeTwo()
    ensures WakeConsumers([Committed, Ready], {})[0 := Waiting] == [Waiting, Ready]
    ensures WakeConsumers([Committed, Waiting], {1})[0 := Waiting] == [Waiting, Ready]
    ensures WakeConsumers([Waiting, Committed], {0})[1 := Waiting] == [Ready, Waiting]
  {}

  lemma IdlingStep(g: Config, k: nat)
    requires g == Config(1, 2, 1, 2, false)
    ensures Enabled(g, Idling(k), IdlingAction(k)) && Next(g, Idling(k), IdlingAction(k)) == Idling(k + 1)
  {
    hide Enabled, Next, Loss, WaitingProducers, WakeConsumers;
    var s, a := Idling(k), IdlingAction(k);
    StillEmpty(s.cons);
    WakeTwo();
    assert a.WaitEmpty? ==> WaitingConsumers(s) == a.w.cons;
    hide WaitingConsumers;
    EmptyHanded(g, s, a);
  }

  /** With one condition variable runs without spurious wake-ups can be of any
      length, although not one string has been inserted. */
  lemma OneCvUnbounded(n: nat) returns (g: Config, ss: seq<State>, acts: seq<Action>)
    ensures g == Config(1, 2, 1, 2, false) && Run(g, ss, acts) && NoSpurious(acts)
    ensures |acts| == n && ss[n].inserted == []
  {
    g := Config(1, 2, 1, 2, false);
    ss := seq(n + 1, i requires 0 <= i => Idling(i));
    acts := seq(n, i requires 0 <= i => IdlingAction(i));
    hide Enabled, Next, Idling, IdlingAction, Init, Action.Spurious;
    IdlingStart(g);
    forall i | 0 <= i < n ensures Enabled(g, ss[i], acts[i]) && ss[i + 1] == Next(g, ss[i], acts[i]) {
      IdlingStep(g, i);
    }
  }

  lemma IdlingStart(g: Config)
    requires g == Config(1, 2, 1, 2, false)
    ensures Init(g, Idling(0)) && forall k: nat :: Idling(k).inserted == [] && !IdlingAction(k).Spurious()
  {}

  /** Spurious wake-ups let a lone consumer test the empty ring for ever. */
  ghost function Restless(k: nat): State {
    Loss(0).(cons := if k % 3 == 0 then [Ready] else if k % 3 == 1 then [Committed] else [Waiting])
  }

  function RestlessAction(k: nat): Action {
    if k % 3 == 0 then Commit(0)
    else if k % 3 == 1 then WaitEmpty(0, Woken({}, {}))
    else SpuriousConsumer(0)
  }

  lemma RestlessStep(g: Config, k: nat)
    requires g.producers == g.consumers == g.strings == 1 && g.size == 2
    ensures Enabled(g, Restless(k), RestlessAction(k))
    ensures Next(g, Restless(k), RestlessAction(k)) == Restless(k + 1)
  {
    hide Enabled, Next, Loss, WaitingProducers, WakeConsumers;
    var s, a := Restless(k), RestlessAction(k);
    StillEmpty(s.cons);
    WakeOne();
    assert WaitingConsumers(s) == if k % 3 == 2 then {0} else {};
    hide WaitingConsumers;
    EmptyHanded(g, s, a);
  }

  lemma WakeOne()
    ensures WakeConsumers([Committed], {})[0 := Waiting] == [Waiting]
    ensures WakeConsumers([Waiting], {0}) == [Ready]
  {}

  lemma RestlessStart(g: Config)
    requires g.producers == g.consumers == g.strings == 1 && g.size == 2
    ensures Init(g, Restless(0)) && forall k: nat :: Restless(k).inserted == []
  {}

  /** With spurious wake-ups there is no bound under either scheme. */
  lemma SpuriousUnbounded(twoCvs: bool, n: nat) returns (g: Config, ss: seq<State>, acts: seq<Action>)
    ensures g == Config(1, 1, 1, 2, twoCvs) && Run(g, ss, acts) && |acts| == n && ss[n].inserted == []
  {
    g := Config(1, 1, 1, 2, twoCvs);
    ss := seq(n + 1, i requires 0 <= i => Restless(i));
    acts := seq(n, i requires 0 <= i => RestlessAction(i));
    hide Enabled, Next, Restless, RestlessAction, Init;
    RestlessStart(g);
    forall i | 0 <= i < n ensures Enabled(g, ss[i], acts[i]) && ss[i + 1] == Next(g, ss[i], acts[i]) {
      RestlessStep(g, i);
    }
  }
}
