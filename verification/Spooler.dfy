/** The spooler as a protocol: producers, consumers and the main thread around
    one ring buffer, one lock, and either one condition variable
    (spooler_one_cv.c) or two (spooler_two_cv.c).

    A step is one critical section. The one exception: shutdown is set, and
    con_cv broadcast, without the lock, so a consumer that has seen "empty and
    not shut down" but does not sleep yet (Committed, holding the lock) is a
    state of its own in which the main thread may still step. */
module Spooler {
  import opened Options
  import opened Ring

  /** String number index of producer number producer. */
  datatype Item = Item(producer: nat, index: nat)

  datatype Config = Config(producers: nat, consumers: nat, strings: nat, size: nat, twoCvs: bool) {
    predicate Valid() {
      size >= 1
    }
  }

  datatype Producer = Producer(done: nat, waiting: bool)

  datatype Consumer = Ready | Committed | Waiting | Finished

  /** A ring whose indices are inside the array; nothing more is built in. */
  type ItemRing = r: Ring<Item> | r.read < r.Size() && r.write < r.Size() witness Ring([Item(0, 0)], 0, 0, 1)

  datatype State = State(
    ring: ItemRing,
    prods: seq<Producer>,
    cons: seq<Consumer>,
    shutdown: bool,
    broadcast: bool,
    lost: bool,                    // the broadcast fell between a consumer's test and its wait
    inserted: seq<Item>,           // history of insertions
    removed: seq<(nat, Item)>      // history of removals, with the consumer
  )

  /** The threads woken by a signal. */
  datatype Woken = Woken(prods: set<nat>, cons: set<nat>)

  datatype Action =
    | Insert(p: nat, w: Woken)
    | WaitFull(p: nat, w: Woken)
    | Remove(c: nat, w: Woken)
    | Commit(c: nat)
    | WaitEmpty(c: nat, w: Woken)
    | Shutdown
    | Broadcast
    | SpuriousProducer(p: nat)
    | SpuriousConsumer(c: nat)
  {
    predicate Spurious() {
      SpuriousProducer? || SpuriousConsumer?
    }
  }

  ghost predicate Init(g: Config, s: State) {
    && |s.ring.elements| == g.size && s.ring == NewRing(s.ring.elements)
    && s.prods == seq(g.producers, i => Producer(0, false))
    && s.cons == seq(g.consumers, i => Ready)
    && !s.shutdown && !s.broadcast && !s.lost
    && s.inserted == [] && s.removed == []
  }

  // ----- Waiting and waking -----

  function WaitingProducers(s: State): set<nat> {
    set i | 0 <= i < |s.prods| && s.prods[i].waiting
  }

  function WaitingConsumers(s: State): set<nat> {
    set i | 0 <= i < |s.cons| && s.cons[i] == Waiting
  }

  /** Who waits on con_cv. With one condition variable everybody does. */
  function OnConCv(g: Config, s: State): Woken {
    Woken(if g.twoCvs then {} else WaitingProducers(s), WaitingConsumers(s))
  }

  /** Who waits on pro_cv; with one condition variable that is con_cv again. */
  function OnProCv(g: Config, s: State): Woken {
    Woken(WaitingProducers(s), if g.twoCvs then {} else WaitingConsumers(s))
  }

  /** pthread_cond_signal: some of the waiters wake up, at least one if there
      are any (IEEE Std 1003.1-2017). */
  ghost predicate Signals(waiters: Woken, w: Woken) {
    && w.prods <= waiters.prods && w.cons <= waiters.cons
    && (w == Woken({}, {}) ==> waiters == Woken({}, {}))
  }

  function WakeProducers(ps: seq<Producer>, w: set<nat>): (r: seq<Producer>)
    ensures |r| == |ps|
  {
    seq(|ps|, i requires 0 <= i < |ps| => if i in w then ps[i].(waiting := false) else ps[i])
  }

  function WakeConsumers(cs: seq<Consumer>, w: set<nat>): (r: seq<Consumer>)
    ensures |r| == |cs|
  {
    seq(|cs|, i requires 0 <= i < |cs| => if i in w then Ready else cs[i])
  }

  function Wake(s: State, w: Woken): State {
    s.(prods := WakeProducers(s.prods, w.prods), cons := WakeConsumers(s.cons, w.cons))
  }

  // ----- Steps -----

  ghost predicate LockFree(s: State) {
    forall i :: 0 <= i < |s.cons| ==> s.cons[i] != Committed
  }

  ghost predicate ProducersDone(g: Config, s: State) {
    forall i :: 0 <= i < |s.prods| ==> s.prods[i].done == g.strings
  }

  predicate ProducerReady(g: Config, s: State, p: nat) {
    p < |s.prods| && !s.prods[p].waiting && s.prods[p].done < g.strings
  }

  ghost predicate Enabled(g: Config, s: State, a: Action) {
    match a
    case Insert(p, w) =>
      LockFree(s) && ProducerReady(g, s, p) && !s.ring.Full() && Signals(OnConCv(g, s), w)
    case WaitFull(p, w) =>
      LockFree(s) && ProducerReady(g, s, p) && s.ring.Full() && Signals(OnConCv(g, s), w)
    case Remove(c, w) =>
      LockFree(s) && c < |s.cons| && s.cons[c] == Ready && !(s.ring.Empty() && !s.shutdown) && Signals(OnProCv(g, s), w)
    case Commit(c) =>
      LockFree(s) && c < |s.cons| && s.cons[c] == Ready && s.ring.Empty() && !s.shutdown
    case WaitEmpty(c, w) =>
      c < |s.cons| && s.cons[c] == Committed && Signals(OnProCv(g, s), w)
    case Shutdown => ProducersDone(g, s) && !s.shutdown
    case Broadcast => s.shutdown && !s.broadcast
    case SpuriousProducer(p) => p in WaitingProducers(s)
    case SpuriousConsumer(c) => c in WaitingConsumers(s)
  }

  /** The state after a step. */
  function Next(g: Config, s: State, a: Action): State {
    match a
    case Insert(p, w) =>
      if p >= |s.prods| then s
      else
        var item := Item(p, s.prods[p].done);
        var t := Wake(s, w);
        t.(ring := s.ring.InsertUnchecked(item),
           prods := t.prods[p := Producer(s.prods[p].done + 1, false)],
           inserted := s.inserted + [item])
    case WaitFull(p, w) =>
      if p >= |s.prods| then s
      else
        var t := Wake(s, w);
        t.(prods := t.prods[p := Producer(s.prods[p].done, true)])
    case Remove(c, w) =>
      if c >= |s.cons| then s
      else
        var (item, r) := s.ring.RemoveUnchecked();
        var t := Wake(s, w).(ring := r);
        if item == None then t.(cons := t.cons[c := Finished])
        else t.(removed := s.removed + [(c, item.value)])
    case Commit(c) =>
      if c >= |s.cons| then s else s.(cons := s.cons[c := Committed])
    case WaitEmpty(c, w) =>
      if c >= |s.cons| then s
      else
        var t := Wake(s, w);
        t.(cons := t.cons[c := Waiting])
    case Shutdown => s.(shutdown := true)
    case Broadcast =>
      Wake(s, OnConCv(g, s)).(broadcast := true, lost := Committed in s.cons)
    case SpuriousProducer(p) => Wake(s, Woken({p}, {}))
    case SpuriousConsumer(c) => Wake(s, Woken({}, {c}))
  }

  /** A run from an initial state, as the states passed and the steps taken. */
  ghost predicate Run(g: Config, ss: seq<State>, acts: seq<Action>) {
    && |ss| == |acts| + 1 && Init(g, ss[0])
    && forall i :: 0 <= i < |acts| ==> Enabled(g, ss[i], acts[i]) && ss[i + 1] == Next(g, ss[i], acts[i])
  }

  // ----- What every step keeps -----

  /** The strings of producer p in a history, in order. */
  ghost function Of(h: seq<Item>, p: nat): seq<Item> {
    if h == [] then []
    else Of(h[..|h| - 1], p) + (if h[|h| - 1].producer == p then [h[|h| - 1]] else [])
  }

  /** Strings 0 to n - 1 of producer p. */
  ghost function Strings(p: nat, n: nat): seq<Item> {
    seq(n, i requires 0 <= i < n => Item(p, i))
  }

  ghost function Items(h: seq<(nat, Item)>): seq<Item> {
    seq(|h|, i requires 0 <= i < |h| => h[i].1)
  }

  /** Every producer has inserted its own strings in order, as many as it says. */
  ghost predicate Histories(g: Config, inserted: seq<Item>, prods: seq<Producer>) {
    && |prods| == g.producers
    && (forall p :: 0 <= p < |prods| ==>
          prods[p].done <= g.strings && Of(inserted, p) == Strings(p, prods[p].done))
    && (forall p: nat :: p >= |prods| ==> Of(inserted, p) == [])
    && (forall p :: 0 <= p < |prods| && prods[p].waiting ==> prods[p].done < g.strings)
  }

  /** The lock is held by at most one sleeper-to-be, and only on an empty ring. */
  ghost predicate LockOk(s: State) {
    && (forall i, j :: 0 <= i < j < |s.cons| && s.cons[i] == Committed ==> s.cons[j] != Committed)
    && (Committed in s.cons ==> s.ring.Empty())
    && (Committed in s.cons && s.shutdown ==> Finished !in s.cons)
  }

  ghost predicate ShutdownOk(g: Config, s: State) {
    && (s.shutdown ==> ProducersDone(g, s))
    && (s.broadcast ==> s.shutdown)
    && (Finished in s.cons ==> s.shutdown && s.ring.Empty())
    && (s.lost ==> s.broadcast)
    && (s.broadcast && !s.lost ==> Committed !in s.cons && Waiting !in s.cons)
  }

  ghost predicate Safe(g: Config, s: State) {
    && s.ring.Valid() && s.ring.Size() == g.size && |s.cons| == g.consumers
    && s.inserted == Items(s.removed) + s.ring.Contents()
    && Histories(g, s.inserted, s.prods)
    && LockOk(s) && ShutdownOk(g, s)
  }

  lemma InitSafe(g: Config, s: State)
    requires g.Valid() && Init(g, s)
    ensures Safe(g, s)
  {
    NewRingEmpty(s.ring.elements);
    forall p: nat ensures Of(s.inserted, p) == [] && Strings(p, 0) == [] {}
  }

  lemma OfAppend(h: seq<Item>, x: Item, p: nat)
    ensures Of(h + [x], p) == Of(h, p) + if x.producer == p then [x] else []
  {
    assert (h + [x])[..|h|] == h;
  }

  lemma NextString(p: nat, n: nat)
    ensures Strings(p, n + 1) == Strings(p, n) + [Item(p, n)]
  {}

  lemma InsertHistories(g: Config, inserted: seq<Item>, prods: seq<Producer>, p: nat)
    requires Histories(g, inserted, prods) && p < |prods| && prods[p].done < g.strings
    ensures Histories(g, inserted + [Item(p, prods[p].done)], prods[p := Producer(prods[p].done + 1, false)])
  {
    hide Of, Strings;
    var n := prods[p].done;
    var x, after := Item(p, n), prods[p := Producer(n + 1, false)];
    NextString(p, n);
    forall i | 0 <= i < |prods|
      ensures after[i].done <= g.strings && Of(inserted + [x], i) == Strings(i, after[i].done)
    {
      OfAppend(inserted, x, i);
    }
    forall i: nat | i >= |prods| ensures Of(inserted + [x], i) == [] {
      OfAppend(inserted, x, i);
    }
  }

  lemma WakeHistories(g: Config, inserted: seq<Item>, prods: seq<Producer>, w: set<nat>)
    requires Histories(g, inserted, prods)
    ensures Histories(g, inserted, WakeProducers(prods, w))
  {
    hide Of, Strings;
    var after := WakeProducers(prods, w);
    assert forall i :: 0 <= i < |prods| ==> after[i].done == prods[i].done;
  }

  lemma WaitHistories(g: Config, inserted: seq<Item>, prods: seq<Producer>, p: nat)
    requires Histories(g, inserted, prods) && p < |prods| && prods[p].done < g.strings
    ensures Histories(g, inserted, prods[p := Producer(prods[p].done, true)])
  {
    hide Of, Strings;
  }

  lemma StepHistories(g: Config, s: State, a: Action)
    requires Histories(g, s.inserted, s.prods) && Enabled(g, s, a)
    ensures Histories(g, Next(g, s, a).inserted, Next(g, s, a).prods)
  {
    hide Histories, Ring.InsertUnchecked, Ring.RemoveUnchecked, WakeConsumers, LockFree, Signals;
    match a {
      case Insert(p, w) =>
        WakeHistories(g, s.inserted, s.prods, w.prods);
        InsertHistories(g, s.inserted, WakeProducers(s.prods, w.prods), p);
      case WaitFull(p, w) =>
        WakeHistories(g, s.inserted, s.prods, w.prods);
        WaitHistories(g, s.inserted, WakeProducers(s.prods, w.prods), p);
      case Remove(c, w) => WakeHistories(g, s.inserted, s.prods, w.prods);
      case Commit(c) =>
      case WaitEmpty(c, w) => WakeHistories(g, s.inserted, s.prods, w.prods);
      case Shutdown =>
      case Broadcast => WakeHistories(g, s.inserted, s.prods, OnConCv(g, s).prods);
      case SpuriousProducer(p) => WakeHistories(g, s.inserted, s.prods, {p});
      case SpuriousConsumer(c) => WakeHistories(g, s.inserted, s.prods, {});
    }
  }

  /** The callers' check keeps insertion away from a full ring, so the ring
      stays a queue and the histories match it. */
  lemma StepRing(g: Config, s: State, a: Action)
    requires s.ring.Valid() && s.inserted == Items(s.removed) + s.ring.Contents() && Enabled(g, s, a)
    ensures var t := Next(g, s, a);
      && t.ring.Valid() && t.ring.Size() == s.ring.Size() && |t.cons| == |s.cons|
      && t.inserted == Items(t.removed) + t.ring.Contents()
  {
    hide Signals, LockFree, Ring.Contents, Ring.InsertUnchecked, Ring.Valid, Items;
    match a {
      case Insert(p, w) =>
        var x := Item(p, s.prods[p].done);
        InsertAppends(s.ring, x);
        InsertSize(s.ring, x);
        assert Items(s.removed) + (s.ring.Contents() + [x]) == s.inserted + [x];
      case Remove(c, w) =>
        RemoveTakesFirst(s.ring);
        ItemsMove(s.removed, c, s.ring.Contents());
      case _ =>
    }
  }

  lemma InsertSize(r: Ring<Item>, x: Item)
    requires r.Valid()
    ensures r.InsertUnchecked(x).Size() == r.Size()
  {}

  lemma ItemsMove(removed: seq<(nat, Item)>, c: nat, q: seq<Item>)
    ensures q != [] ==> Items(removed) + q == Items(removed + [(c, q[0])]) + q[1..]
  {
    if q != [] {
      assert Items(removed + [(c, q[0])]) == Items(removed) + [q[0]];
    }
  }

  /** The consumers after a step. */
  lemma ConsumersAre(g: Config, s: State, a: Action)
    requires Enabled(g, s, a)
    ensures var cs, ds := s.cons, Next(g, s, a).cons;
      match a
      case Insert(p, w) => ds == WakeConsumers(cs, w.cons)
      case WaitFull(p, w) => ds == WakeConsumers(cs, w.cons)
      case Remove(c, w) =>
        c < |cs| && ds == if s.ring.Empty() then WakeConsumers(cs, w.cons)[c := Finished] else WakeConsumers(cs, w.cons)
      case Commit(c) => c < |cs| && ds == cs[c := Committed]
      case WaitEmpty(c, w) => c < |cs| && cs[c] == Committed && ds == WakeConsumers(cs, w.cons)[c := Waiting]
      case Shutdown => ds == cs
      case Broadcast => ds == WakeConsumers(cs, WaitingConsumers(s))
      case SpuriousProducer(p) => ds == WakeConsumers(cs, {})
      case SpuriousConsumer(c) => ds == WakeConsumers(cs, {c})
  {
    hide Ring.InsertUnchecked, WakeProducers, WakeConsumers, ProducersDone, LockFree, Signals;
  }

  /** How a consumer can come by each status in one step. */
  lemma ConsumerStep(g: Config, s: State, a: Action)
    requires Enabled(g, s, a)
    ensures var t := Next(g, s, a);
      && |t.cons| == |s.cons|
      && (forall i :: 0 <= i < |s.cons| && t.cons[i] == Committed ==>
            s.cons[i] == Committed || (a.Commit? && a.c == i))
      && (forall i :: 0 <= i < |s.cons| && t.cons[i] == Finished ==>
            s.cons[i] == Finished || (a.Remove? && a.c == i && s.ring.Empty() && s.shutdown))
      && (forall i :: 0 <= i < |s.cons| && t.cons[i] == Waiting ==>
            !a.Broadcast? && (s.cons[i] == Waiting || (a.WaitEmpty? && a.c == i && s.cons[i] == Committed)))
  {
    ConsumersAre(g, s, a);
    assert a.Remove? && s.ring.Empty() ==> s.shutdown;
    hide Next, Enabled;
  }

  lemma RestStep(g: Config, s: State, a: Action)
    requires s.ring.Valid() && Enabled(g, s, a)
    ensures var t := Next(g, s, a);
      && t.shutdown == (s.shutdown || a.Shutdown?)
      && t.broadcast == (s.broadcast || a.Broadcast?)
      && t.lost == (if a.Broadcast? then Committed in s.cons else s.lost)
      && (s.ring.Empty() && !t.ring.Empty() ==> a.Insert?)
      && (ProducersDone(g, s) ==> ProducersDone(g, t) && !a.Insert? && !a.WaitFull?)
  {
    hide LockFree, Signals, WakeConsumers, Ring.Contents;
  }

  lemma StepLockOk(g: Config, s: State, a: Action)
    requires s.ring.Valid() && LockOk(s) && ShutdownOk(g, s) && Enabled(g, s, a)
    ensures LockOk(Next(g, s, a))
  {
    ConsumerStep(g, s, a);
    RestStep(g, s, a);
    assert Committed in s.cons ==> a.WaitEmpty? || a.Shutdown? || a.Broadcast? || a.Spurious();
    hide Next;
  }

  lemma StepShutdownOk(g: Config, s: State, a: Action)
    requires s.ring.Valid() && LockOk(s) && ShutdownOk(g, s) && Enabled(g, s, a)
    ensures ShutdownOk(g, Next(g, s, a))
  {
    ConsumerStep(g, s, a);
    RestStep(g, s, a);
    hide Next, LockOk;
  }

  /** Safety is kept by every step, spurious wake-ups included. */
  lemma StepSafe(g: Config, s: State, a: Action)
    requires Safe(g, s) && Enabled(g, s, a)
    ensures Safe(g, Next(g, s, a))
  {
    hide LockOk, ShutdownOk, Histories, Next, Enabled;
    StepRing(g, s, a);
    StepHistories(g, s, a);
    StepLockOk(g, s, a);
    StepShutdownOk(g, s, a);
  }

  lemma {:induction false} RunSafe(g: Config, ss: seq<State>, acts: seq<Action>)
    requires g.Valid() && Run(g, ss, acts)
    ensures forall i :: 0 <= i < |ss| ==> Safe(g, ss[i])
    decreases |acts|
  {
    hide Safe, Enabled, Next;
    var n := |acts|;
    if n == 0 {
      InitSafe(g, ss[0]);
    } else {
      assert Run(g, ss[..n], acts[..n - 1]);
      RunSafe(g, ss[..n], acts[..n - 1]);
      assert ss[n - 1] == ss[..n][n - 1];
      StepSafe(g, ss[n - 1], acts[n - 1]);
    }
  }

  // ----- Whole-run FIFO and conservation -----

  lemma {:induction false} OfConcat(a: seq<Item>, b: seq<Item>, p: nat)
    ensures Of(a + b, p) == Of(a, p) + Of(b, p)
    decreases |b|
  {
    if b == [] {
      assert a + b == a;
    } else {
      var n := |b| - 1;
      OfConcat(a, b[..n], p);
      OfAppend(a + b[..n], b[n], p);
      assert a + b == (a + b[..n]) + [b[n]];
    }
  }

  lemma SnocCount(h: seq<Item>, y: Item, x: Item)
    ensures multiset(h + [y])[x] == multiset(h)[x] + if x == y then 1 else 0
  {}

  lemma {:induction false} OfCounts(h: seq<Item>, x: Item)
    ensures multiset(h)[x] == multiset(Of(h, x.producer))[x]
    decreases |h|
  {
    if h == [] {
      assert Of(h, x.producer) == [];
    } else {
      hide Of;
      var r, y := h[..|h| - 1], h[|h| - 1];
      assert h == r + [y];
      OfCounts(r, x);
      OfAppend(r, y, x.producer);
      SnocCount(r, y, x);
      SnocCount(Of(r, x.producer), y, x);
      assert Of(r, x.producer) + [] == Of(r, x.producer);
    }
  }

  lemma {:induction false} StringsCount(p: nat, n: nat, k: nat)
    ensures multiset(Strings(p, n))[Item(p, k)] == if k < n then 1 else 0
  {
    if n > 0 {
      StringsCount(p, n - 1, k);
      NextString(p, n - 1);
    }
  }

  /** Everybody is done. */
  ghost predicate Final(g: Config, s: State) {
    && ProducersDone(g, s)
    && forall i :: 0 <= i < |s.cons| ==> s.cons[i] == Finished
  }

  /** In every state of every run, under either scheme, with spurious wake-ups
      or without: what was inserted is what was removed followed by what is in
      the ring, and each producer's strings leave in its own order. */
  lemma EveryRunIsFifo(g: Config, ss: seq<State>, acts: seq<Action>, i: nat)
    requires g.Valid() && Run(g, ss, acts) && i < |ss|
    ensures ss[i].ring.Valid() && ss[i].inserted == Items(ss[i].removed) + ss[i].ring.Contents()
    ensures forall p :: 0 <= p < g.producers ==> Of(Items(ss[i].removed), p) <= Strings(p, g.strings)
  {
    RunSafe(g, ss, acts);
    var s := ss[i];
    forall p | 0 <= p < g.producers ensures Of(Items(s.removed), p) <= Strings(p, g.strings) {
      OfConcat(Items(s.removed), s.ring.Contents(), p);
      assert Of(Items(s.removed), p) <= Strings(p, s.prods[p].done) <= Strings(p, g.strings);
    }
  }

  /** A removal returns NULL exactly when the ring is empty, and that happens
      only after shutdown, when every producer has finished. */
  lemma NullOnlyAfterShutdown(g: Config, ss: seq<State>, acts: seq<Action>, i: nat)
    requires g.Valid() && Run(g, ss, acts) && i < |acts| && acts[i].Remove?
    ensures ss[i].ring.RemoveUnchecked().0 == None <==> ss[i].ring.Empty()
    ensures ss[i].ring.Empty() ==> ss[i].shutdown && ProducersDone(g, ss[i])
    ensures ss[i + 1].cons[acts[i].c] == Finished <==> ss[i].ring.Empty()
  {
    RunSafe(g, ss, acts);
    assert Enabled(g, ss[i], acts[i]) && ss[i + 1] == Next(g, ss[i], acts[i]);
    assert Safe(g, ss[i]);
  }

  lemma StepDelivers(g: Config, s: State, a: Action)
    requires s.ring.Valid() && Enabled(g, s, a)
    ensures if a.Remove? && !s.ring.Empty()
            then |s.ring.Contents()| > 0 && Next(g, s, a).removed == s.removed + [(a.c, s.ring.Contents()[0])]
            else Next(g, s, a).removed == s.removed
    ensures if a.Insert?
            then a.p < |s.prods| && Next(g, s, a).inserted == s.inserted + [Item(a.p, s.prods[a.p].done)]
            else Next(g, s, a).inserted == s.inserted
  {
    RemoveTakesFirst(s.ring);
    assert s.ring.Empty() <==> s.ring.Contents() == [];
    hide Ring.InsertUnchecked, Ring.RemoveUnchecked, Ring.Contents, Ring.Valid, Signals, LockFree;
    hide WakeProducers, WakeConsumers, WaitingProducers, WaitingConsumers;
  }

  /** In every run the item that a removal takes is the oldest one, and it goes to
      the consumer that made the removal; nothing else is ever handed out. And an
      insertion adds the next string of the producer that made it. */
  lemma EveryStepDelivers(g: Config, ss: seq<State>, acts: seq<Action>, i: nat)
    requires g.Valid() && Run(g, ss, acts) && i < |acts|
    ensures ss[i].ring.Valid()
    ensures if acts[i].Remove? && !ss[i].ring.Empty()
            then |ss[i].ring.Contents()| > 0
              && ss[i + 1].removed == ss[i].removed + [(acts[i].c, ss[i].ring.Contents()[0])]
            else ss[i + 1].removed == ss[i].removed
    ensures if acts[i].Insert?
            then acts[i].p < |ss[i].prods|
              && ss[i + 1].inserted == ss[i].inserted + [Item(acts[i].p, ss[i].prods[acts[i].p].done)]
            else ss[i + 1].inserted == ss[i].inserted
  {
    hide Enabled, Next, Safe, Init, Ring.Valid, Ring.Contents;
    RunSafe(g, ss, acts);
    SafeRing(g, ss[i]);
    assert Enabled(g, ss[i], acts[i]) && ss[i + 1] == Next(g, ss[i], acts[i]);
    StepDelivers(g, ss[i], acts[i]);
  }

  lemma SafeRing(g: Config, s: State)
    requires Safe(g, s)
    ensures s.ring.Valid()
  {}

  /** When all threads have finished, every string of every producer has been
      removed exactly once, and nothing else has. */
  lemma FinalConserves(g: Config, ss: seq<State>, acts: seq<Action>)
    requires g.Valid() && g.consumers >= 1 && Run(g, ss, acts) && Final(g, ss[|acts|])
    ensures forall p: nat, k: nat ::
      multiset(Items(ss[|acts|].removed))[Item(p, k)] == if p < g.producers && k < g.strings then 1 else 0
  {
    RunSafe(g, ss, acts);
    var s := ss[|acts|];
    assert s.cons[0] == Finished && s.ring.Contents() == [];
    assert Items(s.removed) == s.inserted;
    forall p: nat, k: nat
      ensures multiset(s.inserted)[Item(p, k)] == if p < g.producers && k < g.strings then 1 else 0
    {
      OfCounts(s.inserted, Item(p, k));
      StringsCount(p, g.strings, k);
    }
  }
}
