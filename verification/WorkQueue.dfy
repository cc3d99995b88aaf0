/** The HTTP server's work queue: a linear utlist with a size, and the protocol
    of one lock and one condition variable around it. */
module WorkQueue {
  import opened Options
  import opened Orders
  import opened UtList

  function Data(items: seq<Node>): seq<int> {
    seq(|items|, i requires 0 <= i < |items| => items[i].data)
  }

  class Queue {
    var size: int
    var head: Node?
    /** The list nodes, first to be popped first. */
    ghost var items: seq<Node>

    ghost predicate Valid()
      reads this, items
    {
      size == |items| && IsList(head, items, Double)
    }

    /** The sockets waiting to be served, in push order. */
    ghost function Sockets(): seq<int>
      reads this
    {
      Data(items)
    }

    /** wq_init. */
    constructor ()
      ensures Valid() && Sockets() == []
    {
      size, head, items := 0, null, [];
    }

    /** wq_push, up to the broadcast. */
    method Push(socket: int)
      requires Valid()
      modifies this, items
      ensures Valid()
      ensures |items| == |old(items)| + 1 && old(items) <= items && fresh(items[|items| - 1])
      ensures Sockets() == old(Sockets()) + [socket]
      ensures forall s: State :: s.queue == old(Sockets()) ==> Next(s, Action.Push(socket)).queue == Sockets()
    {
      var item := new Node(socket);
      head := DlAppend(head, item, items);
      items := items + [item];
      size := size + 1;
    }

    /** One pass of wq_pop through its lock: None when the caller has to wait. */
    method TryPop() returns (socket: Option<int>)
      requires Valid()
      modifies this, items
      ensures Valid()
      ensures if old(Sockets()) == [] then socket == None && Sockets() == []
              else socket == Some(old(Sockets())[0]) && Sockets() == old(Sockets())[1..]
      ensures Delivers(old(Sockets()), socket, Sockets())
    {
      hide Nexts, Prevs, Distinct, Delivers;
      PopDelivers(Sockets());
      if size == 0 {
        return None;
      }
      socket := Some(head.data);
      size := size - 1;
      head := DlDelete(head, head, items, 0);
      assert items[..0] + items[1..] == items[1..];
      items := items[1..];
      hide IsList;
      assert Data(items) == old(Data(items))[1..];
    }
  }

  // ----- Any run of pushes and pops by any number of workers -----

  datatype State = State(queue: seq<int>, waiting: set<nat>, pushed: seq<int>, popped: seq<(nat, int)>)

  /** The critical sections. A push wakes every waiter; a waiter may also wake
      up on its own. */
  datatype Action = Push(socket: int) | Pop(w: nat) | WakeUp(w: nat)

  ghost predicate Enabled(s: State, a: Action) {
    a.Pop? ==> a.w !in s.waiting
  }

  function Next(s: State, a: Action): State {
    match a
    case Push(socket) => s.(queue := s.queue + [socket], pushed := s.pushed + [socket], waiting := {})
    case Pop(w) =>
      if s.queue == [] then s.(waiting := s.waiting + {w})
      else s.(queue := s.queue[1..], popped := s.popped + [(w, s.queue[0])])
    case WakeUp(w) => s.(waiting := s.waiting - {w})
  }

  /** What the protocol's Pop does on queue q, whoever makes it, is to hand over
      socket, if there is one, and to leave rest. */
  ghost predicate Delivers(q: seq<int>, socket: Option<int>, rest: seq<int>) {
    forall s: State, w: nat :: s.queue == q ==>
      var t := Next(s, Pop(w));
      && t.queue == rest
      && t.popped == s.popped + (if socket.None? then [] else [(w, socket.value)])
      && t.waiting == s.waiting + if socket.None? then {w} else {}
  }

  lemma PopDelivers(q: seq<int>)
    ensures if q == [] then Delivers(q, None, []) else Delivers(q, Some(q[0]), q[1..])
  {}

  function SocketsOf(p: seq<(nat, int)>): seq<int> {
    seq(|p|, i requires 0 <= i < |p| => p[i].1)
  }

  /** A run from the empty queue, as the states passed and the steps taken. */
  ghost predicate Run(r: seq<State>, acts: seq<Action>) {
    && |r| == |acts| + 1 && r[0] == State([], {}, [], [])
    && forall i :: 0 <= i < |acts| ==> Enabled(r[i], acts[i]) && r[i + 1] == Next(r[i], acts[i])
  }

  ghost predicate Inv(s: State) {
    && s.pushed == SocketsOf(s.popped) + s.queue
    && (s.waiting != {} ==> s.queue == [])
  }

  lemma StepKeepsInv(s: State, a: Action)
    requires Inv(s) && Enabled(s, a)
    ensures Inv(Next(s, a))
  {
    match a {
      case Push(socket) =>
        assert s.pushed + [socket] == SocketsOf(s.popped) + (s.queue + [socket]);
      case Pop(w) =>
        if s.queue != [] {
          assert SocketsOf(Next(s, a).popped) == SocketsOf(s.popped) + [s.queue[0]];
          assert s.queue == [s.queue[0]] + s.queue[1..];
        }
      case WakeUp(w) =>
    }
  }

  lemma {:induction false} RunKeepsInv(r: seq<State>, acts: seq<Action>)
    requires Run(r, acts)
    ensures forall i :: 0 <= i < |r| ==> Inv(r[i])
    decreases |acts|
  {
    hide Inv, Enabled, Next;
    var n := |acts|;
    if n == 0 {
      NothingPushed();
    } else {
      RunKeepsInv(r[..n], acts[..n - 1]);
      assert r[n - 1] == r[..n][n - 1];
      StepKeepsInv(r[n - 1], acts[n - 1]);
    }
  }

  lemma NothingPushed()
    ensures Inv(State([], {}, [], []))
  {}

  /** Whatever the schedule: sockets are popped exactly once, in push order,
      a worker waits only while the queue is empty, and the k-th socket pushed,
      once popped, has gone to the worker that made the k-th successful pop. */
  lemma EveryRunIsFifo(r: seq<State>, acts: seq<Action>, i: nat)
    requires Run(r, acts) && i < |acts|
    ensures r[i].pushed == SocketsOf(r[i].popped) + r[i].queue && (r[i].waiting != {} ==> r[i].queue == [])
    ensures r[i + 1].pushed == SocketsOf(r[i + 1].popped) + r[i + 1].queue
    ensures r[i + 1].waiting != {} ==> r[i + 1].queue == []
    ensures acts[i].Push? ==> r[i + 1].pushed == r[i].pushed + [acts[i].socket]
    ensures !acts[i].Push? ==> r[i + 1].pushed == r[i].pushed
    ensures if acts[i].Pop? && |r[i].popped| < |r[i].pushed|
            then r[i + 1].popped == r[i].popped + [(acts[i].w, r[i].pushed[|r[i].popped|])]
            else r[i + 1].popped == r[i].popped
    ensures acts[i].Pop? && |r[i].popped| == |r[i].pushed| ==> acts[i].w in r[i + 1].waiting
  {
    RunKeepsInv(r, acts);
    assert Inv(r[i]) && Inv(r[i + 1]) && r[i + 1] == Next(r[i], acts[i]);
  }
}
