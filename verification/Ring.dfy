/** The spooler's ring buffer. capacity counts the FREE slots. The operations
    are functions on ring values, the array-based structure is proved against
    them, and they are proved to be a bounded queue. */
module Ring {
  import opened Options

  /** a % n, for the only values the ring takes it of. */
  function Slot(a: nat, n: nat): (r: nat)
    requires a < 2 * n
    ensures r < n
  {
    if a < n then a else a - n
  }

  lemma SlotMod(a: nat, n: nat)
    requires a < 2 * n
    ensures a % n == Slot(a, n)
  {
    if a >= n {
      assert (a - n) % n == a - n;
      assert a / n == 1;
    }
  }

  datatype Ring<T> = Ring(elements: seq<T>, read: nat, write: nat, capacity: nat) {
    function Size(): nat {
      |elements|
    }

    /** spool_empty. */
    predicate Empty() {
      capacity == Size()
    }

    /** spool_full. */
    predicate Full() {
      capacity == 0
    }

    /** What every checked operation keeps: the write index is where the
        occupied slots, counted from the read index, end. */
    ghost predicate Valid() {
      && Size() >= 1 && read < Size() && write < Size() && capacity <= Size()
      && write == Slot(read + Size() - capacity, Size())
    }

    /** The queue the ring stands for, oldest item first. */
    ghost function Contents(): (q: seq<T>)
      requires read < Size() && capacity <= Size()
      ensures |q| == Size() - capacity
      ensures forall i :: 0 <= i < |q| ==> q[i] == elements[Slot(read + i, Size())]
    {
      seq(Size() - capacity, i requires 0 <= i < Size() - capacity => elements[Slot(read + i, Size())])
    }

    /** spool_insert_unchecked. On a full ring it overwrites the slot at the
        write index and moves only that index on. */
    function InsertUnchecked(x: T): Ring<T>
      requires Size() > 0 ==> write < Size()
    {
      if Size() == 0 then this
      else this.(capacity := if Full() then capacity else capacity - 1,
                 elements := elements[write := x],
                 write := (write + 1) % Size())
    }

    /** spool_remove_unchecked. */
    function RemoveUnchecked(): (Option<T>, Ring<T>)
      requires Size() > 0 ==> read < Size()
    {
      if Empty() || Size() == 0 then (None, this)
      else (Some(elements[read]), this.(capacity := capacity + 1, read := (read + 1) % Size()))
    }
  }

  /** spool_init_shared; the array's first contents do not matter. */
  function NewRing<T>(elements: seq<T>): Ring<T> {
    Ring(elements, 0, 0, |elements|)
  }

  lemma NewRingEmpty<T>(elements: seq<T>)
    requires elements != []
    ensures NewRing(elements).Valid() && NewRing(elements).Contents() == []
  {}

  /** The items of the queue from the i-th on are in the same slots of elements. */
  ghost predicate Stays<T>(r: Ring<T>, elements: seq<T>, i: nat)
    requires r.Valid()
  {
    && |elements| == r.Size()
    && forall k :: i <= k < |r.Contents()| ==> elements[Slot(r.read + k, r.Size())] == r.Contents()[k]
  }

  /** Inserting into a ring that is not full appends to the queue, and no item
      moves in the array. */
  lemma InsertAppends<T>(r: Ring<T>, x: T)
    requires r.Valid() && !r.Full()
    ensures r.InsertUnchecked(x).Valid()
    ensures r.InsertUnchecked(x).Contents() == r.Contents() + [x]
    ensures r.InsertUnchecked(x).read == r.read && Stays(r, r.InsertUnchecked(x).elements, 0)
  {
    SlotMod(r.write + 1, r.Size());
    var q, c := r.Contents(), r.InsertUnchecked(x).Contents();
    forall i | 0 <= i < |c| ensures c[i] == (q + [x])[i] {
      if i < |q| {
        assert q[i] == r.elements[Slot(r.read + i, r.Size())];
      }
    }
  }

  /** Removing takes the oldest item, or reports that there is none; the others
      do not move in the array. */
  lemma RemoveTakesFirst<T>(r: Ring<T>)
    requires r.Valid()
    ensures r.RemoveUnchecked().1.Valid()
    ensures if r.Contents() == [] then r.RemoveUnchecked() == (None, r)
            else (r.RemoveUnchecked().0 == Some(r.Contents()[0])
                  && r.RemoveUnchecked().1.Contents() == r.Contents()[1..])
    ensures Stays(r, r.RemoveUnchecked().1.elements, 1)
  {
    SlotMod(r.read + 1, r.Size());
    if r.Contents() != [] {
      RemoveShifts(r);
    }
  }

  /** One slot further, counted from either end. */
  lemma SlotShift(read: nat, i: nat, n: nat)
    requires read < n && i < n
    ensures Slot(Slot(read + 1, n) + i, n) == if i + 1 < n then Slot(read + (i + 1), n) else read
  {}

  lemma RemoveShifts<T>(r: Ring<T>)
    requires r.Valid() && r.Contents() != [] && r.RemoveUnchecked().1.Valid()
    ensures r.RemoveUnchecked().0 == Some(r.Contents()[0])
    ensures r.RemoveUnchecked().1.Contents() == r.Contents()[1..]
  {
    var n, t := r.Size(), r.RemoveUnchecked().1;
    SlotMod(r.read + 1, n);
    assert t.elements == r.elements && t.read == Slot(r.read + 1, n) && t.capacity == r.capacity + 1;
    var q, c := r.Contents(), t.Contents();
    assert q[0] == r.elements[r.read];
    hide Ring.RemoveUnchecked, Slot;
    forall i | 0 <= i < |c| ensures c[i] == q[1..][i] {
      SlotShift(r.read, i, n);
      assert q[1..][i] == q[i + 1];
    }
  }

  /** The callers' check matters: inserting appends exactly when the ring is
      not full. On a full ring the oldest item is replaced by the new one. */
  lemma InsertAppendsIff<T>(r: Ring<T>, x: T)
    requires r.Valid()
    ensures r.InsertUnchecked(x).Contents() == r.Contents() + [x] <==> !r.Full()
    ensures r.Full() ==> r.InsertUnchecked(x).Contents() == [x] + r.Contents()[1..]
  {
    if r.Full() {
      SlotMod(r.write + 1, r.Size());
      var c := r.InsertUnchecked(x).Contents();
      var q := r.Contents();
      forall i | 0 <= i < |c| ensures c[i] == ([x] + q[1..])[i] {
        assert q[i] == r.elements[Slot(r.read + i, r.Size())];
      }
      assert |r.InsertUnchecked(x).Contents()| != |r.Contents() + [x]|;
    } else {
      InsertAppends(r, x);
    }
  }

  // ----- Any sequence of checked operations is a bounded queue -----

  datatype Op<T> = Put(x: T) | Take

  /** The ring under the checked operations of spooler_unsafe.c, with the
      results of the removals. */
  function RunRing<T>(r: Ring<T>, ops: seq<Op<T>>): (seq<Option<T>>, Ring<T>)
    requires r.Size() > 0 ==> r.read < r.Size() && r.write < r.Size()
    decreases |ops|
  {
    if ops == [] then ([], r)
    else match ops[0]
      case Put(x) => RunRing(if r.Full() then r else r.InsertUnchecked(x), ops[1..])
      case Take =>
        var (x, r') := r.RemoveUnchecked();
        var (xs, r'') := RunRing(r', ops[1..]);
        ([x] + xs, r'')
  }

  /** A plain queue that refuses insertions beyond size. */
  function RunQueue<T>(q: seq<T>, size: nat, ops: seq<Op<T>>): (seq<Option<T>>, seq<T>)
    decreases |ops|
  {
    if ops == [] then ([], q)
    else match ops[0]
      case Put(x) => RunQueue(if |q| >= size then q else q + [x], size, ops[1..])
      case Take =>
        var (x, q') := if q == [] then (None, q) else (Some(q[0]), q[1..]);
        var (xs, q'') := RunQueue(q', size, ops[1..]);
        ([x] + xs, q'')
  }

  lemma {:induction false} RingIsQueue<T>(r: Ring<T>, ops: seq<Op<T>>)
    requires r.Valid()
    ensures RunRing(r, ops).1.Valid()
    ensures RunRing(r, ops).0 == RunQueue(r.Contents(), r.Size(), ops).0
    ensures RunRing(r, ops).1.Contents() == RunQueue(r.Contents(), r.Size(), ops).1
    decreases |ops|
  {
    if ops != [] {
      match ops[0] {
        case Put(x) =>
          if r.Full() {
            RingIsQueue(r, ops[1..]);
          } else {
            InsertAppends(r, x);
            RingIsQueue(r.InsertUnchecked(x), ops[1..]);
          }
        case Take =>
          RemoveTakesFirst(r);
          RingIsQueue(r.RemoveUnchecked().1, ops[1..]);
      }
    }
  }

  // ----- The structure in memory -----

  class Spool<T(0)> {
    var writeIndex: nat
    var readIndex: nat
    const size: nat
    var capacity: nat
    const elements: array<T>

    ghost predicate Valid()
      reads this, elements
    {
      && elements.Length == size
      && (size > 0 ==> View().Valid())
      && (size == 0 ==> capacity == 0)
    }

    ghost function View(): Ring<T>
      reads this, elements
    {
      Ring(elements[..], readIndex, writeIndex, capacity)
    }

    constructor (size: nat)
      ensures Valid() && fresh(elements)
      ensures View() == NewRing(elements[..]) && this.size == size
    {
      writeIndex, readIndex, capacity := 0, 0, size;
      this.size := size;
      elements := new T[size];
    }

    /** Makes no check: only when there is room does it keep the buffer valid.
        (On a full buffer C also frees the item it overwrites.) */
    method InsertUnchecked(item: T)
      requires Valid()
      modifies this, elements
      ensures View() == old(View()).InsertUnchecked(item)
      ensures !old(View().Full()) ==> Valid() && View().Contents() == old(View().Contents()) + [item]
      ensures size == 0 ==> View() == old(View())
    {
      if size <= 0 {
        return;
      }
      if capacity != 0 {
        InsertAppends(View(), item);
        capacity := capacity - 1;
      }
      elements[writeIndex] := item;
      writeIndex := (writeIndex + 1) % size;
      assert elements[..] == old(elements[..])[old(writeIndex) := item];
    }

    method RemoveUnchecked() returns (res: Option<T>)
      requires Valid()
      modifies this
      ensures Valid() && (res, View()) == old(View()).RemoveUnchecked()
      ensures size > 0 && old(View().Contents()) != [] ==>
        res == Some(old(View().Contents())[0]) && View().Contents() == old(View().Contents())[1..]
    {
      if capacity == size {
        return None;
      }
      RemoveTakesFirst(View());
      capacity := capacity + 1;
      res := Some(elements[readIndex]);
      readIndex := (readIndex + 1) % size;
    }

    /** spool_insert_unsafe: drops the item when there is no room. */
    method InsertUnsafe(item: T)
      requires Valid()
      modifies this, elements
      ensures Valid()
      ensures size > 0 && old(View().Full()) ==> View() == old(View())
      ensures size > 0 && !old(View().Full()) ==> View().Contents() == old(View().Contents()) + [item]
    {
      if capacity == 0 {
        return;
      }
      InsertUnchecked(item);
    }

    /** spool_remove_unsafe: None when there is nothing to remove. */
    method RemoveUnsafe() returns (res: Option<T>)
      requires Valid()
      modifies this
      ensures Valid() && (res, View()) == old(View()).RemoveUnchecked()
    {
      if capacity == size {
        return None;
      }
      res := RemoveUnchecked();
    }
  }
}
