/**
 The single-producer single-consumer queue (logger/lf_queue.h and its copy in lock-free-queue).

 `Shared` is the memory the two threads share, and each of its functions is one atomic access.
 The class `LFQueue` is the queue as one thread sees it; its methods are specified by the same
 functions that the interleaving model in Machine.dfy runs one at a time.
 An element is a sequence of words, because writing or reading one takes several memory accesses.
 */
module Queue {
  import opened Options
  import opened Modular

  datatype Shared<X> = Shared(store: seq<seq<X>>, writeIndex: nat, readIndex: nat, size: nat) {

    ghost predicate Valid() {
      && writeIndex < |store| < SIZE_MODULUS
      && readIndex < |store|
      && size < SIZE_MODULUS
    }

    /** One word of an element goes into its slot. */
    function StoreWord(slot: nat, word: nat, x: X): Shared<X>
      requires slot < |store| && word < |store[slot]|
    {
      this.(store := store[slot := store[slot][word := x]])
    }

    function StoreElement(slot: nat, e: seq<X>): Shared<X>
      requires slot < |store|
    {
      this.(store := store[slot := e])
    }

    function PublishWrite(): Shared<X>
      requires |store| > 0
    {
      this.(writeIndex := (writeIndex + 1) % |store|)
    }

    function CountUp(): Shared<X> {
      this.(size := (size + 1) % SIZE_MODULUS)
    }

    /** The queue tells "empty" from the two indices alone. */
    function NextToRead(): Option<nat> {
      if readIndex == writeIndex then None else Some(readIndex)
    }

    function PublishRead(): Shared<X>
      requires |store| > 0
    {
      this.(readIndex := (readIndex + 1) % |store|)
    }

    function CountDown(): Shared<X> {
      this.(size := (size + SIZE_MODULUS - 1) % SIZE_MODULUS)
    }

    /** A whole push: the slot, then the index, then the count. */
    function Push(e: seq<X>): Shared<X>
      requires writeIndex < |store|
    {
      StoreElement(writeIndex, e).PublishWrite().CountUp()
    }

    /** A whole removal: the index, then the count. */
    function Remove(): Shared<X>
      requires |store| > 0
    {
      PublishRead().CountDown()
    }

    /** Slots from the read index up to the write index, round the ring. */
    function Gap(): (d: nat)
      requires Valid()
      ensures d < |store|
      ensures d == 0 <==> NextToRead() == None
    {
      SameSlot(writeIndex, readIndex, |store|);
      Unique(writeIndex, |store|, 0, writeIndex);
      Unique(readIndex, |store|, 0, readIndex);
      (writeIndex - readIndex) % |store|
    }

    /** The first `k` elements that a reader would meet, in ring order. */
    function Window(k: nat): (es: seq<seq<X>>)
      requires Valid()
      ensures |es| == k
    {
      seq(k, i requires 0 <= i => store[(readIndex + i) % |store|])
    }
  }

  /** Pushing several elements one after another. */
  function PushAll<X>(q: Shared<X>, es: seq<seq<X>>): (q': Shared<X>)
    requires q.Valid()
    ensures q'.Valid() && |q'.store| == |q.store|
    ensures q'.readIndex == q.readIndex
    ensures q'.size == (q.size + |es|) % SIZE_MODULUS
    decreases |es|
  {
    if es == [] then q
    else
      var before := PushAll(q, es[..|es| - 1]);
      SizeStep(q.size, |es|);
      before.Push(es[|es| - 1])
  }

  /** `q` with `k` elements gone. */
  function Passed<X>(q: Shared<X>, k: nat): (q': Shared<X>)
    requires q.Valid() && k <= q.size
    ensures q'.Valid() && q'.store == q.store && q'.writeIndex == q.writeIndex && q'.size == q.size - k
    ensures q'.readIndex == (q.readIndex + k) % |q.store|
  {
    q.(readIndex := (q.readIndex + k) % |q.store|, size := q.size - k)
  }

  /** One turn of the flusher's loop, seen from the queue it started with. */
  lemma PassTurn<X>(was: Shared<X>, k: nat)
    requires was.Valid() && k < was.size
    ensures Passed(was, k).Remove() == Passed(was, k + 1)
    ensures was.Window(k + 1) == was.Window(k) + [was.store[Passed(was, k).readIndex]]
  {
    Succ(was.readIndex + k, |was.store|);
    Unique(was.size - k - 1 + SIZE_MODULUS, SIZE_MODULUS, 1, was.size - k - 1);
  }

  lemma SizeStep(size: nat, k: nat)
    requires k > 0
    ensures ((size + (k - 1)) % SIZE_MODULUS + 1) % SIZE_MODULUS == (size + k) % SIZE_MODULUS
  {
    Succ(size + (k - 1), SIZE_MODULUS);
  }

  lemma PushAllOne<X>(q: Shared<X>, es: seq<seq<X>>, e: seq<X>)
    requires q.Valid()
    ensures PushAll(q, es + [e]) == PushAll(q, es).Push(e)
  {
    assert (es + [e])[..|es|] == es;
  }

  lemma {:induction false} PushAllConcat<X>(q: Shared<X>, es: seq<seq<X>>, fs: seq<seq<X>>)
    requires q.Valid()
    ensures PushAll(q, es + fs) == PushAll(PushAll(q, es), fs)
    decreases |fs|
  {
    if fs == [] {
      assert es + fs == es;
    } else {
      var k := |fs| - 1;
      PushAllConcat(q, es, fs[..k]);
      assert es + fs == (es + fs[..k]) + [fs[k]];
      PushAllOne(q, es + fs[..k], fs[k]);
    }
  }

  lemma {:induction false} PushAllIndex<X>(q: Shared<X>, es: seq<seq<X>>)
    requires q.Valid()
    ensures PushAll(q, es).writeIndex == (q.writeIndex + |es|) % |q.store|
    decreases |es|
  {
    if es == [] {
      Unique(q.writeIndex, |q.store|, 0, q.writeIndex);
    } else {
      PushAllIndex(q, es[..|es| - 1]);
      Succ(q.writeIndex + |es| - 1, |q.store|);
    }
  }

  lemma RemoveGap<X>(q: Shared<X>)
    requires q.Valid() && q.NextToRead().Some?
    ensures q.Remove().Valid() && q.Remove().Gap() == q.Gap() - 1
  {
    var n, q' := |q.store|, q.Remove();
    Succ(q.readIndex, n);
    Unique(q.readIndex, n, 0, q.readIndex);
    var d := (q.writeIndex - q.readIndex) / n;
    var d' := d + if q.readIndex + 1 == n then 1 else 0;
    assert q'.writeIndex - q'.readIndex == d' * n + (q.Gap() - 1);
    Unique(q'.writeIndex - q'.readIndex, n, d', q.Gap() - 1);
  }

  class LFQueue<X> {
    const store: array<seq<X>>
    var nextWriteIndex: nat
    var nextReadIndex: nat
    var storeSize: nat

    function View(): Shared<X>
      reads this, store
    {
      Shared(store[..], nextWriteIndex, nextReadIndex, storeSize)
    }

    ghost predicate Valid()
      reads this, store
    {
      View().Valid()
    }

    constructor (capacity: nat, blank: seq<X>)
      requires 0 < capacity < SIZE_MODULUS
      ensures Valid() && fresh(store)
      ensures View() == Shared(seq(capacity, i => blank), 0, 0, 0)
    {
      store := new seq<X>[capacity](i => blank);
      nextWriteIndex, nextReadIndex, storeSize := 0, 0, 0;
      new;
      assert store[..] == seq(capacity, i => blank);
    }

    method GetNextToWriteTo() returns (slot: nat)
      requires Valid()
      ensures slot == View().writeIndex && slot < store.Length
    {
      slot := nextWriteIndex;
    }

    method UpdateNextToWriteTo()
      requires Valid()
      modifies this
      ensures Valid() && View() == old(View()).PublishWrite().CountUp()
    {
      nextWriteIndex := (nextWriteIndex + 1) % store.Length;
      storeSize := (storeSize + 1) % SIZE_MODULUS;
    }

    method GetNextToRead() returns (slot: Option<nat>)
      requires Valid()
      ensures slot == View().NextToRead()
      ensures slot == None <==> View().Gap() == 0
      ensures slot.Some? ==> slot.value < store.Length
    {
      slot := if nextReadIndex == nextWriteIndex then None else Some(nextReadIndex);
    }

    /** `ok` is false when the size assertion stops the process, with the index already moved. */
    method UpdateReadIndex() returns (ok: bool)
      requires Valid()
      modifies this
      ensures Valid()
      ensures ok <==> old(View()).size != 0
      ensures View() == if ok then old(View()).Remove() else old(View()).PublishRead()
    {
      nextReadIndex := (nextReadIndex + 1) % store.Length;
      ok := storeSize != 0;
      if ok {
        storeSize := (storeSize + SIZE_MODULUS - 1) % SIZE_MODULUS;
      }
    }

    method Size() returns (n: nat)
      requires Valid()
      ensures n == View().size
    {
      n := storeSize;
    }
  }
}
