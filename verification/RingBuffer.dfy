/**
 The lossy ring buffer (binary-logger-ring-buffer/ringBuffer.h). Nothing in it looks at the
 distance between the indices, so it is described in terms of everything ever pushed and of the
 number of pops, however far either is ahead.
 */
module RingBuffers {
  import opened Modular

  /** The last value pushed into a slot of n, or the initial one. */
  function SlotValue<T>(pushed: seq<T>, n: nat, slot: nat, blank: T): T
    requires n > 0
  {
    if pushed == [] then blank
    else
      var k := |pushed| - 1;
      if k % n == slot then pushed[k] else SlotValue(pushed[..k], n, slot, blank)
  }

  /** The greatest number below `pushes` that shares a slot of n with `pops`. It may be negative. */
  function Latest(pushes: nat, pops: nat, n: nat): (q: int)
    requires n > 0
    ensures q < pushes <= q + n && q % n == pops % n
  {
    var ahead := pushes - 1 - pops;
    var q := pushes - 1 - ahead % n;
    SameSlot(q, pops, n);
    Unique(q - pops, n, ahead / n, 0);
    q
  }

  lemma LatestFormula(pushes: nat, pops: nat, n: nat)
    requires n > 0
    ensures Latest(pushes, pops, n) == pops + n * ((pushes - 1 - pops) / n)
  {
  }

  lemma LatestUnique(pushes: nat, pops: nat, n: nat, q: int)
    requires n > 0 && q < pushes <= q + n && q % n == pops % n
    ensures q == Latest(pushes, pops, n)
  {
    var l := Latest(pushes, pops, n);
    if q < l {
      Apart(l, q, n);
    } else if l < q {
      Apart(q, l, n);
    }
  }

  /** A push into another slot leaves the latest number of this one. */
  lemma LatestStays(k: nat, pops: nat, n: nat)
    requires n > 0 && k % n != pops % n
    ensures Latest(k + 1, pops, n) == Latest(k, pops, n)
  {
    var q := Latest(k, pops, n);
    SameSlot(k, q, n);
    Unique(n, n, 1, 0);
    LatestUnique(k + 1, pops, n, q);
  }

  /**
   The closed form. Whatever the order of pushes and pops, and however often the ring has been
   overrun, the next value to be popped is the value pushed under number
   pops + n * floor((pushes - 1 - pops) / n), or the initial one if there is none.
   */
  lemma {:induction false} ClosedForm<T>(pushed: seq<T>, pops: nat, n: nat, blank: T)
    requires n > 0
    ensures var q := Latest(|pushed|, pops, n);
      SlotValue(pushed, n, pops % n, blank) == if q >= 0 then pushed[q] else blank
    decreases |pushed|
  {
    if pushed != [] {
      var k := |pushed| - 1;
      if k % n == pops % n {
        LatestUnique(|pushed|, pops, n, k);
      } else {
        ClosedForm(pushed[..k], pops, n, blank);
        LatestStays(k, pops, n);
      }
    }
  }

  /** Whatever the values, the next one popped is the next one due. */
  ghost predicate InOrder(pushes: nat, pops: nat, n: nat)
    requires n > 0 && pops < pushes
  {
    forall pushed: seq<int> | |pushed| == pushes :: SlotValue(pushed, n, pops % n, 0) == pushed[pops]
  }

  lemma NearIsNext(pushes: nat, pops: nat, n: nat)
    requires n > 0 && pops < pushes
    ensures Latest(pushes, pops, n) >= pops
    ensures Latest(pushes, pops, n) == pops <==> pushes - pops <= n
  {
    if pushes - pops <= n {
      LatestUnique(pushes, pops, n, pops);
    }
    var q := Latest(pushes, pops, n);
    if q < pops {
      Apart(pops, q, n);
    }
  }

  /** Reading is first in, first out, for all values, exactly while the pushes are at most n ahead. */
  lemma FifoIff(pushes: nat, pops: nat, n: nat)
    requires n > 0 && pops < pushes
    ensures InOrder(pushes, pops, n) <==> pushes - pops <= n
  {
    NearIsNext(pushes, pops, n);
    forall pushed: seq<int> | |pushed| == pushes
      ensures SlotValue(pushed, n, pops % n, 0) == pushed[Latest(pushes, pops, n)]
    {
      ClosedForm(pushed, pops, n, 0);
    }
    var numbered: seq<int> := seq(pushes, i => i);
    assert SlotValue(numbered, n, pops % n, 0) == Latest(pushes, pops, n);
  }

  /** The ring reports itself full exactly when one slot is left modulo n. */
  lemma FullIff(pushes: nat, pops: nat, n: nat)
    requires n > 0
    ensures pops % n == (pushes + 1) % n <==> (pushes - pops) % n == n - 1
  {
    SameSlot(pushes + 1, pops, n);
    var d := pushes - pops;
    Unique(d, n, d / n, d % n);
    if d % n == n - 1 {
      Unique(d + 1, n, d / n + 1, 0);
    } else {
      Unique(d + 1, n, d / n, d % n + 1);
    }
  }

  class RingBuffer<T> {
    const buffer: array<T>
    var readIndex: nat
    var writeIndex: nat
    var size: nat
    ghost const blank: T
    /** Every value pushed so far, and the number of pops. */
    ghost var pushed: seq<T>
    ghost var pops: nat

    ghost predicate Indices()
      reads this
    {
      && buffer.Length > 0
      && writeIndex == |pushed| % buffer.Length
      && readIndex == pops % buffer.Length
      && size == (|pushed| - pops) % SIZE_MODULUS
    }

    ghost predicate Valid()
      reads this, buffer
    {
      && Indices()
      && forall slot :: 0 <= slot < buffer.Length ==>
           buffer[slot] == SlotValue(pushed, buffer.Length, slot, blank)
    }

    constructor (n: nat, blank: T)
      requires n > 0
      ensures Valid() && fresh(buffer) && buffer.Length == n
      ensures pushed == [] && pops == 0 && this.blank == blank
    {
      buffer := new T[n](i => blank);
      readIndex, writeIndex, size := 0, 0, 0;
      this.blank, pushed, pops := blank, [], 0;
      new;
      Unique(0, n, 0, 0);
    }

    method IsFull() returns (full: bool)
      requires Valid()
      ensures full <==> (|pushed| - pops) % buffer.Length == buffer.Length - 1
    {
      var nextWrite := (writeIndex + 1) % buffer.Length;
      full := readIndex == nextWrite;
      Succ(|pushed|, buffer.Length);
      FullIff(|pushed|, pops, buffer.Length);
    }

    /** The value under the read pointer. */
    method PopNext() returns (x: T)
      requires Valid()
      ensures var q := Latest(|pushed|, pops, buffer.Length);
        x == if q >= 0 then pushed[q] else blank
      ensures pops < |pushed| <= pops + buffer.Length ==> x == pushed[pops]
    {
      x := buffer[readIndex];
      ClosedForm(pushed, pops, buffer.Length, blank);
      if pops < |pushed| {
        NearIsNext(|pushed|, pops, buffer.Length);
      }
    }

    method MoveReadIndex()
      requires Valid()
      modifies this
      ensures Valid() && pops == old(pops) + 1 && pushed == old(pushed)
    {
      Succ(pops, buffer.Length);
      SizeDown(|pushed| - pops);
      readIndex := (readIndex + 1) % buffer.Length;
      size := (size + SIZE_MODULUS - 1) % SIZE_MODULUS;
      pops := pops + 1;
    }

    method PushInto() returns (slot: nat)
      requires Valid()
      ensures slot == |pushed| % buffer.Length && slot < buffer.Length
    {
      slot := writeIndex;
    }

    /** Publishes what is in the write slot by then. */
    method MoveWriteIndex()
      requires Indices()
      requires forall slot :: 0 <= slot < buffer.Length && slot != writeIndex ==>
                 buffer[slot] == SlotValue(pushed, buffer.Length, slot, blank)
      modifies this
      ensures Valid() && pops == old(pops) && pushed == old(pushed) + [buffer[old(writeIndex)]]
    {
      Succ(|pushed|, buffer.Length);
      Succ(|pushed| - pops, SIZE_MODULUS);
      ghost var v := buffer[writeIndex];
      assert (pushed + [v])[..|pushed|] == pushed;
      pushed := pushed + [v];
      writeIndex := (writeIndex + 1) % buffer.Length;
      size := (size + 1) % SIZE_MODULUS;
    }

    method Push(v: T)
      requires Valid()
      modifies this, buffer
      ensures Valid() && pushed == old(pushed) + [v] && pops == old(pops)
    {
      var slot := PushInto();
      buffer[slot] := v;
      MoveWriteIndex();
    }

    /** The difference of the two counts; the true one, unless a reader has overtaken the writer. */
    method Size() returns (k: nat)
      requires Valid()
      ensures k == (|pushed| - pops) % 0x1_0000_0000_0000_0000
      ensures 0 <= |pushed| - pops < 0x1_0000_0000_0000_0000 ==> k == |pushed| - pops
      ensures |pushed| < pops <= |pushed| + 0x1_0000_0000_0000_0000 ==>
                k == 0x1_0000_0000_0000_0000 - (pops - |pushed|)
    {
      k := size;
    }
  }

  lemma SizeDown(d: int)
    ensures (d % SIZE_MODULUS + SIZE_MODULUS - 1) % SIZE_MODULUS == (d - 1) % SIZE_MODULUS
  {
  }
}
