/**
 The memory pool (memory-pool/mem_pool.h): a vector of slots, a flag per slot and a cursor to the
 slot that the next allocation takes.

 The comment at the scan says that it goes back to the beginning at the end of the vector, but the
 statement there is a comparison and not an assignment. Members with `AsWritten` in their name
 follow the statement; members with `Wrapping` follow the comment.
 */
module Pool {
  import opened Options

  datatype Slots<T> = Slots(objects: seq<T>, free: seq<bool>, cursor: nat) {
    ghost predicate Valid() {
      |objects| == |free| && cursor < |free|
    }
  }

  function Fresh<T>(n: nat, blank: T): (p: Slots<T>)
    requires n > 0
    ensures p.Valid() && |p.free| == n
  {
    Slots(seq(n, i => blank), seq(n, i => true), 0)
  }

  // ---------------------------------------------------------------------------------------------
  // The two scans.

  /** The first free slot at or above `from`, or the number of slots when there is none. */
  function FirstAbove(free: seq<bool>, from: nat): (j: nat)
    requires from <= |free|
    ensures from <= j <= |free|
    ensures j < |free| ==> free[j]
    ensures forall i :: from <= i < j ==> !free[i]
    decreases |free| - from
  {
    if from == |free| || free[from] then from else FirstAbove(free, from + 1)
  }

  /** Slots from `from` to `j` when going up and, past the end, on from the beginning. */
  function Distance(from: int, j: int, n: int): int {
    if j >= from then j - from else j - from + n
  }

  /** The cyclically first free slot at or after `from`. */
  function NextWrapping(free: seq<bool>, from: nat): (r: Option<nat>)
    requires from < |free|
    ensures r.Some? ==>
      && r.value < |free| && free[r.value]
      && forall i :: 0 <= i < |free| && free[i] ==>
           Distance(from, r.value, |free|) <= Distance(from, i, |free|)
    ensures r.None? <==> forall i :: 0 <= i < |free| ==> !free[i]
  {
    var above := FirstAbove(free, from);
    if above < |free| then Some(above)
    else
      var below := FirstAbove(free, 0);
      if below < |free| then Some(below) else None
  }

  /** The scan as written: no wrapping, so past the last slot it reads outside the vector. */
  function NextAsWritten(free: seq<bool>, from: nat): (r: Option<nat>)
    requires from < |free|
    ensures r.Some? ==> from <= r.value < |free| && free[r.value]
  {
    var above := FirstAbove(free, from);
    if above < |free| then Some(above) else None
  }

  // ---------------------------------------------------------------------------------------------
  // The operations on values.

  datatype Stop =
    | ExpectedFree      // assertion: the cursor's slot is in use
    | OutOfSpace        // assertion: the scan came round
    | OutOfRange        // not an assertion: the scan read past the vector
    | NotInPool         // assertion: the element is not of this pool
    | NotInUse          // assertion: the element is already free

  datatype Result = Handle(index: nat) | Done | Stopped(why: Stop)

  /** The object is constructed and the slot taken before the scan is started. */
  function Take<T>(p: Slots<T>, v: T): Slots<T>
    requires p.Valid()
  {
    p.(objects := p.objects[p.cursor := v], free := p.free[p.cursor := false])
  }

  function AllocatedWrapping<T>(p: Slots<T>, v: T): (r: (Result, Slots<T>))
    requires p.Valid()
    ensures r.1.Valid() && |r.1.free| == |p.free|
  {
    if !p.free[p.cursor] then (Stopped(ExpectedFree), p)
    else
      var q := Take(p, v);
      match NextWrapping(q.free, p.cursor)
      case None => (Stopped(OutOfSpace), q)
      case Some(next) => (Handle(p.cursor), q.(cursor := next))
  }

  function AllocatedAsWritten<T>(p: Slots<T>, v: T): (r: (Result, Slots<T>))
    requires p.Valid()
    ensures r.1.Valid() && |r.1.free| == |p.free|
  {
    if !p.free[p.cursor] then (Stopped(ExpectedFree), p)
    else
      var q := Take(p, v);
      match NextAsWritten(q.free, p.cursor)
      case None => (Stopped(OutOfRange), q)
      case Some(next) => (Handle(p.cursor), q.(cursor := next))
  }

  /** The two forms of allocate agree exactly when some slot above the cursor is free. */
  lemma AllocationsAgree<T>(p: Slots<T>, v: T)
    requires p.Valid() && p.free[p.cursor]
    ensures AllocatedAsWritten(p, v) == AllocatedWrapping(p, v) <==>
            exists i :: p.cursor < i < |p.free| && p.free[i]
  {
    var q := Take(p, v);
    var above := FirstAbove(q.free, p.cursor);
    assert forall i :: p.cursor < i < |p.free| ==> q.free[i] == p.free[i];
    if above < |q.free| {
      assert p.free[above];
    }
  }

  function Deallocated<T>(p: Slots<T>, elem: int): (r: (Result, Slots<T>))
    requires p.Valid()
    ensures r.1.Valid() && |r.1.free| == |p.free|
  {
    if !(0 <= elem < |p.free|) then (Stopped(NotInPool), p)
    else if p.free[elem] then (Stopped(NotInUse), p)
    else (Done, p.(free := p.free[elem := true]))
  }

  // ---------------------------------------------------------------------------------------------
  // The class.

  class MemPool<T> {
    const objects: array<T>
    const isFree: array<bool>
    var nextFree: nat

    function View(): Slots<T>
      reads this, objects, isFree
    {
      Slots(objects[..], isFree[..], nextFree)
    }

    ghost predicate Valid()
      reads this, objects, isFree
    {
      View().Valid() && objects as object != isFree
    }

    constructor (n: nat, blank: T)
      requires n > 0
      ensures Valid() && View() == Fresh(n, blank)
      ensures fresh(objects) && fresh(isFree)
    {
      objects := new T[n](i => blank);
      isFree := new bool[n](i => true);
      nextFree := 0;
      new;
      assert objects[..] == seq(n, i => blank);
      assert isFree[..] == seq(n, i => true);
    }

    /** The scan as written; None is the read past the vector. The space assertion never fires. */
    method UpdateNextFreeIndexAsWritten() returns (r: Option<nat>, outOfSpace: bool)
      requires Valid()
      modifies this
      ensures r == NextAsWritten(isFree[..], old(nextFree)) && !outOfSpace
      ensures r.Some? ==> nextFree == r.value
      ensures r.None? ==> nextFree == isFree.Length
    {
      var init := nextFree;
      outOfSpace := false;
      while nextFree < isFree.Length && !isFree[nextFree]
        invariant init <= nextFree <= isFree.Length && !outOfSpace
        invariant FirstAbove(isFree[..], nextFree) == FirstAbove(isFree[..], init)
        decreases isFree.Length - nextFree
      {
        nextFree := nextFree + 1;
        // At the end of the vector the source compares the cursor with zero, to no effect.
        if init == nextFree {
          outOfSpace := true;
          return None, outOfSpace;
        }
      }
      r := if nextFree < isFree.Length then Some(nextFree) else None;
    }

    /** The scan as intended; None is the space assertion. It never leaves the vector. */
    method UpdateNextFreeIndexWrapping() returns (r: Option<nat>)
      requires Valid()
      modifies this
      ensures Valid() && r == NextWrapping(isFree[..], old(nextFree))
      ensures r.Some? ==> nextFree == r.value
      ensures r.None? ==> nextFree == old(nextFree)
    {
      var init, n := nextFree, isFree.Length;
      ghost var passed := 0;
      while !isFree[nextFree]
        invariant nextFree < n && passed == Distance(init, nextFree, n)
        invariant forall i :: 0 <= i < n && Distance(init, i, n) < passed ==> !isFree[i]
        decreases n - passed
      {
        nextFree := nextFree + 1;
        if nextFree == n {
          nextFree := 0;
        }
        passed := passed + 1;
        if init == nextFree {
          return None;
        }
      }
      r := Some(nextFree);
    }

    method AllocateAsWritten(v: T) returns (r: Result)
      requires Valid()
      modifies this, objects, isFree
      ensures r == AllocatedAsWritten(old(View()), v).0
      ensures objects[..] == AllocatedAsWritten(old(View()), v).1.objects
      ensures isFree[..] == AllocatedAsWritten(old(View()), v).1.free
      ensures !r.Stopped? ==> Valid() && View() == AllocatedAsWritten(old(View()), v).1
      ensures old(isFree[nextFree]) ==>
        && objects[..] == old(objects[..])[old(nextFree) := v]
        && isFree[..] == old(isFree[..])[old(nextFree) := false]
    {
      if !isFree[nextFree] {
        return Stopped(ExpectedFree);
      }
      var index := nextFree;
      objects[index] := v;
      isFree[index] := false;
      var next, outOfSpace := UpdateNextFreeIndexAsWritten();
      r := if next.Some? then Handle(index) else if outOfSpace then Stopped(OutOfSpace) else Stopped(OutOfRange);
    }

    method AllocateWrapping(v: T) returns (r: Result)
      requires Valid()
      modifies this, objects, isFree
      ensures Valid()
      ensures r == AllocatedWrapping(old(View()), v).0 && View() == AllocatedWrapping(old(View()), v).1
      ensures old(isFree[nextFree]) ==>
        && objects[..] == old(objects[..])[old(nextFree) := v]
        && isFree[..] == old(isFree[..])[old(nextFree) := false]
    {
      if !isFree[nextFree] {
        return Stopped(ExpectedFree);
      }
      var index := nextFree;
      objects[index] := v;
      isFree[index] := false;
      var next := UpdateNextFreeIndexWrapping();
      r := if next.Some? then Handle(index) else Stopped(OutOfSpace);
    }

    method Deallocate(elem: int) returns (r: Result)
      requires Valid()
      modifies isFree
      ensures Valid()
      ensures r == Deallocated(old(View()), elem).0 && View() == Deallocated(old(View()), elem).1
    {
      if !(0 <= elem < isFree.Length) {
        return Stopped(NotInPool);
      }
      if isFree[elem] {
        return Stopped(NotInUse);
      }
      isFree[elem] := true;
      r := Done;
    }
  }
}
