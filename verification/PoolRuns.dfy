/** Whole runs of the memory pool, with the scan as intended and with the scan as written. */
module PoolRuns {
  import opened Pool

  /** Allocate, deallocate, or write to an object through the pointer that allocate returned. */
  datatype Op<T> = Alloc(v: T) | Free(elem: int) | Assign(elem: int, v: T)

  /** The objects in use, by index. */
  function Live<T>(p: Slots<T>): map<int, T>
    requires p.Valid()
  {
    map i: int | 0 <= i < |p.free| && !p.free[i] :: p.objects[i]
  }

  function FreeSlots<T>(p: Slots<T>): set<int> {
    set i: int | 0 <= i < |p.free| && p.free[i]
  }

  /** Writing through a pointer to a dead object is undefined; the model ends the run there. */
  function AssignedOr<T>(p: Slots<T>, elem: int, v: T): (r: (Result, Slots<T>))
    requires p.Valid()
    ensures r.1.Valid() && |r.1.free| == |p.free|
  {
    if 0 <= elem < |p.free| && !p.free[elem]
    then (Done, p.(objects := p.objects[elem := v]))
    else (Stopped(NotInUse), p)
  }

  function StepWrapping<T>(p: Slots<T>, op: Op<T>): (r: (Result, Slots<T>))
    requires p.Valid()
    ensures r.1.Valid() && |r.1.free| == |p.free|
  {
    match op
    case Alloc(v) => AllocatedWrapping(p, v)
    case Free(elem) => Deallocated(p, elem)
    case Assign(elem, v) => AssignedOr(p, elem, v)
  }

  function StepAsWritten<T>(p: Slots<T>, op: Op<T>): (r: (Result, Slots<T>))
    requires p.Valid()
    ensures r.1.Valid() && |r.1.free| == |p.free|
  {
    match op
    case Alloc(v) => AllocatedAsWritten(p, v)
    case Free(elem) => Deallocated(p, elem)
    case Assign(elem, v) => AssignedOr(p, elem, v)
  }

  /** The results of a run, up to the operation that stops it, and the pool at the end. */
  function RunWrapping<T>(p: Slots<T>, ops: seq<Op<T>>): (r: (seq<Result>, Slots<T>))
    requires p.Valid()
    ensures r.1.Valid() && |r.0| <= |ops|
    decreases |ops|
  {
    if ops == [] then ([], p)
    else
      var (first, q) := StepWrapping(p, ops[0]);
      if first.Stopped? then ([first], q)
      else
        var (rest, end) := RunWrapping(q, ops[1..]);
        ([first] + rest, end)
  }

  function RunAsWritten<T>(p: Slots<T>, ops: seq<Op<T>>): (r: (seq<Result>, Slots<T>))
    requires p.Valid()
    ensures r.1.Valid() && |r.0| <= |ops|
    decreases |ops|
  {
    if ops == [] then ([], p)
    else
      var (first, q) := StepAsWritten(p, ops[0]);
      if first.Stopped? then ([first], q)
      else
        var (rest, end) := RunAsWritten(q, ops[1..]);
        ([first] + rest, end)
  }

  // ---------------------------------------------------------------------------------------------
  // The abstract allocator: a map of live objects, and any unused index for the next one.

  /** What an allocator of n slots that keeps one slot back may answer. */
  ghost predicate Allowed<T>(n: nat, live: map<int, T>, op: Op<T>, r: Result) {
    match op
    case Alloc(_) =>
      if |live| + 2 <= n then r.Handle? && r.index < n && r.index !in live else r == Stopped(OutOfSpace)
    case Free(elem) =>
      r == if elem in live then Done else if 0 <= elem < n then Stopped(NotInUse) else Stopped(NotInPool)
    case Assign(elem, _) =>
      r == if elem in live then Done else Stopped(NotInUse)
  }

  /** And what is live after an answer that does not stop the process. */
  function After<T>(live: map<int, T>, op: Op<T>, r: Result): map<int, T> {
    match op
    case Alloc(v) => if r.Handle? then live[r.index := v] else live
    case Free(elem) => live - {elem}
    case Assign(elem, v) => live[elem := v]
  }

  ghost predicate AllowedRun<T>(n: nat, live: map<int, T>, ops: seq<Op<T>>, rs: seq<Result>)
    decreases |ops|
  {
    if ops == [] then rs == []
    else
      && rs != []
      && Allowed(n, live, ops[0], rs[0])
      && if rs[0].Stopped? then |rs| == 1 else AllowedRun(n, After(live, ops[0], rs[0]), ops[1..], rs[1..])
  }

  function AfterRun<T>(live: map<int, T>, ops: seq<Op<T>>, rs: seq<Result>): map<int, T>
    requires |rs| <= |ops|
    decreases |ops|
  {
    if rs == [] then live else AfterRun(After(live, ops[0], rs[0]), ops[1..], rs[1..])
  }

  // ---------------------------------------------------------------------------------------------
  // The intended pool is such an allocator.

  function Range(n: nat): (r: set<int>)
    ensures |r| == n && forall i :: i in r <==> 0 <= i < n
  {
    if n == 0 then {} else Range(n - 1) + {n - 1}
  }

  /** Every slot is live or free. */
  lemma Conservation<T>(p: Slots<T>)
    requires p.Valid()
    ensures |Live(p)| + |FreeSlots(p)| == |p.free|
  {
    assert Live(p).Keys + FreeSlots(p) == Range(|p.free|);
    assert Live(p).Keys !! FreeSlots(p);
  }

  /** Allocation returns exactly when two slots are free, and then leaves one free under the cursor. */
  lemma AllocationReturns<T>(p: Slots<T>, v: T)
    requires p.Valid() && p.free[p.cursor]
    ensures var (r, q) := AllocatedWrapping(p, v);
      && (r.Handle? <==> |FreeSlots(p)| >= 2)
      && (r.Handle? ==> q.free[q.cursor] && |Live(q)| <= |q.free| - 1)
      && (!r.Handle? ==> r == Stopped(OutOfSpace))
  {
    var q := Take(p, v);
    assert FreeSlots(q) == FreeSlots(p) - {p.cursor};
    var next := NextWrapping(q.free, p.cursor);
    if next.Some? {
      assert next.value in FreeSlots(q);
      var end := q.(cursor := next.value);
      Conservation(end);
      assert next.value in FreeSlots(end);
    } else {
      assert FreeSlots(q) == {};
    }
  }

  lemma AllocRefines<T>(p: Slots<T>, v: T)
    requires p.Valid() && p.free[p.cursor]
    ensures var (r, q) := AllocatedWrapping(p, v);
      && Allowed(|p.free|, Live(p), Alloc(v), r)
      && (!r.Stopped? ==> q.free[q.cursor] && Live(q) == After(Live(p), Alloc(v), r))
  {
    Conservation(p);
    AllocationReturns(p, v);
  }

  /** One operation of the intended pool, seen by its client. */
  lemma StepRefines<T>(p: Slots<T>, op: Op<T>)
    requires p.Valid() && p.free[p.cursor]
    ensures var (r, q) := StepWrapping(p, op);
      && Allowed(|p.free|, Live(p), op, r)
      && (!r.Stopped? ==> q.free[q.cursor] && Live(q) == After(Live(p), op, r))
  {
    if op.Alloc? {
      AllocRefines(p, op.v);
    }
  }

  lemma AllowedFirst<T>(n: nat, live: map<int, T>, ops: seq<Op<T>>, first: Result, rest: seq<Result>)
    requires ops != [] && !first.Stopped? && |rest| < |ops|
    requires Allowed(n, live, ops[0], first) && AllowedRun(n, After(live, ops[0], first), ops[1..], rest)
    ensures AllowedRun(n, live, ops, [first] + rest)
    ensures AfterRun(live, ops, [first] + rest) == AfterRun(After(live, ops[0], first), ops[1..], rest)
  {
    hide Allowed, After;
    assert ([first] + rest)[1..] == rest;
  }

  lemma AllowedStop<T>(n: nat, live: map<int, T>, ops: seq<Op<T>>, first: Result)
    requires ops != [] && first.Stopped? && Allowed(n, live, ops[0], first)
    ensures AllowedRun(n, live, ops, [first])
  {
    hide Allowed, After;
  }

  /** The run has not been stopped. */
  predicate Unstopped(rs: seq<Result>) {
    rs == [] || !rs[|rs| - 1].Stopped?
  }

  lemma UnstoppedCons(first: Result, rest: seq<Result>)
    ensures Unstopped([first] + rest) <==> if rest == [] then !first.Stopped? else Unstopped(rest)
  {
    if rest != [] {
      assert ([first] + rest)[|rest|] == rest[|rest| - 1];
    }
  }

  lemma {:induction false} RunRefines<T>(p: Slots<T>, ops: seq<Op<T>>)
    requires p.Valid() && p.free[p.cursor]
    ensures var (rs, end) := RunWrapping(p, ops);
      && AllowedRun(|p.free|, Live(p), ops, rs)
      && (Unstopped(rs) ==>
            end.free[end.cursor] && Live(end) == AfterRun(Live(p), ops, rs))
    decreases |ops|
  {
    hide StepWrapping, Allowed, After, Live;
    if ops != [] {
      StepRefines(p, ops[0]);
      var (first, q) := StepWrapping(p, ops[0]);
      if first.Stopped? {
        AllowedStop(|p.free|, Live(p), ops, first);
      } else {
        hide AllowedRun, AfterRun, Unstopped;
        RunRefines(q, ops[1..]);
        AllowedFirst(|p.free|, Live(p), ops, first, RunWrapping(q, ops[1..]).0);
        UnstoppedCons(first, RunWrapping(q, ops[1..]).0);
      }
    }
  }

  /**
   Over every run from a fresh pool the intended pool answers as the abstract allocator may: handles
   of live objects are distinct, a live object's contents are what was last put there, whatever
   happens to the others, an index is rejected exactly when it is not live, and no run stops
   because the cursor's slot is in use.
   */
  lemma PoolRefinesAllocator<T>(n: nat, blank: T, ops: seq<Op<T>>)
    requires n > 0
    ensures var (rs, end) := RunWrapping(Fresh(n, blank), ops);
      && AllowedRun(n, map[], ops, rs)
      && (Unstopped(rs) ==>
            end.free[end.cursor] && Live(end) == AfterRun(map[], ops, rs))
  {
    assert Live(Fresh(n, blank)) == map[];
    RunRefines(Fresh(n, blank), ops);
  }

  // ---------------------------------------------------------------------------------------------
  // The pool as written is a bump allocator.

  function Allocations<T>(ops: seq<Op<T>>): nat {
    if ops == [] then 0 else Allocations(ops[1..]) + if ops[0].Alloc? then 1 else 0
  }

  /** After k allocations the cursor is at k and nothing from there on has been used. */
  ghost predicate Bumped<T>(p: Slots<T>, k: nat) {
    p.Valid() && p.cursor == k && forall i :: k <= i < |p.free| ==> p.free[i]
  }

  lemma BumpStep<T>(p: Slots<T>, k: nat, op: Op<T>)
    requires Bumped(p, k)
    ensures var (r, q) := StepAsWritten(p, op);
      && (op.Alloc? ==> r == if k + 1 < |p.free| then Handle(k) else Stopped(OutOfRange))
      && (!r.Stopped? ==> Bumped(q, k + if op.Alloc? then 1 else 0))
  {
    if op.Alloc? {
      var q := Take(p, op.v);
      assert k + 1 < |q.free| ==> FirstAbove(q.free, k + 1) == k + 1;
    }
  }

  lemma {:induction false} BumpRun<T>(p: Slots<T>, k: nat, ops: seq<Op<T>>, i: nat)
    requires Bumped(p, k)
    requires i < |RunAsWritten(p, ops).0| && ops[i].Alloc?
    ensures RunAsWritten(p, ops).0[i] ==
              var made := k + Allocations(ops[..i]);
              if made + 1 < |p.free| then Handle(made) else Stopped(OutOfRange)
    decreases |ops|
  {
    BumpStep(p, k, ops[0]);
    if i > 0 {
      var (first, q) := StepAsWritten(p, ops[0]);
      BumpRun(q, k + (if ops[0].Alloc? then 1 else 0), ops[1..], i - 1);
      assert ops[..i][1..] == ops[1..][..i - 1];
    }
  }

  /**
   As written, the allocation that comes after k others returns index k, whatever was deallocated in
   between, while k is below the last index; the one that takes the last slot reads past the
   vector. So at most n - 1 allocations complete in the life of a pool of n slots.
   */
  lemma AsWrittenNeverReuses<T>(n: nat, blank: T, ops: seq<Op<T>>, i: nat)
    requires n > 0 && i < |RunAsWritten(Fresh(n, blank), ops).0| && ops[i].Alloc?
    ensures RunAsWritten(Fresh(n, blank), ops).0[i] ==
              if Allocations(ops[..i]) + 1 < n then Handle(Allocations(ops[..i])) else Stopped(OutOfRange)
  {
    BumpRun(Fresh(n, blank), 0, ops, i);
  }

  lemma StepsAgree<T>(p: Slots<T>, k: nat, op: Op<T>)
    requires Bumped(p, k)
    ensures StepAsWritten(p, op) == StepWrapping(p, op) <==> k + (if op.Alloc? then 1 else 0) < |p.free|
    ensures op.Alloc? && k + 1 >= |p.free| ==>
              StepAsWritten(p, op).0.Stopped? && StepAsWritten(p, op).0 != StepWrapping(p, op).0
  {
    BumpStep(p, k, op);
    if op.Alloc? {
      AllocationsAgree(p, op.v);
    }
  }

  lemma {:induction false} BumpedRunsAgree<T>(p: Slots<T>, k: nat, ops: seq<Op<T>>)
    requires Bumped(p, k)
    ensures RunAsWritten(p, ops) == RunWrapping(p, ops) <==>
            k + Allocations(ops[..|RunAsWritten(p, ops).0|]) < |p.free|
    decreases |ops|
  {
    hide StepAsWritten, StepWrapping;
    if ops != [] {
      BumpStep(p, k, ops[0]);
      StepsAgree(p, k, ops[0]);
      var (first, q) := StepAsWritten(p, ops[0]);
      if first.Stopped? {
        assert RunWrapping(p, ops).0[0] == StepWrapping(p, ops[0]).0;
        assert ops[..1][0] == ops[0] && Allocations(ops[..1][1..]) == 0;
      } else {
        BumpedRunsAgree(q, k + (if ops[0].Alloc? then 1 else 0), ops[1..]);
        var m := |RunAsWritten(q, ops[1..]).0|;
        assert ops[..m + 1][1..] == ops[1..][..m];
        var (rest, end) := RunWrapping(q, ops[1..]);
        assert ([first] + rest)[1..] == rest;
      }
    }
  }

  /**
   Whole runs with the scan as written and as intended: the same answers and the same pool at the
   end, exactly when fewer allocations than there are slots have been made by the time it stops.
   */
  lemma RunsAgree<T>(n: nat, blank: T, ops: seq<Op<T>>)
    requires n > 0
    ensures RunAsWritten(Fresh(n, blank), ops) == RunWrapping(Fresh(n, blank), ops) <==>
            Allocations(ops[..|RunAsWritten(Fresh(n, blank), ops).0|]) < n
  {
    BumpedRunsAgree(Fresh(n, blank), 0, ops);
  }

  /** No operation of the run, of `n` operations, stops it. */
  predicate Complete(rs: seq<Result>, n: nat) {
    |rs| == n && forall r :: r in rs ==> !r.Stopped?
  }

  lemma CompleteCons(first: Result, rest: seq<Result>, n: nat)
    requires n > 0 && Complete([first] + rest, n)
    ensures !first.Stopped? && Complete(rest, n - 1)
  {
    assert first in [first] + rest;
    assert forall r :: r in rest ==> r in [first] + rest;
  }

  lemma {:induction false} RunAsWrittenComplete<T>(p: Slots<T>, ops: seq<Op<T>>, k: nat)
    requires Bumped(p, k) && Complete(RunAsWritten(p, ops).0, |ops|)
    ensures k + Allocations(ops) < |p.free|
    decreases |ops|
  {
    hide StepAsWritten, Complete;
    if ops != [] {
      BumpStep(p, k, ops[0]);
      var (first, q) := StepAsWritten(p, ops[0]);
      var rest := if first.Stopped? then [] else RunAsWritten(q, ops[1..]).0;
      assert RunAsWritten(p, ops).0 == [first] + rest;
      CompleteCons(first, rest, |ops|);
      RunAsWrittenComplete(q, ops[1..], k + if ops[0].Alloc? then 1 else 0);
    }
  }

  /** A run of as many allocations as there are slots never completes, however much it gives back. */
  lemma AsWrittenIsExhausted<T>(n: nat, blank: T, ops: seq<Op<T>>)
    requires n > 0 && Allocations(ops) >= n
    ensures var rs := RunAsWritten(Fresh(n, blank), ops).0;
      |rs| < |ops| || exists i :: 0 <= i < |rs| && rs[i].Stopped?
  {
    var rs := RunAsWritten(Fresh(n, blank), ops).0;
    if |rs| == |ops| && forall i :: 0 <= i < |rs| ==> !rs[i].Stopped? {
      RunAsWrittenComplete(Fresh(n, blank), ops, 0);
    }
  }
}
