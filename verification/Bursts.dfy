/**
 Uninterrupted stretches of one thread. A thread that runs a whole operation undisturbed does what
 the operation does on the queue as a value; and with such stretches the runs are built that show
 the margins of Pacing.dfy to be the smallest ones that work.
 */
module Bursts {
  import opened Options
  import opened Modular
  import opened Sequences
  import opened Queue
  import opened Machine
  import opened Pacing
  import opened Shutdown

  /** The producer can take its next element. */
  ghost predicate CanPush<X>(c: Config<X>, s: State<X>) {
    Shaped(c, s) && s.producer == Idle && s.pushes < |c.program| && !Halted(s)
  }

  /** After `word` words of the next element have gone into its slot. */
  ghost function PartWay<X>(c: Config<X>, s: State<X>, word: nat): State<X>
    requires c.Valid() && CanPush(c, s) && word <= c.Width()
  {
    var slot := s.q.writeIndex;
    s.(q := s.q.StoreElement(slot, c.program[s.pushes][..word] + s.q.store[slot][word..]),
       producer := if word < c.Width() then Storing(slot, word) else Publishing)
  }

  lemma StoreWord<X>(c: Config<X>, s: State<X>, word: nat)
    requires c.Valid() && CanPush(c, s) && word < c.Width()
    ensures Step(c, PartWay(c, s, word), Producer) == PartWay(c, s, word + 1)
  {
    var old', e := s.q.store[s.q.writeIndex], c.program[s.pushes];
    assert (e[..word] + old'[word..])[word := e[word]] == e[..word + 1] + old'[word + 1..];
  }

  lemma StoreBegins<X>(c: Config<X>, s: State<X>)
    requires c.Valid() && CanPush(c, s)
    ensures Step(c, s, Producer) == PartWay(c, s, 0)
  {
    var old', e := s.q.store[s.q.writeIndex], c.program[s.pushes];
    assert e[..0] + old'[0..] == old';
  }

  lemma {:induction false} StoreWords<X>(c: Config<X>, s: State<X>, word: nat)
    requires c.Valid() && CanPush(c, s) && word <= c.Width()
    ensures Exec(c, s, Repeat(Producer, word + 1)) == PartWay(c, s, word)
  {
    hide Step;
    ExecRepeat(c, s, Producer, word + 1);
    if word == 0 {
      assert Repeat(Producer, 0) == [];
      StoreBegins(c, s);
    } else {
      StoreWords(c, s, word - 1);
      StoreWord(c, s, word - 1);
    }
  }

  /** Producer steps of one push: the load of the index, the words, the index, the count. */
  function PushSteps<X>(c: Config<X>): nat {
    c.Width() + 3
  }

  /** One undisturbed push is `Shared.Push`. */
  lemma PushBurst<X>(c: Config<X>, s: State<X>)
    requires c.Valid() && CanPush(c, s)
    ensures Exec(c, s, Repeat(Producer, PushSteps(c))) ==
            s.(q := s.q.Push(c.program[s.pushes]), pushes := s.pushes + 1, counted := s.counted + 1)
  {
    var k, e := c.Width(), c.program[s.pushes];
    StoreWords(c, s, k);
    assert e[..k] + s.q.store[s.q.writeIndex][k..] == e;
    ExecRepeat(c, s, Producer, k + 2);
    ExecRepeat(c, s, Producer, k + 3);
  }

  lemma PublishingStarted<X>(c: Config<X>, s: State<X>)
    requires c.Valid() && CanPush(c, s)
    ensures !Step(c, PartWay(c, s, c.Width()), Producer).producer.Storing?
  {
  }

  /** In an undisturbed push the pace matters at the first word only. */
  lemma StartsOnce<X>(c: Config<X>, s: State<X>, margin: nat, i: nat)
    requires c.Valid() && CanPush(c, s) && s.Backlog() + margin <= c.capacity && i < PushSteps(c)
    ensures StartsWithin(c, Exec(c, s, Repeat(Producer, i)), margin)
  {
    hide Step;
    if i == 0 {
      assert Repeat(Producer, 0) == [];
    } else if i <= c.Width() + 1 {
      StoreWords(c, s, i - 1);
    } else {
      StoreWords(c, s, c.Width());
      ExecRepeat(c, s, Producer, i);
      PublishingStarted(c, s);
    }
  }

  lemma PushBurstPaced<X>(c: Config<X>, s: State<X>, margin: nat)
    requires c.Valid() && CanPush(c, s) && s.Backlog() + margin <= c.capacity
    ensures PacedFrom(c, s, Repeat(Producer, PushSteps(c)), margin)
  {
    hide Step, Exec, StartsWithin;
    var burst := Repeat(Producer, PushSteps(c));
    forall i | 0 <= i < |burst| && burst[i] == Producer
      ensures StartsWithin(c, Exec(c, s, burst[..i]), margin)
    {
      assert burst[..i] == Repeat(Producer, i);
      StartsOnce(c, s, margin, i);
    }
  }

  /** The schedule of `m` undisturbed pushes. */
  function Pushes<X>(c: Config<X>, m: nat): seq<Thread> {
    if m == 0 then [] else Pushes(c, m - 1) + Repeat(Producer, PushSteps(c))
  }

  ghost function AfterPushes<X>(c: Config<X>, s: State<X>, m: nat): State<X>
    requires s.q.Valid() && s.pushes + m <= |c.program|
  {
    s.(q := PushAll(s.q, c.program[s.pushes..s.pushes + m]), pushes := s.pushes + m, counted := s.counted + m)
  }

  lemma NextPush<X>(c: Config<X>, s: State<X>, m: nat)
    requires c.Valid() && Shaped(c, s) && m > 0 && s.pushes + m <= |c.program|
    ensures PushAll(s.q, c.program[s.pushes..s.pushes + m]) ==
            PushAll(s.q, c.program[s.pushes..s.pushes + (m - 1)]).Push(c.program[s.pushes + m - 1])
  {
    var last := s.pushes + m - 1;
    assert c.program[s.pushes..s.pushes + m] == c.program[s.pushes..last] + [c.program[last]];
    PushAllOne(s.q, c.program[s.pushes..last], c.program[last]);
  }

  lemma AfterNoPushes<X>(c: Config<X>, s: State<X>)
    requires c.Valid() && Shaped(c, s) && s.pushes <= |c.program|
    ensures AfterPushes(c, s, 0) == s == Exec(c, s, [])
  {
    assert c.program[s.pushes..s.pushes + 0] == [];
  }

  lemma AfterOneMore<X>(c: Config<X>, s: State<X>, m: nat)
    requires c.Valid() && Shaped(c, s) && m > 0 && s.pushes + m <= |c.program|
    ensures var s' := AfterPushes(c, s, m - 1);
      AfterPushes(c, s, m) ==
      s'.(q := s'.q.Push(c.program[s'.pushes]), pushes := s'.pushes + 1, counted := s'.counted + 1)
  {
    hide PushAll, Shared.Push;
    NextPush(c, s, m);
  }

  lemma {:induction false} PushesBurst<X>(c: Config<X>, s: State<X>, m: nat, margin: nat)
    requires c.Valid() && Shaped(c, s) && s.producer == Idle && !Halted(s)
    requires s.pushes + m <= |c.program|
    requires m > 0 ==> s.Backlog() + m - 1 + margin <= c.capacity
    ensures Exec(c, s, Pushes(c, m)) == AfterPushes(c, s, m)
    ensures PacedFrom(c, s, Pushes(c, m), margin)
  {
    hide Step, PushAll, Exec;
    if m == 0 {
      AfterNoPushes(c, s);
    } else {
      PushesBurst(c, s, m - 1, margin);
      var s' := AfterPushes(c, s, m - 1);
      PushBurst(c, s');
      PushBurstPaced(c, s', margin);
      PacedConcat(c, s, Pushes(c, m - 1), Repeat(Producer, PushSteps(c)), margin);
      AfterOneMore(c, s, m);
    }
  }

  lemma ConsumerIsPaced<X>(c: Config<X>, s: State<X>, n: nat, margin: nat)
    requires c.Valid() && Shaped(c, s)
    ensures PacedFrom(c, s, Repeat(Consumer, n), margin)
  {
  }

  /** Where the reader goes when it has copied an element. */
  function AfterCopy(r: Reader): ConsumerPoint {
    if r == Flusher then Advancing else Sizing
  }

  /** `s` with the first `word` words of its item copied. */
  ghost function Copied<X>(c: Config<X>, s: State<X>, word: nat): State<X>
    requires Shaped(c, s) && s.item.Some? && word < c.Width()
  {
    s.(consumer := Copying(word), partial := s.q.store[s.item.value][..word])
  }

  lemma CopyWord<X>(c: Config<X>, s: State<X>, word: nat)
    requires c.Valid() && Shaped(c, s) && s.item.Some? && word + 1 < c.Width()
    ensures Step(c, Copied(c, s, word), Consumer) == Copied(c, s, word + 1)
  {
    var e := s.q.store[s.item.value];
    assert e[..word] + [e[word]] == e[..word + 1];
    assert Step(c, Copied(c, s, word), Consumer) == CopyStep(c, Copied(c, s, word), AfterCopy(c.reader));
  }

  lemma CopyLastWord<X>(c: Config<X>, s: State<X>)
    requires c.Valid() && Shaped(c, s) && s.item.Some? && s.partial == []
    ensures Step(c, Copied(c, s, c.Width() - 1), Consumer) ==
            s.(consumer := AfterCopy(c.reader), out := s.out + [s.q.store[s.item.value]])
  {
    var k, e := c.Width() - 1, s.q.store[s.item.value];
    assert e[..k] + [e[k]] == e;
    assert Step(c, Copied(c, s, k), Consumer) == CopyStep(c, Copied(c, s, k), AfterCopy(c.reader));
  }

  lemma {:induction false} CopyWords<X>(c: Config<X>, s: State<X>, word: nat)
    requires c.Valid() && Shaped(c, s) && s.consumer == Copying(0) && s.item.Some? && s.partial == []
    requires word < c.Width()
    ensures Exec(c, s, Repeat(Consumer, word)) == Copied(c, s, word)
  {
    hide Step;
    if word == 0 {
      assert Repeat(Consumer, 0) == [];
    } else {
      CopyWords(c, s, word - 1);
      CopyWord(c, s, word - 1);
      ExecRepeat(c, s, Consumer, word);
    }
  }

  /** An undisturbed copy puts out whatever is in the slot by then. */
  lemma CopyBurst<X>(c: Config<X>, s: State<X>)
    requires c.Valid() && Shaped(c, s) && s.consumer == Copying(0) && s.item.Some? && s.partial == []
    ensures Exec(c, s, Repeat(Consumer, c.Width())) ==
            s.(consumer := AfterCopy(c.reader), out := s.out + [s.q.store[s.item.value]])
  {
    hide Step, Exec;
    CopyWords(c, s, c.Width() - 1);
    ExecRepeat(c, s, Consumer, c.Width());
    CopyLastWord(c, s);
  }

  lemma ThreeSteps<X>(c: Config<X>, s: State<X>)
    requires c.Valid() && Shaped(c, s)
    ensures Exec(c, s, Repeat(Consumer, 3)) == Step(c, Step(c, Step(c, s, Consumer), Consumer), Consumer)
  {
    hide Step;
    assert Repeat(Consumer, 0) == [];
    ExecRepeat(c, s, Consumer, 1);
    ExecRepeat(c, s, Consumer, 2);
    ExecRepeat(c, s, Consumer, 3);
  }

  lemma AdvanceRuns<X>(c: Config<X>, s: State<X>)
    requires c.Valid() && Shaped(c, s) && s.consumer in {Advancing, Asserting, CountingDown}
    ensures Step(c, s, Consumer) == AdvanceStep(c, s, if c.reader == Flusher then Fetching else Copying(0))
  {
  }

  /** One undisturbed release is `Shared.Remove`, the assertion passing when the size is not zero. */
  lemma ReleaseBurst<X>(c: Config<X>, s: State<X>)
    requires c.Valid() && Shaped(c, s) && s.consumer == Advancing && s.q.size != 0
    ensures Exec(c, s, Repeat(Consumer, 3)) ==
            s.(q := s.q.Remove(), pops := s.pops + 1, discounted := s.discounted + 1,
               consumer := if c.reader == Flusher then Fetching else Copying(0))
  {
    hide Step, Exec;
    ThreeSteps(c, s);
    var s1 := s.(q := s.q.PublishRead(), pops := s.pops + 1, consumer := Asserting);
    var s2 := s1.(consumer := CountingDown);
    AdvanceRuns(c, s);
    AdvanceRuns(c, s1);
    AdvanceRuns(c, s2);
  }

  /** A process that has been stopped, by the assertion or by a null pointer, takes no more steps. */
  lemma {:induction false} StoppedStays<X>(c: Config<X>, s: State<X>, more: seq<Thread>)
    requires c.Valid() && Shaped(c, s) && s.consumer in {Aborted, Faulted}
    ensures Exec(c, s, more) == s
    decreases |more|
  {
    if more != [] {
      StoppedStays(c, s, more[..|more| - 1]);
    }
  }

  /** A release with the size at zero moves the index, and then the assertion stops the process. */
  lemma ReleaseStops<X>(c: Config<X>, s: State<X>, more: seq<Thread>)
    requires c.Valid() && Shaped(c, s) && s.consumer == Advancing && s.q.size == 0
    ensures Exec(c, s, Repeat(Consumer, 2) + more) ==
            s.(q := s.q.PublishRead(), pops := s.pops + 1, consumer := Aborted)
  {
    hide Step;
    assert Repeat(Consumer, 0) == [];
    ExecRepeat(c, s, Consumer, 1);
    ExecRepeat(c, s, Consumer, 2);
    var s1 := s.(q := s.q.PublishRead(), pops := s.pops + 1, consumer := Asserting);
    AdvanceRuns(c, s);
    AdvanceRuns(c, s1);
    ExecConcat(c, s, Repeat(Consumer, 2), more);
    StoppedStays(c, s1.(consumer := Aborted), more);
  }

  // ---------------------------------------------------------------------------------------------
  // The flusher alone.

  /** `s` with the oldest element taken by the flusher. */
  ghost function Taken<X>(s: State<X>): State<X>
    requires s.q.Valid()
  {
    s.(q := s.q.Remove(), pops := s.pops + 1, discounted := s.discounted + 1,
       item := Some(s.q.readIndex), out := s.out + [s.q.store[s.q.readIndex]])
  }

  lemma FetchAndLook<X>(c: Config<X>, s: State<X>)
    requires c.Valid() && Shaped(c, s) && c.reader == Flusher && s.consumer == Fetching
    ensures Exec(c, s, Repeat(Consumer, 2)) ==
            s.(item := s.q.NextToRead(),
               consumer := if s.q.size != 0 && s.q.NextToRead().Some? then Copying(0) else CheckingRun)
  {
    assert Repeat(Consumer, 0) == [];
    ExecRepeat(c, s, Consumer, 1);
    ExecRepeat(c, s, Consumer, 2);
    assert Step(c, s, Consumer) == s.(item := s.q.NextToRead(), consumer := Sizing);
  }

  lemma RepeatConcat<X>(c: Config<X>, s: State<X>, m: nat, n: nat)
    requires c.Valid() && Shaped(c, s)
    ensures Exec(c, s, Repeat(Consumer, m + n)) == Exec(c, Exec(c, s, Repeat(Consumer, m)), Repeat(Consumer, n))
  {
    hide Step, Exec;
    assert Repeat(Consumer, m + n) == Repeat(Consumer, m) + Repeat(Consumer, n);
    ExecConcat(c, s, Repeat(Consumer, m), Repeat(Consumer, n));
  }

  /** One undisturbed turn of the flusher's loop. */
  lemma ElementBurst<X>(c: Config<X>, s: State<X>)
    requires c.Valid() && Shaped(c, s) && c.reader == Flusher && s.consumer == Fetching && s.partial == []
    requires s.q.size != 0 && s.q.NextToRead().Some?
    ensures Shaped(c, Taken(s)) && Exec(c, s, Repeat(Consumer, PerElement(c))) == Taken(s)
  {
    hide Step, Exec, Shared.Remove;
    FetchAndLook(c, s);
    var s1 := Exec(c, s, Repeat(Consumer, 2));
    CopyBurst(c, s1);
    var s2 := Exec(c, s1, Repeat(Consumer, c.Width()));
    ReleaseBurst(c, s2);
    RepeatConcat(c, s1, c.Width(), 3);
    RepeatConcat(c, s, 2, c.Width() + 3);
  }

  /** After `k` such turns. */
  lemma {:induction false} ElementBursts<X>(c: Config<X>, s: State<X>, k: nat)
    requires c.Valid() && Shaped(c, s) && c.reader == Flusher && s.consumer == Fetching && s.partial == []
    requires k <= s.q.Gap() && k <= s.q.size
    ensures var s' := Exec(c, s, Repeat(Consumer, k * PerElement(c)));
      && s'.q == Passed(s.q, k) && s'.q.Gap() == s.q.Gap() - k
      && s'.out == s.out + s.q.Window(k)
      && s'.consumer == Fetching && s'.partial == [] && s'.producer == s.producer && s'.running == s.running
      && s'.pushes == s.pushes && s'.pops == s.pops + k
  {
    hide Step, Exec, Shared.Gap, Shared.Remove, Shared.Window, Passed;
    if k == 0 {
      NothingTaken(c, s);
    } else {
      ElementBursts(c, s, k - 1);
      var s' := Exec(c, s, Repeat(Consumer, (k - 1) * PerElement(c)));
      ElementBurst(c, s');
      RemoveGap(s'.q);
      PassTurn(s.q, k - 1);
      Associative(s.out, s.q.Window(k - 1), [s'.q.store[s'.q.readIndex]]);
      FewerTimes(k, PerElement(c));
      RepeatConcat(c, s, (k - 1) * PerElement(c), PerElement(c));
    }
  }

  lemma NothingTaken<X>(c: Config<X>, s: State<X>)
    requires c.Valid() && Shaped(c, s)
    ensures Exec(c, s, Repeat(Consumer, 0 * PerElement(c))) == s
    ensures Passed(s.q, 0) == s.q && s.out + s.q.Window(0) == s.out
  {
    assert Repeat(Consumer, 0) == [];
    Unique(s.q.readIndex, |s.q.store|, 0, s.q.readIndex);
  }

  /**
   One pass of the flusher's inner loop, run alone from any state of the queue: it writes the
   elements up to the write index, or as many as the size admits, and goes to look at the running
   flag. With none to write the queue is left as it is.
   */
  lemma PassBurst<X>(c: Config<X>, s: State<X>)
    requires c.Valid() && Shaped(c, s) && c.reader == Flusher && s.consumer == Fetching && s.partial == []
    ensures var k := if s.q.Gap() <= s.q.size then s.q.Gap() else s.q.size;
      var s' := Exec(c, s, Repeat(Consumer, k * PerElement(c) + 2));
      && s'.consumer == CheckingRun && s'.producer == s.producer
      && s'.out == s.out + s.q.Window(k)
      && s'.q.store == s.q.store && s'.q.writeIndex == s.q.writeIndex
      && s'.q.readIndex == (s.q.readIndex + k) % c.capacity
      && s'.q.size == s.q.size - k
  {
    hide Step, Exec, Shared.Window;
    var k := if s.q.Gap() <= s.q.size then s.q.Gap() else s.q.size;
    ElementBursts(c, s, k);
    var s' := Exec(c, s, Repeat(Consumer, k * PerElement(c)));
    FetchAndLook(c, s');
    RepeatConcat(c, s, k * PerElement(c), 2);
  }

  // ---------------------------------------------------------------------------------------------
  // The margins are the least that work.

  /** Pushing from the start: the state and the pace. */
  lemma PushFromStart<X>(c: Config<X>, m: nat, margin: nat)
    requires c.Valid() && 0 < m <= |c.program| && m - 1 + margin <= c.capacity
    ensures Run(c, Pushes(c, m)) == AfterPushes(c, Initial(c), m)
    ensures Paced(c, Pushes(c, m), margin)
  {
    hide Step;
    PushesBurst(c, Initial(c), m, margin);
  }

  lemma FlusherTakesHold<X>(c: Config<X>, s: State<X>)
    requires c.Valid() && Shaped(c, s) && s.q.size != 0 && s.q.NextToRead().Some? && s.running
    requires c.reader == Flusher && s.consumer == CheckingRun
    ensures Exec(c, s, Repeat(Consumer, 3)) == s.(item := Some(s.q.readIndex), consumer := Copying(0))
  {
    hide Exec;
    ThreeSteps(c, s);
    var s1 := s.(consumer := Fetching);
    assert Step(c, s, Consumer) == s1;
    assert Step(c, s1, Consumer) == s.(consumer := Sizing, item := Some(s.q.readIndex));
  }

  /** What the demonstration fetches, null or not, it releases. */
  lemma DemoFetches<X>(c: Config<X>, s: State<X>)
    requires c.Valid() && Shaped(c, s) && s.q.size != 0 && c.reader == Demo && s.consumer == Sizing
    ensures Exec(c, s, Repeat(Consumer, 3)) ==
            s.(item := s.q.NextToRead(), consumer := Asserting, q := s.q.PublishRead(), pops := s.pops + 1)
  {
    hide Exec;
    ThreeSteps(c, s);
    var s1 := s.(consumer := Fetching);
    assert Step(c, s, Consumer) == s1;
    assert Step(c, s1, Consumer) == s.(consumer := Advancing, item := s.q.NextToRead());
  }

  /** Three steps of the flusher from its start, or of the demonstration from its first load. */
  lemma TakeHold<X>(c: Config<X>, s: State<X>)
    requires c.Valid() && Shaped(c, s) && s.q.size != 0 && s.q.NextToRead().Some? && s.running
    requires s.consumer == if c.reader == Flusher then CheckingRun else Sizing
    ensures Exec(c, s, Repeat(Consumer, 3)) ==
            if c.reader == Flusher then s.(item := Some(s.q.readIndex), consumer := Copying(0))
            else s.(item := Some(s.q.readIndex), consumer := Asserting, q := s.q.PublishRead(), pops := s.pops + 1)
  {
    hide Step, Exec;
    if c.reader == Flusher {
      FlusherTakesHold(c, s);
    } else {
      DemoFetches(c, s);
    }
  }

  /** One push, then the consumer takes hold of it. */
  lemma PushAndHold<X>(c: Config<X>, margin: nat) returns (sched: seq<Thread>)
    requires c.Valid() && c.capacity >= 2 && margin <= 1 && |c.program| > 0
    ensures Paced(c, sched, margin)
    ensures var s := Run(c, sched);
      && s.producer == Idle && s.pushes == 1 && s.item == Some(0) && s.partial == [] && s.out == []
      && s.q.size == 1
      && (if c.reader == Flusher then s.consumer == Copying(0) && s.pops == 0
          else s.consumer == Asserting && s.pops == 1)
  {
    hide Step;
    PushFromStart(c, 1, margin);
    var s := Run(c, Pushes(c, 1));
    RunAccounted(c, Pushes(c, 1));
    Unique(1, c.capacity, 0, 1);
    Unique(0, c.capacity, 0, 0);
    TakeHold(c, s);
    ConsumerIsPaced(c, s, 3, margin);
    PacedConcat(c, Initial(c), Pushes(c, 1), Repeat(Consumer, 3), margin);
    sched := Pushes(c, 1) + Repeat(Consumer, 3);
  }

  lemma ReleaseRest<X>(c: Config<X>, s: State<X>)
    requires c.Valid() && Shaped(c, s) && c.reader == Demo && s.consumer == Asserting && s.q.size != 0
    ensures Exec(c, s, Repeat(Consumer, 2)) ==
            s.(q := s.q.CountDown(), discounted := s.discounted + 1, consumer := Copying(0))
  {
    assert Repeat(Consumer, 0) == [];
    ExecRepeat(c, s, Consumer, 1);
    ExecRepeat(c, s, Consumer, 2);
    assert Step(c, s, Consumer) == s.(consumer := CountingDown);
  }

  /** After a full ring of pushes from state 1 the first slot holds element number `capacity`. */
  lemma OverwriteSlot<X>(c: Config<X>, s: State<X>)
    requires c.Valid() && Accounted(c, s) && s.producer == Idle && s.pushes == 1
    requires |c.program| > c.capacity
    ensures AfterPushes(c, s, c.capacity).q.store[0] == c.program[c.capacity]
  {
    var n := c.capacity;
    NextPush(c, s, n);
    PushAllIndex(s.q, c.program[1..n]);
    Succ(0, n);
    Succ(s.q.writeIndex + (n - 1), n);
    Unique(1, n, if n == 1 then 1 else 0, 1 % n);
    Unique(n, n, 1, 0);
  }

  /** A full ring of further pushes then overwrites the slot that the consumer holds. */
  lemma OverwriteHeld<X>(c: Config<X>) returns (sched: seq<Thread>)
    requires c.Valid() && c.capacity >= 2 && |c.program| > c.capacity
    ensures Paced(c, sched, Margin(c.reader) - 1)
    ensures var s := Run(c, sched);
      && s.item == Some(0) && s.partial == [] && s.out == [] && s.q.size != 0
      && s.q.store[0] == c.program[c.capacity]
      && s.consumer == (if c.reader == Flusher then Copying(0) else Asserting)
  {
    hide Step, Exec, PushAll, Pushes, Counters, ProducerLocals, ConsumerLocals;
    var n, margin := c.capacity, Margin(c.reader) - 1;
    var hold := PushAndHold(c, margin);
    var s := Run(c, hold);
    RunAccounted(c, hold);
    PushesBurst(c, s, n, margin);
    PacedConcat(c, Initial(c), hold, Pushes(c, n), margin);
    OverwriteSlot(c, s);
    Unique(1 + n, SIZE_MODULUS, 0, 1 + n);
    sched := hold + Pushes(c, n);
  }

  /** More consumer steps at the end of a run keep its pace. */
  lemma ThenConsume<X>(c: Config<X>, sched: seq<Thread>, n: nat, margin: nat)
    requires c.Valid() && Paced(c, sched, margin)
    ensures Paced(c, sched + Repeat(Consumer, n), margin)
    ensures Run(c, sched + Repeat(Consumer, n)) == Exec(c, Run(c, sched), Repeat(Consumer, n))
  {
    hide Step;
    ConsumerIsPaced(c, Run(c, sched), n, margin);
    PacedConcat(c, Initial(c), sched, Repeat(Consumer, n), margin);
  }

  /**
   With one slot less than its margin the producer overwrites the element that the consumer is
   about to copy: the first element of the output is not the first of the program but the one
   pushed `capacity` places later.
   */
  lemma MarginIsLeast<X>(c: Config<X>) returns (sched: seq<Thread>)
    requires c.Valid() && c.capacity >= 2 && |c.program| > c.capacity
    ensures Paced(c, sched, Margin(c.reader) - 1)
    ensures Run(c, sched).out == [c.program[c.capacity]]
  {
    hide Step;
    var margin := Margin(c.reader) - 1;
    sched := OverwriteHeld(c);
    if c.reader == Demo {
      ReleaseRest(c, Run(c, sched));
      ThenConsume(c, sched, 2, margin);
      sched := sched + Repeat(Consumer, 2);
    }
    CopyBurst(c, Run(c, sched));
    ThenConsume(c, sched, c.Width(), margin);
    sched := sched + Repeat(Consumer, c.Width());
  }

  /** A ring filled to the last slot, which a margin of one allows. */
  lemma FillRing<X>(c: Config<X>) returns (sched: seq<Thread>)
    requires c.Valid() && |c.program| >= c.capacity
    ensures Paced(c, sched, 1)
    ensures var s := Run(c, sched);
      && s == AfterPushes(c, Initial(c), c.capacity)
      && s.Backlog() == c.capacity == s.q.size && s.q.NextToRead() == None
  {
    hide Step;
    sched := Pushes(c, c.capacity);
    PushFromStart(c, c.capacity, 1);
    RunAccounted(c, sched);
    Unique(c.capacity, c.capacity, 1, 0);
    Unique(0, c.capacity, 0, 0);
  }

  /**
   One unused slot is enough for the flusher's contents but not for its progress: the producer may
   fill the ring, the index comparison then reports it empty, and the logger never closes.
   */
  lemma FullLooksEmpty<X>(c: Config<X>) returns (sched: seq<Thread>)
    requires c.Valid() && c.reader == Flusher && |c.program| >= c.capacity
    ensures Paced(c, sched, 1)
    ensures Run(c, sched).q.NextToRead() == None && Run(c, sched).pops < Run(c, sched).pushes
    ensures forall more :: Run(c, sched + more).producer != Closed
  {
    var fill := FillRing(c);
    var s := Run(c, fill);
    ThenConsume(c, fill, 1, 1);
    assert Repeat(Consumer, 0) == [];
    ExecRepeat(c, s, Consumer, 1);
    sched := fill + Repeat(Consumer, 1);
    forall more ensures Run(c, sched + more).producer != Closed {
      OverrunIsPermanent(c, sched, more);
    }
  }

  /** And with one unused slot the demonstration can dereference a null pointer. */
  lemma NullDereference<X>(c: Config<X>) returns (sched: seq<Thread>)
    requires c.Valid() && c.reader == Demo && |c.program| >= c.capacity
    ensures Paced(c, sched, 1) && Run(c, sched).consumer == Faulted
  {
    var fill := FillRing(c);
    var s := Run(c, fill);
    ThenConsume(c, fill, 3, 1);
    DemoFetches(c, s);
    sched := fill + Repeat(Consumer, 3);
    ThenConsume(c, sched, 2, 1);
    ReleaseRest(c, Run(c, sched));
    sched := sched + Repeat(Consumer, 2);
    ThenConsume(c, sched, 1, 1);
    assert Repeat(Consumer, 0) == [];
    ExecRepeat(c, Run(c, sched), Consumer, 1);
    sched := sched + Repeat(Consumer, 1);
  }

  /**
   A ring filled while the flusher has an element in hand is no overrun: there is such a run, of as
   many pushes as there are slots, whose file is closed all the same.
   */
  lemma OverrunInHandHeals<X>(c: Config<X>) returns (sched: seq<Thread>, more: seq<Thread>)
    requires c.Valid() && c.reader == Flusher && c.capacity >= 2 && |c.program| == c.capacity
    ensures Run(c, sched).Backlog() == c.capacity
    ensures Run(c, sched + more).producer == Closed
  {
    hide Step, Exec, PushAll, Pushes;
    var n := c.capacity;
    var hold := PushAndHold(c, 1);
    var s := Run(c, hold);
    RunAccounted(c, hold);
    PushesBurst(c, s, n - 1, 0);
    ExecConcat(c, Initial(c), hold, Pushes(c, n - 1));
    sched := hold + Pushes(c, n - 1);
    RunAccounted(c, sched);
    var take := Repeat(Consumer, c.Width());
    CopyBurst(c, Run(c, sched));
    ExecConcat(c, Initial(c), sched, take);
    RunAccounted(c, sched + take);
    var release := Repeat(Consumer, 3);
    ReleaseBurst(c, Run(c, sched + take));
    ExecConcat(c, Initial(c), sched + take, release);
    DestructorCanEnd(c, sched + take + release);
    var rest :| Run(c, sched + take + release + rest).producer == Closed;
    more := take + release + rest;
    assert sched + take + release + rest == sched + more;
  }
}
