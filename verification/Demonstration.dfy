/**
 The consumer of the queue demonstration (lock-free-queue/program.cpp:12-25): when its thread
 function returns, and what it has put out by then.
 */
module Demonstration {
  import opened Options
  import opened Modular
  import opened Queue
  import opened Machine
  import opened Pacing
  import opened Shutdown
  import opened Bursts

  /**
   The consumer returns in one way only: from the load of a size that is zero. It has then put out as
   many elements as had been counted, whatever is still to be pushed.
   */
  lemma EndsOnZero<X>(c: Config<X>, sched: seq<Thread>, t: Thread)
    requires c.Valid() && c.reader == Demo
    ensures var s, s' := Run(c, sched), Run(c, sched + [t]);
      && (s'.consumer == Exited <==>
            s.consumer == Exited || (t == Consumer && s.consumer == Sizing && s.q.size == 0))
      && (s.consumer == Sizing && s.q.size == 0 ==> |s.out| == s.pops == s.counted)
  {
    ExecOne(c, Initial(c), sched, t);
    RunAccounted(c, sched);
  }

  /** Elements that the consumer has yet to fetch. */
  function Unfetched<X>(s: State<X>): int {
    s.Backlog() - if s.consumer == Advancing then 1 else 0
  }

  /** The consumer has fetched a null pointer, and has yet to read through it. */
  predicate HoldsNull<X>(s: State<X>) {
    s.item.None? && (s.consumer.Copying? || s.consumer in {Advancing, Asserting, CountingDown})
  }

  /** The consumer will come to a null pointer, or has. */
  predicate Doomed<X>(c: Config<X>, s: State<X>) {
    s.consumer == Faulted || (s.consumer != Exited && (HoldsNull(s) || Unfetched(s) >= c.capacity))
  }

  /** The producer has pushed its last element. */
  ghost predicate AllPushed<X>(c: Config<X>, s: State<X>)
    requires c.Valid()
  {
    c.reader == Demo && Accounted(c, s) && s.producer == Idle && s.pushes == |c.program|
  }

  /** Consumer steps to the end, if no null pointer cuts them short. */
  function StepsLeft<X>(c: Config<X>, s: State<X>): int {
    var elements := Unfetched(s) * PerElement(c);
    match s.consumer
    case Sizing => elements + 1
    case Fetching => elements
    case Advancing => elements + PerElement(c) - 1
    case Asserting => elements + PerElement(c) - 2
    case CountingDown => elements + PerElement(c) - 3
    case Copying(word) => elements + PerElement(c) - 4 - word
    case _ => 0
  }

  predicate Ended<X>(s: State<X>) {
    s.consumer in {Exited, Faulted}
  }

  lemma StepsLeftBounds<X>(c: Config<X>, s: State<X>)
    requires c.Valid() && AllPushed(c, s)
    ensures 0 <= StepsLeft(c, s) <= (s.Backlog() + 1) * PerElement(c)
    ensures StepsLeft(c, s) == 0 <==> Ended(s)
  {
    hide ProducerLocals;
    MultipleIsFar(Unfetched(s), PerElement(c));
    TimesGap(Unfetched(s), s.Backlog() + 1, PerElement(c));
  }

  /** What a consumer step does to the elements it has yet to fetch, and to its pointer. */
  lemma DemoMoves<X>(c: Config<X>, s: State<X>)
    requires c.Valid() && AllPushed(c, s)
    ensures var s' := DemoStep(c, s);
      && Unfetched(s') == Unfetched(s) - (if s.consumer == Fetching then 1 else 0)
      && (s.consumer == Sizing ==> s'.consumer == if s.Backlog() == 0 then Exited else Fetching)
      && (s.consumer == Fetching ==>
            && s'.consumer == Advancing && s.Backlog() > 0
            && (s'.item.None? <==> s.Backlog() % c.capacity == 0))
      && (s.consumer != Fetching ==> s'.item == s.item)
      && (s.consumer == Asserting ==> s'.consumer == CountingDown)
  {
    hide ProducerLocals;
    FetchSees(c, s);
  }

  lemma DemoKeepsDoom<X>(c: Config<X>, s: State<X>)
    requires c.Valid() && AllPushed(c, s)
    ensures Doomed(c, DemoStep(c, s)) <==> Doomed(c, s)
  {
    hide Counters, ProducerLocals;
    DemoMoves(c, s);
    if s.consumer == Fetching {
      Below(s.Backlog(), c.capacity);
      Unique(c.capacity, c.capacity, 1, 0);
    }
  }

  /** A step is one off the count, except that a null pointer cuts it to zero. */
  lemma DemoCountsDown<X>(c: Config<X>, s: State<X>)
    requires c.Valid() && AllPushed(c, s)
    ensures StepsLeft(c, DemoStep(c, s)) <= Down(StepsLeft(c, s), 1)
  {
    hide Counters, ProducerLocals;
    DemoMoves(c, s);
    StepsLeftBounds(c, s);
    FewerTimes(Unfetched(s), PerElement(c));
  }

  lemma AllPushedStep<X>(c: Config<X>, s: State<X>, t: Thread)
    requires c.Valid() && AllPushed(c, s)
    ensures var s' := Step(c, s, t);
      && AllPushed(c, s')
      && (Doomed(c, s') <==> Doomed(c, s))
      && StepsLeft(c, s') <= Down(StepsLeft(c, s), if t == Consumer then 1 else 0)
      && (s.consumer == Exited ==> s' == s)
  {
    hide StepsLeft, Doomed, DemoStep;
    StepAccounted(c, s, t);
    StepsLeftBounds(c, s);
    DemoRuns(c, s);
    if t == Consumer && !Halted(s) {
      DemoKeepsDoom(c, s);
      DemoCountsDown(c, s);
    }
  }

  lemma DemoRuns<X>(c: Config<X>, s: State<X>)
    requires c.Valid() && AllPushed(c, s)
    ensures Step(c, s, Producer) == s
    ensures var s' := Step(c, s, Consumer);
      s' == (if Halted(s) then s else DemoStep(c, s)) && s'.pushes == s.pushes && s'.producer == s.producer
    ensures Ended(s) ==> Step(c, s, Consumer) == s
  {
  }

  lemma {:induction false} AllPushedStays<X>(c: Config<X>, s: State<X>, more: seq<Thread>)
    requires c.Valid() && AllPushed(c, s)
    ensures var s' := Exec(c, s, more);
      && AllPushed(c, s')
      && (Doomed(c, s') <==> Doomed(c, s))
      && StepsLeft(c, s') <= Down(StepsLeft(c, s), Turns(more, Consumer))
      && (s.consumer == Exited ==> s' == s)
    decreases |more|
  {
    hide Step, StepsLeft, Doomed;
    if more == [] {
      StepsLeftBounds(c, s);
    } else {
      var k := |more| - 1;
      AllPushedStays(c, s, more[..k]);
      AllPushedStep(c, Exec(c, s, more[..k]), more[k]);
    }
  }

  /** What is so when the consumer has returned after the last push. */
  lemma AfterExit<X>(c: Config<X>, s: State<X>)
    requires c.Valid() && AllPushed(c, s) && s.consumer == Exited
    ensures |s.out| == s.pops && !Doomed(c, s)
  {
  }

  /** A consumer that has not returned by the last push returns only when all is taken. */
  lemma {:induction false} TakesAll<X>(c: Config<X>, s: State<X>, more: seq<Thread>)
    requires c.Valid() && AllPushed(c, s) && s.consumer != Exited
    requires Exec(c, s, more).consumer == Exited
    ensures Exec(c, s, more).pops == |c.program|
    decreases |more|
  {
    hide Step, StepsLeft, Doomed;
    if more != [] {
      var k := |more| - 1;
      var before := Exec(c, s, more[..k]);
      AllPushedStays(c, s, more[..k]);
      if before.consumer == Exited {
        TakesAll(c, s, more[..k]);
        AllPushedStep(c, before, more[k]);
      } else {
        ExitTakesAll(c, before, more[k]);
      }
    }
  }

  lemma ExitTakesAll<X>(c: Config<X>, s: State<X>, t: Thread)
    requires c.Valid() && AllPushed(c, s) && s.consumer != Exited && Step(c, s, t).consumer == Exited
    ensures Step(c, s, t).pops == |c.program|
  {
    DemoRuns(c, s);
    DemoMoves(c, s);
  }

  lemma OutAtExit<X>(c: Config<X>, s: State<X>, more: seq<Thread>)
    requires c.Valid() && AllPushed(c, s)
    requires Exec(c, s, more).consumer == Exited
    ensures |Exec(c, s, more).out| == if s.consumer == Exited then s.pops else |c.program|
  {
    hide Step, Exec, StepsLeft;
    AllPushedStays(c, s, more);
    AfterExit(c, Exec(c, s, more));
    if s.consumer != Exited {
      TakesAll(c, s, more);
    }
  }

  /**
   The end of the demonstration. Let the producer have pushed everything, at whatever pace, with
   backlog D and the consumer anywhere. Once the consumer has had (D + 1)(width + 5) turns it
   has ended for good. It has returned exactly if it had returned before, or it holds no null pointer
   and has fewer elements yet to fetch than there are slots; otherwise it has dereferenced null.
   Unless it had returned before the last push it has put out as many elements as were pushed.
   */
  lemma DemoEnds<X>(c: Config<X>, sched: seq<Thread>, more: seq<Thread>)
    requires c.Valid() && c.reader == Demo
    requires Run(c, sched).producer == Idle && Run(c, sched).pushes == |c.program|
    requires Turns(more, Consumer) >= (Run(c, sched).Backlog() + 1) * PerElement(c)
    ensures var s, s' := Run(c, sched), Run(c, sched + more);
      && s'.consumer in {Exited, Faulted}
      && (s'.consumer == Exited <==>
            || s.consumer == Exited
            || (s.consumer != Faulted && !HoldsNull(s) && Unfetched(s) < c.capacity))
      && (s'.consumer == Exited ==> |s'.out| == if s.consumer == Exited then s.pops else |c.program|)
  {
    hide Step, Exec, StepsLeft, Turns;
    var s := Run(c, sched);
    RunAccounted(c, sched);
    ExecConcat(c, Initial(c), sched, more);
    StepsLeftBounds(c, s);
    AllPushedStays(c, s, more);
    var s' := Exec(c, s, more);
    StepsLeftBounds(c, s');
    if s'.consumer == Exited {
      OutAtExit(c, s, more);
    }
  }

  /**
   The paced demonstration. If two slots were kept unused, then once everything is pushed and the
   consumer gets its turns, it returns; and it has put out the whole program exactly if it had not
   returned before the last push, or had taken everything by then. It never waits for the producer.
   */
  lemma PacedDemoFinishes<X>(c: Config<X>, sched: seq<Thread>, more: seq<Thread>)
    requires c.Valid() && c.reader == Demo && Paced(c, sched, 2)
    requires Run(c, sched).producer == Idle && Run(c, sched).pushes == |c.program|
    requires Turns(more, Consumer) >= (Run(c, sched).Backlog() + 1) * PerElement(c)
    ensures var s, s' := Run(c, sched), Run(c, sched + more);
      && s'.consumer == Exited
      && s'.out <= c.program
      && (s'.out == c.program <==> s.consumer != Exited || s.pops == s.pushes)
  {
    hide Step, Exec, Turns;
    var s := Run(c, sched);
    PacedAndPushed(c, sched);
    DemoEnds(c, sched, more);
    PushedIsPaced(c, s, more, 2);
    PacedConcat(c, Initial(c), sched, more, 2);
    OutputIsPrefix(c, sched + more);
    RunAccounted(c, sched);
  }

  lemma PacedAndPushed<X>(c: Config<X>, sched: seq<Thread>)
    requires c.Valid() && c.reader == Demo && Paced(c, sched, 2)
    requires Run(c, sched).producer == Idle && Run(c, sched).pushes == |c.program|
    ensures var s := Run(c, sched);
      AllPushed(c, s) && s.consumer != Faulted && !HoldsNull(s) && Unfetched(s) < c.capacity
  {
    hide Step, Exec;
    RunOrderly(c, sched, 2);
  }

  lemma PushedIsPaced<X>(c: Config<X>, s: State<X>, more: seq<Thread>, margin: nat)
    requires c.Valid() && AllPushed(c, s)
    ensures PacedFrom(c, s, more, margin)
  {
    hide Step, Exec, StepsLeft, Doomed;
    forall i | 0 <= i < |more| && more[i] == Producer
      ensures StartsWithin(c, Exec(c, s, more[..i]), margin)
    {
      AllPushedStays(c, s, more[..i]);
    }
  }

  /** The consumer may find the queue empty before the first push, and then nothing is ever read. */
  lemma DemoCanLeaveEarly<X>(c: Config<X>) returns (sched: seq<Thread>)
    requires c.Valid() && c.reader == Demo && |c.program| + 1 <= c.capacity
    ensures Paced(c, sched, 2)
    ensures var s := Run(c, sched);
      s.pushes == |c.program| && s.producer == Idle && s.consumer == Exited && s.out == []
  {
    hide Step, Exec, PushAll, Pushes;
    var look := Repeat(Consumer, 1);
    LooksOnce(c);
    ConsumerIsPaced(c, Initial(c), 1, 2);
    PushesBurst(c, Run(c, look), |c.program|, 2);
    PacedConcat(c, Initial(c), look, Pushes(c, |c.program|), 2);
    sched := look + Pushes(c, |c.program|);
  }

  lemma LooksOnce<X>(c: Config<X>)
    requires c.Valid() && c.reader == Demo
    ensures Run(c, Repeat(Consumer, 1)) == Initial(c).(consumer := Exited)
  {
    assert Repeat(Consumer, 0) == [];
    ExecRepeat(c, Initial(c), Consumer, 1);
  }
}
