/**
 Whether a logger that is still running can come to its end, the producer included: exactly when
 there is no overrun. And a logger that keeps two slots unused can always go on like that.
 */
module Closing {
  import opened Options
  import opened Modular
  import opened Queue
  import opened Machine
  import opened Pacing
  import opened Shutdown
  import opened Bursts

  lemma {:induction false} SteadyAlone<X>(c: Config<X>, s: State<X>, n: nat)
    requires c.Valid() && Steady(c, s)
    ensures var s' := Exec(c, s, Repeat(Consumer, n));
      && Steady(c, s') && s'.pushes == s.pushes && s'.producer == s.producer
      && s'.Backlog() - Left(c, s') == s.Backlog() - Left(c, s)
      && Rank(c, s') == Down(Rank(c, s), n)
  {
    hide Step, FlusherStep, Rank, Left;
    if n == 0 {
      RankBounds(c, s);
      assert Repeat(Consumer, 0) == [];
    } else {
      SteadyAlone(c, s, n - 1);
      ExecRepeat(c, s, Consumer, n);
      var before := Exec(c, s, Repeat(Consumer, n - 1));
      FlusherRuns(c, before);
      SteadyFlusher(c, before);
    }
  }

  /** Left alone with no overrun, the flusher takes everything published. */
  lemma TakeAll<X>(c: Config<X>, s: State<X>) returns (n: nat)
    requires c.Valid() && Steady(c, s) && s.Backlog() < c.capacity + InHand(s)
    ensures var s' := Exec(c, s, Repeat(Consumer, n));
      Accounted(c, s') && s'.pushes == s.pushes && s'.producer == s.producer && s'.Backlog() == InHand(s') == 0
  {
    hide Step, Exec, Rank, Left;
    RankBounds(c, s);
    LeftBounds(c, s);
    n := Rank(c, s);
    SteadyAlone(c, s, n);
    var s' := Exec(c, s, Repeat(Consumer, n));
    RankBounds(c, s');
    LeftBounds(c, s');
  }

  /** Producer steps to the end of the push it is in or about to start. */
  function ToIdle<X>(c: Config<X>, s: State<X>): int {
    match s.producer
    case Idle => PushSteps(c)
    case Storing(_, word) => c.Width() - word + 2
    case Publishing => 2
    case CountingUp => 1
    case _ => 0
  }

  predicate Pushing<X>(c: Config<X>, s: State<X>) {
    s.producer.Storing? || s.producer in {Publishing, CountingUp} || (s.producer == Idle && s.pushes < |c.program|)
  }

  lemma PushStep<X>(c: Config<X>, s: State<X>)
    requires c.Valid() && Accounted(c, s) && Pushing(c, s)
    ensures var s' := ProducerStep(c, s);
      && Accounted(c, s')
      && s'.pops == s.pops && s'.consumer == s.consumer && s'.item == s.item
      && s'.pushes == s.pushes + (if s.producer == Publishing then 1 else 0)
      && (if ToIdle(c, s) == 1 then s.producer == CountingUp && s'.producer == Idle
          else Pushing(c, s') && s'.producer != Idle && ToIdle(c, s') == ToIdle(c, s) - 1
               && (s'.producer == CountingUp <==> s.producer == Publishing))
  {
    ProducerKeepsAccounts(c, s);
  }

  /** After `k` steps of a push that takes more. */
  lemma {:induction false} PushGoesOn<X>(c: Config<X>, s: State<X>, k: nat)
    requires c.Valid() && c.reader == Flusher && Accounted(c, s) && Pushing(c, s) && k < ToIdle(c, s)
    ensures var s' := Exec(c, s, Repeat(Producer, k));
      && Accounted(c, s') && Pushing(c, s') && ToIdle(c, s') == ToIdle(c, s) - k
      && s'.pops == s.pops && s'.consumer == s.consumer && s'.item == s.item
      && s'.pushes == s.pushes + (if s'.producer == CountingUp && s.producer != CountingUp then 1 else 0)
  {
    hide Step, ProducerStep, Counters, ProducerLocals, ConsumerLocals;
    if k == 0 {
      assert Repeat(Producer, 0) == [];
    } else {
      PushGoesOn(c, s, k - 1);
      ExecRepeat(c, s, Producer, k);
      var before := Exec(c, s, Repeat(Producer, k - 1));
      FlusherRuns(c, before);
      PushStep(c, before);
    }
  }

  /** The producer, left alone, ends the push it is in or about to start. */
  lemma FinishPush<X>(c: Config<X>, s: State<X>) returns (n: nat)
    requires c.Valid() && c.reader == Flusher && Accounted(c, s) && Pushing(c, s)
    requires s.producer == CountingUp || s.Backlog() + 2 <= c.capacity
    ensures var s' := Exec(c, s, Repeat(Producer, n));
      && Accounted(c, s') && s'.producer == Idle
      && s'.pops == s.pops && InHand(s') == InHand(s)
      && s'.pushes == s.pushes + if s.producer == CountingUp then 0 else 1
    ensures PacedFrom(c, s, Repeat(Producer, n), 2)
  {
    hide Step, Exec, ProducerStep, Counters, ProducerLocals, ConsumerLocals;
    n := ToIdle(c, s);
    PushGoesOn(c, s, n - 1);
    ExecRepeat(c, s, Producer, n);
    var before := Exec(c, s, Repeat(Producer, n - 1));
    FlusherRuns(c, before);
    PushStep(c, before);
    var sched := Repeat(Producer, n);
    forall i | 0 <= i < |sched| && sched[i] == Producer ensures StartsWithin(c, Exec(c, s, sched[..i]), 2) {
      assert sched[..i] == Repeat(Producer, i);
      PushGoesOn(c, s, i);
    }
  }

  /** The next push ends, with the flusher first taking all that is there. */
  lemma TakeThenPush<X>(c: Config<X>, s: State<X>) returns (more: seq<Thread>)
    requires c.Valid() && Steady(c, s) && Pushing(c, s)
    requires c.capacity >= 2 && s.Backlog() < c.capacity + InHand(s)
    ensures var s' := Exec(c, s, more);
      Accounted(c, s') && s'.pushes == s.pushes + 1 && s'.Backlog() == 1 && InHand(s') == 0
    ensures PacedFrom(c, s, more, 2)
  {
    hide Step, Exec, ToIdle;
    var n := TakeAll(c, s);
    var s1 := Exec(c, s, Repeat(Consumer, n));
    var m := FinishPush(c, s1);
    ConsumerIsPaced(c, s, n, 2);
    PacedConcat(c, s, Repeat(Consumer, n), Repeat(Producer, m), 2);
    more := Repeat(Consumer, n) + Repeat(Producer, m);
  }

  /** With no overrun and two slots the rest of the program can be pushed, drained and closed. */
  lemma CanClose<X>(c: Config<X>, s: State<X>) returns (more: seq<Thread>)
    requires c.Valid() && c.reader == Flusher && Accounted(c, s)
    requires c.capacity >= 2 && s.Backlog() < c.capacity + InHand(s)
    ensures Exec(c, s, more).producer == Closed && PacedFrom(c, s, more, 2)
    decreases |c.program| - s.pushes, if s.producer == CountingUp then 1 else 0
  {
    hide Step, Exec, ToIdle;
    if Quiet(c, s) {
      more := ClosingSchedule(c, s);
      QuietIsPaced(c, s, more, 2);
    } else {
      var first: seq<Thread>;
      if s.producer == CountingUp {
        var n := FinishPush(c, s);
        first := Repeat(Producer, n);
      } else {
        first := TakeThenPush(c, s);
      }
      var rest := CanClose(c, Exec(c, s, first));
      PacedConcat(c, s, first, rest, 2);
      more := first + rest;
    }
  }

  /** In a ring of one slot the two indices are always equal, and nothing is ever read. */
  ghost predicate Blind<X>(s: State<X>) {
    s.pops == 0 && s.consumer in {CheckingRun, Fetching, Sizing, Exited} && (s.consumer == Sizing ==> s.item.None?)
  }

  lemma BlindStep<X>(c: Config<X>, s: State<X>, t: Thread)
    requires c.Valid() && c.reader == Flusher && c.capacity == 1 && Shaped(c, s) && Blind(s)
    ensures Blind(Step(c, s, t))
  {
  }

  lemma {:induction false} OneSlotIsBlind<X>(c: Config<X>, sched: seq<Thread>)
    requires c.Valid() && c.reader == Flusher && c.capacity == 1
    ensures Blind(Run(c, sched))
    decreases |sched|
  {
    hide Step;
    if sched != [] {
      var k := |sched| - 1;
      OneSlotIsBlind(c, sched[..k]);
      BlindStep(c, Run(c, sched[..k]), sched[k]);
    }
  }

  /**
   When a logger can still close its file. In every reachable state, with pushes still to come or
   not and wherever the two threads are, some continuation closes the file exactly when the backlog is
   less than the capacity, the element in hand not counted; except that a ring of one slot closes
   only if nothing is ever logged.
   */
  lemma LoggerCanClose<X>(c: Config<X>, sched: seq<Thread>)
    requires c.Valid() && c.reader == Flusher
    ensures (exists more :: Run(c, sched + more).producer == Closed) <==>
              && Run(c, sched).Backlog() < c.capacity + InHand(Run(c, sched))
              && (c.capacity == 1 ==> c.program == [])
  {
    hide Step, Exec;
    var s := Run(c, sched);
    RunAccounted(c, sched);
    if s.Backlog() >= c.capacity + InHand(s) {
      forall more ensures Run(c, sched + more).producer != Closed {
        OverrunIsPermanent(c, sched, more);
      }
    } else if c.capacity >= 2 {
      var more := CanClose(c, s);
      ExecConcat(c, Initial(c), sched, more);
    } else if c.program == [] {
      DestructorCanEnd(c, sched);
    } else {
      forall more ensures Run(c, sched + more).producer != Closed {
        OneSlotIsBlind(c, sched + more);
        RunAccounted(c, sched + more);
      }
    }
  }

  /**
   A logger whose producer has kept two slots unused is never stuck: from every state of every such
   run it can go on to keep them unused, push the rest, and close a file that holds the whole program.
   */
  lemma PacedLoggerIsNeverStuck<X>(c: Config<X>, sched: seq<Thread>) returns (more: seq<Thread>)
    requires c.Valid() && c.reader == Flusher && c.capacity >= 2 && Paced(c, sched, 2)
    ensures Paced(c, sched + more, 2)
    ensures Run(c, sched + more).producer == Closed && Run(c, sched + more).out == c.program
  {
    hide Step, Exec;
    RunOrderly(c, sched, 2);
    more := CanClose(c, Run(c, sched));
    PacedConcat(c, Initial(c), sched, more, 2);
    PacedWeaker(c, sched + more, 2, Margin(Flusher));
    CleanShutdown(c, sched + more);
  }

  // ---------------------------------------------------------------------------------------------
  // How long the producer pushes.

  /** Producer turns taken so far, while there is still something to push. */
  function PushTurns<X>(c: Config<X>, s: State<X>): int {
    match s.producer
    case Storing(_, word) => s.pushes * PushSteps(c) + 1 + word
    case Publishing => s.pushes * PushSteps(c) + 1 + c.Width()
    case CountingUp => s.pushes * PushSteps(c) - 1
    case _ => s.pushes * PushSteps(c)
  }

  lemma PushTurnsBound<X>(c: Config<X>, s: State<X>)
    requires c.Valid() && c.reader == Flusher && Accounted(c, s)
    ensures Quiet(c, s) <==> PushTurns(c, s) >= |c.program| * PushSteps(c)
  {
    hide ConsumerLocals;
    TimesGap(s.pushes, |c.program|, PushSteps(c));
  }

  lemma PushTurnsStep<X>(c: Config<X>, s: State<X>)
    requires c.Valid() && Shaped(c, s) && s.pushes <= |c.program|
    ensures var s' := ProducerStep(c, s);
      PushTurns(c, s') == PushTurns(c, s) + if Quiet(c, s) then 0 else 1
  {
    if s.producer == Publishing {
      FewerTimes(s.pushes + 1, PushSteps(c));
    }
  }

  lemma PushTurnsFrame<X>(c: Config<X>, s: State<X>)
    requires c.Valid() && Shaped(c, s)
    ensures PushTurns(c, Step(c, s, Consumer)) == PushTurns(c, s)
  {
    hide Step;
    ConsumerFrame(c, s);
  }

  lemma {:induction false} TurnsPushed<X>(c: Config<X>, sched: seq<Thread>)
    requires c.Valid() && c.reader == Flusher
    ensures var turns, all := Turns(sched, Producer), |c.program| * PushSteps(c);
      PushTurns(c, Run(c, sched)) == if turns <= all then turns else all
    decreases |sched|
  {
    hide Step, PushTurns;
    RunAccounted(c, sched);
    if sched == [] {
      NothingPushed(c);
    } else {
      var k := |sched| - 1;
      var before := Run(c, sched[..k]);
      TurnsPushed(c, sched[..k]);
      RunAccounted(c, sched[..k]);
      PushTurnsBound(c, before);
      FlusherRuns(c, before);
      if sched[k] == Producer {
        PushTurnsStep(c, before);
      } else {
        PushTurnsFrame(c, before);
      }
    }
  }

  lemma NothingPushed<X>(c: Config<X>)
    requires c.Valid()
    ensures PushTurns(c, Run(c, [])) == 0 <= |c.program| * PushSteps(c)
  {
  }

  /** Pushing never waits: all is pushed exactly after width + 3 turns of the producer per element. */
  lemma QuietByTurns<X>(c: Config<X>, sched: seq<Thread>)
    requires c.Valid() && c.reader == Flusher
    ensures Quiet(c, Run(c, sched)) <==> Turns(sched, Producer) >= |c.program| * PushSteps(c)
  {
    hide Step, Exec, PushTurns;
    RunAccounted(c, sched);
    TurnsPushed(c, sched);
    PushTurnsBound(c, Run(c, sched));
  }

  /**
   The whole life of a paced logger, on turns alone. Let the producer keep two slots unused and
   get the turns that its pushes take, in any interleaving, and let then the flusher, the
   producer, the flusher and the producer get the turns that a backlog of the capacity
   would take, again in any interleaving. Then the file is closed and holds the whole program.
   */
  lemma PacedLoggerLives<X>(c: Config<X>, sched: seq<Thread>,
                            drain: seq<Thread>, stop: seq<Thread>, exit: seq<Thread>, close: seq<Thread>)
    requires c.Valid() && c.reader == Flusher && c.capacity >= 2 && Paced(c, sched, 2)
    requires Turns(sched, Producer) >= |c.program| * PushSteps(c)
    requires EnoughTurns(c, c.capacity, drain, stop, exit, close)
    ensures var s := Run(c, sched + (drain + stop + exit + close));
      s.producer == Closed && s.out == c.program
  {
    hide Step, Exec, Turns;
    QuietByTurns(c, sched);
    RunOrderly(c, sched, 2);
    TimesGap(Run(c, sched).Backlog(), c.capacity, PerElement(c));
    PacedLoggerFinishes(c, sched, drain, stop, exit, close);
  }
}
