/**
 The logger's end of life: the destructor waits for the size to reach zero, clears the running
 flag, joins the flusher and closes the file. When that ends well, when it never ends, and what
 the flusher does once the producer has stopped.
 */
module Shutdown {
  import opened Options
  import opened Modular
  import opened Queue
  import opened Machine
  import opened Pacing

  // ---------------------------------------------------------------------------------------------
  // Clean shutdown.

  /**
   In every run that closes the file, at whatever point the flusher was when the running flag was
   cleared, everything pushed has been written; and with the flusher's margin it is the program.
   No pace is assumed for the count.
   */
  lemma CleanShutdown<X>(c: Config<X>, sched: seq<Thread>)
    requires c.Valid() && c.reader == Flusher
    requires Run(c, sched).producer == Closed
    ensures var s := Run(c, sched);
      && |s.out| == s.pushes == s.pops == |c.program|
      && s.q.size == 0
      && (Paced(c, sched, Margin(Flusher)) ==> s.out == c.program)
  {
    RunAccounted(c, sched);
    if Paced(c, sched, Margin(Flusher)) {
      OutputIsPrefix(c, sched);
    }
  }

  /** The destructor does not clear the flag early: from then on nothing is left to read. */
  lemma FlagIsClearedLast<X>(c: Config<X>, sched: seq<Thread>)
    requires c.Valid() && c.reader == Flusher
    requires !Run(c, sched).running
    ensures var s := Run(c, sched);
      s.pops == s.pushes == |c.program| && |s.out| == |c.program| && s.q.NextToRead() == None
  {
    RunAccounted(c, sched);
  }

  // ---------------------------------------------------------------------------------------------
  // Overrun.

  /** The flusher is about to compare the indices. */
  predicate AtCheck<X>(c: Config<X>, s: State<X>) {
    c.reader == Flusher && s.consumer == Fetching
  }

  /** 1 when the flusher has fetched an element and not yet released its slot; 0 at a check. */
  function InHand<X>(s: State<X>): nat {
    if s.consumer.Copying? || s.consumer == Advancing || (s.consumer == Sizing && s.item.Some?) then 1 else 0
  }

  /** A full ring is waiting besides the element in hand. */
  ghost predicate Overrun<X>(c: Config<X>, s: State<X>)
    requires c.Valid()
  {
    c.reader == Flusher && Accounted(c, s) && s.Backlog() >= c.capacity + InHand(s)
  }

  /** A whole number of rings between the indices reads as nothing. */
  lemma FetchSees<X>(c: Config<X>, s: State<X>)
    requires c.Valid() && Accounted(c, s)
    ensures s.q.NextToRead() == None <==> s.Backlog() % c.capacity == 0
  {
    SameSlot(s.pushes, s.pops, c.capacity);
  }

  lemma OverrunProducer<X>(c: Config<X>, s: State<X>)
    requires c.Valid() && Overrun(c, s)
    ensures Overrun(c, ProducerStep(c, s))
  {
    ProducerKeepsAccounts(c, s);
  }

  lemma OverrunFlusher<X>(c: Config<X>, s: State<X>)
    requires c.Valid() && Overrun(c, s)
    ensures Overrun(c, FlusherStep(c, s))
  {
    FlusherKeepsAccounts(c, s);
    FetchSees(c, s);
    if s.Backlog() == c.capacity {
      Unique(s.Backlog(), c.capacity, 1, 0);
    }
  }

  lemma OverrunStep<X>(c: Config<X>, s: State<X>, t: Thread)
    requires c.Valid() && Overrun(c, s)
    ensures Overrun(c, Step(c, s, t))
  {
    hide Step, ProducerStep, FlusherStep;
    FlusherRuns(c, s);
    if t == Producer {
      OverrunProducer(c, s);
    } else {
      OverrunFlusher(c, s);
    }
  }

  lemma {:induction false} OverrunStays<X>(c: Config<X>, s: State<X>, more: seq<Thread>)
    requires c.Valid() && Overrun(c, s)
    ensures Overrun(c, Exec(c, s, more))
    decreases |more|
  {
    hide Step;
    if more != [] {
      var k := |more| - 1;
      OverrunStays(c, s, more[..k]);
      OverrunStep(c, Exec(c, s, more[..k]), more[k]);
    }
  }

  /**
   An overrun is permanent, wherever the flusher is; at a check it has nothing in hand, and a
   backlog of the capacity is enough. Whatever follows, the backlog stays at least the capacity,
   the size stays above zero whenever the destructor looks, the running flag stays set, and the file
   is never closed.
   */
  lemma OverrunIsPermanent<X>(c: Config<X>, sched: seq<Thread>, more: seq<Thread>)
    requires c.Valid() && c.reader == Flusher
    requires Run(c, sched).Backlog() >= c.capacity + InHand(Run(c, sched))
    ensures var s := Run(c, sched + more);
      && s.Backlog() >= c.capacity + InHand(s)
      && (s.producer == Draining ==> s.q.size >= c.capacity)
      && s.q.size >= c.capacity - 1
      && s.running
      && s.producer !in {Stopping, Joining, Closed}
      && |s.out| < |c.program|
  {
    hide Step;
    RunAccounted(c, sched);
    OverrunStays(c, Run(c, sched), more);
    ExecConcat(c, Initial(c), sched, more);
  }

  // ---------------------------------------------------------------------------------------------
  // Draining.

  /** Steps of the flusher that take one element: fetch, size, the words, and the release. */
  function PerElement<X>(c: Config<X>): nat {
    c.Width() + 5
  }

  /** Elements that the flusher will still take if nothing more is pushed. */
  function Left<X>(c: Config<X>, s: State<X>): int
    requires c.capacity > 0
  {
    InHand(s) + (s.Backlog() - InHand(s)) % c.capacity
  }

  /** A logger whose producer is not between its two updates, so that the size counts the backlog. */
  ghost predicate Steady<X>(c: Config<X>, s: State<X>)
    requires c.Valid()
  {
    c.reader == Flusher && Accounted(c, s) && s.producer != CountingUp
  }

  /**
   The number of flusher steps until it stops taking elements. A pointer that was null when fetched
   costs two steps more than a fresh check, to find that out and to load the running flag.
   */
  function Rank<X>(c: Config<X>, s: State<X>): int
    requires c.capacity > 0
  {
    var elements := Left(c, s) * PerElement(c);
    match s.consumer
    case Sizing => elements + (if s.item.Some? then -1 else if Left(c, s) > 0 then 2 else 0)
    case CheckingRun => elements + (if Left(c, s) > 0 then 1 else 0)
    case Copying(word) => elements - 2 - word
    case Advancing => elements - 2 - c.Width()
    case Asserting => elements + 2
    case CountingDown => elements + 1
    case _ => elements
  }

  lemma LeftBounds<X>(c: Config<X>, s: State<X>)
    requires c.Valid() && Steady(c, s)
    ensures InHand(s) <= Left(c, s) <= s.Backlog()
    ensures Left(c, s) == s.Backlog() <==> s.Backlog() < c.capacity + InHand(s)
    ensures !s.running || s.consumer == Exited ==> Left(c, s) == 0
  {
    Below(s.Backlog() - InHand(s), c.capacity);
  }

  lemma Below(d: int, n: int)
    requires n > 0 && d >= 0
    ensures 0 <= d % n <= d
    ensures d % n == d <==> d < n
  {
    if d < n {
      Unique(d, n, 0, d);
    }
  }

  lemma RankBounds<X>(c: Config<X>, s: State<X>)
    requires c.Valid() && Steady(c, s)
    ensures 0 <= Rank(c, s) <= Left(c, s) * PerElement(c) + 2
    ensures Rank(c, s) == 0 <==> Left(c, s) == 0 && !Releasing(s)
  {
    LeftBounds(c, s);
    MultipleIsFar(Left(c, s), PerElement(c));
  }

  /** Taking one element of a backlog that is not a multiple of the capacity. */
  lemma TakeOne(backlog: int, n: int)
    requires n > 0 && backlog % n > 0
    ensures 1 + (backlog - 1) % n == backlog % n
  {
    Unique(backlog - 1, n, backlog / n, backlog % n - 1);
  }

  /** The comparison finds an element exactly when one is left to take. */
  lemma FetchKeepsLeft<X>(c: Config<X>, s: State<X>)
    requires c.Valid() && Steady(c, s) && s.consumer == Fetching
    ensures var s' := FlusherStep(c, s);
      (s'.item.Some? <==> Left(c, s) > 0) && Left(c, s') == Left(c, s)
  {
    hide Counters, ProducerLocals, ConsumerLocals;
    FetchSees(c, s);
    if s.Backlog() % c.capacity > 0 {
      TakeOne(s.Backlog(), c.capacity);
    }
  }

  /** An element leaves the flusher's hands with its release, and only then. */
  lemma InHandStep<X>(c: Config<X>, s: State<X>)
    requires c.Valid() && Steady(c, s) && s.consumer != Fetching
    ensures var s' := FlusherStep(c, s);
      && InHand(s') == InHand(s) - (if s.consumer == Advancing then 1 else 0)
      && s'.Backlog() - InHand(s') == s.Backlog() - InHand(s)
      && (s.consumer == Sizing ==> s'.consumer == if s.item.Some? then Copying(0) else CheckingRun)
  {
    hide ProducerLocals;
  }

  /** What one flusher step changes of Left: only the release does, together with the backlog. */
  lemma LeftStep<X>(c: Config<X>, s: State<X>)
    requires c.Valid() && Steady(c, s)
    ensures var s' := FlusherStep(c, s);
      && Left(c, s') == Left(c, s) - (if s.consumer == Advancing then 1 else 0)
      && s'.Backlog() == s.Backlog() - (if s.consumer == Advancing then 1 else 0)
      && (s.consumer == Fetching ==> (s'.item.Some? <==> Left(c, s) > 0))
      && (s.consumer == Sizing ==> s'.consumer == if s.item.Some? then Copying(0) else CheckingRun)
  {
    hide Counters, ProducerLocals, ConsumerLocals;
    if s.consumer == Fetching {
      FetchKeepsLeft(c, s);
    } else {
      InHandStep(c, s);
    }
  }

  /** A flusher step takes one off the rank and keeps what the flusher will leave behind. */
  lemma SteadyFlusher<X>(c: Config<X>, s: State<X>)
    requires c.Valid() && Steady(c, s)
    ensures var s' := FlusherStep(c, s);
      && Steady(c, s') && s'.pushes == s.pushes && s'.producer == s.producer
      && s'.Backlog() - Left(c, s') == s.Backlog() - Left(c, s)
      && Rank(c, s') == Down(Rank(c, s), 1)
  {
    FlusherKeepsAccounts(c, s);
    LeftStep(c, s);
    LeftBounds(c, s);
    RankBounds(c, s);
    FewerTimes(Left(c, s), PerElement(c));
  }

  /** `k` less `m`, but not below zero. */
  function Down(k: int, m: nat): nat {
    if k > m then k - m else 0
  }

  /** How often a thread runs in a schedule. */
  function Turns(sched: seq<Thread>, t: Thread): nat {
    if sched == [] then 0
    else Turns(sched[..|sched| - 1], t) + if sched[|sched| - 1] == t then 1 else 0
  }

  lemma {:induction false} TurnsOfRepeat(t: Thread, n: nat)
    ensures Turns(Repeat(t, n), t) == n
  {
    if n > 0 {
      TurnsOfRepeat(t, n - 1);
      assert Repeat(t, n)[..n - 1] == Repeat(t, n - 1);
    }
  }

  /** The producer pushes no more: it is past its last push, perhaps in the destructor. */
  predicate Quiet<X>(c: Config<X>, s: State<X>) {
    (s.producer == Idle && s.pushes == |c.program|) || s.producer in {Draining, Stopping, Joining, Closed}
  }

  /** The producer has stopped; the flusher may be anywhere. */
  ghost predicate Settled<X>(c: Config<X>, s: State<X>)
    requires c.Valid()
  {
    Steady(c, s) && Quiet(c, s)
  }

  lemma SettledProducer<X>(c: Config<X>, s: State<X>)
    requires c.Valid() && Settled(c, s)
    ensures var s' := ProducerStep(c, s);
      && Settled(c, s') && s'.pushes == s.pushes
      && s'.pops == s.pops && s'.consumer == s.consumer && s'.item == s.item
      && Left(c, s') == Left(c, s) && Rank(c, s') == Rank(c, s)
  {
    ProducerKeepsAccounts(c, s);
  }

  lemma FlusherRuns<X>(c: Config<X>, s: State<X>)
    requires c.Valid() && Accounted(c, s) && c.reader == Flusher
    ensures Step(c, s, Producer) == ProducerStep(c, s) && Step(c, s, Consumer) == FlusherStep(c, s)
  {
  }

  lemma SettledStep<X>(c: Config<X>, s: State<X>, t: Thread)
    requires c.Valid() && Settled(c, s)
    ensures var s' := Step(c, s, t);
      && Settled(c, s') && s'.pushes == s.pushes
      && s'.Backlog() - Left(c, s') == s.Backlog() - Left(c, s)
      && Rank(c, s') == Down(Rank(c, s), if t == Consumer then 1 else 0)
  {
    hide Step, ProducerStep, FlusherStep, Rank, Left;
    FlusherRuns(c, s);
    if t == Producer {
      RankBounds(c, s);
      SettledProducer(c, s);
    } else {
      SteadyFlusher(c, s);
    }
  }

  lemma {:induction false} SettledStays<X>(c: Config<X>, s: State<X>, more: seq<Thread>)
    requires c.Valid() && Settled(c, s)
    ensures var s' := Exec(c, s, more);
      && Settled(c, s') && s'.pushes == s.pushes
      && s'.Backlog() - Left(c, s') == s.Backlog() - Left(c, s)
      && Rank(c, s') == Down(Rank(c, s), Turns(more, Consumer))
    decreases |more|
  {
    hide Step, Rank, Left;
    if more == [] {
      RankBounds(c, s);
    } else {
      var k := |more| - 1;
      SettledStays(c, s, more[..k]);
      SettledStep(c, Exec(c, s, more[..k]), more[k]);
    }
  }

  /** A flusher with rank zero: nothing in its hands, and the indices equal. */
  lemma AtRest<X>(c: Config<X>, s: State<X>)
    requires c.Valid() && Steady(c, s) && Rank(c, s) == 0
    ensures Left(c, s) == 0 && s.q.NextToRead() == None
    ensures s.q.size == s.Backlog() && |s.out| == s.pops
  {
    RankBounds(c, s);
    LeftBounds(c, s);
    FetchSees(c, s);
  }

  /** Stopping with rank zero is certain after so many turns of the flusher. */
  lemma DrainCount<X>(c: Config<X>, s: State<X>, more: seq<Thread>)
    requires c.Valid() && Settled(c, s)
    ensures var s' := Exec(c, s, more);
      && Settled(c, s') && s'.pushes == s.pushes
      && s'.pops <= s.pops + Left(c, s)
      && (Turns(more, Consumer) >= Rank(c, s) ==>
            && Rank(c, s') == 0
            && s'.pops == s.pops + Left(c, s) == |s'.out|
            && s'.q.NextToRead() == None
            && s'.q.size == s.Backlog() - Left(c, s))
  {
    hide Step, Exec, Rank, Left;
    SettledStays(c, s, more);
    var s' := Exec(c, s, more);
    LeftBounds(c, s');
    if Rank(c, s') == 0 {
      AtRest(c, s');
    }
  }

  /**
   The exact drain. Let the producer have stopped with backlog D, wherever the flusher is, and let h
   be 1 if it has an element in hand and 0 if not. In every continuation the flusher takes at
   most T = h + (D - h) mod capacity elements more; once it has had T * (width + 5) + 2 turns it
   has taken exactly that many, from then on it sees an empty queue, and the size stands at
   D - T. So everything is drained exactly when D is less than capacity + h.
   */
  lemma QuietDrain<X>(c: Config<X>, sched: seq<Thread>, more: seq<Thread>)
    requires c.Valid() && c.reader == Flusher && Quiet(c, Run(c, sched))
    ensures var s, s' := Run(c, sched), Run(c, sched + more);
      var rest := InHand(s) + (s.Backlog() - InHand(s)) % c.capacity;
      && s'.pops <= s.pops + rest
      && (Turns(more, Consumer) >= rest * PerElement(c) + 2 ==>
            && s'.pops == s.pops + rest == |s'.out|
            && s'.q.NextToRead() == None
            && s'.q.size == s.Backlog() - rest
            && (s'.pops == s'.pushes <==> s.Backlog() < c.capacity + InHand(s)))
  {
    hide Step, Exec, Rank;
    var s := Run(c, sched);
    RunAccounted(c, sched);
    ExecConcat(c, Initial(c), sched, more);
    DrainCount(c, s, more);
    RankBounds(c, s);
    LeftBounds(c, s);
  }

  lemma AtCheckRank<X>(c: Config<X>, s: State<X>)
    requires c.Valid() && Steady(c, s) && s.consumer == Fetching
    ensures Left(c, s) == s.Backlog() % c.capacity && Rank(c, s) == Left(c, s) * PerElement(c)
    ensures |s.out| == s.pops
  {
  }

  /** At a check: exactly D mod capacity elements, in (D mod capacity) * (width + 5) turns. */
  lemma QuietDrainAtCheck<X>(c: Config<X>, sched: seq<Thread>, more: seq<Thread>)
    requires c.Valid() && AtCheck(c, Run(c, sched)) && Quiet(c, Run(c, sched))
    ensures var s, s' := Run(c, sched), Run(c, sched + more);
      var rest := s.Backlog() % c.capacity;
      && s'.pops <= s.pops + rest
      && (Turns(more, Consumer) >= rest * PerElement(c) ==>
            && s'.pops == s.pops + rest
            && |s'.out| == |s.out| + rest
            && s'.q.NextToRead() == None
            && s'.q.size == s.Backlog() - rest)
  {
    hide Step, Exec, Rank, Left;
    RunAccounted(c, sched);
    ExecConcat(c, Initial(c), sched, more);
    AtCheckRank(c, Run(c, sched));
    DrainCount(c, Run(c, sched), more);
  }

  // ---------------------------------------------------------------------------------------------
  // Whether the destructor ends.

  /** Producer steps left to the end of the destructor, once the size is zero. */
  function ToClose<X>(s: State<X>): nat {
    match s.producer
    case Draining => 3
    case Stopping => 2
    case Joining => 1
    case Closed => 0
    case _ => 4
  }

  /** Flusher steps left to the end of its thread, once the flag is clear. */
  function ToExit<X>(s: State<X>): nat {
    match s.consumer
    case Fetching => 3
    case Sizing => 2
    case CheckingRun => 1
    case _ => 0
  }

  /** Everything has been taken and the flusher is between elements. */
  ghost predicate Drained<X>(c: Config<X>, s: State<X>)
    requires c.Valid()
  {
    Settled(c, s) && s.pops == s.pushes && Rank(c, s) == 0
  }

  lemma DrainedProducer<X>(c: Config<X>, s: State<X>)
    requires c.Valid() && Drained(c, s)
    ensures var s' := ProducerStep(c, s);
      && Drained(c, s') && ToExit(s') == ToExit(s)
      && (!s.running ==> !s'.running)
      && ToClose(s') == if ToClose(s) > 1 || s.consumer == Exited then Down(ToClose(s), 1) else ToClose(s)
  {
    AtRest(c, s);
    SettledProducer(c, s);
  }

  lemma DrainedFlusher<X>(c: Config<X>, s: State<X>)
    requires c.Valid() && Drained(c, s)
    ensures var s' := FlusherStep(c, s);
      && Drained(c, s') && s'.producer == s.producer && s'.running == s.running
      && (!s.running ==> ToExit(s') == Down(ToExit(s), 1))
  {
    AtRest(c, s);
    RankBounds(c, s);
    SteadyFlusher(c, s);
    AtRest(c, FlusherStep(c, s));
  }

  lemma DrainedStep<X>(c: Config<X>, s: State<X>, t: Thread)
    requires c.Valid() && Drained(c, s)
    ensures var s' := Step(c, s, t);
      && Drained(c, s')
      && (ToClose(s) > 1 || s.consumer == Exited ==>
            ToClose(s') == Down(ToClose(s), if t == Producer then 1 else 0))
      && ToClose(s') <= ToClose(s)
      && (!s.running ==> !s'.running && ToExit(s') == Down(ToExit(s), if t == Consumer then 1 else 0))
  {
    hide Step, ProducerStep, FlusherStep;
    FlusherRuns(c, s);
    if t == Producer {
      DrainedProducer(c, s);
    } else {
      DrainedFlusher(c, s);
    }
  }

  lemma {:induction false} DrainedStays<X>(c: Config<X>, s: State<X>, more: seq<Thread>)
    requires c.Valid() && Drained(c, s)
    ensures var s' := Exec(c, s, more);
      && Drained(c, s')
      && ToClose(s') <= (if ToClose(s) > Turns(more, Producer) then ToClose(s) - Turns(more, Producer) else 1)
      && (s.consumer == Exited ==> ToClose(s') == Down(ToClose(s), Turns(more, Producer)))
      && (!s.running ==> !s'.running && ToExit(s') == Down(ToExit(s), Turns(more, Consumer)))
    decreases |more|
  {
    hide Step;
    if more != [] {
      var k := |more| - 1;
      DrainedStays(c, s, more[..k]);
      DrainedStep(c, Exec(c, s, more[..k]), more[k]);
    }
  }

  /** Nothing in hand is left once everything is drained, and a thread that is not on its way has ended. */
  lemma DrainedExits<X>(c: Config<X>, s: State<X>)
    requires c.Valid() && Drained(c, s)
    ensures ToExit(s) == 0 ==> s.consumer == Exited
    ensures ToClose(s) <= 1 ==> !s.running
  {
    RankBounds(c, s);
    LeftBounds(c, s);
  }

  lemma DrainedCloses<X>(c: Config<X>, s: State<X>, stop: seq<Thread>, exit: seq<Thread>, close: seq<Thread>)
    requires c.Valid() && Drained(c, s)
    requires Turns(stop, Producer) >= 3 && Turns(exit, Consumer) >= 3 && Turns(close, Producer) >= 1
    ensures Exec(c, Exec(c, Exec(c, s, stop), exit), close).producer == Closed
  {
    hide Step, Exec, Turns;
    DrainedStays(c, s, stop);
    var s2 := Exec(c, s, stop);
    DrainedExits(c, s2);
    DrainedStays(c, s2, exit);
    var s3 := Exec(c, s2, exit);
    DrainedExits(c, s3);
    DrainedStays(c, s3, close);
  }

  /** The flusher gets the drain's turns, then the producer, the flusher and the producer theirs. */
  predicate EnoughTurns<X>(c: Config<X>, backlog: int,
                           drain: seq<Thread>, stop: seq<Thread>, exit: seq<Thread>, close: seq<Thread>) {
    && Turns(drain, Consumer) >= backlog * PerElement(c) + 2
    && Turns(stop, Producer) >= 3
    && Turns(exit, Consumer) >= 3
    && Turns(close, Producer) >= 1
  }

  lemma SettledCloses<X>(c: Config<X>, s: State<X>,
                         drain: seq<Thread>, stop: seq<Thread>, exit: seq<Thread>, close: seq<Thread>)
    requires c.Valid() && Settled(c, s) && s.Backlog() < c.capacity + InHand(s)
    requires EnoughTurns(c, s.Backlog(), drain, stop, exit, close)
    ensures Exec(c, s, drain + stop + exit + close).producer == Closed
  {
    hide Step, Exec, Turns, Rank, Left;
    RankBounds(c, s);
    LeftBounds(c, s);
    DrainCount(c, s, drain);
    var s1 := Exec(c, s, drain);
    assert Drained(c, s1);
    DrainedCloses(c, s1, stop, exit, close);
    ExecConcat(c, s, drain, stop);
    ExecConcat(c, s, drain + stop, exit);
    ExecConcat(c, s, drain + stop + exit, close);
  }

  /**
   From wherever the flusher is when the producer has stopped, a backlog under the capacity, or
   equal to it with an element in hand, lets the destructor end: it suffices that the flusher,
   the producer, the flusher and the producer again get enough turns, in that order, in
   whatever interleaving.
   */
  lemma DestructorEnds<X>(c: Config<X>, sched: seq<Thread>,
                          drain: seq<Thread>, stop: seq<Thread>, exit: seq<Thread>, close: seq<Thread>)
    requires c.Valid() && c.reader == Flusher && Quiet(c, Run(c, sched))
    requires Run(c, sched).Backlog() < c.capacity + InHand(Run(c, sched))
    requires EnoughTurns(c, Run(c, sched).Backlog(), drain, stop, exit, close)
    ensures Run(c, sched + (drain + stop + exit + close)).producer == Closed
  {
    hide Step, Exec, EnoughTurns;
    RunAccounted(c, sched);
    SettledCloses(c, Run(c, sched), drain, stop, exit, close);
    ExecConcat(c, Initial(c), sched, drain + stop + exit + close);
  }

  /** A schedule that gives those turns. */
  lemma ClosingSchedule<X>(c: Config<X>, s: State<X>) returns (more: seq<Thread>)
    requires c.Valid() && Settled(c, s) && s.Backlog() < c.capacity + InHand(s)
    ensures Exec(c, s, more).producer == Closed
  {
    hide Step, Exec, Turns;
    var n := s.Backlog() * PerElement(c) + 2;
    var drain, stop, exit, close :=
      Repeat(Consumer, n), Repeat(Producer, 3), Repeat(Consumer, 3), Repeat(Producer, 1);
    TurnsOfRepeat(Consumer, n);
    TurnsOfRepeat(Producer, 3);
    TurnsOfRepeat(Consumer, 3);
    TurnsOfRepeat(Producer, 1);
    SettledCloses(c, s, drain, stop, exit, close);
    more := drain + stop + exit + close;
  }

  /** Once the producer has stopped, the file can still be closed exactly when there is no overrun. */
  lemma DestructorCanEnd<X>(c: Config<X>, sched: seq<Thread>)
    requires c.Valid() && c.reader == Flusher && Quiet(c, Run(c, sched))
    ensures (exists more :: Run(c, sched + more).producer == Closed) <==>
            Run(c, sched).Backlog() < c.capacity + InHand(Run(c, sched))
  {
    hide Step, Exec;
    var s := Run(c, sched);
    RunAccounted(c, sched);
    if s.Backlog() >= c.capacity + InHand(s) {
      forall more ensures Run(c, sched + more).producer != Closed {
        OverrunIsPermanent(c, sched, more);
      }
    } else {
      var more := ClosingSchedule(c, s);
      ExecConcat(c, Initial(c), sched, more);
    }
  }

  lemma QuietIsPaced<X>(c: Config<X>, s: State<X>, more: seq<Thread>, margin: nat)
    requires c.Valid() && Settled(c, s)
    ensures PacedFrom(c, s, more, margin)
  {
    hide Step, Exec, Rank, Left;
    forall i | 0 <= i < |more| && more[i] == Producer
      ensures StartsWithin(c, Exec(c, s, more[..i]), margin)
    {
      SettledStays(c, s, more[..i]);
    }
  }

  /**
   The whole life of a paced logger. If two slots were kept unused until the last push, then
   wherever the flusher is by then, the destructor ends, given turns as above, and the closed
   file holds the whole program.
   */
  lemma PacedLoggerFinishes<X>(c: Config<X>, sched: seq<Thread>,
                               drain: seq<Thread>, stop: seq<Thread>, exit: seq<Thread>, close: seq<Thread>)
    requires c.Valid() && c.reader == Flusher && Quiet(c, Run(c, sched))
    requires Paced(c, sched, 2)
    requires EnoughTurns(c, Run(c, sched).Backlog(), drain, stop, exit, close)
    ensures var s := Run(c, sched + (drain + stop + exit + close));
      s.producer == Closed && s.out == c.program
  {
    hide Step, Exec, EnoughTurns;
    var more := drain + stop + exit + close;
    RunOrderly(c, sched, 2);
    DestructorEnds(c, sched, drain, stop, exit, close);
    PacedWeaker(c, sched, 2, Margin(Flusher));
    QuietIsPaced(c, Run(c, sched), more, Margin(Flusher));
    PacedConcat(c, Initial(c), sched, more, Margin(Flusher));
    CleanShutdown(c, sched + more);
  }
}
