/**
 The queue under two threads: an interleaving model with one step per access to memory that the
 other thread may also touch.

 A load of a variable that only the loading thread ever stores is not a step of its own, because
 it returns the same value wherever it is placed. Every other load, store, increment and
 decrement is a step, and an element is stored and fetched one word at a time.

 A run is a schedule: the sequence of threads that take the steps. Both threads are
 deterministic, so quantifying over schedules is quantifying over runs.
 */
module Machine {
  import opened Options
  import opened Modular
  import opened Queue

  /** Who reads: the logger's flusher thread, or the consumer of the queue demonstration. */
  datatype Reader = Flusher | Demo

  datatype Thread = Producer | Consumer

  /** What is fixed for a run. The producer pushes the elements of `program` one after another. */
  datatype Config<X> = Config(reader: Reader, capacity: nat, blank: seq<X>, program: seq<seq<X>>) {

    ghost predicate Valid() {
      && 0 < capacity < SIZE_MODULUS
      && 0 < |blank|
      && |program| < SIZE_MODULUS
      && forall i :: 0 <= i < |program| ==> |program[i]| == |blank|
    }

    function Width(): nat {
      |blank|
    }
  }

  /** Where the producer thread is. The last four belong to the logger's destructor. */
  datatype ProducerPoint =
    | Idle                            // before the next push, or past the last one
    | Storing(slot: nat, word: nat)   // about to store one word of the element into its slot
    | Publishing                      // about to store the write index
    | CountingUp                      // about to increment the size
    | Draining                        // destructor: about to load the size
    | Stopping                        // destructor: about to clear the running flag
    | Joining                         // destructor: waiting for the flusher thread to end
    | Closed                          // destructor: the file is closed

  /** Where the consumer thread is. */
  datatype ConsumerPoint =
    | CheckingRun                     // flusher: about to load the running flag
    | Sizing                          // about to load the size
    | Fetching                        // about to compare the two indices
    | Copying(word: nat)              // about to load one word through the pointer
    | Advancing                       // about to store the read index
    | Asserting                       // about to load the size for the assertion
    | CountingDown                    // about to decrement the size
    | Exited                          // the thread function has returned
    | Aborted                         // the size assertion has stopped the process
    | Faulted                         // a null pointer has been dereferenced

  /**
   `pushes` and `pops` count stores of the two indices, `counted` and `discounted` count changes of
   the size. They are history variables: no step reads them except to name the element pushed.
   */
  datatype State<X> = State(
    q: Shared<X>,
    running: bool,
    producer: ProducerPoint,
    consumer: ConsumerPoint,
    item: Option<nat>,                // the consumer's pointer
    partial: seq<X>,                  // words loaded so far of the current element
    out: seq<seq<X>>,                 // elements handed to the output stream
    pushes: nat,
    counted: nat,
    pops: nat,
    discounted: nat
  ) {
    function Backlog(): int {
      pushes - pops
    }
  }

  /** What the step functions need in order to be defined. */
  ghost predicate Shaped<X>(c: Config<X>, s: State<X>) {
    && s.q.Valid()
    && |s.q.store| == c.capacity
    && (forall i :: 0 <= i < c.capacity ==> |s.q.store[i]| == c.Width())
    && (s.producer.Storing? ==>
          s.producer.slot < c.capacity && s.producer.word < c.Width() && s.pushes < |c.program|)
    && (s.item.Some? ==> s.item.value < c.capacity)
    && (s.consumer.Copying? ==> s.consumer.word < c.Width())
  }

  function Initial<X>(c: Config<X>): (s: State<X>)
    requires c.Valid()
    ensures Shaped(c, s)
  {
    State(Shared(seq(c.capacity, i => c.blank), 0, 0, 0), true, Idle,
          if c.reader == Flusher then CheckingRun else Sizing,
          None, [], [], 0, 0, 0, 0)
  }

  function ProducerStep<X>(c: Config<X>, s: State<X>): (s': State<X>)
    requires c.Valid() && Shaped(c, s)
    ensures Shaped(c, s')
  {
    match s.producer
    case Idle =>
      if s.pushes < |c.program| then s.(producer := Storing(s.q.writeIndex, 0))
      else if c.reader == Flusher then s.(producer := Draining)
      else s
    case Storing(slot, word) =>
      s.(q := s.q.StoreWord(slot, word, c.program[s.pushes][word]),
         producer := if word + 1 < c.Width() then Storing(slot, word + 1) else Publishing)
    case Publishing => s.(q := s.q.PublishWrite(), pushes := s.pushes + 1, producer := CountingUp)
    case CountingUp => s.(q := s.q.CountUp(), counted := s.counted + 1, producer := Idle)
    case Draining => if s.q.size == 0 then s.(producer := Stopping) else s
    case Stopping => s.(running := false, producer := Joining)
    case Joining => if s.consumer == Exited then s.(producer := Closed) else s
    case Closed => s
  }

  /** Loading one word through the pointer; the element is complete with its last word. */
  function CopyStep<X>(c: Config<X>, s: State<X>, after: ConsumerPoint): (s': State<X>)
    requires c.Valid() && Shaped(c, s) && s.consumer.Copying? && !after.Copying?
    ensures Shaped(c, s')
  {
    if s.item.None? then s.(partial := [], consumer := Faulted)
    else
      var words := s.partial + [s.q.store[s.item.value][s.consumer.word]];
      if s.consumer.word + 1 < c.Width()
      then s.(partial := words, consumer := Copying(s.consumer.word + 1))
      else s.(partial := [], out := s.out + [words], consumer := after)
  }

  /** The three accesses of updateReadIndex, which both consumers share. */
  function AdvanceStep<X>(c: Config<X>, s: State<X>, after: ConsumerPoint): (s': State<X>)
    requires c.Valid() && Shaped(c, s)
    requires s.consumer in {Advancing, Asserting, CountingDown}
    requires after.Copying? ==> after.word < c.Width()
    ensures Shaped(c, s')
  {
    match s.consumer
    case Advancing => s.(q := s.q.PublishRead(), pops := s.pops + 1, consumer := Asserting)
    case Asserting => s.(consumer := if s.q.size != 0 then CountingDown else Aborted)
    case CountingDown => s.(q := s.q.CountDown(), discounted := s.discounted + 1, consumer := after)
  }

  /** The flusher: fetch, load the size, copy the element out, then release its slot. */
  function FlusherStep<X>(c: Config<X>, s: State<X>): (s': State<X>)
    requires c.Valid() && Shaped(c, s)
    ensures Shaped(c, s')
  {
    match s.consumer
    case CheckingRun => s.(consumer := if s.running then Fetching else Exited)
    case Fetching => s.(item := s.q.NextToRead(), consumer := Sizing)
    case Sizing =>
      s.(consumer := if s.q.size != 0 && s.item.Some? then Copying(0) else CheckingRun)
    case Copying(_) => CopyStep(c, s, Advancing)
    case Advancing => AdvanceStep(c, s, Fetching)
    case Asserting => AdvanceStep(c, s, Fetching)
    case CountingDown => AdvanceStep(c, s, Fetching)
    case _ => s
  }

  /** The demonstration: load the size, fetch, release the slot, and only then read it. */
  function DemoStep<X>(c: Config<X>, s: State<X>): (s': State<X>)
    requires c.Valid() && Shaped(c, s)
    ensures Shaped(c, s')
  {
    match s.consumer
    case Sizing => s.(consumer := if s.q.size != 0 then Fetching else Exited)
    case Fetching => s.(item := s.q.NextToRead(), consumer := Advancing)
    case Advancing => AdvanceStep(c, s, Copying(0))
    case Asserting => AdvanceStep(c, s, Copying(0))
    case CountingDown => AdvanceStep(c, s, Copying(0))
    case Copying(_) => CopyStep(c, s, Sizing)
    case _ => s
  }

  predicate Halted<X>(s: State<X>) {
    s.consumer.Aborted? || s.consumer.Faulted?
  }

  function Step<X>(c: Config<X>, s: State<X>, t: Thread): (s': State<X>)
    requires c.Valid() && Shaped(c, s)
    ensures Shaped(c, s')
  {
    if Halted(s) then s
    else if t == Producer then ProducerStep(c, s)
    else if c.reader == Flusher then FlusherStep(c, s)
    else DemoStep(c, s)
  }

  /** The state after a schedule, from any state. */
  function Exec<X>(c: Config<X>, s: State<X>, sched: seq<Thread>): (s': State<X>)
    requires c.Valid() && Shaped(c, s)
    ensures Shaped(c, s')
    decreases |sched|
  {
    if sched == [] then s
    else
      var k := |sched| - 1;
      Step(c, Exec(c, s, sched[..k]), sched[k])
  }

  /** The state after a schedule, from the start of the program. */
  function Run<X>(c: Config<X>, sched: seq<Thread>): (s: State<X>)
    requires c.Valid()
    ensures Shaped(c, s)
  {
    Exec(c, Initial(c), sched)
  }

  lemma ExecOne<X>(c: Config<X>, s: State<X>, sched: seq<Thread>, t: Thread)
    requires c.Valid() && Shaped(c, s)
    ensures Exec(c, s, sched + [t]) == Step(c, Exec(c, s, sched), t)
  {
    assert (sched + [t])[..|sched|] == sched;
  }

  lemma {:induction false} ExecConcat<X>(c: Config<X>, s: State<X>, a: seq<Thread>, b: seq<Thread>)
    requires c.Valid() && Shaped(c, s)
    ensures Exec(c, s, a + b) == Exec(c, Exec(c, s, a), b)
    decreases |b|
  {
    if b == [] {
      assert a + b == a;
    } else {
      var k := |b| - 1;
      ExecConcat(c, s, a, b[..k]);
      assert a + b == (a + b[..k]) + [b[k]];
      ExecOne(c, s, a + b[..k], b[k]);
    }
  }

  function Repeat(t: Thread, n: nat): (sched: seq<Thread>)
    ensures |sched| == n
  {
    seq(n, i => t)
  }

  lemma ExecRepeat<X>(c: Config<X>, s: State<X>, t: Thread, n: nat)
    requires c.Valid() && Shaped(c, s) && n > 0
    ensures Exec(c, s, Repeat(t, n)) == Step(c, Exec(c, s, Repeat(t, n - 1)), t)
  {
    assert Repeat(t, n) == Repeat(t, n - 1) + [t];
    ExecOne(c, s, Repeat(t, n - 1), t);
  }

  // ---------------------------------------------------------------------------------------------
  // Accounting: what holds of the counters in every run, whatever the producer overwrites.

  /** The consumer has moved the read index and not yet the size. */
  predicate Releasing<X>(s: State<X>) {
    s.consumer in {Asserting, CountingDown}
  }

  /** The consumer has seen a non-zero size and not yet moved the read index. */
  predicate Committed<X>(c: Config<X>, s: State<X>) {
    s.consumer == Advancing || (if c.reader == Flusher then s.consumer.Copying? else s.consumer == Fetching)
  }

  ghost predicate Counters<X>(c: Config<X>, s: State<X>)
    requires c.Valid()
  {
    && s.q.writeIndex == s.pushes % c.capacity
    && s.q.readIndex == s.pops % c.capacity
    && s.q.size == s.counted - s.discounted
    && s.discounted <= s.pops <= s.counted <= s.pushes <= |c.program|
    && s.pushes == s.counted + (if s.producer == CountingUp then 1 else 0)
    && s.pops == s.discounted + (if Releasing(s) then 1 else 0)
    && (Committed(c, s) ==> s.pops < s.counted)
  }

  ghost predicate ProducerLocals<X>(c: Config<X>, s: State<X>)
    requires c.Valid()
  {
    && (s.producer.Storing? ==> s.producer.slot == s.pushes % c.capacity)
    && (s.producer.Storing? || s.producer == Publishing ==> s.pushes < |c.program|)
    && (s.producer in {Draining, Stopping, Joining, Closed} ==>
          c.reader == Flusher && s.pushes == |c.program|)
    && (s.producer in {Stopping, Joining, Closed} ==> s.discounted == s.pushes)
    && (s.running <==> s.producer !in {Joining, Closed})
    && (s.producer == Closed ==> s.consumer == Exited)
  }

  /** Elements put out: the flusher writes before it releases the slot, the demonstration after. */
  function Emitted<X>(c: Config<X>, s: State<X>): int {
    if c.reader == Flusher then s.pops + (if s.consumer == Advancing then 1 else 0)
    else s.pops - (if Releasing(s) || s.consumer.Copying? || s.consumer == Faulted then 1 else 0)
  }

  /** The element that the consumer's pointer, when not null, points at. */
  function ItemNumber<X>(c: Config<X>, s: State<X>): int {
    if c.reader == Demo && (Releasing(s) || s.consumer.Copying?) then s.pops - 1 else s.pops
  }

  /** The consumer holds a pointer it will still use or compare with null. */
  predicate Holding<X>(c: Config<X>, s: State<X>) {
    || s.consumer.Copying?
    || (if c.reader == Flusher then s.consumer == Sizing else s.consumer == Advancing || Releasing(s))
  }

  ghost predicate ConsumerLocals<X>(c: Config<X>, s: State<X>)
    requires c.Valid()
  {
    && s.consumer != Aborted
    && (s.consumer == Exited && c.reader == Flusher ==> !s.running)
    && (s.consumer == CheckingRun ==> c.reader == Flusher)
    && (s.consumer == Faulted ==> c.reader == Demo)
    && (Holding(c, s) && s.item.Some? ==>
          ItemNumber(c, s) >= 0 && s.item == Some(ItemNumber(c, s) % c.capacity))
    && (c.reader == Flusher && s.consumer == Sizing && s.item.Some? ==> s.pops < s.pushes)
    && (c.reader == Flusher && s.consumer.Copying? ==> s.item.Some?)
    && |s.partial| == (if s.consumer.Copying? then s.consumer.word else 0)
    && |s.out| == Emitted(c, s)
  }

  /** What every reachable state satisfies, with no condition on the producer's pace. */
  ghost predicate Accounted<X>(c: Config<X>, s: State<X>)
    requires c.Valid()
  {
    Shaped(c, s) && Counters(c, s) && ProducerLocals(c, s) && ConsumerLocals(c, s)
  }

  lemma StoringKeepsAccounts<X>(c: Config<X>, s: State<X>)
    requires c.Valid() && Accounted(c, s) && s.producer.Storing?
    ensures Accounted(c, ProducerStep(c, s))
  {
  }

  lemma PublishingKeepsAccounts<X>(c: Config<X>, s: State<X>)
    requires c.Valid() && Accounted(c, s) && s.producer == Publishing
    ensures Accounted(c, ProducerStep(c, s))
  {
    Succ(s.pushes, c.capacity);
  }

  lemma CountingKeepsAccounts<X>(c: Config<X>, s: State<X>)
    requires c.Valid() && Accounted(c, s) && s.producer in {Idle, CountingUp}
    ensures Accounted(c, ProducerStep(c, s))
  {
  }

  lemma EndingKeepsAccounts<X>(c: Config<X>, s: State<X>)
    requires c.Valid() && Accounted(c, s) && s.producer in {Draining, Stopping, Joining, Closed}
    ensures Accounted(c, ProducerStep(c, s))
  {
  }

  lemma ProducerKeepsAccounts<X>(c: Config<X>, s: State<X>)
    requires c.Valid() && Accounted(c, s)
    ensures Accounted(c, ProducerStep(c, s))
  {
    hide Accounted, ProducerStep;
    if s.producer.Storing? {
      StoringKeepsAccounts(c, s);
    } else if s.producer == Publishing {
      PublishingKeepsAccounts(c, s);
    } else if s.producer in {Idle, CountingUp} {
      CountingKeepsAccounts(c, s);
    } else {
      EndingKeepsAccounts(c, s);
    }
  }

  lemma CopyingKeepsAccounts<X>(c: Config<X>, s: State<X>)
    requires c.Valid() && Accounted(c, s) && s.consumer.Copying?
    ensures Accounted(c, CopyStep(c, s, if c.reader == Flusher then Advancing else Sizing))
  {
  }

  lemma AdvancingKeepsAccounts<X>(c: Config<X>, s: State<X>)
    requires c.Valid() && Accounted(c, s) && s.consumer == Advancing
    ensures Accounted(c, AdvanceStep(c, s, if c.reader == Flusher then Fetching else Copying(0)))
  {
    Succ(s.pops, c.capacity);
  }

  lemma ReleasingKeepsAccounts<X>(c: Config<X>, s: State<X>)
    requires c.Valid() && Accounted(c, s) && Releasing(s)
    ensures Accounted(c, AdvanceStep(c, s, if c.reader == Flusher then Fetching else Copying(0)))
  {
  }

  lemma LookingKeepsAccounts<X>(c: Config<X>, s: State<X>)
    requires c.Valid() && c.reader == Flusher && Accounted(c, s)
    requires s.consumer in {CheckingRun, Fetching, Sizing, Exited}
    ensures Accounted(c, FlusherStep(c, s))
  {
  }

  lemma FlusherKeepsAccounts<X>(c: Config<X>, s: State<X>)
    requires c.Valid() && c.reader == Flusher && Accounted(c, s)
    ensures Accounted(c, FlusherStep(c, s))
  {
    hide Counters, ProducerLocals, CopyStep, AdvanceStep;
    if s.consumer.Copying? {
      CopyingKeepsAccounts(c, s);
    } else if s.consumer == Advancing {
      AdvancingKeepsAccounts(c, s);
    } else if Releasing(s) {
      ReleasingKeepsAccounts(c, s);
    } else {
      LookingKeepsAccounts(c, s);
    }
  }

  lemma DemoKeepsAccounts<X>(c: Config<X>, s: State<X>)
    requires c.Valid() && c.reader == Demo && Accounted(c, s)
    ensures Accounted(c, DemoStep(c, s))
  {
    if s.consumer.Copying? {
      CopyingKeepsAccounts(c, s);
    } else if s.consumer == Advancing {
      AdvancingKeepsAccounts(c, s);
    } else if Releasing(s) {
      ReleasingKeepsAccounts(c, s);
    }
  }

  lemma StepAccounted<X>(c: Config<X>, s: State<X>, t: Thread)
    requires c.Valid() && Accounted(c, s)
    ensures Accounted(c, Step(c, s, t))
  {
    if t == Producer {
      ProducerKeepsAccounts(c, s);
    } else if c.reader == Flusher {
      FlusherKeepsAccounts(c, s);
    } else {
      DemoKeepsAccounts(c, s);
    }
  }

  lemma {:induction false} ExecAccounted<X>(c: Config<X>, s: State<X>, sched: seq<Thread>)
    requires c.Valid() && Accounted(c, s)
    ensures Accounted(c, Exec(c, s, sched))
    decreases |sched|
  {
    if sched != [] {
      var k := |sched| - 1;
      ExecAccounted(c, s, sched[..k]);
      StepAccounted(c, Exec(c, s, sched[..k]), sched[k]);
    }
  }

  lemma RunAccounted<X>(c: Config<X>, sched: seq<Thread>)
    requires c.Valid()
    ensures Accounted(c, Run(c, sched))
  {
    ExecAccounted(c, Initial(c), sched);
  }

  /**
   Size accounting. The size differs from the backlog by at most one, upwards only while the
   consumer is between its two updates and downwards only while the producer is; it is never
   decremented at zero, and the assertion in updateReadIndex never fires.
   */
  lemma SizeAccounting<X>(c: Config<X>, sched: seq<Thread>)
    requires c.Valid()
    ensures var s := Run(c, sched);
      && s.pops <= s.counted <= s.pushes
      && s.q.size - s.Backlog() ==
           (if Releasing(s) then 1 else 0) - (if s.producer == CountingUp then 1 else 0)
      && (s.consumer == Asserting || s.consumer == CountingDown ==> s.q.size > 0)
      && s.consumer != Aborted
  {
    RunAccounted(c, sched);
  }
}
