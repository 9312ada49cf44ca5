/**
 What the queue guarantees to a producer that does not run too far ahead. The queue itself never
 checks for room, so the distance is a premise on the run, stated where the producer starts to
 store an element.
 */
module Pacing {
  import opened Options
  import opened Modular
  import opened Sequences
  import opened Queue
  import opened Machine

  /** In every state where the producer starts to store an element, `margin` slots are unused. */
  ghost predicate PacedFrom<X>(c: Config<X>, s: State<X>, sched: seq<Thread>, margin: nat)
    requires c.Valid() && Shaped(c, s)
  {
    forall i :: 0 <= i < |sched| && sched[i] == Producer ==>
      StartsWithin(c, Exec(c, s, sched[..i]), margin)
  }

  /** The premise on a run from the start of the program. */
  ghost predicate Paced<X>(c: Config<X>, sched: seq<Thread>, margin: nat)
    requires c.Valid()
  {
    PacedFrom(c, Initial(c), sched, margin)
  }

  predicate StartsWithin<X>(c: Config<X>, s: State<X>, margin: nat) {
    s.producer.Storing? && s.producer.word == 0 ==> s.Backlog() + margin <= c.capacity
  }

  /** The flusher needs one unused slot; the demonstration, which reads late, needs two. */
  function Margin(r: Reader): nat {
    if r == Flusher then 1 else 2
  }

  lemma PacedPrefix<X>(c: Config<X>, sched: seq<Thread>, margin: nat, k: nat)
    requires c.Valid() && Paced(c, sched, margin) && k <= |sched|
    ensures Paced(c, sched[..k], margin)
  {
    forall i | 0 <= i < k && sched[..k][i] == Producer
      ensures StartsWithin(c, Exec(c, Initial(c), sched[..k][..i]), margin)
    {
      assert sched[..k][..i] == sched[..i];
      assert sched[i] == Producer;
    }
  }

  lemma PacedWeaker<X>(c: Config<X>, sched: seq<Thread>, margin: nat, less: nat)
    requires c.Valid() && Paced(c, sched, margin) && less <= margin
    ensures Paced(c, sched, less)
  {
    forall i | 0 <= i < |sched| && sched[i] == Producer
      ensures StartsWithin(c, Exec(c, Initial(c), sched[..i]), less)
    {
      assert StartsWithin(c, Exec(c, Initial(c), sched[..i]), margin);
    }
  }

  lemma PacedConcat<X>(c: Config<X>, s: State<X>, a: seq<Thread>, b: seq<Thread>, margin: nat)
    requires c.Valid() && Shaped(c, s)
    requires PacedFrom(c, s, a, margin) && PacedFrom(c, Exec(c, s, a), b, margin)
    ensures PacedFrom(c, s, a + b, margin)
    ensures Exec(c, s, a + b) == Exec(c, Exec(c, s, a), b)
  {
    hide Step, Exec, StartsWithin;
    ExecConcat(c, s, a, b);
    forall i | 0 <= i < |a + b| && (a + b)[i] == Producer
      ensures StartsWithin(c, Exec(c, s, (a + b)[..i]), margin)
    {
      ConcatPrefix(a, b, i);
      if i >= |a| {
        ExecConcat(c, s, a, b[..i - |a|]);
      }
    }
  }

  /** Part of an element is in its slot and the index does not show it yet. */
  predicate Uncovered<X>(s: State<X>) {
    (s.producer.Storing? && s.producer.word > 0) || s.producer == Publishing
  }

  ghost predicate Bounded<X>(c: Config<X>, s: State<X>, margin: nat) {
    && s.Backlog() + margin <= c.capacity + 1
    && (Uncovered(s) ==> s.Backlog() + margin <= c.capacity)
  }

  /** Element number `i` is intact in its slot. */
  ghost predicate Intact<X>(c: Config<X>, s: State<X>, i: int)
    requires c.Valid() && Shaped(c, s) && 0 <= i < |c.program|
  {
    s.q.store[i % c.capacity] == c.program[i]
  }

  /** The published elements, and the one a late reader may still want, are in their slots. */
  ghost predicate StoreInOrder<X>(c: Config<X>, s: State<X>)
    requires c.Valid() && Accounted(c, s)
  {
    && (forall i :: 0 <= i < s.pushes && s.pops - i < Margin(c.reader) ==> Intact(c, s, i))
    && (s.producer.Storing? ==>
          forall j :: 0 <= j < s.producer.word ==>
            s.q.store[s.producer.slot][j] == c.program[s.pushes][j])
    && (s.producer == Publishing ==> Intact(c, s, s.pushes))
  }

  /** The output is a prefix of the program, and the words being read continue it. */
  ghost predicate OutInOrder<X>(c: Config<X>, s: State<X>)
    requires c.Valid() && Accounted(c, s)
  {
    && s.out == c.program[..|s.out|]
    && (s.consumer.Copying? ==>
          |s.out| < |c.program| && s.partial == c.program[|s.out|][..s.consumer.word])
    && (Holding(c, s) && c.reader == Demo ==> s.item.Some?)
    && s.consumer != Faulted
  }

  ghost predicate Orderly<X>(c: Config<X>, s: State<X>, margin: nat)
    requires c.Valid()
  {
    Accounted(c, s) && Bounded(c, s, margin) && StoreInOrder(c, s) && OutInOrder(c, s)
  }

  /** A word stored under the margin goes into no slot that holds a wanted element. */
  lemma StoringKeepsOrder<X>(c: Config<X>, s: State<X>, margin: nat)
    requires c.Valid() && Margin(c.reader) <= margin
    requires Orderly(c, s, margin) && StartsWithin(c, s, margin) && s.producer.Storing?
    ensures Orderly(c, ProducerStep(c, s), margin)
  {
    StoringKeepsAccounts(c, s);
    var s' := ProducerStep(c, s);
    forall i | 0 <= i < s'.pushes && s'.pops - i < Margin(c.reader) ensures Intact(c, s', i) {
      assert Intact(c, s, i);
      Apart(s.pushes, i, c.capacity);
    }
  }

  lemma PublishingKeepsOrder<X>(c: Config<X>, s: State<X>, margin: nat)
    requires c.Valid() && Orderly(c, s, margin) && s.producer == Publishing
    ensures Orderly(c, ProducerStep(c, s), margin)
  {
    hide ProducerLocals, ConsumerLocals;
    PublishingKeepsAccounts(c, s);
    var s' := ProducerStep(c, s);
    forall i | 0 <= i < s'.pushes && s'.pops - i < Margin(c.reader) ensures Intact(c, s', i) {
      assert Intact(c, s, i);
    }
  }

  /** What the producer does between pushes and in the destructor leaves the elements alone. */
  lemma ElsewhereKeepsOrder<X>(c: Config<X>, s: State<X>, margin: nat)
    requires c.Valid() && margin <= c.capacity + 1
    requires Orderly(c, s, margin) && !s.producer.Storing? && s.producer != Publishing
    ensures Orderly(c, ProducerStep(c, s), margin)
  {
    ProducerKeepsAccounts(c, s);
    var s' := ProducerStep(c, s);
    forall i | 0 <= i < s'.pushes && s'.pops - i < Margin(c.reader) ensures Intact(c, s', i) {
      assert Intact(c, s, i);
    }
  }

  lemma ProducerKeepsOrder<X>(c: Config<X>, s: State<X>, margin: nat)
    requires c.Valid() && Margin(c.reader) <= margin <= c.capacity + 1
    requires Orderly(c, s, margin) && StartsWithin(c, s, margin)
    ensures Orderly(c, ProducerStep(c, s), margin)
  {
    hide Orderly, ProducerStep;
    if s.producer.Storing? {
      StoringKeepsOrder(c, s, margin);
    } else if s.producer == Publishing {
      PublishingKeepsOrder(c, s, margin);
    } else {
      ElsewhereKeepsOrder(c, s, margin);
    }
  }

  /** What a consumer step leaves alone. */
  lemma ConsumerFrame<X>(c: Config<X>, s: State<X>)
    requires c.Valid() && Shaped(c, s)
    ensures var s' := Step(c, s, Consumer);
      s'.q.store == s.q.store && s'.pops >= s.pops && s'.pushes == s.pushes && s'.producer == s.producer
  {
  }

  lemma ConsumerKeepsStore<X>(c: Config<X>, s: State<X>)
    requires c.Valid() && Accounted(c, s) && StoreInOrder(c, s)
    requires Accounted(c, Step(c, s, Consumer))
    ensures StoreInOrder(c, Step(c, s, Consumer))
  {
    hide Step;
    ConsumerFrame(c, s);
    var s' := Step(c, s, Consumer);
    forall i | 0 <= i < s'.pushes && s'.pops - i < Margin(c.reader) ensures Intact(c, s', i) {
      assert Intact(c, s, i);
    }
  }

  lemma CopyKeepsOrder<X>(c: Config<X>, s: State<X>, margin: nat)
    requires c.Valid() && Margin(c.reader) <= margin
    requires Orderly(c, s, margin) && s.consumer.Copying?
    requires Accounted(c, Step(c, s, Consumer))
    ensures OutInOrder(c, Step(c, s, Consumer))
  {
    var k := |s.out|;
    assert k == ItemNumber(c, s);
    assert Intact(c, s, k);
    var word := s.consumer.word;
    assert s.q.store[s.item.value][word] == c.program[k][word];
    OneMore(c.program[k], word);
    OneMore(c.program, k);
  }

  lemma MoveKeepsOrder<X>(c: Config<X>, s: State<X>, margin: nat)
    requires c.Valid() && Margin(c.reader) <= margin
    requires Orderly(c, s, margin) && !s.consumer.Copying?
    requires Accounted(c, Step(c, s, Consumer))
    ensures OutInOrder(c, Step(c, s, Consumer))
  {
    if c.reader == Demo {
      if s.consumer == Fetching {
        Apart(s.pushes, s.pops, c.capacity);
      }
      var s' := DemoStep(c, s);
      assert s'.consumer.Copying? ==> |s'.out| == ItemNumber(c, s') < |c.program|;
    } else {
      var s' := FlusherStep(c, s);
      assert s'.consumer.Copying? ==> |s'.out| == ItemNumber(c, s') < |c.program|;
    }
  }

  lemma ConsumerKeepsOrder<X>(c: Config<X>, s: State<X>, margin: nat)
    requires c.Valid() && Margin(c.reader) <= margin
    requires Orderly(c, s, margin)
    ensures Orderly(c, Step(c, s, Consumer), margin)
  {
    hide Step;
    StepAccounted(c, s, Consumer);
    ConsumerFrame(c, s);
    ConsumerKeepsStore(c, s);
    if s.consumer.Copying? {
      CopyKeepsOrder(c, s, margin);
    } else {
      MoveKeepsOrder(c, s, margin);
    }
  }

  lemma ProducerRuns<X>(c: Config<X>, s: State<X>)
    requires c.Valid() && Shaped(c, s)
    ensures Step(c, s, Producer) == if Halted(s) then s else ProducerStep(c, s)
  {
  }

  lemma {:induction false} RunOrderly<X>(c: Config<X>, sched: seq<Thread>, margin: nat)
    requires c.Valid() && Margin(c.reader) <= margin <= c.capacity + 1
    requires Paced(c, sched, margin)
    ensures Orderly(c, Run(c, sched), margin)
    decreases |sched|
  {
    hide Step;
    RunAccounted(c, sched);
    if sched != [] {
      var k := |sched| - 1;
      PacedPrefix(c, sched, margin, k);
      RunOrderly(c, sched[..k], margin);
      var before := Run(c, sched[..k]);
      if sched[k] == Consumer {
        ConsumerKeepsOrder(c, before, margin);
      } else {
        assert StartsWithin(c, before, margin);
        ProducerKeepsOrder(c, before, margin);
        ProducerRuns(c, before);
      }
    }
  }

  /**
   First in, first out. In every run with the reader's margin the output is a prefix of the
   program, made of published elements only: nothing is lost, repeated, reordered or torn, and no
   null pointer is dereferenced.
   */
  lemma OutputIsPrefix<X>(c: Config<X>, sched: seq<Thread>)
    requires c.Valid() && Paced(c, sched, Margin(c.reader))
    ensures var s := Run(c, sched);
      |s.out| <= s.pushes <= |c.program| && s.out == c.program[..|s.out|] && s.consumer != Faulted
  {
    RunOrderly(c, sched, Margin(c.reader));
  }

  /** The consumer's pointer is to this slot, and it has not finished with it. */
  predicate Holds<X>(c: Config<X>, s: State<X>, slot: nat) {
    Holding(c, s) && s.item == Some(slot)
  }

  /** Race freedom: the producer never stores a word into the slot that the consumer points at. */
  lemma NoSlotRace<X>(c: Config<X>, sched: seq<Thread>, i: nat)
    requires c.Valid() && Paced(c, sched, Margin(c.reader))
    requires i < |sched| && sched[i] == Producer
    requires Run(c, sched[..i]).producer.Storing?
    ensures !Holds(c, Run(c, sched[..i]), Run(c, sched[..i]).producer.slot)
  {
    var s := Run(c, sched[..i]);
    PacedPrefix(c, sched, Margin(c.reader), i);
    RunOrderly(c, sched[..i], Margin(c.reader));
    assert StartsWithin(c, s, Margin(c.reader));
    var k := ItemNumber(c, s);
    if Holding(c, s) && s.item.Some? {
      assert k < s.pushes && s.pushes - k < c.capacity;
      Apart(s.pushes, k, c.capacity);
    }
  }

  /** With two unused slots kept, the index comparison is a true test for emptiness at all times. */
  lemma EmptinessIsTrue<X>(c: Config<X>, sched: seq<Thread>)
    requires c.Valid() && Paced(c, sched, 2)
    ensures var s := Run(c, sched);
      s.q.NextToRead() == (if s.pops == s.pushes then None else Some(s.pops % c.capacity))
  {
    RunOrderly(c, sched, 2);
    var s := Run(c, sched);
    if s.pops < s.pushes {
      Apart(s.pushes, s.pops, c.capacity);
    }
  }

  /**
   The demonstration dereferences its pointer without a null check, on the strength of the size it
   saw. With the margin that is safe: from the load of a non-zero size until the fetch, whatever
   the producer does, the fetch would return the oldest element, and no null is ever dereferenced.
   */
  lemma SizeCheckSuffices<X>(c: Config<X>, sched: seq<Thread>)
    requires c.Valid() && c.reader == Demo && Paced(c, sched, 2)
    ensures var s := Run(c, sched);
      && (s.consumer == Fetching ==> s.q.NextToRead() == Some(s.pops % c.capacity))
      && s.consumer != Faulted
  {
    RunOrderly(c, sched, 2);
    EmptinessIsTrue(c, sched);
  }
}
