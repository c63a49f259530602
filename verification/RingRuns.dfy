/** Any number of threads get from and put into one ring; a thread that has to wait takes the
    queue's lock, writes itself into the consumer or producer slot, sleeps, and gives the lock back
    when it runs again.  That at most one thread has the lock is shown in Interleaving; here the
    lock is its holder. */
module RingRuns {
  import opened Options
  import opened Ring
  import Scheduler

  type Tid = Scheduler.Tid

  datatype Side = Getting | Putting(byte: Byte)

  datatype Place =
    | Outside
    | Testing(side: Side)    // at the test of the while loop
    | Locking(side: Side)    // in lock_acquire
    | Waiting(side: Side)    // asleep in ioq_wait, lock held
    | Woken(side: Side)      // woken, before lock_release

  datatype State = State(ring: Ring, holder: Option<Tid>, producer: Option<Tid>, consumer: Option<Tid>,
                         at: map<Tid, Place>, puts: seq<Byte>, gets: seq<Byte>)

  predicate At(k: State, t: Tid, p: Place) { t in k.at && k.at[t] == p }

  /** wakeup: the slot is cleared and its thread goes on. */
  function Wakeup(k: State, w: Option<Tid>): map<Tid, Place> {
    if w.Some? && w.value in k.at && k.at[w.value].Waiting? then k.at[w.value := Woken(k.at[w.value].side)] else k.at
  }

  ghost predicate Start(k: State, k': State, t: Tid, side: Side) {
    At(k, t, Outside) && k' == k.(at := k.at[t := Testing(side)])
  }

  ghost predicate Take(k: State, k': State, t: Tid) {
    && Shaped(k.ring) && At(k, t, Testing(Getting)) && !Empty(k.ring)
    && k' == k.(ring := Get(k.ring), gets := k.gets + [k.ring.buf[k.ring.tail]], producer := None,
                at := Wakeup(k, k.producer)[t := Outside])
  }

  ghost predicate Add(k: State, k': State, t: Tid, b: Byte) {
    && Shaped(k.ring) && At(k, t, Testing(Putting(b))) && !Full(k.ring)
    && k' == k.(ring := Put(k.ring, b), puts := k.puts + [b], consumer := None,
                at := Wakeup(k, k.consumer)[t := Outside])
  }

  ghost predicate MustWait(k: State, k': State, t: Tid, side: Side) {
    && Shaped(k.ring) && At(k, t, Testing(side)) && (if side == Getting then Empty(k.ring) else Full(k.ring))
    && k' == k.(at := k.at[t := Locking(side)])
  }

  ghost predicate Sleep(k: State, k': State, t: Tid, side: Side) {
    && At(k, t, Locking(side)) && k.holder == None
    && k' == k.(holder := Some(t), at := k.at[t := Waiting(side)],
                consumer := if side == Getting then Some(t) else k.consumer,
                producer := if side == Getting then k.producer else Some(t))
  }

  ghost predicate Again(k: State, k': State, t: Tid, side: Side) {
    && At(k, t, Woken(side))
    && k' == k.(holder := None, at := k.at[t := Testing(side)])
  }

  ghost predicate Step(k: State, k': State, t: Tid, side: Side) {
    || Start(k, k', t, side) || (side == Getting && Take(k, k', t)) || (side.Putting? && Add(k, k', t, side.byte))
    || MustWait(k, k', t, side) || Sleep(k, k', t, side) || Again(k, k', t, side)
  }

  // ---------------------------------------------------------------- what every run keeps

  predicate Inside(p: Place) { p.Waiting? || p.Woken? }

  ghost predicate Slots(k: State) {
    && (forall t :: t in k.at && Inside(k.at[t]) <==> k.holder == Some(t))
    && (forall t: Tid :: At(k, t, Waiting(Getting)) <==> k.consumer == Some(t))
    && (forall t :: (t in k.at && k.at[t].Waiting? && k.at[t].side.Putting?) <==> k.producer == Some(t))
  }

  ghost predicate Fifo(k: State) {
    Shaped(k.ring) && k.puts == k.gets + Contents(k.ring)
  }

  ghost predicate Init(k: State) {
    && Shaped(k.ring) && Empty(k.ring) && k.holder == None && k.producer == None && k.consumer == None
    && (forall t :: t in k.at ==> k.at[t] == Outside) && k.puts == [] && k.gets == []
  }

  ghost predicate Next(k: State, k': State) { exists t, side :: Step(k, k', t, side) }

  ghost predicate IsRun(run: seq<State>) {
    run != [] && Init(run[0]) && forall i :: 0 <= i < |run| - 1 ==> Next(run[i], run[i + 1])
  }

  lemma FifoKept(k: State, k': State, t: Tid, side: Side)
    requires Fifo(k) && Step(k, k', t, side)
    ensures Fifo(k')
  {
    hide Contents, Full, Empty, Put, Get;
    if side == Getting && Take(k, k', t) {
      GetTakesOldest(k.ring);
      assert k.gets + ([k.ring.buf[k.ring.tail]] + Contents(k'.ring)) == k'.gets + Contents(k'.ring);
    } else if side.Putting? && Add(k, k', t, side.byte) {
      PutAppends(k.ring, side.byte);
    }
  }

  lemma SlotsWaking(k: State, k': State, t: Tid, b: Byte)
    requires Slots(k) && (Take(k, k', t) || Add(k, k', t, b))
    ensures Slots(k')
  {
    hide Contents, Full, Empty, Put, Get;
  }

  lemma SlotsSleeping(k: State, k': State, t: Tid, side: Side)
    requires Slots(k) && (Sleep(k, k', t, side) || Again(k, k', t, side))
    ensures Slots(k')
  {
  }

  lemma SlotsKept(k: State, k': State, t: Tid, side: Side)
    requires Slots(k) && Step(k, k', t, side)
    ensures Slots(k')
  {
    hide Full, Empty, Take, Add, Sleep, Again;
    if Sleep(k, k', t, side) || Again(k, k', t, side) {
      SlotsSleeping(k, k', t, side);
    } else if !Start(k, k', t, side) && !MustWait(k, k', t, side) {
      SlotsWaking(k, k', t, if side.Putting? then side.byte else 0);
    }
  }

  lemma {:induction false} RunKeeps(run: seq<State>, i: nat)
    requires IsRun(run) && i < |run|
    ensures Fifo(run[i]) && Slots(run[i])
  {
    hide Step, Slots, Fifo;
    if i == 0 {
      StartsOk(run[0]);
    } else {
      RunKeeps(run, i - 1);
      assert Next(run[i - 1], run[i]);
      var t: Tid, side :| Step(run[i - 1], run[i], t, side);
      FifoKept(run[i - 1], run[i], t, side);
      SlotsKept(run[i - 1], run[i], t, side);
    }
  }

  lemma StartsOk(k: State)
    requires Init(k)
    ensures Fifo(k) && Slots(k)
  {
    FullAndEmpty(k.ring);
  }

  /** In every run the bytes taken are a prefix of the bytes put, and ioq_length is the
      difference, never more than 63. */
  lemma TakenIsPrefix(run: seq<State>, i: nat)
    requires IsRun(run) && i < |run|
    ensures run[i].gets <= run[i].puts && Shaped(run[i].ring)
    ensures Length(run[i].ring) == |run[i].puts| - |run[i].gets| <= 63
  {
    RunKeeps(run, i);
    FullAndEmpty(run[i].ring);
  }

  /** In every run the slot that ioq_wait writes is empty, at most one of the two slots is taken,
      and wakeup wakes a thread that sleeps in ioq_wait of that slot. */
  lemma SlotsAreSafe(run: seq<State>, i: nat)
    requires IsRun(run) && i < |run|
    ensures var k := run[i];
      && (k.holder == None ==> k.consumer == None && k.producer == None)
      && !(k.consumer.Some? && k.producer.Some?)
      && (k.consumer.Some? ==> At(k, k.consumer.value, Waiting(Getting)))
      && (k.producer.Some? ==>
            k.producer.value in k.at && k.at[k.producer.value].Waiting? && k.at[k.producer.value].side.Putting?)
  {
    RunKeeps(run, i);
    var k := run[i];
    assert k.consumer.Some? ==> At(k, k.consumer.value, Waiting(Getting)) && k.holder == k.consumer;
    assert k.producer.Some? ==> k.holder == k.producer;
  }

  /** In every run a put empties the consumer slot and wakes the thread that slept in it, and a get does so
      with the producer slot: nobody sleeps on behind a change of the ring. */
  lemma WakesSleeper(run: seq<State>, i: nat, t: Tid, b: Byte)
    requires IsRun(run) && i < |run| - 1
    ensures Add(run[i], run[i + 1], t, b) ==>
      run[i + 1].consumer == None
      && forall w: Tid :: At(run[i], w, Waiting(Getting)) ==> At(run[i + 1], w, Woken(Getting))
    ensures Take(run[i], run[i + 1], t) ==>
      run[i + 1].producer == None
      && forall w: Tid, c :: At(run[i], w, Waiting(Putting(c))) ==> At(run[i + 1], w, Woken(Putting(c)))
  {
    hide IsRun, Fifo, Full, Empty, Put, Get;
    RunKeeps(run, i);
    var k := run[i];
    assert forall w: Tid, c :: At(k, w, Waiting(Putting(c))) ==> k.producer == Some(w);
  }
}
