/**
 * Flushing a slot of the write cache and removing an unrooted slot exclude each other through
 * a set of slots behind a mutex, and a condition variable on which removers wait for flushers.
 */
module Reservation {
  import opened Types

  // ---- Lists of slots ----

  function SetOf(slots: seq<Slot>): set<Slot> {
    set i | 0 <= i < |slots| :: slots[i]
  }

  predicate NoRepeats(slots: seq<Slot>) {
    forall i, j :: 0 <= i < j < |slots| ==> slots[i] != slots[j]
  }

  /** The slots of a list that are named again further on. */
  function NamedTwice(slots: seq<Slot>): set<Slot> {
    set i, j | 0 <= i < j < |slots| && slots[i] == slots[j] :: slots[i]
  }

  lemma SetOfMore(slots: seq<Slot>, slot: Slot)
    ensures SetOf(slots + [slot]) == SetOf(slots) + {slot}
  {
    forall s | s in SetOf(slots) + {slot}
      ensures s in SetOf(slots + [slot])
    {
      if s == slot {
        assert (slots + [slot])[|slots|] == slot;
      } else {
        var i :| 0 <= i < |slots| && slots[i] == s;
        assert (slots + [slot])[i] == s;
      }
    }
  }

  lemma NamedTwiceMore(slots: seq<Slot>, slot: Slot)
    ensures NamedTwice(slots + [slot]) == NamedTwice(slots) + if slot in SetOf(slots) then {slot} else {}
  {
    var more := slots + [slot];
    forall s | s in NamedTwice(slots) || (s == slot && slot in SetOf(slots))
      ensures s in NamedTwice(more)
    {
      if s in NamedTwice(slots) {
        var i, j :| 0 <= i < j < |slots| && slots[i] == slots[j] == s;
        assert more[i] == more[j] == s;
      } else {
        var i :| 0 <= i < |slots| && slots[i] == slot;
        assert more[i] == more[|slots|];
      }
    }
  }

  // ---- Threads ----

  type ThreadId = nat

  /**
   * Where a thread is. A flusher that has given its slot back still has to notify. A waiting
   * remover has reserved its slots except the remaining ones.
   */
  datatype Thread =
    | Flushing(slot: Slot)
    | Notifying
    | Waiting(slots: set<Slot>, remaining: set<Slot>)
    | Woken(slots: set<Slot>, remaining: set<Slot>)
    | Removing(slots: set<Slot>)
    | Done

  datatype State = State(contended: set<Slot>, threads: map<ThreadId, Thread>)

  datatype Event =
    | StartFlush(id: ThreadId, slot: Slot)
    | StartRemove(id: ThreadId, slots: set<Slot>)
    | FinishFlush(id: ThreadId)
    | Notify(id: ThreadId)
    | Wake(id: ThreadId)
    | Retry(id: ThreadId)
    | FinishRemove(id: ThreadId)

  /** The slots an active remover wants. */
  function Wanted(t: Thread): set<Slot> {
    match t
    case Waiting(slots, _) => slots
    case Woken(slots, _) => slots
    case Removing(slots) => slots
    case _ => {}
  }

  /** The slots a thread has reserved. */
  function Held(t: Thread): set<Slot> {
    match t
    case Flushing(slot) => {slot}
    case Waiting(slots, remaining) => slots - remaining
    case Woken(slots, remaining) => slots - remaining
    case Removing(slots) => slots
    case _ => {}
  }

  function AfterReserve(slots: set<Slot>, remaining: set<Slot>): Thread {
    if remaining == {} then Removing(slots) else Waiting(slots, remaining)
  }

  /** Everybody who waits is woken. */
  ghost predicate AllWoken(threads: map<ThreadId, Thread>, id: ThreadId, threads': map<ThreadId, Thread>) {
    && threads'.Keys == threads.Keys
    && (forall t :: t in threads ==>
          threads'[t] == if t == id then Done
                         else if threads[t].Waiting? then Woken(threads[t].slots, threads[t].remaining) else threads[t])
  }

  /** Concurrent removers want different slots. */
  ghost predicate Step(a: State, e: Event, b: State) {
    match e
    case StartFlush(id, slot) =>
      && id !in a.threads
      && b == State(a.contended + {slot}, a.threads[id := if slot in a.contended then Done else Flushing(slot)])
    case StartRemove(id, slots) =>
      && id !in a.threads && (forall t :: t in a.threads ==> Wanted(a.threads[t]) !! slots)
      && b == State(a.contended + slots, a.threads[id := AfterReserve(slots, slots * a.contended)])
    case FinishFlush(id) =>
      && id in a.threads && a.threads[id].Flushing?
      && b == State(a.contended - {a.threads[id].slot}, a.threads[id := Notifying])
    case Notify(id) =>
      && id in a.threads && a.threads[id].Notifying?
      && b.contended == a.contended && AllWoken(a.threads, id, b.threads)
    case Wake(id) =>
      && id in a.threads && a.threads[id].Waiting?
      && b == State(a.contended, a.threads[id := Woken(a.threads[id].slots, a.threads[id].remaining)])
    case Retry(id) =>
      && id in a.threads && a.threads[id].Woken?
      && var Woken(slots, remaining) := a.threads[id];
         b == State(a.contended + remaining, a.threads[id := AfterReserve(slots, remaining * a.contended)])
    case FinishRemove(id) =>
      && id in a.threads && a.threads[id].Removing?
      && b == State(a.contended - a.threads[id].slots, a.threads[id := Done])
  }

  // ---- The invariant ----

  ghost predicate HasNotifier(threads: map<ThreadId, Thread>) {
    exists t :: t in threads && threads[t].Notifying?
  }

  /** The contended slots are the disjoint union of what the threads hold. */
  ghost predicate Partitioned(a: State) {
    && (forall t :: t in a.threads ==> Held(a.threads[t]) <= a.contended)
    && (forall t, u :: t in a.threads && u in a.threads && t != u ==> Held(a.threads[t]) !! Held(a.threads[u]))
    && (forall s :: s in a.contended ==> exists t :: t in a.threads && s in Held(a.threads[t]))
  }

  /** A waiting remover waits for slots that are taken, or is about to be notified. */
  ghost predicate ThreadOk(a: State, t: Thread) {
    match t
    case Waiting(slots, remaining) =>
      remaining != {} && remaining <= slots && (remaining <= a.contended || HasNotifier(a.threads))
    case Woken(slots, remaining) => remaining <= slots
    case _ => true
  }

  ghost predicate Inv(a: State) {
    && Partitioned(a)
    && (forall t, u :: t in a.threads && u in a.threads && t != u ==> Wanted(a.threads[t]) !! Wanted(a.threads[u]))
    && (forall t :: t in a.threads ==> ThreadOk(a, a.threads[t]))
  }

  function HeldBy(a: State, id: ThreadId): set<Slot> {
    if id in a.threads then Held(a.threads[id]) else {}
  }

  /** One thread trades what it holds for slots nobody else holds. */
  lemma PartitionedStep(a: State, id: ThreadId, thread: Thread, b: State)
    requires Partitioned(a) && b.threads == a.threads[id := thread]
    requires b.contended == (a.contended - HeldBy(a, id)) + Held(thread)
    requires Held(thread) !! (a.contended - HeldBy(a, id))
    ensures Partitioned(b)
  {
    forall t | t in b.threads && t != id
      ensures Held(b.threads[t]) <= a.contended - HeldBy(a, id)
    {
    }
    forall s | s in b.contended
      ensures exists t :: t in b.threads && s in Held(b.threads[t])
    {
      if s in Held(thread) {
        assert id in b.threads && s in Held(b.threads[id]);
      } else {
        var t :| t in a.threads && s in Held(a.threads[t]);
        assert t in b.threads && s in Held(b.threads[t]);
      }
    }
  }

  lemma NotifyKeepsHeld(a: State, id: ThreadId, b: State, t: ThreadId)
    requires Step(a, Notify(id), b) && t in a.threads
    ensures Held(b.threads[t]) == Held(a.threads[t])
  {
  }

  lemma NotifyKeepsPartition(a: State, id: ThreadId, b: State)
    requires Partitioned(a) && Step(a, Notify(id), b)
    ensures Partitioned(b)
  {
    forall t, u | t in b.threads && u in b.threads && t != u
      ensures Held(b.threads[t]) <= b.contended && Held(b.threads[t]) !! Held(b.threads[u])
    {
      NotifyKeepsHeld(a, id, b, t);
      NotifyKeepsHeld(a, id, b, u);
    }
    forall t | t in b.threads
      ensures Held(b.threads[t]) <= b.contended
    {
      NotifyKeepsHeld(a, id, b, t);
    }
    forall s | s in b.contended
      ensures exists t :: t in b.threads && s in Held(b.threads[t])
    {
      var t :| t in a.threads && s in Held(a.threads[t]);
      NotifyKeepsHeld(a, id, b, t);
    }
  }

  lemma StepKeepsPartition(a: State, e: Event, b: State)
    requires Inv(a) && Step(a, e, b)
    ensures Partitioned(b)
  {
    match e
    case StartFlush(id, slot) => PartitionedStep(a, id, b.threads[id], b);
    case StartRemove(id, slots) => PartitionedStep(a, id, b.threads[id], b);
    case FinishFlush(id) => PartitionedStep(a, id, b.threads[id], b);
    case Notify(id) => NotifyKeepsPartition(a, id, b);
    case Wake(id) => PartitionedStep(a, id, b.threads[id], b);
    case Retry(id) =>
      assert ThreadOk(a, a.threads[id]);
      PartitionedStep(a, id, b.threads[id], b);
    case FinishRemove(id) => PartitionedStep(a, id, b.threads[id], b);
  }

  /** A notification stays pending until it is sent. */
  lemma StepKeepsThread(a: State, e: Event, b: State, t: ThreadId)
    requires Inv(a) && Step(a, e, b) && t in b.threads
    ensures ThreadOk(b, b.threads[t])
  {
    if t in a.threads {
      assert ThreadOk(a, a.threads[t]);
    }
    if b.threads[t].Waiting? && t in a.threads && a.threads[t].Waiting? {
      if e.FinishFlush? {
        assert e.id in b.threads && b.threads[e.id].Notifying?;
      } else if HasNotifier(a.threads) {
        var n :| n in a.threads && a.threads[n].Notifying?;
        assert n in b.threads && b.threads[n].Notifying?;
      } else if e.FinishRemove? {
        assert Wanted(a.threads[t]) !! Wanted(a.threads[e.id]);
      }
    }
  }

  lemma StepWants(a: State, e: Event, b: State, t: ThreadId)
    requires Step(a, e, b) && t in b.threads
    ensures if t in a.threads then Wanted(b.threads[t]) <= Wanted(a.threads[t])
            else && t == e.id && (e.StartRemove? ==> Wanted(b.threads[t]) == e.slots)
                 && (e.StartFlush? ==> Wanted(b.threads[t]) == {})
  {
  }

  lemma StepKeepsWanted(a: State, e: Event, b: State, t: ThreadId, u: ThreadId)
    requires Inv(a) && Step(a, e, b) && t in b.threads && u in b.threads && t != u
    ensures Wanted(b.threads[t]) !! Wanted(b.threads[u])
  {
    StepWants(a, e, b, t);
    StepWants(a, e, b, u);
  }

  lemma StepKeepsInv(a: State, e: Event, b: State)
    requires Inv(a) && Step(a, e, b)
    ensures Inv(b)
  {
    StepKeepsPartition(a, e, b);
    forall t, u | t in b.threads && u in b.threads && t != u
      ensures Wanted(b.threads[t]) !! Wanted(b.threads[u])
    {
      StepKeepsWanted(a, e, b, t, u);
    }
    forall t | t in b.threads
      ensures ThreadOk(b, b.threads[t])
    {
      StepKeepsThread(a, e, b, t);
    }
  }

  // ---- Whole runs ----

  ghost predicate IsRun(states: seq<State>, events: seq<Event>) {
    && |states| == |events| + 1 && states[0] == State({}, map[])
    && forall i :: 0 <= i < |events| ==> Step(states[i], events[i], states[i + 1])
  }

  lemma {:induction false} RunKeepsInv(states: seq<State>, events: seq<Event>, i: nat)
    requires IsRun(states, events) && i < |states|
    ensures Inv(states[i])
  {
    if i > 0 {
      RunKeepsInv(states, events, i - 1);
      StepKeepsInv(states[i - 1], events[i - 1], states[i]);
    }
  }

  /** No slot is flushed and removed at once, and nobody flushes a slot twice at once. */
  lemma NeverBoth(states: seq<State>, events: seq<Event>, i: nat, t: ThreadId, u: ThreadId)
    requires IsRun(states, events) && i < |states| && t in states[i].threads && u in states[i].threads && t != u
    requires states[i].threads[t].Flushing?
    ensures states[i].threads[u].Removing? ==> states[i].threads[t].slot !in states[i].threads[u].slots
    ensures states[i].threads[u].Flushing? ==> states[i].threads[t].slot != states[i].threads[u].slot
  {
    RunKeepsInv(states, events, i);
  }

  /** The assertions that a slot given back was still reserved hold. */
  lemma ReleaseAssertsHold(states: seq<State>, events: seq<Event>, i: nat)
    requires IsRun(states, events) && i < |events|
    ensures var a := states[i];
            && (events[i].FinishFlush? ==> events[i].id in a.threads && Held(a.threads[events[i].id]) <= a.contended)
            && (events[i].FinishRemove? ==> events[i].id in a.threads && Wanted(a.threads[events[i].id]) <= a.contended)
  {
    RunKeepsInv(states, events, i);
    assert Step(states[i], events[i], states[i + 1]);
  }

  /** A slot a remover still wants is held by a flusher when it is held at all. */
  lemma HolderFlushes(a: State, t: ThreadId, s: Slot)
    requires Inv(a) && t in a.threads && s in Wanted(a.threads[t]) && s !in Held(a.threads[t]) && s in a.contended
    ensures exists u :: u in a.threads && a.threads[u] == Flushing(s)
  {
    var u :| u in a.threads && s in Held(a.threads[u]);
    assert Wanted(a.threads[t]) !! Wanted(a.threads[u]);
    assert ThreadOk(a, a.threads[u]);
  }

  /**
   * A remover that waits is never forgotten: a flusher is still to notify it, or every slot it
   * waits for is held by a flusher, who waits for nobody.
   */
  lemma WaitersAreRemembered(states: seq<State>, events: seq<Event>, i: nat, t: ThreadId)
    requires IsRun(states, events) && i < |states| && t in states[i].threads && states[i].threads[t].Waiting?
    ensures states[i].threads[t].remaining != {}
    ensures HasNotifier(states[i].threads)
            || forall s :: s in states[i].threads[t].remaining ==>
                 exists u :: u in states[i].threads && states[i].threads[u] == Flushing(s)
  {
    RunKeepsInv(states, events, i);
    var a := states[i];
    assert ThreadOk(a, a.threads[t]);
    if !HasNotifier(a.threads) {
      forall s | s in a.threads[t].remaining
        ensures exists u :: u in a.threads && a.threads[u] == Flushing(s)
      {
        HolderFlushes(a, t, s);
      }
    }
  }

  lemma FreeWithoutFlushers(a: State, t: ThreadId, s: Slot)
    requires Inv(a) && t in a.threads && s in Wanted(a.threads[t]) && s !in Held(a.threads[t])
    requires forall u :: u in a.threads ==> !a.threads[u].Flushing?
    ensures s !in a.contended
  {
    if s in a.contended {
      HolderFlushes(a, t, s);
    }
  }

  /** Once no flusher is at work, nobody waits, and whoever tries again gets all its slots. */
  lemma RemoversGoOn(states: seq<State>, events: seq<Event>, i: nat, t: ThreadId)
    requires IsRun(states, events) && i < |states| && t in states[i].threads
    requires forall u :: u in states[i].threads ==> !states[i].threads[u].Flushing? && !states[i].threads[u].Notifying?
    ensures !states[i].threads[t].Waiting?
    ensures states[i].threads[t].Woken? ==> states[i].threads[t].remaining !! states[i].contended
  {
    RunKeepsInv(states, events, i);
    var a := states[i];
    assert ThreadOk(a, a.threads[t]);
    if a.threads[t].Waiting? {
      WaitersAreRemembered(states, events, i, t);
      assert false;
    }
    if a.threads[t].Woken? {
      forall s | s in a.threads[t].remaining
        ensures s !in a.contended
      {
        FreeWithoutFlushers(a, t, s);
      }
    }
  }

  // ---- The critical sections ----

  /** What the mutex guards, and where the threads are. Every critical section is a step of a run. */
  class Synchronization {
    var contended: set<Slot>
    ghost var threads: map<ThreadId, Thread>

    ghost function Now(): State
      reads this
    {
      State(contended, threads)
    }

    constructor ()
      ensures Now() == State({}, map[]) && Inv(Now())
    {
      contended, threads := {}, map[];
    }

    /** A flusher reserves its slot, unless somebody has it. */
    method ReserveFlush(slot: Slot, ghost id: ThreadId) returns (reserved: bool)
      requires Inv(Now()) && id !in threads
      modifies this
      ensures Step(old(Now()), StartFlush(id, slot), Now()) && Inv(Now())
      ensures reserved <==> threads[id] == Flushing(slot)
    {
      reserved := slot !in contended;
      contended := contended + {slot};
      threads := threads[id := if reserved then Flushing(slot) else Done];
      StepKeepsInv(old(Now()), StartFlush(id, slot), Now());
    }

    /** Reserves every slot of a list. What remains was reserved before, or is named twice. */
    method InsertAll(slots: seq<Slot>) returns (remaining: seq<Slot>)
      modifies this`contended
      ensures contended == old(contended) + SetOf(slots)
      ensures SetOf(remaining) == SetOf(slots) * old(contended) + NamedTwice(slots)
      ensures NoRepeats(slots) ==> NoRepeats(remaining)
    {
      remaining := [];
      for i := 0 to |slots|
        invariant contended == old(contended) + SetOf(slots[..i])
        invariant SetOf(remaining) == SetOf(slots[..i]) * old(contended) + NamedTwice(slots[..i])
        invariant NoRepeats(slots) ==> NoRepeats(remaining)
      {
        assert slots[..i + 1] == slots[..i] + [slots[i]];
        SetOfMore(slots[..i], slots[i]);
        NamedTwiceMore(slots[..i], slots[i]);
        SetOfMore(remaining, slots[i]);
        if slots[i] in contended {
          RepeatsMore(slots, i, remaining);
          remaining := remaining + [slots[i]];
        }
        contended := contended + {slots[i]};
      }
      assert slots[..|slots|] == slots;
    }

    /**
     * A remover reserves its slots, and learns which it has to wait for: those that others have,
     * and those it names twice. With neither repeats nor a slot another remover wants, this is a
     * step of the run.
     */
    method ReserveRemove(slots: seq<Slot>, ghost id: ThreadId) returns (remaining: seq<Slot>)
      requires Inv(Now()) && id !in threads
      modifies this
      ensures contended == old(contended) + SetOf(slots)
      ensures SetOf(remaining) == SetOf(slots) * old(contended) + NamedTwice(slots)
      ensures NoRepeats(slots) && (forall t :: t in old(threads) ==> Wanted(old(threads)[t]) !! SetOf(slots)) ==>
                && Step(old(Now()), StartRemove(id, SetOf(slots)), Now()) && Inv(Now()) && NoRepeats(remaining)
                && threads[id] == AfterReserve(SetOf(slots), SetOf(remaining))
    {
      remaining := InsertAll(slots);
      threads := threads[id := AfterReserve(SetOf(slots), SetOf(remaining))];
      if NoRepeats(slots) && forall t :: t in old(threads) ==> Wanted(old(threads)[t]) !! SetOf(slots) {
        assert NamedTwice(slots) == {};
        assert SetOf(remaining) == SetOf(slots) * old(contended);
        StepKeepsInv(old(Now()), StartRemove(id, SetOf(slots)), Now());
      }
    }

    /** A woken remover tries again to reserve what remains. */
    method RetryRemove(waiting: seq<Slot>, ghost id: ThreadId) returns (remaining: seq<Slot>)
      requires Inv(Now()) && id in threads && threads[id].Woken?
      requires NoRepeats(waiting) && SetOf(waiting) == threads[id].remaining
      modifies this
      ensures Step(old(Now()), Retry(id), Now()) && Inv(Now()) && NoRepeats(remaining)
      ensures threads[id] == AfterReserve(old(threads)[id].slots, SetOf(remaining))
    {
      remaining := InsertAll(waiting);
      assert NamedTwice(waiting) == {};
      assert SetOf(remaining) == SetOf(waiting) * old(contended);
      threads := threads[id := AfterReserve(threads[id].slots, SetOf(remaining))];
      StepKeepsInv(old(Now()), Retry(id), Now());
    }

    /** A flusher gives its slot back, which is still reserved. */
    method ReleaseFlush(slot: Slot, ghost id: ThreadId)
      requires Inv(Now()) && id in threads && threads[id] == Flushing(slot)
      modifies this
      ensures slot in old(contended)
      ensures Step(old(Now()), FinishFlush(id), Now()) && Inv(Now())
    {
      assert slot in Held(threads[id]);
      assert slot in contended;
      contended := contended - {slot};
      threads := threads[id := Notifying];
      StepKeepsInv(old(Now()), FinishFlush(id), Now());
    }

    /** A remover gives its slots back, each of which is still reserved. */
    method ReleaseRemove(slots: seq<Slot>, ghost id: ThreadId)
      requires Inv(Now()) && id in threads && threads[id] == Removing(SetOf(slots)) && NoRepeats(slots)
      modifies this
      ensures SetOf(slots) <= old(contended)
      ensures Step(old(Now()), FinishRemove(id), Now()) && Inv(Now())
    {
      assert SetOf(slots) <= Held(threads[id]);
      for i := 0 to |slots|
        invariant contended == old(contended) - SetOf(slots[..i]) && threads == old(threads)
      {
        assert slots[..i + 1] == slots[..i] + [slots[i]];
        SetOfMore(slots[..i], slots[i]);
        assert slots[i] in SetOf(slots) && slots[i] !in SetOf(slots[..i]);
        assert slots[i] in contended;
        contended := contended - {slots[i]};
      }
      assert slots[..|slots|] == slots;
      threads := threads[id := Done];
      StepKeepsInv(old(Now()), FinishRemove(id), Now());
    }
  }

  lemma RepeatsMore(slots: seq<Slot>, i: nat, remaining: seq<Slot>)
    requires i < |slots| && SetOf(remaining) <= SetOf(slots[..i])
    ensures NoRepeats(slots) && NoRepeats(remaining) ==> NoRepeats(remaining + [slots[i]])
  {
    if NoRepeats(slots) && NoRepeats(remaining) {
      forall j | 0 <= j < |remaining|
        ensures remaining[j] != slots[i]
      {
        assert remaining[j] in SetOf(remaining);
        assert slots[i] !in SetOf(slots[..i]);
      }
    }
  }
}
