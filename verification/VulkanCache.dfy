/**
 * The cache of per-GPU Vulkan checks as its readers and clears interleave. gpu/vulkan_check.py.
 *
 * Every `with _cache_lock` block is one atomic step, written as a method of `Cache` and as the function it is proved
 * against; the steps of the protocol are made of those functions.
 */
module VulkanCache {
  import opened Wrappers

  /** The probe's device and the list of GPUs, as one value. */
  type Key = string

  /** What one run of the checks came to: for which key, and at what time of the run's clock it began. */
  datatype Answer = Answer(key: Key, began: nat)

  datatype Shared = Shared(cache: map<Key, Answer>, generation: nat)

  // The blocks under the cache lock ---------------------------------------------------------------------------------

  function Lookup(s: Shared, key: Key): Option<Answer> {
    if key in s.cache then Some(s.cache[key]) else None
  }

  function Stored(s: Shared, generation: nat, answer: Answer): Shared {
    if generation == s.generation then s.(cache := s.cache[answer.key := answer]) else s
  }

  function Cleared(s: Shared): Shared {
    Shared(map[], s.generation + 1)
  }

  class Cache {
    var cache: map<Key, Answer>
    var generation: nat

    constructor ()
      ensures View() == Shared(map[], 0)
    {
      cache, generation := map[], 0;
    }

    function View(): Shared
      reads this
    {
      Shared(cache, generation)
    }

    method Get(key: Key) returns (cached: Option<Answer>, seen: nat)
      ensures cached == Lookup(View(), key) && seen == generation
    {
      cached := if key in cache then Some(cache[key]) else None;
      seen := generation;
    }

    method Put(seen: nat, answer: Answer)
      modifies this
      ensures View() == Stored(old(View()), seen, answer)
    {
      if seen == generation {
        cache := cache[answer.key := answer];
      }
    }

    method ClearVulkanCheckCache()
      modifies this
      ensures View() == Cleared(old(View()))
    {
      cache := map[];
      generation := generation + 1;
    }
  }

  // The protocol ----------------------------------------------------------------------------------------------------

  /** Where a reader is. From `Locked` to `Leaving` it holds the compute lock. */
  datatype Pc =
    | Looking
    | Waiting
    | Locked
    | Ready(seen: nat)
    | Computing(seen: nat, began: nat)
    | Storing(seen: nat, answer: Answer)
    | Leaving(answer: Answer)
    | Returned(answer: Answer)
    | Raised

  /** A lookup in progress, with the time of the latest clear before it started. */
  datatype Reader = Reader(key: Key, floor: nat, pc: Pc)

  /** The state; `finished` lists the checks that were completed, with the generation they belong to. */
  datatype State = State(
    shared: Shared,
    lock: Option<nat>,
    readers: map<nat, Reader>,
    clock: nat,
    lastClear: nat,
    finished: seq<(Key, nat)>)

  datatype Event =
    | Arrive(id: nat, key: Key)
    | FirstLookup(id: nat)
    | Acquire(id: nat)
    | SecondLookup(id: nat)
    | Begin(id: nat)
    | Finish(id: nat)
    | Fail(id: nat)
    | Store(id: nat)
    | Release(id: nat)
    | Clear

  function Start(): State {
    State(Shared(map[], 0), None, map[], 1, 0, [])
  }

  function Move(s: State, id: nat, pc: Pc): State
    requires id in s.readers
  {
    s.(readers := s.readers[id := s.readers[id].(pc := pc)])
  }

  /** A reader's next step, if this is it. */
  function ReaderStep(s: State, e: Event): State
    requires !e.Arrive? && !e.Clear? && e.id in s.readers
  {
    var id, r := e.id, s.readers[e.id];
    match e
    case FirstLookup(_) =>
      if r.pc != Looking then s
      else if Lookup(s.shared, r.key).Some? then Move(s, id, Returned(Lookup(s.shared, r.key).value))
      else Move(s, id, Waiting)
    case Acquire(_) =>
      if r.pc == Waiting && s.lock == None then Move(s, id, Locked).(lock := Some(id)) else s
    case SecondLookup(_) =>
      if r.pc != Locked then s
      else if Lookup(s.shared, r.key).Some? then Move(s, id, Leaving(Lookup(s.shared, r.key).value))
      else Move(s, id, Ready(s.shared.generation))
    case Begin(_) =>
      if r.pc.Ready? then Move(s, id, Computing(r.pc.seen, s.clock)) else s
    case Finish(_) =>
      if r.pc.Computing? then Move(s, id, Storing(r.pc.seen, Answer(r.key, r.pc.began))) else s
    case Fail(_) =>
      if r.pc.Computing? then Move(s, id, Raised).(lock := None) else s
    case Store(_) =>
      if r.pc.Storing? then
        Move(s, id, Leaving(r.pc.answer))
          .(shared := Stored(s.shared, r.pc.seen, r.pc.answer), finished := s.finished + [(r.key, r.pc.seen)])
      else s
    case Release(_) =>
      if r.pc.Leaving? then Move(s, id, Returned(r.pc.answer)).(lock := None) else s
  }

  /** One step of a run; the clock ticks, and a step whose turn it isn't does nothing else. */
  function Step(s: State, e: Event): State {
    var next :=
      match e
      case Arrive(id, key) =>
        if id in s.readers then s else s.(readers := s.readers[id := Reader(key, s.lastClear, Looking)])
      case Clear => s.(shared := Cleared(s.shared), lastClear := s.clock)
      case _ => if e.id in s.readers then ReaderStep(s, e) else s;
    next.(clock := s.clock + 1)
  }

  function Run(events: seq<Event>): State {
    if events == [] then Start() else Step(Run(events[..|events| - 1]), events[|events| - 1])
  }

  // The invariant ---------------------------------------------------------------------------------------------------

  predicate Holds(pc: Pc) {
    pc.Locked? || pc.Ready? || pc.Computing? || pc.Storing? || pc.Leaving?
  }

  /** An answer for this key that was begun after that time. */
  predicate Newer(a: Answer, key: Key, time: nat) {
    a.key == key && a.began > time
  }

  predicate ReaderOk(s: State, r: Reader) {
    && r.floor <= s.lastClear
    && match r.pc
       case Ready(seen) => seen <= s.shared.generation && (r.key, seen) !in s.finished
       case Computing(seen, began) =>
         && seen <= s.shared.generation && (r.key, seen) !in s.finished
         && began < s.clock && began > r.floor && (seen == s.shared.generation ==> began > s.lastClear)
       case Storing(seen, answer) =>
         && seen <= s.shared.generation && (r.key, seen) !in s.finished
         && answer.began < s.clock && Newer(answer, r.key, r.floor)
         && (seen == s.shared.generation ==> answer.began > s.lastClear)
       case Leaving(answer) => answer.began < s.clock && Newer(answer, r.key, r.floor)
       case Returned(answer) => answer.began < s.clock && Newer(answer, r.key, r.floor)
       case _ => true
  }

  predicate CacheOk(s: State) {
    && s.lastClear < s.clock
    && forall key | key in s.shared.cache ::
      s.shared.cache[key].began < s.clock && Newer(s.shared.cache[key], key, s.lastClear)
  }

  predicate LockOk(s: State) {
    && (forall id | id in s.readers :: Holds(s.readers[id].pc) <==> s.lock == Some(id))
    && (s.lock.Some? ==> s.lock.value in s.readers)
  }

  /** No key was checked twice in one generation, and what was checked in this one is in the cache. */
  predicate FinishedOk(s: State) {
    && (forall i, j | 0 <= i < j < |s.finished| :: s.finished[i] != s.finished[j])
    && forall f <- s.finished :: f.1 <= s.shared.generation && (f.1 == s.shared.generation ==> f.0 in s.shared.cache)
  }

  predicate Inv(s: State) {
    && CacheOk(s) && LockOk(s) && FinishedOk(s)
    && forall id | id in s.readers :: ReaderOk(s, s.readers[id])
  }

  lemma ReaderKept(s: State, next: State, r: Reader)
    requires ReaderOk(s, r)
    requires next.clock >= s.clock && next.finished == s.finished
    requires next.shared.generation == s.shared.generation && next.lastClear == s.lastClear
    ensures ReaderOk(next, r)
  {
  }

  /** A step that moves one reader on, and takes or gives back the compute lock with it. */
  lemma MoveKeepsInv(s: State, id: nat, pc: Pc, lock: Option<nat>)
    requires Inv(s) && id in s.readers
    requires Holds(pc) ==> lock == Some(id) && (s.lock == None || s.lock == Some(id))
    requires !Holds(pc) ==> lock == if s.lock == Some(id) then None else s.lock
    requires ReaderOk(s.(clock := s.clock + 1), s.readers[id].(pc := pc))
    ensures Inv(Move(s, id, pc).(lock := lock, clock := s.clock + 1))
  {
    var next := Move(s, id, pc).(lock := lock, clock := s.clock + 1);
    forall other | other in s.readers && other != id ensures ReaderOk(next, next.readers[other]) {
      ReaderKept(s, next, s.readers[other]);
    }
    ReaderKept(s.(clock := s.clock + 1), next, next.readers[id]);
    assert LockOk(next) by {
      forall other | other in next.readers ensures Holds(next.readers[other].pc) <==> lock == Some(other) {
        assert Holds(s.readers[other].pc) <==> s.lock == Some(other);
      }
    }
  }

  lemma StaysKeepsInv(s: State)
    requires Inv(s)
    ensures Inv(s.(clock := s.clock + 1))
  {
    forall id | id in s.readers ensures ReaderOk(s.(clock := s.clock + 1), s.readers[id]) {
      ReaderKept(s, s.(clock := s.clock + 1), s.readers[id]);
    }
  }

  lemma LookupKeepsInv(s: State, e: Event)
    requires Inv(s) && (e.FirstLookup? || e.SecondLookup?) && e.id in s.readers
    ensures Inv(ReaderStep(s, e).(clock := s.clock + 1))
  {
    var id, r := e.id, s.readers[e.id];
    var found := Lookup(s.shared, r.key);
    assert ReaderOk(s, r);
    StaysKeepsInv(s);
    if e.FirstLookup? && r.pc.Looking? {
      MoveKeepsInv(s, id, if found.Some? then Returned(found.value) else Waiting, s.lock);
    } else if e.SecondLookup? && r.pc.Locked? {
      if found.None? {
        assert (r.key, s.shared.generation) !in s.finished;
      }
      MoveKeepsInv(s, id, if found.Some? then Leaving(found.value) else Ready(s.shared.generation), s.lock);
    }
  }

  lemma OtherStepKeepsInv(s: State, e: Event)
    requires Inv(s) && (e.Acquire? || e.Begin? || e.Finish? || e.Fail? || e.Release?) && e.id in s.readers
    ensures Inv(ReaderStep(s, e).(clock := s.clock + 1))
  {
    var id, r := e.id, s.readers[e.id];
    assert ReaderOk(s, r);
    StaysKeepsInv(s);
    if e.Acquire? && r.pc.Waiting? && s.lock == None {
      MoveKeepsInv(s, id, Locked, Some(id));
    } else if e.Begin? && r.pc.Ready? {
      MoveKeepsInv(s, id, Computing(r.pc.seen, s.clock), s.lock);
    } else if e.Finish? && r.pc.Computing? {
      MoveKeepsInv(s, id, Storing(r.pc.seen, Answer(r.key, r.pc.began)), s.lock);
    } else if e.Fail? && r.pc.Computing? {
      MoveKeepsInv(s, id, Raised, None);
    } else if e.Release? && r.pc.Leaving? {
      MoveKeepsInv(s, id, Returned(r.pc.answer), None);
    }
  }

  lemma StoreKeepsInv(s: State, id: nat)
    requires Inv(s) && id in s.readers
    ensures Inv(ReaderStep(s, Store(id)).(clock := s.clock + 1))
  {
    var next := ReaderStep(s, Store(id)).(clock := s.clock + 1);
    assert ReaderOk(s, s.readers[id]);
    forall other | other in s.readers && other != id ensures ReaderOk(next, next.readers[other]) {
      assert ReaderOk(s, s.readers[other]);
    }
    assert ReaderOk(next, next.readers[id]);
    assert FinishedOk(next);
  }

  lemma ClearKeepsInv(s: State)
    requires Inv(s)
    ensures Inv(Step(s, Clear))
  {
    var next := Step(s, Clear);
    forall id | id in s.readers ensures ReaderOk(next, next.readers[id]) {
      assert ReaderOk(s, s.readers[id]);
    }
  }

  lemma ArriveKeepsInv(s: State, id: nat, key: Key)
    requires Inv(s)
    ensures Inv(Step(s, Arrive(id, key)))
  {
    var next := Step(s, Arrive(id, key));
    forall other | other in s.readers ensures ReaderOk(next, next.readers[other]) {
      ReaderKept(s, next, s.readers[other]);
    }
  }

  lemma StepKeepsInv(s: State, e: Event)
    requires Inv(s)
    ensures Inv(Step(s, e))
  {
    if e.Clear? {
      ClearKeepsInv(s);
    } else if e.Arrive? {
      ArriveKeepsInv(s, e.id, e.key);
    } else if e.id in s.readers {
      if e.Store? {
        StoreKeepsInv(s, e.id);
      } else if e.FirstLookup? || e.SecondLookup? {
        LookupKeepsInv(s, e);
      } else {
        OtherStepKeepsInv(s, e);
      }
    } else {
      StaysKeepsInv(s);
    }
  }

  /** The invariant holds in every run, however readers and clears interleave. */
  lemma {:induction false} EveryRunKeepsInv(events: seq<Event>)
    ensures Inv(Run(events))
  {
    if events != [] {
      EveryRunKeepsInv(events[..|events| - 1]);
      StepKeepsInv(Run(events[..|events| - 1]), events[|events| - 1]);
    }
  }

  // What a run shows ------------------------------------------------------------------------------------------------

  /** The step numbered by the answer's time began a check, by a reader that looks up the answer's key. */
  predicate BeganIn(events: seq<Event>, s: State, a: Answer) {
    && 1 <= a.began <= |events|
    && events[a.began - 1].Begin?
    && var id := events[a.began - 1].id;
    id in s.readers && s.readers[id].key == a.key
  }

  function AnswerIn(r: Reader): Option<Answer> {
    match r.pc
    case Computing(_, began) => Some(Answer(r.key, began))
    case Storing(_, answer) => Some(answer)
    case Leaving(answer) => Some(answer)
    case Returned(answer) => Some(answer)
    case _ => None
  }

  /** Every answer, cached or in a reader's hands, comes from a check of this run. */
  predicate Traced(events: seq<Event>, s: State) {
    && (forall key | key in s.shared.cache :: BeganIn(events, s, s.shared.cache[key]))
    && forall id | id in s.readers && AnswerIn(s.readers[id]).Some? :: BeganIn(events, s, AnswerIn(s.readers[id]).value)
  }

  lemma KeysStay(s: State, e: Event)
    ensures forall id | id in s.readers :: id in Step(s, e).readers && Step(s, e).readers[id].key == s.readers[id].key
  {
  }

  lemma BeganInLonger(events: seq<Event>, s: State, e: Event, a: Answer)
    requires BeganIn(events, s, a)
    ensures BeganIn(events + [e], Step(s, e), a)
  {
    KeysStay(s, e);
    assert (events + [e])[a.began - 1] == events[a.began - 1];
  }

  /** An answer in the state after a step was there before, or belongs to the check that the step began. */
  lemma AnswersComeFrom(s: State, e: Event, a: Answer)
    requires
      || (exists key :: key in Step(s, e).shared.cache && Step(s, e).shared.cache[key] == a)
      || (exists id :: id in Step(s, e).readers && AnswerIn(Step(s, e).readers[id]) == Some(a))
    ensures
      || (exists key :: key in s.shared.cache && s.shared.cache[key] == a)
      || (exists id :: id in s.readers && AnswerIn(s.readers[id]) == Some(a))
      || (e.Begin? && e.id in s.readers && a == Answer(s.readers[e.id].key, s.clock))
  {
    if id :| id in Step(s, e).readers && AnswerIn(Step(s, e).readers[id]) == Some(a) {
      if id in s.readers && AnswerIn(s.readers[id]) != Some(a) {
        var key := s.readers[id].key;
        assert e.Begin? || (key in s.shared.cache && s.shared.cache[key] == a);
      }
    } else {
      var key :| key in Step(s, e).shared.cache && Step(s, e).shared.cache[key] == a;
      if !(key in s.shared.cache && s.shared.cache[key] == a) {
        assert e.Store? && AnswerIn(s.readers[e.id]) == Some(a);
      }
    }
  }

  lemma {:induction false} RunIsTraced(events: seq<Event>)
    ensures Run(events).clock == |events| + 1
    ensures Traced(events, Run(events))
  {
    if events != [] {
      var init, e := events[..|events| - 1], events[|events| - 1];
      var s, next := Run(init), Run(events);
      RunIsTraced(init);
      assert events == init + [e];
      forall key | key in next.shared.cache ensures BeganIn(events, next, next.shared.cache[key]) {
        TracedStep(init, s, e, next.shared.cache[key]);
      }
      forall id | id in next.readers && AnswerIn(next.readers[id]).Some?
        ensures BeganIn(events, next, AnswerIn(next.readers[id]).value)
      {
        TracedStep(init, s, e, AnswerIn(next.readers[id]).value);
      }
    }
  }

  lemma TracedStep(init: seq<Event>, s: State, e: Event, a: Answer)
    requires Traced(init, s) && s.clock == |init| + 1
    requires
      || (exists key :: key in Step(s, e).shared.cache && Step(s, e).shared.cache[key] == a)
      || (exists id :: id in Step(s, e).readers && AnswerIn(Step(s, e).readers[id]) == Some(a))
    ensures BeganIn(init + [e], Step(s, e), a)
  {
    AnswersComeFrom(s, e, a);
    if BeganIn(init, s, a) {
      BeganInLonger(init, s, e, a);
    } else {
      KeysStay(s, e);
      assert (init + [e])[|init|] == e;
    }
  }

  lemma RunClock(events: seq<Event>)
    ensures Run(events).lastClear < Run(events).clock == |events| + 1
  {
    RunIsTraced(events);
    EveryRunKeepsInv(events);
  }

  lemma LastClearAfter(s: State, e: Event)
    ensures Step(s, e).lastClear == if e == Clear then s.clock else s.lastClear
  {
  }

  lemma {:induction false} LastClearIs(events: seq<Event>)
    ensures forall i | 0 <= i < |events| && events[i] == Clear :: i < Run(events).lastClear
  {
    if events != [] {
      var init, e := events[..|events| - 1], events[|events| - 1];
      LastClearIs(init);
      RunClock(init);
      LastClearAfter(Run(init), e);
      forall i | 0 <= i < |events| && events[i] == Clear ensures i < Run(events).lastClear {
        assert i < |init| ==> init[i] == Clear;
      }
    }
  }

  /** Every cached entry comes from a check for its key that began after the latest clear. */
  lemma CachedAnswersAreNew(events: seq<Event>, key: Key)
    requires key in Run(events).shared.cache
    ensures var a := Run(events).shared.cache[key];
            && a.key == key
            && BeganIn(events, Run(events), a)
            && forall i | 0 <= i < |events| && events[i] == Clear :: i < a.began - 1
  {
    EveryRunKeepsInv(events);
    RunIsTraced(events);
    LastClearIs(events);
  }

  /** A later state of the same run: readers that came since know of every clear there had been. */
  predicate Since(base: State, s: State) {
    && base.lastClear <= s.lastClear < s.clock
    && forall id | id in s.readers && id !in base.readers :: s.readers[id].floor >= base.lastClear
  }

  lemma StepSince(base: State, s: State, e: Event)
    requires Since(base, s)
    ensures Since(base, Step(s, e))
  {
    var next := Step(s, e);
    forall id | id in next.readers && id !in base.readers ensures next.readers[id].floor >= base.lastClear {
      FloorStays(s, e, id);
    }
  }

  lemma FloorStays(s: State, e: Event, id: nat)
    requires id in Step(s, e).readers
    ensures Step(s, e).readers[id].floor == if id in s.readers then s.readers[id].floor else s.lastClear
  {
  }

  lemma RunLonger(before: seq<Event>, after: seq<Event>, e: Event)
    ensures Run(before + (after + [e])) == Step(Run(before + after), e)
  {
    var events := before + (after + [e]);
    assert events[..|events| - 1] == before + after;
  }

  lemma {:induction false} RunSince(before: seq<Event>, after: seq<Event>)
    ensures Since(Run(before), Run(before + after))
    decreases |after|
  {
    if after == [] {
      assert before + after == before;
      EveryRunKeepsInv(before);
    } else {
      var shorter, e := after[..|after| - 1], after[|after| - 1];
      assert after == shorter + [e];
      RunSince(before, shorter);
      RunLonger(before, shorter, e);
      StepSince(Run(before), Run(before + shorter), e);
    }
  }

  /** A lookup that starts once a run has come so far never returns an answer begun before a clear of that run. */
  lemma LookupsAfterAClearAreNew(before: seq<Event>, after: seq<Event>, id: nat)
    requires id !in Run(before).readers
    requires id in Run(before + after).readers && Run(before + after).readers[id].pc.Returned?
    ensures var r := Run(before + after).readers[id];
            && r.pc.answer.key == r.key
            && BeganIn(before + after, Run(before + after), r.pc.answer)
            && forall i | 0 <= i < |before| && before[i] == Clear :: i < r.pc.answer.began - 1
  {
    var s := Run(before + after);
    EveryRunKeepsInv(before + after);
    assert ReaderOk(s, s.readers[id]);
    RunIsTraced(before + after);
    assert AnswerIn(s.readers[id]) == Some(s.readers[id].pc.answer);
    RunSince(before, after);
    LastClearIs(before);
  }

  /** No two checks run at once. */
  lemma NoTwoAtOnce(events: seq<Event>, a: nat, b: nat)
    requires a in Run(events).readers && b in Run(events).readers
    requires Run(events).readers[a].pc.Computing? && Run(events).readers[b].pc.Computing?
    ensures a == b
  {
    EveryRunKeepsInv(events);
    var s := Run(events);
    assert (Holds(s.readers[a].pc) <==> s.lock == Some(a)) && (Holds(s.readers[b].pc) <==> s.lock == Some(b));
  }

  /** And none is run twice: between two clears at most one check of a key completes. */
  lemma OneCheckPerGeneration(events: seq<Event>, i: nat, j: nat)
    requires i < j < |Run(events).finished|
    ensures Run(events).finished[i] != Run(events).finished[j]
  {
    EveryRunKeepsInv(events);
  }

  predicate Done(r: Reader) {
    r.pc.Returned? || r.pc.Raised?
  }

  /** No run ends in a deadlock: while a lookup is under way some reader can move. */
  lemma SomeoneCanMove(events: seq<Event>, id: nat)
    requires id in Run(events).readers && !Done(Run(events).readers[id])
    ensures exists e: Event :: !e.Clear? && !e.Arrive? && Step(Run(events), e).readers != Run(events).readers
  {
    EveryRunKeepsInv(events);
    var s := Run(events);
    var who := if s.readers[id].pc == Waiting && s.lock.Some? then s.lock.value else id;
    assert who in s.readers && (Holds(s.readers[who].pc) <==> s.lock == Some(who));
    var pc := s.readers[who].pc;
    var e :=
      if pc.Looking? then FirstLookup(who)
      else if pc.Waiting? then Acquire(who)
      else if pc.Locked? then SecondLookup(who)
      else if pc.Ready? then Begin(who)
      else if pc.Computing? then Finish(who)
      else if pc.Storing? then Store(who)
      else Release(who);
    assert Step(s, e).readers[who].pc != s.readers[who].pc;
  }
}
