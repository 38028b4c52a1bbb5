/** The Redis-backed durable job queue: every Lua script and every separate write is
    one atomic step on the shared store, and a run is any sequence of such steps.
    Lists are written oldest first, so LPUSH appends and RPOP takes index 0. */
module DurableQueue {
  import opened Common

  type Id = string

  /** A per-job hash. HINCRBY on a deleted key recreates it with attempts alone. */
  datatype JobHash = JobHash(payload: Option<string>, attempts: int)

  datatype Store = Store(
    pending: seq<Id>,
    processing: seq<Id>,
    visibility: map<Id, int>,
    deadLetter: seq<Id>,
    jobs: map<Id, JobHash>)

  const EMPTY := Store([], [], map[], [], map[])

  /** The atomic steps. Enqueue is Save then, separately, Push; Reap is a read followed
      by one Nack per id it saw, each of which may come arbitrarily late. */
  datatype Step =
    | Save(id: Id, payload: string)
    | Push(id: Id)
    | Dequeue(deadline: int)
    | Ack(id: Id)
    | Nack(id: Id)

  function SaveJob(s: Store, id: Id, payload: string): Store {
    s.(jobs := s.jobs[id := JobHash(Some(payload), 0)])
  }

  function PushPending(s: Store, id: Id): Store {
    s.(pending := s.pending + [id])
  }

  function DequeueOne(s: Store, deadline: int): Store {
    if s.pending == [] then s
    else
      var id := s.pending[0];
      s.(pending := s.pending[1..],
         processing := s.processing + [id],
         visibility := s.visibility[id := deadline])
  }

  function AckJob(s: Store, id: Id): Store {
    s.(processing := Without(s.processing, id),
       visibility := s.visibility - {id},
       jobs := s.jobs - {id})
  }

  /** HINCRBY attempts 1, creating the hash when it is gone. */
  function Incremented(jobs: map<Id, JobHash>, id: Id): JobHash {
    if id in jobs then jobs[id].(attempts := jobs[id].attempts + 1) else JobHash(None, 1)
  }

  function NackJob(s: Store, max: int, id: Id): Store {
    var job := Incremented(s.jobs, id);
    var cleared := s.(processing := Without(s.processing, id),
                      visibility := s.visibility - {id},
                      jobs := s.jobs[id := job]);
    if job.attempts >= max
    then cleared.(deadLetter := s.deadLetter + [id])
    else cleared.(pending := s.pending + [id])
  }

  function Apply(s: Store, max: int, step: Step): Store {
    match step
    case Save(id, payload) => SaveJob(s, id, payload)
    case Push(id) => PushPending(s, id)
    case Dequeue(deadline) => DequeueOne(s, deadline)
    case Ack(id) => AckJob(s, id)
    case Nack(id) => NackJob(s, max, id)
  }

  /** The store after a run of steps from the empty queue. */
  function Run(max: int, steps: seq<Step>): Store {
    if steps == [] then EMPTY else Apply(Run(max, Front(steps)), max, Last(steps))
  }

  lemma {:induction false} RunSnoc(max: int, steps: seq<Step>, step: Step)
    ensures Run(max, steps + [step]) == Apply(Run(max, steps), max, step)
  {
    FrontLast(steps, step);
  }

  // ---------------------------------------------------------------------------
  // What holds in every interleaving
  // ---------------------------------------------------------------------------

  /** The payload a reader of the history alone would expect: the last Save since the last Ack. */
  function PayloadOf(steps: seq<Step>, id: Id): Option<string> {
    if steps == [] then None
    else match Last(steps)
      case Save(j, payload) => if j == id then Some(payload) else PayloadOf(Front(steps), id)
      case Ack(j) => if j == id then None else PayloadOf(Front(steps), id)
      case _ => PayloadOf(Front(steps), id)
  }

  /** The attempt count the history implies: Nacks since the last Save or Ack. */
  function AttemptsOf(steps: seq<Step>, id: Id): Option<int> {
    if steps == [] then None
    else
      var before := AttemptsOf(Front(steps), id);
      match Last(steps)
      case Save(j, _) => if j == id then Some(0) else before
      case Ack(j) => if j == id then None else before
      case Nack(j) => if j == id then Some((if before.Some? then before.value else 0) + 1) else before
      case _ => before
  }

  /** True when id was pushed (by Enqueue or by a Nack) and not Acked since. */
  predicate Owed(steps: seq<Step>, id: Id) {
    steps != [] && match Last(steps)
      case Push(j) => j == id || Owed(Front(steps), id)
      case Nack(j) => j == id || Owed(Front(steps), id)
      case Ack(j) => j != id && Owed(Front(steps), id)
      case _ => Owed(Front(steps), id)
  }

  predicate Held(s: Store, id: Id) {
    id in s.pending || id in s.processing || id in s.deadLetter
  }

  /** The per-job hashes are a function of the history alone, exactly. */
  lemma {:induction false} HashIsHistory(max: int, steps: seq<Step>, id: Id)
    ensures id in Run(max, steps).jobs <==> AttemptsOf(steps, id).Some?
    ensures id in Run(max, steps).jobs ==>
              Run(max, steps).jobs[id] == JobHash(PayloadOf(steps, id), AttemptsOf(steps, id).value)
    ensures id !in Run(max, steps).jobs ==> PayloadOf(steps, id).None?
  {
    if steps != [] {
      HashIsHistory(max, Front(steps), id);
    }
  }

  /** How one step moves the deadline of an id in flight: set by its delivery, cleared when settled. */
  function DeadlineAfter(before: Option<int>, pending: seq<Id>, step: Step, id: Id): Option<int> {
    match step
    case Dequeue(deadline) => if pending != [] && pending[0] == id then Some(deadline) else before
    case Ack(j) => if j == id then None else before
    case Nack(j) => if j == id then None else before
    case _ => before
  }

  /** The deadline the history implies for an id in flight: that of its last delivery, unless it
      was settled since. */
  function DeadlineOf(max: int, steps: seq<Step>, id: Id): Option<int> {
    if steps == [] then None
    else DeadlineAfter(DeadlineOf(max, Front(steps), id), Run(max, Front(steps)).pending, Last(steps), id)
  }

  /** An id is in processing exactly when the visibility set names it, with this deadline. */
  predicate InFlight(s: Store, id: Id, deadline: Option<int>) {
    && (id in s.processing <==> deadline.Some?)
    && (id in s.visibility <==> deadline.Some?)
    && (id in s.visibility ==> Some(s.visibility[id]) == deadline)
  }

  lemma {:induction false} InFlightStep(s: Store, max: int, step: Step, id: Id, deadline: Option<int>)
    requires InFlight(s, id, deadline)
    ensures InFlight(Apply(s, max, step), id, DeadlineAfter(deadline, s.pending, step, id))
  {
  }

  /** In flight means both lists, and with the right deadline: an id is in processing exactly when
      the visibility set names it, and its score is the deadline of its last delivery. */
  lemma {:induction false} VisibilityIsProcessing(max: int, steps: seq<Step>, id: Id)
    ensures InFlight(Run(max, steps), id, DeadlineOf(max, steps, id))
  {
    if steps != [] {
      VisibilityIsProcessing(max, Front(steps), id);
      InFlightStep(Run(max, Front(steps)), max, Last(steps), id, DeadlineOf(max, Front(steps), id));
    }
  }

  lemma {:induction false} OwedIsHeld(max: int, steps: seq<Step>, id: Id)
    requires Owed(steps, id)
    ensures Held(Run(max, steps), id)
  {
    var s, last := Run(max, Front(steps)), Last(steps);
    if Owed(Front(steps), id) {
      OwedIsHeld(max, Front(steps), id);
      if last.Dequeue? && s.pending != [] {
        assert s.pending == [s.pending[0]] + s.pending[1..];
      }
    }
  }

  ghost predicate Untouched(steps: seq<Step>, id: Id) {
    forall i :: 0 <= i < |steps| ==> steps[i] != Ack(id) && !(steps[i].Save? && steps[i].id == id)
  }

  lemma {:induction false} UntouchedKeepsHistory(a: seq<Step>, b: seq<Step>, id: Id)
    requires Untouched(b, id)
    ensures PayloadOf(a + b, id) == PayloadOf(a, id)
    ensures Owed(a, id) ==> Owed(a + b, id)
  {
    if b == [] {
      assert a + b == a;
    } else {
      UntouchedKeepsHistory(a, Front(b), id);
      assert Front(a + b) == a + Front(b) && Last(a + b) == Last(b);
    }
  }

  /** No loss, in every interleaving: an id whose two writes completed, and that was neither
      Acked nor stored again from its first write on, is in one of the three lists with its payload. */
  lemma {:induction false} NothingLost(max: int, before: seq<Step>, id: Id, payload: string, between: seq<Step>,
                                       after: seq<Step>)
    requires Untouched(between, id) && Untouched(after, id)
    ensures var s := Run(max, before + [Save(id, payload)] + between + [Push(id)] + after);
            Held(s, id) && id in s.jobs && s.jobs[id].payload == Some(payload)
  {
    var saved := before + [Save(id, payload)];
    var pushed := saved + between + [Push(id)];
    FrontLast(before, Save(id, payload));
    UntouchedKeepsHistory(saved, between, id);
    FrontLast(saved + between, Push(id));
    UntouchedKeepsHistory(pushed, after, id);
    OwedIsHeld(max, pushed + after, id);
    HashIsHistory(max, pushed + after, id);
  }

  /** Step k stored id, and no Ack of it has come since. */
  ghost predicate UnackedSave(steps: seq<Step>, id: Id, k: int) {
    0 <= k < |steps| && steps[k].Save? && steps[k].id == id && Ack(id) !in steps[k + 1..]
  }

  /** What a delivery carries, in every interleaving: a payload exactly when the id was
      stored after its last Ack. */
  lemma {:induction false} DeliveryPayloadExact(max: int, steps: seq<Step>, id: Id)
    ensures var jobs := Run(max, steps).jobs;
            (id in jobs && jobs[id].payload.Some?) <==> exists k :: UnackedSave(steps, id, k)
  {
    HashIsHistory(max, steps, id);
    if PayloadOf(steps, id).Some? {
      var k := SaveOfPayload(steps, id);
    }
    forall k | UnackedSave(steps, id, k)
      ensures PayloadOf(steps, id).Some?
    {
      SaveGivesPayload(steps, id, k);
    }
  }

  lemma {:induction false} SaveOfPayload(steps: seq<Step>, id: Id) returns (k: int)
    requires PayloadOf(steps, id).Some?
    ensures UnackedSave(steps, id, k)
  {
    var front, last := Front(steps), Last(steps);
    if last.Save? && last.id == id {
      k := |front|;
      assert steps[k + 1..] == [];
    } else {
      k := SaveOfPayload(front, id);
      assert steps[k + 1..] == front[k + 1..] + [last];
    }
  }

  lemma {:induction false} SaveGivesPayload(steps: seq<Step>, id: Id, k: int)
    requires UnackedSave(steps, id, k)
    ensures PayloadOf(steps, id).Some?
  {
    var front, last := Front(steps), Last(steps);
    if k < |front| {
      assert steps[k + 1..] == front[k + 1..] + [last];
      assert last in steps[k + 1..];
      SaveGivesPayload(front, id, k);
    }
  }

  /** Unconditional exactly-once is false: a Reap that scanned before the Ack and Nacks after it
      puts the finished job back in pending, and the next delivery has no payload. */
  lemma {:induction false} StaleNackRevivesJob(max: int)
    requires max > 1
    ensures var s := Run(max, [Save("a", "work"), Push("a"), Dequeue(0), Ack("a"), Nack("a")]);
            s.pending == ["a"] && s.jobs == map["a" := JobHash(None, 1)]
  {
    var r1 := [Save("a", "work")];
    var r2 := r1 + [Push("a")];
    var r3 := r2 + [Dequeue(0)];
    var r4 := r3 + [Ack("a")];
    assert r4 + [Nack("a")] == [Save("a", "work"), Push("a"), Dequeue(0), Ack("a"), Nack("a")];
    RunSnoc(max, [], Save("a", "work"));
    RunSnoc(max, r1, Push("a"));
    RunSnoc(max, r2, Dequeue(0));
    RunSnoc(max, r3, Ack("a"));
    RunSnoc(max, r4, Nack("a"));
    assert Run(max, r3).processing == ["a"];
    assert Without(["a"], "a") == [];
    assert Run(max, r4) == EMPTY;
  }

  /** The other shape: a stale Nack while the job is pending again makes a second copy, which
      stays behind when the first is delivered and Acked. */
  lemma {:induction false} StaleNackLeavesCopy(max: int)
    requires max > 2
    ensures var s := Run(max, [Save("a", "work"), Push("a"), Dequeue(0), Nack("a"), Nack("a"), Dequeue(0), Ack("a")]);
            s.pending == ["a"] && s.jobs == map[]
  {
    var r1 := [Save("a", "work")];
    var r2 := r1 + [Push("a")];
    var r3 := r2 + [Dequeue(0)];
    var r4 := r3 + [Nack("a")];
    var r5 := r4 + [Nack("a")];
    var r6 := r5 + [Dequeue(0)];
    assert r6 + [Ack("a")] == [Save("a", "work"), Push("a"), Dequeue(0), Nack("a"), Nack("a"), Dequeue(0), Ack("a")];
    RunSnoc(max, [], Save("a", "work"));
    RunSnoc(max, r1, Push("a"));
    RunSnoc(max, r2, Dequeue(0));
    RunSnoc(max, r3, Nack("a"));
    RunSnoc(max, r4, Nack("a"));
    RunSnoc(max, r5, Dequeue(0));
    RunSnoc(max, r6, Ack("a"));
    assert Run(max, r5).pending == ["a", "a"] && Run(max, r5).jobs == map["a" := JobHash(Some("work"), 2)];
    assert Run(max, r6).pending == ["a"];
  }

  /** Why NothingLost starts at the Save and not at the Push: an Ack of the id's previous life
      falling between the two writes of Enqueue deletes the new payload. */
  lemma {:induction false} AckBetweenWritesLosesPayload(max: int)
    ensures var s := Run(max, [Save("a", "work"), Ack("a"), Push("a")]);
            s.pending == ["a"] && "a" !in s.jobs
  {
    var r1 := [Save("a", "work")];
    var r2 := r1 + [Ack("a")];
    assert r2 + [Push("a")] == [Save("a", "work"), Ack("a"), Push("a")];
    RunSnoc(max, [], Save("a", "work"));
    RunSnoc(max, r1, Ack("a"));
    RunSnoc(max, r2, Push("a"));
  }

  // ---------------------------------------------------------------------------
  // First in, first out, over the whole history
  // ---------------------------------------------------------------------------

  /** Every id put on pending, by Enqueue or by a requeueing Nack, in order. */
  function Pushes(max: int, steps: seq<Step>): seq<Id> {
    if steps == [] then []
    else
      var before := Pushes(max, Front(steps));
      match Last(steps)
      case Push(id) => before + [id]
      case Nack(id) =>
        if AttemptAfterNack(Front(steps), id) < max then before + [id] else before
      case _ => before
  }

  /** The attempt count the history implies if id is Nacked next. */
  function AttemptAfterNack(steps: seq<Step>, id: Id): int {
    (if AttemptsOf(steps, id).Some? then AttemptsOf(steps, id).value else 0) + 1
  }

  /** Every id that a Nack gave up on, in order. */
  function GivenUp(max: int, steps: seq<Step>): seq<Id> {
    if steps == [] then []
    else
      var before := GivenUp(max, Front(steps));
      if Last(steps).Nack? && AttemptAfterNack(Front(steps), Last(steps).id) >= max then before + [Last(steps).id]
      else before
  }

  /** The dead-letter list, in every interleaving, is exactly the ids given up on, in order: those whose Nacks
      since they were last stored or Acked had reached max. */
  lemma {:induction false} DeadLetterIsHistory(max: int, steps: seq<Step>)
    ensures Run(max, steps).deadLetter == GivenUp(max, steps)
  {
    if steps != [] {
      DeadLetterIsHistory(max, Front(steps));
      if Last(steps).Nack? {
        HashIsHistory(max, Front(steps), Last(steps).id);
      }
    }
  }

  /** Every id handed to a consumer, in order. */
  function Deliveries(max: int, steps: seq<Step>): seq<Id> {
    if steps == [] then []
    else
      var before, s := Deliveries(max, Front(steps)), Run(max, Front(steps));
      if Last(steps).Dequeue? && s.pending != [] then before + [s.pending[0]] else before
  }

  /** Delivery order is push order, in every interleaving: what was delivered followed by
      what is pending is exactly what was ever pushed. */
  lemma {:induction false} DeliveryIsFifo(max: int, steps: seq<Step>)
    ensures Pushes(max, steps) == Deliveries(max, steps) + Run(max, steps).pending
  {
    if steps != [] {
      DeliveryIsFifo(max, Front(steps));
      var out, s, last := Deliveries(max, Front(steps)), Run(max, Front(steps)), Last(steps);
      if last.Dequeue? && s.pending != [] {
        assert out + s.pending == (out + [s.pending[0]]) + s.pending[1..];
      } else if last.Push? || last.Nack? {
        HashIsHistory(max, Front(steps), last.id);
        ConcatAssoc(out, s.pending, [last.id]);
      }
    }
  }

  // ---------------------------------------------------------------------------
  // What the calling discipline adds
  // ---------------------------------------------------------------------------

  ghost function SavedIds(steps: seq<Step>): set<Id> {
    set i | 0 <= i < |steps| && steps[i].Save? :: steps[i].id
  }

  ghost function PushedIds(steps: seq<Step>): set<Id> {
    set i | 0 <= i < |steps| && steps[i].Push? :: steps[i].id
  }

  ghost function AckedIds(steps: seq<Step>): set<Id> {
    set i | 0 <= i < |steps| && steps[i].Ack? :: steps[i].id
  }

  lemma {:induction false} HistorySets(steps: seq<Step>)
    requires steps != []
    ensures SavedIds(steps) == SavedIds(Front(steps)) + (if Last(steps).Save? then {Last(steps).id} else {})
    ensures PushedIds(steps) == PushedIds(Front(steps)) + (if Last(steps).Push? then {Last(steps).id} else {})
    ensures AckedIds(steps) == AckedIds(Front(steps)) + (if Last(steps).Ack? then {Last(steps).id} else {})
  {
    var n := |steps| - 1;
    assert forall i :: 0 <= i < n ==> steps[i] == Front(steps)[i];
    assert steps[n] == Last(steps);
  }

  /** Ids are never reused, an id is pushed once and after it is stored, and Ack and Nack
      are called only for ids in processing. */
  ghost predicate Allowed(max: int, steps: seq<Step>, next: Step) {
    match next
    case Save(id, _) => id !in SavedIds(steps)
    case Push(id) => id in SavedIds(steps) && id !in PushedIds(steps)
    case Dequeue(_) => true
    case Ack(id) => id in Run(max, steps).processing
    case Nack(id) => id in Run(max, steps).processing
  }

  ghost predicate Disciplined(max: int, steps: seq<Step>) {
    steps == [] || (Disciplined(max, Front(steps)) && Allowed(max, Front(steps), Last(steps)))
  }

  function Times(ids: seq<Id>, id: Id): nat {
    multiset(ids)[id]
  }

  /** How often an id occurs across the three lists. */
  ghost function Count(s: Store, id: Id): nat {
    Times(s.pending, id) + Times(s.processing, id) + Times(s.deadLetter, id)
  }

  lemma {:induction false} TimesPositive(ids: seq<Id>, id: Id)
    ensures id in ids <==> Times(ids, id) > 0
  {
  }

  lemma {:induction false} HeldIsCounted(s: Store, id: Id)
    ensures Held(s, id) <==> Count(s, id) > 0
    ensures id in s.pending <==> Times(s.pending, id) > 0
    ensures id in s.processing <==> Times(s.processing, id) > 0
    ensures id in s.deadLetter <==> Times(s.deadLetter, id) > 0
  {
    TimesPositive(s.pending, id);
    TimesPositive(s.processing, id);
    TimesPositive(s.deadLetter, id);
  }

  lemma {:induction false} PushCount(ids: seq<Id>, x: Id, id: Id)
    ensures Times(ids + [x], id) == Times(ids, id) + if x == id then 1 else 0
  {
    MultisetSnoc(ids, x);
  }

  lemma {:induction false} PopCount(ids: seq<Id>, id: Id)
    requires ids != []
    ensures Times(ids, id) == Times(ids[1..], id) + if ids[0] == id then 1 else 0
  {
    MultisetCons(ids);
  }

  lemma {:induction false} WithoutCount(ids: seq<Id>, gone: Id, id: Id)
    ensures Times(Without(ids, gone), id) == if id == gone then 0 else Times(ids, id)
  {
    WithoutMultiset(ids, gone);
  }

  /** What one step does to an id's count, in any store: Push adds one, Ack takes away every copy in
      processing, Nack turns every copy in processing into one, the others move it. */
  function CountChange(s: Store, step: Step, id: Id): int {
    match step
    case Push(j) => if j == id then 1 else 0
    case Ack(j) => if j == id then 0 - Times(s.processing, id) else 0
    case Nack(j) => if j == id then 1 - Times(s.processing, id) else 0
    case _ => 0
  }

  lemma {:induction false} DequeueCounts(s: Store, deadline: int, id: Id)
    ensures Count(DequeueOne(s, deadline), id) == Count(s, id)
  {
    if s.pending != [] {
      PopCount(s.pending, id);
      PushCount(s.processing, s.pending[0], id);
    }
  }

  lemma {:induction false} NackCounts(s: Store, max: int, j: Id, id: Id)
    ensures Count(NackJob(s, max, j), id) == Count(s, id) + CountChange(s, Nack(j), id)
  {
    WithoutCount(s.processing, j, id);
    PushCount(s.pending, j, id);
    PushCount(s.deadLetter, j, id);
  }

  lemma {:induction false} CountStep(max: int, s: Store, step: Step, id: Id)
    ensures Count(Apply(s, max, step), id) == Count(s, id) + CountChange(s, step, id)
  {
    match step
    case Save(_, _) =>
    case Push(j) => PushCount(s.pending, j, id);
    case Dequeue(deadline) => DequeueCounts(s, deadline, id);
    case Ack(j) => WithoutCount(s.processing, j, id);
    case Nack(j) => NackCounts(s, max, j, id);
  }

  /** Conservation: an id enqueued and not yet Acked is in exactly one list, exactly once;
      any other id is in none. */
  lemma {:induction false} OneHome(max: int, steps: seq<Step>, id: Id)
    requires Disciplined(max, steps)
    ensures id in AckedIds(steps) ==> id in PushedIds(steps)
    ensures id in PushedIds(steps) ==> id in SavedIds(steps)
    ensures Count(Run(max, steps), id) == if id in PushedIds(steps) && id !in AckedIds(steps) then 1 else 0
  {
    if steps != [] {
      var front, last := Front(steps), Last(steps);
      OneHome(max, front, id);
      HistorySets(steps);
      if last.Ack? || last.Nack? {
        OneHome(max, front, last.id);
        HeldIsCounted(Run(max, front), last.id);
      }
      CountStep(max, Run(max, front), last, id);
    }
  }

  /** The partition: the three lists are duplicate-free and pairwise disjoint, and together
      hold exactly the ids enqueued and not yet Acked. */
  lemma {:induction false} Partition(max: int, steps: seq<Step>)
    requires Disciplined(max, steps)
    ensures var s := Run(max, steps);
            && Distinct(s.pending + s.processing + s.deadLetter)
            && (forall id :: Held(s, id) <==> id in PushedIds(steps) && id !in AckedIds(steps))
  {
    var s := Run(max, steps);
    var all := s.pending + s.processing + s.deadLetter;
    forall id
      ensures Times(all, id) == Count(s, id)
      ensures Held(s, id) <==> Count(s, id) > 0
      ensures Count(s, id) == if id in PushedIds(steps) && id !in AckedIds(steps) then 1 else 0
    {
      OneHome(max, steps, id);
      HeldIsCounted(s, id);
    }
    forall id
      ensures multiset(all)[id] <= 1
    {
      assert Times(all, id) <= 1;
    }
    DistinctFromMultiset(all);
  }

  // ---------------------------------------------------------------------------
  // Exactly when an id has one home, and when a finished one comes back
  // ---------------------------------------------------------------------------

  /** id was enqueued and not Acked since. */
  predicate Live(steps: seq<Step>, id: Id) {
    steps != [] && LiveAfter(Live(Front(steps), id), Last(steps), id)
  }

  predicate LiveAfter(live: bool, step: Step, id: Id) {
    step == Push(id) || (live && step != Ack(id))
  }

  /** In the store, and in every store before it, id is once in the lists while live and nowhere otherwise. */
  ghost predicate OneHomeThroughout(max: int, steps: seq<Step>, id: Id) {
    && (steps == [] || OneHomeThroughout(max, Front(steps), id))
    && Count(Run(max, steps), id) == if Live(steps, id) then 1 else 0
  }

  /** What a caller can check in the store before a call about id: a Push finds it nowhere, a Nack
      finds it in processing, an Ack finds it in processing or nowhere. */
  predicate Proper(s: Store, step: Step, id: Id) {
    && (step == Push(id) ==> !Held(s, id))
    && (step == Nack(id) ==> id in s.processing)
    && (step == Ack(id) ==> id in s.processing || !Held(s, id))
  }

  predicate ProperThroughout(max: int, steps: seq<Step>, id: Id) {
    steps == [] || (ProperThroughout(max, Front(steps), id) && Proper(Run(max, Front(steps)), Last(steps), id))
  }

  lemma {:induction false} HomeStep(max: int, s: Store, step: Step, id: Id, live: bool)
    requires Count(s, id) == if live then 1 else 0
    ensures Proper(s, step, id) <==> Count(Apply(s, max, step), id) == if LiveAfter(live, step, id) then 1 else 0
  {
    CountStep(max, s, step, id);
    HeldIsCounted(s, id);
  }

  /** Exactly once, exactly when: over any run, with ids reused or not, an id has exactly one home while
      live and none once finished if and only if every call about it was proper. A stale Nack is
      the improper call of both failing runs above. */
  lemma {:induction false} OneHomeExactly(max: int, steps: seq<Step>, id: Id)
    ensures OneHomeThroughout(max, steps, id) <==> ProperThroughout(max, steps, id)
  {
    if steps != [] {
      var front, last := Front(steps), Last(steps);
      OneHomeExactly(max, front, id);
      if OneHomeThroughout(max, front, id) {
        HomeStep(max, Run(max, front), last, id, Live(front, id));
      }
    }
  }

  /** The discipline is proper for every id. */
  lemma {:induction false} DisciplineIsProper(max: int, steps: seq<Step>, id: Id)
    requires Disciplined(max, steps)
    ensures ProperThroughout(max, steps, id)
  {
    if steps != [] {
      DisciplineIsProper(max, Front(steps), id);
      OneHome(max, Front(steps), id);
      HeldIsCounted(Run(max, Front(steps)), id);
    }
  }

  lemma {:induction false} HeldStep(max: int, s: Store, step: Step, id: Id)
    requires step != Ack(id) && step != Push(id)
    ensures Held(Apply(s, max, step), id) <==> Held(s, id) || step == Nack(id)
  {
    CountStep(max, s, step, id);
    HeldIsCounted(s, id);
    HeldIsCounted(Apply(s, max, step), id);
  }

  /** When a finished job comes back: until it is enqueued or Acked again, an Acked id is in the lists if
      and only if the Ack left a copy outside processing or some Nack of it came after the Ack. */
  lemma {:induction false} FinishedReturnsExactly(max: int, base: seq<Step>, id: Id, more: seq<Step>)
    requires Ack(id) !in more && Push(id) !in more
    ensures Held(Run(max, base + [Ack(id)] + more), id) <==>
            id in Run(max, base).pending || id in Run(max, base).deadLetter || Nack(id) in more
  {
    var acked := base + [Ack(id)];
    if more == [] {
      assert acked + more == acked;
      RunSnoc(max, base, Ack(id));
    } else {
      var front, last := Front(more), Last(more);
      Snoc(more);
      FinishedReturnsExactly(max, base, id, front);
      assert acked + more == (acked + front) + [last];
      RunSnoc(max, acked + front, last);
      HeldStep(max, Run(max, acked + front), last, id);
    }
  }

  /** How many attempts an id has used, as its hash records it. */
  function Attempts(s: Store, id: Id): int {
    if id in s.jobs then s.jobs[id].attempts else 0
  }

  /** The attempt and delivery bookkeeping of one id; n counts its deliveries so far. */
  predicate Bounded(max: int, s: Store, id: Id, n: int, saved: bool, pushed: bool, acked: bool) {
    && (!saved ==> id !in s.jobs)
    && (saved && !acked ==> id in s.jobs && s.jobs[id].payload.Some? && 0 <= s.jobs[id].attempts)
    && (!pushed ==> n == 0 && Attempts(s, id) == 0)
    && (id in s.pending ==> Attempts(s, id) < max && n == Attempts(s, id))
    && (id in s.processing ==> Attempts(s, id) < max && n == Attempts(s, id) + 1)
    && (id in s.deadLetter ==> Attempts(s, id) == max && n == max)
    && (acked ==> id !in s.jobs && n <= max)
  }

  lemma {:induction false} BoundedDequeue(max: int, s: Store, deadline: int, id: Id, n: int,
                                          saved: bool, pushed: bool, acked: bool)
    requires Bounded(max, s, id, n, saved, pushed, acked) && s.pending != [] && Count(s, id) <= 1
    requires !pushed || acked ==> Count(s, id) == 0
    ensures Bounded(max, DequeueOne(s, deadline), id, n + (if s.pending[0] == id then 1 else 0), saved, pushed, acked)
  {
    HeldIsCounted(s, id);
    PopCount(s.pending, id);
    TimesPositive(s.pending[1..], id);
  }

  lemma {:induction false} BoundedSettle(max: int, s: Store, step: Step, id: Id, n: int,
                                         saved: bool, pushed: bool, acked: bool)
    requires Bounded(max, s, id, n, saved, pushed, acked) && (step == Ack(id) || step == Nack(id))
    requires saved && pushed && !acked && Count(s, id) == 1 && id in s.processing
    ensures Bounded(max, Apply(s, max, step), id, n, saved, pushed, step == Ack(id))
  {
    HeldIsCounted(s, id);
  }

  lemma {:induction false} BoundedStep(max: int, s: Store, step: Step, id: Id, n: int,
                                       saved: bool, pushed: bool, acked: bool)
    requires max >= 1 && Bounded(max, s, id, n, saved, pushed, acked)
    requires (acked ==> pushed) && (pushed ==> saved)
    requires Count(s, id) == if pushed && !acked then 1 else 0
    requires step.Save? && step.id == id ==> !saved
    requires step == Push(id) ==> saved && !pushed
    requires step == Ack(id) || step == Nack(id) ==> id in s.processing
    ensures Bounded(max, Apply(s, max, step), id,
                    n + (if step.Dequeue? && s.pending != [] && s.pending[0] == id then 1 else 0),
                    saved || (step.Save? && step.id == id), pushed || step == Push(id), acked || step == Ack(id))
  {
    HeldIsCounted(s, id);
    if step.Dequeue? && s.pending != [] {
      BoundedDequeue(max, s, step.deadline, id, n, saved, pushed, acked);
    } else if step == Ack(id) || step == Nack(id) {
      BoundedSettle(max, s, step, id, n, saved, pushed, acked);
    }
  }

  lemma {:induction false} BoundedAlways(max: int, steps: seq<Step>, id: Id)
    requires max >= 1 && Disciplined(max, steps)
    ensures Bounded(max, Run(max, steps), id, Times(Deliveries(max, steps), id),
                    id in SavedIds(steps), id in PushedIds(steps), id in AckedIds(steps))
  {
    if steps != [] {
      var front := Front(steps);
      BoundedAlways(max, front, id);
      HistorySets(steps);
      OneHome(max, front, id);
      BoundedStep(max, Run(max, front), Last(steps), id, Times(Deliveries(max, front), id),
                  id in SavedIds(front), id in PushedIds(front), id in AckedIds(front));
    }
  }

  /** Bounded delivery: under the discipline a live job has used fewer than max attempts, a
      dead-lettered one exactly max, no job lacks its payload, and none is delivered more than max times. */
  lemma {:induction false} BoundedDelivery(max: int, steps: seq<Step>, id: Id)
    requires max >= 1 && Disciplined(max, steps)
    ensures var s := Run(max, steps);
            && (id in s.pending || id in s.processing ==> id in s.jobs && 0 <= s.jobs[id].attempts < max)
            && (id in s.deadLetter ==> id in s.jobs && s.jobs[id].attempts == max)
            && (Held(s, id) ==> s.jobs[id].payload.Some?)
            && Times(Deliveries(max, steps), id) <= max
  {
    BoundedAlways(max, steps, id);
    OneHome(max, steps, id);
    HeldIsCounted(Run(max, steps), id);
  }

  // ---------------------------------------------------------------------------
  // Termination: without new work every run drains
  // ---------------------------------------------------------------------------

  /** Remaining steps: two per attempt left, and one more for an id still pending. */
  function Work(jobs: map<Id, JobHash>, max: int, ids: seq<Id>, extra: nat): int {
    if ids == [] then 0 else Share(jobs, max, ids[0], extra) + Work(jobs, max, ids[1..], extra)
  }

  function Measure(max: int, s: Store): int {
    Work(s.jobs, max, s.pending, 1) + Work(s.jobs, max, s.processing, 0)
  }

  lemma {:induction false} WorkConcat(jobs: map<Id, JobHash>, max: int, a: seq<Id>, b: seq<Id>, extra: nat)
    ensures Work(jobs, max, a + b, extra) == Work(jobs, max, a, extra) + Work(jobs, max, b, extra)
  {
    if a == [] {
      assert a + b == b;
    } else {
      assert (a + b)[1..] == a[1..] + b;
      WorkConcat(jobs, max, a[1..], b, extra);
    }
  }

  lemma {:induction false} WorkFrame(jobs: map<Id, JobHash>, jobs': map<Id, JobHash>, max: int, ids: seq<Id>,
                                     extra: nat)
    requires forall id :: id in ids ==> (id in jobs <==> id in jobs') && (id in jobs ==> jobs[id] == jobs'[id])
    ensures Work(jobs, max, ids, extra) == Work(jobs', max, ids, extra)
  {
    if ids != [] {
      WorkFrame(jobs, jobs', max, ids[1..], extra);
    }
  }

  /** What one id contributes. */
  function Share(jobs: map<Id, JobHash>, max: int, id: Id, extra: nat): int {
    2 * (max - (if id in jobs then jobs[id].attempts else 0)) + extra
  }

  lemma {:induction false} WorkCons(jobs: map<Id, JobHash>, max: int, id: Id, rest: seq<Id>, extra: nat)
    ensures Work(jobs, max, [id] + rest, extra) == Share(jobs, max, id, extra) + Work(jobs, max, rest, extra)
  {
    assert ([id] + rest)[1..] == rest;
  }

  lemma {:induction false} WorkWithout(jobs: map<Id, JobHash>, max: int, ids: seq<Id>, id: Id, extra: nat)
    requires Distinct(ids) && id in ids
    ensures Work(jobs, max, ids, extra) == Work(jobs, max, Without(ids, id), extra) + Share(jobs, max, id, extra)
  {
    var k :| 0 <= k < |ids| && ids[k] == id;
    var before, after := ids[..k], ids[k + 1..];
    WithoutAt(ids, k);
    assert ids == before + ([id] + after);
    WorkConcat(jobs, max, before, [id] + after, extra);
    WorkConcat(jobs, max, before, after, extra);
    WorkCons(jobs, max, id, after, extra);
  }

  /** True when the step does something: a Dequeue of an empty list does not. */
  predicate Effective(s: Store, step: Step) {
    step.Dequeue? ==> s.pending != []
  }

  lemma {:induction false} DequeueDrops(max: int, s: Store, deadline: int)
    requires s.pending != []
    ensures Measure(max, s) == Measure(max, DequeueOne(s, deadline)) + 1
  {
    WorkConcat(s.jobs, max, s.processing, [s.pending[0]], 0);
  }

  /** What settling a job takes off: its two steps per attempt left. */
  lemma {:induction false} SettleDrops(max: int, s: Store, id: Id, jobs: map<Id, JobHash>)
    requires Distinct(s.processing) && id in s.processing && id !in s.pending && id in s.jobs
    requires jobs - {id} == s.jobs - {id}
    ensures Measure(max, s) == Work(jobs, max, s.pending, 1) + Work(jobs, max, Without(s.processing, id), 0)
                               + 2 * (max - s.jobs[id].attempts)
  {
    WorkWithout(s.jobs, max, s.processing, id, 0);
    forall x | x != id
      ensures x in s.jobs <==> x in jobs
      ensures x in s.jobs ==> s.jobs[x] == jobs[x]
    {
      assert x in s.jobs <==> x in s.jobs - {id};
      assert x in jobs <==> x in jobs - {id};
      assert x in jobs ==> (jobs - {id})[x] == jobs[x];
      assert x in s.jobs ==> (s.jobs - {id})[x] == s.jobs[x];
    }
    WorkFrame(s.jobs, jobs, max, s.pending, 1);
    WorkFrame(s.jobs, jobs, max, Without(s.processing, id), 0);
  }

  lemma {:induction false} AckDrops(max: int, s: Store, id: Id)
    requires Distinct(s.processing) && id in s.processing && id !in s.pending
    requires id in s.jobs && s.jobs[id].attempts < max
    ensures Measure(max, s) >= Measure(max, AckJob(s, id)) + 1
  {
    SettleDrops(max, s, id, s.jobs - {id});
  }

  lemma {:induction false} NackDrops(max: int, s: Store, id: Id)
    requires Distinct(s.processing) && id in s.processing && id !in s.pending
    requires id in s.jobs && s.jobs[id].attempts < max
    ensures Measure(max, s) >= Measure(max, NackJob(s, max, id)) + 1
  {
    var jobs := s.jobs[id := Incremented(s.jobs, id)];
    SettleDrops(max, s, id, jobs);
    WorkConcat(jobs, max, s.pending, [id], 1);
    assert Work(jobs, max, [id], 1) == 2 * (max - jobs[id].attempts) + 1;
  }

  lemma {:induction false} MeasureDrops(max: int, steps: seq<Step>, step: Step)
    requires max >= 1 && Disciplined(max, steps) && Allowed(max, steps, step)
    requires !step.Save? && !step.Push? && Effective(Run(max, steps), step)
    ensures Measure(max, Run(max, steps)) >= Measure(max, Run(max, steps + [step])) + 1
  {
    var s := Run(max, steps);
    RunSnoc(max, steps, step);
    if step.Dequeue? {
      DequeueDrops(max, s, step.deadline);
    } else {
      InProcessing(max, steps, step.id);
      if step.Ack? {
        AckDrops(max, s, step.id);
      } else {
        NackDrops(max, s, step.id);
      }
    }
  }

  lemma {:induction false} InProcessing(max: int, steps: seq<Step>, id: Id)
    requires max >= 1 && Disciplined(max, steps) && id in Run(max, steps).processing
    ensures var s := Run(max, steps);
            Distinct(s.processing) && id !in s.pending && id in s.jobs && s.jobs[id].attempts < max
  {
    var s := Run(max, steps);
    BoundedDelivery(max, steps, id);
    OneHome(max, steps, id);
    HeldIsCounted(s, id);
    Partition(max, steps);
    DistinctConcat(s.pending + s.processing, s.deadLetter);
    DistinctConcat(s.pending, s.processing);
  }

  lemma {:induction false} WorkNonNegative(max: int, jobs: map<Id, JobHash>, ids: seq<Id>, extra: nat)
    requires forall id :: id in ids && id in jobs ==> jobs[id].attempts <= max
    requires max >= 0
    ensures Work(jobs, max, ids, extra) >= 0
  {
    if ids != [] {
      WorkNonNegative(max, jobs, ids[1..], extra);
    }
  }

  /** How many of the steps after base changed anything. */
  function EffectiveCount(max: int, base: seq<Step>, more: seq<Step>): nat {
    if more == [] then 0
    else EffectiveCount(max, base, Front(more)) +
         if Effective(Run(max, base + Front(more)), Last(more)) then 1 else 0
  }

  lemma {:induction false} MeasureBounds(max: int, base: seq<Step>, more: seq<Step>)
    requires max >= 1 && Disciplined(max, base + more)
    requires forall step :: step in more ==> !step.Save? && !step.Push?
    ensures EffectiveCount(max, base, more) + Measure(max, Run(max, base + more)) <= Measure(max, Run(max, base))
  {
    if more == [] {
      assert base + more == base;
    } else {
      var run := base + Front(more);
      assert base + more == run + [Last(more)];
      FrontLast(run, Last(more));
      MeasureBounds(max, base, Front(more));
      if Effective(Run(max, run), Last(more)) {
        MeasureDrops(max, run, Last(more));
      }
    }
  }

  /** Drain: once no Enqueue happens, a disciplined run takes at most Measure effective steps,
      so the work ends; each remaining attempt costs two steps and pending costs one. */
  lemma {:induction false} WorkEnds(max: int, base: seq<Step>, more: seq<Step>)
    requires max >= 1 && Disciplined(max, base + more)
    requires forall step :: step in more ==> !step.Save? && !step.Push?
    ensures EffectiveCount(max, base, more) <= Measure(max, Run(max, base))
  {
    MeasureBounds(max, base, more);
    var s := Run(max, base + more);
    forall id | (id in s.pending || id in s.processing) && id in s.jobs
      ensures s.jobs[id].attempts <= max
    {
      BoundedDelivery(max, base + more, id);
    }
    WorkNonNegative(max, s.jobs, s.pending, 1);
    WorkNonNegative(max, s.jobs, s.processing, 0);
  }

  // ---------------------------------------------------------------------------
  // The worker pool meets the discipline
  // ---------------------------------------------------------------------------

  /** One move of the pool or of an enqueuer. Missed is a Dequeue whose reply never arrived: the
      job left pending but no worker has it. Lost is an Ack or Nack whose call failed before
      reaching the store: the worker logs it and goes on to its next job. */
  datatype PoolStep =
    | Write(id: Id, payload: string)
    | Announce(id: Id)
    | Take(worker: nat, deadline: int)
    | Missed(deadline: int)
    | Finish(worker: nat, handled: bool)
    | Lost(worker: nat)

  /** The queue steps issued so far, and the job each busy worker holds. */
  datatype Pool = Pool(steps: seq<Step>, holding: map<nat, Id>)

  function PoolApply(max: int, p: Pool, step: PoolStep): Pool {
    match step
    case Write(id, payload) => p.(steps := p.steps + [Save(id, payload)])
    case Announce(id) => p.(steps := p.steps + [Push(id)])
    case Take(w, deadline) =>
      var s := Run(max, p.steps);
      var issued := p.(steps := p.steps + [Dequeue(deadline)]);
      if s.pending == [] then issued else issued.(holding := p.holding[w := s.pending[0]])
    case Missed(deadline) => p.(steps := p.steps + [Dequeue(deadline)])
    case Finish(w, handled) =>
      if w !in p.holding then p
      else
        var id := p.holding[w];
        Pool(p.steps + [if handled then Ack(id) else Nack(id)], p.holding - {w})
    case Lost(w) => p.(holding := p.holding - {w})
  }

  /** Enqueuers use a fresh id and store before pushing; a worker takes only when free. */
  ghost predicate PoolAllowed(p: Pool, step: PoolStep) {
    match step
    case Write(id, _) => id !in SavedIds(p.steps)
    case Announce(id) => id in SavedIds(p.steps) && id !in PushedIds(p.steps)
    case Take(w, _) => w !in p.holding
    case Missed(_) => true
    case Finish(w, _) => true
    case Lost(w) => true
  }

  function PoolRun(max: int, run: seq<PoolStep>): Pool {
    if run == [] then Pool([], map[]) else PoolApply(max, PoolRun(max, Front(run)), Last(run))
  }

  ghost predicate PoolLegal(max: int, run: seq<PoolStep>) {
    run == [] || (PoolLegal(max, Front(run)) && PoolAllowed(PoolRun(max, Front(run)), Last(run)))
  }

  ghost predicate HoldsProcessing(max: int, p: Pool) {
    && Disciplined(max, p.steps)
    && (forall w :: w in p.holding ==> p.holding[w] in Run(max, p.steps).processing)
    && (forall v, w :: v in p.holding && w in p.holding && v != w ==> p.holding[v] != p.holding[w])
  }

  /** Issuing a step that leaves the held jobs in processing keeps the picture. */
  lemma {:induction false} IssueKeeps(max: int, p: Pool, step: Step, holding: map<nat, Id>)
    requires HoldsProcessing(max, p) && Allowed(max, p.steps, step)
    requires forall w :: w in holding ==> holding[w] in Apply(Run(max, p.steps), max, step).processing
    requires forall v, w :: v in holding && w in holding && v != w ==> holding[v] != holding[w]
    ensures HoldsProcessing(max, Pool(p.steps + [step], holding))
  {
    FrontLast(p.steps, step);
    RunSnoc(max, p.steps, step);
  }

  lemma {:induction false} PendingIsNotTaken(max: int, steps: seq<Step>)
    requires Disciplined(max, steps) && Run(max, steps).pending != []
    ensures Run(max, steps).pending[0] !in Run(max, steps).processing
  {
    var s := Run(max, steps);
    OneHome(max, steps, s.pending[0]);
    HeldIsCounted(s, s.pending[0]);
  }

  lemma {:induction false} TakeKeeps(max: int, p: Pool, w: nat, deadline: int)
    requires HoldsProcessing(max, p) && w !in p.holding
    ensures HoldsProcessing(max, PoolApply(max, p, Take(w, deadline)))
  {
    var s := Run(max, p.steps);
    if s.pending != [] {
      var id := s.pending[0];
      PendingIsNotTaken(max, p.steps);
      IssueKeeps(max, p, Dequeue(deadline), p.holding[w := id]);
    } else {
      IssueKeeps(max, p, Dequeue(deadline), p.holding);
    }
  }

  lemma {:induction false} PoolKeeps(max: int, p: Pool, step: PoolStep)
    requires HoldsProcessing(max, p) && PoolAllowed(p, step)
    ensures HoldsProcessing(max, PoolApply(max, p, step))
  {
    match step
    case Write(id, payload) => IssueKeeps(max, p, Save(id, payload), p.holding);
    case Announce(id) => IssueKeeps(max, p, Push(id), p.holding);
    case Take(w, deadline) => TakeKeeps(max, p, w, deadline);
    case Missed(deadline) => IssueKeeps(max, p, Dequeue(deadline), p.holding);
    case Finish(w, handled) =>
      if w in p.holding {
        IssueKeeps(max, p, if handled then Ack(p.holding[w]) else Nack(p.holding[w]), p.holding - {w});
      }
    case Lost(w) =>
  }

  /** Any number of workers, any schedule, no Reap: every queue step they issue is within the
      discipline, and no two workers ever hold the same job. */
  lemma {:induction false} WorkersAreDisciplined(max: int, run: seq<PoolStep>)
    requires PoolLegal(max, run)
    ensures HoldsProcessing(max, PoolRun(max, run))
  {
    if run != [] {
      WorkersAreDisciplined(max, Front(run));
      PoolKeeps(max, PoolRun(max, Front(run)), Last(run));
    }
  }

  /** What a worker's take does: a Dequeue, and it holds the job delivered. */
  lemma {:induction false} TakeIsDequeue(max: int, p: Pool, w: nat, deadline: int)
    ensures Run(max, PoolApply(max, p, Take(w, deadline)).steps) == DequeueOne(Run(max, p.steps), deadline)
    ensures Run(max, p.steps).pending == [] ==> PoolApply(max, p, Take(w, deadline)).holding == p.holding
    ensures Run(max, p.steps).pending != [] ==>
              PoolApply(max, p, Take(w, deadline)).holding == p.holding[w := Run(max, p.steps).pending[0]]
  {
    RunSnoc(max, p.steps, Dequeue(deadline));
  }

  /** What its finish does: the Ack of a handled job or the Nack of a failed one, just as Process settles
      it, and it is free again. */
  lemma {:induction false} FinishIsProcess(max: int, p: Pool, w: nat, handled: bool)
    requires w in p.holding
    ensures Run(max, PoolApply(max, p, Finish(w, handled)).steps) ==
            if handled then AckJob(Run(max, p.steps), p.holding[w]) else NackJob(Run(max, p.steps), max, p.holding[w])
    ensures PoolApply(max, p, Finish(w, handled)).holding == p.holding - {w}
  {
    var id := p.holding[w];
    if handled {
      RunSnoc(max, p.steps, Ack(id));
    } else {
      RunSnoc(max, p.steps, Nack(id));
    }
  }

  lemma {:induction false} NacksStep(ids: seq<Id>, steps: seq<Step>)
    requires ids != []
    ensures steps + Nacks(ids) == (steps + Nacks(Front(ids))) + [Nack(Last(ids))]
  {
  }

  lemma {:induction false} OthersStay(max: int, steps: seq<Step>, expired: seq<Id>, id: Id)
    requires id in Run(max, steps).processing && id !in expired
    ensures id in Run(max, steps + Nacks(expired)).processing
    decreases |expired|
  {
    if expired == [] {
      assert steps + Nacks(expired) == steps;
    } else {
      OthersStay(max, steps, Front(expired), id);
      NacksStep(expired, steps);
      RunSnoc(max, steps + Nacks(Front(expired)), Nack(Last(expired)));
    }
  }

  /** A Reap whose Nacks are not overtaken by other steps is within the discipline too. */
  lemma {:induction false} ReapAloneIsDisciplined(max: int, steps: seq<Step>, expired: seq<Id>)
    requires Disciplined(max, steps) && Distinct(expired)
    requires forall id :: id in expired ==> id in Run(max, steps).processing
    ensures Disciplined(max, steps + Nacks(expired))
    decreases |expired|
  {
    if expired == [] {
      assert steps + Nacks(expired) == steps;
    } else {
      var rest, id := Front(expired), Last(expired);
      assert expired == rest + [id];
      ReapAloneIsDisciplined(max, steps, rest);
      OthersStay(max, steps, rest, id);
      NacksStep(expired, steps);
      FrontLast(steps + Nacks(rest), Nack(id));
    }
  }

  function Nacks(ids: seq<Id>): seq<Step> {
    seq(|ids|, i requires 0 <= i < |ids| => Nack(ids[i]))
  }

  // ---------------------------------------------------------------------------
  // The operations, in place
  // ---------------------------------------------------------------------------

  datatype Settings = Settings(maxAttempts: int, visibilityTimeout: int, pollInterval: int)

  const SECOND := 1_000_000_000

  function Normalize(o: Settings): (r: Settings)
    ensures r.maxAttempts == if o.maxAttempts > 0 then o.maxAttempts else 5
    ensures r.visibilityTimeout == if o.visibilityTimeout > 0 then o.visibilityTimeout else 30_000_000_000
    ensures r.pollInterval == if o.pollInterval > 0 then o.pollInterval else 200_000_000
  {
    Settings(
      if o.maxAttempts <= 0 then 5 else o.maxAttempts,
      if o.visibilityTimeout <= 0 then 30 * SECOND else o.visibilityTimeout,
      if o.pollInterval <= 0 then SECOND / 5 else o.pollInterval)
  }

  datatype Job = Job(id: Id, payload: string, attempts: int)

  /** Dequeue's three outcomes: nothing pending, a job, or an id whose hash has no attempts field. */
  datatype Taken = Nothing | Delivered(job: Job) | Unreadable(id: Id)

  datatype NackResult = NackResult(deadLettered: bool, attempts: int)

  /** What a ZRANGEBYSCORE -inf now over the visibility set may return: the expired ids, once each, by deadline. */
  ghost predicate IsScan(visibility: map<Id, int>, now: int, ids: seq<Id>) {
    && Distinct(ids)
    && (forall id :: id in ids <==> id in visibility && visibility[id] <= now)
    && (forall i, j :: 0 <= i < j < |ids| ==>
          ids[i] in visibility && ids[j] in visibility && visibility[ids[i]] <= visibility[ids[j]])
  }

  function NackAll(s: Store, max: int, ids: seq<Id>): Store {
    if ids == [] then s else NackJob(NackAll(s, max, Front(ids)), max, Last(ids))
  }

  lemma {:induction false} NackAllHides(s: Store, max: int, ids: seq<Id>)
    ensures forall id :: id in NackAll(s, max, ids).visibility <==> id in s.visibility && id !in ids
    ensures forall id :: id in NackAll(s, max, ids).visibility ==>
              NackAll(s, max, ids).visibility[id] == s.visibility[id]
  {
    if ids != [] {
      NackAllHides(s, max, Front(ids));
      assert ids == Front(ids) + [Last(ids)];
    }
  }

  /** after is visibility without the entries whose deadline has passed. */
  ghost predicate Unexpired(visibility: map<Id, int>, now: int, after: map<Id, int>) {
    && (forall id :: id in after <==> id in visibility && visibility[id] > now)
    && (forall id :: id in after ==> after[id] == visibility[id])
  }

  /** Nacking a whole scan hides exactly the expired ids. */
  lemma {:induction false} ReapHides(s: Store, max: int, now: int, expired: seq<Id>)
    requires IsScan(s.visibility, now, expired)
    ensures Unexpired(s.visibility, now, NackAll(s, max, expired).visibility)
  {
    NackAllHides(s, max, expired);
  }

  class Queue {
    const maxAttempts: int
    var pending: seq<Id>
    var processing: seq<Id>
    var visibility: map<Id, int>
    var deadLetter: seq<Id>
    var jobs: map<Id, JobHash>

    ghost function Contents(): Store
      reads this
    {
      Store(pending, processing, visibility, deadLetter, jobs)
    }

    constructor (o: Settings)
      ensures Contents() == EMPTY && maxAttempts == Normalize(o).maxAttempts
    {
      maxAttempts := Normalize(o).maxAttempts;
      pending, processing, visibility, deadLetter, jobs := [], [], map[], [], map[];
    }

    /** HSET of both fields, then a separate LPUSH. */
    method Enqueue(id: Id, payload: string)
      modifies this
      ensures Contents() == PushPending(SaveJob(old(Contents()), id, payload), id)
      ensures pending == old(pending) + [id] && jobs == old(jobs)[id := JobHash(Some(payload), 0)]
      ensures processing == old(processing) && visibility == old(visibility) && deadLetter == old(deadLetter)
    {
      jobs := jobs[id := JobHash(Some(payload), 0)];
      pending := pending + [id];
    }

    method TryDequeue(deadline: int) returns (r: Taken)
      modifies this
      ensures Contents() == DequeueOne(old(Contents()), deadline)
      ensures deadLetter == old(deadLetter) && jobs == old(jobs) && (r.Nothing? <==> old(pending) == [])
      ensures old(pending) == [] ==> Contents() == old(Contents())
      ensures old(pending) != [] ==>
                && old(pending) == [old(pending)[0]] + pending && processing == old(processing) + [old(pending)[0]]
                && visibility == old(visibility)[old(pending)[0] := deadline]
      ensures r.Delivered? ==> old(pending) != [] && r.job.id == old(pending)[0] && r.job.id in jobs
                               && r.job.attempts == jobs[r.job.id].attempts
                               && r.job.payload == (match jobs[r.job.id].payload case Some(p) => p case None => "")
      ensures r.Unreadable? ==> old(pending) != [] && r.id == old(pending)[0] && r.id !in jobs
    {
      if pending == [] {
        return Nothing;
      }
      var id := pending[0];
      pending := pending[1..];
      processing := processing + [id];
      visibility := visibility[id := deadline];
      if id !in jobs {
        return Unreadable(id);
      }
      var payload := match jobs[id].payload case Some(p) => p case None => "";
      r := Delivered(Job(id, payload, jobs[id].attempts));
    }

    method Ack(id: Id)
      modifies this
      ensures Contents() == AckJob(old(Contents()), id)
    {
      processing := Without(processing, id);
      visibility := visibility - {id};
      jobs := jobs - {id};
    }

    method Nack(id: Id) returns (r: NackResult)
      modifies this
      ensures Contents() == NackJob(old(Contents()), maxAttempts, id)
      ensures r.attempts == jobs[id].attempts
      ensures r.deadLettered <==> deadLetter == old(deadLetter) + [id]
      ensures !r.deadLettered <==> pending == old(pending) + [id]
    {
      processing := Without(processing, id);
      visibility := visibility - {id};
      jobs := jobs[id := Incremented(jobs, id)];
      r := NackResult(jobs[id].attempts >= maxAttempts, jobs[id].attempts);
      if r.deadLettered {
        deadLetter := deadLetter + [id];
      } else {
        pending := pending + [id];
      }
    }

    /** Reap run without interference; its Nack number failsAt fails and ends it. When none does,
        every expired id leaves processing and nothing else does. */
    method Reap(now: int, expired: seq<Id>, failsAt: nat) returns (ok: bool, count: nat)
      requires IsScan(visibility, now, expired)
      modifies this
      ensures ok <==> failsAt >= |expired|
      ensures count == if ok then |expired| else 0
      ensures Contents() == NackAll(old(Contents()), maxAttempts, if ok then expired else expired[..failsAt])
      ensures ok ==> Unexpired(old(visibility), now, visibility)
    {
      for i := 0 to |expired|
        invariant i <= failsAt && Contents() == NackAll(old(Contents()), maxAttempts, expired[..i])
      {
        if i == failsAt {
          return false, 0;
        }
        assert expired[..i + 1] == expired[..i] + [expired[i]];
        FrontLast(expired[..i], expired[i]);
        var _ := Nack(expired[i]);
      }
      assert expired[..|expired|] == expired;
      ReapHides(old(Contents()), maxAttempts, now, expired);
      ok, count := true, |expired|;
    }
  }

  /** A worker settles each job it dequeued with exactly one Ack or one Nack. */
  method Process(q: Queue, job: Job, handled: bool) returns (deadLettered: bool)
    modifies q
    ensures q.Contents() == if handled then AckJob(old(q.Contents()), job.id)
                            else NackJob(old(q.Contents()), q.maxAttempts, job.id)
    ensures deadLettered ==> !handled && job.id in q.deadLetter
  {
    deadLettered := false;
    if handled {
      q.Ack(job.id);
    } else {
      var r := q.Nack(job.id);
      deadLettered := r.deadLettered;
    }
  }
}
