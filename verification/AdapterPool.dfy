/** The LoRA adapter pool: which adapters are resident on a live engine, bounded to a fixed
    number of slots, with the router's resident set kept in step. order is least recently used first. */
module AdapterPool {
  import opened Common

  /** order as the pool keeps it, the router's resident set, and what the engine really has loaded. */
  datatype State = State(order: seq<string>, resident: set<string>, loaded: set<string>)

  const EMPTY := State([], {}, {})

  /** One Acquire and the answers the engine would give to an unload and a load. A failed
      engine call changes nothing on the engine. */
  datatype Request = Request(name: string, unloadOk: bool, loadOk: bool)

  datatype Outcome = Ok | NoSlots | UnloadFailed | LoadFailed

  function Touched(order: seq<string>, name: string): seq<string> {
    Without(order, name) + [name]
  }

  function Acquired(s: State, slots: int, r: Request): (State, Outcome) {
    if slots <= 0 then (s, NoSlots)
    else if r.name in s.order then (s.(order := Touched(s.order, r.name)), Ok)
    else if |s.order| >= slots && !r.unloadOk then (s, UnloadFailed)
    else
      var room := if |s.order| >= slots
                  then var lru := s.order[0]; State(s.order[1..], s.resident - {lru}, s.loaded - {lru})
                  else s;
      if !r.loadOk then (room, LoadFailed)
      else (State(room.order + [r.name], room.resident + {r.name}, room.loaded + {r.name}), Ok)
  }

  function Run(slots: int, requests: seq<Request>): State {
    if requests == [] then EMPTY else Acquired(Run(slots, Front(requests)), slots, Last(requests)).0
  }

  /** The three views agree, nothing is resident twice, and the slot limit holds. */
  ghost predicate Consistent(s: State, slots: int) {
    && Distinct(s.order)
    && (forall name :: name in s.order <==> name in s.resident)
    && s.resident == s.loaded
    && (slots > 0 ==> |s.order| <= slots)
  }

  lemma {:induction false} TouchKeeps(order: seq<string>, name: string)
    requires Distinct(order) && name in order
    ensures Distinct(Touched(order, name)) && |Touched(order, name)| == |order|
    ensures forall x :: x in Touched(order, name) <==> x in order
  {
    var k :| 0 <= k < |order| && order[k] == name;
    WithoutDistinct(order, name);
    WithoutAt(order, k);
  }

  lemma {:induction false} TailKeeps(order: seq<string>)
    requires Distinct(order) && order != []
    ensures Distinct(order[1..])
    ensures forall x :: x in order[1..] <==> x in order && x != order[0]
  {
    assert order == [order[0]] + order[1..];
  }

  lemma {:induction false} ConsistentStep(s: State, slots: int, r: Request)
    requires Consistent(s, slots)
    ensures Consistent(Acquired(s, slots, r).0, slots)
  {
    if slots > 0 {
      if r.name in s.order {
        TouchKeeps(s.order, r.name);
      } else if |s.order| >= slots {
        TailKeeps(s.order);
      }
    }
  }

  /** An Acquire succeeds exactly when its adapter ends up loaded, and then it is the most
      recently used; when the eviction fails, nothing changes. */
  lemma {:induction false} OutcomeIsTruth(slots: int, requests: seq<Request>, r: Request)
    requires slots > 0
    ensures var (s', outcome) := Acquired(Run(slots, requests), slots, r);
            && (outcome == Ok <==> r.name in s'.loaded)
            && (outcome == Ok ==> s'.order != [] && Last(s'.order) == r.name)
            && (outcome == UnloadFailed ==> s' == Run(slots, requests))
  {
    ViewsAgree(slots, requests);
  }

  /** Whatever fails and whenever: the pool's order, the router's resident set and the engine's
      loaded set agree after every run, without duplicates and within the slots. */
  lemma {:induction false} ViewsAgree(slots: int, requests: seq<Request>)
    ensures Consistent(Run(slots, requests), slots)
  {
    if requests != [] {
      ViewsAgree(slots, Front(requests));
      ConsistentStep(Run(slots, Front(requests)), slots, Last(requests));
    }
  }

  /** Which answer: found or loaded, or the first thing that went wrong. */
  predicate OutcomeRight(order: seq<string>, slots: int, r: Request, outcome: Outcome) {
    && (outcome == NoSlots <==> slots <= 0)
    && (outcome == UnloadFailed <==> slots > 0 && r.name !in order && |order| >= slots && !r.unloadOk)
    && (outcome == LoadFailed <==>
        slots > 0 && r.name !in order && (|order| >= slots ==> r.unloadOk) && !r.loadOk)
  }

  /** When an Acquire gives something up: a full pool lacks the adapter, and the victim unloads. */
  predicate Evicts(order: seq<string>, slots: int, r: Request) {
    slots > 0 && order != [] && r.name !in order && |order| >= slots && r.unloadOk
  }

  /** rest is order without name, nothing else moved. */
  ghost predicate KeepsPlaces(order: seq<string>, rest: seq<string>, name: string) {
    exists k :: 0 <= k < |order| && order[k] == name && rest == order[..k] + order[k + 1..]
  }

  /** Only the least recently used one is ever given up; the adapter asked for, if it got in, is last;
      the rest keep their places. */
  ghost predicate OrderRight(order: seq<string>, slots: int, r: Request, order': seq<string>, ok: bool) {
    if ok && r.name in order then
      order' != [] && Last(order') == r.name && KeepsPlaces(order, Front(order'), r.name)
    else
      var kept := if Evicts(order, slots, r) then order[1..] else order;
      order' == if ok then kept + [r.name] else kept
  }

  ghost predicate LoadedRight(s: State, slots: int, r: Request, loaded': set<string>, ok: bool) {
    loaded' == (if Evicts(s.order, slots, r) then s.loaded - {s.order[0]} else s.loaded) + (if ok then {r.name} else {})
  }

  /** What one Acquire did, as a caller can observe it. */
  ghost predicate AcquiredRight(s: State, slots: int, r: Request, s': State, outcome: Outcome) {
    && OutcomeRight(s.order, slots, r, outcome)
    && LoadedRight(s, slots, r, s'.loaded, outcome == Ok)
    && OrderRight(s.order, slots, r, s'.order, outcome == Ok)
  }

  lemma {:induction false} LoadedIsRight(s: State, slots: int, r: Request)
    requires r.name in s.order ==> r.name in s.loaded
    ensures LoadedRight(s, slots, r, Acquired(s, slots, r).0.loaded, Acquired(s, slots, r).1 == Ok)
  {
  }

  lemma {:induction false} OrderIsRight(s: State, slots: int, r: Request)
    requires Distinct(s.order)
    ensures OrderRight(s.order, slots, r, Acquired(s, slots, r).0.order, Acquired(s, slots, r).1 == Ok)
  {
    if slots > 0 && r.name in s.order {
      var k :| 0 <= k < |s.order| && s.order[k] == r.name;
      WithoutAt(s.order, k);
      FrontLast(Without(s.order, r.name), r.name);
    }
  }

  lemma {:induction false} StepIsRight(s: State, slots: int, r: Request)
    requires Consistent(s, slots)
    ensures AcquiredRight(s, slots, r, Acquired(s, slots, r).0, Acquired(s, slots, r).1)
  {
    LoadedIsRight(s, slots, r);
    OrderIsRight(s, slots, r);
  }

  /** Each Acquire, after any run of successes and failures, does exactly that; so a failed load on a
      pool with a free slot changes nothing, and on a full one only the least recently used is gone. */
  lemma {:induction false} EachAcquireIsRight(slots: int, requests: seq<Request>, r: Request)
    ensures var s := Run(slots, requests);
            var (s', outcome) := Acquired(s, slots, r);
            && AcquiredRight(s, slots, r, s', outcome) && Consistent(s', slots)
            && (outcome == LoadFailed && |s.order| < slots ==> s' == s)
            && (outcome == LoadFailed && |s.order| >= slots ==> s'.order == s.order[1..])
            && (outcome == NoSlots || outcome == UnloadFailed ==> s' == s)
  {
    var s := Run(slots, requests);
    ViewsAgree(slots, requests);
    StepIsRight(s, slots, r);
    ConsistentStep(s, slots, r);
  }

  // ---------------------------------------------------------------------------
  // The LRU stack theorem
  // ---------------------------------------------------------------------------

  /** The position of the last acquisition of name, or -1. */
  function LastUse(names: seq<string>, name: string): (r: int)
    ensures -1 <= r < |names|
    ensures r >= 0 <==> name in names
    ensures r >= 0 ==> names[r] == name
  {
    if names == [] then -1
    else
      assert names == Front(names) + [Last(names)];
      if Last(names) == name then |names| - 1 else LastUse(Front(names), name)
  }

  /** The distinct names of a history, by last use, oldest first. */
  function Stack(names: seq<string>): seq<string> {
    if names == [] then [] else Touched(Stack(Front(names)), Last(names))
  }

  ghost predicate ByLastUse(names: seq<string>, s: seq<string>) {
    forall i, j :: 0 <= i < j < |s| ==> LastUse(names, s[i]) < LastUse(names, s[j])
  }

  /** Stack is what its name says: exactly the names acquired, each once, sorted by last use. */
  lemma {:induction false} StackIsByLastUse(names: seq<string>)
    ensures forall name :: name in Stack(names) <==> name in names
    ensures ByLastUse(names, Stack(names))
  {
    if names != [] {
      var before, name := Front(names), Last(names);
      StackIsByLastUse(before);
      assert names == before + [name];
      var rest := Without(Stack(before), name);
      SortedWithout(before, Stack(before), name);
      forall i | 0 <= i < |rest|
        ensures LastUse(names, rest[i]) == LastUse(before, rest[i])
      {
        assert rest[i] in rest;
      }
      assert LastUse(names, name) == |before|;
      assert Stack(names) == rest + [name];
    }
  }

  lemma {:induction false} SortedWithout(names: seq<string>, s: seq<string>, name: string)
    requires ByLastUse(names, s)
    ensures ByLastUse(names, Without(s, name))
  {
    if s != [] {
      SortedWithout(names, s[1..], name);
      var rest := Without(s[1..], name);
      forall j | 0 <= j < |rest|
        ensures LastUse(names, s[0]) < LastUse(names, rest[j])
      {
        assert rest[j] in s[1..];
      }
      assert Without(s, name) == (if s[0] == name then [] else [s[0]]) + rest;
    }
  }

  /** The k most recent entries of a stack. */
  function Top(s: seq<string>, k: nat): seq<string> {
    if |s| <= k then s else s[|s| - k..]
  }

  function Succeeding(names: seq<string>): seq<Request> {
    seq(|names|, i requires 0 <= i < |names| => Request(names[i], true, true))
  }

  /** The order of a slots-sized pool after a failure-free history. */
  function Order(slots: int, names: seq<string>): seq<string> {
    Run(slots, Succeeding(names)).order
  }

  lemma {:induction false} OrderStep(slots: int, names: seq<string>)
    requires slots > 0 && names != []
    ensures var before, name := Order(slots, Front(names)), Last(names);
            Order(slots, names) == if name in before then Touched(before, name)
                                   else if |before| >= slots then before[1..] + [name]
                                   else before + [name]
  {
    assert Front(Succeeding(names)) == Succeeding(Front(names));
    assert Last(Succeeding(names)) == Request(Last(names), true, true);
  }

  lemma {:induction false} TouchInside(low: seq<string>, top: seq<string>, name: string)
    requires Distinct(low + top) && name in top
    ensures Touched(low + top, name) == low + Touched(top, name)
    ensures |Touched(top, name)| == |top|
  {
    DistinctConcat(low, top);
    WithoutConcat(low, top, name);
    TouchKeeps(top, name);
  }

  lemma {:induction false} TouchOutside(low: seq<string>, top: seq<string>, name: string)
    requires Distinct(low + top) && name !in top
    ensures Touched(low + top, name) == Without(low, name) + top + [name]
    ensures |Without(low, name)| == |low| - if name in low then 1 else 0
  {
    WithoutConcat(low, top, name);
    if name in low {
      var i :| 0 <= i < |low| && low[i] == name;
      DistinctConcat(low, top);
      WithoutAt(low, i);
    }
  }

  lemma {:induction false} TopConcat(a: seq<string>, b: seq<string>)
    ensures Top(a + b, |b|) == b
  {
  }

  lemma {:induction false} ShiftIn(rest: seq<string>, top: seq<string>, name: string)
    requires top != []
    ensures Top(rest + top + [name], |top|) == top[1..] + [name]
  {
    assert rest + top + [name] == (rest + [top[0]]) + (top[1..] + [name]);
    TopConcat(rest + [top[0]], top[1..] + [name]);
  }

  /** Touching a name that is in the top k keeps the top k; touching another one shifts it in. */
  lemma {:induction false} TopTouched(s: seq<string>, k: nat, name: string)
    requires Distinct(s) && k > 0
    ensures Top(Touched(s, name), k) ==
            if name in Top(s, k) then Touched(Top(s, k), name)
            else if |Top(s, k)| >= k then Top(s, k)[1..] + [name]
            else Top(s, k) + [name]
  {
    if |s| < k {
      if name in s {
        TouchKeeps(s, name);
      } else {
        TouchOutside([], s, name);
        assert [] + s == s;
      }
    } else {
      var low, top := s[..|s| - k], s[|s| - k..];
      assert s == low + top && Top(s, k) == top;
      if name in top {
        TouchInside(low, top, name);
        TopConcat(low, Touched(top, name));
      } else {
        TouchOutside(low, top, name);
        ShiftIn(Without(low, name), top, name);
      }
    }
  }

  /** A pool of k slots holds exactly the k most recently acquired distinct names, oldest first. */
  lemma {:induction false} PoolIsTopOfStack(k: nat, names: seq<string>)
    requires k > 0
    ensures Order(k, names) == Top(Stack(names), k)
  {
    if names != [] {
      PoolIsTopOfStack(k, Front(names));
      OrderStep(k, names);
      StackIsByLastUse(Front(names));
      TopTouched(Stack(Front(names)), k, Last(names));
    }
  }

  /** How many Acquires of the history had to load. */
  function Loads(slots: int, names: seq<string>): nat {
    if names == [] then 0
    else Loads(slots, Front(names)) + if Last(names) in Order(slots, Front(names)) then 0 else 1
  }

  lemma {:induction false} TopIsSuffix(s: seq<string>, k: nat, m: nat)
    requires k <= m
    ensures |Top(s, k)| <= |Top(s, m)| && Top(s, k) == Top(s, m)[|Top(s, m)| - |Top(s, k)|..]
  {
  }

  /** Inclusion: a smaller pool's order is a suffix of a larger one's, at every point. */
  lemma {:induction false} SmallerIsSuffix(k: nat, m: nat, names: seq<string>)
    requires 0 < k <= m
    ensures |Order(k, names)| <= |Order(m, names)|
    ensures Order(k, names) == Order(m, names)[|Order(m, names)| - |Order(k, names)|..]
  {
    PoolIsTopOfStack(k, names);
    PoolIsTopOfStack(m, names);
    TopIsSuffix(Stack(names), k, m);
  }

  /** So more slots never cost more loads. */
  lemma {:induction false} MoreSlotsNeverHurt(k: nat, m: nat, names: seq<string>)
    requires 0 < k <= m
    ensures Loads(m, names) <= Loads(k, names)
  {
    if names != [] {
      MoreSlotsNeverHurt(k, m, Front(names));
      SmallerIsSuffix(k, m, Front(names));
      var small, large := Order(k, Front(names)), Order(m, Front(names));
      if Last(names) in small {
        assert Last(names) in large[|large| - |small|..];
      }
    }
  }

  // ---------------------------------------------------------------------------
  // The pool and the router, in place
  // ---------------------------------------------------------------------------

  class Router {
    const baseModel: string
    var resident: map<string, bool>

    constructor (baseModel: string)
      ensures this.baseModel == baseModel && resident == map[]
    {
      this.baseModel, resident := baseModel, map[];
    }

    ghost function Residents(): set<string>
      reads this
    {
      set name | name in resident && resident[name]
    }

    /** The base model always resolves; anything else only while resident. */
    method Resolve(requested: string) returns (target: Option<string>)
      ensures target == if requested == baseModel || requested in Residents() then Some(requested) else None
    {
      if requested == baseModel {
        return Some(baseModel);
      }
      if requested in resident && resident[requested] {
        return Some(requested);
      }
      target := None;
    }

    method MarkLoaded(name: string)
      modifies this
      ensures Residents() == old(Residents()) + {name}
    {
      resident := resident[name := true];
    }

    method MarkUnloaded(name: string)
      modifies this
      ensures Residents() == old(Residents()) - {name}
    {
      resident := resident - {name};
    }
  }

  /** The engine's hot-swap calls: each either takes effect or fails leaving the engine as it was. */
  class Engine {
    ghost var loaded: set<string>

    constructor ()
      ensures loaded == {}
    {
      loaded := {};
    }

    method Load(name: string, succeeds: bool) returns (ok: bool)
      modifies this
      ensures ok == succeeds && loaded == if ok then old(loaded) + {name} else old(loaded)
    {
      ok := succeeds;
      if ok {
        loaded := loaded + {name};
      }
    }

    method Unload(name: string, succeeds: bool) returns (ok: bool)
      modifies this
      ensures ok == succeeds && loaded == if ok then old(loaded) - {name} else old(loaded)
    {
      ok := succeeds;
      if ok {
        loaded := loaded - {name};
      }
    }
  }

  method IndexOf(s: seq<string>, v: string) returns (k: int)
    ensures k == -1 <==> v !in s
    ensures k != -1 ==> 0 <= k < |s| && s[k] == v && v !in s[..k]
  {
    for i := 0 to |s|
      invariant v !in s[..i]
    {
      if s[i] == v {
        return i;
      }
    }
    k := -1;
  }

  class Pool {
    const maxSlots: int
    const router: Router
    const engine: Engine
    var order: seq<string>

    constructor (maxSlots: int, router: Router, engine: Engine)
      ensures this.maxSlots == maxSlots && this.router == router && this.engine == engine && order == []
    {
      this.maxSlots, this.router, this.engine, order := maxSlots, router, engine, [];
    }

    ghost function Contents(): State
      reads this, router, engine
    {
      State(order, router.Residents(), engine.loaded)
    }

    method Acquire(r: Request) returns (outcome: Outcome)
      requires Distinct(order)
      modifies this, router, engine
      ensures (Contents(), outcome) == Acquired(old(Contents()), maxSlots, r)
      ensures old(Consistent(Contents(), maxSlots)) ==>
                Consistent(Contents(), maxSlots) && AcquiredRight(old(Contents()), maxSlots, r, Contents(), outcome)
    {
      ghost var before := Contents();
      if Consistent(before, maxSlots) {
        ConsistentStep(before, maxSlots, r);
        StepIsRight(before, maxSlots, r);
      }
      if maxSlots <= 0 {
        return NoSlots;
      }
      var idx := IndexOf(order, r.name);
      if idx >= 0 {
        WithoutAt(order, idx);
        order := order[..idx] + order[idx + 1..];
        order := order + [r.name];
        return Ok;
      }
      if |order| >= maxSlots {
        var lru := order[0];
        var unloaded := engine.Unload(lru, r.unloadOk);
        if !unloaded {
          return UnloadFailed;
        }
        router.MarkUnloaded(lru);
        order := order[1..];
      }
      var loaded := engine.Load(r.name, r.loadOk);
      if !loaded {
        return LoadFailed;
      }
      router.MarkLoaded(r.name);
      order := order + [r.name];
      outcome := Ok;
    }
  }
}
