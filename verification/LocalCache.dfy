/** The worker node's on-disk artifact cache: size-bounded, least recently used first out,
    reference counted. The list is written front first, front being most recently used. */
module LocalCache {
  import opened Common

  datatype Item = Item(key: string, path: string, size: int, refs: nat)

  datatype Error = InsufficientCapacity | NotFound | NotReferenced

  function Bytes(items: seq<Item>): int {
    if items == [] then 0 else Bytes(Front(items)) + Last(items).size
  }

  predicate Has(items: seq<Item>, key: string) {
    exists i :: 0 <= i < |items| && items[i].key == key
  }

  ghost predicate DistinctKeys(items: seq<Item>) {
    forall i, j :: 0 <= i < j < |items| ==> items[i].key != items[j].key
  }

  ghost predicate NonNegative(items: seq<Item>) {
    forall i :: 0 <= i < |items| ==> items[i].size >= 0
  }

  /** The items not under key. */
  function Drop(items: seq<Item>, key: string): seq<Item> {
    if items == [] then []
    else if Last(items).key == key then Drop(Front(items), key)
    else Drop(Front(items), key) + [Last(items)]
  }

  /** The items that back a live allocation. */
  function Referenced(items: seq<Item>): seq<Item> {
    if items == [] then []
    else if Last(items).refs == 0 then Referenced(Front(items))
    else Referenced(Front(items)) + [Last(items)]
  }

  function FreeCount(items: seq<Item>): nat {
    if items == [] then 0 else FreeCount(Front(items)) + if Last(items).refs == 0 then 1 else 0
  }

  /** items without its k least recently used unreferenced members. */
  function EvictOldest(items: seq<Item>, k: nat): seq<Item> {
    if items == [] then []
    else if Last(items).refs == 0 && k > 0 then EvictOldest(Front(items), k - 1)
    else EvictOldest(Front(items), k) + [Last(items)]
  }

  lemma {:induction false} EvictCount(items: seq<Item>, k: nat)
    ensures FreeCount(EvictOldest(items, k)) == if k <= FreeCount(items) then FreeCount(items) - k else 0
  {
    if items != [] {
      if Last(items).refs == 0 && k > 0 {
        EvictCount(Front(items), k - 1);
      } else {
        EvictCount(Front(items), k);
        FrontLast(EvictOldest(Front(items), k), Last(items));
      }
    }
  }

  datatype Outcome = Outcome(items: seq<Item>, error: Option<Error>)

  /** Evict one victim at a time until size more bytes fit; a limit of 0 or less is no limit. */
  function EvictUntilFits(items: seq<Item>, max: int, size: int): Outcome
    decreases FreeCount(items)
  {
    if max <= 0 || Bytes(items) + size <= max then Outcome(items, None)
    else if FreeCount(items) == 0 then Outcome(items, Some(InsufficientCapacity))
    else
      EvictCount(items, 1);
      EvictUntilFits(EvictOldest(items, 1), max, size)
  }

  function PutItem(items: seq<Item>, max: int, key: string, path: string, size: int): Outcome {
    var r := EvictUntilFits(Drop(items, key), max, size);
    if r.error.Some? then r else Outcome([Item(key, path, size, 0)] + r.items, None)
  }

  function IndexOf(items: seq<Item>, key: string): (r: int)
    ensures r == -1 <==> !Has(items, key)
    ensures r != -1 ==> 0 <= r < |items| && items[r].key == key
  {
    if items == [] then -1
    else if Last(items).key == key then |items| - 1
    else
      assert forall i :: 0 <= i < |items| - 1 ==> Front(items)[i] == items[i];
      IndexOf(Front(items), key)
  }

  function MoveToFront(items: seq<Item>, key: string): seq<Item> {
    var i := IndexOf(items, key);
    if i == -1 then items else [items[i]] + Drop(items, key)
  }

  function AcquireItem(items: seq<Item>, key: string): seq<Item> {
    var i := IndexOf(items, key);
    if i == -1 then items else items[i := items[i].(refs := items[i].refs + 1)]
  }

  function ReleaseItem(items: seq<Item>, key: string): seq<Item> {
    var i := IndexOf(items, key);
    if i == -1 || items[i].refs == 0 then items else items[i := items[i].(refs := items[i].refs - 1)]
  }

  // ---------------------------------------------------------------------------
  // Membership
  // ---------------------------------------------------------------------------

  lemma {:induction false} InDrop(items: seq<Item>, key: string, e: Item)
    ensures e in Drop(items, key) <==> e in items && e.key != key
  {
    if items != [] {
      InDrop(Front(items), key, e);
      Snoc(items);
    }
  }

  /** Eviction only removes, and never a referenced item. */
  lemma {:induction false} InEvict(items: seq<Item>, k: nat, e: Item)
    ensures e in EvictOldest(items, k) ==> e in items
    ensures e in items && e.refs > 0 ==> e in EvictOldest(items, k)
  {
    if items != [] {
      Snoc(items);
      if Last(items).refs == 0 && k > 0 {
        InEvict(Front(items), k - 1, e);
      } else {
        InEvict(Front(items), k, e);
      }
    }
  }

  lemma {:induction false} InEvictUntil(items: seq<Item>, max: int, size: int, e: Item)
    ensures e in EvictUntilFits(items, max, size).items ==> e in items
    ensures e in items && e.refs > 0 ==> e in EvictUntilFits(items, max, size).items
    decreases FreeCount(items)
  {
    if !(max <= 0 || Bytes(items) + size <= max) && FreeCount(items) > 0 {
      EvictCount(items, 1);
      InEvict(items, 1, e);
      InEvictUntil(EvictOldest(items, 1), max, size, e);
    }
  }

  /** Put adds the new item at most, and loses nothing that is referenced but key's own entry. */
  lemma {:induction false} InPut(items: seq<Item>, max: int, key: string, path: string, size: int, e: Item)
    ensures var r := PutItem(items, max, key, path, size);
            && (e in r.items ==> (r.error.None? && e == Item(key, path, size, 0)) || (e in items && e.key != key))
            && (e in items && e.key != key && e.refs > 0 ==> e in r.items)
  {
    InDrop(items, key, e);
    InEvictUntil(Drop(items, key), max, size, e);
  }

  // ---------------------------------------------------------------------------
  // Put is exact
  // ---------------------------------------------------------------------------

  lemma {:induction false} EvictKeepsLast(items: seq<Item>, k: nat)
    requires items != [] && (k == 0 || Last(items).refs > 0)
    ensures EvictOldest(items, k) == EvictOldest(Front(items), k) + [Last(items)]
  {
  }

  lemma {:induction false} EvictNone(items: seq<Item>)
    ensures EvictOldest(items, 0) == items
  {
    if items != [] {
      EvictNone(Front(items));
      EvictKeepsLast(items, 0);
      Snoc(items);
    }
  }

  /** Evicting one and then k is evicting k + 1. */
  lemma {:induction false} EvictCompose(items: seq<Item>, k: nat)
    ensures EvictOldest(EvictOldest(items, 1), k) == EvictOldest(items, k + 1)
  {
    if items != [] {
      if Last(items).refs == 0 {
        EvictNone(Front(items));
      } else {
        EvictCompose(Front(items), k);
        FrontLast(EvictOldest(Front(items), 1), Last(items));
      }
    }
  }

  lemma {:induction false} EvictAll(items: seq<Item>)
    ensures EvictOldest(items, FreeCount(items)) == Referenced(items)
  {
    if items != [] {
      EvictAll(Front(items));
    }
  }

  /** k evictions make room for size more bytes and no fewer do. */
  ghost predicate LeastFit(items: seq<Item>, max: int, size: int, k: nat) {
    && k <= FreeCount(items)
    && Bytes(EvictOldest(items, k)) + size <= max
    && forall j :: 0 <= j < k ==> Bytes(EvictOldest(items, j)) + size > max
  }

  /** No number of evictions makes room. */
  ghost predicate NoFit(items: seq<Item>, max: int, size: int) {
    forall k :: 0 <= k <= FreeCount(items) ==> Bytes(EvictOldest(items, k)) + size > max
  }

  lemma {:induction false} NoFitShift(items: seq<Item>, max: int, size: int)
    requires FreeCount(items) > 0 && Bytes(items) + size > max
    requires NoFit(EvictOldest(items, 1), max, size)
    ensures NoFit(items, max, size)
  {
    EvictCount(items, 1);
    forall k | 0 <= k <= FreeCount(items)
      ensures Bytes(EvictOldest(items, k)) + size > max
    {
      NoFitAt(items, max, size, k);
    }
  }

  lemma {:induction false} NoFitAt(items: seq<Item>, max: int, size: int, k: nat)
    requires Bytes(items) + size > max
    requires k > 0 ==> Bytes(EvictOldest(EvictOldest(items, 1), k - 1)) + size > max
    ensures Bytes(EvictOldest(items, k)) + size > max
  {
    if k == 0 {
      EvictNone(items);
    } else {
      EvictCompose(items, k - 1);
    }
  }

  lemma {:induction false} LeastFitShift(items: seq<Item>, max: int, size: int, k: nat)
    requires FreeCount(items) > 0 && Bytes(items) + size > max
    requires LeastFit(EvictOldest(items, 1), max, size, k)
    ensures LeastFit(items, max, size, k + 1)
    ensures EvictOldest(items, k + 1) == EvictOldest(EvictOldest(items, 1), k)
  {
    EvictCount(items, 1);
    EvictCompose(items, k);
    forall j | 0 <= j < k + 1
      ensures Bytes(EvictOldest(items, j)) + size > max
    {
      NoFitAt(items, max, size, j);
    }
  }

  /** The survivors are those of the least k that makes room; or no k does, and they are exactly
      the referenced items. */
  ghost predicate Minimal(items: seq<Item>, max: int, size: int, r: Outcome) {
    if r.error.Some?
    then r == Outcome(Referenced(items), Some(InsufficientCapacity)) && NoFit(items, max, size)
    else exists k: nat :: LeastFit(items, max, size, k) && r.items == EvictOldest(items, k)
  }

  lemma {:induction false} MinimalShift(items: seq<Item>, max: int, size: int, r: Outcome)
    requires FreeCount(items) > 0 && Bytes(items) + size > max
    requires Minimal(EvictOldest(items, 1), max, size, r)
    ensures Minimal(items, max, size, r)
  {
    var rest := EvictOldest(items, 1);
    if r.error.Some? {
      NoFitShift(items, max, size);
      SameReferenced(items);
    } else {
      var k: nat :| LeastFit(rest, max, size, k) && r.items == EvictOldest(rest, k);
      LeastFitShift(items, max, size, k);
      assert LeastFit(items, max, size, k + 1) && r.items == EvictOldest(items, k + 1);
    }
  }

  lemma {:induction false} SameReferenced(items: seq<Item>)
    requires FreeCount(items) > 0
    ensures Referenced(EvictOldest(items, 1)) == Referenced(items)
  {
    EvictCount(items, 1);
    EvictAll(items);
    EvictAll(EvictOldest(items, 1));
    EvictCompose(items, FreeCount(items) - 1);
  }

  lemma {:induction false} MinimalNever(items: seq<Item>, max: int, size: int)
    requires FreeCount(items) == 0 && Bytes(items) + size > max
    ensures Minimal(items, max, size, Outcome(items, Some(InsufficientCapacity)))
  {
    EvictNone(items);
    EvictAll(items);
    assert Referenced(items) == items;
    forall k | 0 <= k <= FreeCount(items)
      ensures Bytes(EvictOldest(items, k)) + size > max
    {
      assert k == 0;
    }
  }

  /** Eviction is minimal, for sizes of either sign. */
  lemma {:induction false} EvictionIsMinimal(items: seq<Item>, max: int, size: int)
    requires max > 0
    ensures Minimal(items, max, size, EvictUntilFits(items, max, size))
    decreases FreeCount(items)
  {
    if Bytes(items) + size <= max {
      EvictNone(items);
      assert LeastFit(items, max, size, 0);
    } else if FreeCount(items) == 0 {
      MinimalNever(items, max, size);
    } else {
      EvictCount(items, 1);
      EvictionIsMinimal(EvictOldest(items, 1), max, size);
      MinimalShift(items, max, size, EvictUntilFits(EvictOldest(items, 1), max, size));
    }
  }

  lemma {:induction false} ReferencedIsSmallest(items: seq<Item>, k: nat)
    requires NonNegative(items)
    ensures Bytes(Referenced(items)) <= Bytes(EvictOldest(items, k)) <= Bytes(items)
  {
    if items != [] {
      assert NonNegative(Front(items));
      FrontLast(Referenced(Front(items)), Last(items));
      if Last(items).refs == 0 && k > 0 {
        ReferencedIsSmallest(Front(items), k - 1);
      } else {
        ReferencedIsSmallest(Front(items), k);
        FrontLast(EvictOldest(Front(items), k), Last(items));
      }
    }
  }

  /** Put's exact behaviour on a bounded cache: it fails if and only if the incoming bytes plus
      those of the referenced entries other than key's exceed the limit. Success keeps all but
      key's old entry and the shortest run of cold unreferenced entries; failure keeps the
      referenced entries, except key's own. */
  lemma {:induction false} PutExact(items: seq<Item>, max: int, key: string, path: string, size: int)
    requires max > 0 && NonNegative(items) && size >= 0
    ensures var r, others := PutItem(items, max, key, path, size), Drop(items, key);
            && (r.error.Some? <==> size + Bytes(Referenced(others)) > max)
            && (r.error.Some? ==> r.error == Some(InsufficientCapacity) && r.items == Referenced(others))
            && (r.error.None? ==> exists k: nat :: LeastFit(others, max, size, k)
                                              && r.items == [Item(key, path, size, 0)] + EvictOldest(others, k))
  {
    var others := Drop(items, key);
    assert NonNegative(others) by {
      forall i | 0 <= i < |others|
        ensures others[i].size >= 0
      {
        InDrop(items, key, others[i]);
      }
    }
    EvictionIsMinimal(others, max, size);
    EvictAll(others);
    var r := EvictUntilFits(others, max, size);
    if r.error.None? {
      var k: nat :| LeastFit(others, max, size, k) && r.items == EvictOldest(others, k);
      ReferencedIsSmallest(others, k);
    } else {
      assert Bytes(EvictOldest(others, FreeCount(others))) + size > max;
    }
  }

  /** A referenced entry does not survive a failed Put of its own key: on a cache of 10 bytes an
      acquired entry of 5 is gone after a Put of 11 under the same key, which fails. */
  lemma {:induction false} FailedPutDropsOwnEntry()
    ensures PutItem([Item("a", "old", 5, 1)], 10, "a", "new", 11) == Outcome([], Some(InsufficientCapacity))
  {
    var items := [Item("a", "old", 5, 1)];
    assert Front(items) == [] && Last(items).key == "a";
    assert Drop(items, "a") == [];
  }

  /** A limit of 0 or less is no limit: Put always succeeds and evicts nothing. */
  lemma {:induction false} UnboundedPut(items: seq<Item>, max: int, key: string, path: string, size: int)
    requires max <= 0
    ensures PutItem(items, max, key, path, size) == Outcome([Item(key, path, size, 0)] + Drop(items, key), None)
  {
  }

  // ---------------------------------------------------------------------------
  // Whole runs
  // ---------------------------------------------------------------------------

  datatype Op =
    | Put(key: string, path: string, size: int)
    | Get(key: string)
    | Acquire(key: string)
    | Release(key: string)
    | Remove(key: string)

  function Apply(items: seq<Item>, max: int, op: Op): seq<Item> {
    match op
    case Put(key, path, size) => PutItem(items, max, key, path, size).items
    case Get(key) => MoveToFront(items, key)
    case Acquire(key) => AcquireItem(items, key)
    case Release(key) => ReleaseItem(items, key)
    case Remove(key) => Drop(items, key)
  }

  function Run(max: int, ops: seq<Op>): seq<Item> {
    if ops == [] then [] else Apply(Run(max, Front(ops)), max, Last(ops))
  }

  /** The position in the history of the last Put or Get naming key, or -1. */
  function LastTouch(ops: seq<Op>, key: string): (r: int)
    ensures -1 <= r < |ops|
  {
    if ops == [] then -1
    else if (Last(ops).Put? || Last(ops).Get?) && Last(ops).key == key then |ops| - 1
    else LastTouch(Front(ops), key)
  }

  /** Successful Acquires minus successful Releases of key since its last Put. */
  function Balance(max: int, ops: seq<Op>, key: string): int {
    if ops == [] then 0
    else
      var before, items := Balance(max, Front(ops), key), Run(max, Front(ops));
      var i := IndexOf(items, key);
      match Last(ops)
      case Put(k, _, _) => if k == key then 0 else before
      case Acquire(k) => if k == key && i != -1 then before + 1 else before
      case Release(k) => if k == key && i != -1 && items[i].refs > 0 then before - 1 else before
      case _ => before
  }

  /** Strictly sorted by recency, most recent first. */
  ghost predicate ByRecency(ops: seq<Op>, items: seq<Item>) {
    forall i, j :: 0 <= i < j < |items| ==> LastTouch(ops, items[i].key) > LastTouch(ops, items[j].key)
  }

  lemma {:induction false} DropKeepsRecency(ops: seq<Op>, items: seq<Item>, key: string)
    requires ByRecency(ops, items)
    ensures ByRecency(ops, Drop(items, key))
  {
    if items != [] {
      DropKeepsRecency(ops, Front(items), key);
      forall e ensures e in Drop(Front(items), key) ==> e in Front(items) {
        InDrop(Front(items), key, e);
      }
      LastIsOldest(ops, items, Drop(Front(items), key));
    }
  }

  lemma {:induction false} EvictKeepsRecency(ops: seq<Op>, items: seq<Item>, k: nat)
    requires ByRecency(ops, items)
    ensures ByRecency(ops, EvictOldest(items, k))
  {
    if items != [] {
      if Last(items).refs == 0 && k > 0 {
        EvictKeepsRecency(ops, Front(items), k - 1);
      } else {
        EvictKeepsRecency(ops, Front(items), k);
        forall e ensures e in EvictOldest(Front(items), k) ==> e in Front(items) {
          InEvict(Front(items), k, e);
        }
        LastIsOldest(ops, items, EvictOldest(Front(items), k));
      }
    }
  }

  lemma {:induction false} LastIsOldest(ops: seq<Op>, items: seq<Item>, kept: seq<Item>)
    requires items != [] && ByRecency(ops, items) && ByRecency(ops, kept)
    requires forall e :: e in kept ==> e in Front(items)
    ensures ByRecency(ops, kept + [Last(items)])
  {
    forall i | 0 <= i < |kept|
      ensures LastTouch(ops, kept[i].key) > LastTouch(ops, Last(items).key)
    {
      assert kept[i] in Front(items);
    }
  }

  lemma {:induction false} EvictUntilKeepsRecency(ops: seq<Op>, items: seq<Item>, max: int, size: int)
    requires ByRecency(ops, items)
    ensures ByRecency(ops, EvictUntilFits(items, max, size).items)
    decreases FreeCount(items)
  {
    if !(max <= 0 || Bytes(items) + size <= max) && FreeCount(items) > 0 {
      EvictKeepsRecency(ops, items, 1);
      EvictCount(items, 1);
      EvictUntilKeepsRecency(ops, EvictOldest(items, 1), max, size);
    }
  }

  /** An operation leaves the order of the entries it does not touch. */
  lemma {:induction false} UntouchedKeep(ops: seq<Op>, items: seq<Item>)
    requires ops != [] && ByRecency(Front(ops), items)
    requires Last(ops).Put? || Last(ops).Get? ==> !Has(items, Last(ops).key)
    ensures ByRecency(ops, items)
    ensures forall i :: 0 <= i < |items| ==> LastTouch(ops, items[i].key) < |ops| - 1
  {
    assert forall i :: 0 <= i < |items| ==> LastTouch(ops, items[i].key) == LastTouch(Front(ops), items[i].key);
  }

  lemma {:induction false} DroppedIsGone(items: seq<Item>, key: string)
    ensures !Has(Drop(items, key), key)
  {
    forall i | 0 <= i < |Drop(items, key)|
      ensures Drop(items, key)[i].key != key
    {
      InDrop(items, key, Drop(items, key)[i]);
    }
  }

  lemma {:induction false} EvictedLacks(items: seq<Item>, max: int, key: string, size: int)
    ensures !Has(EvictUntilFits(Drop(items, key), max, size).items, key)
  {
    var kept := EvictUntilFits(Drop(items, key), max, size).items;
    forall i | 0 <= i < |kept|
      ensures kept[i].key != key
    {
      InEvictUntil(Drop(items, key), max, size, kept[i]);
      InDrop(items, key, kept[i]);
    }
  }

  lemma {:induction false} PutKeepsRecency(ops: seq<Op>, items: seq<Item>, max: int)
    requires ops != [] && Last(ops).Put? && ByRecency(Front(ops), items)
    ensures ByRecency(ops, Apply(items, max, Last(ops)))
  {
    var Put(key, path, size) := Last(ops);
    var others := Drop(items, key);
    var kept := EvictUntilFits(others, max, size).items;
    DropKeepsRecency(Front(ops), items, key);
    EvictUntilKeepsRecency(Front(ops), others, max, size);
    EvictedLacks(items, max, key, size);
    UntouchedKeep(ops, kept);
    NewestInFront(ops, kept, Item(key, path, size, 0));
  }

  /** What the last operation touched goes in front. */
  lemma {:induction false} NewestInFront(ops: seq<Op>, items: seq<Item>, e: Item)
    requires ops != [] && (Last(ops).Put? || Last(ops).Get?) && Last(ops).key == e.key
    requires ByRecency(ops, items) && forall i :: 0 <= i < |items| ==> LastTouch(ops, items[i].key) < |ops| - 1
    ensures ByRecency(ops, [e] + items)
  {
    var all := [e] + items;
    assert LastTouch(ops, e.key) == |ops| - 1;
    forall i, j | 0 <= i < j < |all|
      ensures LastTouch(ops, all[i].key) > LastTouch(ops, all[j].key)
    {
      assert all[j] == items[j - 1];
      if i > 0 {
        assert all[i] == items[i - 1];
      }
    }
  }

  lemma {:induction false} GetKeepsRecency(ops: seq<Op>, items: seq<Item>)
    requires ops != [] && Last(ops).Get? && ByRecency(Front(ops), items)
    ensures ByRecency(ops, MoveToFront(items, Last(ops).key))
  {
    var key := Last(ops).key;
    if IndexOf(items, key) == -1 {
      UntouchedKeep(ops, items);
    } else {
      DropKeepsRecency(Front(ops), items, key);
      DroppedIsGone(items, key);
      UntouchedKeep(ops, Drop(items, key));
      NewestInFront(ops, Drop(items, key), items[IndexOf(items, key)]);
    }
  }

  /** The list is always in strict order of last Put or Get, so in particular no key occurs twice. */
  lemma {:induction false} OrderedByRecency(max: int, ops: seq<Op>)
    ensures ByRecency(ops, Run(max, ops))
  {
    if ops != [] {
      var before := Run(max, Front(ops));
      OrderedByRecency(max, Front(ops));
      match Last(ops)
      case Put(_, _, _) => PutKeepsRecency(ops, before, max);
      case Get(_) => GetKeepsRecency(ops, before);
      case Remove(key) =>
        DropKeepsRecency(Front(ops), before, key);
        UntouchedKeep(ops, Drop(before, key));
      case Acquire(_) => UntouchedKeep(ops, before);
      case Release(_) => UntouchedKeep(ops, before);
    }
  }

  lemma {:induction false} NoKeyTwice(max: int, ops: seq<Op>)
    ensures DistinctKeys(Run(max, ops))
  {
    OrderedByRecency(max, ops);
  }

  lemma {:induction false} OldestFree(items: seq<Item>) returns (v: nat)
    requires FreeCount(items) > 0
    ensures v < |items| && items[v].refs == 0
    ensures EvictOldest(items, 1) == Splice(items, v)
    ensures forall j :: v < j < |items| ==> items[j].refs > 0
  {
    if Last(items).refs == 0 {
      v := |items| - 1;
      EvictNone(Front(items));
      assert items[v + 1..] == [];
    } else {
      v := OldestFree(Front(items));
      assert items[..v] + items[v + 1..] == Front(items)[..v] + Front(items)[v + 1..] + [Last(items)];
    }
  }

  /** The victim is the least recently touched of all unreferenced entries, after any run. */
  lemma {:induction false} VictimIsColdest(max: int, ops: seq<Op>) returns (v: nat)
    requires FreeCount(Run(max, ops)) > 0
    ensures var items := Run(max, ops);
            && v < |items| && items[v].refs == 0
            && EvictOldest(items, 1) == Splice(items, v)
            && forall j :: 0 <= j < |items| && j != v && items[j].refs == 0 ==>
                 LastTouch(ops, items[j].key) > LastTouch(ops, items[v].key)
  {
    OrderedByRecency(max, ops);
    v := OldestFree(Run(max, ops));
  }

  /** An entry present after an op that is not a Put of its key was there before, with the same
      path and size, and only its own Acquire or Release moved its count. */
  lemma {:induction false} EntryKept(max: int, before: seq<Item>, op: Op, i: nat)
    requires DistinctKeys(before) && i < |Apply(before, max, op)|
    requires op.Put? ==> op.key != Apply(before, max, op)[i].key
    ensures var e := Apply(before, max, op)[i];
            var at := IndexOf(before, e.key);
            && at != -1
            && e.path == before[at].path && e.size == before[at].size
            && e.refs == before[at].refs + (if op == Acquire(e.key) then 1
                                            else if op == Release(e.key) && before[at].refs > 0 then -1 else 0)
  {
    var e := Apply(before, max, op)[i];
    if op.Acquire? || op.Release? {
      SameIndex(before, i, e.key);
    } else {
      FromBefore(max, before, op, e);
      var k :| 0 <= k < |before| && before[k] == e;
      SameIndex(before, k, e.key);
    }
  }

  /** The other way round: only a Put or the Remove of its own key can take an entry away. After any other
      operation it is still there, with the same path and size, and its count moved by its own
      Acquire or Release alone; after its Remove it is gone. */
  lemma {:induction false} EntryStays(max: int, before: seq<Item>, op: Op, e: Item)
    requires DistinctKeys(before) && e in before && !op.Put?
    ensures op != Remove(e.key) ==>
              e.(refs := if op == Acquire(e.key) then e.refs + 1
                         else if op == Release(e.key) && e.refs > 0 then e.refs - 1 else e.refs)
              in Apply(before, max, op)
    ensures op == Remove(e.key) ==> !Has(Apply(before, max, op), e.key)
  {
    var k :| 0 <= k < |before| && before[k] == e;
    SameIndex(before, k, e.key);
    var after := Apply(before, max, op);
    match op
    case Get(key) =>
      InDrop(before, key, e);
    case Remove(key) =>
      InDrop(before, key, e);
      DroppedIsGone(before, key);
    case Acquire(key) =>
      assert after[k] in after;
    case Release(key) =>
      assert after[k] in after;
  }

  lemma {:induction false} SameIndex(items: seq<Item>, i: nat, key: string)
    requires DistinctKeys(items) && i < |items| && items[i].key == key
    ensures IndexOf(items, key) == i
  {
  }

  lemma {:induction false} FromBefore(max: int, before: seq<Item>, op: Op, e: Item)
    requires e in Apply(before, max, op) && (op.Put? ==> op.key != e.key) && !op.Acquire? && !op.Release?
    ensures e in before
  {
    if op.Put? {
      InPut(before, max, op.key, op.path, op.size, e);
    } else {
      InDrop(before, op.key, e);
    }
  }

  /** An entry's reference count is exactly its Acquires minus its Releases since its last Put. */
  lemma {:induction false} RefsAreBalance(max: int, ops: seq<Op>, i: nat)
    requires i < |Run(max, ops)|
    ensures Run(max, ops)[i].refs == Balance(max, ops, Run(max, ops)[i].key)
  {
    var before, op := Run(max, Front(ops)), Last(ops);
    var e := Run(max, ops)[i];
    NoKeyTwice(max, Front(ops));
    if op.Put? && op.key == e.key {
      InPut(before, max, op.key, op.path, op.size, e);
    } else {
      EntryKept(max, before, op, i);
      RefsAreBalance(max, Front(ops), IndexOf(before, e.key));
    }
  }

  /** A referenced entry survives everything but a Put or Remove of its own key,
      whatever the pressure and whether or not the operation succeeds. */
  lemma {:induction false} PinnedSurvives(items: seq<Item>, max: int, op: Op, e: Item)
    requires DistinctKeys(items) && e in items && e.refs > 0
    requires (op.Put? || op.Remove?) ==> op.key != e.key
    ensures exists e' :: e' in Apply(items, max, op) && e'.key == e.key && e'.path == e.path && e'.size == e.size
  {
    var after := Apply(items, max, op);
    var k :| 0 <= k < |items| && items[k] == e;
    match op
    case Put(key, path, size) => InPut(items, max, key, path, size, e); assert e in after;
    case Get(key) =>
      InDrop(items, key, e);
      assert e.key == key ==> IndexOf(items, key) == k;
      assert e in after;
    case Remove(key) => InDrop(items, key, e); assert e in after;
    case Acquire(_) => assert after[k] in after && after[k].(refs := e.refs) == e;
    case Release(_) => assert after[k] in after && after[k].(refs := e.refs) == e;
  }

  /** With non-negative sizes a bounded cache never holds more than its limit. */
  lemma {:induction false} WithinLimit(max: int, ops: seq<Op>)
    requires max > 0
    requires forall i :: 0 <= i < |ops| && ops[i].Put? ==> ops[i].size >= 0
    ensures NonNegative(Run(max, ops)) && Bytes(Run(max, ops)) <= max
  {
    if ops != [] {
      var before, op := Run(max, Front(ops)), Last(ops);
      WithinLimit(max, Front(ops));
      NoKeyTwice(max, Front(ops));
      StaysNonNegative(max, before, op);
      match op
      case Put(key, path, size) => PutWithinLimit(before, max, key, path, size);
      case Get(key) => MoveBytes(before, key);
      case Acquire(key) =>
        var i := IndexOf(before, key);
        if i != -1 {
          BytesUpdate(before, i, before[i].(refs := before[i].refs + 1));
        }
      case Release(key) =>
        var i := IndexOf(before, key);
        if i != -1 && before[i].refs > 0 {
          BytesUpdate(before, i, before[i].(refs := before[i].refs - 1));
        }
      case Remove(key) => DropBytes(before, key);
    }
  }

  lemma {:induction false} StaysNonNegative(max: int, before: seq<Item>, op: Op)
    requires NonNegative(before) && DistinctKeys(before) && (op.Put? ==> op.size >= 0)
    ensures NonNegative(Apply(before, max, op))
  {
    var after := Apply(before, max, op);
    forall i | 0 <= i < |after|
      ensures after[i].size >= 0
    {
      if op.Put? && op.key == after[i].key {
        InPut(before, max, op.key, op.path, op.size, after[i]);
      } else {
        EntryKept(max, before, op, i);
      }
    }
  }

  lemma {:induction false} PutWithinLimit(items: seq<Item>, max: int, key: string, path: string, size: int)
    requires max > 0 && NonNegative(items) && size >= 0 && Bytes(items) <= max
    ensures Bytes(PutItem(items, max, key, path, size).items) <= max
  {
    var others, added := Drop(items, key), [Item(key, path, size, 0)];
    PutExact(items, max, key, path, size);
    DropBytes(items, key);
    if PutItem(items, max, key, path, size).error.None? {
      var k: nat :| LeastFit(others, max, size, k)
               && PutItem(items, max, key, path, size).items == added + EvictOldest(others, k);
      BytesConcat(added, EvictOldest(others, k));
      assert Bytes(added) == size;
    } else {
      ReferencedIsSmallest(others, 0);
    }
  }

  lemma {:induction false} BytesConcat(a: seq<Item>, b: seq<Item>)
    ensures Bytes(a + b) == Bytes(a) + Bytes(b)
  {
    if b == [] {
      assert a + b == a;
    } else {
      BytesConcat(a, Front(b));
      assert Front(a + b) == a + Front(b);
    }
  }

  lemma {:induction false} BytesUpdate(items: seq<Item>, i: nat, e: Item)
    requires i < |items|
    ensures Bytes(items[i := e]) == Bytes(items) - items[i].size + e.size
  {
    assert items == items[..i] + ([items[i]] + items[i + 1..]);
    assert items[i := e] == items[..i] + ([e] + items[i + 1..]);
    BytesConcat(items[..i], [items[i]] + items[i + 1..]);
    BytesConcat([items[i]], items[i + 1..]);
    BytesConcat(items[..i], [e] + items[i + 1..]);
    BytesConcat([e], items[i + 1..]);
    assert Bytes([e]) == e.size && Bytes([items[i]]) == items[i].size;
  }

  lemma {:induction false} DropBytes(items: seq<Item>, key: string)
    requires NonNegative(items)
    ensures NonNegative(Drop(items, key)) && 0 <= Bytes(Drop(items, key)) <= Bytes(items)
  {
    if items != [] {
      assert NonNegative(Front(items));
      DropBytes(Front(items), key);
      BytesConcat(Drop(Front(items), key), [Last(items)]);
    }
  }

  /** Dropping the one entry at i splices it out. */
  lemma {:induction false} DropAt(items: seq<Item>, i: nat)
    requires DistinctKeys(items) && i < |items|
    ensures Drop(items, items[i].key) == Splice(items, i)
    ensures Bytes(Drop(items, items[i].key)) == Bytes(items) - items[i].size
  {
    var key, front := items[i].key, Front(items);
    if i == |items| - 1 {
      DropAbsent(front, key);
      assert Splice(items, i) == front;
    } else {
      assert front[i] == items[i];
      DropAt(front, i);
      assert Splice(items, i) == Splice(front, i) + [Last(items)];
      FrontLast(Drop(front, key), Last(items));
    }
  }

  lemma {:induction false} AbsentSnoc(items: seq<Item>, key: string)
    requires items != [] && !Has(items, key)
    ensures !Has(Front(items), key) && Last(items).key != key
  {
    assert forall i :: 0 <= i < |items| - 1 ==> Front(items)[i] == items[i];
  }

  lemma {:induction false} DropKeepsLast(items: seq<Item>, key: string)
    requires items != [] && Last(items).key != key
    ensures Drop(items, key) == Drop(Front(items), key) + [Last(items)]
  {
  }

  lemma {:induction false} DropAbsent(items: seq<Item>, key: string)
    requires !Has(items, key)
    ensures Drop(items, key) == items
  {
    if items != [] {
      AbsentSnoc(items, key);
      DropAbsent(Front(items), key);
      DropKeepsLast(items, key);
      Snoc(items);
    }
  }

  lemma {:induction false} MoveAt(items: seq<Item>, key: string, k: nat)
    requires DistinctKeys(items) && k < |items| && k == IndexOf(items, key)
    ensures MoveToFront(items, key) == [items[k]] + Splice(items, k)
  {
    DropAt(items, k);
  }

  lemma {:induction false} MoveBytes(items: seq<Item>, key: string)
    requires DistinctKeys(items)
    ensures Bytes(MoveToFront(items, key)) == Bytes(items)
  {
    var i := IndexOf(items, key);
    if i != -1 {
      DropAt(items, i);
      BytesConcat([items[i]], Drop(items, key));
      assert Bytes([items[i]]) == items[i].size;
    }
  }

  // ---------------------------------------------------------------------------
  // The files on disk
  // ---------------------------------------------------------------------------

  /** The paths of the entries that went. */
  ghost function LostPaths(before: seq<Item>, after: seq<Item>): set<string> {
    set e | e in before && e !in after :: e.path
  }

  /** x goes and its file with it: it is evicted by a Put of another key, or removed. The file of an
      entry that a Put of its own key replaces stays. */
  predicate Unlinked(items: seq<Item>, max: int, op: Op, x: Item) {
    match op
    case Put(key, _, size) => x.key != key && x !in EvictUntilFits(Drop(items, key), max, size).items
    case Remove(key) => x.key == key
    case _ => false
  }

  ghost function Deleted(items: seq<Item>, max: int, op: Op): set<string> {
    set x | x in items && Unlinked(items, max, op, x) :: x.path
  }

  /** The files after a run in which each artifact is written to disk before it is Put. */
  ghost function Disk(max: int, ops: seq<Op>): set<string> {
    if ops == [] then {}
    else
      var op := Last(ops);
      Disk(max, Front(ops)) + (if op.Put? then {op.path} else {}) - Deleted(Run(max, Front(ops)), max, op)
  }

  /** No two keys are ever Put with one path. */
  ghost predicate OwnPaths(ops: seq<Op>) {
    forall i, j :: 0 <= i < |ops| && 0 <= j < |ops| && ops[i].Put? && ops[j].Put? && ops[i].path == ops[j].path ==>
      ops[i].key == ops[j].key
  }

  ghost predicate WasPut(ops: seq<Op>, key: string, path: string) {
    exists i :: 0 <= i < |ops| && ops[i].Put? && ops[i].key == key && ops[i].path == path
  }

  lemma {:induction false} WasPutBefore(ops: seq<Op>, key: string, path: string)
    requires ops != [] && WasPut(Front(ops), key, path)
    ensures WasPut(ops, key, path)
  {
    var i :| 0 <= i < |Front(ops)| && Front(ops)[i].Put? && Front(ops)[i].key == key && Front(ops)[i].path == path;
    assert ops[i] == Front(ops)[i];
  }

  /** Every entry goes back to a Put of its key and path. */
  lemma {:induction false} EntryWasPut(max: int, ops: seq<Op>, e: Item)
    requires e in Run(max, ops)
    ensures WasPut(ops, e.key, e.path)
  {
    var before, op := Run(max, Front(ops)), Last(ops);
    if op.Put? && op.key == e.key {
      InPut(before, max, op.key, op.path, op.size, e);
      assert ops[|ops| - 1] == op;
    } else {
      var i :| 0 <= i < |Run(max, ops)| && Run(max, ops)[i] == e;
      NoKeyTwice(max, Front(ops));
      EntryKept(max, before, op, i);
      EntryWasPut(max, Front(ops), before[IndexOf(before, e.key)]);
      WasPutBefore(ops, e.key, e.path);
    }
  }

  lemma {:induction false} OnePerKey(items: seq<Item>, a: Item, b: Item)
    requires DistinctKeys(items) && a in items && b in items && a.key == b.key
    ensures a == b
  {
  }

  /** A deletion never hits an entry that stays, if its key is the only one with its path. */
  lemma {:induction false} SurvivorKeepsFile(max: int, before: seq<Item>, op: Op, e: Item, x: Item)
    requires DistinctKeys(before) && e in Apply(before, max, op) && x in before && Unlinked(before, max, op, x)
    requires x.path == e.path ==> x.key == e.key
    ensures x.path != e.path
  {
    if x.path == e.path {
      InDrop(before, op.key, e);
      if op.Put? {
        FromBefore(max, before, op, e);
        OnePerKey(before, e, x);
        KeptOrNot(before, max, op, e);
      }
    }
  }

  /** Which files an operation deletes: those of entries it takes away, except the one a Put replaces. */
  lemma {:induction false} DeletedExactly(items: seq<Item>, max: int, op: Op, path: string)
    requires DistinctKeys(items)
    ensures path in Deleted(items, max, op) <==>
            exists e :: e in items && e.path == path && (op.Put? || op.Remove?)
                        && e !in Apply(items, max, op) && (op.Put? ==> e.key != op.key)
  {
    if op.Put? || op.Remove? {
      forall e | e in items
        ensures Unlinked(items, max, op, e) <==> e !in Apply(items, max, op) && (op.Put? ==> e.key != op.key)
      {
        if op.Put? && e.key != op.key {
          KeptOrNot(items, max, op, e);
        } else if op.Remove? {
          InDrop(items, op.key, e);
        }
      }
    }
  }

  lemma {:induction false} KeptOrNot(items: seq<Item>, max: int, op: Op, e: Item)
    requires op.Put? && e.key != op.key
    ensures e in Apply(items, max, op) <==> e in EvictUntilFits(Drop(items, op.key), max, op.size).items
  {
  }

  /** Every cached entry has its file: as long as no two keys share a path, whatever is evicted,
      replaced or removed, no entry in the cache loses its artifact. */
  lemma {:induction false} FilesBackEntries(max: int, ops: seq<Op>, e: Item)
    requires OwnPaths(ops) && e in Run(max, ops)
    ensures e.path in Disk(max, ops)
  {
    var before, op := Run(max, Front(ops)), Last(ops);
    NoKeyTwice(max, Front(ops));
    EntryWasPut(max, ops, e);
    forall x | x in before && Unlinked(before, max, op, x)
      ensures x.path != e.path
    {
      EntryWasPut(max, Front(ops), x);
      WasPutBefore(ops, x.key, x.path);
      SurvivorKeepsFile(max, before, op, e, x);
    }
    if op.Put? && op.key == e.key {
      InPut(before, max, op.key, op.path, op.size, e);
    } else {
      var i :| 0 <= i < |Run(max, ops)| && Run(max, ops)[i] == e;
      EntryKept(max, before, op, i);
      FilesBackEntries(max, Front(ops), before[IndexOf(before, e.key)]);
    }
  }

  lemma {:induction false} LostStep(all: seq<Item>, items: seq<Item>, i: nat)
    requires DistinctKeys(items) && i < |items| && forall e :: e in items ==> e in all
    ensures LostPaths(all, Drop(items, items[i].key)) == LostPaths(all, items) + {items[i].path}
    ensures forall e :: e in Drop(items, items[i].key) ==> e in all
  {
    var after := Drop(items, items[i].key);
    forall e
      ensures e in after <==> e in items && e != items[i]
    {
      InDrop(items, items[i].key, e);
      if e in items && e.key == items[i].key {
        OnePerKey(items, e, items[i]);
      }
    }
    assert items[i] in all && items[i] !in after;
  }

  lemma {:induction false} RemoveDeletes(items: seq<Item>, max: int, i: nat)
    requires DistinctKeys(items) && i < |items|
    ensures Deleted(items, max, Remove(items[i].key)) == {items[i].path}
  {
    forall x | x in items && x.key == items[i].key
      ensures x == items[i]
    {
      OnePerKey(items, x, items[i]);
    }
    assert Unlinked(items, max, Remove(items[i].key), items[i]) && items[i] in items;
  }

  lemma {:induction false} PutDeletes(items: seq<Item>, max: int, op: Op)
    requires op.Put?
    ensures LostPaths(Drop(items, op.key), EvictUntilFits(Drop(items, op.key), max, op.size).items)
         == Deleted(items, max, op)
  {
    forall e
      ensures e in Drop(items, op.key) <==> e in items && e.key != op.key
    {
      InDrop(items, op.key, e);
    }
  }

  // ---------------------------------------------------------------------------
  // The cache, in place: a list, a map and a byte counter that must agree
  // ---------------------------------------------------------------------------

  class Entry {
    const key: string
    const path: string
    const size: int
    var refCount: nat

    constructor (key: string, path: string, size: int)
      ensures this.key == key && this.path == path && this.size == size && refCount == 0
    {
      this.key, this.path, this.size, refCount := key, path, size, 0;
    }
  }

  /** items is the value of the linked list order, entry by entry. */
  ghost predicate Mirror(order: seq<Entry>, items: seq<Item>)
    reads order
  {
    && |items| == |order|
    && forall i :: 0 <= i < |order| ==>
         items[i] == Item(order[i].key, order[i].path, order[i].size, order[i].refCount)
  }

  /** The map finds exactly the entries of the list, by key. */
  ghost predicate Indexed(order: seq<Entry>, elements: map<string, Entry>) {
    && (forall e :: e in order ==> e.key in elements && elements[e.key] == e)
    && (forall k :: k in elements ==> elements[k] in order && elements[k].key == k)
  }

  lemma {:induction false} IndexedSplice(order: seq<Entry>, elements: map<string, Entry>, items: seq<Item>, k: nat)
    requires Mirror(order, items) && DistinctKeys(items) && Indexed(order, elements) && k < |order|
    ensures Indexed(Splice(order, k), elements - {order[k].key})
    ensures Indexed([order[k]] + Splice(order, k), elements)
  {
    InSplice(order, k);
    OthersDiffer(order, items, k);
  }

  ghost predicate Agree(order: seq<Entry>, elements: map<string, Entry>, items: seq<Item>, used: int)
    reads order
  {
    Mirror(order, items) && Indexed(order, elements) && DistinctKeys(items) && used == Bytes(items)
  }

  lemma {:induction false} AgreeRemove(order: seq<Entry>, elements: map<string, Entry>, items: seq<Item>, used: int,
                                       k: nat)
    requires Agree(order, elements, items, used) && k < |order|
    ensures Agree(Splice(order, k), elements - {order[k].key}, Splice(items, k), used - order[k].size)
    ensures Splice(items, k) == Drop(items, order[k].key)
  {
    DropAt(items, k);
    DistinctSplice(items, k);
    MirrorSplice(order, items, k);
    IndexedSplice(order, elements, items, k);
  }

  lemma {:induction false} AgreeMove(order: seq<Entry>, elements: map<string, Entry>, items: seq<Item>, used: int,
                                     k: nat)
    requires Agree(order, elements, items, used) && k < |order|
    ensures Agree([order[k]] + Splice(order, k), elements, [items[k]] + Splice(items, k), used)
    ensures Splice(items, k) == Drop(items, order[k].key)
  {
    DropAt(items, k);
    DistinctSplice(items, k);
    MirrorSplice(order, items, k);
    IndexedSplice(order, elements, items, k);
    BytesConcat([items[k]], Splice(items, k));
    assert Bytes([items[k]]) == items[k].size;
  }

  lemma {:induction false} AgreePush(order: seq<Entry>, elements: map<string, Entry>, items: seq<Item>, used: int,
                                     e: Entry)
    requires Agree(order, elements, items, used) && e.key !in elements
    ensures Agree([e] + order, elements[e.key := e], [Item(e.key, e.path, e.size, e.refCount)] + items, used + e.size)
  {
    var item := Item(e.key, e.path, e.size, e.refCount);
    BytesConcat([item], items);
    assert Bytes([item]) == e.size;
    PushDistinct(order, elements, items, item);
  }

  lemma {:induction false} PushDistinct(order: seq<Entry>, elements: map<string, Entry>, items: seq<Item>, item: Item)
    requires Mirror(order, items) && Indexed(order, elements) && DistinctKeys(items) && item.key !in elements
    ensures DistinctKeys([item] + items)
  {
    forall i | 0 <= i < |items|
      ensures items[i].key != item.key
    {
      assert order[i] in order;
    }
  }

  lemma {:induction false} MirrorSplice(order: seq<Entry>, items: seq<Item>, k: nat)
    requires Mirror(order, items) && k < |order|
    ensures Mirror(Splice(order, k), Splice(items, k))
    ensures Mirror([order[k]] + Splice(order, k), [items[k]] + Splice(items, k))
  {
    var rest, kept := Splice(order, k), Splice(items, k);
    forall i | 0 <= i < |rest|
      ensures kept[i] == Item(rest[i].key, rest[i].path, rest[i].size, rest[i].refCount)
    {
      assert if i < k then rest[i] == order[i] && kept[i] == items[i]
             else rest[i] == order[i + 1] && kept[i] == items[i + 1];
    }
  }

  /** list.Remove: the list without e's element. */
  method Unlink(order: seq<Entry>, e: Entry, ghost elements: map<string, Entry>, ghost items: seq<Item>,
                ghost used: int)
    returns (rest: seq<Entry>)
    requires Agree(order, elements, items, used) && e in order
    ensures Agree(rest, elements - {e.key}, Drop(items, e.key), used - e.size)
    ensures |rest| == |order| - 1
  {
    var i :| 0 <= i < |order| && order[i] == e;
    AgreeRemove(order, elements, items, used, i);
    rest := Splice(order, i);
  }

  class LRUCache {
    const maxBytes: int
    var usedBytes: int
    var order: seq<Entry>
    var elements: map<string, Entry>
    var disk: set<string>  // the files that exist
    ghost var contents: seq<Item>  // the value of the list

    ghost predicate Valid()
      reads this, order
    {
      Agree(order, elements, contents, usedBytes)
    }

    constructor (maxBytes: int, files: set<string>)
      ensures Valid() && contents == [] && this.maxBytes == maxBytes && disk == files
    {
      this.maxBytes, disk := maxBytes, files;
      usedBytes, order, elements, contents := 0, [], map[], [];
    }

    /** The map answers exactly for the keys of the list. */
    lemma {:induction false} Locate(key: string) returns (i: int)
      requires Valid()
      ensures key in elements <==> Has(contents, key)
      ensures i == IndexOf(contents, key)
      ensures key in elements ==> 0 <= i < |order| && order[i] == elements[key]
    {
      i := IndexOf(contents, key);
      if key in elements {
        var k :| 0 <= k < |order| && order[k] == elements[key];
        assert contents[k].key == key;
      } else {
        forall k | 0 <= k < |contents|
          ensures contents[k].key != key
        {
          assert order[k] in order;
        }
      }
    }

    method RemoveElement(e: Entry, deleteFile: bool)
      requires Valid() && e in order
      modifies this
      ensures Valid() && contents == Drop(old(contents), e.key)
      ensures |order| == |old(order)| - 1
      ensures disk == old(disk) - if deleteFile then {e.path} else {}
    {
      disk := disk - if deleteFile then {e.path} else {};
      order := Unlink(order, e, elements, contents, usedBytes);
      contents := Drop(contents, e.key);
      elements := elements - {e.key};
      usedBytes := usedBytes - e.size;
    }

    /** Scan from the back of the list for the first entry nobody references. */
    method LeastRecentlyUsedUnreferenced() returns (victim: Entry?)
      requires Valid()
      ensures victim == null <==> FreeCount(contents) == 0
      ensures victim != null ==> victim in order && Drop(contents, victim.key) == EvictOldest(contents, 1)
    {
      var n := |order|;
      while n > 0
        invariant 0 <= n <= |order|
        invariant forall j :: n <= j < |order| ==> contents[j].refs > 0
      {
        if order[n - 1].refCount == 0 {
          FreeIfAny(contents, n - 1);
          ghost var v := OldestFree(contents);
          assert v == n - 1;
          DropAt(contents, v);
          return order[n - 1];
        }
        n := n - 1;
      }
      AllReferenced(contents);
      victim := null;
    }

    method EvictToFit(incomingSize: int) returns (error: Option<Error>)
      requires Valid()
      modifies this
      ensures Valid()
      ensures Outcome(contents, error) == EvictUntilFits(old(contents), maxBytes, incomingSize)
      ensures disk == old(disk) - LostPaths(old(contents), contents)
    {
      if maxBytes <= 0 {
        return None;
      }
      while usedBytes + incomingSize > maxBytes
        invariant Valid()
        invariant EvictUntilFits(contents, maxBytes, incomingSize)
               == EvictUntilFits(old(contents), maxBytes, incomingSize)
        invariant forall e :: e in contents ==> e in old(contents)
        invariant disk == old(disk) - LostPaths(old(contents), contents)
        decreases |order|
      {
        var victim := LeastRecentlyUsedUnreferenced();
        if victim == null {
          return Some(InsufficientCapacity);
        }
        ghost var i := Locate(victim.key);
        LostStep(old(contents), contents, i);
        RemoveElement(victim, true);
      }
      error := None;
    }

    method Put(key: string, path: string, size: int) returns (error: Option<Error>)
      requires Valid()
      modifies this
      ensures Valid()
      ensures Outcome(contents, error) == PutItem(old(contents), maxBytes, key, path, size)
      ensures disk == old(disk) - Deleted(old(contents), maxBytes, Op.Put(key, path, size))
    {
      PutDeletes(contents, maxBytes, Op.Put(key, path, size));
      Discard(key);
      error := EvictToFit(size);
      if error.Some? {
        return;
      }
      EvictedLacks(old(contents), maxBytes, key, size);
      var e := new Entry(key, path, size);
      PushFront(e);
    }

    /** Put's first step: key's old entry goes, its file stays. */
    method Discard(key: string)
      requires Valid()
      modifies this
      ensures Valid() && contents == Drop(old(contents), key) && disk == old(disk)
    {
      ghost var _ := Locate(key);
      if key in elements {
        RemoveElement(elements[key], false);
      } else {
        DropAbsent(contents, key);
      }
    }

    method PushFront(e: Entry)
      requires Valid() && !Has(contents, e.key)
      modifies this
      ensures Valid()
      ensures contents == [Item(e.key, e.path, e.size, e.refCount)] + old(contents) && disk == old(disk)
    {
      ghost var item := Item(e.key, e.path, e.size, e.refCount);
      ghost var _ := Locate(e.key);
      AgreePush(order, elements, contents, usedBytes, e);
      order := [e] + order;
      elements := elements[e.key := e];
      usedBytes := usedBytes + e.size;
      contents := [item] + contents;
    }

    method Get(key: string) returns (path: Option<string>)
      requires Valid()
      modifies this
      ensures Valid() && contents == MoveToFront(old(contents), key) && disk == old(disk)
      ensures path == var i := IndexOf(old(contents), key);
                      if i == -1 then None else Some(old(contents)[i].path)
    {
      ghost var i := Locate(key);
      if key !in elements {
        return None;
      }
      var e := elements[key];
      var k := Position(e);
      MoveAt(contents, key, k);
      MoveEntry(k);
      path := Some(e.path);
    }

    /** Where in the list an entry is. */
    method Position(e: Entry) returns (k: nat)
      requires Valid() && e in order
      ensures k < |order| && order[k] == e && k == IndexOf(contents, e.key)
    {
      k :| 0 <= k < |order| && order[k] == e;
      SameIndex(contents, k, e.key);
    }

    method MoveEntry(k: nat)
      requires Valid() && k < |order|
      modifies this
      ensures Valid() && contents == [old(contents)[k]] + Splice(old(contents), k) && disk == old(disk)
    {
      AgreeMove(order, elements, contents, usedBytes, k);
      order := [order[k]] + Splice(order, k);
      contents := [contents[k]] + Splice(contents, k);
    }

    method SetRefs(e: Entry, n: nat, ghost i: nat)
      requires Valid() && i < |order| && order[i] == e
      modifies e, this`contents
      ensures Valid()
      ensures contents == old(contents)[i := old(contents)[i].(refs := n)]
    {
      OneElement(order, contents, i);
      RefsOnly(contents, i, n);
      e.refCount := n;
      contents := contents[i := contents[i].(refs := n)];
    }

    method Acquire(key: string) returns (error: Option<Error>)
      requires Valid()
      modifies order, this`contents
      ensures Valid() && contents == AcquireItem(old(contents), key)
      ensures error == if Has(old(contents), key) then None else Some(NotFound)
    {
      ghost var i := Locate(key);
      if key !in elements {
        return Some(NotFound);
      }
      SetRefs(elements[key], elements[key].refCount + 1, i);
      error := None;
    }

    method Release(key: string) returns (error: Option<Error>)
      requires Valid()
      modifies order, this`contents
      ensures Valid() && contents == ReleaseItem(old(contents), key)
      ensures error == if !Has(old(contents), key) then Some(NotFound)
                       else if old(contents)[IndexOf(old(contents), key)].refs == 0 then Some(NotReferenced) else None
    {
      ghost var i := Locate(key);
      if key !in elements {
        return Some(NotFound);
      }
      if elements[key].refCount == 0 {
        return Some(NotReferenced);
      }
      SetRefs(elements[key], elements[key].refCount - 1, i);
      error := None;
    }

    method Remove(key: string) returns (error: Option<Error>)
      requires Valid()
      modifies this
      ensures Valid() && contents == Drop(old(contents), key)
      ensures error == if Has(old(contents), key) then None else Some(NotFound)
      ensures disk == old(disk) - Deleted(old(contents), maxBytes, Op.Remove(key))
    {
      ghost var i := Locate(key);
      if key !in elements {
        DropAbsent(contents, key);
        assert Deleted(contents, maxBytes, Op.Remove(key)) == {};
        return Some(NotFound);
      }
      RemoveDeletes(contents, maxBytes, i);
      RemoveElement(elements[key], true);
      error := None;
    }
  }

  /** An entry is in the list once. */
  lemma {:induction false} OneElement(order: seq<Entry>, items: seq<Item>, i: nat)
    requires Mirror(order, items) && DistinctKeys(items) && i < |order|
    ensures forall j :: 0 <= j < |order| && j != i ==> order[j] != order[i]
  {
    assert forall j :: 0 <= j < |order| && j != i ==> items[j].key != items[i].key;
  }

  lemma {:induction false} RefsOnly(items: seq<Item>, i: nat, n: nat)
    requires DistinctKeys(items) && i < |items|
    ensures var after := items[i := items[i].(refs := n)];
            DistinctKeys(after) && Bytes(after) == Bytes(items)
  {
    BytesUpdate(items, i, items[i].(refs := n));
  }

  lemma {:induction false} DistinctSplice(items: seq<Item>, k: nat)
    requires DistinctKeys(items) && k < |items|
    ensures DistinctKeys(Splice(items, k)) && DistinctKeys([items[k]] + Splice(items, k))
  {
  }

  lemma {:induction false} OthersDiffer(order: seq<Entry>, items: seq<Item>, k: nat)
    requires |order| == |items| && DistinctKeys(items) && k < |items|
    requires forall i :: 0 <= i < |order| ==> items[i].key == order[i].key
    ensures forall f :: f in Splice(order, k) ==> f.key != order[k].key
  {
    var rest := Splice(order, k);
    forall j | 0 <= j < |rest|
      ensures rest[j].key != order[k].key
    {
      assert if j < k then rest[j] == order[j] else rest[j] == order[j + 1];
    }
  }

  lemma {:induction false} FreeIfAny(items: seq<Item>, i: nat)
    requires i < |items| && items[i].refs == 0
    ensures FreeCount(items) > 0
  {
    if i < |items| - 1 {
      FreeIfAny(Front(items), i);
    }
  }

  lemma {:induction false} AllReferenced(items: seq<Item>)
    requires forall i :: 0 <= i < |items| ==> items[i].refs > 0
    ensures FreeCount(items) == 0
  {
    if items != [] {
      AllReferenced(Front(items));
    }
  }
}
