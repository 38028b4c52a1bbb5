/** Schema migrations applied by any number of replicas, serialized by an advisory lock. Each
    statement is a step; a replica may fail or crash between any two. */
module Migrator {
  import opened Common

  datatype Migration = Migration(version: int, name: string, sql: string)

  // ---------------------------------------------------------------------------
  // Loading
  // ---------------------------------------------------------------------------

  function VersionOf(m: Migration): int { m.version }

  ghost predicate StrictlyAscending(ms: seq<Migration>) {
    forall i, j :: 0 <= i < j < |ms| ==> ms[i].version < ms[j].version
  }

  ghost predicate HasDuplicate(ms: seq<Migration>) {
    exists i, j :: 0 <= i < j < |ms| && ms[i].version == ms[j].version
  }

  /** Two places with version v. */
  ghost predicate Repeats(ms: seq<Migration>, v: int) {
    exists i, j :: 0 <= i < j < |ms| && ms[i].version == ms[j].version == v
  }

  datatype Loaded = Ok(migrations: seq<Migration>) | Duplicate(version: int)

  /** r is right about the parsed files. */
  ghost predicate LoadedRight(parsed: seq<Migration>, r: Loaded) {
    match r
    case Ok(ms) => !HasDuplicate(parsed) && StrictlyAscending(ms) && multiset(ms) == multiset(parsed)
    case Duplicate(v) => Repeats(parsed, v)
  }

  /** Sort the parsed files by version, then reject adjacent equals. It succeeds exactly when all
      versions differ, with the same migrations in strictly ascending order; otherwise it names a version
      that two files have. */
  method LoadMigrations(parsed: seq<Migration>) returns (r: Loaded)
    ensures LoadedRight(parsed, r)
    ensures r.Ok? <==> !HasDuplicate(parsed)
  {
    var ms := SortBy(parsed, VersionOf);
    SortBySorts(parsed, VersionOf);
    var i := 1;
    while i < |ms|
      invariant 1 <= i
      invariant forall j :: 0 < j < i && j < |ms| ==> ms[j - 1].version < ms[j].version
    {
      assert VersionOf(ms[i - 1]) <= VersionOf(ms[i]);
      if ms[i].version == ms[i - 1].version {
        DuplicateMoves(ms, parsed, i - 1, i);
        return Duplicate(ms[i].version);
      }
      i := i + 1;
    }
    NeighboursSuffice(ms);
    NoDuplicateMoves(ms, parsed);
    r := Ok(ms);
  }

  lemma {:induction false} NeighboursSuffice(ms: seq<Migration>)
    requires forall j :: 0 < j < |ms| ==> ms[j - 1].version < ms[j].version
    ensures StrictlyAscending(ms)
  {
    if ms != [] {
      NeighboursSuffice(Front(ms));
      assert forall i :: 0 <= i < |ms| - 1 ==> ms[i] == Front(ms)[i];
      if |ms| > 1 {
        assert ms[|ms| - 2].version < ms[|ms| - 1].version;
      }
    }
  }

  /** A repeated version survives any reordering. */
  lemma {:induction false} DuplicateMoves(a: seq<Migration>, b: seq<Migration>, i: nat, j: nat)
    requires multiset(a) == multiset(b) && i < j < |a| && a[i].version == a[j].version
    ensures Repeats(b, a[i].version)
  {
    if a[i] != a[j] {
      assert a[i] in multiset(a) && a[j] in multiset(a);
      TwoMembersRepeat(b, a[i], a[j]);
    } else {
      TwoPlacesMeanTwice(a, i, j);
      TwiceMeansTwoPlaces(b, a[i]);
    }
  }

  lemma {:induction false} NoDuplicateMoves(a: seq<Migration>, b: seq<Migration>)
    requires multiset(a) == multiset(b) && StrictlyAscending(a)
    ensures !HasDuplicate(b)
  {
    if i, j :| 0 <= i < j < |b| && b[i].version == b[j].version {
      DuplicateMoves(b, a, i, j);
    }
  }

  lemma {:induction false} TwoMembersRepeat(b: seq<Migration>, x: Migration, y: Migration)
    requires x in b && y in b && x != y && x.version == y.version
    ensures Repeats(b, x.version)
  {
    var k :| 0 <= k < |b| && b[k] == x;
    var l :| 0 <= l < |b| && b[l] == y;
    assert k < l || l < k;
  }

  lemma {:induction false} TwoPlacesMeanTwice(a: seq<Migration>, i: nat, j: nat)
    requires i < j < |a| && a[i] == a[j]
    ensures multiset(a)[a[i]] >= 2
  {
    assert a == a[..j] + [a[j]] + a[j + 1..];
    assert a[..j][i] in multiset(a[..j]);
  }

  lemma {:induction false} TwiceMeansTwoPlaces(b: seq<Migration>, x: Migration)
    requires multiset(b)[x] >= 2
    ensures Repeats(b, x.version)
  {
    var front := Front(b);
    Snoc(b);
    if Last(b) == x {
      assert x in multiset(front);
      var k :| 0 <= k < |front| && front[k] == x;
      assert b[k].version == b[|b| - 1].version;
    } else {
      TwiceMeansTwoPlaces(front, x);
      var i, j :| 0 <= i < j < |front| && front[i].version == front[j].version == x.version;
      assert b[i] == front[i] && b[j] == front[j];
    }
  }

  // ---------------------------------------------------------------------------
  // Replicas
  // ---------------------------------------------------------------------------

  /** A replica inside Migrate, with the list it was started with: it holds the lock, or it has also read
      what is applied and is at position next of its list. */
  datatype Replica =
    | Holding(list: seq<int>)
    | Applying(list: seq<int>, seen: set<int>, next: nat)

  /** The versions recorded, in the order they were committed, and who holds the lock. */
  datatype System = System(log: seq<int>, lock: Option<nat>, replicas: map<nat, Replica>)

  const INIT := System([], None, map[])

  /** Commit tells how a migration's transaction ends: committed, rolled back, or committed with the
      answer lost, so that the replica stops with an error although the version is applied. */
  datatype Commit = Committed | RolledBack | AnswerLost

  datatype Step =
    | Acquire(replica: nat, list: seq<int>)
    | ReadApplied(replica: nat)
    | Advance(replica: nat, commit: Commit)
    | Leave(replica: nat)

  function Elements(s: seq<int>): set<int> {
    set x | x in s
  }

  /** Giving up the lock: on return, on error, or because the session died. */
  function Left(s: System, r: nat): System {
    System(s.log, if s.lock == Some(r) then None else s.lock, s.replicas - {r})
  }

  function Apply(s: System, step: Step): System {
    match step
    case Acquire(r, list) =>
      if s.lock.Some? || r in s.replicas then s else System(s.log, Some(r), s.replicas[r := Holding(list)])
    case ReadApplied(r) =>
      if r !in s.replicas || !s.replicas[r].Holding? then s
      else s.(replicas := s.replicas[r := Applying(s.replicas[r].list, Elements(s.log), 0)])
    case Advance(r, commit) =>
      if r !in s.replicas || !s.replicas[r].Applying? || s.replicas[r].next >= |s.replicas[r].list| then s
      else
        var at := s.replicas[r];
        var version, moved := at.list[at.next], s.replicas[r := at.(next := at.next + 1)];
        if version in at.seen then s.(replicas := moved)
        else (match commit
          case Committed => s.(log := s.log + [version], replicas := moved)
          case RolledBack => Left(s, r)
          case AnswerLost => Left(s.(log := s.log + [version]), r))
    case Leave(r) => Left(s, r)
  }

  function Run(steps: seq<Step>): System {
    if steps == [] then INIT else Apply(Run(Front(steps)), Last(steps))
  }

  ghost predicate Sorted(versions: seq<int>) {
    forall i, j :: 0 <= i < j < |versions| ==> versions[i] < versions[j]
  }

  ghost predicate IsPrefix(log: seq<int>, versions: seq<int>) {
    |log| <= |versions| && log == versions[..|log|]
  }

  /** Every replica runs an older or newer release: its list is some beginning of all. */
  ghost predicate Released(all: seq<int>, steps: seq<Step>) {
    steps == [] || (Released(all, Front(steps)) && (Last(steps).Acquire? ==> IsPrefix(Last(steps).list, all)))
  }

  /** A replica's view: what it saw is applied, and everything applied from its position on it saw. */
  ghost predicate View(s: System, all: seq<int>, r: nat) {
    r in s.replicas ==>
      && s.lock == Some(r) && IsPrefix(s.replicas[r].list, all)
      && (s.replicas[r].Applying? ==>
            var Applying(_, seen, next) := s.replicas[r];
            && next <= |s.log|
            && (forall i :: 0 <= i < |all| && all[i] in seen ==> i < |s.log|)
            && (forall i :: next <= i < |s.log| ==> s.log[i] in seen))
  }

  ghost predicate Inv(s: System, all: seq<int>) {
    IsPrefix(s.log, all) && forall r :: View(s, all, r)
  }

  lemma {:induction false} StepKeeps(s: System, all: seq<int>, step: Step)
    requires Sorted(all) && Inv(s, all) && (step.Acquire? ==> IsPrefix(step.list, all))
    ensures Inv(Apply(s, step), all)
  {
    var s' := Apply(s, step);
    assert View(s, all, step.replica);
    if s'.log != s.log {
      var at := s.replicas[step.replica];
      assert forall i :: 0 <= i < |s.log| ==> s.log[i] == all[i];
      assert at.list[at.next] == all[at.next];
      assert at.next == |s.log|;
      assert s'.log == all[..at.next + 1];
    }
    forall r
      ensures View(s', all, r)
    {
      assert View(s, all, r);
    }
  }

  /** Whatever the replicas do, and wherever they fail or crash, also while a rolling deployment
      replaces one list by a longer one, the versions applied are a prefix of the longest list. */
  lemma {:induction false} AppliedIsPrefix(all: seq<int>, steps: seq<Step>)
    requires Sorted(all) && Released(all, steps)
    ensures Inv(Run(steps), all)
  {
    if steps != [] {
      AppliedIsPrefix(all, Front(steps));
      StepKeeps(Run(Front(steps)), all, Last(steps));
    }
  }

  /** So versions are applied in strictly ascending order, and a replica that has come to the end of its
      own list leaves every migration of it applied. */
  lemma {:induction false} OnceAndInOrder(all: seq<int>, steps: seq<Step>)
    requires Sorted(all) && Released(all, steps)
    ensures var s := Run(steps);
            && Sorted(s.log) && IsPrefix(s.log, all)
            && (forall r :: r in s.replicas && s.replicas[r].Applying? && s.replicas[r].next == |s.replicas[r].list| ==>
                  IsPrefix(s.replicas[r].list, s.log))
  {
    AppliedIsPrefix(all, steps);
    var s := Run(steps);
    forall r | r in s.replicas && s.replicas[r].Applying? && s.replicas[r].next == |s.replicas[r].list|
      ensures IsPrefix(s.replicas[r].list, s.log)
    {
      assert View(s, all, r);
    }
  }

  /** A holder of the lock has dealt with, or saw, everything applied. */
  ghost predicate Aware(s: System, r: nat) {
    r in s.replicas ==>
      && s.lock == Some(r) && Distinct(s.replicas[r].list)
      && (s.replicas[r].Applying? ==>
            var Applying(list, seen, next) := s.replicas[r];
            next <= |list| && forall v :: v in s.log ==> v in seen || v in list[..next])
  }

  ghost predicate DistinctLists(steps: seq<Step>) {
    steps == [] || (DistinctLists(Front(steps)) && (Last(steps).Acquire? ==> Distinct(Last(steps).list)))
  }

  lemma {:induction false} AwareStep(s: System, step: Step, r: nat)
    requires Aware(s, r) && Aware(s, step.replica) && (step.Acquire? ==> Distinct(step.list))
    ensures Aware(Apply(s, step), r)
  {
    if step.Advance? && r == step.replica && r in s.replicas && s.replicas[r].Applying?
       && s.replicas[r].next < |s.replicas[r].list| {
      var at := s.replicas[r];
      assert at.list[..at.next + 1] == at.list[..at.next] + [at.list[at.next]];
    }
  }

  lemma {:induction false} NewVersion(s: System, step: Step)
    requires Distinct(s.log) && Aware(s, step.replica)
    ensures Distinct(Apply(s, step).log)
  {
    var s' := Apply(s, step);
    if s'.log != s.log {
      var at := s.replicas[step.replica];
      assert at.list[at.next] !in at.list[..at.next];
      assert at.list[at.next] !in s.log;
    }
  }

  /** At most once, whatever the lists: with any number of replicas, each with a list of its own that only
      has no version twice, no version is ever applied twice, and at most one replica is past the lock. */
  lemma {:induction false} AtMostOnce(steps: seq<Step>)
    requires DistinctLists(steps)
    ensures Distinct(Run(steps).log) && forall r :: Aware(Run(steps), r)
  {
    if steps != [] {
      var s := Run(Front(steps));
      AtMostOnce(Front(steps));
      NewVersion(s, Last(steps));
      forall r
        ensures Aware(Run(steps), r)
      {
        AwareStep(s, Last(steps), r);
      }
    }
  }

  /** A replica that ends, by leaving or by a failed or unanswered transaction, frees the lock, and the
      next one gets it with the list it brings; meanwhile nobody else does. */
  lemma {:induction false} LockPassesOn(steps: seq<Step>, r: nat, q: nat, list: seq<int>, last: Step)
    requires DistinctLists(steps) && r in Run(steps).replicas && q !in Run(steps).replicas
    requires last == Leave(r) || (last.Advance? && last.replica == r && r !in Apply(Run(steps), last).replicas)
    ensures Apply(Run(steps), Acquire(q, list)) == Run(steps)
    ensures var s := Apply(Apply(Run(steps), last), Acquire(q, list));
            s.lock == Some(q) && s.replicas == map[q := Holding(list)]
  {
    AtMostOnce(steps);
    var s := Run(steps);
    assert Aware(s, r);
    forall x | x in s.replicas
      ensures x == r
    {
      assert Aware(s, x);
    }
  }

  /** Mutual exclusion: at most one replica is past the lock. */
  lemma {:induction false} OneReplicaAtATime(steps: seq<Step>, q: nat, r: nat)
    requires DistinctLists(steps) && q in Run(steps).replicas && r in Run(steps).replicas
    ensures q == r
  {
    AtMostOnce(steps);
    assert Aware(Run(steps), q) && Aware(Run(steps), r);
  }

  // ---------------------------------------------------------------------------
  // One replica's run, in place
  // ---------------------------------------------------------------------------

  /** The versions not yet applied, in list order. */
  function Missing(versions: seq<int>, log: seq<int>): seq<int> {
    if versions == [] then []
    else Missing(Front(versions), log) + if Last(versions) in log then [] else [Last(versions)]
  }

  /** Position k stops a run: its version is missing, and its transaction fails or finds the version
      recorded a moment ago, which the primary key refuses. */
  predicate StopsAt(versions: seq<int>, log: seq<int>, failAt: Option<nat>, k: nat) {
    k < |versions| && versions[k] !in log && (failAt == Some(k) || versions[k] in versions[..k])
  }

  lemma {:induction false} InMissing(versions: seq<int>, log: seq<int>, v: int)
    ensures v in Missing(versions, log) <==> v in versions && v !in log
  {
    if versions != [] {
      InMissing(Front(versions), log, v);
      Snoc(versions);
    }
  }

  lemma {:induction false} MissingNext(versions: seq<int>, log: seq<int>, i: nat)
    requires i < |versions|
    ensures Missing(versions[..i + 1], log) ==
            Missing(versions[..i], log) + if versions[i] in log then [] else [versions[i]]
  {
    assert versions[..i + 1] == versions[..i] + [versions[i]];
    FrontLast(versions[..i], versions[i]);
  }

  lemma {:induction false} MissingNone(versions: seq<int>, log: seq<int>)
    requires forall i :: 0 <= i < |versions| ==> versions[i] in log
    ensures Missing(versions, log) == []
  {
    if versions != [] {
      MissingNone(Front(versions), log);
    }
  }

  /** On a database whose applied versions are a prefix, the missing ones are exactly the rest. */
  lemma {:induction false} MissingCompletes(versions: seq<int>, log: seq<int>)
    requires Sorted(versions) && IsPrefix(log, versions)
    ensures log + Missing(versions, log) == versions
  {
    if |versions| == |log| {
      MissingNone(versions, log);
    } else {
      var front, last := Front(versions), Last(versions);
      PrefixOfFront(versions, log);
      MissingCompletes(front, log);
      Snoc(versions);
      ConcatAssoc(log, Missing(front, log), [last]);
    }
  }

  lemma {:induction false} PrefixOfFront(versions: seq<int>, log: seq<int>)
    requires Sorted(versions) && IsPrefix(log, versions) && |log| < |versions|
    ensures IsPrefix(log, Front(versions)) && Sorted(Front(versions)) && Last(versions) !in log
  {
    assert forall i :: 0 <= i < |log| ==> log[i] == versions[i];
  }

  /** The first position below n that stops a run, or n. */
  function Reach(versions: seq<int>, log: seq<int>, failAt: Option<nat>, n: nat): nat {
    if n == 0 then 0
    else
      var before := Reach(versions, log, failAt, n - 1);
      if before < n - 1 || StopsAt(versions, log, failAt, n - 1) then before else n
  }

  /** One replica's steps without interference: it takes the lock, reads, and advances n times; a
      position that stops the run is rolled back. */
  function Alone(s: System, r: nat, list: seq<int>, failAt: Option<nat>, n: nat): System {
    if n == 0 then Apply(Apply(s, Acquire(r, list)), ReadApplied(r))
    else Apply(Alone(s, r, list, failAt, n - 1),
               Advance(r, if StopsAt(list, s.log, failAt, n - 1) then RolledBack else Committed))
  }

  /** Where the replica is after n advances: still going, or stopped with the lock given up. */
  ghost predicate Stands(s: System, r: nat, list: seq<int>, failAt: Option<nat>, n: nat, s': System)
    requires n <= |list|
  {
    var reach := Reach(list, s.log, failAt, n);
    && reach <= n && s'.log == s.log + Missing(list[..reach], s.log)
    && if reach == n then r in s'.replicas && s'.replicas[r] == Applying(list, Elements(s.log), n) && s'.lock == Some(r)
       else r !in s'.replicas && s'.lock == None
  }

  /** The steps do to the log what Migrate does: they add the missing versions up to the first stop. */
  lemma {:induction false} AloneMigrates(s: System, r: nat, list: seq<int>, failAt: Option<nat>, n: nat)
    requires s.lock == None && r !in s.replicas && n <= |list|
    ensures Stands(s, r, list, failAt, n, Alone(s, r, list, failAt, n))
  {
    if n > 0 {
      AloneMigrates(s, r, list, failAt, n - 1);
      MissingNext(list, s.log, n - 1);
    }
  }

  class Database {
    var log: seq<int>

    constructor ()
      ensures log == []
    {
      log := [];
    }

    /** Migrate under the lock; failAt is the position whose transaction fails, if any. It applies
        the missing versions in list order up to the first position that stops it, and none after:
        what one replica's steps do when nothing comes between them. */
    method Migrate(versions: seq<int>, failAt: Option<nat>) returns (applied: seq<int>, stopped: Option<nat>)
      modifies this
      ensures log == old(log) + applied
      ensures stopped.None? ==> applied == Missing(versions, old(log))
      ensures stopped.Some? ==> StopsAt(versions, old(log), failAt, stopped.value)
                                && applied == Missing(versions[..stopped.value], old(log))
      ensures forall k: nat :: StopsAt(versions, old(log), failAt, k) ==> stopped.Some? && stopped.value <= k
      ensures log == Alone(System(old(log), None, map[]), 0, versions, failAt, |versions|).log
      ensures stopped.None? && Sorted(versions) && IsPrefix(old(log), versions) ==> log == versions
    {
      var already := Elements(log);
      applied := [];
      for i := 0 to |versions|
        invariant log == old(log) + applied && applied == Missing(versions[..i], old(log))
        invariant forall k: nat :: k < i ==> !StopsAt(versions, old(log), failAt, k)
      {
        MissingNext(versions, old(log), i);
        if versions[i] in already {
          continue;
        }
        InMissing(versions[..i], old(log), versions[i]);
        if failAt == Some(i) || versions[i] in log {
          AloneEnds(old(log), versions, failAt, i);
          return applied, Some(i);
        }
        log := log + [versions[i]];
        applied := applied + [versions[i]];
      }
      assert versions[..|versions|] == versions;
      AloneEnds(old(log), versions, failAt, |versions|);
      if Sorted(versions) && IsPrefix(old(log), versions) {
        MissingCompletes(versions, old(log));
      }
      stopped := None;
    }
  }

  lemma {:induction false} ReachIs(versions: seq<int>, log: seq<int>, failAt: Option<nat>, stop: nat, n: nat)
    requires stop <= n && (stop < n ==> StopsAt(versions, log, failAt, stop))
    requires forall k: nat :: k < stop ==> !StopsAt(versions, log, failAt, k)
    ensures Reach(versions, log, failAt, n) == stop
  {
    if n > 0 {
      ReachIs(versions, log, failAt, if stop < n then stop else n - 1, n - 1);
    }
  }

  lemma {:induction false} AloneEnds(log: seq<int>, versions: seq<int>, failAt: Option<nat>, stop: nat)
    requires stop <= |versions| && (stop < |versions| ==> StopsAt(versions, log, failAt, stop))
    requires forall k: nat :: k < stop ==> !StopsAt(versions, log, failAt, k)
    ensures Alone(System(log, None, map[]), 0, versions, failAt, |versions|).log == log + Missing(versions[..stop], log)
  {
    AloneMigrates(System(log, None, map[]), 0, versions, failAt, |versions|);
    ReachIs(versions, log, failAt, stop, |versions|);
  }
}
