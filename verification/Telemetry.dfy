/** Telemetry retention: raw samples older than a cutoff are merged additively into hourly
    aggregates and pruned in one transaction. Sums are exact (reals), and a sample belongs to the
    model its inference run names. Times are microseconds. */
module Telemetry {
  import opened Common

  datatype Sample = Sample(run: string, at: int, ttft: Option<real>, tpot: Option<real>, vram: Option<int>)

  datatype Bucket = Bucket(model: string, hour: int)

  datatype Aggregate = Aggregate(
    ttftSum: real, ttftCount: nat,
    tpotSum: real, tpotCount: nat,
    vramSum: real, vramCount: nat,
    vramMax: Option<int>)

  const ZERO := Aggregate(0.0, 0, 0.0, 0, 0.0, 0, None)
  const HOUR := 3_600_000_000

  /** inference_runs, as far as the join needs it: the model of each run. */
  type Runs = map<string, string>

  datatype Db = Db(raw: seq<Sample>, hourly: map<Bucket, Aggregate>)

  const EMPTY := Db([], map[])

  /** date_trunc to the hour, and the join on the sample's run. */
  predicate InBucket(s: Sample, runs: Runs, k: Bucket) {
    s.run in runs && runs[s.run] == k.model && s.at / HOUR == k.hour
  }

  function RealOr0(v: Option<real>): real { if v.Some? then v.value else 0.0 }
  function CountOf<T>(v: Option<T>): nat { if v.Some? then 1 else 0 }
  function Bytes(s: Sample): Option<real> { if s.vram.Some? then Some(s.vram.value as real) else None }

  /** GREATEST and MAX ignore nulls. */
  function Greatest(a: Option<int>, b: Option<int>): Option<int> {
    if a.None? then b else if b.None? then a else if a.value >= b.value then a else b
  }

  function One(s: Sample): Aggregate {
    Aggregate(RealOr0(s.ttft), CountOf(s.ttft), RealOr0(s.tpot), CountOf(s.tpot),
              RealOr0(Bytes(s)), CountOf(s.vram), s.vram)
  }

  /** The ON CONFLICT update: add sums and counts, keep the larger maximum. */
  function Merge(a: Aggregate, b: Aggregate): Aggregate {
    Aggregate(a.ttftSum + b.ttftSum, a.ttftCount + b.ttftCount,
              a.tpotSum + b.tpotSum, a.tpotCount + b.tpotCount,
              a.vramSum + b.vramSum, a.vramCount + b.vramCount,
              Greatest(a.vramMax, b.vramMax))
  }

  /** The aggregate of the samples of one bucket. */
  function Fold(samples: seq<Sample>, runs: Runs, k: Bucket): Aggregate {
    if samples == [] then ZERO
    else if InBucket(Last(samples), runs, k) then Merge(Fold(Front(samples), runs, k), One(Last(samples)))
    else Fold(Front(samples), runs, k)
  }

  /** The samples on one side of the cutoff. */
  function Cut(samples: seq<Sample>, cutoff: int, aged: bool): seq<Sample> {
    if samples == [] then []
    else if (Last(samples).at < cutoff) == aged then Cut(Front(samples), cutoff, aged) + [Last(samples)]
    else Cut(Front(samples), cutoff, aged)
  }

  function Buckets(samples: seq<Sample>, runs: Runs): set<Bucket> {
    set s | s in samples && s.run in runs :: Bucket(runs[s.run], s.at / HOUR)
  }

  /** INSERT ... SELECT ... GROUP BY ... ON CONFLICT DO UPDATE over the given samples. */
  function Upsert(hourly: map<Bucket, Aggregate>, samples: seq<Sample>, runs: Runs): map<Bucket, Aggregate> {
    map k | k in hourly.Keys + Buckets(samples, runs) ::
      if k !in Buckets(samples, runs) then hourly[k]
      else if k in hourly then Merge(hourly[k], Fold(samples, runs, k))
      else Fold(samples, runs, k)
  }

  /** One committed retention run: both statements see the same cutoff and the same rows. */
  function Retained(db: Db, cutoff: int, runs: Runs): Db {
    Db(Cut(db.raw, cutoff, false), Upsert(db.hourly, Cut(db.raw, cutoff, true), runs))
  }

  datatype Step =
    | Insert(sample: Sample)
    | Retain(cutoff: int, commits: bool)

  function Apply(db: Db, step: Step, runs: Runs): Db {
    match step
    case Insert(s) => db.(raw := db.raw + [s])
    case Retain(cutoff, commits) => if commits then Retained(db, cutoff, runs) else db
  }

  function Run(steps: seq<Step>, runs: Runs): Db {
    if steps == [] then EMPTY else Apply(Run(Front(steps), runs), Last(steps), runs)
  }

  /** Every sample ever inserted, in order. */
  function Inserted(steps: seq<Step>): seq<Sample> {
    if steps == [] then [] else Grown(Inserted(Front(steps)), Last(steps))
  }

  function Grown(all: seq<Sample>, step: Step): seq<Sample> {
    if step.Insert? then all + [step.sample] else all
  }

  /** The stored aggregate of a bucket; no row counts as nothing. */
  function RowOf(hourly: map<Bucket, Aggregate>, k: Bucket): Aggregate {
    if k in hourly then hourly[k] else ZERO
  }

  function Stored(db: Db, k: Bucket): Aggregate {
    RowOf(db.hourly, k)
  }

  /** What a reader of both tables can compute for a bucket. */
  function Total(db: Db, runs: Runs, k: Bucket): Aggregate {
    Merge(Stored(db, k), Fold(db.raw, runs, k))
  }

  lemma {:induction false} MergeAssoc(a: Aggregate, b: Aggregate, c: Aggregate)
    ensures Merge(Merge(a, b), c) == Merge(a, Merge(b, c))
  {
  }

  lemma {:induction false} MergeSwap(a: Aggregate, b: Aggregate, c: Aggregate)
    ensures Merge(Merge(a, b), c) == Merge(Merge(a, c), b)
  {
  }

  lemma {:induction false} MergeZero(a: Aggregate)
    ensures Merge(a, ZERO) == a && Merge(ZERO, a) == a
  {
  }

  lemma {:induction false} FoldAppend(samples: seq<Sample>, s: Sample, runs: Runs, k: Bucket)
    ensures Fold(samples + [s], runs, k) ==
            if InBucket(s, runs, k) then Merge(Fold(samples, runs, k), One(s)) else Fold(samples, runs, k)
  {
    FrontLast(samples, s);
  }

  /** Cutting at any time splits the aggregate in two. */
  lemma {:induction false} FoldSplits(samples: seq<Sample>, cutoff: int, runs: Runs, k: Bucket)
    ensures Fold(samples, runs, k) ==
            Merge(Fold(Cut(samples, cutoff, true), runs, k), Fold(Cut(samples, cutoff, false), runs, k))
  {
    if samples != [] {
      var front, last := Front(samples), Last(samples);
      FoldSplits(front, cutoff, runs, k);
      var aged, recent := Cut(front, cutoff, true), Cut(front, cutoff, false);
      FoldAppend(aged, last, runs, k);
      FoldAppend(recent, last, runs, k);
      MergeSwap(Fold(aged, runs, k), Fold(recent, runs, k), One(last));
      MergeAssoc(Fold(aged, runs, k), Fold(recent, runs, k), One(last));
    } else {
      MergeZero(ZERO);
    }
  }

  lemma {:induction false} FoldOutside(samples: seq<Sample>, runs: Runs, k: Bucket)
    requires k !in Buckets(samples, runs)
    ensures Fold(samples, runs, k) == ZERO
  {
    if samples != [] {
      assert samples == Front(samples) + [Last(samples)];
      assert Buckets(Front(samples), runs) <= Buckets(samples, runs);
      FoldOutside(Front(samples), runs, k);
      assert Last(samples) in samples;
      var s := Last(samples);
      assert s.run in runs ==> Bucket(runs[s.run], s.at / HOUR) in Buckets(samples, runs);
    }
  }

  lemma {:induction false} UpsertAdds(hourly: map<Bucket, Aggregate>, samples: seq<Sample>, runs: Runs, k: Bucket)
    ensures RowOf(Upsert(hourly, samples, runs), k) == Merge(RowOf(hourly, k), Fold(samples, runs, k))
  {
    if k !in Buckets(samples, runs) {
      FoldOutside(samples, runs, k);
      MergeZero(RowOf(hourly, k));
    } else if k !in hourly {
      MergeZero(Fold(samples, runs, k));
    }
  }

  lemma {:induction false} RetainKeepsTotal(db: Db, cutoff: int, runs: Runs, k: Bucket)
    ensures Total(Retained(db, cutoff, runs), runs, k) == Total(db, runs, k)
  {
    var aged, recent := Cut(db.raw, cutoff, true), Cut(db.raw, cutoff, false);
    UpsertAdds(db.hourly, aged, runs, k);
    FoldSplits(db.raw, cutoff, runs, k);
    MergeAssoc(Stored(db, k), Fold(aged, runs, k), Fold(recent, runs, k));
  }

  /** The total a reader can compute is the aggregate of all samples so far. */
  ghost predicate Conserved(db: Db, all: seq<Sample>, runs: Runs, k: Bucket) {
    Total(db, runs, k) == Fold(all, runs, k)
  }

  lemma {:induction false} EmptyConserves(db: Db, all: seq<Sample>, runs: Runs, k: Bucket)
    requires db.raw == all == [] && db.hourly == map[]
    ensures Conserved(db, all, runs, k)
  {
    MergeZero(Stored(db, k));
  }

  lemma {:induction false} StepConserves(db: Db, all: seq<Sample>, step: Step, runs: Runs, k: Bucket)
    requires Conserved(db, all, runs, k)
    ensures Conserved(Apply(db, step, runs), Grown(all, step), runs, k)
  {
    match step
    case Insert(s) =>
      FoldAppend(db.raw, s, runs, k);
      FoldAppend(all, s, runs, k);
      MergeAssoc(Stored(db, k), Fold(db.raw, runs, k), One(s));
    case Retain(cutoff, commits) =>
      RetainKeepsTotal(db, cutoff, runs, k);
  }

  /** Conservation, for every sequence of inserts and of committed or aborted retention runs with any
      cutoffs: hourly aggregates merged with the remaining raw samples equal the aggregate of every
      sample ever inserted, for each model and hour. So the schedule of runs is unobservable. */
  lemma {:induction false} RetentionConserves(steps: seq<Step>, runs: Runs, k: Bucket)
    ensures Conserved(Run(steps, runs), Inserted(steps), runs, k)
  {
    if steps == [] {
      EmptyConserves(EMPTY, Inserted(steps), runs, k);
    } else {
      RetentionConserves(Front(steps), runs, k);
      StepConserves(Run(Front(steps), runs), Inserted(Front(steps)), Last(steps), runs, k);
    }
  }

  lemma {:induction false} ScheduleIndependent(steps: seq<Step>, steps': seq<Step>, runs: Runs, k: Bucket)
    requires Inserted(steps) == Inserted(steps')
    ensures Total(Run(steps, runs), runs, k) == Total(Run(steps', runs), runs, k)
  {
    RetentionConserves(steps, runs, k);
    RetentionConserves(steps', runs, k);
  }

  // ---------------------------------------------------------------------------
  // What a run takes and what it leaves
  // ---------------------------------------------------------------------------

  /** An hour is 3,600,000,000 microseconds, and a bucket holds the samples of its model taken in its hour. */
  lemma {:induction false} BucketBounds(s: Sample, runs: Runs, k: Bucket)
    ensures InBucket(s, runs, k) <==>
            s.run in runs && runs[s.run] == k.model
            && k.hour * 3_600_000_000 <= s.at < k.hour * 3_600_000_000 + 3_600_000_000
  {
  }

  /** some stands at these positions of all, in order. */
  ghost predicate Positions(some: seq<Sample>, all: seq<Sample>, at: seq<nat>) {
    && |at| == |some|
    && (forall i :: 0 <= i < |at| ==> at[i] < |all| && some[i] == all[at[i]])
    && (forall i, j :: 0 <= i < j < |at| ==> at[i] < at[j])
  }

  /** recent is the rows of all taken at or after the cutoff, each as often, in their order. */
  ghost predicate LeavesFrom(all: seq<Sample>, recent: seq<Sample>, cutoff: int) {
    && (forall s :: multiset(recent)[s] == if s.at >= cutoff then multiset(all)[s] else 0)
    && exists at :: Positions(recent, all, at)
  }

  /** aged is the rows of all taken before the cutoff, each as often, in their order. */
  ghost predicate TakesBefore(all: seq<Sample>, aged: seq<Sample>, cutoff: int) {
    && (forall s :: multiset(aged)[s] == if s.at < cutoff then multiset(all)[s] else 0)
    && exists at :: Positions(aged, all, at)
  }

  lemma {:induction false} CutMultiset(samples: seq<Sample>, cutoff: int, aged: bool, s: Sample)
    ensures multiset(Cut(samples, cutoff, aged))[s] == if (s.at < cutoff) == aged then multiset(samples)[s] else 0
  {
    if samples != [] {
      CutMultiset(Front(samples), cutoff, aged, s);
      Snoc(samples);
      MultisetSnoc(Front(samples), Last(samples));
      MultisetSnoc(Cut(Front(samples), cutoff, aged), Last(samples));
    }
  }

  lemma {:induction false} PositionsSnoc(some: seq<Sample>, all: seq<Sample>, at: seq<nat>, x: Sample)
    requires Positions(some, all, at)
    ensures Positions(some, all + [x], at) && Positions(some + [x], all + [x], at + [|all|])
  {
  }

  lemma {:induction false} CutPositions(samples: seq<Sample>, cutoff: int, aged: bool) returns (at: seq<nat>)
    ensures Positions(Cut(samples, cutoff, aged), samples, at)
  {
    at := [];
    if samples != [] {
      at := CutPositions(Front(samples), cutoff, aged);
      PositionsSnoc(Cut(Front(samples), cutoff, aged), Front(samples), at, Last(samples));
      Snoc(samples);
      if (Last(samples).at < cutoff) == aged {
        at := at + [|Front(samples)|];
      }
    }
  }

  /** The rows of a bucket grew by what was taken, and a row is new exactly when something was. */
  ghost predicate Absorbs(before: map<Bucket, Aggregate>, after: map<Bucket, Aggregate>, taken: seq<Sample>,
                          runs: Runs) {
    forall k :: RowOf(after, k) == Merge(RowOf(before, k), Fold(taken, runs, k))
                && (k in after <==> k in before || exists s :: s in taken && InBucket(s, runs, k))
  }

  /** A committed retention run, without saying how: it leaves the rows from the cutoff on, takes
      those before it, and adds what it took to the aggregates. */
  ghost predicate Downsampled(db: Db, db': Db, cutoff: int, runs: Runs) {
    && LeavesFrom(db.raw, db'.raw, cutoff)
    && exists taken :: TakesBefore(db.raw, taken, cutoff) && Absorbs(db.hourly, db'.hourly, taken, runs)
  }

  lemma {:induction false} UpsertAbsorbs(hourly: map<Bucket, Aggregate>, samples: seq<Sample>, runs: Runs)
    ensures Absorbs(hourly, Upsert(hourly, samples, runs), samples, runs)
  {
    forall k
      ensures RowOf(Upsert(hourly, samples, runs), k) == Merge(RowOf(hourly, k), Fold(samples, runs, k))
      ensures k in Buckets(samples, runs) <==> exists s :: s in samples && InBucket(s, runs, k)
    {
      UpsertAdds(hourly, samples, runs, k);
    }
  }

  lemma {:induction false} RetainDownsamples(db: Db, cutoff: int, runs: Runs)
    ensures Downsampled(db, Retained(db, cutoff, runs), cutoff, runs)
  {
    forall s
      ensures multiset(Cut(db.raw, cutoff, false))[s] == if s.at >= cutoff then multiset(db.raw)[s] else 0
      ensures multiset(Cut(db.raw, cutoff, true))[s] == if s.at < cutoff then multiset(db.raw)[s] else 0
    {
      CutMultiset(db.raw, cutoff, false, s);
      CutMultiset(db.raw, cutoff, true, s);
    }
    var _ := CutPositions(db.raw, cutoff, false);
    var _ := CutPositions(db.raw, cutoff, true);
    UpsertAbsorbs(db.hourly, Cut(db.raw, cutoff, true), runs);
  }

  /** So does a committed run after any history; one that does not commit changes nothing. */
  lemma {:induction false} RunDownsamples(steps: seq<Step>, cutoff: int, commits: bool, runs: Runs)
    ensures var db, db' := Run(steps, runs), Run(steps + [Retain(cutoff, commits)], runs);
            if commits then Downsampled(db, db', cutoff, runs) else db' == db
  {
    FrontLast(steps, Retain(cutoff, commits));
    RetainDownsamples(Run(steps, runs), cutoff, runs);
  }

  /** How often a sample is still raw: inserted since the last committed run whose cutoff is after it. */
  function StillRaw(steps: seq<Step>, s: Sample): nat {
    if steps == [] then 0
    else match Last(steps)
      case Insert(x) => StillRaw(Front(steps), s) + if x == s then 1 else 0
      case Retain(cutoff, commits) => if commits && s.at < cutoff then 0 else StillRaw(Front(steps), s)
  }

  /** The raw table is bounded by the last cutoff: it holds exactly what the history says. */
  lemma {:induction false} RawIsHistory(steps: seq<Step>, runs: Runs, s: Sample)
    ensures multiset(Run(steps, runs).raw)[s] == StillRaw(steps, s)
  {
    if steps != [] {
      var db := Run(Front(steps), runs);
      RawIsHistory(Front(steps), runs, s);
      match Last(steps)
      case Insert(x) => MultisetSnoc(db.raw, x);
      case Retain(cutoff, _) => CutMultiset(db.raw, cutoff, false, s);
    }
  }

  ghost function OldRows(raw: seq<Sample>, cutoff: int): set<int> {
    set i | 0 <= i < |raw| && raw[i].at < cutoff
  }

  lemma {:induction false} CutLength(samples: seq<Sample>, cutoff: int)
    ensures |Cut(samples, cutoff, true)| == |OldRows(samples, cutoff)|
  {
    if samples != [] {
      var front, n := Front(samples), |samples| - 1;
      CutLength(front, cutoff);
      assert OldRows(samples, cutoff) == OldRows(front, cutoff) + if Last(samples).at < cutoff then {n} else {};
      assert n !in OldRows(front, cutoff);
    }
  }

  // ---------------------------------------------------------------------------
  // What an aggregate means
  // ---------------------------------------------------------------------------

  /** The values one field takes over the samples of a bucket. */
  function Values(samples: seq<Sample>, runs: Runs, k: Bucket, field: Sample -> Option<real>): seq<real> {
    if samples == [] then []
    else if InBucket(Last(samples), runs, k) && field(Last(samples)).Some?
    then Values(Front(samples), runs, k, field) + [field(Last(samples)).value]
    else Values(Front(samples), runs, k, field)
  }

  function Sum(values: seq<real>): real {
    if values == [] then 0.0 else Sum(Front(values)) + Last(values)
  }

  ghost predicate IsMax(samples: seq<Sample>, runs: Runs, k: Bucket, m: Option<int>) {
    match m
    case None => forall s :: s in samples && InBucket(s, runs, k) ==> s.vram.None?
    case Some(v) =>
      && (exists s :: s in samples && InBucket(s, runs, k) && s.vram == Some(v))
      && (forall s :: s in samples && InBucket(s, runs, k) && s.vram.Some? ==> s.vram.value <= v)
  }

  /** Null-aware, field by field: each sum and count is over the non-null values of the bucket's
      samples, and the maximum is the largest non-null one, null if there is none. */
  lemma {:induction false} FoldMeans(samples: seq<Sample>, runs: Runs, k: Bucket)
    ensures var a := Fold(samples, runs, k);
            var ttft, tpot, vram := Values(samples, runs, k, (s: Sample) => s.ttft),
                                    Values(samples, runs, k, (s: Sample) => s.tpot),
                                    Values(samples, runs, k, Bytes);
            && a.ttftSum == Sum(ttft) && a.ttftCount == |ttft|
            && a.tpotSum == Sum(tpot) && a.tpotCount == |tpot|
            && a.vramSum == Sum(vram) && a.vramCount == |vram|
            && IsMax(samples, runs, k, a.vramMax)
  {
    if samples != [] {
      var front, last := Front(samples), Last(samples);
      FoldMeans(front, runs, k);
      assert samples == front + [last];
    }
  }

  /** The mean a bucket reports; null when no sample carried a value. */
  function SafeAvg(sum: real, count: nat): Option<real> {
    if count == 0 then None else Some(sum / count as real)
  }

  /** The mean of a list of values, null for none. */
  function Mean(values: seq<real>): Option<real> {
    if values == [] then None else Some(Sum(values) / |values| as real)
  }

  /** After any schedule that has pruned everything, the stored means are the means of all samples. */
  lemma {:induction false} StoredMeanIsTrueMean(steps: seq<Step>, runs: Runs, k: Bucket)
    requires Run(steps, runs).raw == []
    ensures var a, all := Stored(Run(steps, runs), k), Inserted(steps);
            && SafeAvg(a.ttftSum, a.ttftCount) == Mean(Values(all, runs, k, (s: Sample) => s.ttft))
            && SafeAvg(a.tpotSum, a.tpotCount) == Mean(Values(all, runs, k, (s: Sample) => s.tpot))
            && SafeAvg(a.vramSum, a.vramCount) == Mean(Values(all, runs, k, Bytes))
  {
    RetentionConserves(steps, runs, k);
    MergeZero(Stored(Run(steps, runs), k));
    FoldMeans(Inserted(steps), runs, k);
  }

  // ---------------------------------------------------------------------------
  // Between the two statements
  // ---------------------------------------------------------------------------

  /** The transaction statement by statement, at the isolation level where each statement sees the
      rows committed before it: late rows were committed between the upsert and the delete. */
  function RetainedWithLate(db: Db, cutoff: int, late: seq<Sample>, runs: Runs): Db {
    Db(Cut(db.raw + late, cutoff, false), Upsert(db.hourly, Cut(db.raw, cutoff, true), runs))
  }

  predicate Blank(s: Sample) {
    s.ttft.None? && s.tpot.None? && s.vram.None?
  }

  /** A late row is harmless when the delete keeps it, when no run names its model, or when it has no values. */
  predicate Harmless(s: Sample, cutoff: int, runs: Runs) {
    s.at >= cutoff || s.run !in runs || Blank(s)
  }

  lemma {:induction false} CutConcat(a: seq<Sample>, b: seq<Sample>, cutoff: int, aged: bool)
    ensures Cut(a + b, cutoff, aged) == Cut(a, cutoff, aged) + Cut(b, cutoff, aged)
  {
    if b == [] {
      assert a + b == a;
    } else {
      CutConcat(a, Front(b), cutoff, aged);
      assert Front(a + b) == a + Front(b) && Last(a + b) == Last(b);
    }
  }

  lemma {:induction false} FoldConcat(a: seq<Sample>, b: seq<Sample>, runs: Runs, k: Bucket)
    ensures Fold(a + b, runs, k) == Merge(Fold(a, runs, k), Fold(b, runs, k))
  {
    if b == [] {
      assert a + b == a;
      MergeZero(Fold(a, runs, k));
    } else {
      FoldConcat(a, Front(b), runs, k);
      assert Front(a + b) == a + Front(b) && Last(a + b) == Last(b);
      MergeAssoc(Fold(a, runs, k), Fold(Front(b), runs, k), One(Last(b)));
    }
  }

  /** What the interleaving loses is exactly the aggregate of the late rows below the cutoff. */
  lemma {:induction false} LateRowsLost(db: Db, cutoff: int, late: seq<Sample>, runs: Runs, k: Bucket)
    ensures Merge(Total(RetainedWithLate(db, cutoff, late, runs), runs, k), Fold(Cut(late, cutoff, true), runs, k))
         == Merge(Total(db, runs, k), Fold(late, runs, k))
  {
    var stored, recent := Stored(Retained(db, cutoff, runs), k), Fold(Cut(db.raw, cutoff, false), runs, k);
    var lateOld, lateNew := Fold(Cut(late, cutoff, true), runs, k), Fold(Cut(late, cutoff, false), runs, k);
    CutConcat(db.raw, late, cutoff, false);
    FoldConcat(Cut(db.raw, cutoff, false), Cut(late, cutoff, false), runs, k);
    RetainKeepsTotal(db, cutoff, runs, k);
    FoldSplits(late, cutoff, runs, k);
    MergeAssoc(stored, recent, lateNew);
    MergeSwap(Merge(stored, recent), lateNew, lateOld);
    MergeAssoc(Merge(stored, recent), lateOld, lateNew);
  }

  function Weight(a: Aggregate): nat {
    a.ttftCount + a.tpotCount + a.vramCount
  }

  lemma {:induction false} BlankFold(samples: seq<Sample>, runs: Runs, k: Bucket)
    requires forall s :: s in samples && s.run in runs ==> Blank(s)
    ensures Fold(samples, runs, k) == ZERO
  {
    if samples != [] {
      assert samples == Front(samples) + [Last(samples)];
      BlankFold(Front(samples), runs, k);
      assert Last(samples) in samples;
    }
  }

  lemma {:induction false} HeavyFold(samples: seq<Sample>, runs: Runs, s: Sample)
    requires s in samples && s.run in runs && !Blank(s)
    ensures Weight(Fold(samples, runs, Bucket(runs[s.run], s.at / HOUR))) > 0
  {
    assert samples == Front(samples) + [Last(samples)];
    if s != Last(samples) {
      HeavyFold(Front(samples), runs, s);
    }
  }

  /** A retention run prunes exactly the samples older than the cutoff. */
  lemma {:induction false} InCut(samples: seq<Sample>, cutoff: int, s: Sample)
    ensures s in Cut(samples, cutoff, true) <==> s in samples && s.at < cutoff
    ensures s in Cut(samples, cutoff, false) <==> s in samples && s.at >= cutoff
  {
    if samples != [] {
      InCut(Front(samples), cutoff, s);
      assert samples == Front(samples) + [Last(samples)];
    }
  }

  /** When the interleaving still conserves: if and only if every late row is harmless. */
  lemma {:induction false} LateRowsExact(db: Db, cutoff: int, late: seq<Sample>, runs: Runs)
    ensures (forall k :: Total(RetainedWithLate(db, cutoff, late, runs), runs, k)
                      == Merge(Total(db, runs, k), Fold(late, runs, k)))
            <==> (forall s :: s in late ==> Harmless(s, cutoff, runs))
  {
    var lost := Cut(late, cutoff, true);
    if forall s :: s in late ==> Harmless(s, cutoff, runs) {
      forall k
        ensures Total(RetainedWithLate(db, cutoff, late, runs), runs, k)
             == Merge(Total(db, runs, k), Fold(late, runs, k))
      {
        forall s | s in lost && s.run in runs
          ensures Blank(s)
        {
          InCut(late, cutoff, s);
        }
        BlankFold(lost, runs, k);
        LateRowsLost(db, cutoff, late, runs, k);
        MergeZero(Total(RetainedWithLate(db, cutoff, late, runs), runs, k));
      }
    } else {
      var s :| s in late && !Harmless(s, cutoff, runs);
      var k := Bucket(runs[s.run], s.at / HOUR);
      InCut(late, cutoff, s);
      HeavyFold(lost, runs, s);
      LateRowsLost(db, cutoff, late, runs, k);
      assert Weight(Merge(Total(db, runs, k), Fold(late, runs, k)))
          > Weight(Total(RetainedWithLate(db, cutoff, late, runs), runs, k));
    }
  }

  /** Two transactions overlapping: both upserts read the rows before either delete commits. The
      second upsert waits for the first's rows and then adds to them. */
  function Overlapped(db: Db, first: int, second: int, runs: Runs): Db {
    Db(Cut(Cut(db.raw, first, false), second, false),
       Upsert(Upsert(db.hourly, Cut(db.raw, first, true), runs), Cut(db.raw, second, true), runs))
  }

  function Least(a: int, b: int): int { if a <= b then a else b }
  function Greater(a: int, b: int): int { if a <= b then b else a }

  lemma {:induction false} CutTwice(samples: seq<Sample>, c: int, d: int)
    ensures Cut(Cut(samples, c, false), d, false) == Cut(samples, Greater(c, d), false)
  {
    if samples != [] {
      CutTwice(Front(samples), c, d);
      FrontLast(Cut(Front(samples), c, false), Last(samples));
    }
  }

  /** Overlapping runs, in either order and with any cutoffs, count the rows below both cutoffs twice. */
  lemma {:induction false} OverlapCountsTwice(db: Db, first: int, second: int, runs: Runs, k: Bucket)
    ensures Total(Overlapped(db, first, second, runs), runs, k)
         == Merge(Total(db, runs, k), Fold(Cut(db.raw, Least(first, second), true), runs, k))
  {
    var lo, hi := Least(first, second), Greater(first, second);
    var below, above := Fold(Cut(db.raw, lo, true), runs, k), Fold(Cut(db.raw, hi, true), runs, k);
    CutTwice(db.raw, first, second);
    StoredOverlapped(db, first, second, runs, k);
    if second < first {
      MergeSwap(Stored(db, k), above, below);
    }
    assert Stored(Overlapped(db, first, second, runs), k) == Merge(Merge(Stored(db, k), below), above);
    FoldSplits(db.raw, hi, runs, k);
    Regroup(Stored(db, k), below, above, Fold(Cut(db.raw, hi, false), runs, k));
  }

  lemma {:induction false} StoredOverlapped(db: Db, first: int, second: int, runs: Runs, k: Bucket)
    ensures Stored(Overlapped(db, first, second, runs), k) ==
            Merge(Merge(Stored(db, k), Fold(Cut(db.raw, first, true), runs, k)),
                  Fold(Cut(db.raw, second, true), runs, k))
  {
    var once := Upsert(db.hourly, Cut(db.raw, first, true), runs);
    UpsertAdds(once, Cut(db.raw, second, true), runs, k);
    assert RowOf(once, k) == Merge(Stored(db, k), Fold(Cut(db.raw, first, true), runs, k)) by {
      UpsertAdds(db.hourly, Cut(db.raw, first, true), runs, k);
    }
  }

  lemma {:induction false} Regroup(a: Aggregate, b: Aggregate, c: Aggregate, d: Aggregate)
    ensures Merge(Merge(Merge(a, b), c), d) == Merge(Merge(a, Merge(c, d)), b)
  {
    MergeSwap(a, b, c);
    MergeSwap(Merge(a, c), b, d);
    MergeAssoc(a, c, d);
  }

  /** So overlapping runs conserve if and only if the rows below both cutoffs carry nothing. */
  lemma {:induction false} OverlapExact(db: Db, first: int, second: int, runs: Runs)
    ensures (forall k :: Total(Overlapped(db, first, second, runs), runs, k) == Total(db, runs, k))
            <==> (forall s :: s in db.raw ==> Harmless(s, Least(first, second), runs))
  {
    var lo := Least(first, second);
    var twice := Cut(db.raw, lo, true);
    if forall s :: s in db.raw ==> Harmless(s, lo, runs) {
      forall s | s in twice && s.run in runs
        ensures Blank(s)
      {
        InCut(db.raw, lo, s);
      }
      forall k
        ensures Total(Overlapped(db, first, second, runs), runs, k) == Total(db, runs, k)
      {
        BlankFold(twice, runs, k);
        OverlapCountsTwice(db, first, second, runs, k);
        MergeZero(Total(db, runs, k));
      }
    } else {
      var s :| s in db.raw && !Harmless(s, lo, runs);
      var k := Bucket(runs[s.run], s.at / HOUR);
      InCut(db.raw, lo, s);
      HeavyFold(twice, runs, s);
      OverlapCountsTwice(db, first, second, runs, k);
      assert Weight(Total(Overlapped(db, first, second, runs), runs, k)) > Weight(Total(db, runs, k));
    }
  }

  // Failing inputs: any row below the cutoff whose run is known, such as ROW.

  lemma {:induction false} FoldOne(row: Sample, runs: Runs, k: Bucket)
    requires InBucket(row, runs, k)
    ensures Fold([row], runs, k) == One(row)
  {
    FoldAppend([], row, runs, k);
    assert [] + [row] == [row];
    MergeZero(One(row));
  }

  lemma {:induction false} CutOne(row: Sample, cutoff: int, aged: bool)
    ensures Cut([row], cutoff, aged) == if (row.at < cutoff) == aged then [row] else []
  {
    assert Front([row]) == [] && Last([row]) == row;
  }

  lemma {:induction false} WeightLost(db: Db, cutoff: int, late: seq<Sample>, runs: Runs, k: Bucket)
    requires Cut(late, cutoff, true) == late
    ensures Weight(Total(RetainedWithLate(db, cutoff, late, runs), runs, k)) == Weight(Total(db, runs, k))
  {
    LateRowsLost(db, cutoff, late, runs, k);
  }

  /** Committed between the two statements, such a row adds to no count and is pruned. */
  lemma {:induction false} LateRowVanishes(db: Db, cutoff: int, row: Sample, runs: Runs, k: Bucket)
    requires row.at < cutoff && InBucket(row, runs, k)
    ensures Weight(Total(RetainedWithLate(db, cutoff, [row], runs), runs, k)) == Weight(Total(db, runs, k))
    ensures row !in RetainedWithLate(db, cutoff, [row], runs).raw
  {
    CutOne(row, cutoff, true);
    WeightLost(db, cutoff, [row], runs, k);
    InCut(db.raw + [row], cutoff, row);
  }

  /** Under two overlapping runs, such a row is counted twice. */
  lemma {:induction false} OverlapDoublesRow(hourly: map<Bucket, Aggregate>, cutoff: int, row: Sample,
                                             runs: Runs, k: Bucket)
    requires row.at < cutoff && InBucket(row, runs, k)
    ensures var db, db' := Db([row], hourly), Overlapped(Db([row], hourly), cutoff, cutoff, runs);
            Total(db', runs, k) == Merge(Total(db, runs, k), One(row))
  {
    FoldOne(row, runs, k);
    CutOne(row, cutoff, true);
    OverlapCountsTwice(Db([row], hourly), cutoff, cutoff, runs, k);
  }

  /** The row of one first-token time of 5 ms, taken at time 0 in a run of model "m", is such a row. */
  lemma {:induction false} SuchARow()
    ensures var row, runs, k := Sample("r", 0, Some(5.0), None, None), map["r" := "m"], Bucket("m", 0);
            row.at < 1 && InBucket(row, runs, k) && !Harmless(row, 1, runs) && Weight(One(row)) == 1
  {
  }

  // ---------------------------------------------------------------------------
  // The tables, in place
  // ---------------------------------------------------------------------------

  class Tables {
    var raw: seq<Sample>
    var hourly: map<Bucket, Aggregate>

    constructor ()
      ensures Contents() == EMPTY
    {
      raw, hourly := [], map[];
    }

    ghost function Contents(): Db
      reads this
    {
      Db(raw, hourly)
    }

    method Create(s: Sample)
      modifies this
      ensures raw == old(raw) + [s] && hourly == old(hourly)
    {
      raw := raw + [s];
    }

    /** One retention job: all of it or, when the transaction does not commit, none of it. */
    method RunJob(cutoff: int, commits: bool, runs: Runs) returns (pruned: nat)
      modifies this
      ensures Contents() == Apply(old(Contents()), Retain(cutoff, commits), runs)
      ensures commits ==> Downsampled(old(Contents()), Contents(), cutoff, runs)
      ensures !commits ==> Contents() == old(Contents())
      ensures pruned == if commits then |OldRows(old(raw), cutoff)| else 0
      ensures forall k :: Total(Contents(), runs, k) == Total(old(Contents()), runs, k)
    {
      forall k
        ensures Total(Retained(Contents(), cutoff, runs), runs, k) == Total(Contents(), runs, k)
      {
        RetainKeepsTotal(Contents(), cutoff, runs, k);
      }
      if !commits {
        return 0;
      }
      CutLength(raw, cutoff);
      RetainDownsamples(Contents(), cutoff, runs);
      var aged, recent := Cut(raw, cutoff, true), Cut(raw, cutoff, false);
      hourly := Upsert(hourly, aged, runs);
      raw := recent;
      pruned := |aged|;
    }
  }
}
