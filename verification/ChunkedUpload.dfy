/** Multipart upload of one artifact: a sequential reader cuts the source into parts, a bounded
    number of workers upload them concurrently and finish in any order, and the completed parts
    are sorted and submitted. Scheduling and failures are free choices of the model. */
module ChunkedUpload {
  import opened Common

  type Bytes = seq<bv8>

  /** What the source reports once its bytes are used up: the end of the stream, an
      unexpected end of the stream (as a cut connection does), or any other failure. */
  datatype End = CleanEnd | UnexpectedEnd | ReadFailure

  /** The bytes, what the read that delivers the last of them reports along with them, if anything,
      and what every read after that reports. */
  datatype Source = Source(bytes: Bytes, withLast: Option<End>, end: End)

  datatype Part = Part(number: int, etag: string)
  datatype Stored = Stored(data: Bytes, etag: string)

  /** How a full read of one buffer ends. */
  datatype ReadStatus = Filled | AtEnd | Failed

  const DEFAULT_PART_SIZE := 64 * 1024 * 1024
  const DEFAULT_CONCURRENCY := 4

  /** Sizes that are not positive fall back to the defaults. */
  function PartSizeFor(requested: int): (size: nat)
    ensures requested > 0 ==> size == requested
    ensures requested <= 0 ==> size == 67_108_864
  {
    if requested <= 0 then DEFAULT_PART_SIZE else requested
  }

  function ConcurrencyFor(requested: int): (n: nat)
    ensures requested > 0 ==> n == requested
    ensures requested <= 0 ==> n == 4
  {
    if requested <= 0 then DEFAULT_CONCURRENCY else requested
  }

  function Min(a: int, b: int): int { if a < b then a else b }

  /** One buffer filled from what is left. A report that comes with the bytes that fill the buffer is
      dropped; a short read at the end of the source and an unexpected end reported by the source
      itself cannot be told apart. */
  function ReadFull(rest: Bytes, src: Source, size: nat): (nat, ReadStatus) {
    if |rest| >= size then (size, Filled)
    else
      var report := if rest != [] && src.withLast.Some? then src.withLast.value else src.end;
      (|rest|, if report.ReadFailure? then Failed else AtEnd)
  }

  /** The source cut into parts of size bytes, the last one possibly shorter. */
  function Chunks(bytes: Bytes, size: nat): seq<Bytes>
    requires size > 0
  {
    if bytes == [] then []
    else var n := Min(size, |bytes|); [bytes[..n]] + Chunks(bytes[n..], size)
  }

  function Joined(chunks: seq<Bytes>): Bytes {
    if chunks == [] then [] else chunks[0] + Joined(chunks[1..])
  }

  /** Cutting loses nothing: the parts joined are the source, and all but the last are full. */
  lemma {:induction false} ChunksJoin(bytes: Bytes, size: nat)
    requires size > 0
    ensures Joined(Chunks(bytes, size)) == bytes
    ensures forall i :: 0 <= i < |Chunks(bytes, size)| - 1 ==> |Chunks(bytes, size)[i]| == size
    ensures bytes != [] ==> 0 < |Last(Chunks(bytes, size))| <= size
    ensures bytes == [] <==> Chunks(bytes, size) == []
  {
    if bytes != [] {
      var n := Min(size, |bytes|);
      ChunksJoin(bytes[n..], size);
      assert bytes == bytes[..n] + bytes[n..];
    }
  }

  lemma {:induction false} CountSnoc(a: int, n: int, size: int)
    ensures (n + 1) * size == n * size + size
    ensures a - size <= n * size <==> a <= (n + 1) * size
    ensures (n - 1) * size < a - size <==> n * size < a
  {
    assert (n + 1) * size == n * size + size;
    assert (n - 1) * size == n * size - size;
  }

  /** There are as many parts as the length over the part size, rounded up. */
  lemma {:induction false} ChunksCount(bytes: Bytes, size: nat)
    requires size > 0
    ensures (|Chunks(bytes, size)| - 1) * size < |bytes| <= |Chunks(bytes, size)| * size || bytes == []
  {
    if |bytes| > size {
      ChunksCount(bytes[size..], size);
      CountSnoc(|bytes|, |Chunks(bytes[size..], size)|, size);
    } else if bytes != [] {
      assert bytes[|bytes|..] == [];
      assert |Chunks(bytes, size)| == 1;
    }
  }

  // ---------------------------------------------------------------------------
  // Sorting the completed parts
  // ---------------------------------------------------------------------------

  function PartNumber(p: Part): int { p.number }

  function SortParts(parts: seq<Part>): seq<Part> {
    SortBy(parts, PartNumber)
  }

  /** At most one part per number. */
  ghost predicate OnePerNumber(parts: seq<Part>) {
    && (forall p :: p in parts ==> multiset(parts)[p] <= 1)
    && (forall p, q :: p in parts && q in parts && p.number == q.number ==> p == q)
  }

  lemma {:induction false} AppendOne(parts: seq<Part>, p: Part)
    requires OnePerNumber(parts) && forall q :: q in parts ==> q.number != p.number
    ensures OnePerNumber(parts + [p])
  {
    assert p !in parts;
  }

  lemma {:induction false} SortedMembers(parts: seq<Part>, p: Part)
    ensures p in SortParts(parts) <==> p in parts
  {
    SortBySorts(parts, PartNumber);
    assert p in SortParts(parts) <==> p in multiset(SortParts(parts));
  }

  lemma {:induction false} SortedStrictly(parts: seq<Part>)
    requires OnePerNumber(parts)
    ensures var s := SortParts(parts); forall i, j :: 0 <= i < j < |s| ==> s[i].number < s[j].number
  {
    var s := SortParts(parts);
    SortBySorts(parts, PartNumber);
    forall p
      ensures p in s <==> p in parts
    {
      SortedMembers(parts, p);
    }
    DistinctFromMultiset(s);
    forall i, j | 0 <= i < j < |s|
      ensures s[i].number < s[j].number
    {
      assert s[i] in parts && s[j] in parts && s[i] != s[j];
    }
  }

  /** Sorting any completion order of one part per number 1..n gives the parts in order. */
  lemma {:induction false} SortedIsInOrder(parts: seq<Part>, n: nat)
    requires OnePerNumber(parts)
    requires forall p :: p in parts ==> 1 <= p.number <= n
    requires forall k :: 1 <= k <= n ==> HasPart(parts, k)
    ensures var sorted := SortParts(parts);
            |sorted| == n && forall i :: 0 <= i < n ==> sorted[i].number == i + 1 && sorted[i] in parts
  {
    var sorted := SortParts(parts);
    SortedStrictly(parts);
    forall i | 0 <= i < |sorted|
      ensures sorted[i] in parts
    {
      SortedMembers(parts, sorted[i]);
    }
    forall k | 1 <= k <= n
      ensures HasPart(sorted, k)
    {
      assert HasPart(parts, k);
      var i :| 0 <= i < |parts| && parts[i].number == k;
      SortedMembers(parts, parts[i]);
    }
    InOrder(sorted, n);
  }

  ghost predicate HasPart(parts: seq<Part>, k: int) {
    exists i :: 0 <= i < |parts| && parts[i].number == k
  }

  lemma {:induction false} InOrder(sorted: seq<Part>, n: nat)
    requires forall i, j :: 0 <= i < j < |sorted| ==> sorted[i].number < sorted[j].number
    requires forall i :: 0 <= i < |sorted| ==> 1 <= sorted[i].number <= n
    requires forall k :: 1 <= k <= n ==> HasPart(sorted, k)
    ensures |sorted| == n && forall i :: 0 <= i < n ==> sorted[i].number == i + 1
  {
    assert sorted != [] ==> 1 <= sorted[0].number <= n;
    if n > 0 {
      assert HasPart(sorted, n);
      var last := |sorted| - 1;
      assert sorted[last].number == n;
      forall k | 1 <= k <= n - 1
        ensures HasPart(Front(sorted), k)
      {
        assert HasPart(sorted, k);
        var i :| 0 <= i < |sorted| && sorted[i].number == k;
        assert Front(sorted)[i].number == k;
      }
      InOrder(Front(sorted), n - 1);
    }
  }

  // ---------------------------------------------------------------------------
  // The concurrent upload
  // ---------------------------------------------------------------------------

  /** The shared state: parts read so far, uploads in flight, the parts slice in completion
      order, what the object store holds, and the numbers whose upload failed. */
  datatype State = State(read: nat, inflight: map<int, Bytes>, parts: seq<Part>, remote: map<int, Stored>,
                         failed: set<int>)

  /** The reader hands over the next chunk: already completed parts are kept, others start uploading. */
  function Launch(st: State, data: Bytes, already: map<int, Part>): State {
    var k := st.read + 1;
    if k in already then st.(read := k, parts := st.parts + [already[k]])
    else st.(read := k, inflight := st.inflight[k := data])
  }

  /** An upload in flight ends. */
  function Finish(st: State, k: int, ok: bool, etag: string): State
    requires k in st.inflight
  {
    if ok
    then st.(inflight := st.inflight - {k}, parts := st.parts + [Part(k, etag)],
             remote := st.remote[k := Stored(st.inflight[k], etag)])
    else st.(inflight := st.inflight - {k}, failed := st.failed + {k})
  }

  ghost predicate WellKeyed(already: map<int, Part>) {
    forall k :: k in already ==> already[k].number == k
  }

  /** Part k is accounted for: listed already, in flight, failed, or uploaded with its chunk. */
  ghost predicate Settled(st: State, already: map<int, Part>, k: int) {
    if k in already then already[k] in st.parts else k in st.inflight || k in st.failed || HasPart(st.parts, k)
  }

  ghost predicate Faithful(st: State, chunks: seq<Bytes>, already: map<int, Part>, p: Part) {
    && 1 <= p.number <= st.read <= |chunks|
    && (if p.number in already then p == already[p.number]
        else p.number in st.remote && st.remote[p.number] == Stored(chunks[p.number - 1], p.etag))
  }

  /** Uploads in flight carry their chunk, and neither they nor the failed ones have a part yet. */
  ghost predicate Flying(st: State, chunks: seq<Bytes>, already: map<int, Part>) {
    && (forall k :: k in st.inflight ==>
          1 <= k <= st.read <= |chunks| && k !in already && st.inflight[k] == chunks[k - 1])
    && (forall k :: k in st.failed ==> 1 <= k <= st.read && k !in already && k !in st.inflight)
    && (forall k :: k in st.inflight || k in st.failed ==> !HasPart(st.parts, k))
  }

  ghost predicate AllSettled(st: State, already: map<int, Part>) {
    forall k :: 1 <= k <= st.read ==> Settled(st, already, k)
  }

  ghost predicate AllFaithful(st: State, chunks: seq<Bytes>, already: map<int, Part>) {
    forall p :: p in st.parts ==> Faithful(st, chunks, already, p)
  }

  /** What was listed as completed is stored as it was. */
  ghost predicate Kept(st: State, already: map<int, Part>, listed: map<int, Stored>) {
    forall k :: k in already && k in listed ==> k in st.remote && st.remote[k] == listed[k]
  }

  ghost predicate Inv(st: State, chunks: seq<Bytes>, already: map<int, Part>, listed: map<int, Stored>) {
    && st.read <= |chunks| && WellKeyed(already) && OnePerNumber(st.parts) && Flying(st, chunks, already)
    && AllSettled(st, already) && AllFaithful(st, chunks, already) && Kept(st, already, listed)
  }

  lemma {:induction false} AppendedPart(parts: seq<Part>, p: Part, k: int)
    ensures HasPart(parts + [p], k) <==> HasPart(parts, k) || p.number == k
  {
    var all := parts + [p];
    if HasPart(parts, k) {
      var i :| 0 <= i < |parts| && parts[i].number == k;
      assert all[i].number == k;
    }
    if p.number == k {
      assert all[|parts|].number == k;
    }
  }

  lemma {:induction false} AppendedParts(parts: seq<Part>, p: Part, parts': seq<Part>)
    requires parts' == parts + [p]
    ensures forall k :: HasPart(parts', k) <==> HasPart(parts, k) || k == p.number
  {
    forall k
      ensures HasPart(parts', k) <==> HasPart(parts, k) || k == p.number
    {
      AppendedPart(parts, p, k);
    }
  }

  lemma {:induction false} NumbersFresh(parts: seq<Part>, k: int)
    requires !HasPart(parts, k)
    ensures forall q :: q in parts ==> q.number != k
  {
  }

  lemma {:induction false} NextUnused(st: State, chunks: seq<Bytes>, already: map<int, Part>, listed: map<int, Stored>)
    requires Inv(st, chunks, already, listed)
    ensures !HasPart(st.parts, st.read + 1)
  {
    assert forall i :: 0 <= i < |st.parts| ==> Faithful(st, chunks, already, st.parts[i]);
  }

  lemma {:induction false} LaunchKeeps(st: State, chunks: seq<Bytes>, already: map<int, Part>, listed: map<int, Stored>)
    requires Inv(st, chunks, already, listed) && st.read < |chunks|
    ensures Inv(Launch(st, chunks[st.read], already), chunks, already, listed)
  {
    NextUnused(st, chunks, already, listed);
    if st.read + 1 in already {
      SkipKeeps(st, chunks, already, listed);
    } else {
      StartKeeps(st, chunks, already, listed);
    }
  }

  lemma {:induction false} SkipFlies(st: State, chunks: seq<Bytes>, already: map<int, Part>)
    requires Flying(st, chunks, already) && WellKeyed(already) && st.read < |chunks| && st.read + 1 in already
    ensures Flying(Launch(st, chunks[st.read], already), chunks, already)
  {
    AppendedParts(st.parts, already[st.read + 1], Launch(st, chunks[st.read], already).parts);
  }

  lemma {:induction false} SkipKeeps(st: State, chunks: seq<Bytes>, already: map<int, Part>, listed: map<int, Stored>)
    requires Inv(st, chunks, already, listed) && st.read < |chunks|
    requires st.read + 1 in already && !HasPart(st.parts, st.read + 1)
    ensures Inv(Launch(st, chunks[st.read], already), chunks, already, listed)
  {
    NumbersFresh(st.parts, st.read + 1);
    AppendOne(st.parts, already[st.read + 1]);
    SkipFlies(st, chunks, already);
    LaunchSettles(st, chunks[st.read], already);
    LaunchFaithful(st, chunks, already);
  }

  lemma {:induction false} SettledStays(st: State, st': State, already: map<int, Part>, j: int)
    requires st.parts <= st'.parts && (j in st.inflight ==> j in st'.inflight) && (j in st.failed ==> j in st'.failed)
    requires Settled(st, already, j) || (j in already && already[j] in st'.parts)
             || (j !in already && j in st'.inflight)
    ensures Settled(st', already, j)
  {
    if j !in already && HasPart(st.parts, j) {
      var i :| 0 <= i < |st.parts| && st.parts[i].number == j;
      assert st'.parts[i] == st.parts[i];
    }
  }

  lemma {:induction false} LaunchSettles(st: State, data: Bytes, already: map<int, Part>)
    requires AllSettled(st, already)
    ensures AllSettled(Launch(st, data, already), already)
  {
    var st' := Launch(st, data, already);
    assert st'.read in already ==> st'.parts[|st.parts|] == already[st'.read];
    forall j | 1 <= j <= st'.read
      ensures Settled(st', already, j)
    {
      SettledStays(st, st', already, j);
    }
  }

  lemma {:induction false} LaunchFaithful(st: State, chunks: seq<Bytes>, already: map<int, Part>)
    requires AllFaithful(st, chunks, already) && WellKeyed(already) && st.read < |chunks|
    ensures AllFaithful(Launch(st, chunks[st.read], already), chunks, already)
  {
    var st' := Launch(st, chunks[st.read], already);
    forall p | p in st'.parts
      ensures Faithful(st', chunks, already, p)
    {
      assert p in st.parts ==> Faithful(st, chunks, already, p);
    }
  }

  lemma {:induction false} StartFlies(st: State, chunks: seq<Bytes>, already: map<int, Part>)
    requires Flying(st, chunks, already) && st.read < |chunks|
    requires st.read + 1 !in already && !HasPart(st.parts, st.read + 1)
    ensures Flying(Launch(st, chunks[st.read], already), chunks, already)
  {
  }

  lemma {:induction false} StartKeeps(st: State, chunks: seq<Bytes>, already: map<int, Part>, listed: map<int, Stored>)
    requires Inv(st, chunks, already, listed) && st.read < |chunks|
    requires st.read + 1 !in already && !HasPart(st.parts, st.read + 1)
    ensures Inv(Launch(st, chunks[st.read], already), chunks, already, listed)
  {
    StartFlies(st, chunks, already);
    LaunchSettles(st, chunks[st.read], already);
    LaunchFaithful(st, chunks, already);
  }

  lemma {:induction false} FinishKeeps(st: State, chunks: seq<Bytes>, already: map<int, Part>, listed: map<int, Stored>,
                                       k: int, ok: bool, etag: string)
    requires Inv(st, chunks, already, listed) && k in st.inflight
    ensures Inv(Finish(st, k, ok, etag), chunks, already, listed)
  {
    var st' := Finish(st, k, ok, etag);
    NumbersFresh(st.parts, k);
    if ok {
      AppendOne(st.parts, Part(k, etag));
      AppendedParts(st.parts, Part(k, etag), st'.parts);
    }
    forall j | 1 <= j <= st'.read
      ensures Settled(st', already, j)
    {
      assert Settled(st, already, j);
    }
    forall p | p in st'.parts
      ensures Faithful(st', chunks, already, p)
    {
      if p in st.parts {
        assert Faithful(st, chunks, already, p) && p.number != k;
      }
    }
  }

  /** The object the store assembles from the parts submitted. */
  function Assembled(remote: map<int, Stored>, parts: seq<Part>): Bytes {
    if parts == [] then []
    else (if parts[0].number in remote then remote[parts[0].number].data else []) + Assembled(remote, parts[1..])
  }

  lemma {:induction false} AssembledIsJoined(remote: map<int, Stored>, parts: seq<Part>, chunks: seq<Bytes>)
    requires Carries(remote, parts, chunks)
    ensures Assembled(remote, parts) == Joined(chunks)
  {
    if parts != [] {
      AssembledIsJoined(remote, parts[1..], chunks[1..]);
    }
  }

  /** Already completed parts that hold the bytes of their own chunk. */
  ghost predicate Aligned(already: map<int, Part>, listed: map<int, Stored>, chunks: seq<Bytes>) {
    forall k :: k in already && 1 <= k <= |chunks| ==>
      k in listed && listed[k] == Stored(chunks[k - 1], already[k].etag)
  }

  /** Each submitted part is stored with the bytes of its own chunk. */
  ghost predicate Carries(remote: map<int, Stored>, parts: seq<Part>, chunks: seq<Bytes>) {
    |parts| == |chunks| &&
    forall i :: 0 <= i < |parts| ==>
      parts[i].number in remote && remote[parts[i].number] == Stored(chunks[i], parts[i].etag)
  }

  lemma {:induction false} FaithfulIsStored(st: State, chunks: seq<Bytes>, already: map<int, Part>,
                                            listed: map<int, Stored>, p: Part, i: int)
    requires Faithful(st, chunks, already, p) && Aligned(already, listed, chunks) && Kept(st, already, listed)
    requires p.number == i + 1
    ensures 0 <= i < |chunks| && p.number in st.remote && st.remote[p.number] == Stored(chunks[i], p.etag)
  {
  }

  lemma {:induction false} CarriesAll(st: State, chunks: seq<Bytes>, already: map<int, Part>, listed: map<int, Stored>,
                                      sorted: seq<Part>)
    requires Aligned(already, listed, chunks) && Kept(st, already, listed) && InSequence(sorted, |chunks|)
    requires forall i :: 0 <= i < |sorted| ==> Faithful(st, chunks, already, sorted[i])
    ensures Carries(st.remote, sorted, chunks)
  {
    forall i | 0 <= i < |sorted|
      ensures sorted[i].number in st.remote && st.remote[sorted[i].number] == Stored(chunks[i], sorted[i].etag)
    {
      FaithfulIsStored(st, chunks, already, listed, sorted[i], i);
    }
  }

  /** When everything was read, nothing is in flight and nothing failed, the sorted parts are
      1..n and carry the chunks. */
  lemma {:induction false} FinalParts(st: State, chunks: seq<Bytes>, already: map<int, Part>, listed: map<int, Stored>)
    requires Inv(st, chunks, already, listed)
    requires st.read == |chunks| && st.inflight == map[] && st.failed == {}
    ensures InSequence(SortParts(st.parts), |chunks|)
    ensures Aligned(already, listed, chunks) ==> Carries(st.remote, SortParts(st.parts), chunks)
  {
    forall k | 1 <= k <= |chunks|
      ensures HasPart(st.parts, k)
    {
      assert Settled(st, already, k);
      if k in already {
        var i :| 0 <= i < |st.parts| && st.parts[i] == already[k];
        assert st.parts[i].number == k;
      }
    }
    assert forall p :: p in st.parts ==> Faithful(st, chunks, already, p);
    SortedIsInOrder(st.parts, |chunks|);
    if Aligned(already, listed, chunks) {
      CarriesAll(st, chunks, already, listed, SortParts(st.parts));
    }
  }

  /** The failures so far are those of the parts that were read, tried and have ended. */
  ghost predicate FailedAre(st: State, already: map<int, Part>, fails: set<int>) {
    forall k :: k in st.failed <==> 1 <= k <= st.read && k in fails && k !in already && k !in st.inflight
  }

  /** The reader stands at chunk number read. */
  ghost predicate ReaderAt(read: nat, rest: Bytes, chunks: seq<Bytes>, size: nat) {
    size > 0 && read <= |chunks| && chunks[read..] == Chunks(rest, size)
  }

  lemma {:induction false} ReaderStep(read: nat, rest: Bytes, chunks: seq<Bytes>, size: nat)
    requires ReaderAt(read, rest, chunks, size)
    ensures rest == [] <==> read == |chunks|
    ensures rest != [] ==>
              var n := Min(size, |rest|);
              read < |chunks| && chunks[read] == rest[..n] && ReaderAt(read + 1, rest[n..], chunks, size)
  {
    ChunksJoin(rest, size);
    if rest != [] {
      assert chunks[read] == chunks[read..][0];
      assert chunks[read + 1..] == chunks[read..][1..];
    }
  }

  lemma {:induction false} ReaderDone(read: nat, rest: Bytes, chunks: seq<Bytes>, size: nat)
    requires ReaderAt(read, rest, chunks, size) && rest == []
    ensures read == |chunks|
  {
    ReaderStep(read, rest, chunks, size);
  }

  datatype Outcome =
    | Completed(size: nat, submitted: seq<Part>)
    | ReadError
    | PartError
    | CompleteError

  lemma {:induction false} LaunchFails(st: State, data: Bytes, already: map<int, Part>, fails: set<int>)
    requires FailedAre(st, already, fails) && (forall k :: k in st.inflight || k in st.failed ==> k <= st.read)
    ensures FailedAre(Launch(st, data, already), already, fails)
  {
  }

  lemma {:induction false} FinishFails(st: State, already: map<int, Part>, fails: set<int>, k: int, ok: bool,
                                       etag: string)
    requires FailedAre(st, already, fails) && k in st.inflight && 1 <= k <= st.read && k !in already
    requires ok <==> k !in fails
    ensures FailedAre(Finish(st, k, ok, etag), already, fails)
  {
  }

  lemma {:induction false} FailedIffAny(st: State, already: map<int, Part>, fails: set<int>)
    requires FailedAre(st, already, fails) && st.inflight == map[]
    ensures st.failed != {} <==> AnyFails(st.read, already, fails)
  {
    if !AnyFails(st.read, already, fails) {
      assert forall k :: k !in st.failed;
    }
  }

  ghost predicate FinishedAs(a: State, b: State, k: int, ok: bool, etag: string) {
    k in a.inflight && b == Finish(a, k, ok, etag)
  }

  /** From a to b the reader handed over the next chunk, or one upload in flight ended. */
  ghost predicate TransferStep(a: State, b: State, chunks: seq<Bytes>, already: map<int, Part>) {
    || (a.read < |chunks| && b == Launch(a, chunks[a.read], already))
    || exists k, ok, etag :: FinishedAs(a, b, k, ok, etag)
  }

  /** A whole transfer, state by state: never more uploads in flight than the limit. */
  ghost predicate Trace(trace: seq<State>, chunks: seq<Bytes>, already: map<int, Part>, limit: int) {
    && trace != []
    && (forall i :: 0 <= i < |trace| ==> |trace[i].inflight| <= limit)
    && (forall i :: 0 < i < |trace| ==> TransferStep(trace[i - 1], trace[i], chunks, already))
  }

  /** The trace so far, from the start to st. */
  ghost predicate Traced(trace: seq<State>, start: State, st: State, chunks: seq<Bytes>, already: map<int, Part>,
                         limit: int) {
    Trace(trace, chunks, already, limit) && trace[0] == start && Last(trace) == st && |st.inflight| <= limit
  }

  lemma {:induction false} TraceOn(trace: seq<State>, start: State, st: State, next: State, chunks: seq<Bytes>,
                                   already: map<int, Part>, limit: int)
    requires Traced(trace, start, st, chunks, already, limit) && TransferStep(st, next, chunks, already)
    requires |next.inflight| <= limit
    ensures Traced(trace + [next], start, next, chunks, already, limit)
  {
    var all := trace + [next];
    forall i | 0 < i < |all|
      ensures TransferStep(all[i - 1], all[i], chunks, already)
    {
      assert all[i - 1] == trace[i - 1];
      assert i < |trace| ==> all[i] == trace[i];
    }
  }

  lemma {:induction false} TraceLaunch(trace: seq<State>, start: State, st: State, chunks: seq<Bytes>,
                                       already: map<int, Part>, limit: int)
    requires Traced(trace, start, st, chunks, already, limit) && st.read < |chunks|
    requires |st.inflight| < limit || st.read + 1 in already
    ensures var next := Launch(st, chunks[st.read], already);
            Traced(trace + [next], start, next, chunks, already, limit)
  {
    var next := Launch(st, chunks[st.read], already);
    LaunchUses(st, chunks[st.read], already);
    TraceOn(trace, start, st, next, chunks, already, limit);
  }

  /** Uploads in flight were read and are not among the completed parts. */
  ghost predicate Tried(st: State, already: map<int, Part>) {
    forall k :: k in st.inflight ==> 1 <= k <= st.read && k !in already
  }

  /** Everything known while parts are in flight; the accounting needs completed parts under their own number. */
  ghost predicate Running(st: State, chunks: seq<Bytes>, already: map<int, Part>, listed: map<int, Stored>,
                          fails: set<int>) {
    Tried(st, already) && FailedAre(st, already, fails) && (WellKeyed(already) ==> Inv(st, chunks, already, listed))
  }

  /** One upload in flight, any of them, ends with any etag. */
  method FinishOne(st: State, ghost chunks: seq<Bytes>, ghost already: map<int, Part>, ghost listed: map<int, Stored>,
                   fails: set<int>)
    returns (st': State)
    requires Running(st, chunks, already, listed, fails) && |st.inflight| > 0
    ensures Running(st', chunks, already, listed, fails)
    ensures st'.read == st.read && |st'.inflight| == |st.inflight| - 1
    ensures TransferStep(st, st', chunks, already)
  {
    EmptyOrMember(st.inflight.Keys);
    assert |st.inflight.Keys| > 0;
    var k :| k in st.inflight.Keys;
    var ok, etag: string := k !in fails, *;
    if WellKeyed(already) {
      FinishKeeps(st, chunks, already, listed, k, ok, etag);
    }
    FinishFails(st, already, fails, k, ok, etag);
    st' := Finish(st, k, ok, etag);
    assert st'.inflight.Keys == st.inflight.Keys - {k};
    assert FinishedAs(st, st', k, ok, etag);
  }

  /** The reader fills one buffer and hands it over. */
  method ReadOne(st: State, rest: Bytes, src: Source, partSize: nat, ghost chunks: seq<Bytes>, already: map<int, Part>,
                 ghost listed: map<int, Stored>, ghost fails: set<int>)
    returns (st': State, n: nat, status: ReadStatus)
    requires Running(st, chunks, already, listed, fails) && ReaderAt(st.read, rest, chunks, partSize)
    ensures Running(st', chunks, already, listed, fails)
    ensures n == Min(partSize, |rest|) && ReaderAt(st'.read, rest[n..], chunks, partSize)
    ensures if n == 0 then st' == st else st.read < |chunks| && st' == Launch(st, chunks[st.read], already)
    ensures status == Filled ==> n == partSize && LoopEnd(rest[n..], src, partSize) == LoopEnd(rest, src, partSize)
    ensures status != Filled ==> n == |rest| && status == LoopEnd(rest, src, partSize)
  {
    ReaderStep(st.read, rest, chunks, partSize);
    st' := st;
    n, status := ReadFull(rest, src, partSize).0, ReadFull(rest, src, partSize).1;
    if n > 0 {
      if WellKeyed(already) {
        LaunchKeeps(st, chunks, already, listed);
      }
      LaunchFails(st, rest[..n], already, fails);
      st' := Launch(st, rest[..n], already);
    }
  }

  /** The read loop and the wait for every upload. Which upload in flight ends next, how the
      reader interleaves with them, the etags and the failing part numbers are arbitrary. */
  method Transfer(partSize: nat, concurrency: nat, src: Source, already: map<int, Part>, listed: map<int, Stored>,
                  fails: set<int>)
    returns (st: State, total: nat, readFailed: bool, ghost trace: seq<State>)
    requires partSize > 0 && concurrency > 0
    ensures Running(st, Chunks(src.bytes, partSize), already, listed, fails)
    ensures st.read == |Chunks(src.bytes, partSize)| && st.inflight == map[]
    ensures total == |src.bytes| && (readFailed <==> LoopEnd(src.bytes, src, partSize) == Failed)
    ensures Traced(trace, State(0, map[], [], listed, {}), st, Chunks(src.bytes, partSize), already, concurrency)
  {
    ghost var chunks, fate := Chunks(src.bytes, partSize), LoopEnd(src.bytes, src, partSize);
    st := State(0, map[], [], listed, {});
    ghost var start := st;
    trace := [st];
    var rest := src.bytes;
    var status := Filled;
    total := 0;
    while status == Filled || |st.inflight| > 0
      invariant Running(st, chunks, already, listed, fails)
      invariant ReaderAt(st.read, rest, chunks, partSize)
      invariant total + |rest| == |src.bytes|
      invariant status == Filled ==> LoopEnd(rest, src, partSize) == fate
      invariant status != Filled ==> rest == [] && status == fate
      invariant Traced(trace, start, st, chunks, already, concurrency)
      decreases |rest| + (if status == Filled then 1 else 0), |st.inflight|
    {
      var readNext: bool := *;
      ghost var before := st;
      // a part that needs no upload needs no slot either
      var free := |st.inflight| < concurrency || st.read + 1 in already;
      if status == Filled && (|st.inflight| == 0 || (readNext && free)) {
        var n;
        st, n, status := ReadOne(st, rest, src, partSize, chunks, already, listed, fails);
        total := total + n;
        rest := rest[n..];
        if n > 0 {
          TraceLaunch(trace, start, before, chunks, already, concurrency);
          trace := trace + [st];
        }
      } else {
        st := FinishOne(st, chunks, already, listed, fails);
        TraceOn(trace, start, before, st, chunks, already, concurrency);
        trace := trace + [st];
      }
    }
    ReaderDone(st.read, rest, chunks, partSize);
    readFailed := status == Failed;
  }

  lemma {:induction false} LaunchUses(st: State, data: Bytes, already: map<int, Part>)
    ensures |Launch(st, data, already).inflight| <= |st.inflight| + if st.read + 1 in already then 0 else 1
  {
    var k := st.read + 1;
    assert st.inflight[k := data].Keys == st.inflight.Keys + {k};
  }

  /** The parts submitted for n bytes: their number is n over the size, rounded up, and each but the
      last stores size bytes. */
  ghost predicate PartsSized(remote: map<int, Stored>, parts: seq<Part>, n: nat, size: int) {
    && RoundedUp(|parts|, n, size)
    && forall i :: 0 <= i < |parts| - 1 ==> parts[i].number in remote && |remote[parts[i].number].data| == size
  }

  predicate RoundedUp(count: int, n: nat, size: int) {
    if n == 0 then count == 0 else (count - 1) * size < n <= count * size
  }

  /** Resume, and with nothing completed before, Upload. For every completion order: it submits the parts
      in ascending order, and when those completed before are keyed by their own number, parts 1..n,
      whose stored bytes joined are the source; it reports the source's length. Any failed part, and any
      read failure the reader sees, ends in an abort and never completes. */
  method Resume(requestedSize: int, requestedConcurrency: int, src: Source, already: map<int, Part>,
                listed: map<int, Stored>, fails: set<int>, completes: bool)
    returns (out: Outcome, remote: map<int, Stored>, aborted: bool, ghost trace: seq<State>)
    ensures out.ReadError? <==> FailureSeen(src, PartSizeFor(requestedSize))
    ensures out.PartError? <==> !out.ReadError?
                                && AnyFails(|Chunks(src.bytes, PartSizeFor(requestedSize))|, already, fails)
    ensures out.Completed? || out.CompleteError? ==> (out.Completed? <==> completes)
    ensures out.Completed? ==> out.size == |src.bytes| && AscendingBy(out.submitted, PartNumber)
    ensures out.Completed? && WellKeyed(already) ==>
              && InSequence(out.submitted, |Chunks(src.bytes, PartSizeFor(requestedSize))|)
              && RoundedUp(|out.submitted|, |src.bytes|, if requestedSize > 0 then requestedSize else 67_108_864)
    ensures out.Completed? && WellKeyed(already)
            && Aligned(already, listed, Chunks(src.bytes, PartSizeFor(requestedSize))) ==>
              && Carries(remote, out.submitted, Chunks(src.bytes, PartSizeFor(requestedSize)))
              && Assembled(remote, out.submitted) == src.bytes
              && PartsSized(remote, out.submitted, |src.bytes|, if requestedSize > 0 then requestedSize else 67_108_864)
    ensures Trace(trace, Chunks(src.bytes, PartSizeFor(requestedSize)), already,
                  if requestedConcurrency > 0 then requestedConcurrency else 4)
    ensures aborted <==> !out.Completed?
  {
    var partSize := PartSizeFor(requestedSize);
    FailureSeenExactly(src, partSize);
    var concurrency := ConcurrencyFor(requestedConcurrency);
    var st, total, readFailed;
    st, total, readFailed, trace := Transfer(partSize, concurrency, src, already, listed, fails);
    remote, aborted := st.remote, true;
    if readFailed {
      out := ReadError;
      return;
    }
    FailedIffAny(st, already, fails);
    if st.failed != {} {
      out := PartError;
      return;
    }
    if WellKeyed(already) {
      Reassembles(st, src, partSize, already, listed);
    }
    SortBySorts(st.parts, PartNumber);
    if !completes {
      out := CompleteError;
      return;
    }
    out := Completed(total, SortParts(st.parts));
    aborted := false;
  }

  lemma {:induction false} Reassembles(st: State, src: Source, size: nat, already: map<int, Part>, listed: map<int,
                                       Stored>)
    requires size > 0 && Inv(st, Chunks(src.bytes, size), already, listed)
    requires st.read == |Chunks(src.bytes, size)| && st.inflight == map[] && st.failed == {}
    ensures var sorted, chunks := SortParts(st.parts), Chunks(src.bytes, size);
            && InSequence(sorted, |chunks|) && RoundedUp(|sorted|, |src.bytes|, size)
            && (Aligned(already, listed, chunks) ==>
                  && Carries(st.remote, sorted, chunks) && Assembled(st.remote, sorted) == src.bytes
                  && PartsSized(st.remote, sorted, |src.bytes|, size))
  {
    var chunks := Chunks(src.bytes, size);
    FinalParts(st, chunks, already, listed);
    ChunksJoin(src.bytes, size);
    ChunksCount(src.bytes, size);
    if Aligned(already, listed, chunks) {
      AssembledIsJoined(st.remote, SortParts(st.parts), chunks);
    }
  }

  ghost predicate AnyFails(n: nat, already: map<int, Part>, fails: set<int>) {
    exists k :: 1 <= k <= n && k in fails && k !in already
  }

  ghost predicate InSequence(parts: seq<Part>, n: nat) {
    |parts| == n && forall i :: 0 <= i < n ==> parts[i].number == i + 1
  }

  // ---------------------------------------------------------------------------
  // Which read failures the reader can see
  // ---------------------------------------------------------------------------

  /** How the read loop ends on a source. */
  function LoopEnd(rest: Bytes, src: Source, size: nat): ReadStatus
    requires size > 0
  {
    var (n, status) := ReadFull(rest, src, size);
    if status == Filled then LoopEnd(rest[n..], src, size) else status
  }

  /** How many of n bytes are left for the last buffer once all the full ones are read. */
  function Overhang(n: nat, size: nat): nat
    requires size > 0
  {
    if n < size then n else Overhang(n - size, size)
  }

  lemma {:induction false} OverhangIsRemainder(n: nat, size: nat) returns (q: nat)
    requires size > 0
    ensures n == q * size + Overhang(n, size) && Overhang(n, size) < size
  {
    q := 0;
    if n >= size {
      var p := OverhangIsRemainder(n - size, size);
      assert (p + 1) * size == p * size + size;
      q := p + 1;
    }
  }

  /** The one report that counts is a failure: that of the last bytes if they leave their buffer
      unfilled, or else that of the read after them. */
  predicate FailureSeen(src: Source, size: nat)
    requires size > 0
  {
    (if src.withLast.Some? && Overhang(|src.bytes|, size) > 0 then src.withLast.value else src.end) == ReadFailure
  }

  lemma {:induction false} LoopEnds(rest: Bytes, src: Source, size: nat)
    requires size > 0
    ensures LoopEnd(rest, src, size) == if FailureSeen(src.(bytes := rest), size) then Failed else AtEnd
    decreases |rest|
  {
    if |rest| >= size {
      LoopEnds(rest[size..], src, size);
    }
  }

  /** "A read failure never completes the upload" fails for two kinds of failure and is exact for the rest:
      the loop ends as failed if and only if the report that counts is a failure other than an
      unexpected end. */
  lemma {:induction false} FailureSeenExactly(src: Source, size: nat)
    requires size > 0
    ensures LoopEnd(src.bytes, src, size) == if FailureSeen(src, size) then Failed else AtEnd
  {
    LoopEnds(src.bytes, src, size);
  }

  /** A source cut off after one byte of many ends the loop just as a complete one-byte source does. */
  lemma {:induction false} CutSourceLooksComplete()
    ensures LoopEnd([7], Source([7], None, UnexpectedEnd), 16) == LoopEnd([7], Source([7], None, CleanEnd), 16) == AtEnd
  {
    FailureSeenExactly(Source([7], None, UnexpectedEnd), 16);
    FailureSeenExactly(Source([7], None, CleanEnd), 16);
  }

  /** So does a source whose failure comes with the bytes that fill a buffer and is not repeated. */
  lemma {:induction false} DroppedFailureLooksComplete(bytes: Bytes, size: nat)
    requires size > 0 && Overhang(|bytes|, size) == 0
    ensures LoopEnd(bytes, Source(bytes, Some(ReadFailure), CleanEnd), size) == AtEnd
  {
    FailureSeenExactly(Source(bytes, Some(ReadFailure), CleanEnd), size);
  }

  // ---------------------------------------------------------------------------
  // Listing what an interrupted upload already has
  // ---------------------------------------------------------------------------

  const PAGE_SIZE := 1000

  ghost predicate Listing(parts: seq<Part>) {
    && (forall i, j :: 0 <= i < j < |parts| ==> parts[i].number < parts[j].number)
    && (forall i :: 0 <= i < |parts| ==> parts[i].number >= 1)
  }

  /** How many parts of the listing a marker has passed. */
  function Passed(parts: seq<Part>, marker: int): (n: nat)
    ensures n <= |parts|
  {
    if parts == [] || parts[0].number > marker then 0 else 1 + Passed(parts[1..], marker)
  }

  lemma {:induction false} PassedAt(parts: seq<Part>, k: nat)
    requires Listing(parts) && k < |parts|
    ensures Passed(parts, parts[k].number) == k + 1
  {
    if k > 0 {
      assert Listing(parts[1..]);
      PassedAt(parts[1..], k - 1);
    } else if |parts| > 1 {
      assert parts[1..][0].number > parts[0].number;
    }
  }

  /** One page of the store's listing: up to PAGE_SIZE parts after the marker. */
  method ListPage(parts: seq<Part>, marker: int) returns (page: seq<Part>, truncated: bool, ghost from: int)
    ensures from == Passed(parts, marker) && 0 <= from <= from + |page| <= |parts|
    ensures page == parts[from..from + |page|]
    ensures truncated <==> from + |page| < |parts|
    ensures |page| <= 1000 && (truncated ==> |page| == 1000)
  {
    var passed := Passed(parts, marker);
    page := parts[passed..Min(passed + PAGE_SIZE, |parts|)];
    from, truncated := passed, passed + |page| < |parts|;
  }

  /** The map holds exactly the first n listed parts, each under its own number. */
  ghost predicate Gathered(completed: map<int, Part>, parts: seq<Part>, n: int) {
    && 0 <= n <= |parts|
    && WellKeyed(completed)
    && (forall i :: 0 <= i < n ==> parts[i].number in completed && completed[parts[i].number] == parts[i])
    && (forall k :: k in completed ==> completed[k] in parts[..n])
  }

  lemma {:induction false} GatherOne(completed: map<int, Part>, parts: seq<Part>, n: int)
    requires Listing(parts) && Gathered(completed, parts, n) && n < |parts|
    ensures Gathered(completed[parts[n].number := parts[n]], parts, n + 1)
  {
    assert parts[..n + 1] == parts[..n] + [parts[n]];
  }

  method AddPage(before: map<int, Part>, page: seq<Part>, ghost parts: seq<Part>, ghost from: int)
    returns (completed: map<int, Part>)
    requires Listing(parts) && Gathered(before, parts, from)
    requires from + |page| <= |parts| && page == parts[from..from + |page|]
    ensures Gathered(completed, parts, from + |page|)
  {
    completed := before;
    for i := 0 to |page|
      invariant Gathered(completed, parts, from + i)
    {
      GatherOne(completed, parts, from + i);
      assert page[i] == parts[from + i];
      completed := completed[page[i].number := page[i]];
    }
  }

  /** How many pages a listing of n parts has; an empty one has one. */
  function Pages(n: nat, size: nat): nat
    requires size > 0
  {
    if n <= size then 1 else 1 + Pages(n - size, size)
  }

  lemma {:induction false} PagesFrom(n: nat, pages: nat, size: nat)
    requires size > 0 && (pages * size < n || pages == 0)
    ensures pages * size <= n && Pages(n, size) == pages + Pages(n - pages * size, size)
  {
    if pages > 0 {
      assert pages * size == (pages - 1) * size + size;
      assert (pages - 1) * size >= 0;
      PagesFrom(n - size, pages - 1, size);
    }
  }

  /** The state between two pages: pages of them were full and are gathered. */
  ghost predicate Paged(completed: map<int, Part>, parts: seq<Part>, marker: int, pages: nat, size: nat) {
    && size > 0 && (pages * size < |parts| || pages == 0)
    && Passed(parts, marker) == pages * size && Gathered(completed, parts, pages * size)
  }

  /** One page, listed and gathered. */
  method NextPage(before: map<int, Part>, parts: seq<Part>, marker: int, ghost pages: nat)
    returns (completed: map<int, Part>, marker': int, last: bool)
    requires Listing(parts) && Paged(before, parts, marker, pages, PAGE_SIZE)
    ensures pages < Pages(|parts|, PAGE_SIZE) && (last <==> pages + 1 == Pages(|parts|, PAGE_SIZE))
    ensures last ==> Gathered(completed, parts, |parts|)
    ensures !last ==> Paged(completed, parts, marker', pages + 1, PAGE_SIZE)
  {
    PagesFrom(|parts|, pages, PAGE_SIZE);
    var page, truncated, from := ListPage(parts, marker);
    completed := AddPage(before, page, parts, from);
    last, marker' := !truncated, marker;
    if truncated {
      PassedAt(parts, from + |page| - 1);
      marker' := page[|page| - 1].number;
    }
  }

  /** CompletedParts follows the pages to the end: the result maps each listed number to its part
      and nothing else, so it is well keyed. It fails exactly when one of the pages does. */
  method CompletedParts(parts: seq<Part>, failingPage: Option<nat>) returns (ok: bool, completed: map<int, Part>)
    requires Listing(parts)
    ensures !ok <==> failingPage.Some? && failingPage.value < Pages(|parts|, PAGE_SIZE)
    ensures ok ==> WellKeyed(completed)
    ensures ok ==> forall p :: p in parts ==> p.number in completed && completed[p.number] == p
    ensures ok ==> forall k :: k in completed ==> completed[k] in parts
  {
    completed := map[];
    ghost var total := Pages(|parts|, PAGE_SIZE);
    var marker, pages: nat, last := 0, 0, false;
    assert parts != [] ==> parts[0].number >= 1;
    while !last
      invariant pages <= total && (last <==> pages == total)
      invariant if last then Gathered(completed, parts, |parts|) else Paged(completed, parts, marker, pages, PAGE_SIZE)
      invariant failingPage.Some? ==> pages <= failingPage.value
      decreases total - pages
    {
      if failingPage == Some(pages) {
        return false, map[];
      }
      completed, marker, last := NextPage(completed, parts, marker, pages);
      pages := pages + 1;
    }
    GatheredAll(completed, parts);
    ok := true;
  }

  lemma {:induction false} GatheredAll(completed: map<int, Part>, parts: seq<Part>)
    requires Gathered(completed, parts, |parts|)
    ensures WellKeyed(completed)
    ensures forall p :: p in parts ==> p.number in completed && completed[p.number] == p
    ensures forall k :: k in completed ==> completed[k] in parts
  {
    assert parts[..|parts|] == parts;
  }
}
