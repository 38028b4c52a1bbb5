/** A streamed chat completion from end to end: the gateway's server-sent-event writer and the
    dashboard's incremental reader, which sees the text in arbitrary network pieces. The framing is
    that of section 9.2, Server-sent events, of the WHATWG HTML Living Standard; the JSON
    codec is a parameter. */
module ChatStream {
  import opened Common

  /** The fields of a chunk that vary; an empty role or content is omitted from the JSON and reads back as empty. */
  datatype Chunk = Chunk(role: string, content: string, finishReason: Option<string>, usage: Option<Usage>)
  datatype Usage = Usage(prompt: int, completion: int, total: int)

  datatype Event =
    | Token(content: string)
    | Done(finishReason: string, prompt: int, completion: int)
    | Failed

  type Encode = Chunk -> string
  type Decode = string -> Option<Chunk>

  const BREAK := "\n\n"
  const DONE := "[DONE]"  // the payload of the frame that ends a response

  // ---------------------------------------------------------------------------
  // The writer
  // ---------------------------------------------------------------------------

  function Frame(payload: string): string {
    "data: " + payload + BREAK
  }

  function ChunkFor(ev: Event, first: bool): Chunk
    requires !ev.Failed?
  {
    match ev
    case Token(content) => Chunk(if first then "assistant" else "", content, None, None)
    case Done(reason, prompt, completion) =>
      Chunk("", "", Some(reason), Some(Usage(prompt, completion, prompt + completion)))
  }

  /** The response body for a run of events. A failure ends it without the terminator. */
  function Written(events: seq<Event>, first: bool, enc: Encode): string {
    if events == [] then Frame(DONE)
    else if events[0].Failed? then ""
    else Frame(enc(ChunkFor(events[0], first))) + Written(events[1..], first && !events[0].Token?, enc)
  }

  /** The event loop. */
  method Stream(events: seq<Event>, enc: Encode) returns (body: string)
    ensures body == Written(events, true, enc)
  {
    body := "";
    var first := true;
    for i := 0 to |events|
      invariant body + Written(events[i..], first, enc) == Written(events, true, enc)
    {
      var ev := events[i];
      assert events[i..][0] == ev && events[i..][1..] == events[i + 1..];
      if ev.Failed? {
        assert body + "" == body;
        return;
      }
      ConcatAssoc(body, Frame(enc(ChunkFor(ev, first))), Written(events[i + 1..], first && !ev.Token?, enc));
      if ev.Token? {
        var chunk := Chunk(if first then "assistant" else "", ev.content, None, None);
        first := false;
        body := body + Frame(enc(chunk));
      } else {
        var usage := Usage(ev.prompt, ev.completion, ev.prompt + ev.completion);
        var chunk := Chunk("", "", Some(ev.finishReason), Some(usage));
        body := body + Frame(enc(chunk));
      }
    }
    body := body + Frame(DONE);
  }

  // ---------------------------------------------------------------------------
  // The reader
  // ---------------------------------------------------------------------------

  /** The white space and line terminators that a string trim removes. */
  predicate IsSpace(c: char) {
    var n := c as int;
    || 9 <= n <= 13 || n == 0x20 || n == 0xA0 || n == 0x1680 || 0x2000 <= n <= 0x200A
    || n == 0x2028 || n == 0x2029 || n == 0x202F || n == 0x205F || n == 0x3000 || n == 0xFEFF
  }

  function TrimStart(s: string): string {
    if s != "" && IsSpace(s[0]) then TrimStart(s[1..]) else s
  }

  function TrimEnd(s: string): string {
    if s != "" && IsSpace(Last(s)) then TrimEnd(Front(s)) else s
  }

  function Trim(s: string): string { TrimEnd(TrimStart(s)) }

  /** The position of the first blank line. */
  function FindBreak(s: string): (r: Option<nat>)
    ensures r.Some? ==> r.value + 2 <= |s|
  {
    if |s| < 2 then None
    else if s[0] == '\n' && s[1] == '\n' then Some(0)
    else
      var later := FindBreak(s[1..]);
      if later.None? then None else Some(later.value + 1)
  }

  datatype Pieces = Pieces(frames: seq<string>, rest: string)

  /** split on blank lines, with the last element popped off as the rest. */
  function Split(s: string): Pieces
    decreases |s|
  {
    var at := FindBreak(s);
    if at.None? then Pieces([], s)
    else
      var later := Split(s[at.value + 2..]);
      Pieces([s[..at.value]] + later.frames, later.rest)
  }

  datatype Reading = Reading(text: string, failed: bool)

  /** One frame: ignored, decoded and appended, or a parse failure that ends the reading. */
  function ReadFrame(text: string, frame: string, dec: Decode): Reading {
    var line := Trim(frame);
    if !("data:" <= line) then Reading(text, false)
    else
      var data := Trim(line[5..]);
      if data == DONE then Reading(text, false)
      else
        var chunk := dec(data);
        if chunk.None? then Reading(text, true) else Reading(text + chunk.value.content, false)
  }

  function ReadFrames(text: string, frames: seq<string>, dec: Decode): Reading
    decreases frames
  {
    if frames == [] then Reading(text, false)
    else
      var r := ReadFrame(text, frames[0], dec);
      if r.failed then r else ReadFrames(r.text, frames[1..], dec)
  }

  function Joined(pieces: seq<string>): string {
    if pieces == [] then "" else Joined(Front(pieces)) + Last(pieces)
  }

  lemma {:induction false} FindExtends(a: string, b: string)
    requires FindBreak(a).Some?
    ensures FindBreak(a + b) == FindBreak(a)
  {
    if !(a[0] == '\n' && a[1] == '\n') {
      assert (a + b)[1..] == a[1..] + b;
      FindExtends(a[1..], b);
    }
  }

  /** What splitting leaves to do after the first frame. */
  lemma {:induction false} SplitHead(s: string, i: nat, tail: string)
    requires FindBreak(s) == Some(i) && tail == s[i + 2..]
    ensures Split(s) == Pieces([s[..i]] + Split(tail).frames, Split(tail).rest)
  {
  }

  /** Incremental framing, for any text and any cut: the frames of the whole are those of the first
      part followed by those of what it left over plus the second part. */
  lemma {:induction false} SplitIncremental(a: string, b: string)
    ensures var first := Split(a);
            var second := Split(first.rest + b);
            Split(a + b) == Pieces(first.frames + second.frames, second.rest)
    decreases |a|
  {
    var at := FindBreak(a);
    if at.Some? {
      var i, tail := at.value, a[at.value + 2..];
      FindExtends(a, b);
      assert (a + b)[i + 2..] == tail + b && (a + b)[..i] == a[..i];
      SplitHead(a, i, tail);
      SplitHead(a + b, i, tail + b);
      SplitIncremental(tail, b);
      ConcatAssoc([a[..i]], Split(tail).frames, Split(Split(tail).rest + b).frames);
    } else {
      assert [] + Split(a + b).frames == Split(a + b).frames;
    }
  }

  lemma {:induction false} ReadConcat(text: string, f: seq<string>, g: seq<string>, dec: Decode)
    ensures var r := ReadFrames(text, f, dec);
            ReadFrames(text, f + g, dec) == if r.failed then r else ReadFrames(r.text, g, dec)
    decreases f
  {
    if f == [] {
      assert f + g == g;
    } else {
      assert (f + g)[1..] == f[1..] + g;
      var r := ReadFrame(text, f[0], dec);
      ReadConcat(r.text, f[1..], g, dec);
    }
  }

  /** The read loop: a buffer carried from piece to piece. For every text and every way of cutting it
      into pieces, the outcome is that of splitting the whole text at once. */
  method Receive(pieces: seq<string>, dec: Decode) returns (r: Reading)
    ensures r == ReadFrames("", Split(Joined(pieces)).frames, dec)
  {
    var buffer, text := "", "";
    for i := 0 to |pieces|
      invariant Split(Joined(pieces[..i])).rest == buffer
      invariant ReadFrames("", Split(Joined(pieces[..i])).frames, dec) == Reading(text, false)
    {
      var seen := Joined(pieces[..i]);
      PrefixJoin(pieces, i);
      SplitIncremental(seen, pieces[i]);
      var parts := Split(buffer + pieces[i]);
      ReadConcat("", Split(seen).frames, parts.frames, dec);
      buffer := parts.rest;
      var start := text;
      for j := 0 to |parts.frames|
        invariant ReadFrames(text, parts.frames[j..], dec) == ReadFrames(start, parts.frames, dec)
      {
        assert parts.frames[j..][0] == parts.frames[j] && parts.frames[j..][1..] == parts.frames[j + 1..];
        var next := ReadFrame(text, parts.frames[j], dec);
        if next.failed {
          RestIrrelevant(pieces, i + 1, next, dec);
          return next;
        }
        text := next.text;
      }
    }
    assert pieces[..|pieces|] == pieces;
    r := Reading(text, false);
  }

  lemma {:induction false} PrefixJoin(pieces: seq<string>, i: nat)
    requires i < |pieces|
    ensures Joined(pieces[..i + 1]) == Joined(pieces[..i]) + pieces[i]
  {
    assert pieces[..i + 1] == pieces[..i] + [pieces[i]];
    FrontLast(pieces[..i], pieces[i]);
  }

  /** Once reading has failed, what comes later does not matter. */
  lemma {:induction false} RestIrrelevant(pieces: seq<string>, i: nat, r: Reading, dec: Decode)
    requires i <= |pieces| && r.failed && ReadFrames("", Split(Joined(pieces[..i])).frames, dec) == r
    ensures ReadFrames("", Split(Joined(pieces)).frames, dec) == r
    decreases |pieces| - i
  {
    if i == |pieces| {
      assert pieces[..i] == pieces;
    } else {
      var seen := Joined(pieces[..i]);
      PrefixJoin(pieces, i);
      SplitIncremental(seen, pieces[i]);
      ReadConcat("", Split(seen).frames, Split(Split(seen).rest + pieces[i]).frames, dec);
      RestIrrelevant(pieces, i + 1, r, dec);
    }
  }

  // ---------------------------------------------------------------------------
  // The round trip
  // ---------------------------------------------------------------------------

  /** What the JSON codec must give: the content reads back, and the text is on one line, without
      surrounding white space, and never the terminator's payload. */
  ghost predicate Codec(enc: Encode, dec: Decode) {
    forall c :: dec(enc(c)).Some? && dec(enc(c)).value.content == c.content && GoodPayload(enc(c))
  }

  predicate GoodPayload(p: string) {
    p != "" && '\n' !in p && !IsSpace(p[0]) && !IsSpace(Last(p)) && p != DONE
  }

  /** The content of the events up to a failure. */
  function Contents(events: seq<Event>): string {
    if events == [] || events[0].Failed? then ""
    else (if events[0].Token? then events[0].content else "") + Contents(events[1..])
  }

  lemma {:induction false} FindAfter(line: string, after: string)
    requires '\n' !in line
    ensures FindBreak(line + BREAK + after) == Some(|line|)
  {
    var s := line + BREAK + after;
    if line != "" {
      assert s[0] == line[0] && line[0] in line;
      assert s[1..] == line[1..] + BREAK + after;
      FindAfter(line[1..], after);
    }
  }

  lemma {:induction false} SplitFrame(line: string, after: string)
    requires '\n' !in line
    ensures Split(line + BREAK + after) == Pieces([line] + Split(after).frames, Split(after).rest)
  {
    FindAfter(line, after);
    var s := line + BREAK + after;
    assert s[|line| + 2..] == after;
    assert s[..|line|] == line;
  }

  lemma {:induction false} ReadWritten(text: string, p: string, dec: Decode)
    requires p != "" && !IsSpace(p[0]) && !IsSpace(Last(p))
    ensures ReadFrame(text, "data: " + p, dec) ==
            if p == DONE then Reading(text, false)
            else if dec(p).None? then Reading(text, true) else Reading(text + dec(p).value.content, false)
  {
    var line := "data: " + p;
    assert line[0] == 'd' && Last(line) == Last(p);
    assert Trim(line) == line;
    assert line[5..] == " " + p;
    assert (" " + p)[1..] == p;
    assert TrimStart(" " + p) == TrimStart(p) == p;
  }

  /** Reading one written frame and what follows it. */
  lemma {:induction false} ReadOne(text: string, p: string, after: string, dec: Decode)
    requires p != "" && '\n' !in p && !IsSpace(p[0]) && !IsSpace(Last(p))
    requires p == DONE || dec(p).Some?
    ensures var content := if p == DONE then "" else dec(p).value.content;
            ReadFrames(text, Split(Frame(p) + after).frames, dec) ==
            ReadFrames(text + content, Split(after).frames, dec)
    ensures Split(Frame(p) + after).rest == Split(after).rest
  {
    var line := "data: " + p;
    assert Frame(p) + after == line + BREAK + after;
    SplitFrame(line, after);
    ReadWritten(text, p, dec);
    var frames := [line] + Split(after).frames;
    assert frames[0] == line && frames[1..] == Split(after).frames;
    assert text + "" == text;
  }

  lemma {:induction false} ReadTerminator(text: string, dec: Decode)
    ensures ReadFrames(text, Split(Frame(DONE)).frames, dec) == Reading(text, false) && Split(Frame(DONE)).rest == ""
  {
    assert Frame(DONE) + "" == Frame(DONE);
    ReadOne(text, DONE, "", dec);
    assert text + "" == text;
  }

  lemma {:induction false} ReadEvent(text: string, chunk: Chunk, after: string, enc: Encode, dec: Decode)
    requires Codec(enc, dec)
    ensures ReadFrames(text, Split(Frame(enc(chunk)) + after).frames, dec)
         == ReadFrames(text + chunk.content, Split(after).frames, dec)
    ensures Split(Frame(enc(chunk)) + after).rest == Split(after).rest
  {
    assert dec(enc(chunk)).value.content == chunk.content && GoodPayload(enc(chunk));
    ReadOne(text, enc(chunk), after, dec);
  }

  lemma {:induction false} RoundTripFrom(text: string, events: seq<Event>, first: bool, enc: Encode, dec: Decode)
    requires Codec(enc, dec)
    ensures ReadFrames(text, Split(Written(events, first, enc)).frames, dec) == Reading(text + Contents(events), false)
    ensures Split(Written(events, first, enc)).rest == ""
    decreases events
  {
    if events == [] {
      ReadTerminator(text, dec);
      assert text + "" == text;
    } else if events[0].Failed? {
      assert text + "" == text;
    } else {
      var chunk, rest, first' := ChunkFor(events[0], first), events[1..], first && !events[0].Token?;
      ReadEvent(text, chunk, Written(rest, first', enc), enc, dec);
      RoundTripFrom(text + chunk.content, rest, first', enc, dec);
      ConcatAssoc(text, chunk.content, Contents(rest));
    }
  }

  /** The round trip: whatever the events, and however the network cuts the written text into pieces,
      the reader ends with exactly the content of the events, up to a failure if there was one. */
  lemma {:induction false} RoundTrip(events: seq<Event>, pieces: seq<string>, enc: Encode, dec: Decode)
    requires Codec(enc, dec) && Joined(pieces) == Written(events, true, enc)
    ensures ReadFrames("", Split(Joined(pieces)).frames, dec) == Reading(Contents(events), false)
  {
    RoundTripFrom("", events, true, enc, dec);
    assert "" + Contents(events) == Contents(events);
  }

  // ---------------------------------------------------------------------------
  // Everything a chunk carries
  // ---------------------------------------------------------------------------

  /** A codec that gives back the whole chunk. */
  ghost predicate WholeCodec(enc: Encode, dec: Decode) {
    forall c :: dec(enc(c)) == Some(c) && GoodPayload(enc(c))
  }

  ghost predicate NoToken(events: seq<Event>, i: int) {
    forall j :: 0 <= j < i && j < |events| ==> !events[j].Token?
  }

  /** c is what the i-th event says: a token's content, with the role on the first token only; the finish
      reason and the usage, prompt before completion and then their sum, at the end only. */
  ghost predicate ChunkRight(events: seq<Event>, i: nat, c: Chunk)
    requires i < |events|
  {
    match events[i]
    case Token(content) =>
      c.role == (if NoToken(events, i) then "assistant" else "") && c.content == content
      && c.finishReason.None? && c.usage.None?
    case Done(reason, prompt, completion) =>
      c.role == "" && c.content == "" && c.finishReason == Some(reason)
      && c.usage.Some? && c.usage.value.prompt == prompt && c.usage.value.completion == completion
      && c.usage.value.total == prompt + completion
    case Failed => false
  }

  ghost predicate FrameRight(events: seq<Event>, i: nat, frame: string, dec: Decode)
    requires i < |events|
  {
    && |frame| > 6 && frame[..6] == "data: " && frame[6..] != "[DONE]"
    && dec(frame[6..]).Some? && ChunkRight(events, i, dec(frame[6..]).value)
  }

  /** The first n events are those before a failure. */
  ghost predicate UpToFailure(events: seq<Event>, n: nat) {
    && n <= |events| && (forall i :: 0 <= i < n ==> !events[i].Failed?)
    && (n == |events| || events[n].Failed?)
  }

  /** The line written for the i-th event; first says that no token came before these events. */
  ghost function LineAt(events: seq<Event>, i: nat, first: bool, enc: Encode): string
    requires i < |events| && !events[i].Failed?
  {
    var opening := first && NoToken(events, i);
    "data: " + enc(ChunkFor(events[i], opening))
  }

  ghost predicate FramesAre(events: seq<Event>, first: bool, n: nat, frames: seq<string>, enc: Encode)
    requires UpToFailure(events, n)
  {
    && |frames| == n + (if n == |events| then 1 else 0)
    && (forall i :: 0 <= i < n ==> frames[i] == LineAt(events, i, first, enc))
    && (n == |events| ==> frames[n] == "data: " + DONE)
  }

  lemma {:induction false} FramesCons(events: seq<Event>, first: bool, n: nat, rest: seq<string>, enc: Encode)
    requires UpToFailure(events, n) && n > 0 && UpToFailure(events[1..], n - 1)
    requires FramesAre(events[1..], first && !events[0].Token?, n - 1, rest, enc)
    ensures FramesAre(events, first, n, ["data: " + enc(ChunkFor(events[0], first))] + rest, enc)
  {
    var frames := ["data: " + enc(ChunkFor(events[0], first))] + rest;
    forall i | 0 < i < n
      ensures frames[i] == LineAt(events, i, first, enc)
    {
      NoTokenCons(events, i);
      assert frames[i] == rest[i - 1] && events[i] == events[1..][i - 1];
    }
  }

  lemma {:induction false} NoTokenCons(events: seq<Event>, i: nat)
    requires 0 < i < |events|
    ensures NoToken(events, i) <==> !events[0].Token? && NoToken(events[1..], i - 1)
  {
    assert forall j :: 0 <= j < i - 1 ==> events[1..][j] == events[j + 1];
    if !events[0].Token? && NoToken(events[1..], i - 1) {
      forall j | 0 <= j < i
        ensures !events[j].Token?
      {
        assert j > 0 ==> events[j] == events[1..][j - 1];
      }
    }
  }

  lemma {:induction false} WrittenFrames(events: seq<Event>, first: bool, n: nat, enc: Encode, dec: Decode)
    requires WholeCodec(enc, dec) && UpToFailure(events, n)
    ensures FramesAre(events, first, n, Split(Written(events, first, enc)).frames, enc)
    ensures Split(Written(events, first, enc)).rest == ""
    decreases events
  {
    if events == [] {
      SplitFrame("data: " + DONE, "");
      assert Frame(DONE) == "data: " + DONE + BREAK + "";
    } else if n > 0 {
      var chunk, first' := ChunkFor(events[0], first), first && !events[0].Token?;
      var line, after := "data: " + enc(chunk), Written(events[1..], first', enc);
      assert UpToFailure(events[1..], n - 1);
      WrittenFrames(events[1..], first', n - 1, enc, dec);
      assert GoodPayload(enc(chunk));
      SplitFrame(line, after);
      assert Frame(enc(chunk)) + after == line + BREAK + after;
      FramesCons(events, first, n, Split(after).frames, enc);
    }
  }

  lemma {:induction false} FrameIsRight(events: seq<Event>, i: nat, enc: Encode, dec: Decode)
    requires WholeCodec(enc, dec) && i < |events| && !events[i].Failed?
    ensures FrameRight(events, i, LineAt(events, i, true, enc), dec)
  {
    var opening := NoToken(events, i);
    var c := ChunkFor(events[i], opening);
    var line := "data: " + enc(c);
    assert line[..6] == "data: " && line[6..] == enc(c);
    assert dec(enc(c)) == Some(c) && GoodPayload(enc(c));
  }

  lemma {:induction false} AllFramesRight(events: seq<Event>, n: nat, frames: seq<string>, enc: Encode, dec: Decode)
    requires WholeCodec(enc, dec) && UpToFailure(events, n) && FramesAre(events, true, n, frames, enc)
    ensures forall i :: 0 <= i < n ==> FrameRight(events, i, frames[i], dec)
  {
    forall i | 0 <= i < n
      ensures FrameRight(events, i, frames[i], dec)
    {
      FrameIsRight(events, i, enc, dec);
    }
  }

  /** The whole body, chunk by chunk: one frame per event before a failure, decoding to just what that event
      says; then the frame data: [DONE] if and only if nothing failed, and nowhere else. */
  lemma {:induction false} BodyDecodes(events: seq<Event>, n: nat, enc: Encode, dec: Decode)
    requires WholeCodec(enc, dec) && UpToFailure(events, n)
    ensures var frames := Split(Written(events, true, enc)).frames;
            && |frames| == n + (if n == |events| then 1 else 0)
            && (forall i :: 0 <= i < n ==> FrameRight(events, i, frames[i], dec))
            && (n == |events| ==> frames[n] == "data: " + "[DONE]")
    ensures Split(Written(events, true, enc)).rest == ""
  {
    var frames := Split(Written(events, true, enc)).frames;
    WrittenFrames(events, true, n, enc, dec);
    AllFramesRight(events, n, frames, enc, dec);
  }

  /** Writer and reader run against each other. */
  method Converse(events: seq<Event>, pieces: seq<string>, enc: Encode, dec: Decode)
    returns (body: string, seen: Reading)
    requires Codec(enc, dec) && Joined(pieces) == Written(events, true, enc)
    ensures body == Joined(pieces) && seen == Reading(Contents(events), false)
  {
    body := Stream(events, enc);
    seen := Receive(pieces, dec);
    RoundTrip(events, pieces, enc, dec);
  }

  // ---------------------------------------------------------------------------
  // What splitting, trimming and reading mean
  // ---------------------------------------------------------------------------

  predicate BreakAt(s: string, i: int) {
    0 <= i && i + 2 <= |s| && s[i] == '\n' && s[i + 1] == '\n'
  }

  /** The first break of s is at i. */
  ghost predicate FirstBreak(s: string, i: int) {
    BreakAt(s, i) && forall j :: 0 <= j < i ==> !BreakAt(s, j)
  }

  ghost predicate NoBreak(s: string) {
    forall j :: 0 <= j < |s| ==> !BreakAt(s, j)
  }

  lemma {:induction false} FindIsFirst(s: string)
    ensures if FindBreak(s).Some? then FirstBreak(s, FindBreak(s).value) else NoBreak(s)
  {
    if |s| >= 2 && !(s[0] == '\n' && s[1] == '\n') {
      var tail := s[1..];
      FindIsFirst(tail);
      assert forall j :: 0 <= j ==> (BreakAt(tail, j) <==> BreakAt(s, j + 1));
      forall j | 0 <= j < |s|
        ensures BreakAt(s, j) ==> j > 0 && BreakAt(tail, j - 1)
      {
      }
    }
  }

  function Unsplit(frames: seq<string>, rest: string): string {
    if frames == [] then rest else frames[0] + BREAK + Unsplit(frames[1..], rest)
  }

  lemma {:induction false} CutAtBreak(s: string, i: nat)
    requires FirstBreak(s, i)
    ensures s == s[..i] + BREAK + s[i + 2..] && FirstBreak(s[..i] + BREAK, i)
  {
    var head := s[..i] + BREAK;
    assert forall j :: 0 <= j < i + 2 ==> head[j] == s[j];
    forall j | 0 <= j < i
      ensures !BreakAt(head, j)
    {
      assert BreakAt(head, j) <==> BreakAt(s, j);
    }
  }

  /** Splitting loses nothing and cuts at the earliest break each time: the frames and the rest, put
      together again, are the text; the break after each frame is its first; the rest has none. */
  lemma {:induction false} SplitExact(s: string)
    ensures Unsplit(Split(s).frames, Split(s).rest) == s && NoBreak(Split(s).rest)
    ensures forall f :: f in Split(s).frames ==> FirstBreak(f + BREAK, |f|)
    decreases |s|
  {
    FindIsFirst(s);
    if FindBreak(s).Some? {
      var i := FindBreak(s).value;
      var tail := s[i + 2..];
      SplitExact(tail);
      SplitHead(s, i, tail);
      CutAtBreak(s, i);
      var frames := [s[..i]] + Split(tail).frames;
      assert frames[0] == s[..i] && frames[1..] == Split(tail).frames;
    }
  }

  ghost predicate AllSpace(s: string) {
    forall i :: 0 <= i < |s| ==> IsSpace(s[i])
  }

  /** s is core between white space. */
  ghost predicate Padded(s: string, before: string, core: string, after: string) {
    s == before + core + after && AllSpace(before) && AllSpace(after)
  }

  lemma {:induction false} TrimStartExact(s: string) returns (before: string)
    ensures s == before + TrimStart(s) && AllSpace(before)
    ensures TrimStart(s) != "" ==> !IsSpace(TrimStart(s)[0])
  {
    before := "";
    if s != "" && IsSpace(s[0]) {
      before := TrimStartExact(s[1..]);
      before := [s[0]] + before;
    }
  }

  lemma {:induction false} TrimEndExact(s: string) returns (after: string)
    ensures s == TrimEnd(s) + after && AllSpace(after)
    ensures TrimEnd(s) != "" ==> !IsSpace(Last(TrimEnd(s))) && TrimEnd(s)[0] == s[0]
  {
    after := "";
    if s != "" && IsSpace(Last(s)) {
      var inner := TrimEndExact(Front(s));
      Snoc(s);
      ConcatAssoc(TrimEnd(Front(s)), inner, [Last(s)]);
      after := inner + [Last(s)];
    }
  }

  /** Trimming takes off white space at both ends, all of it, and nothing else. */
  lemma {:induction false} TrimExact(s: string) returns (before: string, after: string)
    ensures Padded(s, before, Trim(s), after)
    ensures Trim(s) != "" ==> !IsSpace(Trim(s)[0]) && !IsSpace(Last(Trim(s)))
  {
    before := TrimStartExact(s);
    after := TrimEndExact(TrimStart(s));
    assert before + (Trim(s) + after) == before + Trim(s) + after;
  }

  /** A frame that is not data, such as a comment, makes no difference wherever it stands. */
  lemma {:induction false} ForeignFrameIgnored(text: string, f: seq<string>, frame: string, g: seq<string>, dec: Decode)
    requires !("data:" <= Trim(frame))
    ensures ReadFrames(text, f + [frame] + g, dec) == ReadFrames(text, f + g, dec)
  {
    var r := ReadFrames(text, f, dec);
    ReadConcat(text, f + [frame], g, dec);
    ReadConcat(text, f, [frame], dec);
    ReadConcat(text, f, g, dec);
    assert [frame][0] == frame && [frame][1..] == [];
  }

  /** A data frame whose payload, possibly empty, does not parse ends the reading with the text so far. */
  lemma {:induction false} BadFrameStops(text: string, f: seq<string>, frame: string, body: string, g: seq<string>,
                                         dec: Decode)
    requires Trim(frame) == "data:" + body && Trim(body) != "[DONE]" && dec(Trim(body)).None?
    requires !ReadFrames(text, f, dec).failed
    ensures ReadFrames(text, f + [frame] + g, dec) == Reading(ReadFrames(text, f, dec).text, true)
  {
    ReadConcat(text, f + [frame], g, dec);
    ReadConcat(text, f, [frame], dec);
    assert [frame][0] == frame && [frame][1..] == [];
    assert Trim(frame)[5..] == body;
  }

  // ---------------------------------------------------------------------------
  // The codec assumed exists
  // ---------------------------------------------------------------------------

  // A codec of this kind exists: fields with line feeds, the end mark and the escape sign escaped, each followed
  // by the end mark, in brackets.

  function EscapeChar(c: char): string {
    if c == '\n' then "~n" else if c == '#' then "~h" else if c == '~' then "~~" else [c]
  }

  function Escape(s: string): string {
    if s == "" then "" else EscapeChar(s[0]) + Escape(s[1..])
  }

  function Unescape(s: string): string {
    if s == "" then ""
    else if s[0] == '~' && |s| > 1
    then [if s[1] == 'n' then '\n' else if s[1] == 'h' then '#' else s[1]] + Unescape(s[2..])
    else [s[0]] + Unescape(s[1..])
  }

  lemma {:induction false} UnescapeChar(c: char, tail: string)
    ensures Unescape(EscapeChar(c) + tail) == [c] + Unescape(tail)
  {
    var head := EscapeChar(c);
    assert (head + tail)[|head|..] == tail && (head + tail)[..|head|] == head;
  }

  lemma {:induction false} UnescapeEscape(s: string)
    ensures Unescape(Escape(s)) == s && '\n' !in Escape(s) && '#' !in Escape(s)
  {
    if s != "" {
      UnescapeEscape(s[1..]);
      UnescapeChar(s[0], Escape(s[1..]));
      assert s == [s[0]] + s[1..];
    }
  }

  function Mark(s: string): Option<nat> {
    if s == "" then None
    else if s[0] == '#' then Some(0)
    else var later := Mark(s[1..]); if later.None? then None else Some(later.value + 1)
  }

  lemma {:induction false} MarkAfter(field: string, after: string)
    requires '#' !in field
    ensures Mark(field + "#" + after) == Some(|field|)
  {
    var s := field + "#" + after;
    if field != "" {
      assert s[0] == field[0] && field[0] in field;
      assert s[1..] == field[1..] + "#" + after;
      MarkAfter(field[1..], after);
    }
  }

  function Pack(fields: seq<string>): string {
    if fields == [] then "" else Escape(fields[0]) + "#" + Pack(fields[1..])
  }

  function Unpack(s: string, n: nat): seq<string> {
    var at := Mark(s);
    if n == 0 || at.None? || at.value >= |s| then []
    else [Unescape(s[..at.value])] + Unpack(s[at.value + 1..], n - 1)
  }

  lemma {:induction false} PackOneLine(fields: seq<string>)
    ensures '\n' !in Pack(fields)
  {
    if fields != [] {
      UnescapeEscape(fields[0]);
      PackOneLine(fields[1..]);
    }
  }

  lemma {:induction false} UnpackStep(field: string, first: string, after: string, rest: seq<string>, n: nat)
    requires '#' !in field && Unescape(field) == first && n > 0 && Unpack(after, n - 1) == rest
    ensures Unpack(field + "#" + after, n) == [first] + rest
  {
    var s := field + "#" + after;
    MarkAfter(field, after);
    assert s[..|field|] == field && s[|field| + 1..] == after;
  }

  lemma {:induction false} UnpackPack(fields: seq<string>)
    ensures Unpack(Pack(fields), |fields|) == fields
  {
    if fields != [] {
      UnescapeEscape(fields[0]);
      UnpackPack(fields[1..]);
      UnpackStep(Escape(fields[0]), fields[0], Pack(fields[1..]), fields[1..], |fields|);
    }
  }

  function OptionText(v: Option<string>): string { if v.None? then "" else "s" + v.value }
  function TextOption(s: string): Option<string> { if s == "" then None else Some(s[1..]) }

  function IntText(n: int): string {
    if n >= 0 then "+" + seq(n, _ => '1') else "-" + seq(-n, _ => '1')
  }

  function TextInt(s: string): int { if s != "" && s[0] == '-' then 1 - |s| else |s| - 1 }

  function Fields(c: Chunk): seq<string> {
    [c.role, c.content, OptionText(c.finishReason)] +
    (if c.usage.None? then ["", "", "", ""]
     else ["s", IntText(c.usage.value.prompt), IntText(c.usage.value.completion), IntText(c.usage.value.total)])
  }

  function FromFields(f: seq<string>): Option<Chunk> {
    if |f| != 7 then None
    else Some(Chunk(f[0], f[1], TextOption(f[2]),
                    if f[3] == "" then None else Some(Usage(TextInt(f[4]), TextInt(f[5]), TextInt(f[6])))))
  }

  lemma {:induction false} FieldsRoundTrip(c: Chunk)
    ensures |Fields(c)| == 7 && FromFields(Fields(c)) == Some(c)
  {
    if c.finishReason.Some? {
      assert ("s" + c.finishReason.value)[1..] == c.finishReason.value;
    }
  }

  function EncodeChunk(c: Chunk): string { "{" + Pack(Fields(c)) + "}" }

  function DecodeChunk(s: string): Option<Chunk> {
    if |s| < 2 then None else FromFields(Unpack(s[1..|s| - 1], 7))
  }

  lemma {:induction false} CodecExists()
    ensures WholeCodec(EncodeChunk, DecodeChunk)
  {
    forall c: Chunk
      ensures DecodeChunk(EncodeChunk(c)) == Some(c) && GoodPayload(EncodeChunk(c))
    {
      FieldsRoundTrip(c);
      UnpackPack(Fields(c));
      PackOneLine(Fields(c));
      var s := EncodeChunk(c);
      assert s[1..|s| - 1] == Pack(Fields(c));
      assert s[0] == '{' && Last(s) == '}';
    }
  }
}
