/**
 * Sender and receiver together: when every frame the sender transmits
 * reaches the receiver (repeats included, as when an ACK is lost and a chunk
 * is sent again), a photo the sender reports as sent is reassembled byte for
 * byte and handed to the phone unchanged.
 */
module PhotoTransfer {
  import opened Bytes
  import opened PhotoFrame
  import opened PhotoSender
  import opened PhotoRxSpec

  /** The receiver after each of `frames` in turn. */
  function ReceiveAll(s: RxState, frames: seq<seq<u8>>, now: u32): (t: RxState)
    requires Consistent(s)
    ensures Consistent(t)
    decreases |frames|
  {
    if frames == [] then s else ReceiveAll(Receive(s, frames[0], now), frames[1..], now)
  }

  /** Everything the receiver tells a phone while it takes in `frames`. */
  function NotesAll(s: RxState, frames: seq<seq<u8>>, now: u32, connected: bool): (r: seq<PhoneNote>)
    requires Consistent(s)
    decreases |frames|
  {
    if frames == [] then [] else Notes(s, frames[0], connected) + NotesAll(Receive(s, frames[0], now), frames[1..], now, connected)
  }

  lemma {:induction false} ReceiveAllConcat(s: RxState, a: seq<seq<u8>>, b: seq<seq<u8>>, now: u32, connected: bool)
    requires Consistent(s)
    ensures ReceiveAll(s, a + b, now) == ReceiveAll(ReceiveAll(s, a, now), b, now)
    ensures NotesAll(s, a + b, now, connected) == NotesAll(s, a, now, connected) + NotesAll(ReceiveAll(s, a, now), b, now, connected)
    decreases |a|
  {
    if a != [] {
      assert (a + b)[1..] == a[1..] + b;
      ReceiveAllConcat(Receive(s, a[0], now), a[1..], b, now, connected);
    } else {
      assert a + b == b;
    }
  }

  lemma {:induction false} PhotoBytesConcat(a: seq<PhoneNote>, b: seq<PhoneNote>)
    ensures PhotoBytes(a + b) == PhotoBytes(a) + PhotoBytes(b)
  {
    if a != [] {
      assert (a + b)[1..] == a[1..] + b;
      PhotoBytesConcat(a[1..], b);
    } else {
      assert a + b == b;
    }
  }

  /** Chunk `j` of `data` sits at its place in `b`. */
  predicate ChunkInPlace(b: seq<u8>, data: seq<u8>, j: u16)
    requires |data| < 0x1_0000 && ChunkOffset(j) < |data| == |b|
  {
    b[ChunkOffset(j)..ChunkOffset(j) + ChunkLen(|data|, j)] == ChunkBytes(data, j)
  }

  /**
   * The receiver is taking in photo `id` of `data`: its size and chunk count
   * are the photo's, and every chunk it has marked holds the photo's bytes.
   */
  predicate Holds(s: RxState, data: seq<u8>, id: u32) {
    0 < |data| < 0x1_0000 && Consistent(s) && s.active && s.photoId == id
    && s.totalSize == |data| && s.totalChunks == TotalChunks(|data|)
    && forall j: u16 :: j < s.totalChunks && s.mask[j] ==> ChunkOffset(j) < |data| && ChunkInPlace(s.buffer, data, j)
  }

  /** `t` has every mark `s` has. */
  predicate KeepsMarks(s: RxState, t: RxState) {
    |s.mask| == |t.mask| && forall j :: 0 <= j < |s.mask| && s.mask[j] ==> t.mask[j]
  }

  /** The START frame sets the receiver up for the photo, with no chunk marked. */
  lemma StartFrameHolds(s: RxState, data: seq<u8>, id: u32, now: u32)
    requires Consistent(s) && 0 < |data| < 0x1_0000
    ensures Holds(Receive(s, Serialize(StartHeader(id, data)), now), data, id)
    ensures Classify(s, Serialize(StartHeader(id, data))) == StartPhoto
  {
    var f := Serialize(StartHeader(id, data));
    ParseSerialize(StartHeader(id, data), []);
    assert f + [] == f;
  }

  /** Two different chunks do not overlap. */
  lemma ChunksApart(size: u32, j: u16, k: u16, x: nat)
    requires j != k && ChunkOffset(k) <= x < ChunkOffset(k) + ChunkLen(size, k)
    ensures !(ChunkOffset(j) <= x < ChunkOffset(j) + ChunkLen(size, j))
  {
  }

  /** A fresh chunk's copy leaves every other marked chunk in place. */
  lemma OtherChunkInPlace(s: RxState, t: RxState, data: seq<u8>, j: u16, k: u16)
    requires 0 < |data| < 0x1_0000 && |s.buffer| == |data| && ChunkOffset(j) < |data|
    requires t.buffer == Overwrite(s.buffer, ChunkOffset(j), ChunkBytes(data, j))
    requires j != k && ChunkOffset(k) < |data| && ChunkInPlace(s.buffer, data, k)
    ensures ChunkInPlace(t.buffer, data, k)
  {
    var lo, hi := ChunkOffset(k), ChunkOffset(k) + ChunkLen(|data|, k);
    forall x | lo <= x < hi
      ensures t.buffer[x] == s.buffer[x]
    {
      ChunksApart(|data|, j, k, x);
    }
    assert t.buffer[lo..hi] == s.buffer[lo..hi];
  }

  /** The frame that chunk `j` of the photo travels in. */
  function FrameOf(data: seq<u8>, id: u32, j: u16): (f: seq<u8>)
    requires 0 < |data| < 0x1_0000 && j < TotalChunks(|data|)
  {
    ChunkInside(|data|, j);
    DataFrame(data, id, j, TotalChunks(|data|))
  }

  /** Any DATA frame of the photo keeps the receiver on it, marks its chunk and clears no mark. */
  lemma DataFrameHolds(s: RxState, data: seq<u8>, id: u32, j: u16, now: u32, connected: bool)
    requires Holds(s, data, id) && j < TotalChunks(|data|)
    ensures var t := Receive(s, FrameOf(data, id, j), now);
      Holds(t, data, id) && KeepsMarks(s, t) && t.mask[j]
    ensures PhotoBytes(Notes(s, FrameOf(data, id, j), connected)) == []
  {
    ChunkInside(|data|, j);
    var f := FrameOf(data, id, j);
    assert Classify(s, f) == DataChunk;
    assert Payload(f) == ChunkBytes(data, j);
    var t := Receive(s, f, now);
    if DataVerdict(s, f) == Fresh {
      assert t.buffer == Overwrite(s.buffer, ChunkOffset(j), ChunkBytes(data, j));
      forall k: u16 | k < t.totalChunks && t.mask[k]
        ensures ChunkOffset(k) < |data| && ChunkInPlace(t.buffer, data, k)
      {
        if k != j {
          OtherChunkInPlace(s, t, data, j, k);
        }
      }
    }
  }

  /** The same DATA frame again and again, as sendChunkWithRetry transmits it. */
  lemma {:induction false} RepeatHolds(s: RxState, data: seq<u8>, id: u32, j: u16, frames: seq<seq<u8>>, now: u32, connected: bool)
    requires Holds(s, data, id) && j < TotalChunks(|data|)
    requires forall k :: 0 <= k < |frames| ==> frames[k] == FrameOf(data, id, j)
    ensures var t := ReceiveAll(s, frames, now);
      Holds(t, data, id) && KeepsMarks(s, t) && (frames != [] ==> t.mask[j])
    ensures PhotoBytes(NotesAll(s, frames, now, connected)) == []
    decreases |frames|
  {
    if frames != [] {
      DataFrameHolds(s, data, id, j, now, connected);
      var s1 := Receive(s, frames[0], now);
      RepeatHolds(s1, data, id, j, frames[1..], now, connected);
      PhotoBytesConcat(Notes(s, frames[0], connected), NotesAll(s1, frames[1..], now, connected));
    }
  }

  /**
   * What sendChunkWithRetry leaves for each chunk of the photo: copies of
   * the chunk's DATA frame, at least one when the chunk counts as delivered.
   */
  predicate ResultsFor(results: seq<ChunkResult>, data: seq<u8>, id: u32) {
    0 < |data| < 0x1_0000 && |results| == TotalChunks(|data|)
    && (forall i: u16, k :: i < |results| && 0 <= k < |results[i].frames| ==> results[i].frames[k] == FrameOf(data, id, i))
    && (forall i :: 0 <= i < |results| && results[i].delivered ==> results[i].frames != [])
  }

  lemma ChunkResultsFor(data: seq<u8>, id: u32, chunkTries: seq<seq<Attempt>>)
    requires 0 < |data| < 0x1_0000
    ensures ResultsFor(ChunkResults(data, id, chunkTries), data, id)
  {
    var results := ChunkResults(data, id, chunkTries);
    forall i: u16 | i < |results|
      ensures forall k :: 0 <= k < |results[i].frames| ==> results[i].frames[k] == FrameOf(data, id, i)
      ensures results[i].delivered ==> results[i].frames != []
    {
      ChunkResultAt(data, id, chunkTries, i);
      RetryFacts(i, TriesFor(chunkTries, i));
    }
  }

  /** Chunks `i` onwards are all marked. */
  predicate MarkedFrom(t: RxState, i: nat) {
    forall j :: i <= j < |t.mask| ==> t.mask[j]
  }

  /** Chunk `i` marked in `s1`, then everything from `i + 1` on marked, keeping the marks of `s1`. */
  lemma MarksCombine(s: RxState, s1: RxState, t: RxState, i: nat)
    requires KeepsMarks(s, s1) && KeepsMarks(s1, t) && i < |s1.mask| && s1.mask[i] && MarkedFrom(t, i + 1)
    ensures KeepsMarks(s, t) && MarkedFrom(t, i)
  {
  }

  /**
   * The chunk phase from chunk `i` on, when it succeeds: the receiver stays
   * on the photo and ends with chunks i .. total-1 marked, none cleared.
   */
  lemma {:induction false} ChunkPhaseHolds(s: RxState, data: seq<u8>, id: u32, results: seq<ChunkResult>, i: nat, now: u32, connected: bool)
    requires Holds(s, data, id) && ResultsFor(results, data, id) && i <= |results|
    requires ChunksFrom(results, i).ok
    ensures var t := ReceiveAll(s, ChunksFrom(results, i).sent, now);
      Holds(t, data, id) && KeepsMarks(s, t) && MarkedFrom(t, i)
    ensures PhotoBytes(NotesAll(s, ChunksFrom(results, i).sent, now, connected)) == []
    decreases |results| - i
  {
    if i < |results| {
      var here := results[i].frames;
      var rest := ChunksFrom(results, i + 1).sent;
      assert ChunksFrom(results, i).sent == here + rest;
      ReceiveAllConcat(s, here, rest, now, connected);
      RepeatHolds(s, data, id, i as u16, here, now, connected);
      var s1 := ReceiveAll(s, here, now);
      ChunkPhaseHolds(s1, data, id, results, i + 1, now, connected);
      MarksCombine(s, s1, ReceiveAll(s1, rest, now), i);
      PhotoBytesConcat(NotesAll(s, here, now, connected), NotesAll(s1, rest, now, connected));
    }
  }

  /** Every entry set: the count is the length. */
  lemma {:induction false} CountAll(m: seq<bool>)
    requires forall j :: 0 <= j < |m| ==> m[j]
    ensures CountTrue(m) == |m|
  {
    if m != [] {
      CountAll(m[1..]);
    }
  }

  /** With every chunk in place the buffer is the photo. */
  lemma BufferIsPhoto(s: RxState, data: seq<u8>, id: u32)
    requires Holds(s, data, id) && forall j :: 0 <= j < |s.mask| ==> s.mask[j]
    ensures s.buffer == data
  {
    forall x | 0 <= x < |data|
      ensures s.buffer[x] == data[x]
    {
      ChunkOfByte(|data|, x);
      var j: u16 := x / CHUNK_SIZE;
      ChunkInside(|data|, j);
      assert s.mask[j];
      assert ChunkInPlace(s.buffer, data, j);
      assert s.buffer[ChunkOffset(j)..ChunkOffset(j) + ChunkLen(|data|, j)][x - ChunkOffset(j)] == s.buffer[x];
      assert ChunkBytes(data, j)[x - ChunkOffset(j)] == data[x];
    }
  }

  /** START and then the whole chunk phase: every chunk of the photo in place, nothing for the phone yet but START. */
  lemma StartAndChunks(s: RxState, data: seq<u8>, id: u32, results: seq<ChunkResult>, now: u32)
    requires Consistent(s) && ResultsFor(results, data, id) && ChunksFrom(results, 0).ok
    ensures var t := ReceiveAll(s, [Serialize(StartHeader(id, data))] + ChunksFrom(results, 0).sent, now);
      Holds(t, data, id) && t.buffer == data && t.receivedChunks == t.totalChunks
    ensures PhotoBytes(NotesAll(s, [Serialize(StartHeader(id, data))] + ChunksFrom(results, 0).sent, now, true)) == []
  {
    var start := Serialize(StartHeader(id, data));
    var chunks := ChunksFrom(results, 0).sent;
    assert ([start] + chunks)[1..] == chunks;
    StartFrameHolds(s, data, id, now);
    var s1 := Receive(s, start, now);
    ChunkPhaseHolds(s1, data, id, results, 0, now, true);
    var s2 := ReceiveAll(s1, chunks, now);
    CountAll(s2.mask);
    BufferIsPhoto(s2, data, id);
    PhotoBytesConcat(Notes(s, start, true), NotesAll(s1, chunks, now, true));
  }

  /** END with every chunk in: the reception ends and the phone gets the buffer. */
  lemma EndFrameCompletes(s: RxState, data: seq<u8>, id: u32, now: u32)
    requires Holds(s, data, id) && s.receivedChunks == s.totalChunks
    ensures var end := Serialize(EndHeader(id, data));
      ReceiveAll(s, [end], now) == s.(active := false)
      && PhotoBytes(NotesAll(s, [end], now, true)) == s.buffer
  {
    var end := Serialize(EndHeader(id, data));
    ParseSerialize(EndHeader(id, data), []);
    assert end + [] == end;
    assert Classify(s, end) == EndPhoto;
    EndDeliversBuffer(s, end);
    PhotoBytesConcat(Notes(s, end, true), []);
  }

  /**
   * Lossless transfer: whatever state the receiver was in, when every frame
   * of a photo the sender reports as sent reaches it, the receiver ends the
   * reception holding exactly the photo, and a connected phone receives
   * exactly the photo's bytes, in order.
   */
  lemma LosslessAtOneInstant(s: RxState, data: seq<u8>, id: u32, chunkTries: seq<seq<Attempt>>, endSent: bool, now: u32)
    requires Consistent(s) && 0 < |data| < 0x1_0000
    requires PhotoRun(data, id, true, chunkTries, endSent).ok
    ensures var t := ReceiveAll(s, PhotoRun(data, id, true, chunkTries, endSent).sent, now);
      !t.active && t.photoId == id && t.buffer == data && t.receivedChunks == t.totalChunks
    ensures PhotoBytes(NotesAll(s, PhotoRun(data, id, true, chunkTries, endSent).sent, now, true)) == data
  {
    var results := ChunkResults(data, id, chunkTries);
    ChunkResultsFor(data, id, chunkTries);
    var front := [Serialize(StartHeader(id, data))] + ChunksFrom(results, 0).sent;
    var end := Serialize(EndHeader(id, data));
    assert PhotoRun(data, id, true, chunkTries, endSent).sent == front + [end];
    ReceiveAllConcat(s, front, [end], now, true);
    StartAndChunks(s, data, id, results, now);
    EndFrameCompletes(ReceiveAll(s, front, now), data, id, now);
    PhotoBytesConcat(NotesAll(s, front, now, true), NotesAll(ReceiveAll(s, front, now), [end], now, true));
  }

  /**
   * One pass of the receiver's loop: at most one frame read from the radio
   * and handled, then the timeout check, all at millis() == `at`.
   */
  datatype Pass = Pass(frame: Option<seq<u8>>, at: u32)

  /** The state after one pass: the frame, if any, then the 10 s timeout check. */
  function AfterPass(s: RxState, p: Pass): (t: RxState)
    requires Consistent(s)
    ensures Consistent(t)
  {
    var r := if p.frame.Some? then Receive(s, p.frame.value, p.at) else s;
    AfterTimeout(r, p.at)
  }

  /** The receiver after each of `passes` in turn. */
  function RunPasses(s: RxState, passes: seq<Pass>): (t: RxState)
    requires Consistent(s)
    ensures Consistent(t)
    decreases |passes|
  {
    if passes == [] then s else RunPasses(AfterPass(s, passes[0]), passes[1..])
  }

  /** Everything the receiver tells a phone during `passes`; the timeout itself notifies nobody. */
  function NotesPasses(s: RxState, passes: seq<Pass>, connected: bool): (r: seq<PhoneNote>)
    requires Consistent(s)
    decreases |passes|
  {
    if passes == [] then []
    else
      (if passes[0].frame.Some? then Notes(s, passes[0].frame.value, connected) else [])
      + NotesPasses(AfterPass(s, passes[0]), passes[1..], connected)
  }

  /** The frames the passes handled, in order. */
  function FramesOf(passes: seq<Pass>): (r: seq<seq<u8>>)
    ensures |r| <= |passes|
  {
    if passes == [] then []
    else (if passes[0].frame.Some? then [passes[0].frame.value] else []) + FramesOf(passes[1..])
  }

  /**
   * No timeout check of `passes` fires: whenever a reception is active, each
   * check finds at most 10 s since the START or the last new chunk.
   */
  predicate NoTimeout(s: RxState, passes: seq<Pass>)
    requires Consistent(s)
    decreases |passes|
  {
    passes == [] ||
      (var r := if passes[0].frame.Some? then Receive(s, passes[0].frame.value, passes[0].at) else s;
       !(r.active && Elapsed(passes[0].at, r.lastChunkTime) > RX_TIMEOUT)
       && NoTimeout(AfterPass(s, passes[0]), passes[1..]))
  }

  /** A reception state with its two time stamps blanked. */
  function Untimed(s: RxState): (r: RxState)
    ensures r.startTime == 0 && r.lastChunkTime == 0
    ensures r.(startTime := s.startTime, lastChunkTime := s.lastChunkTime) == s
  {
    s.(startTime := 0, lastChunkTime := 0)
  }

  /**
   * The clock only stamps: two states that differ at most in their time
   * stamps, given the same frame at any two times, end up differing at most
   * in their time stamps and tell the phone the same things.
   */
  lemma ReceiveIgnoresTime(s: RxState, r: RxState, frame: seq<u8>, n: u32, m: u32, connected: bool)
    requires Consistent(s) && Consistent(r) && Untimed(s) == Untimed(r)
    ensures Untimed(Receive(s, frame, n)) == Untimed(Receive(r, frame, m))
    ensures Notes(s, frame, connected) == Notes(r, frame, connected)
  {
    assert s.active == r.active && s.photoId == r.photoId && s.totalSize == r.totalSize;
    assert s.totalChunks == r.totalChunks && s.receivedChunks == r.receivedChunks;
    assert s.buffer == r.buffer && s.mask == r.mask;
  }

  /**
   * When no timeout fires, the passes take the receiver where their frames
   * taken at one instant do, time stamps aside, with the same notifications.
   */
  lemma {:induction false} PassesAsFrames(s: RxState, r: RxState, passes: seq<Pass>, now: u32, connected: bool)
    requires Consistent(s) && Consistent(r) && Untimed(s) == Untimed(r)
    requires NoTimeout(s, passes)
    ensures Untimed(RunPasses(s, passes)) == Untimed(ReceiveAll(r, FramesOf(passes), now))
    ensures NotesPasses(s, passes, connected) == NotesAll(r, FramesOf(passes), now, connected)
    decreases |passes|
  {
    if passes != [] {
      var p := passes[0];
      var rest := FramesOf(passes[1..]);
      if p.frame.Some? {
        ReceiveIgnoresTime(s, r, p.frame.value, p.at, now, connected);
        assert AfterPass(s, p) == Receive(s, p.frame.value, p.at);
        assert FramesOf(passes) == [p.frame.value] + rest;
        assert FramesOf(passes)[1..] == rest;
        PassesAsFrames(AfterPass(s, p), Receive(r, p.frame.value, now), passes[1..], now, connected);
      } else {
        assert AfterPass(s, p) == s;
        assert FramesOf(passes) == rest;
        PassesAsFrames(s, r, passes[1..], now, connected);
      }
    }
  }

  /**
   * The end-to-end guarantee over the receiver's loop: if the passes hand
   * the receiver exactly the frames of a run that sendPhoto reports as sent,
   * and no timeout check finds 10 s without a START or a new chunk, the
   * reception ends closed, with every chunk and the photo byte for byte,
   * and a connected phone receives exactly the photo.
   */
  lemma LosslessTransfer(s: RxState, data: seq<u8>, id: u32, chunkTries: seq<seq<Attempt>>, endSent: bool, passes: seq<Pass>)
    requires Consistent(s) && 0 < |data| < 0x1_0000
    requires PhotoRun(data, id, true, chunkTries, endSent).ok
    requires FramesOf(passes) == PhotoRun(data, id, true, chunkTries, endSent).sent
    requires NoTimeout(s, passes)
    ensures var t := RunPasses(s, passes);
      !t.active && t.photoId == id && t.buffer == data && t.receivedChunks == t.totalChunks
    ensures PhotoBytes(NotesPasses(s, passes, true)) == data
  {
    PassesAsFrames(s, s, passes, 0, true);
    LosslessAtOneInstant(s, data, id, chunkTries, endSent, 0);
    var t := RunPasses(s, passes);
    var u := ReceiveAll(s, FramesOf(passes), 0);
    assert Untimed(t).active == t.active && Untimed(u).active == u.active;
    assert Untimed(t).buffer == t.buffer && Untimed(u).buffer == u.buffer;
  }

  /**
   * The timeout is real: a silence of more than 10 s in the middle of a
   * reception closes it, so a later END does not complete it.
   */
  lemma TimeoutCloses(s: RxState, at: u32)
    requires Consistent(s) && s.active && Elapsed(at, s.lastChunkTime) > RX_TIMEOUT
    ensures !RunPasses(s, [Pass(None, at)]).active
    ensures !NoTimeout(s, [Pass(None, at)])
  {
  }
}
