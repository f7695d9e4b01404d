/** The two request generators that stream artifact data to the daemon
    (tensorcast/daemon_ctl.py): view chunks and stable-DRAM write ranges. */
module Feeds {
  import opened Common

  type byte = b: int | 0 <= b < 256

  const KIB := 1024
  const MIB := 1024 * 1024
  const DEFAULT_MAX_MESSAGE := 64 * MIB
  const DEFAULT_CHUNK := 4 * MIB
  const HEADROOM := 64 * KIB

  /** An integer environment variable: absent or unparsable is None. */
  function EnvInt(raw: Option<int>, default: int, minimum: int): (v: int)
    requires default >= minimum
    ensures v >= minimum
  {
    if raw.None? || raw.value < minimum then default else raw.value
  }

  datatype Env = Env(maxSend: Option<int>, maxReceive: Option<int>, chunk: Option<int>)

  function MaxSend(env: Env): int { EnvInt(env.maxSend, DEFAULT_MAX_MESSAGE, MIB) }

  function MaxReceive(env: Env): int { EnvInt(env.maxReceive, DEFAULT_MAX_MESSAGE, MIB) }

  /** A chunk always leaves 64 KiB of room below both message limits. */
  function SafeMaxChunk(env: Env): (n: int)
    ensures 1 <= n <= MaxSend(env) - HEADROOM && n <= MaxReceive(env) - HEADROOM
  {
    var configured := EnvInt(env.chunk, DEFAULT_CHUNK, 1);
    var cap := Min(MaxSend(env), MaxReceive(env)) - HEADROOM;
    if cap <= 0 then 1 else Min(configured, cap)
  }

  function ResolveChunk(env: Env, requested: Option<int>): (n: int)
    ensures 1 <= n <= SafeMaxChunk(env)
  {
    if requested.None? then SafeMaxChunk(env) else Min(SafeMaxChunk(env), Max(1, requested.value))
  }

  /** An environment variable in force: given and not too small, or else the default. */
  predicate InForce(raw: Option<int>, default: int, minimum: int, v: int) {
    if raw.Some? && raw.value >= minimum then v == raw.value else v == default
  }

  /** The safe size is the largest within the configured chunk size (4 MiB if unset) that
      leaves 64 KiB below both message limits (64 MiB if unset, never under 1 MiB). */
  lemma SafeMaxChunkIsLargest(env: Env, send: int, receive: int, chunk: int, n: int)
    requires InForce(env.maxSend, 67108864, 1048576, send)
    requires InForce(env.maxReceive, 67108864, 1048576, receive)
    requires InForce(env.chunk, 4194304, 1, chunk)
    ensures n <= SafeMaxChunk(env) <==> n <= chunk && n + 65536 <= send && n + 65536 <= receive
  {
  }

  /** A request for a positive size gets the largest safe size within it, a request for
      less gets one byte, and no request gets the safe size. */
  lemma ResolveChunkIsLargest(env: Env, requested: Option<int>, n: int)
    ensures n <= ResolveChunk(env, requested) <==>
              n <= SafeMaxChunk(env) && (requested.Some? ==> n <= requested.value || n <= 1)
  {
  }

  // ----- view chunks

  datatype Span = Span(base: int, data: seq<byte>)

  datatype Chunk = Chunk(offset: int, data: seq<byte>)

  function Concat(chunks: seq<Chunk>): seq<byte> {
    if chunks == [] then [] else chunks[0].data + Concat(chunks[1..])
  }

  lemma AppendAssociates<T>(a: seq<T>, b: seq<T>, c: seq<T>)
    ensures a + (b + c) == a + b + c
  {
  }

  lemma {:induction false} ConcatAppend(chunks: seq<Chunk>, c: Chunk)
    ensures Concat(chunks + [c]) == Concat(chunks) + c.data
  {
    if chunks == [] {
      assert chunks + [c] == [c];
    } else {
      ConcatAppend(chunks[1..], c);
      assert (chunks + [c])[0] == chunks[0] && (chunks + [c])[1..] == chunks[1..] + [c];
      AppendAssociates(chunks[0].data, Concat(chunks[1..]), c.data);
    }
  }

  /** Chunks that lie end to end from `base`, all full but possibly the last. */
  ghost predicate Tiles(chunks: seq<Chunk>, base: int, size: int) {
    forall i | 0 <= i < |chunks| ::
      && chunks[i].offset == base + i * size
      && 1 <= |chunks[i].data| <= size
      && (i < |chunks| - 1 ==> |chunks[i].data| == size)
  }

  ghost predicate AllFull(chunks: seq<Chunk>, size: int) {
    forall i | 0 <= i < |chunks| :: |chunks[i].data| == size
  }

  lemma TilesAppend(chunks: seq<Chunk>, c: Chunk, base: int, size: int)
    requires Tiles(chunks, base, size) && AllFull(chunks, size)
    requires c.offset == base + |chunks| * size && 1 <= |c.data| <= size
    ensures Tiles(chunks + [c], base, size)
    ensures |c.data| == size ==> AllFull(chunks + [c], size)
  {
  }

  /** What one span must be cut into. */
  ghost predicate Cuts(chunks: seq<Chunk>, s: Span, size: int) {
    Tiles(chunks, s.base, size) && Concat(chunks) == s.data
  }

  /** The loop over one span. `emitted` is the running byte counter of the stream,
      which grows by the length of each chunk. */
  method CutSpan(s: Span, size: int, emittedBefore: nat) returns (chunks: seq<Chunk>, emitted: nat)
    requires size >= 1
    ensures Cuts(chunks, s, size)
    ensures emitted == emittedBefore + |s.data|
  {
    chunks, emitted := [], emittedBefore;
    var relative := 0;
    while relative < |s.data|
      invariant 0 <= relative <= |s.data|
      invariant relative < |s.data| ==> relative == |chunks| * size && AllFull(chunks, size)
      invariant Concat(chunks) == s.data[..relative] && emitted == emittedBefore + relative
      invariant Tiles(chunks, s.base, size)
      decreases |s.data| - relative
    {
      var chunk := s.data[relative..Min(relative + size, |s.data|)];
      var c := Chunk(s.base + relative, chunk);
      ConcatAppend(chunks, c);
      TilesAppend(chunks, c, s.base, size);
      assert s.data[..relative] + chunk == s.data[..relative + |chunk|];
      assert (|chunks| + 1) * size == |chunks| * size + size;
      chunks := chunks + [c];
      emitted := emitted + |chunk|;
      relative := relative + |chunk|;
    }
    assert s.data[..relative] == s.data;
  }

  function TotalBytes(spans: seq<Span>): nat {
    if spans == [] then 0 else TotalBytes(spans[..|spans| - 1]) + |spans[|spans| - 1].data|
  }

  function Flatten<T>(parts: seq<seq<T>>): seq<T> {
    if parts == [] then [] else Flatten(parts[..|parts| - 1]) + parts[|parts| - 1]
  }

  function ChunkBytes(chunks: seq<Chunk>): nat {
    |Concat(chunks)|
  }

  lemma {:induction false} ConcatSplit(a: seq<Chunk>, b: seq<Chunk>)
    ensures Concat(a + b) == Concat(a) + Concat(b)
  {
    if a == [] {
      assert a + b == b;
    } else {
      ConcatSplit(a[1..], b);
      assert (a + b)[0] == a[0] && (a + b)[1..] == a[1..] + b;
      AppendAssociates(a[0].data, Concat(a[1..]), Concat(b));
    }
  }

  lemma FlattenStep<T>(parts: seq<seq<T>>, part: seq<T>)
    ensures Flatten(parts + [part]) == Flatten(parts) + part
  {
    assert (parts + [part])[..|parts|] == parts;
  }

  lemma TotalStep(spans: seq<Span>, i: nat)
    requires i < |spans|
    ensures TotalBytes(spans[..i + 1]) == TotalBytes(spans[..i]) + |spans[i].data|
  {
    assert spans[..i + 1][..i] == spans[..i];
  }

  ghost predicate Sized(chunks: seq<Chunk>, size: int) {
    forall i | 0 <= i < |chunks| :: 1 <= |chunks[i].data| <= size
  }

  /** `cuts` says which requests belong to which of the first `i` spans. */
  ghost predicate FedSoFar(cuts: seq<seq<Chunk>>, spans: seq<Span>, size: int, i: nat) {
    |cuts| == i <= |spans| && forall j | 0 <= j < i :: Cuts(cuts[j], spans[j], size)
  }

  lemma FeedStep(cuts: seq<seq<Chunk>>, spans: seq<Span>, size: int, i: nat, requests: seq<Chunk>, chunks: seq<Chunk>)
    requires FedSoFar(cuts, spans, size, i) && i < |spans| && Cuts(chunks, spans[i], size)
    requires requests == Flatten(cuts) && Sized(requests, size) && ChunkBytes(requests) == TotalBytes(spans[..i])
    ensures FedSoFar(cuts + [chunks], spans, size, i + 1)
    ensures requests + chunks == Flatten(cuts + [chunks])
    ensures Sized(requests + chunks, size)
    ensures ChunkBytes(requests + chunks) == TotalBytes(spans[..i + 1]) == TotalBytes(spans[..i]) + |spans[i].data|
  {
    ConcatSplit(requests, chunks);
    FlattenStep(cuts, chunks);
    TotalStep(spans, i);
  }

  /** The view feed: each span is cut separately, the requests are the cuts in
      order, and the byte counter ends at the total input. */
  method FeedView(env: Env, spans: seq<Span>, requested: Option<int>)
    returns (requests: seq<Chunk>, emittedBytes: nat, ghost cuts: seq<seq<Chunk>>)
    ensures FedSoFar(cuts, spans, ResolveChunk(env, requested), |spans|) && requests == Flatten(cuts)
    ensures emittedBytes == TotalBytes(spans) == ChunkBytes(requests)
    ensures Sized(requests, MaxSend(env) - HEADROOM) && Sized(requests, MaxReceive(env) - HEADROOM)
  {
    var size := ResolveChunk(env, requested);
    requests, emittedBytes, cuts := [], 0, [];
    for i := 0 to |spans|
      invariant FedSoFar(cuts, spans, size, i) && requests == Flatten(cuts) && Sized(requests, size)
      invariant emittedBytes == TotalBytes(spans[..i]) == ChunkBytes(requests)
    {
      var chunks, emitted := CutSpan(spans[i], size, emittedBytes);
      FeedStep(cuts, spans, size, i, requests, chunks);
      requests := requests + chunks;
      cuts := cuts + [chunks];
      emittedBytes := emitted;
    }
    assert spans[..|spans|] == spans;
  }

  lemma {:induction false} ConcatAtLeast(chunks: seq<Chunk>)
    requires forall i | 0 <= i < |chunks| :: |chunks[i].data| >= 1
    ensures |Concat(chunks)| >= |chunks|
  {
    if chunks != [] { ConcatAtLeast(chunks[1..]); }
  }

  /** A span determines its chunks, so the feed is the only stream that meets the contract. */
  lemma {:induction false} CutsAreUnique(a: seq<Chunk>, b: seq<Chunk>, s: Span, size: int)
    requires size >= 1 && Cuts(a, s, size) && Cuts(b, s, size)
    ensures a == b
    decreases |s.data|
  {
    if s.data == [] {
      ConcatAtLeast(a);
      ConcatAtLeast(b);
    } else {
      FirstChunk(a, s, size);
      FirstChunk(b, s, size);
      var rest := Span(s.base + size, s.data[|a[0].data|..]);
      if |s.data| <= size {
        assert rest.data == [];
      }
      TailCuts(a, s, size);
      TailCuts(b, s, size);
      CutsAreUnique(a[1..], b[1..], rest, size);
      assert a == [a[0]] + a[1..] && b == [b[0]] + b[1..];
    }
  }

  lemma FirstChunk(a: seq<Chunk>, s: Span, size: int)
    requires size >= 1 && Cuts(a, s, size) && s.data != []
    ensures a != [] && a[0] == Chunk(s.base, s.data[..Min(size, |s.data|)])
  {
    assert a[0].data <= s.data;
    if |a[0].data| < size {
      assert |a| == 1;
      assert Concat(a[1..]) == [];
      assert s.data == a[0].data;
    } else {
      assert a[0].offset == s.base + 0 * size;
    }
  }

  lemma TailCuts(a: seq<Chunk>, s: Span, size: int)
    requires size >= 1 && Cuts(a, s, size) && a != []
    ensures Cuts(a[1..], Span(s.base + size, s.data[|a[0].data|..]), size)
  {
    var t := a[1..];
    forall i | 0 <= i < |t|
      ensures t[i].offset == s.base + size + i * size && 1 <= |t[i].data| <= size
              && (i < |t| - 1 ==> |t[i].data| == size)
    {
      assert t[i] == a[i + 1];
      assert a[i + 1].offset == s.base + (i + 1) * size;
    }
  }

  // ----- memory views whose items are wider than a byte

  /** The loop over a memory view tests the byte count but slices and advances by
      items. `NextOffset` is one iteration on a view of `items` items of
      `itemSize` bytes each. */
  function NextOffset(items: nat, size: nat, relative: nat): nat {
    relative + if relative >= items then 0 else Min(size, items - relative)
  }

  function OffsetAfter(items: nat, size: nat, n: nat): nat {
    if n == 0 then 0 else NextOffset(items, size, OffsetAfter(items, size, n - 1))
  }

  lemma {:induction false} OffsetStaysInItems(items: nat, size: nat, n: nat)
    ensures OffsetAfter(items, size, n) <= items
    ensures size >= 1 && n >= items ==> OffsetAfter(items, size, n) == items
    ensures size >= 1 && n < items ==> OffsetAfter(items, size, n) >= n
  {
    if n > 0 { OffsetStaysInItems(items, size, n - 1); }
  }

  /** The loop ends exactly for byte-sized items and for empty views; on any other
      view it emits empty chunks for ever. */
  lemma ViewLoopEndsIff(items: nat, itemSize: nat, size: nat)
    requires itemSize >= 1 && size >= 1
    ensures (exists n: nat :: OffsetAfter(items, size, n) >= items * itemSize) <==> (itemSize == 1 || items == 0)
  {
    if itemSize == 1 || items == 0 {
      OffsetStaysInItems(items, size, items);
      assert items * itemSize == items;
      assert OffsetAfter(items, size, items) >= items * itemSize;
    } else {
      assert items * itemSize >= items * 2;
      forall n: nat ensures OffsetAfter(items, size, n) < items * itemSize {
        OffsetStaysInItems(items, size, n);
      }
    }
  }

  // ----- stable-DRAM write ranges

  datatype Range = Range(offset: int, length: int)

  datatype Request = Request(ranges: seq<Range>, uploadComplete: bool)

  datatype RangeError = NegativeOffset(offset: int) | NegativeLength(length: int)

  const MAX_RANGES := 1024

  function NonZero(ranges: seq<Range>): seq<Range> {
    if ranges == [] then []
    else NonZero(ranges[..|ranges| - 1])
         + if ranges[|ranges| - 1].length == 0 then [] else [ranges[|ranges| - 1]]
  }

  predicate Legal(r: Range) { r.offset >= 0 && r.length >= 0 }

  function Payload(requests: seq<Request>): seq<Range> {
    if requests == [] then [] else Payload(requests[..|requests| - 1]) + requests[|requests| - 1].ranges
  }

  ghost predicate FullBatches(requests: seq<Request>) {
    forall i | 0 <= i < |requests| :: |requests[i].ranges| == MAX_RANGES && !requests[i].uploadComplete
  }

  lemma {:induction false} FullPayload(requests: seq<Request>)
    requires FullBatches(requests)
    ensures |Payload(requests)| == MAX_RANGES * |requests|
  {
    if requests != [] { FullPayload(requests[..|requests| - 1]); }
  }

  lemma PayloadAppend(requests: seq<Request>, q: Request)
    ensures Payload(requests + [q]) == Payload(requests) + q.ranges
    ensures FullBatches(requests) && |q.ranges| == MAX_RANGES && !q.uploadComplete ==> FullBatches(requests + [q])
  {
    assert (requests + [q])[..|requests|] == requests;
  }

  /** Full batches, then one last request, shorter and alone in being marked complete. */
  ghost predicate Completed(requests: seq<Request>, payload: seq<Range>) {
    && |requests| == |payload| / MAX_RANGES + 1
    && Payload(requests) == payload
    && FullBatches(requests[..|requests| - 1])
    && |requests[|requests| - 1].ranges| < MAX_RANGES
    && requests[|requests| - 1].uploadComplete
  }

  /** The full batches of the ranges before the illegal one at `k`. */
  ghost predicate StoppedAt(requests: seq<Request>, ranges: seq<Range>, k: nat, error: RangeError) {
    && k < |ranges|
    && !Legal(ranges[k])
    && AllLegal(ranges[..k])
    && error == (if ranges[k].offset < 0 then NegativeOffset(ranges[k].offset) else NegativeLength(ranges[k].length))
    && FullBatches(requests)
    && Payload(requests) <= NonZero(ranges[..k])
    && |NonZero(ranges[..k])| - |Payload(requests)| < MAX_RANGES
  }

  ghost predicate AllLegal(ranges: seq<Range>) {
    forall i | 0 <= i < |ranges| :: Legal(ranges[i])
  }

  lemma NonZeroStep(ranges: seq<Range>, i: nat)
    requires i < |ranges|
    ensures NonZero(ranges[..i + 1]) == NonZero(ranges[..i]) + if ranges[i].length == 0 then [] else [ranges[i]]
    ensures AllLegal(ranges[..i]) && Legal(ranges[i]) ==> AllLegal(ranges[..i + 1])
  {
    assert ranges[..i + 1][..i] == ranges[..i];
  }

  lemma StopsHere(requests: seq<Request>, ranges: seq<Range>, k: nat, open: seq<Range>)
    requires k < |ranges| && !Legal(ranges[k]) && AllLegal(ranges[..k]) && FullBatches(requests)
    requires Payload(requests) + open == NonZero(ranges[..k]) && |open| < MAX_RANGES
    ensures !AllLegal(ranges)
    ensures StoppedAt(requests, ranges, k,
                      if ranges[k].offset < 0 then NegativeOffset(ranges[k].offset) else NegativeLength(ranges[k].length))
  {
  }

  /** The range feed. On success the requests carry exactly the non-zero ranges in
      order, `n / 1024 + 1` requests for `n` of them. At an illegal range the full
      batches before it have been sent and nothing is ever marked complete. */
  method FeedRanges(ranges: seq<Range>) returns (requests: seq<Request>, error: Option<RangeError>)
    ensures error.None? <==> AllLegal(ranges)
    ensures error.None? ==> Completed(requests, NonZero(ranges)) && |requests| == |NonZero(ranges)| / 1024 + 1
    ensures error.Some? ==> exists k: nat :: StoppedAt(requests, ranges, k, error.value)
  {
    requests, error := [], None;
    var open: Option<seq<Range>> := None;
    var i := 0;
    while i < |ranges|
      invariant 0 <= i <= |ranges| && AllLegal(ranges[..i])
      invariant FullBatches(requests)
      invariant open.Some? ==> 1 <= |open.value| < MAX_RANGES
      invariant Payload(requests) + (if open.Some? then open.value else []) == NonZero(ranges[..i])
    {
      var r := ranges[i];
      if !Legal(r) {
        StopsHere(requests, ranges, i, if open.Some? then open.value else []);
      }
      if r.offset < 0 {
        return requests, Some(NegativeOffset(r.offset));
      }
      if r.length < 0 {
        return requests, Some(NegativeLength(r.length));
      }
      NonZeroStep(ranges, i);
      i := i + 1;
      if r.length == 0 {
        continue;
      }
      if open.None? {
        open := Some([]);
      }
      AppendAssociates(Payload(requests), open.value, [r]);
      open := Some(open.value + [r]);
      if |open.value| >= MAX_RANGES {
        PayloadAppend(requests, Request(open.value, false));
        requests := requests + [Request(open.value, false)];
        open := None;
      }
    }
    assert ranges[..i] == ranges;
    FullPayload(requests);
    if open.None? {
      open := Some([]);
    }
    PayloadAppend(requests, Request(open.value, true));
    assert (requests + [Request(open.value, true)])[..|requests|] == requests;
    requests := requests + [Request(open.value, true)];
  }

  /** The batching is forced: two request lists that complete the same payload are equal. */
  lemma {:induction false} BatchingIsUnique(a: seq<Request>, b: seq<Request>, payload: seq<Range>)
    requires Completed(a, payload) && Completed(b, payload)
    ensures a == b
  {
    var n := |a| - 1;
    FullPayload(a[..n]);
    FullPayload(b[..n]);
    assert a[n].ranges == payload[MAX_RANGES * n..] == b[n].ranges;
    assert Payload(a[..n]) == payload[..MAX_RANGES * n] == Payload(b[..n]);
    FullBatchesUnique(a[..n], b[..n]);
    assert a == a[..n] + [a[n]] && b == b[..n] + [b[n]];
  }

  lemma {:induction false} FullBatchesUnique(a: seq<Request>, b: seq<Request>)
    requires FullBatches(a) && FullBatches(b) && |a| == |b| && Payload(a) == Payload(b)
    ensures a == b
  {
    if a != [] {
      var n := |a| - 1;
      FullPayload(a[..n]);
      FullPayload(b[..n]);
      assert Payload(a[..n]) == Payload(a)[..MAX_RANGES * n] == Payload(b[..n]);
      assert a[n].ranges == Payload(a)[MAX_RANGES * n..] == b[n].ranges;
      FullBatchesUnique(a[..n], b[..n]);
      assert a == a[..n] + [a[n]] && b == b[..n] + [b[n]];
    }
  }
}
