/** Chunked range reads: from local disk, and from S3 with one mid-stream resume. The
    network is a parameter: how much each GET's body holds back, and how each read is answered. */
module RangeReads {
  import opened Prelude

  type Byte = b: int | 0 <= b < 256

  type ChunkSize = n: nat | n > 0 witness 1024 * 1024

  datatype Read = Bytes(count: nat) | Timeout

  /** bodies(g): how many bytes the g-th GET delivers at most; replies(k): the k-th read. */
  datatype Net = Net(bodies: nat -> nat, replies: nat -> Read)

  datatype Outcome = Completed | GaveUp

  datatype Download = Download(chunks: seq<seq<Byte>>, outcome: Outcome)

  function Flat(chunks: seq<seq<Byte>>): seq<Byte> {
    if chunks == [] then [] else chunks[0] + Flat(chunks[1..])
  }

  lemma FlatNil()
    ensures Flat([]) == []
  {
  }

  lemma FlatCons(c: seq<Byte>, rest: seq<seq<Byte>>)
    ensures Flat([c] + rest) == c + Flat(rest)
  {
    assert ([c] + rest)[1..] == rest;
  }

  /** The bytes from `start` up to and including `end`. */
  function Slice(obj: seq<Byte>, start: nat, end: int): seq<Byte>
    requires end < |obj|
  {
    if start <= end then obj[start..end + 1] else []
  }

  ghost predicate WellCut(chunks: seq<seq<Byte>>, chunk: ChunkSize) {
    forall c :: c in chunks ==> 0 < |c| <= chunk
  }

  // ---------- Local disk ----------

  /** What fh.read(n) returns at a position: short only at the end of the file. */
  function ReadAt(obj: seq<Byte>, at: nat, n: nat): seq<Byte> {
    if at >= |obj| then [] else obj[at..Min(at + n, |obj|)]
  }

  /** A sequence cut into chunks of equal size, the last one possibly shorter. */
  function Blocks(s: seq<Byte>, chunk: ChunkSize): seq<seq<Byte>> {
    if s == [] then [] else if |s| <= chunk then [s] else [s[..chunk]] + Blocks(s[chunk..], chunk)
  }

  lemma {:induction false} BlocksRejoin(s: seq<Byte>, chunk: ChunkSize)
    ensures Flat(Blocks(s, chunk)) == s
    ensures WellCut(Blocks(s, chunk), chunk)
  {
    hide Flat;
    FlatNil();
    if s == [] {
    } else if |s| <= chunk {
      FlatCons(s, []);
      assert [s] + [] == [s];
    } else {
      BlocksRejoin(s[chunk..], chunk);
      FlatCons(s[..chunk], Blocks(s[chunk..], chunk));
      assert s[..chunk] + s[chunk..] == s;
    }
  }

  /** Reading past the end of the file stops the loop early. */
  method IterLocal(obj: seq<Byte>, start: nat, end: int, chunk: ChunkSize) returns (chunks: seq<seq<Byte>>)
    ensures chunks == Blocks(Slice(obj, start, Min(end, |obj| - 1)), chunk)
  {
    chunks := [];
    var at: nat := start;
    var remaining := end - start + 1;
    ghost var last := Min(end, |obj| - 1);
    while remaining > 0
      invariant remaining == end + 1 - at
      invariant chunks + Blocks(Slice(obj, at, last), chunk) == Blocks(Slice(obj, start, last), chunk)
    {
      var data := ReadAt(obj, at, Min(chunk, remaining));
      if data == [] {
        break;
      }
      NextBlock(obj, at, end, chunk);
      Regroup(chunks, [data], Blocks(Slice(obj, at + |data|, last), chunk));
      remaining := remaining - |data|;
      at := at + |data|;
      chunks := chunks + [data];
    }
  }

  lemma NextBlock(obj: seq<Byte>, at: nat, end: int, chunk: ChunkSize)
    requires at <= end && at < |obj|
    ensures var data, last := ReadAt(obj, at, Min(chunk, end + 1 - at)), Min(end, |obj| - 1);
            Blocks(Slice(obj, at, last), chunk) == [data] + Blocks(Slice(obj, at + |data|, last), chunk)
  {
    var data, last := ReadAt(obj, at, Min(chunk, end + 1 - at)), Min(end, |obj| - 1);
    hide Blocks, ReadAt, Slice;
    ReadIsFirst(obj, at, end, chunk);
    BlocksStep(Slice(obj, at, last), chunk);
  }

  /** A read returns the first chunk of what remains of the range. */
  lemma ReadIsFirst(obj: seq<Byte>, at: nat, end: int, chunk: ChunkSize)
    requires at <= end && at < |obj|
    ensures var data, last := ReadAt(obj, at, Min(chunk, end + 1 - at)), Min(end, |obj| - 1);
            var rest := Slice(obj, at, last);
            && data == rest[..Min(chunk, |rest|)] && rest != []
            && Slice(obj, at + |data|, last) == rest[Min(chunk, |rest|)..]
  {
  }

  lemma BlocksStep(rest: seq<Byte>, chunk: ChunkSize)
    requires rest != []
    ensures Blocks(rest, chunk) == [rest[..Min(chunk, |rest|)]] + Blocks(rest[Min(chunk, |rest|)..], chunk)
  {
    if |rest| <= chunk {
      assert rest[..|rest|] == rest && rest[|rest|..] == [];
    }
  }

  // ---------- S3 ----------

  /** How many bytes a read returns when `left` remain in the body. */
  function Taken(count: nat, chunk: ChunkSize, left: nat): (n: nat)
    requires left > 0
    ensures 1 <= n <= left && n <= chunk
  {
    Max(1, Min(count, Min(chunk, left)))
  }

  /** The download from `cursor` on, about to send GET number g. */
  function Request(obj: seq<Byte>, cursor: nat, end: int, chunk: ChunkSize, net: Net, g: nat, k: nat,
                   attempts: nat): Download
    requires end < |obj| && attempts <= 1
    decreases 1 - attempts, |obj| + 1
  {
    if cursor > end then Download([], Completed)
    else Stream(obj, cursor, end, chunk, net, g, k, attempts, Min(net.bodies(g), end + 1 - cursor))
  }

  /** The download from `cursor` on, with `left` unread bytes in the current body. */
  function Stream(obj: seq<Byte>, cursor: nat, end: int, chunk: ChunkSize, net: Net, g: nat, k: nat, attempts: nat,
                  left: nat): Download
    requires end < |obj| && attempts <= 1 && cursor + left <= end + 1
    decreases 1 - attempts, left
  {
    match net.replies(k)
    case Timeout =>
      if attempts >= 1 then Download([], GaveUp)
      else Request(obj, cursor, end, chunk, net, g + 1, k + 1, attempts + 1)
    case Bytes(count) =>
      if left == 0 then Download([], Completed)
      else
        var n := Taken(count, chunk, left);
        Cons(obj[cursor..cursor + n], Stream(obj, cursor + n, end, chunk, net, g, k + 1, attempts, left - n))
  }

  function Cons(c: seq<Byte>, d: Download): Download { d.(chunks := [c] + d.chunks) }

  /** The chunks already yielded, and then the rest of the download. */
  function Yielded(chunks: seq<seq<Byte>>, d: Download): Download { d.(chunks := chunks + d.chunks) }

  function Fetched(obj: seq<Byte>, start: nat, end: int, chunk: ChunkSize, net: Net): Download
    requires end < |obj|
  {
    Request(obj, start, end, chunk, net, 0, 0, 0)
  }

  lemma RequestUnfolds(obj: seq<Byte>, cursor: nat, end: int, chunk: ChunkSize, net: Net, g: nat, k: nat, attempts: nat)
    requires end < |obj| && attempts <= 1
    ensures Request(obj, cursor, end, chunk, net, g, k, attempts)
         == if cursor > end then Download([], Completed)
            else Stream(obj, cursor, end, chunk, net, g, k, attempts, Min(net.bodies(g), end + 1 - cursor))
  {
  }

  lemma StreamUnfolds(obj: seq<Byte>, cursor: nat, end: int, chunk: ChunkSize, net: Net, g: nat, k: nat,
                      attempts: nat, left: nat)
    requires end < |obj| && attempts <= 1 && cursor + left <= end + 1
    ensures Stream(obj, cursor, end, chunk, net, g, k, attempts, left)
         == if net.replies(k).Timeout? then
              if attempts >= 1 then Download([], GaveUp)
              else Request(obj, cursor, end, chunk, net, g + 1, k + 1, attempts + 1)
            else if left == 0 then Download([], Completed)
            else
              var n := Taken(net.replies(k).count, chunk, left);
              Cons(obj[cursor..cursor + n], Stream(obj, cursor + n, end, chunk, net, g, k + 1, attempts, left - n))
  {
  }

  /** The caller clamps `end` to the object. */
  method IterS3(obj: seq<Byte>, start: nat, end: int, chunk: ChunkSize, net: Net) returns (d: Download)
    requires end < |obj|
    ensures d == Fetched(obj, start, end, chunk, net)
  {
    hide Request, Stream;
    var chunks: seq<seq<Byte>> := [];
    var cursor: nat := start;
    var attempts, g, k := 0, 0, 0;
    while cursor <= end
      invariant attempts <= 1
      invariant Fetched(obj, start, end, chunk, net)
             == Yielded(chunks, Request(obj, cursor, end, chunk, net, g, k, attempts))
      decreases 1 - attempts, end + 1 - cursor
    {
      RequestUnfolds(obj, cursor, end, chunk, net, g, k, attempts);
      var left := Min(net.bodies(g), end + 1 - cursor);
      g := g + 1;
      ghost var before := attempts;
      while true
        invariant attempts == before && g > 0 && left >= 0 && cursor + left <= end + 1
        invariant Fetched(obj, start, end, chunk, net)
               == Yielded(chunks, Stream(obj, cursor, end, chunk, net, g - 1, k, attempts, left))
        decreases left
      {
        StreamUnfolds(obj, cursor, end, chunk, net, g - 1, k, attempts, left);
        var read := net.replies(k);
        k := k + 1;
        if read.Timeout? {
          if attempts >= 1 {
            return Download(chunks, GaveUp);
          }
          attempts := attempts + 1;
          break;
        }
        if left == 0 {
          return Download(chunks, Completed);
        }
        var n := Taken(read.count, chunk, left);
        var data := obj[cursor..cursor + n];
        Regroup(chunks, [data], Stream(obj, cursor + n, end, chunk, net, g - 1, k, attempts, left - n).chunks);
        cursor := cursor + n;
        left := left - n;
        chunks := chunks + [data];
      }
    }
    RequestUnfolds(obj, cursor, end, chunk, net, g, k, attempts);
    return Download(chunks, Completed);
  }

  // ---------- What a download delivers ----------

  /** The chunks are the object's bytes from `cursor`, in order, without gap or repeat. */
  ghost predicate Contiguous(obj: seq<Byte>, cursor: nat, end: int, chunk: ChunkSize, d: Download) {
    && WellCut(d.chunks, chunk)
    && (d.chunks == [] || cursor + |Flat(d.chunks)| <= end + 1 <= |obj|)
    && (d.chunks != [] ==> Flat(d.chunks) == obj[cursor..cursor + |Flat(d.chunks)|])
  }

  lemma NothingIsContiguous(obj: seq<Byte>, cursor: nat, end: int, chunk: ChunkSize)
    ensures forall o :: Contiguous(obj, cursor, end, chunk, Download([], o))
  {
  }

  lemma {:induction false} RequestIsContiguous(obj: seq<Byte>, cursor: nat, end: int, chunk: ChunkSize, net: Net,
      g: nat, k: nat, attempts: nat)
    requires end < |obj| && attempts <= 1
    ensures Contiguous(obj, cursor, end, chunk, Request(obj, cursor, end, chunk, net, g, k, attempts))
    decreases 1 - attempts, |obj| + 1
  {
    hide Contiguous, Stream;
    NothingIsContiguous(obj, cursor, end, chunk);
    if cursor <= end {
      StreamIsContiguous(obj, cursor, end, chunk, net, g, k, attempts, Min(net.bodies(g), end + 1 - cursor));
    }
  }

  lemma {:induction false} StreamIsContiguous(obj: seq<Byte>, cursor: nat, end: int, chunk: ChunkSize, net: Net,
      g: nat, k: nat, attempts: nat, left: nat)
    requires end < |obj| && attempts <= 1 && cursor + left <= end + 1
    ensures Contiguous(obj, cursor, end, chunk, Stream(obj, cursor, end, chunk, net, g, k, attempts, left))
    decreases 1 - attempts, left
  {
    hide Contiguous, Request, Flat;
    NothingIsContiguous(obj, cursor, end, chunk);
    match net.replies(k)
    case Timeout =>
      if attempts == 0 {
        RequestIsContiguous(obj, cursor, end, chunk, net, g + 1, k + 1, attempts + 1);
      }
    case Bytes(count) =>
      if left > 0 {
        var n := Taken(count, chunk, left);
        StreamIsContiguous(obj, cursor + n, end, chunk, net, g, k + 1, attempts, left - n);
        ConsIsContiguous(obj, cursor, n, end, chunk, Stream(obj, cursor + n, end, chunk, net, g, k + 1, attempts,
            left - n));
      }
  }

  lemma ConsIsContiguous(obj: seq<Byte>, cursor: nat, n: nat, end: int, chunk: ChunkSize, d: Download)
    requires 0 < n <= chunk && cursor + n <= end + 1 <= |obj| && Contiguous(obj, cursor + n, end, chunk, d)
    ensures Contiguous(obj, cursor, end, chunk, Cons(obj[cursor..cursor + n], d))
  {
    hide Flat;
    FlatCons(obj[cursor..cursor + n], d.chunks);
    FlatNil();
  }

  /** Whatever the network does, what was yielded is a prefix of the requested range. */
  lemma AlwaysAPrefix(obj: seq<Byte>, start: nat, end: int, chunk: ChunkSize, net: Net)
    requires end < |obj|
    ensures Flat(Fetched(obj, start, end, chunk, net).chunks) <= Slice(obj, start, end)
    ensures WellCut(Fetched(obj, start, end, chunk, net).chunks, chunk)
  {
    hide Request;
    var d := Fetched(obj, start, end, chunk, net);
    RequestIsContiguous(obj, start, end, chunk, net, 0, 0, 0);
    if d.chunks != [] {
      assert d.chunks[0] in d.chunks;
      assert Flat(d.chunks) == obj[start..start + |Flat(d.chunks)|] == Slice(obj, start, end)[..|Flat(d.chunks)|];
    }
  }

  // ---------- Exactly what a download delivers ----------

  /** How many of the reads number i, ..., j-1 time out. */
  function Timeouts(net: Net, i: nat, j: nat): nat
    requires i <= j
    decreases j - i
  {
    if i == j then 0 else (if net.replies(i).Timeout? then 1 else 0) + Timeouts(net, i + 1, j)
  }

  /** How a stream ended: the last GET sent, the byte it was asked from, how many bytes
      of its body stayed unread, and how many reads were performed in all. */
  datatype Ending = Ending(get: nat, from: nat, unread: nat, performed: nat)

  function EndingOf(end: int, chunk: ChunkSize, net: Net, cursor: nat, g: nat, from: nat, k: nat, attempts: nat,
                    left: nat): (e: Ending)
    requires attempts <= 1 && cursor + left <= end + 1
    ensures e.performed > k
    decreases 1 - attempts, left
  {
    match net.replies(k)
    case Timeout =>
      if attempts >= 1 || cursor > end then Ending(g, from, left, k + 1)
      else EndingOf(end, chunk, net, cursor, g + 1, cursor, k + 1, attempts + 1, Min(net.bodies(g + 1),
          end + 1 - cursor))
    case Bytes(count) =>
      if left == 0 then Ending(g, from, 0, k + 1)
      else
        var n := Taken(count, chunk, left);
        EndingOf(end, chunk, net, cursor + n, g, from, k + 1, attempts, left - n)
  }

  /** How the download of a non-empty range ends. */
  function LastGet(start: nat, end: int, chunk: ChunkSize, net: Net): Ending
    requires start <= end
  {
    EndingOf(end, chunk, net, start, 0, start, 0, 0, Min(net.bodies(0), end + 1 - start))
  }

  /** The last GET's body held everything it was asked for. */
  predicate Covered(net: Net, end: int, e: Ending) { net.bodies(e.get) >= end + 1 - e.from }

  /** Where the current body ends. */
  predicate InBody(net: Net, end: int, cursor: nat, g: nat, from: nat, left: nat) {
    from <= cursor <= end + 1 && cursor + left == Min(from + net.bodies(g), end + 1)
  }

  lemma {:induction false} StreamExactly(obj: seq<Byte>, cursor: nat, end: int, chunk: ChunkSize, net: Net, g: nat,
      from: nat, k: nat,
                                         attempts: nat, left: nat)
    requires end < |obj| && attempts <= 1 && InBody(net, end, cursor, g, from, left)
    ensures var d := Stream(obj, cursor, end, chunk, net, g, k, attempts, left);
            var e := EndingOf(end, chunk, net, cursor, g, from, k, attempts, left);
            && attempts + Timeouts(net, k, e.performed) <= 2
            && (d.outcome.GaveUp? <==> attempts + Timeouts(net, k, e.performed) == 2)
            && (Timeouts(net, k, e.performed) == 0 ==> e.get == g && e.from == from)
            && cursor + |Flat(d.chunks)| + e.unread == Min(e.from + net.bodies(e.get), end + 1)
            && e.from <= end + 1
            && (d.outcome.Completed? ==> e.unread == 0)
    decreases 1 - attempts, left
  {
    hide Flat, Stream, Request;
    FlatNil();
    StreamUnfolds(obj, cursor, end, chunk, net, g, k, attempts, left);
    match net.replies(k)
    case Timeout =>
      if attempts == 0 {
        RequestUnfolds(obj, cursor, end, chunk, net, g + 1, k + 1, 1);
        if cursor <= end {
          StreamExactly(obj, cursor, end, chunk, net, g + 1, cursor, k + 1, 1, Min(net.bodies(g + 1),
              end + 1 - cursor));
        }
      }
    case Bytes(count) =>
      if left > 0 {
        var n := Taken(count, chunk, left);
        StreamExactly(obj, cursor + n, end, chunk, net, g, from, k + 1, attempts, left - n);
        FlatCons(obj[cursor..cursor + n], Stream(obj, cursor + n, end, chunk, net, g, k + 1, attempts,
            left - n).chunks);
      }
  }

  /** Everything from `start` through `end`, completed. */
  ghost predicate Delivers(obj: seq<Byte>, start: nat, end: int, d: Download)
    requires end < |obj|
  {
    d.outcome == Completed && Flat(d.chunks) == Slice(obj, start, end)
  }

  /** For every network: the stream gives up exactly when two of the reads it performed
      timed out, and all bytes have arrived exactly when the last GET's body held what
      it was asked for and was read to its end. */
  lemma DownloadExactly(obj: seq<Byte>, start: nat, end: int, chunk: ChunkSize, net: Net)
    requires start <= end < |obj|
    ensures var d, e := Fetched(obj, start, end, chunk, net), LastGet(start, end, chunk, net);
            && Timeouts(net, 0, e.performed) <= 2
            && (d.outcome.GaveUp? <==> Timeouts(net, 0, e.performed) == 2)
            && (d.outcome.Completed? ==> e.unread == 0)
            && (Flat(d.chunks) == Slice(obj, start, end) <==> e.unread == 0 && Covered(net, end, e))
            && (Timeouts(net, 0, e.performed) == 0 ==> e.get == 0 && e.from == start)
  {
    hide Stream, Request, Flat, WellCut;
    RequestUnfolds(obj, start, end, chunk, net, 0, 0, 0);
    StreamExactly(obj, start, end, chunk, net, 0, start, 0, 0, Min(net.bodies(0), end + 1 - start));
    AlwaysAPrefix(obj, start, end, chunk, net);
  }

  /** A completed download of the whole range: at most one timeout, and the last GET
      covered what it was asked for. */
  lemma DeliversIff(obj: seq<Byte>, start: nat, end: int, chunk: ChunkSize, net: Net)
    requires start <= end < |obj|
    ensures var e := LastGet(start, end, chunk, net);
            (Delivers(obj, start, end, Fetched(obj, start, end, chunk, net))
             <==> Timeouts(net, 0, e.performed) <= 1 && Covered(net, end, e))
  {
    hide Fetched, LastGet, Flat;
    DownloadExactly(obj, start, end, chunk, net);
  }

  /** Without timeouts: whole iff the first body covers the range, and never aborted. */
  lemma UndisturbedIff(obj: seq<Byte>, start: nat, end: int, chunk: ChunkSize, net: Net)
    requires start <= end < |obj| && Timeouts(net, 0, LastGet(start, end, chunk, net).performed) == 0
    ensures Fetched(obj, start, end, chunk, net).outcome == Completed
    ensures Delivers(obj, start, end, Fetched(obj, start, end, chunk, net)) <==> net.bodies(0) >= end + 1 - start
  {
    hide Fetched, LastGet, Flat;
    DownloadExactly(obj, start, end, chunk, net);
  }

  /** One timeout, wherever it falls, never aborts, and it is invisible exactly when the
      GET that ends the stream covered its own range. */
  lemma OneTimeoutIsInvisible(obj: seq<Byte>, start: nat, end: int, chunk: ChunkSize, net: Net)
    requires start <= end < |obj| && Timeouts(net, 0, LastGet(start, end, chunk, net).performed) == 1
    ensures Fetched(obj, start, end, chunk, net).outcome == Completed
    ensures Delivers(obj, start, end, Fetched(obj, start, end, chunk, net))
       <==> Covered(net, end, LastGet(start, end, chunk, net))
  {
    hide Fetched, LastGet, Flat;
    DownloadExactly(obj, start, end, chunk, net);
  }

  /** Exactly when a download is reported complete although bytes are missing. */
  lemma SilentlyTruncatedIff(obj: seq<Byte>, start: nat, end: int, chunk: ChunkSize, net: Net)
    requires start <= end < |obj|
    ensures var d, e := Fetched(obj, start, end, chunk, net), LastGet(start, end, chunk, net);
            (d.outcome.Completed? && Flat(d.chunks) != Slice(obj, start, end)
             <==> Timeouts(net, 0, e.performed) <= 1 && !Covered(net, end, e))
  {
    hide Fetched, LastGet, Flat;
    DownloadExactly(obj, start, end, chunk, net);
  }

  /** Exactly when a stream aborts although every byte was delivered. */
  lemma AbortedAfterAllIff(obj: seq<Byte>, start: nat, end: int, chunk: ChunkSize, net: Net)
    requires start <= end < |obj|
    ensures var d, e := Fetched(obj, start, end, chunk, net), LastGet(start, end, chunk, net);
            (d.outcome.GaveUp? && Flat(d.chunks) == Slice(obj, start, end)
             <==> Timeouts(net, 0, e.performed) == 2 && Covered(net, end, e) && e.unread == 0)
  {
    hide Fetched, LastGet, Flat;
    DownloadExactly(obj, start, end, chunk, net);
  }

  /** A short body ends the stream early without an error: the caller sees a completed,
      truncated download. */
  lemma ShortBodyTruncates(obj: seq<Byte>, start: nat, end: int, chunk: ChunkSize, net: Net, n: nat)
    requires start <= end < |obj| && net.bodies(0) == n && 0 < n < end + 1 - start
    requires net.replies(0) == Bytes(n) && n <= chunk && net.replies(1).Bytes?
    ensures Fetched(obj, start, end, chunk, net) == Download([obj[start..start + n]], Completed)
  {
    assert Stream(obj, start + n, end, chunk, net, 0, 1, 0, 0) == Download([], Completed);
    assert Stream(obj, start, end, chunk, net, 0, 0, 0, n) == Download([obj[start..start + n]], Completed);
  }

  /** A second timeout aborts even when every byte was already delivered. */
  lemma LateTimeoutAborts(obj: seq<Byte>, start: nat, end: int, chunk: ChunkSize, net: Net)
    requires start <= end < |obj| && end + 1 - start <= chunk
    requires net.bodies(0) >= end + 1 - start && net.bodies(1) >= end + 1 - start
    requires net.replies(0) == Timeout && net.replies(1) == Bytes(chunk) && net.replies(2) == Timeout
    ensures Fetched(obj, start, end, chunk, net) == Download([Slice(obj, start, end)], GaveUp)
  {
    var n := end + 1 - start;
    assert Stream(obj, start + n, end, chunk, net, 1, 2, 1, 0) == Download([], GaveUp);
    assert Stream(obj, start, end, chunk, net, 1, 1, 1, n) == Download([obj[start..end + 1]], GaveUp);
    assert Request(obj, start, end, chunk, net, 1, 1, 1) == Download([obj[start..end + 1]], GaveUp);
    assert Stream(obj, start, end, chunk, net, 0, 0, 0, n) == Download([obj[start..end + 1]], GaveUp);
  }

  // ---------- Either side ----------

  datatype StorageError = FileNotFound

  /** What the local side yields. */
  function Local(obj: seq<Byte>, start: nat, end: int, chunk: ChunkSize): Download {
    Download(Blocks(Slice(obj, start, Min(end, |obj| - 1)), chunk), Completed)
  }

  /** Local disk first, then S3; `s3` is None when another backend is configured. */
  method OpenRange(local: Option<seq<Byte>>, s3: Option<seq<Byte>>, start: nat, end: int, chunk: ChunkSize, net: Net)
    returns (r: Result<Download, StorageError>)
    requires local.None? && s3.Some? ==> end < |s3.value|
    ensures r.Err? <==> local.None? && s3.None?
    ensures local.Some? ==> r == Ok(Local(local.value, start, end, chunk))
    ensures local.None? && s3.Some? ==> r == Ok(Fetched(s3.value, start, end, chunk, net))
  {
    if local.Some? {
      var chunks := IterLocal(local.value, start, end, chunk);
      return Ok(Download(chunks, Completed));
    }
    if s3.Some? {
      var d := IterS3(s3.value, start, end, chunk, net);
      return Ok(d);
    }
    return Err(FileNotFound);
  }

  /** The two sides: disk always yields exactly the range, and S3 completes with the same
      bytes exactly when at most one performed read times out and the last GET covers
      what it was asked for. */
  lemma SidesAgreeIff(obj: seq<Byte>, start: nat, end: int, chunk: ChunkSize, net: Net)
    requires end < |obj|
    ensures Delivers(obj, start, end, Local(obj, start, end, chunk))
    ensures Delivers(obj, start, end, Fetched(obj, start, end, chunk, net)) <==>
              start > end || (var e := LastGet(start, end, chunk, net);
                              Timeouts(net, 0, e.performed) <= 1 && Covered(net, end, e))
    ensures WellCut(Local(obj, start, end, chunk).chunks, chunk) &&
        WellCut(Fetched(obj, start, end, chunk, net).chunks, chunk)
  {
    hide Blocks, WellCut, Stream, LastGet;
    BlocksRejoin(Slice(obj, start, end), chunk);
    AlwaysAPrefix(obj, start, end, chunk, net);
    if start <= end {
      DeliversIff(obj, start, end, chunk, net);
    }
  }
}
