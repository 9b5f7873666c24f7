/** How a KV shard travels between coordinator and worker: as chunk frames of at most eight MiB on a byte
    stream (ds4_distributed.c). */
module SnapshotChunks {
  import opened Options
  import opened Bytes
  import opened Arith

  const CHUNK_BYTES: nat := 8 * 1024 * 1024
  const MAGIC: nat := 0x4453_3444
  const MSG_SNAPSHOT_CHUNK: nat := 7
  const HEADER_BYTES: nat := 12
  const FIXED_BYTES: nat := 12

  // ----- One chunk frame -----------------------------------------------------------------

  /** The frame header and the fixed part in front of the data. */
  function Head(request: Word64, n: nat): (b: seq<Byte>)
    requires n <= CHUNK_BYTES
    ensures |b| == HEADER_BYTES + FIXED_BYTES
  {
    BigEndian(MAGIC) + BigEndian(MSG_SNAPSHOT_CHUNK) + BigEndian(FIXED_BYTES + n)
    + BigEndian(request / TWO_32) + BigEndian(request % TWO_32) + BigEndian(n)
  }

  function EncodeChunk(request: Word64, data: seq<Byte>): (b: seq<Byte>)
    requires |data| <= CHUNK_BYTES
    ensures |b| == HEADER_BYTES + FIXED_BYTES + |data|
  {
    Head(request, |data|) + data
  }

  /** The data of the frame at the front of b, if it is a chunk of the request with no more than most
      bytes: the checks of one turn of the receiver. */
  function TakeChunk(b: seq<Byte>, request: Word64, most: nat): Option<seq<Byte>> {
    if |b| < HEADER_BYTES || WordAt(b, 0) != MAGIC then None
    else if WordAt(b, 4) != MSG_SNAPSHOT_CHUNK || WordAt(b, 8) < FIXED_BYTES then None
    else if |b| < HEADER_BYTES + FIXED_BYTES then None
    else
      var n := WordAt(b, 8) - FIXED_BYTES;
      if WordAt(b, 12) * TWO_32 + WordAt(b, 16) != request || WordAt(b, 20) != n then None
      else if n > CHUNK_BYTES || n > most || |b| < HEADER_BYTES + FIXED_BYTES + n then None
      else Some(b[24..24 + n])
  }

  /** Where everything stands in a chunk frame: magic, type and size of the frame, the request as two words,
      the size of the data, and the data. */
  lemma ChunkFormat(request: Word64, data: seq<Byte>)
    requires |data| <= CHUNK_BYTES
    ensures var b := EncodeChunk(request, data);
            && HoldsBig(b, 0, 0x4453_3444) && HoldsBig(b, 4, 7) && HoldsBig(b, 8, 12 + |data|)
            && HoldsBig(b, 12, request / 0x1_0000_0000) && HoldsBig(b, 16, request % 0x1_0000_0000)
            && HoldsBig(b, 20, |data|) && b[24..] == data
  {
    hide BigEndian, HoldsBig;
    var b := EncodeChunk(request, data);
    assert b[0..4] == BigEndian(MAGIC);
    assert b[4..8] == BigEndian(MSG_SNAPSHOT_CHUNK);
    assert b[8..12] == BigEndian(FIXED_BYTES + |data|);
    assert b[12..16] == BigEndian(request / TWO_32);
    assert b[16..20] == BigEndian(request % TWO_32);
    assert b[20..24] == BigEndian(|data|);
    EncodedHolds(MAGIC, b, 0);
    EncodedHolds(MSG_SNAPSHOT_CHUNK, b, 4);
    EncodedHolds(FIXED_BYTES + |data|, b, 8);
    EncodedHolds(request / TWO_32, b, 12);
    EncodedHolds(request % TWO_32, b, 16);
    EncodedHolds(|data|, b, 20);
  }

  lemma Halves(request: Word64, hi: Word32, lo: Word32)
    ensures request / TWO_32 * TWO_32 + request % TWO_32 == request
    ensures hi * TWO_32 + lo == request ==> request / TWO_32 == hi && request % TWO_32 == lo
  {
    DivMod(request, TWO_32);
    if hi * TWO_32 + lo == request {
      DivUnique(request, TWO_32, hi, lo);
    }
  }

  lemma TakeEncoded(request: Word64, data: seq<Byte>, rest: seq<Byte>, most: nat)
    requires |data| <= CHUNK_BYTES
    ensures TakeChunk(EncodeChunk(request, data) + rest, request, most) == if |data| <= most then Some(data) else None
  {
    hide BigEndian, WordAt;
    var b := EncodeChunk(request, data) + rest;
    assert b[0..4] == BigEndian(MAGIC);
    assert b[4..8] == BigEndian(MSG_SNAPSHOT_CHUNK);
    assert b[8..12] == BigEndian(FIXED_BYTES + |data|);
    assert b[12..16] == BigEndian(request / TWO_32);
    assert b[16..20] == BigEndian(request % TWO_32);
    assert b[20..24] == BigEndian(|data|);
    assert b[24..24 + |data|] == data;
    WordRoundTrip(MAGIC, b, 0);
    WordRoundTrip(MSG_SNAPSHOT_CHUNK, b, 4);
    WordRoundTrip(FIXED_BYTES + |data|, b, 8);
    WordRoundTrip(request / TWO_32, b, 12);
    WordRoundTrip(request % TWO_32, b, 16);
    WordRoundTrip(|data|, b, 20);
    Halves(request, 0, 0);
  }

  lemma TakenIsEncoded(b: seq<Byte>, request: Word64, most: nat)
    requires TakeChunk(b, request, most).Some?
    ensures var data := TakeChunk(b, request, most).value;
            && |data| <= CHUNK_BYTES && |data| <= most && 24 + |data| <= |b|
            && b == EncodeChunk(request, data) + b[24 + |data|..]
  {
    hide BigEndian, WordAt;
    var n := |TakeChunk(b, request, most).value|;
    WordIsEncoded(b, 0);
    WordIsEncoded(b, 4);
    WordIsEncoded(b, 8);
    WordIsEncoded(b, 12);
    WordIsEncoded(b, 16);
    WordIsEncoded(b, 20);
    Halves(request, WordAt(b, 12), WordAt(b, 16));
    assert b[0..24] == b[0..4] + b[4..8] + b[8..12] + b[12..16] + b[16..20] + b[20..24];
    assert b[0..24] == Head(request, n);
    assert b == b[0..24] + b[24..24 + n] + b[24 + n..];
  }

  // ----- Several chunks ------------------------------------------------------------------

  predicate ChunksOk(pieces: seq<seq<Byte>>) {
    forall i :: 0 <= i < |pieces| ==> |pieces[i]| <= CHUNK_BYTES
  }

  function EncodeChunks(request: Word64, pieces: seq<seq<Byte>>): seq<Byte>
    requires ChunksOk(pieces)
  {
    if pieces == [] then [] else EncodeChunk(request, pieces[0]) + EncodeChunks(request, pieces[1..])
  }

  function Flatten(pieces: seq<seq<Byte>>): seq<Byte> {
    if pieces == [] then [] else pieces[0] + Flatten(pieces[1..])
  }

  lemma {:induction false} AppendPiece(request: Word64, pieces: seq<seq<Byte>>, data: seq<Byte>)
    requires ChunksOk(pieces) && |data| <= CHUNK_BYTES
    ensures ChunksOk(pieces + [data])
    ensures EncodeChunks(request, pieces + [data]) == EncodeChunks(request, pieces) + EncodeChunk(request, data)
    ensures Flatten(pieces + [data]) == Flatten(pieces) + data
  {
    hide EncodeChunk;
    var longer := pieces + [data];
    if pieces == [] {
      assert longer[1..] == [];
    } else {
      AppendPiece(request, pieces[1..], data);
      assert longer[1..] == pieces[1..] + [data];
    }
  }

  /** The stream begins with the fewest chunks of the request that hold so many bytes, and then rest. */
  ghost predicate Completes(stream: seq<Byte>, request: Word64, bytes: nat, pieces: seq<seq<Byte>>, rest: seq<Byte>) {
    && ChunksOk(pieces) && Fewer(pieces, bytes) && stream == EncodeChunks(request, pieces) + rest
    && |Flatten(pieces)| == bytes
  }

  /** Before the last of these chunks there was something missing. */
  ghost predicate Fewer(pieces: seq<seq<Byte>>, bytes: nat) {
    forall j :: 0 <= j < |pieces| ==> |Flatten(pieces[..j])| < bytes
  }

  lemma FewerGrows(pieces: seq<seq<Byte>>, bytes: nat, data: seq<Byte>)
    requires Fewer(pieces, bytes) && |Flatten(pieces)| < bytes
    ensures Fewer(pieces + [data], bytes)
  {
    var longer := pieces + [data];
    forall j | 0 <= j < |longer|
      ensures |Flatten(longer[..j])| < bytes
    {
      assert longer[..j] == if j < |pieces| then pieces[..j] else pieces;
    }
  }

  lemma {:induction false} FlattenAdds(a: seq<seq<Byte>>, b: seq<seq<Byte>>)
    ensures |Flatten(a + b)| == |Flatten(a)| + |Flatten(b)|
  {
    if a == [] {
      assert a + b == b;
    } else {
      FlattenAdds(a[1..], b);
      assert (a + b)[1..] == a[1..] + b;
    }
  }

  /** Chunks read from the front of a stream are the only ones that can stand there. */
  lemma {:induction false} PrefixUnique(
    request: Word64, p: seq<seq<Byte>>, x: seq<Byte>, q: seq<seq<Byte>>, y: seq<Byte>)
    requires ChunksOk(p) && ChunksOk(q) && |p| <= |q|
    requires EncodeChunks(request, p) + x == EncodeChunks(request, q) + y
    ensures q[..|p|] == p && x == EncodeChunks(request, q[|p|..]) + y
  {
    hide EncodeChunk, TakeChunk;
    if p != [] {
      var b := EncodeChunks(request, p) + x;
      var px, qy := EncodeChunks(request, p[1..]) + x, EncodeChunks(request, q[1..]) + y;
      assert b == EncodeChunk(request, p[0]) + px && b == EncodeChunk(request, q[0]) + qy;
      TakeEncoded(request, p[0], px, CHUNK_BYTES);
      TakeEncoded(request, q[0], qy, CHUNK_BYTES);
      assert p[0] == q[0];
      assert px == b[24 + |p[0]|..] == qy;
      PrefixUnique(request, p[1..], x, q[1..], y);
      assert q[..|p|] == [q[0]] + q[1..][..|p| - 1];
      assert p == [p[0]] + p[1..];
      assert q[1..][|p| - 1..] == q[|p|..];
    }
  }

  // ----- Sending -------------------------------------------------------------------------

  /** dist_send_snapshot_file_chunks: every chunk is full except perhaps the last. */
  method SendChunks(request: Word64, payload: seq<Byte>) returns (stream: seq<Byte>, ghost pieces: seq<seq<Byte>>)
    ensures Completes(stream, request, |payload|, pieces, []) && Flatten(pieces) == payload
    ensures forall j :: 0 <= j < |pieces| - 1 ==> |pieces[j]| == 8388608
  {
    hide EncodeChunk, EncodeChunks, Flatten, Fewer;
    stream, pieces := [], [];
    var left := payload;
    NoPieces(request, |payload|);
    while left != []
      invariant ChunksOk(pieces) && Fewer(pieces, |payload|) && stream == EncodeChunks(request, pieces)
      invariant payload == Flatten(pieces) + left
      invariant left != [] ==> forall j :: 0 <= j < |pieces| ==> |pieces[j]| == CHUNK_BYTES
      invariant forall j :: 0 <= j < |pieces| - 1 ==> |pieces[j]| == CHUNK_BYTES
      decreases |left|
    {
      var n := if |left| > CHUNK_BYTES then CHUNK_BYTES else |left|;
      var data := left[..n];
      AppendPiece(request, pieces, data);
      FewerGrows(pieces, |payload|, data);
      stream := stream + EncodeChunk(request, data);
      pieces := pieces + [data];
      left := left[n..];
    }
    assert stream == EncodeChunks(request, pieces) + [];
  }

  lemma NoPieces(request: Word64, bytes: nat)
    ensures EncodeChunks(request, []) == [] && Flatten([]) == [] && Fewer([], bytes)
  {
  }

  // ----- Receiving -----------------------------------------------------------------------

  /** dist_receive_snapshot_chunks_to_file, over the bytes that are still to come: it succeeds exactly
      when chunks of this request complete the payload, and then leaves what follows them on the
      stream. */
  method ReceiveChunks(stream: seq<Byte>, request: Word64, bytes: nat) returns (file: Option<seq<Byte>>, rest: seq<Byte>)
    ensures file.Some? <==> exists pieces, tail :: Completes(stream, request, bytes, pieces, tail)
    ensures file.Some? ==> exists pieces :: Completes(stream, request, bytes, pieces, rest) && file.value == Flatten(pieces)
  {
    hide EncodeChunk, EncodeChunks, Flatten, Fewer, TakeChunk;
    var received: seq<Byte> := [];
    rest := stream;
    ghost var pieces: seq<seq<Byte>> := [];
    NoPieces(request, bytes);
    while |received| < bytes
      invariant Fewer(pieces, bytes) && ChunksOk(pieces) && stream == EncodeChunks(request, pieces) + rest
      invariant received == Flatten(pieces) && |received| <= bytes
      decreases |rest|
    {
      var data := TakeChunk(rest, request, bytes - |received|);
      if data.None? {
        NothingCompletes(stream, request, bytes, pieces, rest);
        return None, rest;
      }
      TakenIsEncoded(rest, request, bytes - |received|);
      AppendPiece(request, pieces, data.value);
      FewerGrows(pieces, bytes, data.value);
      received := received + data.value;
      pieces := pieces + [data.value];
      rest := rest[HEADER_BYTES + FIXED_BYTES + |data.value|..];
    }
    assert Completes(stream, request, bytes, pieces, rest);
    return Some(received), rest;
  }

  lemma NothingCompletes(stream: seq<Byte>, request: Word64, bytes: nat, pieces: seq<seq<Byte>>, rest: seq<Byte>)
    requires ChunksOk(pieces) && stream == EncodeChunks(request, pieces) + rest && |Flatten(pieces)| < bytes
    requires TakeChunk(rest, request, bytes - |Flatten(pieces)|).None?
    ensures forall q, y :: !Completes(stream, request, bytes, q, y)
  {
    hide EncodeChunk, TakeChunk, Fewer;
    forall q, y | Completes(stream, request, bytes, q, y)
      ensures false
    {
      CannotComplete(stream, request, bytes, pieces, rest, q, y);
    }
  }

  lemma FirstPiece(request: Word64, pieces: seq<seq<Byte>>)
    requires ChunksOk(pieces) && pieces != []
    ensures EncodeChunks(request, pieces) == EncodeChunk(request, pieces[0]) + EncodeChunks(request, pieces[1..])
    ensures |Flatten(pieces)| >= |pieces[0]|
  {
    hide EncodeChunk;
  }

  lemma CannotComplete(stream: seq<Byte>, request: Word64, bytes: nat, pieces: seq<seq<Byte>>, rest: seq<Byte>,
                       q: seq<seq<Byte>>, y: seq<Byte>)
    requires ChunksOk(pieces) && stream == EncodeChunks(request, pieces) + rest && |Flatten(pieces)| < bytes
    requires ChunksOk(q) && stream == EncodeChunks(request, q) + y
    requires TakeChunk(rest, request, bytes - |Flatten(pieces)|).None?
    ensures |Flatten(q)| != bytes
  {
    hide EncodeChunk, EncodeChunks, Flatten, TakeChunk;
    if |q| <= |pieces| {
      PrefixUnique(request, q, y, pieces, rest);
      FlattenAdds(pieces[..|q|], pieces[|q|..]);
      assert pieces == pieces[..|q|] + pieces[|q|..];
    } else {
      PrefixUnique(request, pieces, rest, q, y);
      var after := q[|pieces|..];
      var tail := EncodeChunks(request, after[1..]) + y;
      FirstPiece(request, after);
      assert rest == EncodeChunk(request, after[0]) + tail;
      TakeEncoded(request, after[0], tail, bytes - |Flatten(pieces)|);
      assert q == pieces + after;
      FlattenAdds(pieces, after);
    }
  }

  /** There is only one way to complete a payload. */
  lemma CompletionIsUnique(
    stream: seq<Byte>, request: Word64, bytes: nat, p: seq<seq<Byte>>, x: seq<Byte>, q: seq<seq<Byte>>, y: seq<Byte>)
    requires Completes(stream, request, bytes, p, x) && Completes(stream, request, bytes, q, y)
    ensures p == q && x == y
  {
    hide Completes;
    if |p| <= |q| {
      ShorterIsAll(stream, request, bytes, p, x, q, y);
    } else {
      ShorterIsAll(stream, request, bytes, q, y, p, x);
    }
  }

  lemma ShorterIsAll(
    stream: seq<Byte>, request: Word64, bytes: nat, p: seq<seq<Byte>>, x: seq<Byte>, q: seq<seq<Byte>>, y: seq<Byte>)
    requires Completes(stream, request, bytes, p, x) && Completes(stream, request, bytes, q, y) && |p| <= |q|
    ensures p == q && x == y
  {
    hide EncodeChunk, Flatten;
    PrefixUnique(request, p, x, q, y);
    assert |p| == |q|;
    assert q[..|p|] == q && q[|p|..] == [];
  }

  /** What was sent is what is received, whatever follows on the connection. */
  method SendThenReceive(request: Word64, payload: seq<Byte>, following: seq<Byte>)
    returns (file: Option<seq<Byte>>, rest: seq<Byte>)
    ensures file == Some(payload) && rest == following
  {
    hide EncodeChunks, Flatten, Fewer;
    var stream, pieces := SendChunks(request, payload);
    var wire := stream + following;
    assert wire == EncodeChunks(request, pieces) + following;
    assert Completes(wire, request, |payload|, pieces, following);
    file, rest := ReceiveChunks(wire, request, |payload|);
    ghost var others :| Completes(wire, request, |payload|, others, rest) && file.value == Flatten(others);
    CompletionIsUnique(wire, request, |payload|, pieces, following, others, rest);
  }
}
