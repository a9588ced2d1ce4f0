/**
 Byte sequences in pieces: collected command output (command-process.ts), and a file
 split for writing (file-adapter.ts) and put together again on reading (file-transfer.ts).
 */
module ByteStreams {
  import opened Bits
  import opened Sequences
  import opened Wrappers

  const OUTPUT_ACCUMULATION_LIMIT_BYTES := 1024 * 1024
  const STREAMING_WRITE_CHUNK_SIZE := 64 * 1024
  const MAX_AUTO_FALLBACK_BYTES := 256 * 1024 * 1024

  function Take(s: seq<Byte>, limit: nat): seq<Byte> {
    if |s| <= limit then s else s[..limit]
  }

  lemma {:induction false} FlattenNext(parts: seq<seq<Byte>>, i: nat)
    requires i < |parts|
    ensures Flatten(parts[..i + 1]) == Flatten(parts[..i]) + parts[i]
  {
    assert parts[..i + 1][..i] == parts[..i];
  }

  lemma {:induction false} FlattenPrefix(parts: seq<seq<Byte>>, i: nat)
    requires i <= |parts|
    ensures Flatten(parts[..i]) <= Flatten(parts)
  {
    FlattenAppend(parts[..i], parts[i..]);
    assert parts == parts[..i] + parts[i..];
  }

  /** `output.set(chunk, offset)`. */
  method Set(output: array<Byte>, chunk: seq<Byte>, offset: nat)
    requires offset + |chunk| <= output.Length
    modifies output
    ensures output[..offset] == old(output[..offset])
    ensures output[offset..offset + |chunk|] == chunk
  {
    var i := 0;
    while i < |chunk|
      invariant 0 <= i <= |chunk|
      invariant output[..offset] == old(output[..offset])
      invariant output[offset..offset + i] == chunk[..i]
    {
      output[offset + i] := chunk[i];
      i := i + 1;
    }
    assert chunk[..|chunk|] == chunk;
  }

  /** The copying loop: one buffer of the chunks in order. */
  method Join(chunks: seq<seq<Byte>>, total: nat) returns (output: array<Byte>)
    requires total == |Flatten(chunks)|
    ensures fresh(output) && output[..] == Flatten(chunks)
  {
    output := new Byte[total];
    var offset, i := 0, 0;
    assert chunks[..0] == [];
    while i < |chunks|
      invariant 0 <= i <= |chunks|
      invariant offset == |Flatten(chunks[..i])| <= total
      invariant output[..offset] == Flatten(chunks[..i])
    {
      FlattenNext(chunks, i);
      FlattenPrefix(chunks, i + 1);
      Set(output, chunks[i], offset);
      assert output[..offset + |chunks[i]|] == output[..offset] + output[offset..offset + |chunks[i]|];
      offset := offset + |chunks[i]|;
      i := i + 1;
    }
    assert chunks[..|chunks|] == chunks && output[..offset] == output[..];
  }

  // ----- Command output --------------------------------------------------------------

  /** The limit was reached exactly, and then an empty chunk came. */
  ghost predicate EmptyAtLimit(appends: seq<seq<Byte>>, limit: nat) {
    |Flatten(appends)| == limit && appends != [] && appends[|appends| - 1] == []
  }

  class OutputAccumulator {
    const limitBytes: nat
    var chunks: seq<seq<Byte>>
    var bytes: nat
    var bytesProduced: nat
    var truncated: bool
    ghost var appends: seq<seq<Byte>>

    /** Every byte that was appended. */
    ghost function Produced(): seq<Byte>
      reads this
    {
      Flatten(appends)
    }

    /** The chunks are the first bytes produced, up to the limit; `truncated` says exactly when that is not all. */
    ghost predicate Valid()
      reads this
    {
      && bytesProduced == |Produced()|
      && Flatten(chunks) == Take(Produced(), limitBytes)
      && bytes == |Flatten(chunks)|
      && (truncated <==> bytesProduced > limitBytes || EmptyAtLimit(appends, limitBytes))
    }

    constructor (limitBytes: nat := OUTPUT_ACCUMULATION_LIMIT_BYTES)
      ensures Valid() && this.limitBytes == limitBytes && appends == []
    {
      this.limitBytes, chunks, bytes, bytesProduced, truncated := limitBytes, [], 0, 0, false;
      appends := [];
    }

    /** An empty chunk that comes once the limit is reached also counts as truncation. */
    method Append(data: seq<Byte>)
      requires Valid()
      modifies this
      ensures Valid() && appends == old(appends) + [data]
    {
      AppendPiece(appends, data);
      bytesProduced := bytesProduced + |data|;
      appends := appends + [data];
      if bytes >= limitBytes {
        truncated := true;
        assert Take(Produced(), limitBytes) == Take(old(Produced()), limitBytes);
        return;
      }
      var remaining := limitBytes - bytes;
      var chunk := if |data| > remaining then data[..remaining] else data;
      assert Take(Produced(), limitBytes) == Flatten(chunks) + chunk;
      AppendPiece(chunks, chunk);
      chunks := chunks + [chunk];
      bytes := bytes + |chunk|;
      truncated := truncated || |chunk| < |data|;
    }

    method BytesValue() returns (output: array<Byte>)
      requires Valid()
      ensures fresh(output) && output[..] == if |Produced()| <= limitBytes then Produced() else Produced()[..limitBytes]
    {
      output := Join(chunks, bytes);
    }
  }

  /** Truncation is reported just when bytes were lost, but for an empty chunk at the limit. */
  lemma TruncationIsReportedRightlyIff(o: OutputAccumulator)
    requires o.Valid()
    ensures (o.truncated <==> Take(o.Produced(), o.limitBytes) != o.Produced())
       <==> !EmptyAtLimit(o.appends, o.limitBytes)
  {
    if |o.Produced()| > o.limitBytes {
      assert |Take(o.Produced(), o.limitBytes)| != |o.Produced()|;
    }
  }

  /** A full accumulator that is given an empty chunk reports a truncation, and has lost nothing. */
  method AppendNothing(o: OutputAccumulator)
    requires o.Valid() && |o.Produced()| == o.limitBytes
    modifies o
    ensures o.Valid() && o.truncated
    ensures o.Produced() == old(o.Produced()) == Take(o.Produced(), o.limitBytes) == Flatten(o.chunks)
  {
    AppendPiece(o.appends, []);
    o.Append([]);
  }

  // ----- Writing a file ----------------------------------------------------------------

  /** The pieces of a buffer, each full but the last, none empty. */
  ghost predicate WellSplit(pieces: seq<seq<Byte>>) {
    forall i | 0 <= i < |pieces| ::
      && 0 < |pieces[i]| <= STREAMING_WRITE_CHUNK_SIZE
      && (i < |pieces| - 1 ==> |pieces[i]| == STREAMING_WRITE_CHUNK_SIZE)
  }

  ghost predicate Pieces(pieces: seq<seq<Byte>>) {
    forall p <- pieces :: 0 < |p| <= STREAMING_WRITE_CHUNK_SIZE
  }

  method SplitFileChunk(chunk: seq<Byte>) returns (pieces: seq<seq<Byte>>)
    ensures WellSplit(pieces) && Flatten(pieces) == chunk
  {
    pieces := [];
    var offset := 0;
    while offset < |chunk|
      invariant 0 <= offset
      invariant if offset <= |chunk| then
          offset == STREAMING_WRITE_CHUNK_SIZE * |pieces| && Flatten(pieces) == chunk[..offset]
          && forall p <- pieces :: |p| == STREAMING_WRITE_CHUNK_SIZE
        else WellSplit(pieces) && Flatten(pieces) == chunk
    {
      var end := if offset + STREAMING_WRITE_CHUNK_SIZE < |chunk| then offset + STREAMING_WRITE_CHUNK_SIZE else |chunk|;
      var piece := chunk[offset..end];
      AppendPiece(pieces, piece);
      assert chunk[..end] == chunk[..offset] + piece;
      pieces := pieces + [piece];
      offset := offset + STREAMING_WRITE_CHUNK_SIZE;
    }
    assert offset == |chunk| ==> chunk[..offset] == chunk;
  }

  lemma {:induction false} AppendPiece(pieces: seq<seq<Byte>>, piece: seq<Byte>)
    ensures Flatten(pieces + [piece]) == Flatten(pieces) + piece
  {
  }

  /** `iterateFileChunks` over a source of chunks, which may be empty or of any size. */
  method IterateFileChunks(source: seq<seq<Byte>>) returns (pieces: seq<seq<Byte>>)
    ensures Pieces(pieces) && Flatten(pieces) == Flatten(source)
  {
    pieces := [];
    var i := 0;
    assert source[..0] == [];
    while i < |source|
      invariant 0 <= i <= |source|
      invariant Pieces(pieces) && Flatten(pieces) == Flatten(source[..i])
    {
      var more := SplitFileChunk(source[i]);
      FlattenAppend(pieces, more);
      FlattenNext(source, i);
      pieces := pieces + more;
      i := i + 1;
    }
    assert source[..|source|] == source;
  }

  // ----- Reading it back ---------------------------------------------------------------

  datatype ReadResult =
    | Bytes(bytes: seq<Byte>) | TooLarge(delivered: nat) | Truncated(got: nat, expected: nat) | Failed(error: nat)

  ghost function Length(stream: seq<seq<Byte>>): nat { |Flatten(stream)| }

  /** The chunk that takes a read over the ceiling. */
  ghost predicate Large(stream: seq<seq<Byte>>, k: nat, delivered: nat)
    requires k < |stream|
  {
    Length(stream[..k]) <= MAX_AUTO_FALLBACK_BYTES < delivered == Length(stream[..k]) + |stream[k]|
  }

  /** The four ends of a read, of which exactly one is right. */
  ghost predicate ReadsAs(r: ReadResult, stream: seq<seq<Byte>>, failure: Option<nat>, expectedSize: Option<nat>) {
    match r
    case Bytes(bytes) =>
      && failure.None? && bytes == Flatten(stream) && |bytes| <= MAX_AUTO_FALLBACK_BYTES
      && (expectedSize.Some? ==> expectedSize.value <= |bytes|)
    case Truncated(got, expected) =>
      && failure.None? && got == Length(stream) <= MAX_AUTO_FALLBACK_BYTES
      && expectedSize == Some(expected) && got < expected
    case Failed(error) => failure == Some(error) && Length(stream) <= MAX_AUTO_FALLBACK_BYTES
    case TooLarge(delivered) =>
      exists k | 0 <= k < |stream| ::
        Large(stream, k, delivered)
  }

  /** `readViaSingleStreamExec` of a stream that delivers these chunks and then ends or fails. */
  method ReadViaSingleStreamExec(stream: seq<seq<Byte>>, failure: Option<nat>, expectedSize: Option<nat>)
    returns (r: ReadResult)
    ensures ReadsAs(r, stream, failure, expectedSize)
  {
    var chunks: seq<seq<Byte>> := [];
    var totalBytes, i := 0, 0;
    while i < |stream|
      invariant 0 <= i <= |stream| && chunks == stream[..i]
      invariant totalBytes == Length(stream[..i]) <= MAX_AUTO_FALLBACK_BYTES
    {
      if totalBytes + |stream[i]| > MAX_AUTO_FALLBACK_BYTES {
        assert Large(stream, i, totalBytes + |stream[i]|);
        return TooLarge(totalBytes + |stream[i]|);
      }
      FlattenNext(stream, i);
      chunks := chunks + [stream[i]];
      totalBytes := totalBytes + |stream[i]|;
      i := i + 1;
    }
    assert stream[..|stream|] == stream;
    if failure.Some? {
      return Failed(failure.value);
    }
    var result := Join(chunks, totalBytes);
    if expectedSize.Some? && expectedSize.value > 0 && totalBytes < expectedSize.value {
      return Truncated(totalBytes, expectedSize.value);
    }
    return Bytes(result[..]);
  }

  /** No read can end in two ways. */
  lemma {:induction false} OneEnd(stream: seq<seq<Byte>>, failure: Option<nat>, expectedSize: Option<nat>,
                                  r: ReadResult, s: ReadResult)
    requires ReadsAs(r, stream, failure, expectedSize) && ReadsAs(s, stream, failure, expectedSize)
    ensures r == s
    ensures r.TooLarge? <==> Length(stream) > MAX_AUTO_FALLBACK_BYTES
  {
    if r.TooLarge? {
      LargeAt(stream, r.delivered);
      if s.TooLarge? {
        LargeOnce(stream, r.delivered, s.delivered);
      }
    } else if s.TooLarge? {
      LargeAt(stream, s.delivered);
    }
  }

  lemma {:induction false} LargeAt(stream: seq<seq<Byte>>, delivered: nat)
    requires exists k | 0 <= k < |stream| :: Large(stream, k, delivered)
    ensures Length(stream) > MAX_AUTO_FALLBACK_BYTES
  {
    var k :| 0 <= k < |stream| && Large(stream, k, delivered);
    FlattenNext(stream, k);
    FlattenPrefix(stream, k + 1);
  }

  lemma {:induction false} ShorterPrefix(stream: seq<seq<Byte>>, i: nat, j: nat)
    requires i <= j <= |stream|
    ensures Length(stream[..i]) <= Length(stream[..j])
  {
    FlattenPrefix(stream[..j], i);
    assert stream[..j][..i] == stream[..i];
  }

  lemma {:induction false} LargeOnce(stream: seq<seq<Byte>>, d: nat, e: nat)
    requires exists k | 0 <= k < |stream| :: Large(stream, k, d)
    requires exists k | 0 <= k < |stream| :: Large(stream, k, e)
    ensures d == e
  {
    var j :| 0 <= j < |stream| && Large(stream, j, d);
    var k :| 0 <= k < |stream| && Large(stream, k, e);
    FlattenNext(stream, j);
    FlattenNext(stream, k);
    if j < k {
      ShorterPrefix(stream, j + 1, k);
    } else if k < j {
      ShorterPrefix(stream, k + 1, j);
    }
  }

  /** A file split for writing reads back as it was, unless it is over the ceiling. */
  method WriteThenRead(file: seq<Byte>) returns (r: ReadResult)
    ensures |file| <= MAX_AUTO_FALLBACK_BYTES ==> r == Bytes(file)
    ensures |file| > MAX_AUTO_FALLBACK_BYTES ==> r.TooLarge?
  {
    var pieces := SplitFileChunk(file);
    r := ReadViaSingleStreamExec(pieces, None, Some(|file|));
    OneEnd(pieces, None, Some(|file|), r, r);
  }
}
