/** Compressing one debug section: sharding, the stitched zlib stream, and the ELF compression
    header in front of it. */
module Compression {
  import opened Adler
  import opened Arithmetic
  import opened Inflate
  import opened InflateLocality
  import opened Wrappers

  const MIN_CHUNK_SIZE := 64 * 1024
  const MAX_CHUNKS := 128

  const ZLIB_CMF_FLG: seq<byte> := [0x78, 0x9C]
  const ZLIB_EMPTY_FINAL_BLOCK: seq<byte> := [0x03, 0x00]

  /******* Decoding, the reference *******/

  function BigEndian32(x: nat): (r: seq<byte>)
    ensures |r| == 4
  {
    [x / 0x100_0000 % 256, x / 0x1_0000 % 256, x / 0x100 % 256, x % 256]
  }

  /** Big-endian value of the next four bytes of a bit stream on a byte boundary. */
  function ReadBigEndian32(c: Bits): Option<(nat, Bits)> {
    match ReadBits(c, 8)
    case None => None
    case Some((b3, c1)) =>
      match ReadBits(c1, 8)
      case None => None
      case Some((b2, c2)) =>
        match ReadBits(c2, 8)
        case None => None
        case Some((b1, c3)) =>
          match ReadBits(c3, 8)
          case None => None
          case Some((b0, c4)) => Some((b3 * 0x100_0000 + b2 * 0x1_0000 + b1 * 0x100 + b0, c4))
  }

  /** The two header bytes of section 2.2 of RFC 1950: deflate, a window of at most 32 KiB, no preset
      dictionary, and a check value that makes the pair a multiple of 31. */
  predicate ZlibHeader(cmf: byte, flg: byte) {
    cmf % 16 == 8 && cmf / 16 <= 7 && (cmf * 256 + flg) % 31 == 0 && flg / 32 % 2 == 0
  }

  /** A whole zlib stream (RFC 1950): header, deflate blocks, Adler-32 of the output, nothing else. */
  function ZlibDecode(stream: seq<byte>): Option<seq<byte>> {
    if |stream| < 2 || !ZlibHeader(stream[0], stream[1]) then None
    else
      match ReadStream(ToBits(stream[2..]))
      case None => None
      case Some((tokens, c)) =>
        match (Apply([], tokens), ReadBigEndian32(AlignToByte(c)))
        case (Some(output), Some((checksum, rest))) =>
          if checksum == RfcAdler32(output) && rest == [] then Some(output) else None
        case (_, _) => None
  }

  /** A shard as the raw encoder leaves it after a sync flush: complete non-final blocks up to a byte
      boundary, decoding to `data` from an empty window. */
  predicate ShardDecodes(shard: seq<byte>, data: seq<byte>) {
    match ReadOpenBlocks(ToBits(shard))
    case None => false
    case Some(tokens) => Apply([], tokens) == Some(data)
  }

  /******* Bits of concatenated bytes *******/

  lemma {:induction false} ToBitsConcat(a: seq<byte>, b: seq<byte>)
    ensures ToBits(a + b) == ToBits(a) + ToBits(b)
  {
    if a == [] {
      assert a + b == b;
    } else {
      assert (a + b)[1..] == a[1..] + b;
      ToBitsConcat(a[1..], b);
    }
  }

  lemma {:induction false} ReadByteBits(b: nat, n: nat, more: Bits)
    requires b < Pow2(n)
    ensures ReadBits(ByteBits(b, n) + more, n) == Some((b, more))
    decreases n
  {
    if n == 0 {
      assert [] + more == more;
    } else {
      var c := ByteBits(b, n) + more;
      assert c[1..] == ByteBits(b / 2, n - 1) + more;
      ReadByteBits(b / 2, n - 1, more);
    }
  }

  lemma {:induction false} ReadByte(b: byte, tail: seq<byte>)
    ensures ReadBits(ToBits([b] + tail), 8) == Some((b as int, ToBits(tail)))
  {
    assert Pow2(8) == 256 by {
      assert Pow2(0) == 1 && Pow2(1) == 2 && Pow2(2) == 4 && Pow2(3) == 8 && Pow2(4) == 16;
      assert Pow2(5) == 32 && Pow2(6) == 64 && Pow2(7) == 128;
    }
    ReadByteBits(b, 8, ToBits(tail));
    assert ([b] + tail)[1..] == tail;
  }

  lemma {:induction false} ReadFourBytes(b3: byte, b2: byte, b1: byte, b0: byte)
    ensures ReadBigEndian32(ToBits([b3, b2, b1, b0]))
            == Some((b3 * 0x100_0000 + b2 * 0x1_0000 + b1 * 0x100 + b0, []))
  {
    hide ReadBits;
    ReadByte(b3, [b2, b1, b0]);
    ReadByte(b2, [b1, b0]);
    ReadByte(b1, [b0]);
    ReadByte(b0, []);
    assert [b3, b2, b1, b0] == [b3] + [b2, b1, b0];
    assert [b2, b1, b0] == [b2] + [b1, b0] && [b1, b0] == [b1] + [b0] && [b0] == [b0] + [];
  }

  lemma {:induction false} ReadBackBigEndian32(x: nat)
    requires x < TWO32
    ensures ReadBigEndian32(ToBits(BigEndian32(x))) == Some((x, []))
  {
    hide ReadBigEndian32, ToBits;
    var s := BigEndian32(x);
    ReadFourBytes(s[0], s[1], s[2], s[3]);
    assert s == [s[0], s[1], s[2], s[3]];
    Digits(x);
  }

  lemma {:induction false} Digits(x: nat)
    requires x < TWO32
    ensures x == (x / 0x100_0000 % 256) * 0x100_0000 + (x / 0x1_0000 % 256) * 0x1_0000
                 + (x / 0x100 % 256) * 0x100 + x % 256
  {
    var y, z, w := x / 0x100, x / 0x1_0000, x / 0x100_0000;
    assert z == y / 256 && w == z / 256 && w < 256;
    assert x == 256 * y + x % 256 && y == 256 * z + y % 256 && z == 256 * w + z % 256;
  }

  /******* The empty final block *******/

  lemma {:induction false} NoCodeOfLength(lengths: seq<nat>, len: nat)
    requires forall i :: 0 <= i < |lengths| ==> lengths[i] != len
    ensures CountOfLength(lengths, len) == 0
  {
    if lengths != [] {
      NoCodeOfLength(lengths[1..], len);
    }
  }

  lemma {:induction false} FirstOfLength(lengths: seq<nat>, len: nat, at: nat)
    requires at < |lengths| && lengths[at] == len
    requires forall i :: 0 <= i < at ==> lengths[i] != len
    ensures CountOfLength(lengths, len) > 0 && NthOfLength(lengths, len, 0) == at
  {
    if at > 0 {
      FirstOfLength(lengths[1..], len, at - 1);
    }
  }

  /** Zero bits decode no symbol before seven of them are read, and then decode the end of block. */
  lemma {:induction false} FixedZeros(c: Bits, len: nat)
    requires len < 7 && |c| >= 7 - len
    requires forall i :: 0 <= i < 7 - len ==> !c[i]
    ensures DecodeSymbol(FixedTables().literals, c, len, 0, 0) == Some((256, c[7 - len..]))
    decreases 7 - len
  {
    hide FixedTables, CountOfLength, NthOfLength;
    FixedCounts(len + 1);
    if len < 6 {
      FixedZeros(c[1..], len + 1);
      assert c[1..][7 - (len + 1)..] == c[7 - len..];
    }
  }

  lemma {:induction false} FixedCounts(len: nat)
    requires 0 < len <= 7
    ensures var lengths := FixedTables().literals;
            if len < 7 then CountOfLength(lengths, len) == 0
            else CountOfLength(lengths, len) > 0 && NthOfLength(lengths, len, 0) == 256
  {
    hide CountOfLength, NthOfLength;
    var lengths := FixedTables().literals;
    if len < 7 {
      NoCodeOfLength(lengths, len);
    } else {
      FirstOfLength(lengths, 7, 256);
    }
  }

  lemma {:induction false} EmptyFinalBits()
    ensures ToBits(ZLIB_EMPTY_FINAL_BLOCK) == [true, true] + seq(14, i => false)
  {
    hide ByteBits;
    ThreeBits();
    ZeroBits(8);
    var s := ZLIB_EMPTY_FINAL_BLOCK;
    assert s[1..] == [0] && [0 as byte][1..] == [];
    assert ToBits(s[1..]) == ByteBits(0, 8) + [];
  }

  lemma {:induction false} ThreeBits()
    ensures ByteBits(3, 8) == [true, true] + seq(6, i => false)
  {
    ZeroBits(6);
    assert ByteBits(1, 7) == [true] + ByteBits(0, 6);
  }

  lemma {:induction false} ZeroBits(n: nat)
    ensures ByteBits(0, n) == seq(n, i => false)
  {
    if n > 0 {
      ZeroBits(n - 1);
    }
  }

  /** The three bits at the head of the block: final, fixed codes. */
  lemma {:induction false} FinalFixedHead(c: Bits)
    requires |c| >= 3 && c[0] && c[1] && !c[2]
    ensures ReadBits(c, 1) == Some((1, c[1..]))
    ensures ReadBits(c[1..], 2) == Some((1, c[3..]))
  {
    var c1, c2, c3 := c[1..], c[2..], c[3..];
    assert c1[1..] == c2 && c2[1..] == c3;
    assert ReadBits(c1, 0) == Some((0, c1)) && ReadBits(c3, 0) == Some((0, c3));
    assert ReadBits(c2, 1) == Some((0, c3));
  }

  /** The two bytes `03 00` are a final block with no output; six zero bits are left over. */
  lemma {:induction false} EmptyFinalBlock(more: Bits) returns (left: Bits)
    requires WholeBytes(more)
    ensures ReadStream(ToBits(ZLIB_EMPTY_FINAL_BLOCK) + more) == Some(([], left))
    ensures AlignToByte(left) == more
  {
    hide ReadBits, ToBits, DecodeSymbol, FixedTables;
    EmptyFinalBits();
    var c := ToBits(ZLIB_EMPTY_FINAL_BLOCK) + more;
    left := c[10..];
    FinalFixedHead(c);
    FixedZeros(c[3..], 0);
    assert c[3..][7..] == left;
    assert ReadBody(1, c[3..]) == Some(([], left));
    assert ReadBlock(c) == Some((Block(true, []), left));
    assert left[6..] == more;
  }

  /******* Sharding *******/

  function ShardSize(length: nat): (size: nat)
    ensures size >= MIN_CHUNK_SIZE
  {
    Max(MIN_CHUNK_SIZE, length / MAX_CHUNKS)
  }

  /** `slice.chunks(size)`. */
  function Chunks(data: seq<byte>, size: nat): (r: seq<seq<byte>>)
    requires size > 0
    ensures forall i :: 0 <= i < |r| ==> 0 < |r[i]| <= size
    ensures data != [] ==> r != []
    decreases |data|
  {
    if data == [] then []
    else if |data| <= size then [data]
    else [data[..size]] + Chunks(data[size..], size)
  }

  function Concat(chunks: seq<seq<byte>>): seq<byte> {
    if chunks == [] then [] else chunks[0] + Concat(chunks[1..])
  }

  function TotalLength(chunks: seq<seq<byte>>): nat {
    if chunks == [] then 0 else |chunks[0]| + TotalLength(chunks[1..])
  }

  lemma {:induction false} ConcatLength(chunks: seq<seq<byte>>)
    ensures |Concat(chunks)| == TotalLength(chunks)
  {
    if chunks != [] {
      ConcatLength(chunks[1..]);
    }
  }

  lemma {:induction false} ConcatAppend(a: seq<seq<byte>>, b: seq<seq<byte>>)
    ensures Concat(a + b) == Concat(a) + Concat(b)
  {
    if a == [] {
      assert a + b == b;
    } else {
      assert (a + b)[1..] == a[1..] + b;
      ConcatAppend(a[1..], b);
    }
  }

  lemma {:induction false} ChunksConcat(data: seq<byte>, size: nat)
    requires size > 0
    ensures Concat(Chunks(data, size)) == data
    decreases |data|
  {
    if data != [] && |data| > size {
      ChunksConcat(data[size..], size);
      assert data == data[..size] + data[size..];
      assert ([data[..size]] + Chunks(data[size..], size))[1..] == Chunks(data[size..], size);
    } else if data != [] {
      assert [data][1..] == [];
    }
  }

  lemma {:induction false} ChunkCountBound(data: seq<byte>, size: nat, n: nat)
    requires size > 0
    ensures |Chunks(data, size)| <= n <==> |data| <= n * size
    decreases |data|
  {
    if data == [] {
    } else if |data| <= size {
      if n > 0 {
        MulAtLeast(n, size);
      }
    } else if n > 0 {
      ChunkCountBound(data[size..], size, n - 1);
      Distribute(n - 1, 1, size);
    }
  }

  /** The limit on the number of chunks holds exactly when the chunk size is the minimum or divides
      the section evenly; otherwise there is one more chunk than the limit says. */
  lemma {:induction false} ChunkCount(data: seq<byte>)
    ensures |Chunks(data, ShardSize(|data|))| <= 129
    ensures |Chunks(data, ShardSize(|data|))| <= 128 <==> |data| / 128 < 65536 || |data| % 128 == 0
  {
    var size := ShardSize(|data|);
    ChunkCountBound(data, size, MAX_CHUNKS);
    ChunkCountBound(data, size, MAX_CHUNKS + 1);
  }

  /** All chunks but the last are 64 KiB long, or the 128th part of the section when that is more. */
  lemma {:induction false} ChunkLengths(data: seq<byte>, i: nat)
    requires i < |Chunks(data, ShardSize(|data|))|
    ensures var size := if |data| / 128 < 65536 then 65536 else |data| / 128;
            var chunk := Chunks(data, ShardSize(|data|))[i];
            && 0 < |chunk| <= size
            && (i < |Chunks(data, ShardSize(|data|))| - 1 ==> |chunk| == size)
  {
    ChunkLength(data, ShardSize(|data|), i);
  }

  lemma {:induction false} ChunkLength(data: seq<byte>, size: nat, i: nat)
    requires size > 0 && i < |Chunks(data, size)|
    ensures i < |Chunks(data, size)| - 1 ==> |Chunks(data, size)[i]| == size
    decreases i
  {
    if |data| > size && i > 0 {
      ChunkLength(data[size..], size, i - 1);
    }
  }

  /** Eight megabytes and one byte come in 129 chunks. */
  lemma {:induction false} OneChunkTooMany(data: seq<byte>)
    requires |data| == 8 * 1024 * 1024 + 1
    ensures |Chunks(data, ShardSize(|data|))| == 129
  {
    ChunkCount(data);
    hide Chunks, ShardSize;
  }

  /******* The stitched stream *******/

  /** The raw deflate encoder on one shard, and the whole-stream encoder for small inputs. */
  type Encoder = seq<byte> -> Result<seq<byte>, string>

  /** What the encoders are trusted to do, and nothing more. */
  ghost predicate SoundShardEncoder(deflate: Encoder) {
    forall data :: deflate(data).Ok? ==> ShardDecodes(deflate(data).value, data)
  }

  ghost predicate SoundWholeEncoder(deflate: Encoder) {
    forall data :: deflate(data).Ok? ==> ZlibDecode(deflate(data).value) == Some(data)
  }

  /** The compressed shards decode, one after the other, to the pieces they came from. */
  ghost predicate AllDecode(shards: seq<seq<byte>>, compressed: seq<seq<byte>>) {
    && |shards| == |compressed|
    && forall i :: 0 <= i < |shards| ==> ShardDecodes(compressed[i], shards[i])
  }

  /** Any number of shards, read in front of a stream that itself yields nothing, yield their pieces in
      order. */
  lemma {:induction false} ShardsThenStream(
    shards: seq<seq<byte>>, compressed: seq<seq<byte>>, output: seq<byte>, more: Bits, left: Bits)
    returns (tokens: seq<Token>)
    requires AllDecode(shards, compressed) && WholeBytes(more)
    requires ReadStream(more) == Some(([], left))
    ensures ReadStream(ToBits(Concat(compressed)) + more) == Some((tokens, left))
    ensures Apply(output, tokens) == Some(output + Concat(shards))
    decreases |shards|
  {
    hide ReadStream, ReadOpenBlocks, ToBits;
    if shards == [] {
      tokens := [];
      assert ToBits(Concat(compressed)) + more == more by { NoBits(); }
      assert output + Concat(shards) == output;
    } else {
      var head, tail := ToBits(compressed[0]), ToBits(Concat(compressed[1..]));
      ToBitsConcat(compressed[0], Concat(compressed[1..]));
      assert (head + tail) + more == head + (tail + more);
      var rest := ShardsThenStream(shards[1..], compressed[1..], output + shards[0], more, left);
      OpenBlocksThenStream(head, tail + more);
      var first := ReadOpenBlocks(head).value;
      tokens := first + rest;
      ApplyAfter(output, [], first);
      assert output + [] == output;
      ApplyConcat(output, first, rest);
      assert output + shards[0] + Concat(shards[1..]) == output + Concat(shards);
    }
  }

  lemma {:induction false} NoBits()
    ensures ToBits([]) == []
  {
  }

  /** Header, shards, empty final block, checksum: decodes to the concatenation of the pieces. */
  lemma {:induction false} StitchedStreamDecodes(shards: seq<seq<byte>>, compressed: seq<seq<byte>>)
    requires AllDecode(shards, compressed)
    ensures var trailer := ZLIB_EMPTY_FINAL_BLOCK + BigEndian32(Adler32(Concat(shards)));
            ZlibDecode(ZLIB_CMF_FLG + Concat(compressed) + trailer) == Some(Concat(shards))
  {
    hide ReadStream, ToBits, ReadBigEndian32, AlignToByte, BigEndian32, Adler32, RfcAdler32, Concat, Apply,
      ShardDecodes, ReadOpenBlocks;
    var checksum := BigEndian32(Adler32(Concat(shards)));
    var trailer := ZLIB_EMPTY_FINAL_BLOCK + checksum;
    var stream := ZLIB_CMF_FLG + Concat(compressed) + trailer;
    assert stream[2..] == Concat(compressed) + trailer;
    ToBitsConcat(Concat(compressed), trailer);
    ToBitsConcat(ZLIB_EMPTY_FINAL_BLOCK, checksum);
    var left := EmptyFinalBlock(ToBits(checksum));
    var tokens := ShardsThenStream(shards, compressed, [], ToBits(trailer), left);
    assert [] + Concat(shards) == Concat(shards);
    ReadBackBigEndian32(Adler32(Concat(shards)));
    Adler32IsRfc(Concat(shards));
  }

  /** No encoder call that a section takes fails. */
  ghost predicate EncodersSucceed(data: seq<byte>, deflate: Encoder, deflateWhole: Encoder) {
    if |data| <= ShardSize(|data|) then deflateWhole(data).Ok?
    else AllOk(Chunks(data, ShardSize(|data|)), deflate)
  }

  ghost predicate AllOk(shards: seq<seq<byte>>, deflate: Encoder) {
    forall i :: 0 <= i < |shards| ==> deflate(shards[i]).Ok?
  }

  /** What the encoders make of the shards, each on its own. */
  ghost function Encoded(shards: seq<seq<byte>>, deflate: Encoder): (r: seq<seq<byte>>)
    requires AllOk(shards, deflate)
    ensures |r| == |shards| && forall i :: 0 <= i < |r| ==> deflate(shards[i]) == Ok(r[i])
  {
    seq(|shards|, i requires 0 <= i < |shards| => deflate(shards[i]).value)
  }

  /** The chunks a section is compressed to. */
  ghost function Body(data: seq<byte>, deflate: Encoder, deflateWhole: Encoder): seq<seq<byte>>
    requires EncodersSucceed(data, deflate, deflateWhole)
  {
    if |data| <= ShardSize(|data|) then [deflateWhole(data).value]
    else
      [ZLIB_CMF_FLG] + Encoded(Chunks(data, ShardSize(|data|)), deflate)
      + [ZLIB_EMPTY_FINAL_BLOCK + BigEndian32(Adler32(data))]
  }

  /** Up to 64 KiB the section is one stream of the whole-stream encoder. Beyond, there is a header, one
      raw shard for each chunk, and the empty final block with the checksum of RFC 1950, highest byte
      first. */
  lemma {:induction false} BodyByLength(data: seq<byte>, deflate: Encoder, deflateWhole: Encoder)
    requires EncodersSucceed(data, deflate, deflateWhole)
    ensures |data| <= 65536 ==> deflateWhole(data) == Ok(Concat(Body(data, deflate, deflateWhole)))
                                && |Body(data, deflate, deflateWhole)| == 1
    ensures |data| > 65536 ==>
              var body, chunks := Body(data, deflate, deflateWhole), Chunks(data, ShardSize(|data|));
              && |body| == |chunks| + 2
              && body[0] == [0x78, 0x9C]
              && (forall i :: 0 <= i < |chunks| ==> deflate(chunks[i]) == Ok(body[i + 1]))
              && body[|chunks| + 1] == [0x03, 0x00] + BigEndian32(RfcAdler32(data))
  {
    Adler32IsRfc(data);
    ShardedIsLong(data);
    hide Adler32, RfcAdler32, BigEndian32, Chunks, ShardSize;
    if |data| <= 65536 {
      var whole := deflateWhole(data).value;
      assert Concat([whole]) == whole by { assert whole + Concat([]) == whole; }
    } else {
      Framed(ZLIB_CMF_FLG, Encoded(Chunks(data, ShardSize(|data|)), deflate),
             ZLIB_EMPTY_FINAL_BLOCK + BigEndian32(Adler32(data)));
    }
  }

  lemma {:induction false} ShardedIsLong(data: seq<byte>)
    ensures |data| <= ShardSize(|data|) <==> |data| <= 65536
  {
  }

  lemma {:induction false} Framed<T>(first: T, middle: seq<T>, last: T)
    ensures var all := [first] + middle + [last];
            && |all| == |middle| + 2 && all[0] == first && all[|middle| + 1] == last
            && forall i :: 0 <= i < |middle| ==> all[i + 1] == middle[i]
  {
  }

  /** `ZlibCompressor::compress_section`. The shards are compressed in parallel by a pure encoder and
      collected in order, so the order of the work does not show. */
  method CompressZlib(uncompressed: seq<byte>, deflate: Encoder, deflateWhole: Encoder)
    returns (r: Result<seq<seq<byte>>, string>)
    requires SoundShardEncoder(deflate) && SoundWholeEncoder(deflateWhole)
    ensures r.Ok? <==> EncodersSucceed(uncompressed, deflate, deflateWhole)
    ensures r.Ok? ==> r.value == Body(uncompressed, deflate, deflateWhole)
    ensures r.Ok? ==> ZlibDecode(Concat(r.value)) == Some(uncompressed)
  {
    hide ZlibDecode, ShardDecodes, Adler32, Combine, BigEndian32;
    var shardSize := ShardSize(|uncompressed|);
    if |uncompressed| <= shardSize {
      var whole := deflateWhole(uncompressed);
      if whole.Err? {
        return Err(whole.error);
      }
      assert Concat([whole.value]) == whole.value by { assert whole.value + [] == whole.value; }
      return Ok([whole.value]);
    }
    var shards := Chunks(uncompressed, shardSize);
    ChunksConcat(uncompressed, shardSize);
    var compressed := [];
    for i := 0 to |shards|
      invariant |compressed| == i
      invariant forall k :: 0 <= k < i ==> deflate(shards[k]) == Ok(compressed[k])
    {
      var shard := deflate(shards[i]);
      if shard.Err? {
        return Err(shard.error);
      }
      compressed := compressed + [shard.value];
    }
    assert compressed == Encoded(shards, deflate);
    var checksum := ChecksumOf(shards);
    var trailer := ZLIB_EMPTY_FINAL_BLOCK + BigEndian32(checksum);
    var chunks := [ZLIB_CMF_FLG] + compressed + [trailer];
    StitchedStreamDecodes(shards, compressed);
    ConcatFramed(compressed, trailer);
    return Ok(chunks);
  }

  lemma {:induction false} ConcatFramed(compressed: seq<seq<byte>>, trailer: seq<byte>)
    ensures Concat([ZLIB_CMF_FLG] + compressed + [trailer]) == ZLIB_CMF_FLG + Concat(compressed) + trailer
  {
    ConcatAppend([ZLIB_CMF_FLG] + compressed, [trailer]);
    ConcatAppend([ZLIB_CMF_FLG], compressed);
    assert Concat([ZLIB_CMF_FLG]) == ZLIB_CMF_FLG + Concat([]);
    assert Concat([trailer]) == trailer + Concat([]);
  }

  /** The checksum folded over the shards is the checksum of the whole section. */
  method ChecksumOf(shards: seq<seq<byte>>) returns (checksum: nat)
    requires shards != []
    ensures checksum == Adler32(Concat(shards)) == RfcAdler32(Concat(shards))
  {
    hide Adler32, RfcAdler32, Combine;
    checksum := Adler32(shards[0]);
    assert Concat(shards[..1]) == shards[0] by {
      assert shards[..1] == [shards[0]];
      assert shards[0] + [] == shards[0];
    }
    for i := 1 to |shards|
      invariant checksum == Adler32(Concat(shards[..i]))
    {
      checksum := Combine(checksum, Adler32(shards[i]), |shards[i]|);
      CombineIsConcat(Concat(shards[..i]), shards[i]);
      assert shards[..i + 1] == shards[..i] + [shards[i]];
      ConcatAppend(shards[..i], [shards[i]]);
      assert Concat([shards[i]]) == shards[i] by { assert shards[i] + [] == shards[i]; }
    }
    assert shards[..|shards|] == shards;
    Adler32IsRfc(Concat(shards));
  }

  /******* The section with its header *******/

  const ELFCOMPRESS_ZLIB := 1
  const ELF_CHDR_SIZE := 24

  function LittleEndian(x: nat, n: nat): (r: seq<byte>)
    ensures |r| == n
    decreases n
  {
    if n == 0 then [] else [x % 256] + LittleEndian(x / 256, n - 1)
  }

  function FromLittleEndian(bytes: seq<byte>): nat {
    if bytes == [] then 0 else bytes[0] + 256 * FromLittleEndian(bytes[1..])
  }

  lemma {:induction false} LittleEndianRoundTrip(x: nat, n: nat)
    requires x < Pow2(8 * n)
    ensures FromLittleEndian(LittleEndian(x, n)) == x
    decreases n
  {
    if n > 0 {
      Pow2Monotone(8, 8 * n);
      assert Pow2(8) == 256 by {
        assert Pow2(0) == 1 && Pow2(1) == 2 && Pow2(2) == 4 && Pow2(3) == 8 && Pow2(4) == 16;
        assert Pow2(5) == 32 && Pow2(6) == 64 && Pow2(7) == 128;
      }
      LittleEndianRoundTrip(x / 256, n - 1);
    }
  }

  /** `CompressionHeader64`: type, a reserved word, the uncompressed size, the alignment. */
  function HeaderBytes(kind: nat, size: nat, alignment: nat): (r: seq<byte>)
    ensures |r| == ELF_CHDR_SIZE
  {
    LittleEndian(kind, 4) + LittleEndian(0, 4) + LittleEndian(size, 8) + LittleEndian(alignment, 8)
  }

  datatype CompressedSection = CompressedSection(compressedChunks: seq<seq<byte>>, totalCompressedSize: nat)

  /** What a consumer of the section recovers: its data and alignment. */
  function SectionDecode(section: seq<byte>): Option<(seq<byte>, nat)> {
    if |section| < 24 || FromLittleEndian(section[..4]) != 1 then None
    else
      match ZlibDecode(section[24..])
      case None => None
      case Some(data) =>
        if |data| == FromLittleEndian(section[8..16]) then Some((data, FromLittleEndian(section[16..24])))
        else None
  }

  lemma {:induction false} HeaderRoundTrip(size: nat, alignment: nat, body: seq<byte>)
    requires size < Pow2(64) && alignment < Pow2(64)
    ensures var section := HeaderBytes(ELFCOMPRESS_ZLIB, size, alignment) + body;
            && FromLittleEndian(section[..4]) == 1 && section[4..8] == [0, 0, 0, 0]
            && FromLittleEndian(section[8..16]) == size
            && FromLittleEndian(section[16..24]) == alignment
            && section[24..] == body
  {
    hide LittleEndian, FromLittleEndian, Pow2;
    var section := HeaderBytes(ELFCOMPRESS_ZLIB, size, alignment) + body;
    assert section[..4] == LittleEndian(ELFCOMPRESS_ZLIB, 4);
    assert section[4..8] == LittleEndian(0, 4);
    FourZeros();
    assert section[8..16] == LittleEndian(size, 8);
    assert section[16..24] == LittleEndian(alignment, 8);
    assert ELFCOMPRESS_ZLIB < Pow2(32) by { Pow2Monotone(1, 32); OneIsSmall(); }
    LittleEndianRoundTrip(ELFCOMPRESS_ZLIB, 4);
    LittleEndianRoundTrip(size, 8);
    LittleEndianRoundTrip(alignment, 8);
  }

  lemma {:induction false} FourZeros()
    ensures LittleEndian(0, 4) == [0, 0, 0, 0]
  {
    assert LittleEndian(0, 1) == [0] && LittleEndian(0, 2) == [0, 0] && LittleEndian(0, 3) == [0, 0, 0];
  }

  lemma {:induction false} OneIsSmall()
    ensures Pow2(1) == 2
  {
    assert Pow2(0) == 1;
  }

  lemma {:induction false} ConcatCons(head: seq<byte>, tail: seq<seq<byte>>)
    ensures Concat([head] + tail) == head + Concat(tail)
    ensures TotalLength([head] + tail) == |head| + TotalLength(tail)
  {
    assert ([head] + tail)[1..] == tail;
  }

  /** `compress_section` for zlib: no result when compression would not make the section smaller,
      otherwise the header followed by the compressed chunks, with the total of all their lengths. */
  method CompressSection(uncompressed: seq<byte>, alignment: nat, deflate: Encoder, deflateWhole: Encoder)
    returns (r: Result<Option<CompressedSection>, string>)
    requires SoundShardEncoder(deflate) && SoundWholeEncoder(deflateWhole)
    requires |uncompressed| < Pow2(64) && alignment < Pow2(64)
    ensures r.Ok? <==> EncodersSucceed(uncompressed, deflate, deflateWhole)
    ensures r.Ok? ==>
              var body := Body(uncompressed, deflate, deflateWhole);
              r.value == None <==> 24 + |Concat(body)| >= |uncompressed|
    ensures r.Ok? && r.value.Some? ==>
              var section := r.value.value;
              && section.compressedChunks
                 == [HeaderBytes(ELFCOMPRESS_ZLIB, |uncompressed|, alignment)]
                    + Body(uncompressed, deflate, deflateWhole)
              && section.totalCompressedSize == |Concat(section.compressedChunks)| < |uncompressed|
              && SectionDecode(Concat(section.compressedChunks)) == Some((uncompressed, alignment))
  {
    hide ZlibDecode, FromLittleEndian, LittleEndian, SoundShardEncoder, SoundWholeEncoder, HeaderBytes,
      Concat, TotalLength, Chunks, ShardSize, Pow2, Body, EncodersSucceed;
    var compressed := CompressZlib(uncompressed, deflate, deflateWhole);
    if compressed.Err? {
      return Err(compressed.error);
    }
    var header := HeaderBytes(ELFCOMPRESS_ZLIB, |uncompressed|, alignment);
    var totalCompressedSize := |header| + TotalLength(compressed.value);
    ConcatLength(compressed.value);
    if totalCompressedSize >= |uncompressed| {
      return Ok(None);
    }
    var chunks := [header] + compressed.value;
    HeaderRoundTrip(|uncompressed|, alignment, Concat(compressed.value));
    ConcatCons(header, compressed.value);
    ConcatLength(chunks);
    return Ok(Some(CompressedSection(chunks, totalCompressedSize)));
  }
}
