/** An encoder that stores its input, and so always succeeds: what is asked of the shard encoder and of
    the whole-stream encoder can be met. */
module StoredBlocks {
  import opened Adler
  import opened Arithmetic
  import opened Compression
  import opened Inflate
  import opened InflateLocality
  import opened Wrappers

  const MAX_STORED := 0xFFFF

  /** A non-final stored block (section 3.2.4 of RFC 1951). */
  function StoredBlock(data: seq<byte>): seq<byte>
    requires |data| <= MAX_STORED
  {
    var len, nlen := |data|, MAX_STORED - |data|;
    [0, len % 256, len / 256, nlen % 256, nlen / 256] + data
  }

  function Stored(data: seq<byte>): seq<byte> {
    if |data| <= MAX_STORED then StoredBlock(data)
    else StoredBlock(data[..MAX_STORED]) + Stored(data[MAX_STORED..])
  }

  /** Two numbers read one after the other are the two parts of one. */
  lemma {:induction false} ReadBitsSplit(c: Bits, m: nat, n: nat, a: nat, c1: Bits, b: nat, c2: Bits)
    requires ReadBits(c, m) == Some((a, c1)) && ReadBits(c1, n) == Some((b, c2))
    ensures ReadBits(c, m + n) == Some((a + Pow2(m) * b, c2))
    decreases m
  {
    if m > 0 {
      var a' := ReadBits(c[1..], m - 1).value.0;
      ReadBitsSplit(c[1..], m - 1, n, a', c1, b, c2);
      TwiceProduct(Pow2(m - 1), b);
    }
  }

  lemma {:induction false} TwiceProduct(p: nat, b: nat)
    ensures 2 * (p * b) == (2 * p) * b
  {
  }

  lemma {:induction false} ReadTwoBytes(low: byte, high: byte, tail: seq<byte>)
    ensures ReadBits(ToBits([low, high] + tail), 16) == Some((low + 256 * high, ToBits(tail)))
  {
    hide ReadBits, ToBits;
    ReadByte(low, [high] + tail);
    ReadByte(high, tail);
    assert [low, high] + tail == [low] + ([high] + tail);
    ReadBitsSplit(ToBits([low, high] + tail), 8, 8, low, ToBits([high] + tail), high, ToBits(tail));
    assert Pow2(8) == 256 by {
      assert Pow2(2) == 4 && Pow2(4) == 16;
      assert Pow2(6) == 64;
    }
  }

  /** The tokens of bytes that stand for themselves. */
  function Literals(data: seq<byte>): (r: seq<Token>)
    ensures |r| == |data| && forall i :: 0 <= i < |r| ==> r[i] == Literal(data[i])
  {
    seq(|data|, i requires 0 <= i < |data| => Literal(data[i]))
  }

  lemma {:induction false} ReadLiteralsStep(c: Bits, n: nat, b: byte, c1: Bits, tokens: seq<Token>, c2: Bits)
    requires n > 0 && ReadBits(c, 8) == Some((b as int, c1)) && ReadLiterals(c1, n - 1) == Some((tokens, c2))
    ensures ReadLiterals(c, n) == Some(([Literal(b)] + tokens, c2))
  {
    hide ReadBits;
  }

  lemma {:induction false} ReadLiteralsBack(data: seq<byte>, tail: seq<byte>)
    ensures ReadLiterals(ToBits(data + tail), |data|) == Some((Literals(data), ToBits(tail)))
  {
    if data == [] {
      assert data + tail == tail;
    } else {
      hide ReadBits, ToBits, ReadLiterals, Literals;
      var rest := data[1..] + tail;
      FirstOff(data, tail);
      ReadByte(data[0], rest);
      ReadLiteralsBack(data[1..], tail);
      ReadLiteralsStep(ToBits(data + tail), |data|, data[0], ToBits(rest), Literals(data[1..]), ToBits(tail));
    }
  }

  lemma {:induction false} FirstOff(data: seq<byte>, tail: seq<byte>)
    requires data != []
    ensures data + tail == [data[0]] + (data[1..] + tail)
    ensures Literals(data) == [Literal(data[0])] + Literals(data[1..])
  {
  }

  lemma {:induction false} ApplyLiterals(output: seq<byte>, data: seq<byte>)
    ensures Apply(output, Literals(data)) == Some(output + data)
    decreases |data|
  {
    if data == [] {
      assert output + data == output;
    } else {
      assert Literals(data)[1..] == Literals(data[1..]);
      ApplyLiterals(output + [data[0]], data[1..]);
      assert output + [data[0]] + data[1..] == output + data;
    }
  }

  /** The head of a block and the bits up to the next byte are all zero. */
  lemma {:induction false} ReadHead(rest: seq<byte>)
    ensures var c := ToBits([0] + rest);
            && ReadBits(c, 1) == Some((0, c[1..]))
            && ReadBits(c[1..], 2) == Some((0, c[3..]))
            && AlignToByte(c[3..]) == ToBits(rest)
  {
    var c := ToBits([0] + rest);
    assert ([0] + rest)[1..] == rest;
    ZeroByte();
    hide ByteBits, ToBits;
    assert c == ByteBits(0, 8) + ToBits(rest) by { ToBitsCons(0, rest); }
    assert c[1..][1..] == c[2..] && c[2..][1..] == c[3..];
    assert |c[3..]| % 8 == 5;
    assert c[3..][5..] == c[8..] == ToBits(rest);
  }

  lemma {:induction false} ToBitsCons(b: byte, rest: seq<byte>)
    ensures ToBits([b] + rest) == ByteBits(b, 8) + ToBits(rest)
  {
    assert ([b] + rest)[1..] == rest;
  }

  lemma {:induction false} ZeroByte()
    ensures forall i :: 0 <= i < 8 ==> !ByteBits(0, 8)[i]
  {
    ZeroBits(8);
  }

  lemma {:induction false} ZeroBits(n: nat)
    ensures forall i :: 0 <= i < n ==> !ByteBits(0, n)[i]
  {
    if n > 0 {
      ZeroBits(n - 1);
    }
  }

  /** Two lengths that are each other's complement, and as many bytes. */
  lemma {:induction false} ReadStoredBack(c: Bits, data: seq<byte>, tail: seq<byte>, rest: seq<byte>)
    requires |data| <= MAX_STORED && AlignToByte(c) == ToBits(rest)
    requires var len, nlen := |data|, MAX_STORED - |data|;
             rest == [len % 256, len / 256] + ([nlen % 256, nlen / 256] + (data + tail))
    ensures ReadStored(c) == Some((Literals(data), ToBits(tail)))
  {
    var len, nlen := |data|, MAX_STORED - |data|;
    hide ReadBits, ToBits, AlignToByte, ReadLiterals;
    ReadTwoBytes(len % 256, len / 256, [nlen % 256, nlen / 256] + (data + tail));
    ReadTwoBytes(nlen % 256, nlen / 256, data + tail);
    ReadLiteralsBack(data, tail);
  }

  lemma {:induction false} ReadStoredBlock(data: seq<byte>, tail: seq<byte>)
    requires |data| <= MAX_STORED
    ensures ReadBlock(ToBits(StoredBlock(data) + tail)) == Some((Block(false, Literals(data)), ToBits(tail)))
  {
    var len, nlen := |data|, MAX_STORED - |data|;
    var rest := [len % 256, len / 256] + ([nlen % 256, nlen / 256] + (data + tail));
    assert StoredBlock(data) + tail == [0] + rest;
    hide ReadBits, ToBits, AlignToByte, ReadStored, ReadTokens, ReadDynamicTables;
    ReadHead(rest);
    ReadStoredBack(ToBits([0] + rest)[3..], data, tail, rest);
  }

  /** Whatever its length, what was stored is a shard of the input. */
  lemma {:induction false} StoredDecodes(data: seq<byte>)
    ensures ShardDecodes(Stored(data), data)
  {
    var tokens := StoredTokens(data, []);
    assert [] + data == data;
  }

  lemma {:induction false} OneMoreBlock(c: Bits, tokens: seq<Token>, c1: Bits, more: seq<Token>)
    requires ReadBlock(c) == Some((Block(false, tokens), c1)) && ReadOpenBlocks(c1) == Some(more)
    ensures ReadOpenBlocks(c) == Some(tokens + more)
  {
    hide ReadBlock;
  }

  lemma {:induction false} StoredSplits(data: seq<byte>) returns (head: seq<byte>, tail: seq<byte>)
    ensures |head| <= MAX_STORED && data == head + tail && (tail != [] ==> head != [])
    ensures Stored(data) == StoredBlock(head) + if tail == [] then [] else Stored(tail)
  {
    if |data| <= MAX_STORED {
      head, tail := data, [];
      assert StoredBlock(head) + [] == StoredBlock(head);
    } else {
      head, tail := data[..MAX_STORED], data[MAX_STORED..];
    }
  }

  lemma {:induction false} NoBlocks()
    ensures ToBits([]) == [] && ReadOpenBlocks([]) == Some([])
  {
  }

  lemma {:induction false} StoredTokens(data: seq<byte>, output: seq<byte>) returns (tokens: seq<Token>)
    ensures ReadOpenBlocks(ToBits(Stored(data))) == Some(tokens)
    ensures Apply(output, tokens) == Some(output + data)
    decreases |data|
  {
    hide ReadBlock, ReadOpenBlocks, Apply, ToBits, Stored, StoredBlock, Literals;
    var head, tail := StoredSplits(data);
    ApplyLiterals(output, head);
    var rest := if tail == [] then [] else Stored(tail);
    ReadStoredBlock(head, rest);
    NoBlocks();
    var more := [];
    if tail != [] {
      more := StoredTokens(tail, output + head);
      ApplyConcat(output, Literals(head), more);
      assert output + head + tail == output + (head + tail);
    } else {
      assert Literals(head) + [] == Literals(head);
      assert head + tail == head;
    }
    OneMoreBlock(ToBits(Stored(data)), Literals(head), ToBits(rest), more);
    tokens := Literals(head) + more;
  }

  /** The stored shard between header and trailer is a whole stream. */
  function StoredStream(data: seq<byte>): seq<byte> {
    ZLIB_CMF_FLG + Stored(data) + (ZLIB_EMPTY_FINAL_BLOCK + BigEndian32(Adler32(data)))
  }

  lemma {:induction false} StoredStreamDecodes(data: seq<byte>)
    ensures ZlibDecode(StoredStream(data)) == Some(data)
  {
    hide ZlibDecode, ShardDecodes, Stored, BigEndian32, Adler32;
    StoredDecodes(data);
    StitchedStreamDecodes([data], [Stored(data)]);
    ConcatOne(data);
    ConcatOne(Stored(data));
  }

  lemma {:induction false} ConcatOne(piece: seq<byte>)
    ensures Concat([piece]) == piece
  {
    assert piece + Concat([]) == piece;
  }

  /** Storing meets both premises of the compression theorems, on every input. */
  lemma {:induction false} StoringIsSound()
    ensures SoundShardEncoder(data => Ok(Stored(data))) && SoundWholeEncoder(data => Ok(StoredStream(data)))
  {
    hide ZlibDecode, ShardDecodes, Stored, StoredStream;
    forall data ensures ShardDecodes(Stored(data), data) && ZlibDecode(StoredStream(data)) == Some(data) {
      StoredDecodes(data);
      StoredStreamDecodes(data);
    }
  }
}
