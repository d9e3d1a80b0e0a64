/** Why independently compressed pieces can be joined: reading a block is not disturbed by what
    follows it, and applying its tokens is not disturbed by output that was there before. */
module InflateLocality {
  import opened Arithmetic
  import opened Inflate
  import opened Wrappers

  /** What follows is a whole number of bytes. */
  predicate WholeBytes(more: Bits) {
    |more| % 8 == 0
  }

  lemma {:induction false} TailExtend(c: Bits, n: nat, more: Bits)
    requires n <= |c|
    ensures (c + more)[n..] == c[n..] + more
  {
  }

  lemma {:induction false} ReadBitsExtend(c: Bits, n: nat, more: Bits)
    requires ReadBits(c, n).Some?
    ensures var (v, c1) := ReadBits(c, n).value;
            ReadBits(c + more, n) == Some((v, c1 + more))
    decreases n
  {
    if n > 0 {
      TailExtend(c, 1, more);
      ReadBitsExtend(c[1..], n - 1, more);
    }
  }

  lemma {:induction false} AlignExtend(c: Bits, more: Bits)
    requires WholeBytes(more)
    ensures AlignToByte(c + more) == AlignToByte(c) + more
  {
    TailExtend(c, |c| % 8, more);
  }

  lemma {:induction false} DecodeSymbolExtend(
    lengths: seq<nat>, c: Bits, len: nat, code: nat, first: nat, more: Bits)
    requires DecodeSymbol(lengths, c, len, code, first).Some?
    ensures var (sym, c1) := DecodeSymbol(lengths, c, len, code, first).value;
            DecodeSymbol(lengths, c + more, len, code, first) == Some((sym, c1 + more))
    decreases MAX_CODE_BITS - len
  {
    hide CountOfLength, NthOfLength;
    TailExtend(c, 1, more);
    var code' := 2 * code + if c[0] then 1 else 0;
    var count := CountOfLength(lengths, len + 1);
    if !(2 * first <= code' < 2 * first + count) {
      DecodeSymbolExtend(lengths, c[1..], len + 1, code', 2 * first + count, more);
    }
  }

  lemma {:induction false} ReadSymbolExtend(lengths: seq<nat>, c: Bits, more: Bits)
    requires ReadSymbol(lengths, c).Some?
    ensures var (sym, c1) := ReadSymbol(lengths, c).value;
            ReadSymbol(lengths, c + more) == Some((sym, c1 + more))
  {
    DecodeSymbolExtend(lengths, c, 0, 0, 0, more);
  }

  lemma {:induction false} ReadTokenExtend(tables: Tables, sym: nat, c: Bits, more: Bits)
    requires sym != 256 && ReadToken(tables, sym, c).Some?
    ensures var (token, c1) := ReadToken(tables, sym, c).value;
            ReadToken(tables, sym, c + more) == Some((token, c1 + more))
  {
    hide ReadBits, ReadSymbol;
    if sym > 256 {
      ReadBitsExtend(c, LENGTH_EXTRA[sym - 257], more);
      var (_, c1) := ReadBits(c, LENGTH_EXTRA[sym - 257]).value;
      ReadSymbolExtend(tables.distances, c1, more);
      var (dsym, c2) := ReadSymbol(tables.distances, c1).value;
      ReadBitsExtend(c2, DISTANCE_EXTRA[dsym], more);
    }
  }

  lemma {:induction false} ReadTokensExtend(tables: Tables, c: Bits, more: Bits)
    requires ReadTokens(tables, c).Some?
    ensures var (tokens, c1) := ReadTokens(tables, c).value;
            ReadTokens(tables, c + more) == Some((tokens, c1 + more))
    decreases |c|
  {
    hide ReadSymbol, ReadToken;
    ReadSymbolExtend(tables.literals, c, more);
    var (sym, c1) := ReadSymbol(tables.literals, c).value;
    if sym != 256 {
      ReadTokenExtend(tables, sym, c1, more);
      var (_, c2) := ReadToken(tables, sym, c1).value;
      ReadTokensExtend(tables, c2, more);
    }
  }

  lemma {:induction false} ReadCodeLengthCodeExtend(c: Bits, i: nat, n: nat, lengths: seq<nat>, more: Bits)
    requires i <= n <= 19 && |lengths| == 19 && ReadCodeLengthCode(c, i, n, lengths).Some?
    ensures var (v, c1) := ReadCodeLengthCode(c, i, n, lengths).value;
            ReadCodeLengthCode(c + more, i, n, lengths) == Some((v, c1 + more))
    decreases n - i
  {
    hide ReadBits;
    if i < n {
      ReadBitsExtend(c, 3, more);
      var (len, c1) := ReadBits(c, 3).value;
      ReadCodeLengthCodeExtend(c1, i + 1, n, lengths[CODE_LENGTH_ORDER[i] := len], more);
    }
  }

  lemma {:induction false} ReadLengthsExtend(code: seq<nat>, c: Bits, total: nat, lengths: seq<nat>, more: Bits)
    requires ReadLengths(code, c, total, lengths).Some?
    ensures var (v, c1) := ReadLengths(code, c, total, lengths).value;
            ReadLengths(code, c + more, total, lengths) == Some((v, c1 + more))
    decreases |c|
  {
    hide ReadBits, ReadSymbol, Repeat;
    if |lengths| < total {
      ReadSymbolExtend(code, c, more);
      var (sym, c1) := ReadSymbol(code, c).value;
      if sym < 16 {
        ReadLengthsExtend(code, c1, total, lengths + [sym], more);
      } else {
        var width := if sym == 16 then 2 else if sym == 17 then 3 else 7;
        ReadBitsExtend(c1, width, more);
        var (n, c2) := ReadBits(c1, width).value;
        var added := if sym == 16 then Repeat(lengths[|lengths| - 1], n + 3)
                     else Repeat(0, n + if sym == 17 then 3 else 11);
        ReadLengthsExtend(code, c2, total, lengths + added, more);
      }
    }
  }

  lemma {:induction false} ReadCountsExtend(c: Bits, more: Bits)
    requires ReadCounts(c).Some?
    ensures var (v, c1) := ReadCounts(c).value;
            ReadCounts(c + more) == Some((v, c1 + more))
  {
    hide ReadBits;
    ReadBitsExtend(c, 5, more);
    var (_, c1) := ReadBits(c, 5).value;
    ReadBitsExtend(c1, 5, more);
    var (_, c2) := ReadBits(c1, 5).value;
    ReadBitsExtend(c2, 4, more);
  }

  lemma {:induction false} ReadDynamicTablesExtend(c: Bits, more: Bits)
    requires ReadDynamicTables(c).Some?
    ensures var (v, c1) := ReadDynamicTables(c).value;
            ReadDynamicTables(c + more) == Some((v, c1 + more))
  {
    hide ReadCounts, ReadCodeLengthCode, ReadLengths, Repeat;
    ReadCountsExtend(c, more);
    var (counts, c1) := ReadCounts(c).value;
    ReadCodeLengthCodeExtend(c1, 0, counts.2, Repeat(0, 19), more);
    var (code, c2) := ReadCodeLengthCode(c1, 0, counts.2, Repeat(0, 19)).value;
    ReadLengthsExtend(code, c2, counts.0 + counts.1, [], more);
  }

  lemma {:induction false} ReadLiteralsExtend(c: Bits, n: nat, more: Bits)
    requires ReadLiterals(c, n).Some?
    ensures var (tokens, c1) := ReadLiterals(c, n).value;
            ReadLiterals(c + more, n) == Some((tokens, c1 + more))
    decreases n
  {
    hide ReadBits;
    if n > 0 {
      ReadBitsExtend(c, 8, more);
      var (_, c1) := ReadBits(c, 8).value;
      ReadLiteralsExtend(c1, n - 1, more);
    }
  }

  lemma {:induction false} ReadStoredExtend(c: Bits, more: Bits)
    requires WholeBytes(more) && ReadStored(c).Some?
    ensures var (tokens, c1) := ReadStored(c).value;
            ReadStored(c + more) == Some((tokens, c1 + more))
  {
    hide ReadBits, AlignToByte, ReadLiterals;
    AlignExtend(c, more);
    ReadBitsExtend(AlignToByte(c), 16, more);
    var (len, c1) := ReadBits(AlignToByte(c), 16).value;
    ReadBitsExtend(c1, 16, more);
    var (_, c2) := ReadBits(c1, 16).value;
    ReadLiteralsExtend(c2, len, more);
  }

  lemma {:induction false} ReadBodyExtend(kind: nat, c: Bits, more: Bits)
    requires WholeBytes(more) && ReadBody(kind, c).Some?
    ensures var (tokens, c1) := ReadBody(kind, c).value;
            ReadBody(kind, c + more) == Some((tokens, c1 + more))
  {
    hide ReadStored, ReadTokens, ReadDynamicTables, FixedTables;
    if kind == 0 {
      ReadStoredExtend(c, more);
    } else if kind == 1 {
      ReadTokensExtend(FixedTables(), c, more);
    } else {
      ReadDynamicTablesExtend(c, more);
      var (tables, c1) := ReadDynamicTables(c).value;
      ReadTokensExtend(tables, c1, more);
    }
  }

  /** A block reads the same whatever follows it. */
  lemma {:induction false} ReadBlockExtend(c: Bits, more: Bits)
    requires WholeBytes(more) && ReadBlock(c).Some?
    ensures var (block, c1) := ReadBlock(c).value;
            ReadBlock(c + more) == Some((block, c1 + more))
  {
    hide ReadBits, ReadBody;
    ReadBitsExtend(c, 1, more);
    var (_, c1) := ReadBits(c, 1).value;
    ReadBitsExtend(c1, 2, more);
    var (btype, c2) := ReadBits(c1, 2).value;
    ReadBodyExtend(btype, c2, more);
  }

  /******* Output that was there before *******/

  lemma {:induction false} CopyBackAfter(earlier: seq<byte>, output: seq<byte>, length: nat, distance: nat)
    requires 0 < distance <= |output|
    ensures CopyBack(earlier + output, length, distance) == earlier + CopyBack(output, length, distance)
    decreases length
  {
    if length > 0 {
      var b := output[|output| - distance];
      assert (earlier + output)[|earlier + output| - distance] == b;
      assert earlier + output + [b] == earlier + (output + [b]);
      CopyBackAfter(earlier, output + [b], length - 1, distance);
    }
  }

  /** Tokens that decode from an empty window decode to the same bytes after any earlier output: their
      back-references stay inside their own output. */
  lemma {:induction false} ApplyAfter(earlier: seq<byte>, output: seq<byte>, tokens: seq<Token>)
    requires Apply(output, tokens).Some?
    ensures Apply(earlier + output, tokens) == Some(earlier + Apply(output, tokens).value)
    decreases |tokens|
  {
    if tokens != [] {
      match tokens[0]
      case Literal(b) =>
        assert earlier + output + [b] == earlier + (output + [b]);
        ApplyAfter(earlier, output + [b], tokens[1..]);
      case Copy(length, distance) =>
        CopyBackAfter(earlier, output, length, distance);
        ApplyAfter(earlier, CopyBack(output, length, distance), tokens[1..]);
    }
  }

  lemma {:induction false} ApplyConcat(output: seq<byte>, a: seq<Token>, b: seq<Token>)
    requires Apply(output, a).Some?
    ensures Apply(output, a + b) == Apply(Apply(output, a).value, b)
    decreases |a|
  {
    if a == [] {
      assert a + b == b;
    } else {
      assert (a + b)[1..] == a[1..] + b;
      match a[0]
      case Literal(x) => ApplyConcat(output + [x], a[1..], b);
      case Copy(length, distance) => ApplyConcat(CopyBack(output, length, distance), a[1..], b);
    }
  }

  /******* Joining shards *******/

  /** Reading on after a run of non-final blocks. */
  lemma {:induction false} OpenBlocksThenStream(c: Bits, more: Bits)
    requires WholeBytes(more) && ReadOpenBlocks(c).Some?
    ensures ReadStream(c + more) ==
            match ReadStream(more)
            case None => None
            case Some((tokens, after)) => Some((ReadOpenBlocks(c).value + tokens, after))
    decreases |c|
  {
    hide ReadBlock;
    if c == [] {
      assert c + more == more;
      match ReadStream(more)
      case None =>
      case Some((tokens, _)) => assert [] + tokens == tokens;
    } else {
      ReadBlockExtend(c, more);
      var (block, c1) := ReadBlock(c).value;
      OpenBlocksThenStream(c1, more);
      var tail := ReadOpenBlocks(c1).value;
      match ReadStream(more)
      case None =>
      case Some((tokens, _)) => assert block.tokens + (tail + tokens) == (block.tokens + tail) + tokens;
    }
  }

  /******* The tables of section 3.2.5 *******/

  /** The lengths of the 29 codes follow each other without gap or overlap from 3 to 257, and the last
      code is 258. */
  lemma {:induction false} LengthCodesTile()
    ensures |LENGTH_BASE| == |LENGTH_EXTRA| == 29 && LENGTH_BASE[0] == 3 && LENGTH_BASE[28] == 258
    ensures forall i :: 0 <= i < 28 ==> LENGTH_EXTRA[i] == if i < 8 then 0 else (i - 4) / 4
    ensures forall i :: 0 <= i < 27 ==> LENGTH_BASE[i + 1] == LENGTH_BASE[i] + Pow2(LENGTH_EXTRA[i])
    ensures LENGTH_BASE[27] + Pow2(LENGTH_EXTRA[27]) == 259 && LENGTH_EXTRA[28] == 0
  {
    SmallPowers();
    hide Pow2;
  }

  /** The distances of the 30 codes follow each other from 1 to 32768. */
  lemma {:induction false} DistanceCodesTile()
    ensures |DISTANCE_BASE| == |DISTANCE_EXTRA| == 30 && DISTANCE_BASE[0] == 1
    ensures forall i :: 0 <= i < 30 ==> DISTANCE_EXTRA[i] == if i < 4 then 0 else (i - 2) / 2
    ensures forall i :: 0 <= i < 29 ==> DISTANCE_BASE[i + 1] == DISTANCE_BASE[i] + Pow2(DISTANCE_EXTRA[i])
    ensures DISTANCE_BASE[29] + Pow2(DISTANCE_EXTRA[29]) == 32769
  {
    SmallPowers();
    hide Pow2;
  }

  /**
   * The code-length lengths come in the order of section 3.2.7 of RFC 1951: the three repeat codes and 0, then
   * outwards from 8, up at even places and down at odd ones.
   */
  lemma {:induction false} CodeLengthsWindOutwards()
    ensures |CODE_LENGTH_ORDER| == 19 && CODE_LENGTH_ORDER[..4] == [16, 17, 18, 0]
    ensures forall i :: 4 <= i < 19 ==> CODE_LENGTH_ORDER[i] == if i % 2 == 0 then 6 + i / 2 else 9 - i / 2
  {
  }

  lemma {:induction false} SmallPowers()
    ensures Pow2(0) == 1 && Pow2(1) == 2 && Pow2(2) == 4 && Pow2(3) == 8 && Pow2(4) == 16 && Pow2(5) == 32
    ensures Pow2(6) == 64 && Pow2(7) == 128 && Pow2(8) == 256 && Pow2(9) == 512 && Pow2(10) == 1024
    ensures Pow2(11) == 2048 && Pow2(12) == 4096 && Pow2(13) == 8192
  {
  }
}
