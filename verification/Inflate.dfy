/** A decoder for the DEFLATE format (RFC 1951), bit by bit: stored, fixed and dynamic blocks.
    Parsing a block never looks at the output produced so far; only applying its tokens does. */
module Inflate {
  import opened Arithmetic
  import opened Wrappers

  /******* Bits *******/

  /** The unread bits. A stream is a whole number of bytes, so the bits left in the current byte are
      the number of unread bits modulo eight. */
  type Bits = seq<bool>

  /** The eight bits of a byte, least significant first (RFC 1951, section 3.1.1). */
  function ByteBits(b: nat, n: nat): (r: seq<bool>)
    ensures |r| == n
    decreases n
  {
    if n == 0 then [] else [b % 2 == 1] + ByteBits(b / 2, n - 1)
  }

  function ToBits(bytes: seq<byte>): (r: seq<bool>)
    ensures |r| == 8 * |bytes|
  {
    if bytes == [] then [] else ByteBits(bytes[0], 8) + ToBits(bytes[1..])
  }

  /** An `n`-bit number, least significant bit first. */
  function ReadBits(c: Bits, n: nat): (r: Option<(nat, Bits)>)
    ensures r.Some? ==> |r.value.1| == |c| - n
    ensures r.Some? <==> n <= |c|
    decreases n
  {
    if n == 0 then Some((0, c))
    else if c == [] then None
    else
      match ReadBits(c[1..], n - 1)
      case None => None
      case Some((high, after)) => Some(((if c[0] then 1 else 0) + 2 * high, after))
  }

  /** Skips to the next byte boundary. */
  function AlignToByte(c: Bits): (r: Bits)
    ensures |r| <= |c|
  {
    c[|c| % 8..]
  }

  /******* Huffman codes (section 3.2.2) *******/

  const MAX_CODE_BITS := 15

  function CountOfLength(lengths: seq<nat>, len: nat): (n: nat)
    ensures n <= |lengths|
  {
    if lengths == [] then 0
    else CountOfLength(lengths[1..], len) + if lengths[0] == len then 1 else 0
  }

  /** The `n`-th symbol, in symbol order, among those whose code has `len` bits. */
  function NthOfLength(lengths: seq<nat>, len: nat, n: nat): (sym: nat)
    requires n < CountOfLength(lengths, len)
    ensures sym < |lengths| && lengths[sym] == len
  {
    if lengths[0] == len then
      if n == 0 then 0 else 1 + NthOfLength(lengths[1..], len, n - 1)
    else 1 + NthOfLength(lengths[1..], len, n)
  }

  /** Reads one code word, most significant bit first. `first` is the smallest canonical code with
      `len` bits once doubled, `code` the bits read so far. */
  function DecodeSymbol(lengths: seq<nat>, c: Bits, len: nat, code: nat, first: nat): (r: Option<(nat, Bits)>)
    ensures r.Some? ==> r.value.0 < |lengths| && |r.value.1| < |c|
    decreases MAX_CODE_BITS - len
  {
    if len >= MAX_CODE_BITS || c == [] then None
    else
      var code' := 2 * code + if c[0] then 1 else 0;
      var first' := 2 * first;
      var count := CountOfLength(lengths, len + 1);
      if first' <= code' < first' + count then
        Some((NthOfLength(lengths, len + 1, code' - first'), c[1..]))
      else
        DecodeSymbol(lengths, c[1..], len + 1, code', first' + count)
  }

  function ReadSymbol(lengths: seq<nat>, c: Bits): (r: Option<(nat, Bits)>)
    ensures r.Some? ==> r.value.0 < |lengths| && |r.value.1| < |c|
  {
    DecodeSymbol(lengths, c, 0, 0, 0)
  }

  /******* Tokens and the window *******/

  datatype Token = Literal(b: byte) | Copy(length: nat, distance: nat)

  /** Appends `length` bytes, each the one `distance` back; the copy may overlap itself. */
  function CopyBack(output: seq<byte>, length: nat, distance: nat): (r: seq<byte>)
    requires 0 < distance <= |output|
    ensures |r| == |output| + length
    decreases length
  {
    if length == 0 then output
    else CopyBack(output + [output[|output| - distance]], length - 1, distance)
  }

  function Apply(output: seq<byte>, tokens: seq<Token>): Option<seq<byte>>
    decreases |tokens|
  {
    if tokens == [] then Some(output)
    else
      match tokens[0]
      case Literal(b) => Apply(output + [b], tokens[1..])
      case Copy(length, distance) =>
        if 0 < distance <= |output| then Apply(CopyBack(output, length, distance), tokens[1..]) else None
  }

  /******* Compressed blocks (section 3.2.5) *******/

  const LENGTH_BASE: seq<nat> := [3, 4, 5, 6, 7, 8, 9, 10, 11, 13, 15, 17, 19, 23, 27, 31,
                                  35, 43, 51, 59, 67, 83, 99, 115, 131, 163, 195, 227, 258]
  const LENGTH_EXTRA: seq<nat> := [0, 0, 0, 0, 0, 0, 0, 0, 1, 1, 1, 1, 2, 2, 2, 2,
                                   3, 3, 3, 3, 4, 4, 4, 4, 5, 5, 5, 5, 0]
  const DISTANCE_BASE: seq<nat> := [1, 2, 3, 4, 5, 7, 9, 13, 17, 25, 33, 49, 65, 97, 129, 193, 257, 385,
                                    513, 769, 1025, 1537, 2049, 3073, 4097, 6145, 8193, 12289, 16385, 24577]
  const DISTANCE_EXTRA: seq<nat> := [0, 0, 0, 0, 1, 1, 2, 2, 3, 3, 4, 4, 5, 5, 6, 6, 7, 7,
                                     8, 8, 9, 9, 10, 10, 11, 11, 12, 12, 13, 13]

  datatype Tables = Tables(literals: seq<nat>, distances: seq<nat>)

  /** The token that starts with literal/length symbol `sym`, which is not the end-of-block symbol. */
  function ReadToken(tables: Tables, sym: nat, c: Bits): (r: Option<(Token, Bits)>)
    requires sym != 256
    ensures r.Some? ==> |r.value.1| <= |c|
  {
    if sym < 256 then Some((Literal(sym), c))
    else if sym - 257 >= |LENGTH_BASE| then None
    else
      match ReadBits(c, LENGTH_EXTRA[sym - 257])
      case None => None
      case Some((lengthExtra, c1)) =>
        match ReadSymbol(tables.distances, c1)
        case None => None
        case Some((dsym, c2)) =>
          if dsym >= |DISTANCE_BASE| then None
          else
            match ReadBits(c2, DISTANCE_EXTRA[dsym])
            case None => None
            case Some((distanceExtra, c3)) =>
              Some((Copy(LENGTH_BASE[sym - 257] + lengthExtra, DISTANCE_BASE[dsym] + distanceExtra), c3))
  }

  /** Tokens up to and including the end-of-block symbol 256. */
  function ReadTokens(tables: Tables, c: Bits): (r: Option<(seq<Token>, Bits)>)
    ensures r.Some? ==> |r.value.1| < |c|
    decreases |c|
  {
    match ReadSymbol(tables.literals, c)
    case None => None
    case Some((sym, c1)) =>
      if sym == 256 then Some(([], c1))
      else
        match ReadToken(tables, sym, c1)
        case None => None
        case Some((token, c2)) =>
          match ReadTokens(tables, c2)
          case None => None
          case Some((tokens, c3)) => Some(([token] + tokens, c3))
  }

  /** Section 3.2.6. */
  function FixedTables(): Tables {
    Tables(seq(288, i => if i < 144 then 8 else if i < 256 then 9 else if i < 280 then 7 else 8),
           seq(30, i => 5))
  }

  /******* Dynamic code tables (section 3.2.7) *******/

  const CODE_LENGTH_ORDER: seq<nat> := [16, 17, 18, 0, 8, 7, 9, 6, 10, 5, 11, 4, 12, 3, 13, 2, 14, 1, 15]

  /** The first `n` three-bit lengths of the code-length code, placed in their odd order. */
  function ReadCodeLengthCode(c: Bits, i: nat, n: nat, lengths: seq<nat>): (r: Option<(seq<nat>, Bits)>)
    requires i <= n <= 19 && |lengths| == 19
    ensures r.Some? ==> |r.value.1| <= |c| && |r.value.0| == 19
    decreases n - i
  {
    if i == n then Some((lengths, c))
    else
      match ReadBits(c, 3)
      case None => None
      case Some((len, c1)) => ReadCodeLengthCode(c1, i + 1, n, lengths[CODE_LENGTH_ORDER[i] := len])
  }

  function Repeat(x: nat, n: nat): (r: seq<nat>)
    ensures |r| == n
  {
    seq(n, i => x)
  }

  /** `total` code lengths, run-length coded with symbols 16, 17 and 18. */
  function ReadLengths(code: seq<nat>, c: Bits, total: nat, lengths: seq<nat>): (r: Option<(seq<nat>, Bits)>)
    ensures r.Some? ==> |r.value.1| <= |c| && |r.value.0| == total
    decreases |c|
  {
    if |lengths| == total then Some((lengths, c))
    else if |lengths| > total then None
    else
      match ReadSymbol(code, c)
      case None => None
      case Some((sym, c1)) =>
        if sym < 16 then ReadLengths(code, c1, total, lengths + [sym])
        else if sym == 16 then
          match ReadBits(c1, 2)
          case None => None
          case Some((n, c2)) =>
            if lengths == [] then None
            else ReadLengths(code, c2, total, lengths + Repeat(lengths[|lengths| - 1], n + 3))
        else if sym == 17 then
          match ReadBits(c1, 3)
          case None => None
          case Some((n, c2)) => ReadLengths(code, c2, total, lengths + Repeat(0, n + 3))
        else
          match ReadBits(c1, 7)
          case None => None
          case Some((n, c2)) => ReadLengths(code, c2, total, lengths + Repeat(0, n + 11))
  }

  /** The three counts at the head of a dynamic block. */
  function ReadCounts(c: Bits): (r: Option<((nat, nat, nat), Bits)>)
    ensures r.Some? ==> |r.value.1| <= |c| && r.value.0.2 <= 19
  {
    match ReadBits(c, 5)
    case None => None
    case Some((hlit, c1)) =>
      match ReadBits(c1, 5)
      case None => None
      case Some((hdist, c2)) =>
        match ReadBits(c2, 4)
        case None => None
        case Some((hclen, c3)) =>
          if hlit > 29 || hdist > 29 || hclen > 15 then None else Some(((hlit + 257, hdist + 1, hclen + 4), c3))
  }

  function ReadDynamicTables(c: Bits): (r: Option<(Tables, Bits)>)
    ensures r.Some? ==> |r.value.1| <= |c|
  {
    match ReadCounts(c)
    case None => None
    case Some((counts, c1)) =>
      match ReadCodeLengthCode(c1, 0, counts.2, Repeat(0, 19))
      case None => None
      case Some((code, c2)) =>
        match ReadLengths(code, c2, counts.0 + counts.1, [])
        case None => None
        case Some((lengths, c3)) => Some((Tables(lengths[..counts.0], lengths[counts.0..]), c3))
  }

  /******* Stored blocks (section 3.2.4) *******/

  function ReadLiterals(c: Bits, n: nat): (r: Option<(seq<Token>, Bits)>)
    ensures r.Some? ==> |r.value.1| <= |c|
    decreases n
  {
    if n == 0 then Some(([], c))
    else
      match ReadBits(c, 8)
      case None => None
      case Some((b, c1)) =>
        match ReadLiterals(c1, n - 1)
        case None => None
        case Some((tokens, c2)) => Some(([Literal(b % 256)] + tokens, c2))
  }

  function ReadStored(c: Bits): (r: Option<(seq<Token>, Bits)>)
    ensures r.Some? ==> |r.value.1| <= |c|
  {
    match ReadBits(AlignToByte(c), 16)
    case None => None
    case Some((len, c1)) =>
      match ReadBits(c1, 16)
      case None => None
      case Some((nlen, c2)) => if len + nlen == 0xFFFF then ReadLiterals(c2, len) else None
  }

  /******* Blocks and streams (section 3.2.3) *******/

  datatype Block = Block(isFinal: bool, tokens: seq<Token>)

  function ReadBody(kind: nat, c: Bits): (r: Option<(seq<Token>, Bits)>)
    ensures r.Some? ==> |r.value.1| <= |c|
  {
    if kind == 0 then ReadStored(c)
    else if kind == 1 then ReadTokens(FixedTables(), c)
    else if kind == 2 then
      match ReadDynamicTables(c)
      case None => None
      case Some((tables, c1)) => ReadTokens(tables, c1)
    else None
  }

  function ReadBlock(c: Bits): (r: Option<(Block, Bits)>)
    ensures r.Some? ==> |r.value.1| < |c|
  {
    match ReadBits(c, 1)
    case None => None
    case Some((bfinal, c1)) =>
      match ReadBits(c1, 2)
      case None => None
      case Some((btype, c2)) =>
        match ReadBody(btype, c2)
        case None => None
        case Some((tokens, c3)) => Some((Block(bfinal == 1, tokens), c3))
  }

  /** A complete stream: blocks up to and including the final one. */
  function ReadStream(c: Bits): (r: Option<(seq<Token>, Bits)>)
    decreases |c|
  {
    match ReadBlock(c)
    case None => None
    case Some((block, c1)) =>
      if block.isFinal then Some((block.tokens, c1))
      else
        match ReadStream(c1)
        case None => None
        case Some((tokens, c2)) => Some((block.tokens + tokens, c2))
  }

  /** A run of non-final blocks that ends exactly where the bits end. */
  function ReadOpenBlocks(c: Bits): (r: Option<seq<Token>>)
    decreases |c|
  {
    if c == [] then Some([])
    else
      match ReadBlock(c)
      case None => None
      case Some((block, c1)) =>
        if block.isFinal then None
        else
          match ReadOpenBlocks(c1)
          case None => None
          case Some(tokens) => Some(block.tokens + tokens)
  }
}
