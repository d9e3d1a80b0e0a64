/** The Adler-32 checksum (RFC 1950, section 8.2) and the rule that joins the checksums of two
    neighbouring pieces. */
module Adler {
  import opened Arithmetic

  const ADLER_BASE := 65521

  /** The two running sums; the stored checksum is `b * 65536 + a`. */
  datatype Sums = Sums(a: nat, b: nat)

  const INITIAL := Sums(1, 0)

  function Pack(s: Sums): nat {
    s.b * 0x1_0000 + s.a
  }

  function Unpack(checksum: nat): Sums {
    Sums(checksum % 0x1_0000, checksum / 0x1_0000)
  }

  predicate Reduced(s: Sums) {
    s.a < ADLER_BASE && s.b < ADLER_BASE
  }

  function Update(s: Sums, x: byte): Sums {
    var a := (s.a + x) % ADLER_BASE;
    Sums(a, (s.b + a) % ADLER_BASE)
  }

  function SumsOf(data: seq<byte>): (s: Sums)
    ensures Reduced(s)
  {
    if data == [] then INITIAL else Update(SumsOf(data[..|data| - 1]), data[|data| - 1])
  }

  /** `adler32(1, data)`. */
  function Adler32(data: seq<byte>): (r: nat)
    ensures r < TWO32
  {
    Pack(SumsOf(data))
  }

  /** The sums of two pieces read one after the other, the second one `length` bytes long. */
  function Join(first: Sums, second: Sums, length: nat): (s: Sums)
    ensures Reduced(s)
  {
    Sums((first.a + second.a - 1) % ADLER_BASE,
         (first.b + second.b + length * (first.a - 1)) % ADLER_BASE)
  }

  /** `adler32_combine`. */
  function Combine(first: nat, second: nat, length: nat): nat {
    Pack(Join(Unpack(first), Unpack(second), length))
  }

  lemma {:induction false} UnpackPack(s: Sums)
    requires Reduced(s)
    ensures Unpack(Pack(s)) == s
  {
  }

  lemma {:induction false} JoinLowStep(xa: nat, ya: nat, c: nat)
    ensures (xa + (ya + c) % ADLER_BASE - 1) % ADLER_BASE == ((xa + ya - 1) % ADLER_BASE + c) % ADLER_BASE
  {
  }

  /** `t` stands for `length * (first.a - 1)`, `u` for the low sum after the new byte. */
  lemma {:induction false} JoinHighStep(xa: nat, xb: nat, u: nat, yb: nat, t: int)
    ensures (xb + (yb + u) % ADLER_BASE + (t + xa - 1)) % ADLER_BASE
            == ((xb + yb + t) % ADLER_BASE + (xa + u - 1) % ADLER_BASE) % ADLER_BASE
  {
  }

  /** One more byte at the end of the second piece. */
  lemma {:induction false} JoinUpdate(x: Sums, y: Sums, length: nat, c: byte)
    ensures Join(x, Update(y, c), length + 1) == Update(Join(x, y, length), c)
  {
    var t := length * (x.a - 1);
    assert (length + 1) * (x.a - 1) == t + (x.a - 1) by { Distribute(length, 1, x.a - 1); }
    JoinLowStep(x.a, y.a, c as int);
    JoinHighStep(x.a, x.b, (y.a + c) % ADLER_BASE, y.b, t);
  }

  lemma {:induction false} JoinIsConcat(x: seq<byte>, y: seq<byte>)
    ensures Join(SumsOf(x), SumsOf(y), |y|) == SumsOf(x + y)
  {
    hide Join, Update, SumsOf;
    if y == [] {
      assert x + y == x;
      JoinNothing(x);
    } else {
      var n := |y| - 1;
      JoinIsConcat(x, y[..n]);
      assert (x + y)[..|x + y| - 1] == x + y[..n];
      SumsStep(y);
      SumsStep(x + y);
      JoinUpdate(SumsOf(x), SumsOf(y[..n]), n, y[n]);
    }
  }

  lemma {:induction false} JoinNothing(x: seq<byte>)
    ensures Join(SumsOf(x), SumsOf([]), 0) == SumsOf(x)
  {
  }

  lemma {:induction false} SumsStep(data: seq<byte>)
    requires data != []
    ensures SumsOf(data) == Update(SumsOf(data[..|data| - 1]), data[|data| - 1])
  {
    hide Update;
  }

  /** Joining the checksums of two pieces gives the checksum of their concatenation. */
  lemma {:induction false} CombineIsConcat(x: seq<byte>, y: seq<byte>)
    ensures Combine(Adler32(x), Adler32(y), |y|) == Adler32(x + y)
  {
    UnpackPack(SumsOf(x));
    UnpackPack(SumsOf(y));
    JoinIsConcat(x, y);
  }

  /******* The definition of RFC 1950 *******/

  function ByteSum(data: seq<byte>): nat {
    if data == [] then 0 else data[0] + ByteSum(data[1..])
  }

  /** The sum of all bytes, each as often as there are bytes from it on. */
  function WeightedSum(data: seq<byte>): nat {
    if data == [] then 0 else |data| * data[0] + WeightedSum(data[1..])
  }

  /** Section 8.2: the low half sums the bytes, starting from one, and the high half sums the values
      the low half goes through; both modulo 65521. */
  function RfcAdler32(data: seq<byte>): nat {
    (|data| + WeightedSum(data)) % 65521 * 65536 + (1 + ByteSum(data)) % 65521
  }

  lemma {:induction false} SumsAppend(data: seq<byte>, x: byte)
    ensures ByteSum(data + [x]) == ByteSum(data) + x
    ensures WeightedSum(data + [x]) == WeightedSum(data) + ByteSum(data) + x
  {
    if data == [] {
      assert [] + [x] == [x];
    } else {
      assert (data + [x])[1..] == data[1..] + [x];
      SumsAppend(data[1..], x);
      assert (|data| + 1) * data[0] == |data| * data[0] + data[0];
    }
  }

  lemma {:induction false} SumsOfIs(data: seq<byte>)
    ensures SumsOf(data).a == (1 + ByteSum(data)) % 65521
    ensures SumsOf(data).b == (|data| + WeightedSum(data)) % 65521
  {
    if data != [] {
      var init, x := data[..|data| - 1], data[|data| - 1];
      assert data == init + [x];
      SumsOfIs(init);
      SumsAppend(init, x);
      ReduceTwice(1 + ByteSum(init), x as int);
      ReduceBoth(|init| + WeightedSum(init), 1 + ByteSum(init) + x);
    }
  }

  lemma {:induction false} ReduceTwice(u: nat, c: nat)
    ensures (u % 65521 + c) % 65521 == (u + c) % 65521
  {
  }

  lemma {:induction false} ReduceBoth(u: nat, v: nat)
    ensures (u % 65521 + v % 65521) % 65521 == (u + v) % 65521
  {
  }

  /** The running computation gives what RFC 1950 defines, for all data. */
  lemma {:induction false} Adler32IsRfc(data: seq<byte>)
    ensures Adler32(data) == RfcAdler32(data)
  {
    SumsOfIs(data);
  }
}
