/** The order in which contenders are measured: a Williams design repeated in shuffled blocks. */
module RoundPlan {
  import opened Wrappers

  const CONTENDERS: seq<string> := ["bfd", "lld", "mold", "wild", "baseline", "candidate"]

  const WILLIAMS_ROWS: seq<seq<nat>> := [
    [0, 1, 5, 2, 4, 3],
    [1, 2, 0, 3, 5, 4],
    [2, 3, 1, 4, 0, 5],
    [3, 4, 2, 5, 1, 0],
    [4, 5, 3, 0, 2, 1],
    [5, 0, 4, 1, 3, 2]]

  const MIN_SAMPLES := 12
  const MIN_WARMUPS := 2

  /** `t` is `s` in another order. */
  ghost predicate Shuffled<T>(s: seq<T>, t: seq<T>) {
    multiset(s) == multiset(t)
  }

  /** What the random generator answers: the shuffled contenders for the warmups, and for each block
      the shuffled contenders and the shuffled rows. */
  datatype Shuffles = Shuffles(warmup: seq<string>, labels: seq<seq<string>>, rows: seq<seq<seq<nat>>>)

  ghost predicate Fair(draw: Shuffles, blocks: nat) {
    && Shuffled(CONTENDERS, draw.warmup)
    && |draw.labels| == |draw.rows| == blocks
    && forall b :: 0 <= b < blocks ==> FairBlock(draw.labels[b], draw.rows[b])
  }

  ghost predicate FairBlock(labels: seq<string>, rows: seq<seq<nat>>) {
    Shuffled(CONTENDERS, labels) && Shuffled(WILLIAMS_ROWS, rows)
  }

  datatype Round = Round(id: nat, block: nat, order: seq<string>)

  datatype Plan = Plan(warmups: seq<seq<string>>, rounds: seq<Round>)

  datatype PlanError = TooFewWarmups | BadSamples

  /******* Counting *******/

  ghost function Count<T(!new)>(test: T -> bool, s: seq<T>): nat {
    if s == [] then 0 else (if test(s[0]) then 1 else 0) + Count(test, s[1..])
  }

  lemma {:induction false} CountAppend<T(!new)>(test: T -> bool, s: seq<T>, t: seq<T>)
    ensures Count(test, s + t) == Count(test, s) + Count(test, t)
  {
    if s == [] {
      assert s + t == t;
    } else {
      assert (s + t)[1..] == s[1..] + t;
      CountAppend(test, s[1..], t);
    }
  }

  /** Counting does not depend on the order. */
  lemma {:induction false} CountShuffled<T(!new)>(test: T -> bool, s: seq<T>, t: seq<T>)
    requires Shuffled(s, t)
    ensures Count(test, s) == Count(test, t)
  {
    if s == [] {
      assert |multiset(t)| == 0;
    } else {
      assert s == [s[0]] + s[1..];
      assert multiset(s) == multiset{s[0]} + multiset(s[1..]);
      assert s[0] in multiset(t);
      var i :| 0 <= i < |t| && t[i] == s[0];
      TakeOut(t, i);
      assert multiset(s[1..]) == multiset(s) - multiset{s[0]};
      assert multiset(t[..i] + t[i + 1..]) == multiset(t) - multiset{s[0]};
      CountTakeOut(test, t, i);
      CountShuffled(test, s[1..], t[..i] + t[i + 1..]);
    }
  }

  lemma {:induction false} TakeOut<T>(t: seq<T>, i: nat)
    requires i < |t|
    ensures multiset(t) == multiset{t[i]} + multiset(t[..i] + t[i + 1..])
  {
    assert t == t[..i] + [t[i]] + t[i + 1..];
  }

  lemma {:induction false} CountTakeOut<T(!new)>(test: T -> bool, t: seq<T>, i: nat)
    requires i < |t|
    ensures Count(test, t) == (if test(t[i]) then 1 else 0) + Count(test, t[..i] + t[i + 1..])
  {
    var front, back := t[..i], t[i + 1..];
    assert t == front + ([t[i]] + back);
    CountAppend(test, front, [t[i]] + back);
    CountAppend(test, front, back);
    assert ([t[i]] + back)[1..] == back;
  }

  /** Counting through a renaming. */
  lemma {:induction false} CountMapped<S(!new), T(!new)>(test: T -> bool, s: seq<T>, other: S -> bool, t: seq<S>)
    requires |s| == |t| && forall i :: 0 <= i < |s| ==> test(s[i]) == other(t[i])
    ensures Count(test, s) == Count(other, t)
  {
    if s != [] {
      CountMapped(test, s[1..], other, t[1..]);
    }
  }

  /******* The plan *******/

  predicate IsRow(row: seq<nat>) {
    |row| == 6 && forall p :: 0 <= p < 6 ==> row[p] < 6
  }

  function Order(labels: seq<string>, row: seq<nat>): (r: seq<string>)
    requires |labels| == 6 && IsRow(row)
    ensures |r| == 6 && forall p :: 0 <= p < 6 ==> r[p] == labels[row[p]]
  {
    seq(6, p requires 0 <= p < 6 => labels[row[p]])
  }

  ghost function BlockRounds(first: nat, block: nat, labels: seq<string>, rows: seq<seq<nat>>): (r: seq<Round>)
    requires |labels| == 6 && forall i :: 0 <= i < |rows| ==> IsRow(rows[i])
    ensures |r| == |rows|
    ensures forall i :: 0 <= i < |rows| ==> r[i] == Round(first + i, block, Order(labels, rows[i]))
  {
    seq(|rows|, i requires 0 <= i < |rows| => Round(first + i, block, Order(labels, rows[i])))
  }

  lemma {:induction false} ShuffledRows(rows: seq<seq<nat>>)
    requires Shuffled(WILLIAMS_ROWS, rows)
    ensures |rows| == 6 && forall i :: 0 <= i < |rows| ==> IsRow(rows[i])
  {
    assert |multiset(rows)| == 6;
    forall i | 0 <= i < |rows| ensures IsRow(rows[i]) {
      assert rows[i] in multiset(WILLIAMS_ROWS);
    }
  }

  lemma {:induction false} ShuffledLabels(labels: seq<string>)
    requires Shuffled(CONTENDERS, labels)
    ensures |labels| == 6
  {
    assert |multiset(labels)| == 6;
  }

  lemma {:induction false} BlockShape(labels: seq<string>, rows: seq<seq<nat>>)
    requires FairBlock(labels, rows)
    ensures |labels| == 6 && |rows| == 6 && forall i :: 0 <= i < 6 ==> IsRow(rows[i])
  {
    ShuffledRows(rows);
    ShuffledLabels(labels);
  }

  lemma {:induction false} ShapeAt(draw: Shuffles, total: nat, block: nat)
    requires Fair(draw, total) && block < total
    ensures |draw.labels| == |draw.rows| == total
    ensures |draw.labels[block]| == 6 && |draw.rows[block]| == 6
    ensures forall i :: 0 <= i < 6 ==> IsRow(draw.rows[block][i])
  {
    hide FairBlock;
    BlockShape(draw.labels[block], draw.rows[block]);
  }

  /** The rounds of the first `blocks` blocks. */
  ghost function Rounds(draw: Shuffles, total: nat, blocks: nat): seq<Round>
    requires Fair(draw, total) && blocks <= total
  {
    if blocks == 0 then []
    else
      hide Fair;
      ShapeAt(draw, total, blocks - 1);
      Rounds(draw, total, blocks - 1)
      + BlockRounds(6 * (blocks - 1), blocks - 1, draw.labels[blocks - 1], draw.rows[blocks - 1])
  }

  function Rotated(s: seq<string>, shift: nat): seq<string>
    requires shift <= |s|
  {
    s[shift..] + s[..shift]
  }

  /** Every contender moves `w` places to the front, those at the front to the end. */
  ghost predicate IsRotation(order: seq<string>, labels: seq<string>, w: nat) {
    |order| == 6 && |labels| == 6 && forall p :: 0 <= p < 6 ==> order[p] == labels[(w + p) % 6]
  }

  lemma {:induction false} RotatedIsRotation(labels: seq<string>, w: nat)
    requires |labels| == 6
    ensures IsRotation(Rotated(labels, w % 6), labels, w)
  {
    forall p | 0 <= p < 6 ensures Rotated(labels, w % 6)[p] == labels[(w + p) % 6] {
      assert (w + p) % 6 == (w % 6 + p) % 6;
    }
  }

  /** Any six warmups in a row have every contender in every position. */
  lemma {:induction false} WarmupsGoRound(
    warmups: seq<seq<string>>, labels: seq<string>, first: nat, c: string, position: nat) returns (w: nat)
    requires first + 6 <= |warmups| && position < 6 && Shuffled(CONTENDERS, labels) && c in CONTENDERS
    requires forall v :: 0 <= v < |warmups| ==> IsRotation(warmups[v], labels, v)
    ensures first <= w < first + 6 && |warmups[w]| == 6 && warmups[w][position] == c
  {
    var index := LabelIndex(labels, c);
    w := first + (index + 6 * (first + 6) - first - position) % 6;
    hide Shuffled, CONTENDERS, IsRotation;
    ComesToIndex(first, position, index, w);
    assert IsRotation(warmups[w], labels, w);
    RotationAt(warmups[w], labels, w, position);
  }

  lemma {:induction false} ComesToIndex(first: nat, position: nat, index: nat, w: nat)
    requires index < 6 && position < 6 && w == first + (index + 6 * (first + 6) - first - position) % 6
    ensures (w + position) % 6 == index
  {
  }

  lemma {:induction false} RotationAt(order: seq<string>, labels: seq<string>, w: nat, p: nat)
    requires IsRotation(order, labels, w) && p < 6
    ensures |order| == 6 && |labels| == 6 && order[p] == labels[(w + p) % 6]
  {
  }

  lemma {:induction false} RoundsStep(draw: Shuffles, total: nat, block: nat)
    requires Fair(draw, total) && block < total
    ensures |draw.rows[block]| == 6 && |draw.labels[block]| == 6
    ensures forall i :: 0 <= i < 6 ==> IsRow(draw.rows[block][i])
    ensures Rounds(draw, total, block + 1)
            == Rounds(draw, total, block) + BlockRounds(6 * block, block, draw.labels[block], draw.rows[block])
  {
    hide Fair;
    ShapeAt(draw, total, block);
  }

  lemma {:induction false} RoundsLength(draw: Shuffles, total: nat, blocks: nat)
    requires Fair(draw, total) && blocks <= total
    ensures |Rounds(draw, total, blocks)| == 6 * blocks
  {
    hide Fair, Rounds;
    if blocks > 0 {
      RoundsStep(draw, total, blocks - 1);
      RoundsLength(draw, total, blocks - 1);
    } else {
      FairWarmup(draw, total);
    }
  }

  lemma {:induction false} FairWarmup(draw: Shuffles, total: nat)
    requires Fair(draw, total)
    ensures |draw.labels| == |draw.rows| == total
    ensures Rounds(draw, total, 0) == []
  {
  }

  /** `round_plan`. */
  method MakePlan(samples: int, warmups: int, draw: Shuffles) returns (r: Result<Plan, PlanError>)
    requires samples >= 0 ==> Fair(draw, samples / 6)
    requires Shuffled(CONTENDERS, draw.warmup)
    ensures r == Err(TooFewWarmups) <==> warmups < 2
    ensures r == Err(BadSamples) <==> warmups >= 2 && (samples < 12 || samples % 6 != 0)
    ensures r.Ok? ==> r.value.rounds == Rounds(draw, samples / 6, samples / 6)
    ensures r.Ok? ==> |draw.warmup| == 6 && |r.value.warmups| == warmups
                      && forall w :: 0 <= w < warmups ==> IsRotation(r.value.warmups[w], draw.warmup, w)
  {
    hide CONTENDERS, WILLIAMS_ROWS, Shuffled, Fair, FairBlock, Rounds;
    if warmups < MIN_WARMUPS {
      return Err(TooFewWarmups);
    }
    if samples < MIN_SAMPLES || samples % 6 != 0 {
      return Err(BadSamples);
    }
    var rounds: seq<Round> := [];
    FairWarmup(draw, samples / 6);
    for block := 0 to samples / 6
      invariant rounds == Rounds(draw, samples / 6, block)
    {
      RoundsStep(draw, samples / 6, block);
      RoundsLength(draw, samples / 6, block);
      var labels, rows := draw.labels[block], draw.rows[block];
      ghost var before, added := rounds, BlockRounds(6 * block, block, labels, rows);
      for i := 0 to |rows|
        invariant rounds == before + added[..i]
      {
        assert added[..i + 1] == added[..i] + [added[i]];
        rounds := rounds + [Round(|rounds|, block, Order(labels, rows[i]))];
      }
      assert added[..|rows|] == added;
    }
    ShuffledLabels(draw.warmup);
    forall w | 0 <= w < warmups ensures IsRotation(Rotated(draw.warmup, w % 6), draw.warmup, w) {
      RotatedIsRotation(draw.warmup, w);
    }
    var order := seq(warmups, w requires 0 <= w < warmups => Rotated(draw.warmup, w % 6));
    return Ok(Plan(order, rounds));
  }

  /** Rounds are numbered from zero and blocks have six of them. */
  lemma {:induction false} RoundsAreNumbered(draw: Shuffles, total: nat, blocks: nat)
    requires Fair(draw, total) && blocks <= total
    ensures var rounds := Rounds(draw, total, blocks);
            |rounds| == 6 * blocks && forall i :: 0 <= i < |rounds| ==> rounds[i].id == i && rounds[i].block == i / 6
  {
    hide CONTENDERS, WILLIAMS_ROWS, Shuffled, Fair, Rounds;
    if blocks > 0 {
      RoundsStep(draw, total, blocks - 1);
      RoundsAreNumbered(draw, total, blocks - 1);
    } else {
      FairWarmup(draw, total);
    }
  }

  /******* Balance *******/

  /** Every index stands once in every column of the table. */
  lemma {:induction false} ColumnsAreBalanced(index: nat, position: nat)
    requires index < 6 && position < 6
    ensures Count((row: seq<nat>) => HasAt(row, position, index), WILLIAMS_ROWS) == 1
  {
    CountSix((row: seq<nat>) => HasAt(row, position, index), WILLIAMS_ROWS);
    hide Count;
  }

  predicate HasAt(row: seq<nat>, position: nat, index: nat) {
    |row| == 6 && position < 6 && row[position] == index
  }

  lemma {:induction false} CountSix<T(!new)>(test: T -> bool, s: seq<T>)
    requires |s| == 6
    ensures Count(test, s)
            == Bit(test(s[0])) + Bit(test(s[1])) + Bit(test(s[2])) + Bit(test(s[3])) + Bit(test(s[4])) + Bit(test(s[5]))
  {
    var t := s[3..];
    assert s[1..][1..] == s[2..] && s[2..][1..] == t && t[1..][1..] == s[5..] && s[5..][1..] == [];
    assert Count(test, s) == Bit(test(s[0])) + Count(test, s[1..]);
    assert Count(test, s[1..]) == Bit(test(s[1])) + Count(test, s[2..]);
    assert Count(test, s[2..]) == Bit(test(s[2])) + Count(test, t);
    assert Count(test, t) == Bit(test(s[3])) + Count(test, t[1..]);
    assert Count(test, t[1..]) == Bit(test(s[4])) + Count(test, s[5..]);
    assert Count(test, s[5..]) == Bit(test(s[5])) + Count(test, []);
  }

  function Bit(b: bool): nat {
    if b then 1 else 0
  }

  /** `b` comes right after `a`. */
  ghost predicate Follows<T>(order: seq<T>, a: T, b: T) {
    exists p :: 0 <= p < |order| - 1 && FollowsAt(order, p, a, b)
  }

  ghost predicate FollowsAt<T>(order: seq<T>, p: nat, a: T, b: T)
    requires p + 1 < |order|
  {
    order[p] == a && order[p + 1] == b
  }

  /** Whether row `i` of the table has the pair of code `6 * a + b`. */
  predicate RowHasPair(i: nat, n: nat) {
    if i == 0 then n == 1 || n == 11 || n == 32 || n == 16 || n == 27
    else if i == 1 then n == 8 || n == 12 || n == 3 || n == 23 || n == 34
    else if i == 2 then n == 15 || n == 19 || n == 10 || n == 24 || n == 5
    else if i == 3 then n == 22 || n == 26 || n == 17 || n == 31 || n == 6
    else if i == 4 then n == 29 || n == 33 || n == 18 || n == 2 || n == 13
    else n == 30 || n == 4 || n == 25 || n == 9 || n == 20
  }

  lemma {:induction false} RowPairs(i: nat, a: nat, b: nat)
    requires i < 6 && a < 6 && b < 6
    ensures Follows(WILLIAMS_ROWS[i], a, b) == RowHasPair(i, 6 * a + b)
  {
    hide Follows;
    FollowsIs(WILLIAMS_ROWS[i], a, b);
  }

  lemma {:induction false} OneRowHasPair(a: nat, b: nat)
    requires a < 6 && b < 6 && a != b
    ensures var n := 6 * a + b;
            Bit(RowHasPair(0, n)) + Bit(RowHasPair(1, n)) + Bit(RowHasPair(2, n)) + Bit(RowHasPair(3, n))
            + Bit(RowHasPair(4, n)) + Bit(RowHasPair(5, n)) == 1
  {
  }

  /** Every ordered pair of different indices is adjacent in exactly one row of the table. */
  lemma {:induction false} PairsAreBalanced(a: nat, b: nat)
    requires a < 6 && b < 6 && a != b
    ensures Count((row: seq<nat>) => Follows(row, a, b), WILLIAMS_ROWS) == 1
  {
    var test := (row: seq<nat>) => Follows(row, a, b);
    assert |WILLIAMS_ROWS| == 6;
    hide Follows, Count, WILLIAMS_ROWS, RowHasPair;
    CountSix(test, WILLIAMS_ROWS);
    RowPairs(0, a, b);
    RowPairs(1, a, b);
    RowPairs(2, a, b);
    RowPairs(3, a, b);
    RowPairs(4, a, b);
    RowPairs(5, a, b);
    OneRowHasPair(a, b);
  }

  ghost predicate FollowsSix(row: seq<nat>, a: nat, b: nat)
    requires |row| == 6
  {
    FollowsAt(row, 0, a, b) || FollowsAt(row, 1, a, b) || FollowsAt(row, 2, a, b) || FollowsAt(row, 3, a, b)
    || FollowsAt(row, 4, a, b)
  }

  lemma {:induction false} FollowsIs(row: seq<nat>, a: nat, b: nat)
    requires |row| == 6
    ensures Follows(row, a, b) == FollowsSix(row, a, b)
  {
  }

  /** A shuffle of the contenders names each of them once. */
  lemma {:induction false} LabelIndex(labels: seq<string>, c: string) returns (index: nat)
    requires Shuffled(CONTENDERS, labels) && c in CONTENDERS
    ensures |labels| == 6 && index < 6
    ensures forall j :: 0 <= j < 6 ==> (labels[j] == c <==> j == index)
  {
    ShuffledLabels(labels);
    assert c in multiset(labels);
    index :| 0 <= index < 6 && labels[index] == c;
    forall j | 0 <= j < 6 && labels[j] == c ensures j == index {
      OnlyOnce(labels, c, index, j);
    }
  }

  lemma {:induction false} OnlyOnce(labels: seq<string>, c: string, i: nat, j: nat)
    requires Shuffled(CONTENDERS, labels) && c in CONTENDERS
    requires i < |labels| && j < |labels| && labels[i] == c == labels[j]
    ensures i == j
  {
    if i != j {
      var rest := labels[..i] + labels[i + 1..];
      assert labels == labels[..i] + [labels[i]] + labels[i + 1..];
      assert rest[if j < i then j else j - 1] == c;
      assert multiset(labels)[c] >= 2;
      ContendersDiffer(c);
      assert false;
    }
  }

  lemma {:induction false} ContendersDiffer(c: string)
    requires c in CONTENDERS
    ensures multiset(CONTENDERS)[c] == 1
  {
    var lengths := [3, 3, 4, 4, 8, 9];
    assert forall i :: 0 <= i < 6 ==> |CONTENDERS[i]| == lengths[i];
    assert CONTENDERS[0][0] == 'b' && CONTENDERS[1][0] == 'l' && CONTENDERS[2][0] == 'm' && CONTENDERS[3][0] == 'w';
    CountedOnce(CONTENDERS, c);
  }

  lemma {:induction false} CountedOnce<T>(s: seq<T>, x: T)
    requires x in s && forall i, j :: 0 <= i < j < |s| ==> s[i] != s[j]
    ensures multiset(s)[x] == 1
  {
    var i :| 0 <= i < |s| && s[i] == x;
    assert s == s[..i] + [s[i]] + s[i + 1..];
    assert x !in s[..i] && x !in s[i + 1..];
    assert multiset(s) == multiset(s[..i]) + multiset([x]) + multiset(s[i + 1..]);
  }

  predicate StandsAt(r: Round, position: nat, c: string) {
    |r.order| == 6 && position < 6 && r.order[position] == c
  }

  /** One block has every contender once in every position. */
  lemma {:induction false} BlockPositions(first: nat, block: nat, labels: seq<string>, rows: seq<seq<nat>>,
    c: string, position: nat)
    requires Shuffled(CONTENDERS, labels) && Shuffled(WILLIAMS_ROWS, rows) && c in CONTENDERS && position < 6
    requires |labels| == 6 && forall i :: 0 <= i < |rows| ==> IsRow(rows[i])
    ensures Count((r: Round) => StandsAt(r, position, c), BlockRounds(first, block, labels, rows)) == 1
  {
    var index := LabelIndex(labels, c);
    var test := (row: seq<nat>) => HasAt(row, position, index);
    hide Count, CONTENDERS, WILLIAMS_ROWS, Shuffled, HasAt, StandsAt;
    var rounds := BlockRounds(first, block, labels, rows);
    forall k | 0 <= k < |rows| ensures StandsAt(rounds[k], position, c) == test(rows[k]) {
      StandsRenamed(labels, rows[k], rounds[k], position, c, index);
    }
    CountMapped((r: Round) => StandsAt(r, position, c), rounds, test, rows);
    CountShuffled(test, WILLIAMS_ROWS, rows);
    ColumnsAreBalanced(index, position);
  }

  lemma {:induction false} StandsRenamed(labels: seq<string>, row: seq<nat>, r: Round, position: nat,
    c: string, index: nat)
    requires |labels| == 6 && IsRow(row) && r.order == Order(labels, row) && position < 6
    requires forall k :: 0 <= k < 6 ==> (labels[k] == c <==> k == index)
    ensures StandsAt(r, position, c) == HasAt(row, position, index)
  {
  }

  /** One block has every ordered pair of contenders adjacent once. */
  lemma {:induction false} BlockPairs(first: nat, block: nat, labels: seq<string>, rows: seq<seq<nat>>,
    a: string, b: string)
    requires Shuffled(CONTENDERS, labels) && Shuffled(WILLIAMS_ROWS, rows)
    requires a in CONTENDERS && b in CONTENDERS && a != b
    requires |labels| == 6 && forall i :: 0 <= i < |rows| ==> IsRow(rows[i])
    ensures Count((r: Round) => Follows(r.order, a, b), BlockRounds(first, block, labels, rows)) == 1
  {
    var i := LabelIndex(labels, a);
    var j := LabelIndex(labels, b);
    var test := (row: seq<nat>) => Follows(row, i, j);
    hide Count, Follows, CONTENDERS, WILLIAMS_ROWS, Shuffled;
    var rounds := BlockRounds(first, block, labels, rows);
    forall k | 0 <= k < |rows| ensures Follows(rounds[k].order, a, b) == test(rows[k]) {
      FollowsRenamed(labels, rows[k], a, b, i, j);
    }
    CountMapped((r: Round) => Follows(r.order, a, b), rounds, test, rows);
    CountShuffled(test, WILLIAMS_ROWS, rows);
    assert labels[i] == a && labels[j] == b;
    PairsAreBalanced(i, j);
  }

  lemma {:induction false} FollowsRenamed(labels: seq<string>, row: seq<nat>, a: string, b: string, i: nat, j: nat)
    requires |labels| == 6 && IsRow(row)
    requires forall k :: 0 <= k < 6 ==> (labels[k] == a <==> k == i) && (labels[k] == b <==> k == j)
    ensures Follows(Order(labels, row), a, b) == Follows(row, i, j)
  {
    var order := Order(labels, row);
    forall p: nat | p < 5 ensures FollowsAt(order, p, a, b) == FollowsAt(row, p, i, j) {
    }
  }

  lemma {:induction false} FairAt(draw: Shuffles, total: nat, block: nat)
    requires Fair(draw, total) && block < total
    ensures |draw.labels| == |draw.rows| == total
    ensures Shuffled(CONTENDERS, draw.labels[block]) && Shuffled(WILLIAMS_ROWS, draw.rows[block])
  {
  }

  /** Whatever the shuffles, over `6 * k` rounds every contender stands in every position `k` times. */
  lemma {:induction false} PositionsAreBalanced(draw: Shuffles, total: nat, k: nat, c: string, position: nat)
    requires Fair(draw, total) && k <= total && c in CONTENDERS && position < 6
    ensures Count((r: Round) => StandsAt(r, position, c), Rounds(draw, total, k)) == k
  {
    hide CONTENDERS, WILLIAMS_ROWS, Shuffled, Fair, Rounds, StandsAt;
    var test := (r: Round) => StandsAt(r, position, c);
    if k > 0 {
      FairWarmup(draw, total);
      var labels, rows := draw.labels[k - 1], draw.rows[k - 1];
      RoundsStep(draw, total, k - 1);
      FairAt(draw, total, k - 1);
      PositionsAreBalanced(draw, total, k - 1, c, position);
      BlockPositions(6 * (k - 1), k - 1, labels, rows, c, position);
      CountAppend(test, Rounds(draw, total, k - 1), BlockRounds(6 * (k - 1), k - 1, labels, rows));
    } else {
      FairWarmup(draw, total);
    }
  }

  /** And every ordered pair of different contenders is adjacent `k` times. */
  lemma {:induction false} AdjacenciesAreBalanced(draw: Shuffles, total: nat, k: nat, a: string, b: string)
    requires Fair(draw, total) && k <= total && a in CONTENDERS && b in CONTENDERS && a != b
    ensures Count((r: Round) => Follows(r.order, a, b), Rounds(draw, total, k)) == k
  {
    hide CONTENDERS, WILLIAMS_ROWS, Shuffled, Fair, Rounds, Follows;
    var test := (r: Round) => Follows(r.order, a, b);
    if k > 0 {
      FairWarmup(draw, total);
      var labels, rows := draw.labels[k - 1], draw.rows[k - 1];
      RoundsStep(draw, total, k - 1);
      FairAt(draw, total, k - 1);
      AdjacenciesAreBalanced(draw, total, k - 1, a, b);
      BlockPairs(6 * (k - 1), k - 1, labels, rows, a, b);
      CountAppend(test, Rounds(draw, total, k - 1), BlockRounds(6 * (k - 1), k - 1, labels, rows));
    } else {
      FairWarmup(draw, total);
    }
  }

  /** Each round runs every contender exactly once. */
  lemma {:induction false} EachContenderOnce(draw: Shuffles, total: nat, k: nat, c: string)
    requires Fair(draw, total) && k <= total && c in CONTENDERS
    ensures forall r :: r in Rounds(draw, total, k) ==> |r.order| == 6 && OccursOnce(r.order, c)
  {
    hide CONTENDERS, WILLIAMS_ROWS, Shuffled, Fair, Rounds, OccursOnce;
    if k > 0 {
      RoundsStep(draw, total, k - 1);
      FairAt(draw, total, k - 1);
      EachContenderOnce(draw, total, k - 1, c);
      var labels, rows := draw.labels[k - 1], draw.rows[k - 1];
      var index := LabelIndex(labels, c);
      forall i | 0 <= i < 6 ensures OccursOnce(Order(labels, rows[i]), c) {
        ShuffledRow(rows, i);
        RowHasIndexOnce(rows[i], index);
        OccursRenamed(labels, rows[i], c, index);
      }
    } else {
      FairWarmup(draw, total);
    }
  }

  ghost predicate OccursOnce<T>(s: seq<T>, x: T) {
    exists p :: 0 <= p < |s| && s[p] == x && forall q :: 0 <= q < |s| && s[q] == x ==> q == p
  }

  lemma {:induction false} OccursRenamed(labels: seq<string>, row: seq<nat>, c: string, index: nat)
    requires |labels| == 6 && IsRow(row) && OccursOnce(row, index)
    requires forall j :: 0 <= j < 6 ==> (labels[j] == c <==> j == index)
    ensures OccursOnce(Order(labels, row), c)
  {
    var p :| 0 <= p < 6 && row[p] == index && forall q :: 0 <= q < 6 && row[q] == index ==> q == p;
    assert Order(labels, row)[p] == c;
  }

  lemma {:induction false} ShuffledRow(rows: seq<seq<nat>>, i: nat)
    requires Shuffled(WILLIAMS_ROWS, rows) && i < |rows|
    ensures rows[i] in WILLIAMS_ROWS
  {
    hide WILLIAMS_ROWS;
    assert rows[i] in multiset(rows);
  }

  lemma {:induction false} RowHasIndexOnce(row: seq<nat>, index: nat)
    requires row in WILLIAMS_ROWS && index < 6
    ensures |row| == 6 && OccursOnce(row, index)
  {
    var i :| 0 <= i < 6 && WILLIAMS_ROWS[i] == row;
    var p := PlaceOf(i, index);
    RowPlaces(i);
    hide WILLIAMS_ROWS, PlaceOf;
    assert row[p] == index;
  }

  /** Where index `x` stands in row `i` of the table. */
  function PlaceOf(i: nat, x: nat): (p: nat)
    requires i < 6 && x < 6
    ensures p < 6
  {
    if i == 0 then [0, 1, 3, 5, 4, 2][x]
    else if i == 1 then [2, 0, 1, 3, 5, 4][x]
    else if i == 2 then [4, 2, 0, 1, 3, 5][x]
    else if i == 3 then [5, 4, 2, 0, 1, 3][x]
    else if i == 4 then [3, 5, 4, 2, 0, 1][x]
    else [1, 3, 5, 4, 2, 0][x]
  }

  lemma {:induction false} RowPlaces(i: nat)
    requires i < 6
    ensures forall x, p :: 0 <= x < 6 && 0 <= p < 6 ==> (WILLIAMS_ROWS[i][p] == x <==> p == PlaceOf(i, x))
  {
  }
}
