/**
 Fee statistics: a rolling average over the last values, with a sum that wraps at 2^64,
 and an ordered set that makes room by dropping its smallest value. The `history` of
 each object lists, for the proof only, all values ever added.
 */
module FeeMetrics {
  import opened Bytes
  import opened Sums

  // ---- rolling average ----

  /** The last `n` values, as if `n` zeros had come before all of them. */
  function LastValues(history: seq<u64>, n: nat): (r: seq<u64>)
    ensures |r| == n
  {
    (seq(n, _ => 0) + history)[|history|..]
  }

  lemma LastValuesMove(history: seq<u64>, n: nat, v: u64)
    requires n > 0
    ensures LastValues(history + [v], n) == LastValues(history, n)[1..] + [v]
  {
    var padded := seq(n, _ => 0) + history;
    assert seq(n, _ => 0) + (history + [v]) == padded + [v];
    assert (padded + [v])[|history| + 1..] == padded[|history|..][1..] + [v];
  }

  lemma SumMove(s: seq<u64>, v: u64)
    requires |s| > 0
    ensures Sum(s[1..] + [v]) == Sum(s) - s[0] + v
  {
    SumWithoutFirst(s, |s|);
    var t := s[1..] + [v];
    assert t[..|s| - 1] == s[1..][..|s| - 1];
    SumPrefix(t, s[1..], |s| - 1);
  }

  function WrappingSub(a: u64, b: u64): u64 {
    (a + U64_MOD - b) % U64_MOD
  }

  function WrappingAdd(a: u64, b: u64): u64 {
    (a + b) % U64_MOD
  }

  lemma WrappedSumMoves(total: nat, first: u64, v: u64)
    requires first <= total
    ensures WrappingAdd(WrappingSub(total % U64_MOD, first), v) == (total - first + v) % U64_MOD
  {
  }

  /** Overwriting the oldest value of a ring and stepping on moves the ring's window. */
  lemma RingMoves(b: seq<u64>, i: nat, v: u64, i': nat)
    requires i < |b| && i' == (i + 1) % |b|
    ensures var c := b[i := v]; c[i'..] + c[..i'] == (b[i..] + b[..i])[1..] + [v]
  {
    var c := b[i := v];
    assert (b[i..] + b[..i])[1..] == b[i + 1..] + b[..i];
    if i + 1 < |b| {
      assert i' == i + 1;
      assert c[..i + 1] == b[..i] + [v];
      assert c[i + 1..] == b[i + 1..];
    } else {
      assert i' == 0;
      assert b[i + 1..] == [];
      assert c == b[..i] + [v];
    }
  }

  class RollingAverage {
    const buffer: array<u64>
    var index: nat
    var sum: u64
    ghost var history: seq<u64>

    /** The values in the buffer, oldest first. */
    ghost function Window(): seq<u64>
      requires index <= buffer.Length
      reads this, buffer
    {
      buffer[index..] + buffer[..index]
    }

    ghost predicate Valid()
      reads this, buffer
    {
      && index < buffer.Length
      && Window() == LastValues(history, buffer.Length)
      && sum == Sum(LastValues(history, buffer.Length)) % U64_MOD
    }

    constructor (size: nat)
      requires size > 0
      ensures Valid() && history == [] && buffer.Length == size && fresh(buffer)
    {
      buffer := new u64[size](_ => 0);
      index, sum, history := 0, 0, [];
      new;
      assert Window() == seq(size, _ => 0) == LastValues([], size);
      ZeroSum(size, size);
    }

    /** The window moves on by one value, and the wrapped sum with it. */
    method Add(value: u64)
      requires Valid()
      modifies this, buffer
      ensures Valid() && history == old(history) + [value]
    {
      ghost var b, i := buffer[..], index;
      ghost var window := b[i..] + b[..i];
      assert Window() == window && window[0] == buffer[index];
      PartOfSum(window, 0, |window|);
      WrappedSumMoves(Sum(window), window[0], value);
      LastValuesMove(history, buffer.Length, value);
      SumMove(window, value);
      RingMoves(b, i, value, (i + 1) % |b|);
      sum := WrappingSub(sum, buffer[index]);
      buffer[index] := value;
      sum := WrappingAdd(sum, value);
      index := (index + 1) % buffer.Length;
      history := history + [value];
      assert buffer[..] == b[i := value];
      assert Window() == buffer[..][index..] + buffer[..][..index];
    }

    /** The average of the last values, exact as long as their sum stays below 2^64. */
    method GetAverage() returns (r: nat)
      requires Valid()
      ensures var total := Sum(LastValues(history, buffer.Length));
        && r == total % U64_MOD / buffer.Length
        && (total < U64_MOD ==> r == total / buffer.Length)
    {
      return sum / buffer.Length;
    }
  }

  lemma {:induction false} ZeroSum(size: nat, n: nat)
    requires n <= size
    ensures SumTo(LastValues([], size), n) == 0
  {
    if n == 0 {
    } else {
      ZeroSum(size, n - 1);
    }
  }

  // ---- percentile set ----

  ghost predicate Increasing(s: seq<u64>) {
    forall i, j :: 0 <= i < j < |s| ==> s[i] < s[j]
  }

  /** How many values of an ordered row, from `i` on, come before `v`. */
  function Position(s: seq<u64>, v: u64, i: nat): (p: nat)
    requires i <= |s|
    ensures i <= p <= |s|
    ensures forall j :: i <= j < p ==> s[j] < v
    ensures p < |s| ==> s[p] >= v
    decreases |s| - i
  {
    if i == |s| || s[i] >= v then i else Position(s, v, i + 1)
  }

  /** Insertion into an ordered set, listed in order. */
  function Insert(s: seq<u64>, v: u64): seq<u64> {
    var p := Position(s, v, 0);
    if p < |s| && s[p] == v then s else s[..p] + [v] + s[p..]
  }

  lemma InsertInOrder(s: seq<u64>, v: u64)
    requires Increasing(s)
    ensures Increasing(Insert(s, v))
  {
    var p, t := Position(s, v, 0), Insert(s, v);
    if !(p < |s| && s[p] == v) {
      assert forall j :: 0 <= j < |t| ==> t[j] == if j < p then s[j] else if j == p then v else s[j - 1];
    }
  }

  lemma InsertSize(s: seq<u64>, v: u64)
    requires Increasing(s)
    ensures |Insert(s, v)| == |s| + if v in s then 0 else 1
  {
    var p := Position(s, v, 0);
    if v in s {
      var j :| 0 <= j < |s| && s[j] == v;
      assert j >= p;
    }
  }

  lemma InsertMembers(s: seq<u64>, v: u64, x: u64)
    ensures x in Insert(s, v) <==> x in s || x == v
  {
    var p := Position(s, v, 0);
    if !(p < |s| && s[p] == v) {
      assert s == s[..p] + s[p..];
    }
  }

  /** The last `m` values are all above `x`. */
  ghost predicate TopAbove(s: seq<u64>, m: int, x: u64) {
    m <= |s| && forall j :: 0 <= j && |s| - m <= j < |s| ==> s[j] > x
  }

  lemma InsertKeepsTop(s: seq<u64>, v: u64, m: int, x: u64)
    requires Increasing(s) && TopAbove(s, m, x)
    ensures TopAbove(Insert(s, v), m, x)
  {
    var p, t := Position(s, v, 0), Insert(s, v);
    if !(p < |s| && s[p] == v) {
      forall j | 0 <= j && |t| - m <= j < |t|
        ensures t[j] > x
      {
        if j > p {
          assert t[j] == s[j - 1];
        } else if j < p {
          assert t[j] == s[j];
        } else {
          assert t[j] == v && p > 0 ==> s[p - 1] < v;
        }
      }
    }
  }

  /** What was dropped is below the `capacity - 1` largest values that are left. */
  ghost predicate Keeps(data: seq<u64>, history: set<u64>, capacity: nat) {
    && Increasing(data)
    && (forall x :: x in data ==> x in history)
    && (forall x :: x in history && x !in data ==> capacity > 0 && TopAbove(data, capacity - 1, x))
    && (capacity > 0 ==> |data| <= capacity)
  }

  /** What is left of a set that has to make room. */
  function Rest(data: seq<u64>, capacity: nat): seq<u64> {
    if |data| == capacity && capacity > 0 then data[1..] else data
  }

  lemma RestKeeps(data: seq<u64>, history: set<u64>, capacity: nat)
    requires Keeps(data, history, capacity)
    ensures Increasing(Rest(data, capacity)) && forall x :: x in Rest(data, capacity) ==> x in history
    ensures forall x :: x in history && x !in Rest(data, capacity) ==>
      capacity > 0 && TopAbove(Rest(data, capacity), capacity - 1, x)
  {
    forall x | x in history && x !in Rest(data, capacity)
      ensures capacity > 0 && TopAbove(Rest(data, capacity), capacity - 1, x)
    {
      if x in data {
        assert x == data[0];
      }
    }
  }

  lemma AddKeeps(data: seq<u64>, history: set<u64>, capacity: nat, value: u64)
    requires Keeps(data, history, capacity)
    ensures Keeps(Insert(Rest(data, capacity), value), history + {value}, capacity)
    ensures value in Insert(Rest(data, capacity), value)
  {
    var rest := Rest(data, capacity);
    var data' := Insert(rest, value);
    RestKeeps(data, history, capacity);
    InsertInOrder(rest, value);
    InsertSize(rest, value);
    forall x: u64
      ensures x in data' <==> x in rest || x == value
    {
      InsertMembers(rest, value, x);
    }
    forall x | x in history && x !in data'
      ensures capacity > 0 && TopAbove(data', capacity - 1, x)
    {
      InsertKeepsTop(rest, value, capacity - 1, x);
    }
  }

  class Percentile {
    var data: seq<u64>
    const capacity: nat
    ghost var history: set<u64>

    ghost predicate Valid()
      reads this
    {
      Keeps(data, history, capacity)
    }

    constructor (capacity: nat)
      ensures Valid() && data == [] && history == {} && this.capacity == capacity
    {
      data, this.capacity, history := [], capacity, {};
    }

    /** The smallest value makes room, even when the new value is in the set already. */
    method Add(value: u64)
      requires Valid()
      modifies this
      ensures Valid() && history == old(history) + {value}
      ensures value in data
      ensures |old(data)| == capacity > 0 ==> (|data| == capacity <==> value !in old(data)[1..])
      ensures data == Insert(Rest(old(data), capacity), value)
    {
      AddKeeps(data, history, capacity, value);
      if |data| == capacity {
        if |data| > 0 {
          data := data[1..];
        }
      }
      InsertSize(data, value);
      data := Insert(data, value);
      history := history + {value};
    }

    /** `get_percentile`, with exact arithmetic for the position. */
    method GetPercentile(percentile: real) returns (r: Option<u64>)
      ensures r.Some? <==> data != [] && percentile * (|data| - 1) as real < 100.0 * (|data| - 1) as real + 50.0
      ensures r.Some? && percentile >= 0.0 ==>
        exists k :: 0 <= k < |data| && r == Some(data[k]) && IsNearest(k, percentile, |data| - 1)
      ensures r.Some? && (percentile <= 0.0 || |data| == 1) ==> r == Some(data[0])
      ensures data != [] && percentile == 100.0 ==> r == Some(data[|data| - 1])
    {
      if |data| == 0 {
        return None;
      }
      var k := RankOf(percentile, |data|);
      RankIs(percentile, |data|, k);
      RankInRange(percentile, |data|);
      RankOfEnds(|data|);
      return if k < |data| then Some(data[k]) else None;
    }
  }

  /** Rounding half away from zero, and then the conversion to an unsigned number, which stops at zero. */
  function RoundToNat(x: real): nat {
    if x < 0.0 then 0 else (x + 0.5).Floor
  }

  /** The position of a percentile among `n` values. */
  function RankOf(percentile: real, n: nat): nat
    requires n > 0
  {
    RoundToNat(Scaled(percentile / 100.0, n as real - 1.0))
  }

  /** A share of the other values. */
  function Scaled(share: real, others: real): real {
    share * others
  }

  lemma ScaleMonotone(a: real, b: real, c: real)
    requires a <= b && c >= 0.0
    ensures Scaled(a, c) <= Scaled(b, c)
  {
  }

  lemma ScaleBounds(q: real, c: real)
    requires c >= 0.0
    ensures q <= 1.0 ==> Scaled(q, c) <= c
    ensures q >= 0.0 ==> Scaled(q, c) >= 0.0
  {
    if q <= 1.0 {
      ScaleMonotone(q, 1.0, c);
    }
    if 0.0 <= q {
      ScaleMonotone(0.0, q, c);
    }
  }

  /** Rounding does not go past a whole number before the half behind it. */
  lemma RoundStays(x: real, m: nat)
    ensures RoundToNat(x) <= m <==> x < m as real + 0.5
  {
  }

  lemma RoundMonotone(x: real, y: real)
    requires x <= y
    ensures RoundToNat(x) <= RoundToNat(y)
  {
  }

  /** `k` is `percentile` hundredths of `others`, rounded to the nearest whole number and halves upwards. */
  predicate IsNearest(k: int, percentile: real, others: int) {
    -50.0 < 100.0 * k as real - percentile * others as real <= 50.0
  }

  /** The position of a percentile is the nearest to its share of the other values, and no other number is. */
  lemma RankIs(p: real, n: nat, k: nat)
    requires n > 0
    ensures p >= 0.0 ==> (RankOf(p, n) == k <==> IsNearest(k, p, n - 1))
    ensures p <= 0.0 ==> RankOf(p, n) == 0
  {
    var c := (n - 1) as real;
    var x := Scaled(p / 100.0, c);
    assert n as real - 1.0 == c;
    HundredTimes(p, c, x);
    ScaleBounds(p / 100.0, c);
    if p <= 0.0 {
      ScaleMonotone(p / 100.0, 0.0, c);
    }
    NearestIs(x, k, p, n - 1);
  }

  lemma HundredTimes(p: real, c: real, x: real)
    requires x == Scaled(p / 100.0, c)
    ensures 100.0 * x == p * c
  {
  }

  lemma NearestIs(x: real, k: nat, p: real, others: nat)
    requires 100.0 * x == p * others as real
    ensures x >= 0.0 ==> (RoundToNat(x) == k <==> IsNearest(k, p, others))
    ensures x <= 0.0 ==> RoundToNat(x) == 0
  {
  }

  /** There is a value at that position for percentiles up to 100, and up to half a position above. */
  lemma RankInRange(p: real, n: nat)
    requires n > 0
    ensures RankOf(p, n) < n <==> p * (n - 1) as real < 100.0 * (n - 1) as real + 50.0
    ensures p <= 100.0 ==> RankOf(p, n) < n
  {
    var c := (n - 1) as real;
    var x := Scaled(p / 100.0, c);
    assert n as real - 1.0 == c;
    HundredTimes(p, c, x);
    ScaleBounds(p / 100.0, c);
    RoundStays(x, n - 1);
  }

  /** The lowest percentile is the smallest value and the highest the largest. */
  lemma RankOfEnds(n: nat)
    requires n > 0
    ensures RankOf(0.0, n) == 0 && RankOf(100.0, n) == n - 1
  {
    RankIs(0.0, n, 0);
    RankIs(100.0, n, n - 1);
  }

  /** Higher percentiles are no smaller. */
  lemma PercentileIsMonotone(p: real, q: real, data: seq<u64>)
    requires Increasing(data) && data != [] && p <= q <= 100.0
    ensures RankOf(p, |data|) <= RankOf(q, |data|) < |data|
    ensures data[RankOf(p, |data|)] <= data[RankOf(q, |data|)]
  {
    var c := |data| as real - 1.0;
    RankInRange(q, |data|);
    ScaleMonotone(p / 100.0, q / 100.0, c);
    RoundMonotone(Scaled(p / 100.0, c), Scaled(q / 100.0, c));
  }

  // ---- what the set keeps over any run ----

  function Above(history: set<u64>, x: u64): set<u64> {
    set y | y in history && y > x
  }

  function Members(s: seq<u64>): set<u64> {
    set x | x in s
  }

  lemma {:induction false} SizeOfMembers(s: seq<u64>)
    requires Increasing(s)
    ensures |Members(s)| == |s|
  {
    if s == [] {
    } else {
      var front, last := s[..|s| - 1], s[|s| - 1];
      SizeOfMembers(front);
      assert s == front + [last];
      assert Members(s) == Members(front) + {last};
    }
  }

  lemma SubsetSize<T>(a: set<T>, b: set<T>)
    requires a <= b
    ensures |a| <= |b|
  {
    assert b == a + (b - a);
  }

  /** A value with fewer than `capacity - 1` larger ones among all ever added is in the set. */
  lemma LargestAreKept(p: Percentile, x: u64)
    requires p.Valid() && p.capacity > 0
    requires x in p.history && |Above(p.history, x)| < p.capacity - 1
    ensures x in p.data
  {
    if x !in p.data {
      var top := p.data[|p.data| - (p.capacity - 1)..];
      SizeOfMembers(top);
      assert Members(top) <= Above(p.history, x);
      SubsetSize(Members(top), Above(p.history, x));
    }
  }

  /** The set is nearly as full as it can be: at most one short. */
  lemma SetIsFull(p: Percentile)
    requires p.Valid()
    ensures |p.data| >= |p.history| || |p.data| >= p.capacity - 1
    ensures p.capacity == 0 ==> forall x :: x in p.history ==> x in p.data
  {
    if forall x :: x in p.history ==> x in p.data {
      SizeOfMembers(p.data);
      assert p.history <= Members(p.data);
      SubsetSize(p.history, Members(p.data));
    }
  }

  // ---- both together ----

  class FeeMetrics {
    const rollingAverage: RollingAverage
    const percentile: Percentile

    ghost predicate Valid()
      reads this, rollingAverage, rollingAverage.buffer, percentile
    {
      rollingAverage.Valid() && percentile.Valid()
    }

    constructor (size: nat, capacity: nat)
      requires size > 0
      ensures Valid() && rollingAverage.history == [] && percentile.history == {}
      ensures percentile.capacity == capacity && rollingAverage.buffer.Length == size
    {
      rollingAverage := new RollingAverage(size);
      percentile := new Percentile(capacity);
    }

    method AddFee(fee: u64)
      requires Valid()
      modifies rollingAverage, rollingAverage.buffer, percentile
      ensures Valid()
      ensures rollingAverage.history == old(rollingAverage.history) + [fee]
      ensures percentile.history == old(percentile.history) + {fee} && fee in percentile.data
    {
      rollingAverage.Add(fee);
      percentile.Add(fee);
    }
  }
}
