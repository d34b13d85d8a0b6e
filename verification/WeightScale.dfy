/** The constants behind the weights, and the room they leave in 64 bits. */
module WeightScale {
  const INT64_MAX: int := 0x7FFF_FFFF_FFFF_FFFF
  const INITIAL_WEIGHT_TREE_SIZE: int := 128
  const RECV_QUEUE_SIZE: int := 128
  const DEFAULT_QPS: int := 1
  const WEIGHT_SCALE: int := INT64_MAX / 72000000 / (INITIAL_WEIGHT_TREE_SIZE - 1)
  const MIN_WEIGHT: int := 1000
  const PUNISH_INFLIGHT_RATIO: int := 1   // an int64_t initialised from 1.5

  /** The largest scaled QPS: a full window inside one microsecond. */
  const MAX_WEIGHT: int := (RECV_QUEUE_SIZE - 1) * 1000000 * WEIGHT_SCALE

  /** The number of servers whose weights are sure to fit a 64-bit sum. */
  const MAX_SERVERS: nat := 72

  const TWO_64: int := 0x1_0000_0000_0000_0000

  /** The weight a new server starts with: the scale, or the average of those already there. The number of
      servers is unsigned, so a negative total is divided as an unsigned 64-bit number. */
  function InitialWeight(total: int, n: nat): int {
    if n == 0 then WEIGHT_SCALE
    else if total >= 0 || n == 1 then total / n
    else (total + TWO_64) / n
  }

  predicate FitsInt64(x: int) {
    -INT64_MAX - 1 <= x <= INT64_MAX
  }

  lemma SumOfWeightsFits(n: nat, sum: int)
    requires n <= MAX_SERVERS && 0 <= sum <= n * MAX_WEIGHT
    ensures FitsInt64(sum)
  {
    assert n * MAX_WEIGHT <= MAX_SERVERS * MAX_WEIGHT by {
      MulMonotone(n, MAX_SERVERS, MAX_WEIGHT);
    }
  }

  /** 72 is the largest number of servers for which that holds. */
  lemma MaxServersIsTight(n: nat)
    ensures FitsInt64(n * MAX_WEIGHT) <==> n <= MAX_SERVERS
  {
    assert (MAX_SERVERS + 1) * MAX_WEIGHT > INT64_MAX;
    MulMonotone(0, n, MAX_WEIGHT);
    if n <= MAX_SERVERS {
      SumOfWeightsFits(n, n * MAX_WEIGHT);
    } else {
      MulMonotone(MAX_SERVERS + 1, n, MAX_WEIGHT);
    }
  }

  lemma MulMonotone(a: int, b: int, m: int)
    requires a <= b && 0 <= m
    ensures a * m <= b * m
  {
  }

  lemma QuotientWithin(sum: int, n: int, lo: int, hi: int)
    requires n > 0 && n * lo <= sum <= n * hi
    ensures lo <= sum / n <= hi
  {
    var q := sum / n;
    if q < lo {
      MulMonotone(q + 1, lo, n);
    } else if q > hi {
      MulMonotone(hi + 1, q, n);
    }
  }

  lemma AverageOfSame(n: nat, w: nat)
    requires n > 0
    ensures InitialWeight(n * w, n) == w
  {
    MulMonotone(0, n, w);
    QuotientWithin(n * w, n, w, w);
  }
}
