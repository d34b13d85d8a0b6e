/** The weight of one server: feedback, inflight accounting and the bookkeeping for Remove. */
module Weights {
  import opened Options
  import opened WeightScale
  import opened BoundedQueues
  import opened LatencyWindow

  /** Division as C++ does it on signed integers. */
  function TruncDiv(a: int, b: int): int
    requires b != 0
  {
    var q := (if a < 0 then -a else a) / (if b < 0 then -b else b);
    if (a < 0) == (b < 0) then q else -q
  }

  /** It rounds towards zero: what is left over is smaller than the divisor and has the sign of `a`. */
  lemma TruncDivLaw(a: int, b: int)
    requires b != 0
    ensures var rest := a - TruncDiv(a, b) * b;
            && (a >= 0 ==> 0 <= rest < if b < 0 then -b else b)
            && (a <= 0 ==> 0 <= -rest < if b < 0 then -b else b)
  {
    var x, y := if a < 0 then -a else a, if b < 0 then -b else b;
    QuotientLaw(x, y);
    SignedRest(a, b, x / y, TruncDiv(a, b));
  }

  lemma SignedRest(a: int, b: int, q: int, t: int)
    requires b != 0 && t == if (a < 0) == (b < 0) then q else -q
    requires var x, y := if a < 0 then -a else a, if b < 0 then -b else b; q * y <= x < q * y + y
    ensures var rest := a - t * b;
            && (a >= 0 ==> 0 <= rest < if b < 0 then -b else b)
            && (a <= 0 ==> 0 <= -rest < if b < 0 then -b else b)
  {
    var y := if b < 0 then -b else b;
    assert t * b == if a < 0 then -(q * y) else q * y by {
      Signs(q, b);
    }
  }

  lemma Signs(q: int, b: int)
    ensures q * -b == -(q * b) && -q * b == -(q * b) && -q * -b == q * b
  {
  }

  lemma QuotientLaw(a: int, b: int)
    requires b > 0
    ensures a / b * b <= a < (a / b + 1) * b && (a / b + 1) * b == a / b * b + b
  {
    assert a == a / b * b + a % b;
  }

  // ----- ResetWeight -----

  function InflightDelay(beginSum: int, beginCount: int, now: int): int
    requires beginCount > 0
  {
    now - TruncDiv(beginSum, beginCount)
  }

  /** The weight `ResetWeight` arrives at. */
  function NewWeight(base: int, avg: int, beginSum: int, beginCount: int, now: int): int {
    var punish := avg * PUNISH_INFLIGHT_RATIO;
    var w :=
      if beginCount > 0 && avg > 0 && InflightDelay(beginSum, beginCount, now) >= punish
      then TruncDiv(base * punish, InflightDelay(beginSum, beginCount, now))
      else base;
    if w < MIN_WEIGHT then MIN_WEIGHT else w
  }

  lemma DivAtMost(a: int, b: int, c: int)
    requires a >= 0 && 0 < b <= c
    ensures 0 <= a / c <= a / b
  {
    var q := a / c;
    assert q * c <= a;
    assert q * b <= q * c by {
      MulMonotone(b, c, q);
    }
    if a / b < q {
      assert (a / b + 1) * b <= q * b by {
        MulMonotone(a / b + 1, q, b);
      }
    }
  }

  lemma ProductDiv(a: int, b: int)
    requires a >= 0 && b > 0
    ensures (a * b) / b == a
  {
    var q := (a * b) / b;
    if q < a {
      MulMonotone(q + 1, a, b);
    } else if q > a {
      MulMonotone(a + 1, q, b);
    }
  }

  /** Punishment only ever lowers the weight, and never below the minimum. */
  lemma NewWeightBounds(base: int, avg: int, beginSum: int, beginCount: int, now: int)
    requires base >= 0
    ensures MIN_WEIGHT <= NewWeight(base, avg, beginSum, beginCount, now)
            <= if base < MIN_WEIGHT then MIN_WEIGHT else base
  {
    if beginCount > 0 && avg > 0 && InflightDelay(beginSum, beginCount, now) >= avg {
      var delay := InflightDelay(beginSum, beginCount, now);
      assert base * avg >= 0 by {
        MulMonotone(0, base, avg);
      }
      DivAtMost(base * avg, avg, delay);
      ProductDiv(base, avg);
      assert TruncDiv(base * avg, delay) == (base * avg) / delay;
    }
  }

  /** The longer the calls in flight take, the smaller the weight. */
  lemma NewWeightFallsWithTime(base: int, avg: int, beginSum: int, beginCount: int, now: int, later: int)
    requires base >= 0 && now <= later
    ensures NewWeight(base, avg, beginSum, beginCount, later) <= NewWeight(base, avg, beginSum, beginCount, now)
  {
    if beginCount > 0 && avg > 0 {
      var d, d' := InflightDelay(beginSum, beginCount, now), InflightDelay(beginSum, beginCount, later);
      if d >= avg {
        assert base * avg >= 0 by {
          MulMonotone(0, base, avg);
        }
        DivAtMost(base * avg, d, d');
        assert TruncDiv(base * avg, d) == (base * avg) / d;
        assert TruncDiv(base * avg, d') == (base * avg) / d';
      } else {
        NewWeightBounds(base, avg, beginSum, beginCount, later);
      }
    }
  }

  // ----- What the weight means for the calls in flight -----

  function SumOf(s: seq<int>): int {
    if s == [] then 0 else SumOf(s[..|s| - 1]) + s[|s| - 1]
  }

  /** The begin times of calls that were begun by time `t`. */
  ghost predicate BegunBy(calls: seq<int>, t: int) {
    forall i :: 0 <= i < |calls| ==> 0 <= calls[i] <= t
  }

  /** For how long the calls have been out at `now`, added up. */
  function Ages(calls: seq<int>, now: int): int {
    if calls == [] then 0 else Ages(calls[..|calls| - 1], now) + (now - calls[|calls| - 1])
  }

  /** `delay` is the mean of the ages, rounded up. */
  ghost predicate IsMeanAge(calls: seq<int>, now: int, delay: int) {
    0 <= |calls| * delay - Ages(calls, now) < |calls|
  }

  lemma {:induction false} AgesAndSum(calls: seq<int>, now: int)
    ensures Ages(calls, now) == |calls| * now - SumOf(calls)
  {
    if calls != [] {
      AgesAndSum(calls[..|calls| - 1], now);
      assert |calls| * now == (|calls| - 1) * now + now;
    }
  }

  lemma MeanAgeUnique(calls: seq<int>, now: int, d: int, e: int)
    requires IsMeanAge(calls, now, d) && IsMeanAge(calls, now, e)
    ensures d == e
  {
    if d < e {
      MulMonotone(1, e - d, |calls|);
    } else if e < d {
      MulMonotone(1, d - e, |calls|);
    }
  }

  /** The delay is the mean age of the calls in flight: their begin times are averaged, not added up. */
  lemma DelayIsMeanAge(calls: seq<int>, now: int)
    requires calls != [] && BegunBy(calls, now)
    ensures IsMeanAge(calls, now, InflightDelay(SumOf(calls), |calls|, now))
  {
    var sum, n := SumOf(calls), |calls|;
    SumOfBegun(calls, now);
    AgesAndSum(calls, now);
    TruncDivLaw(sum, n);
    hide TruncDiv;
    assert n * (now - TruncDiv(sum, n)) == n * now - TruncDiv(sum, n) * n;
  }

  function AtLeastMin(w: int): int {
    if w < MIN_WEIGHT then MIN_WEIGHT else w
  }

  /** `w` is `product / delay`, cut to an integer and raised to the minimum. */
  predicate IsPunished(w: int, product: int, delay: int) {
    if w > MIN_WEIGHT then w * delay <= product < (w + 1) * delay
    else w == MIN_WEIGHT && product < (w + 1) * delay
  }

  /** What a weight has to be at `now` with these calls in flight: it is punished exactly if their mean age has
      reached the average latency, and then by the ratio of the two. */
  ghost predicate Fair(w: int, base: int, avg: int, calls: seq<int>, now: int) {
    if calls == [] || avg == 0 then w == AtLeastMin(base)
    else
      exists delay :: IsMeanAge(calls, now, delay) &&
        if delay >= avg then IsPunished(w, base * avg, delay) else w == AtLeastMin(base)
  }

  lemma PunishedWeight(base: int, avg: int, beginSum: int, beginCount: int, now: int)
    requires base >= 0 && avg > 0 && beginCount > 0 && InflightDelay(beginSum, beginCount, now) >= avg
    ensures IsPunished(NewWeight(base, avg, beginSum, beginCount, now), base * avg,
                       InflightDelay(beginSum, beginCount, now))
  {
    var delay := InflightDelay(beginSum, beginCount, now);
    hide InflightDelay;
    assert base * avg >= 0 by {
      MulMonotone(0, base, avg);
    }
    var q := base * avg / delay;
    assert TruncDiv(base * avg, delay) == q;
    QuotientLaw(base * avg, delay);
    if q < MIN_WEIGHT {
      MulMonotone(q + 1, MIN_WEIGHT + 1, delay);
    }
  }

  lemma NewWeightIsFair(base: int, avg: int, calls: seq<int>, now: int)
    requires base >= 0 && avg >= 0 && BegunBy(calls, now)
    ensures Fair(NewWeight(base, avg, SumOf(calls), |calls|, now), base, avg, calls, now)
  {
    if calls != [] && avg != 0 {
      DelayIsMeanAge(calls, now);
      var delay := InflightDelay(SumOf(calls), |calls|, now);
      if delay >= avg {
        PunishedWeight(base, avg, SumOf(calls), |calls|, now);
      }
      hide IsMeanAge, IsPunished, InflightDelay;
    }
  }

  /** Before the first feedback no call in flight counts against a server. */
  lemma NewWeightBeforeFeedback(base: int, beginSum: int, beginCount: int, now: int)
    requires base >= MIN_WEIGHT
    ensures NewWeight(base, 0, beginSum, beginCount, now) == base
  {
  }

  // ----- Scaled QPS -----

  /** The rate over a window of `n` entries that spans `elapsed` microseconds. */
  function ScaledQps(n: nat, elapsed: int): int
    requires n >= 1 && elapsed > 0
  {
    var qps := (n - 1) * 1000000 * WEIGHT_SCALE / elapsed;
    if qps < WEIGHT_SCALE then WEIGHT_SCALE else qps
  }

  /** "will not overflow": the product fits 64 bits, and so does everything derived from it. */
  lemma ScaledQpsBounds(n: nat, elapsed: int)
    requires 1 <= n <= RECV_QUEUE_SIZE && elapsed > 0
    ensures 0 <= (n - 1) * 1000000 * WEIGHT_SCALE <= MAX_WEIGHT && FitsInt64((n - 1) * 1000000 * WEIGHT_SCALE)
    ensures WEIGHT_SCALE <= ScaledQps(n, elapsed) <= MAX_WEIGHT
  {
    DivAtMost((n - 1) * 1000000 * WEIGHT_SCALE, 1, elapsed);
  }

  /** The rate `Update` uses: the measured one only when the queue is full or spans a second. */
  function QpsFor(n: nat, elapsed: int): int
    requires n >= 1 && elapsed > 0
  {
    if n == RECV_QUEUE_SIZE || elapsed >= 1000000 then ScaledQps(n, elapsed) else DEFAULT_QPS * WEIGHT_SCALE
  }

  /** What the rate has to be: of a window that is full or spans at least a second it is the calls after the
      first in `WEIGHT_SCALE`ths a second, cut to an integer, but at least one call a second; any other window
      is taken for one call a second. */
  ghost predicate IsRate(q: int, n: nat, elapsed: int) {
    if n == RECV_QUEUE_SIZE || elapsed >= 1000000 then
      if (n - 1) * 1000000 < elapsed then q == WEIGHT_SCALE
      else q * elapsed <= (n - 1) * 1000000 * WEIGHT_SCALE < (q + 1) * elapsed
    else q == WEIGHT_SCALE
  }

  /** A scaled quotient is below the scale exactly if the dividend is below the divisor. */
  lemma ScaledQuotient(calls: int, elapsed: int, scale: int)
    requires calls >= 0 && elapsed > 0 && scale > 0
    ensures calls * scale / elapsed < scale <==> calls < elapsed
  {
    var q := calls * scale / elapsed;
    QuotientLaw(calls * scale, elapsed);
    if calls < elapsed {
      MulMonotone(calls + 1, elapsed, scale);
      if q >= scale {
        MulMonotone(scale, q, elapsed);
      }
    } else {
      MulMonotone(elapsed, calls, scale);
      if q < scale {
        MulMonotone(q + 1, scale, elapsed);
      }
    }
  }

  lemma RateLaw(n: nat, elapsed: int)
    requires n >= 1 && elapsed > 0
    ensures IsRate(QpsFor(n, elapsed), n, elapsed)
  {
    var calls := (n - 1) * 1000000;
    ScaledQuotient(calls, elapsed, WEIGHT_SCALE);
    QuotientLaw(calls * WEIGHT_SCALE, elapsed);
  }

  lemma FirstRate()
    ensures IsRate(DEFAULT_QPS * WEIGHT_SCALE, 1, 0)
  {
  }

  lemma RateUnique(q: int, r: int, n: nat, elapsed: int)
    requires n >= 1 && elapsed > 0 && IsRate(q, n, elapsed) && IsRate(r, n, elapsed)
    ensures q == r
  {
    if q < r {
      MulMonotone(q + 1, r, elapsed);
    } else if r < q {
      MulMonotone(r + 1, q, elapsed);
    }
  }

  /** `c` calls a second over whole seconds are `c` calls a second, whether they fill the window or not. */
  lemma SteadyRate(c: nat, seconds: nat, q: int)
    requires c >= 1 && seconds >= 1
    ensures IsRate(q, c * seconds + 1, 1000000 * seconds) <==> q == c * WEIGHT_SCALE
  {
    var n, elapsed := c * seconds + 1, 1000000 * seconds;
    MulMonotone(1, c, seconds);
    assert (n - 1) * 1000000 == c * elapsed;
    assert (n - 1) * 1000000 * WEIGHT_SCALE == c * WEIGHT_SCALE * elapsed;
    assert (c * WEIGHT_SCALE + 1) * elapsed == c * WEIGHT_SCALE * elapsed + elapsed;
    if IsRate(q, n, elapsed) {
      RateUnique(q, c * WEIGHT_SCALE, n, elapsed);
    }
  }

  /** What the base weight has to be after a feedback, given the calls in the window and their mean latency: the
      rate divided by that latency, cut to an integer. */
  ghost predicate Rated(h: seq<Sample>, avg: int, base: int)
    requires h != []
  {
    var w := Newest(h, RECV_QUEUE_SIZE);
    var elapsed := h[|h| - 1].end - w[0].end;
    |w| == 1 || elapsed > 0 ==> exists q :: IsRate(q, |w|, elapsed) && base * avg <= q < (base + 1) * avg
  }

  lemma RatedByRate(h: seq<Sample>, avg: int, q: int)
    requires h != [] && avg >= 1 && Newest(h, RECV_QUEUE_SIZE) != []
    requires var w := Newest(h, RECV_QUEUE_SIZE); IsRate(q, |w|, h[|h| - 1].end - w[0].end)
    ensures Rated(h, avg, q / avg)
  {
    hide Newest, IsRate;
    QuotientLaw(q, avg);
  }

  lemma NotRated(h: seq<Sample>, avg: int, base: int)
    requires h != [] && |Newest(h, RECV_QUEUE_SIZE)| > 1 && h[|h| - 1].end <= Newest(h, RECV_QUEUE_SIZE)[0].end
    ensures Rated(h, avg, base)
  {
    hide Newest, IsRate;
  }

  /** With `c` calls a second over whole seconds and latencies of `avg` microseconds it is
      `c * WEIGHT_SCALE / avg`. */
  lemma SteadyHistory(h: seq<Sample>, avg: int, base: int, c: nat, seconds: nat)
    requires h != [] && Rated(h, avg, base) && c >= 1 && seconds >= 1
    requires var w := Newest(h, RECV_QUEUE_SIZE);
             |w| == c * seconds + 1 && h[|h| - 1].end - w[0].end == 1000000 * seconds
    ensures base * avg <= c * WEIGHT_SCALE < (base + 1) * avg
  {
    var w := Newest(h, RECV_QUEUE_SIZE);
    MulMonotone(1, seconds, 1000000);
    var q :| IsRate(q, |w|, 1000000 * seconds) && base * avg <= q < (base + 1) * avg;
    SteadyRate(c, seconds, q);
  }

  /** A weight takes every extreme in turn. A full window inside one microsecond sets the largest base weight; a
      call that was given out a microsecond ago leaves it there, one that has been out for long enough takes it
      to the minimum, and one that has been out for a second to a millionth of the largest. */
  lemma WeightSwings(begin: int)
    requires begin >= 0
    ensures TruncDiv(QpsFor(RECV_QUEUE_SIZE, 1), 1) == MAX_WEIGHT
    ensures NewWeight(MAX_WEIGHT, 1, begin, 1, begin + 1) == MAX_WEIGHT
    ensures NewWeight(MAX_WEIGHT, 1, begin, 1, begin + MAX_WEIGHT) == MIN_WEIGHT
    ensures 1000000 * NewWeight(MAX_WEIGHT, 1, begin, 1, begin + 1000000) == MAX_WEIGHT
  {
    assert TruncDiv(begin, 1) == begin;
    ProductDiv(127 * WEIGHT_SCALE, 1000000);
  }

  method Rate(n: nat, elapsed: int) returns (scaledQps: int)
    requires 1 <= n <= RECV_QUEUE_SIZE && elapsed > 0
    ensures scaledQps == QpsFor(n, elapsed) && WEIGHT_SCALE <= scaledQps <= MAX_WEIGHT
    ensures IsRate(scaledQps, n, elapsed)
  {
    RateLaw(n, elapsed);
    scaledQps := DEFAULT_QPS * WEIGHT_SCALE;
    if n == RECV_QUEUE_SIZE || elapsed >= 1000000 {
      ScaledQpsBounds(n, elapsed);
      scaledQps := (n - 1) * 1000000 * WEIGHT_SCALE / elapsed;
      if scaledQps < WEIGHT_SCALE {
        scaledQps := WEIGHT_SCALE;
      }
    }
  }

  lemma MeanAtLeastOne(sum: int, n: int)
    requires n >= 1 && sum >= n
    ensures sum / n >= 1
  {
  }

  /** Every latency is at least 1, so a mean of them is too, and no division by the window's length
      minus one is by zero once two calls ended at different times. */
  lemma WindowMeanAtLeastOne(h: seq<Sample>, n: nat)
    requires h != [] && n > 0 && Positive(h)
    ensures Newest(h, n) != [] && Newest(h, n)[0].latency >= 1
    ensures |Newest(h, n)| > 1 ==> LatencySum(Newest(h, n)[1..]) / (|Newest(h, n)| - 1) >= 1
    ensures Newest(h, n)[0].end != h[|h| - 1].end ==> |Newest(h, n)| > 1
  {
    var w := Newest(h, n);
    LatencySumAtLeastLength(w[1..]);
    if |w| > 1 {
      MeanAtLeastOne(LatencySum(w[1..]), |w| - 1);
    }
  }

  lemma QuotientTimesDivisor(a: int, b: int)
    requires a >= 0 && b > 0
    ensures 0 <= a / b * b <= a && 0 <= a / b <= a
  {
    DivAtMost(a, 1, b);
    MulMonotone(0, a / b, b);
  }

  // ----- Outstanding calls -----

  function Without<T>(s: seq<T>, k: nat): seq<T>
    requires k < |s|
  {
    s[..k] + s[k + 1..]
  }

  lemma {:induction false} SumWithout(s: seq<int>, k: nat)
    requires k < |s|
    ensures SumOf(Without(s, k)) == SumOf(s) - s[k]
  {
    var n := |s| - 1;
    if k == n {
      assert Without(s, k) == s[..n];
    } else {
      SumWithout(s[..n], k);
      assert Without(s, k)[..n - 1] == Without(s[..n], k);
    }
  }

  predicate IsOutstanding(calls: seq<int>, k: nat, beginTime: int) {
    k < |calls| && calls[k] == beginTime
  }

  function Settled(calls: seq<int>, k: nat, beginTime: int): seq<int> {
    if IsOutstanding(calls, k, beginTime) then Without(calls, k) else calls
  }

  lemma {:induction false} SumOfBegun(calls: seq<int>, t: int)
    requires BegunBy(calls, t)
    ensures 0 <= SumOf(calls) <= |calls| * t
    ensures (forall i :: 0 <= i < |calls| ==> calls[i] == t) ==> SumOf(calls) == |calls| * t
  {
    if calls != [] {
      SumOfBegun(calls[..|calls| - 1], t);
      assert |calls| * t == (|calls| - 1) * t + t;
    }
  }

  /** `_begin_time_sum` is a 64-bit sum of absolute times: it is sure to fit at time `t` exactly as long as
      there are at most INT64_MAX / t calls in flight. */
  lemma BeginTimeSumFits(n: nat, t: int)
    requires t > 0
    ensures (forall calls :: |calls| == n && BegunBy(calls, t) ==> FitsInt64(SumOf(calls))) <==> n <= INT64_MAX / t
  {
    hide SumOf;
    var most := INT64_MAX / t;
    QuotientLaw(INT64_MAX, t);
    if n <= most {
      MulMonotone(n, most, t);
      forall calls | |calls| == n && BegunBy(calls, t) ensures FitsInt64(SumOf(calls)) {
        SumOfBegun(calls, t);
      }
    } else {
      MulMonotone(most + 1, n, t);
      var latest := seq(n, _ => t);
      SumOfBegun(latest, t);
      assert |latest| == n && BegunBy(latest, t) && !FitsInt64(SumOf(latest));
    }
  }

  /** The queue holds the entries of the newest samples of `history`. */
  ghost predicate Holds(q: BoundedQueue<TimeInfo>, history: seq<Sample>)
    reads q, q.items
  {
    && q.Valid() && q.items.Length == RECV_QUEUE_SIZE
    && q.Contents() == Newest(Entries(history), RECV_QUEUE_SIZE)
    && Positive(history)
  }

  class Weight {
    var weight: int
    var baseWeight: int
    var avgLatency: int
    var beginTimeSum: int
    var beginTimeCount: int
    var oldDiffSum: int
    var oldIndex: Option<nat>
    var oldWeight: int
    const timeQ: BoundedQueue<TimeInfo>
    ghost var outstanding: seq<int>      // begin times of the selections without feedback
    ghost var history: seq<Sample>       // all successful samples

    /** The part of the invariant that has nothing to do with the latency queue. */
    ghost predicate Sound()
      reads this
    {
      && avgLatency >= 0
      && (if Enabled()
          then MIN_WEIGHT <= weight <= MAX_WEIGHT && baseWeight <= MAX_WEIGHT
               && (avgLatency > 0 ==> baseWeight * avgLatency <= MAX_WEIGHT)
          else weight == 0)
    }

    /** The inflight numbers are those of the calls that are outstanding here. */
    ghost predicate Accounted()
      reads this`beginTimeCount, this`beginTimeSum, this`outstanding
    {
      beginTimeCount == |outstanding| && beginTimeSum == SumOf(outstanding)
    }

    ghost predicate WindowExact()
      reads this, timeQ, timeQ.items
    {
      Holds(timeQ, history)
    }

    ghost predicate Valid()
      reads this, timeQ, timeQ.items
    {
      Sound() && WindowExact()
    }

    /** No feedback has been measured yet: the weight is the base weight, and nothing counts against it. */
    ghost predicate Unserved()
      reads this
    {
      avgLatency == 0 && weight == baseWeight
    }

    predicate Enabled()
      reads this
    {
      baseWeight >= 0
    }

    ghost predicate Unmarked()
      reads this
    {
      oldIndex == None && oldDiffSum == 0 && oldWeight == 0
    }

    constructor (initialWeight: int)
      requires MIN_WEIGHT <= initialWeight <= MAX_WEIGHT
      ensures Valid() && Enabled() && Unmarked() && weight == initialWeight
      ensures Unserved() && Accounted() && outstanding == [] && history == []
      ensures fresh(timeQ) && fresh(timeQ.items)
    {
      weight, baseWeight := initialWeight, initialWeight;
      beginTimeSum, beginTimeCount := 0, 0;
      oldDiffSum, oldIndex, oldWeight := 0, None, 0;
      avgLatency := 0;
      timeQ := new BoundedQueue(RECV_QUEUE_SIZE);
      outstanding, history := [], [];
    }

    method ResetWeight(index: nat, now: int) returns (diff: int)
      requires Sound() && Enabled()
      modifies this`weight, this`oldDiffSum
      ensures Sound()
      ensures weight == NewWeight(baseWeight, avgLatency, beginTimeSum, beginTimeCount, now)
      ensures Accounted() && BegunBy(outstanding, now) ==> Fair(weight, baseWeight, avgLatency, outstanding, now)
      ensures diff == weight - old(weight)
      ensures oldDiffSum == old(oldDiffSum) + if oldIndex == Some(index) then diff else 0
    {
      hide Fair, BegunBy, SumOf;
      if Accounted() && BegunBy(outstanding, now) {
        NewWeightIsFair(baseWeight, avgLatency, outstanding, now);
      }
      NewWeightBounds(baseWeight, avgLatency, beginTimeSum, beginTimeCount, now);
      var newWeight := baseWeight;
      if beginTimeCount > 0 {
        var inflightDelay := now - TruncDiv(beginTimeSum, beginTimeCount);
        var punishLatency := avgLatency * PUNISH_INFLIGHT_RATIO;
        if inflightDelay >= punishLatency && avgLatency > 0 {
          assert FitsInt64(newWeight * punishLatency);
          newWeight := TruncDiv(newWeight * punishLatency, inflightDelay);
        }
      }
      if newWeight < MIN_WEIGHT {
        newWeight := MIN_WEIGHT;
      }
      var oldValue := weight;
      weight := newWeight;
      diff := newWeight - oldValue;
      if oldIndex == Some(index) && diff != 0 {
        oldDiffSum := oldDiffSum + diff;
      }
    }

    /** A selection: the weight is refreshed, and the call is counted if the dice still falls inside it. */
    method AddInflight(beginTime: int, index: nat, dice: int) returns (chosen: bool, diff: int)
      requires Sound()
      modifies this`weight, this`oldDiffSum, this`beginTimeSum, this`beginTimeCount, this`outstanding
      ensures Sound() && diff == weight - old(weight)
      ensures !Enabled() ==> !chosen && diff == 0 && outstanding == old(outstanding) && oldDiffSum == old(oldDiffSum)
      ensures Enabled() ==>
                && weight == NewWeight(baseWeight, avgLatency, old(beginTimeSum), old(beginTimeCount), beginTime)
                && (old(Accounted() && BegunBy(outstanding, beginTime)) ==>
                      Fair(weight, baseWeight, avgLatency, old(outstanding), beginTime))
                && chosen == (dice <= weight)
                && oldDiffSum == old(oldDiffSum) + (if oldIndex == Some(index) then diff else 0)
      ensures outstanding == old(outstanding) + if chosen then [beginTime] else []
      ensures beginTimeSum == old(beginTimeSum) + if chosen then beginTime else 0
      ensures beginTimeCount == old(beginTimeCount) + if chosen then 1 else 0
      ensures old(Accounted()) ==> Accounted()
    {
      hide Fair, NewWeight;
      if !Enabled() {
        return false, 0;
      }
      diff := ResetWeight(index, beginTime);
      if weight < dice {
        return false, diff;
      }
      assert (outstanding + [beginTime])[..|outstanding|] == outstanding;
      beginTimeSum := beginTimeSum + beginTime;
      beginTimeCount := beginTimeCount + 1;
      outstanding := outstanding + [beginTime];
      chosen := true;
    }

    method Settle(beginTime: int, ghost k: nat)
      modifies this`beginTimeSum, this`beginTimeCount, this`outstanding
      ensures beginTimeCount == old(beginTimeCount) - 1 && beginTimeSum == old(beginTimeSum) - beginTime
      ensures outstanding == Settled(old(outstanding), k, beginTime)
      ensures old(Accounted()) ==> (Accounted() <==> IsOutstanding(old(outstanding), k, beginTime))
    {
      if IsOutstanding(outstanding, k, beginTime) {
        SumWithout(outstanding, k);
      }
      beginTimeSum := beginTimeSum - beginTime;
      beginTimeCount := beginTimeCount - 1;
      outstanding := Settled(outstanding, k, beginTime);
    }

    /** Feedback of a successful call. It keeps the accounts in order if and only if the call is one of
        those outstanding here, the `k`th; a call that was begun at an earlier server of the same name is
        not. */
    method Update(beginTime: int, index: nat, endTime: int, ghost k: nat) returns (diff: int)
      requires Valid()
      modifies this, timeQ, timeQ.items
      ensures Valid() && Enabled() == old(Enabled()) && oldIndex == old(oldIndex) && oldWeight == old(oldWeight)
      ensures diff == weight - old(weight)
      ensures oldDiffSum == old(oldDiffSum) + if oldIndex == Some(index) then diff else 0
      ensures !Enabled() ==>
                && diff == 0 && history == old(history) && outstanding == old(outstanding)
                && beginTimeCount == old(beginTimeCount) && beginTimeSum == old(beginTimeSum)
      ensures Enabled() ==>
                && beginTimeCount == old(beginTimeCount) - 1 && beginTimeSum == old(beginTimeSum) - beginTime
                && outstanding == Settled(old(outstanding), k, beginTime)
                && (old(Accounted()) ==> (Accounted() <==> IsOutstanding(old(outstanding), k, beginTime)))
      ensures Enabled() ==>
                history == old(history) + if endTime > beginTime then [Sample(endTime - beginTime, endTime)] else []
      ensures Enabled() && endTime > beginTime ==>
                && Measured(old(avgLatency), old(baseWeight), old(weight), endTime)
                && Rated(history, avgLatency, baseWeight)
      ensures Enabled() && endTime <= beginTime ==>
                diff == 0 && avgLatency == old(avgLatency) && baseWeight == old(baseWeight)
    {
      hide Newest, Entries, LatencySum, NewWeight, QpsFor, Settled, IsOutstanding, Accounted, SumOf, Rated;
      var latency := endTime - beginTime;
      diff := 0;
      if !Enabled() {
        return;
      }
      Settle(beginTime, k);
      if latency <= 0 {
        return;
      }
      ghost var avg, base, before := avgLatency, baseWeight, weight;
      Record(latency, endTime);
      diff := Measure(index, endTime);
      MeasuredIsRated(avg, base, before, endTime);
    }

    /** The first half of the feedback: the sample enters the queue as a running sum. */
    method Record(latency: int, endTime: int)
      requires WindowExact() && latency >= 1
      modifies this`history, timeQ, timeQ.items
      ensures WindowExact() && history == old(history) + [Sample(latency, endTime)]
    {
      hide Newest, Entries, LatencySum;
      var sum := latency;
      var bottom := timeQ.Bottom(0);
      BottomEntry(history, RECV_QUEUE_SIZE);
      RecordedEntries(history, RECV_QUEUE_SIZE, Sample(latency, endTime));
      if bottom.Some? {
        sum := sum + bottom.value.latencySum;
      }
      timeQ.ElimPush(TimeInfo(sum, endTime));
      history := history + [Sample(latency, endTime)];
    }

    /** What the feedback has to arrive at, given the calls in the window. */
    ghost predicate Measured(oldAvg: int, oldBase: int, oldSelf: int, endTime: int)
      requires history != []
      reads this
    {
      var w := Newest(history, RECV_QUEUE_SIZE);
      var elapsed := endTime - w[0].end;
      if elapsed > 0 && |w| > 1 then
        && avgLatency == LatencySum(w[1..]) / (|w| - 1) >= 1
        && baseWeight == QpsFor(|w|, elapsed) / avgLatency
        && weight == NewWeight(baseWeight, avgLatency, beginTimeSum, beginTimeCount, endTime)
      else if |w| == 1 then
        && avgLatency == w[0].latency >= 1
        && baseWeight == DEFAULT_QPS * WEIGHT_SCALE / avgLatency
        && weight == NewWeight(baseWeight, avgLatency, beginTimeSum, beginTimeCount, endTime)
      else
        avgLatency == oldAvg && baseWeight == oldBase && weight == oldSelf
    }

    lemma MeasuredIsRated(oldAvg: int, oldBase: int, oldSelf: int, endTime: int)
      requires history != [] && history[|history| - 1].end == endTime && Measured(oldAvg, oldBase, oldSelf, endTime)
      ensures Rated(history, avgLatency, baseWeight)
    {
      var w := Newest(history, RECV_QUEUE_SIZE);
      var elapsed := endTime - w[0].end;
      NewestEnds(history, RECV_QUEUE_SIZE);
      hide Newest, LatencySum, NewWeight, QpsFor, IsRate, Rated;
      if elapsed > 0 && |w| > 1 {
        RateLaw(|w|, elapsed);
        RatedByRate(history, avgLatency, QpsFor(|w|, elapsed));
      } else if |w| == 1 {
        FirstRate();
        RatedByRate(history, avgLatency, DEFAULT_QPS * WEIGHT_SCALE);
      } else {
        NotRated(history, avgLatency, baseWeight);
      }
    }

    /** The second half: from the queue to QPS, average latency, base weight and weight. */
    method Measure(index: nat, endTime: int) returns (diff: int)
      requires Valid() && Enabled() && history != [] && history[|history| - 1].end == endTime
      modifies this`avgLatency, this`baseWeight, this`weight, this`oldDiffSum
      ensures Valid() && Enabled() && diff == weight - old(weight)
      ensures oldDiffSum == old(oldDiffSum) + if oldIndex == Some(index) then diff else 0
      ensures Measured(old(avgLatency), old(baseWeight), old(weight), endTime)
    {
      hide Newest, Entries, LatencySum, NewWeight, QpsFor, Sound, Positive, IsRate;
      WindowDifference(history, RECV_QUEUE_SIZE);
      WindowMeanAtLeastOne(history, RECV_QUEUE_SIZE);
      var top := timeQ.Top(0);
      var bottom := timeQ.Bottom(0);
      var n := timeQ.count;
      var elapsed := endTime - top.value.end;
      var scaledQps := DEFAULT_QPS * WEIGHT_SCALE;
      var avg := 0;
      diff := 0;
      if elapsed > 0 {
        scaledQps := Rate(n, elapsed);
        avg := (bottom.value.latencySum - top.value.latencySum) / (n - 1);
      } else if n == 1 {
        avg := bottom.value.latencySum;
      } else {
        return;
      }
      if avg != 0 {
        diff := Rebase(scaledQps, avg, index, endTime);
      }
    }

    method Rebase(scaledQps: int, avg: int, index: nat, now: int) returns (diff: int)
      requires Sound() && Enabled() && avg >= 1 && 0 <= scaledQps <= MAX_WEIGHT
      modifies this`avgLatency, this`baseWeight, this`weight, this`oldDiffSum
      ensures Sound() && Enabled() && diff == weight - old(weight)
      ensures avgLatency == avg && baseWeight == scaledQps / avg
      ensures weight == NewWeight(baseWeight, avgLatency, beginTimeSum, beginTimeCount, now)
      ensures oldDiffSum == old(oldDiffSum) + if oldIndex == Some(index) then diff else 0
    {
      hide NewWeight;
      QuotientTimesDivisor(scaledQps, avg);
      avgLatency := avg;
      baseWeight := scaledQps / avg;
      diff := ResetWeight(index, now);
    }

    method MarkOld(index: nat) returns (saved: int)
      requires Sound()
      modifies this`oldWeight, this`oldDiffSum, this`oldIndex
      ensures Sound() && saved == weight && oldWeight == weight && oldDiffSum == 0 && oldIndex == Some(index)
    {
      saved := weight;
      oldWeight, oldDiffSum, oldIndex := saved, 0, Some(index);
    }

    method ClearOld() returns (saved: int, diff: int)
      requires Sound()
      modifies this`oldWeight, this`oldDiffSum, this`oldIndex
      ensures Sound() && Unmarked() && saved == old(oldWeight) && diff == old(oldDiffSum)
    {
      saved, diff := oldWeight, oldDiffSum;
      oldDiffSum, oldIndex, oldWeight := 0, None, 0;
    }

    method Disable() returns (removed: int)
      requires Sound()
      modifies this`baseWeight, this`weight
      ensures Sound() && !Enabled() && weight == 0 && removed == old(weight)
    {
      removed := weight;
      baseWeight, weight := -1, 0;
    }
  }
}
