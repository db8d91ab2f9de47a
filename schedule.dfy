/** The drift-corrected rescheduling of the poll timer: after each stat the
    next wait is cut short by the time the stat took, so that poll cycles stay
    on a fixed grid of period `interval`. */
module Schedule {

  const U64: int := 0x1_0000_0000_0000_0000

  /** The C types involved: the interval is an unsigned int, loop times and
      timer timeouts are 64-bit unsigned. */
  type u32 = x: int | 0 <= x < 0x1_0000_0000
  type u64 = x: int | 0 <= x < U64

  /** The elapsed time as the unsigned 64-bit subtraction computes it; with a
      clock that does not go backwards it is the plain difference. */
  function Elapsed(start: u64, now: u64): (e: u64)
    ensures start <= now ==> e == now - start
  {
    (now - start) % U64
  }

  /** A non-zero multiple of `n` is at least `n` away from zero. */
  lemma MultipleAwayFromZero(n: int, k: int)
    requires n >= 1
    ensures k >= 1 ==> n * k >= n
    ensures k <= -1 ==> n * k <= -n
  {
  }

  /** Euclidean division is unique: a quotient and a remainder in range are
      the quotient and the remainder. */
  lemma DivModUnique(x: int, n: int, q: int, r: int)
    requires n >= 1 && 0 <= r < n && x == n * q + r
    ensures x / n == q && x % n == r
  {
    var k := q - x / n;
    assert n * k == x % n - r;
    MultipleAwayFromZero(n, k);
  }

  /** `a + n * q` has the same remainder modulo `n` as `a`. */
  lemma ModShift(a: int, n: int, q: int)
    requires n >= 1
    ensures (a + n * q) % n == a % n
  {
    assert a + n * q == n * (a / n + q) + a % n;
    DivModUnique(a + n * q, n, a / n + q, a % n);
  }

  /** The wait until the next grid point after `elapsed` ms of a cycle. */
  function Delay(interval: nat, elapsed: nat): (d: nat)
    requires interval >= 1
    ensures 1 <= d <= interval
    ensures (elapsed + d) % interval == 0
  {
    var r := elapsed % interval;
    ModShift(0, interval, elapsed / interval + 1);
    assert elapsed + (interval - r) == 0 + interval * (elapsed / interval + 1);
    interval - r
  }

  /** The timeout poll_cb arms: interval - (now - start_time) % interval. */
  function NextDelay(interval: u32, start: u64, now: u64): (d: u64)
    requires interval >= 1
    ensures 1 <= d <= interval
    ensures start <= now ==> (now - start + d) % interval == 0
  {
    Delay(interval, Elapsed(start, now))
  }

  /** An interval of 100 ms and a stat that took 30 ms give a 70 ms wait. */
  lemma NextDelayExample()
    ensures NextDelay(100, 5000, 5030) == 70
  {
  }

  /** Start times of successive poll cycles: cycle k starts at starts[k], its
      stat completes latency[k] ms later, and the timer fires exactly after
      the delay that completion computed. */
  function CycleStarts(interval: nat, start: nat, latency: seq<nat>): (starts: seq<nat>)
    requires interval >= 1
    ensures |starts| == |latency| + 1 && starts[0] == start
    decreases |latency|
  {
    if latency == [] then [start]
    else [start] + CycleStarts(interval, start + latency[0] + Delay(interval, latency[0]), latency[1..])
  }

  /** No drift: every cycle starts on the grid anchored at the first cycle's
      start, and each cycle starts at the first grid point strictly after
      the previous cycle's stat completed. */
  lemma {:induction false} CyclesStayOnGrid(interval: nat, start: nat, latency: seq<nat>)
    requires interval >= 1
    ensures forall k :: 0 <= k < |latency| + 1 ==>
              CycleStarts(interval, start, latency)[k] >= start
              && (CycleStarts(interval, start, latency)[k] - start) % interval == 0
    ensures forall k :: 0 <= k < |latency| ==>
              CycleStarts(interval, start, latency)[k] + latency[k] < CycleStarts(interval, start, latency)[k + 1]
              <= CycleStarts(interval, start, latency)[k] + latency[k] + interval
    decreases |latency|
  {
    if latency != [] {
      var next := start + latency[0] + Delay(interval, latency[0]);
      var rest := CycleStarts(interval, next, latency[1..]);
      var starts := CycleStarts(interval, start, latency);
      CyclesStayOnGrid(interval, next, latency[1..]);
      assert starts == [start] + rest;
      var q := (latency[0] + Delay(interval, latency[0])) / interval;
      assert next - start == interval * q;
      forall k | 0 <= k < |starts|
        ensures starts[k] >= start && (starts[k] - start) % interval == 0
      {
        if k > 0 {
          var j := k - 1;
          assert starts[k] == rest[j];
          ModShift(rest[j] - next, interval, q);
          assert rest[j] - start == (rest[j] - next) + interval * q;
        }
      }
      forall k | 0 <= k < |latency|
        ensures starts[k] + latency[k] < starts[k + 1] <= starts[k] + latency[k] + interval
      {
        if k > 0 {
          assert starts[k] == rest[k - 1] && starts[k + 1] == rest[k] && latency[k] == latency[1..][k - 1];
        }
      }
    }
  }
}
