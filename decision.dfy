/** What a stat completion does to an attached poll context: whether the user
    callback fires, with which arguments, and the new busy_polling and
    statbuf. Also the abstract status machine it encodes, and the fold of
    the decision over a run of stat results. */
module PollDecision {
  import opened Snapshot

  datatype Option<T> = None | Some(value: T)

  /** One call of the user's poll callback: status, previous and current record. */
  datatype Event = Event(status: int, prev: Stat, curr: Stat)

  /** The outcome of one stat request: the record, or the request's error code. */
  datatype StatResult = StatOk(buf: Stat) | StatErr(errorno: int)

  /** The fields of a poll context that a stat completion reads and writes. */
  datatype PollState = PollState(busyPolling: int, statbuf: Stat)

  /** A freshly allocated context: zero-filled, so unprimed with a zero record. */
  const Initial := PollState(0, ZeroStat)

  /** What one attached stat completion produces. */
  datatype Step = Step(event: Option<Event>, next: PollState)

  function Emitted(e: Option<Event>): seq<Event>
  {
    if e.Some? then [e.value] else []
  }

  /** The decision poll_cb takes for an attached context. busy_polling is 0
      before the first successful stat, 1 after a successful one and minus
      the error code after a failed one. Every callback reports a change (of
      busy_polling, or of the record as the comparator sees it) and names the
      stored record as previous; a silent failure changes nothing, and a
      silent success means the context was unprimed or the record unchanged. */
  function PollStep(s: PollState, res: StatResult, p: Platform): (r: Step)
    ensures r.event.Some? ==> r.event.value.prev == s.statbuf
    ensures r.event.Some? ==>
              r.next.busyPolling != s.busyPolling || !StatbufEq(p, s.statbuf, r.next.statbuf)
    ensures r.event.None? && res.StatErr? ==> r.next == s
    ensures r.event.None? && res.StatOk? ==> s.busyPolling == 0 || StatbufEq(p, s.statbuf, res.buf)
  {
    match res
    case StatErr(e) =>
      if s.busyPolling != -e then Step(Some(Event(-1, s.statbuf, ZeroStat)), PollState(-e, s.statbuf))
      else Step(None, s)
    case StatOk(buf) =>
      var fires := s.busyPolling != 0 && (s.busyPolling < 0 || !StatbufEq(p, s.statbuf, buf));
      Step(if fires then Some(Event(0, s.statbuf, buf)) else None, PollState(1, buf))
  }

  // ---------------------------------------------------------------------------
  // The status that busy_polling encodes

  /** Unprimed: no successful stat yet. Primed: the last stat succeeded.
      Failing(code): the last stat failed with that error code. */
  datatype Status = Unprimed | Primed | Failing(code: int)

  function Encode(st: Status): int
  {
    match st
    case Unprimed => 0
    case Primed => 1
    case Failing(e) => -e
  }

  /** Error codes are positive; only then is the encoding unambiguous. */
  predicate WellCoded(st: Status)
  {
    st.Failing? ==> st.code > 0
  }

  /** Reads a busy_polling value back as a status. Every integer decodes, and
      exactly the values up to 1 decode to a well-coded status. */
  function Decode(b: int): (st: Status)
    ensures Encode(st) == b
    ensures WellCoded(st) <==> b <= 1
  {
    if b == 0 then Unprimed else if b == 1 then Primed else Failing(-b)
  }

  /** For well-coded statuses the encoding loses nothing. */
  lemma EncodingRoundTrip(st: Status)
    requires WellCoded(st)
    ensures Decode(Encode(st)) == st
  {
  }

  // ---------------------------------------------------------------------------
  // The abstract decision, stated on Status

  datatype Observation = Observation(event: Option<Event>, status: Status, last: Stat)

  /** The stat-completion rules written on the status: a failure is reported
      unless the same code is already being reported, a first success only
      primes the baseline, a recovery always reports, and a success while
      primed reports only a change the comparator sees. */
  function StatusStep(st: Status, last: Stat, res: StatResult, p: Platform): Observation
  {
    match res
    case StatErr(e) =>
      if st == Failing(e) then Observation(None, st, last)
      else Observation(Some(Event(-1, last, ZeroStat)), Failing(e), last)
    case StatOk(buf) =>
      if st == Unprimed then Observation(None, Primed, buf)
      else if st == Primed && StatbufEq(p, last, buf) then Observation(None, Primed, buf)
      else Observation(Some(Event(0, last, buf)), Primed, buf)
  }

  /** The integer encoding in poll_cb implements the status machine, as long
      as error codes are positive; the status never returns to Unprimed. */
  lemma PollStepImplementsStatusMachine(st: Status, last: Stat, res: StatResult, p: Platform)
    requires WellCoded(st)
    requires res.StatErr? ==> res.errorno > 0
    ensures var d := StatusStep(st, last, res, p);
            var s := PollStep(PollState(Encode(st), last), res, p);
            && s.event == d.event
            && s.next == PollState(Encode(d.status), d.last)
            && WellCoded(d.status)
            && d.status != Unprimed
  {
  }

  /** The first successful stat after start never calls back: it only primes. */
  lemma FirstSuccessOnlyPrimes(statbuf: Stat, buf: Stat, p: Platform)
    ensures PollStep(PollState(0, statbuf), StatOk(buf), p) == Step(None, PollState(1, buf))
  {
  }

  /** A failure calls back, with the zero record as current, exactly when it
      is not the error already being reported; either way the code is kept. */
  lemma ErrorReportedIffNewCode(s: PollState, e: int, p: Platform)
    ensures var step := PollStep(s, StatErr(e), p);
            && (step.event.Some? <==> s.busyPolling != -e)
            && (step.event.Some? ==> step.event.value == Event(-1, s.statbuf, ZeroStat))
            && step.next == PollState(-e, s.statbuf)
  {
  }

  /** A success after a failure always calls back, whatever the record. */
  lemma RecoveryAlwaysReported(s: PollState, buf: Stat, p: Platform)
    requires s.busyPolling < 0
    ensures PollStep(s, StatOk(buf), p).event == Some(Event(0, s.statbuf, buf))
  {
  }

  // ---------------------------------------------------------------------------
  // Runs of stat completions

  datatype Trace = Trace(events: seq<Event>, state: PollState)

  /** The callbacks and the final state after a run of attached stat completions. */
  function Run(s: PollState, results: seq<StatResult>, p: Platform): (t: Trace)
    ensures |t.events| <= |results|
    ensures forall i :: 0 <= i < |t.events| ==> t.events[i].status == 0 || t.events[i].status == -1
    decreases |results|
  {
    if results == [] then Trace([], s)
    else
      var before := Run(s, results[..|results| - 1], p);
      var step := PollStep(before.state, results[|results| - 1], p);
      Trace(before.events + Emitted(step.event), step.next)
  }

  /** One more completion extends a run by exactly that completion's step. */
  lemma RunExtend(s: PollState, results: seq<StatResult>, res: StatResult, p: Platform)
    ensures var before := Run(s, results, p);
            var step := PollStep(before.state, res, p);
            Run(s, results + [res], p) == Trace(before.events + Emitted(step.event), step.next)
  {
    assert (results + [res])[..|results|] == results;
  }

  /** Stability: a file whose record does not change, from start or from a
      primed baseline the comparator deems equal, never calls back. */
  lemma {:induction false} SteadyFileIsSilent(s: PollState, results: seq<StatResult>, buf: Stat, p: Platform)
    requires s.busyPolling == 0 || (s.busyPolling == 1 && StatbufEq(p, s.statbuf, buf))
    requires forall i :: 0 <= i < |results| ==> results[i] == StatOk(buf)
    ensures Run(s, results, p).events == []
    ensures results != [] ==> Run(s, results, p).state == PollState(1, buf)
  {
    if results != [] {
      var prefix := results[..|results| - 1];
      SteadyFileIsSilent(s, prefix, buf, p);
      StatbufEqIsEquivalence(p, buf, buf, buf);
    }
  }

  /** Error de-duplication: a run of failures with one code, starting from a
      state not already reporting it, calls back exactly once. */
  lemma {:induction false} RepeatedErrorReportedOnce(s: PollState, results: seq<StatResult>, e: int, p: Platform)
    requires s.busyPolling != -e
    requires results != []
    requires forall i :: 0 <= i < |results| ==> results[i] == StatErr(e)
    ensures Run(s, results, p).events == [Event(-1, s.statbuf, ZeroStat)]
    ensures Run(s, results, p).state == PollState(-e, s.statbuf)
  {
    var prefix := results[..|results| - 1];
    if prefix != [] {
      RepeatedErrorReportedOnce(s, prefix, e, p);
    }
  }

  /** A file of size 10 is watched; it grows to 20, is deleted, and reappears
      with size 5. The first stat only primes; each later change calls back
      once; the recovery reports the last good record as previous. */
  lemma GrowDeleteRecreate(enoent: int, p: Platform)
    requires enoent > 0
    ensures var a, b, c := ZeroStat.(size := 10), ZeroStat.(size := 20), ZeroStat.(size := 5);
            Run(Initial, [StatOk(a), StatOk(b), StatErr(enoent), StatOk(c)], p).events
              == [Event(0, a, b), Event(-1, b, ZeroStat), Event(0, b, c)]
  {
    var a, b, c := ZeroStat.(size := 10), ZeroStat.(size := 20), ZeroStat.(size := 5);
    var r1 := [StatOk(a)];
    var r2 := [StatOk(a), StatOk(b)];
    var r3 := [StatOk(a), StatOk(b), StatErr(enoent)];
    var r4 := [StatOk(a), StatOk(b), StatErr(enoent), StatOk(c)];
    assert r1[..0] == [] && r2[..1] == r1 && r3[..2] == r2 && r4[..3] == r3;
    assert Run(Initial, [], p) == Trace([], Initial);
    FirstSuccessOnlyPrimes(ZeroStat, a, p);
    assert Run(Initial, r1, p) == Trace([], PollState(1, a));
    assert !StatbufEq(p, a, b) by { ComparatorSeesContentChanges(p, a, b); }
    assert Run(Initial, r2, p) == Trace([Event(0, a, b)], PollState(1, b));
    ErrorReportedIffNewCode(PollState(1, b), enoent, p);
    assert Run(Initial, r3, p) == Trace([Event(0, a, b), Event(-1, b, ZeroStat)], PollState(-enoent, b));
    RecoveryAlwaysReported(PollState(-enoent, b), c, p);
  }
}
