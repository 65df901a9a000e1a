/**
 * The attack engine (`BruteEngine.try_one` and `BruteEngine.run`): each
 * payload is sent with up to `retries` retries, classified, and accounted
 * for in the run's statistics; the payload space is walked in batches until
 * it is exhausted or a success with auto-stop raises the stop flag.
 *
 * The network is a parameter: the outcome of sending a request body on a
 * given attempt.
 */
module Engine {
  import opened Wrappers
  import opened Payloads
  import opened Requests
  import opened Classifier
  import opened Flags

  /** What one attempt at sending a request produced. */
  datatype Outcome =
    | Response(text: string, status: int)
    | Timeout         // asyncio.TimeoutError
    | TransportError  // any other exception raised by the request

  /** The transport: the outcome of sending `data` on attempt number `attempt`. */
  type Network = (map<string, string>, nat) -> Outcome

  /** A success as the engine records it. */
  datatype Record = Record(payload: Combination, length: nat, status: int, flags: seq<string>, response: string)

  /** The configuration the engine runs with. */
  datatype Settings = Settings(
    env: Inputs,
    slots: seq<SlotConfig>,
    template: map<string, string>,
    criteria: Criteria,
    search: RegexSearch,
    retries: int,
    autoStop: bool,
    batchSize: int)

  /** The counters and collections of `Stats` that the engine updates. */
  datatype Counters = Counters(
    total: int,
    completed: int,
    success: int,
    errors: int,
    retried: int,
    baseline: Option<int>,
    results: seq<Record>,
    flags: seq<string>)

  datatype EngineState = EngineState(counters: Counters, stopFlag: bool)

  /** How `run` ends. */
  datatype RunResult =
    | Finished
    | ConfigFailed(error: ConfigError)  // generate_payloads raised
    | ZeroBatchSize                     // range() with step 0 raises ValueError

  const InitialCounters := Counters(0, 0, 0, 0, 0, None, [], [])

  /** `text[:2000]`. */
  function Snippet(text: string): (r: string)
    ensures |r| == if |text| <= 2000 then |text| else 2000
    ensures r == text[..|r|]
  {
    if |text| <= 2000 then text else text[..2000]
  }

  /** The flags of a sequence of records, concatenated in record order. */
  function AllFlags(results: seq<Record>): seq<string>
    decreases |results|
  {
    if results == [] then [] else AllFlags(results[..|results| - 1]) + results[|results| - 1].flags
  }

  /** The collections agree with the counters: one record per success, and the flag list is the records' flags. */
  predicate Consistent(c: Counters) {
    c.success == |c.results| && c.flags == AllFlags(c.results)
  }

  // ---------------------------------------------------------------------------
  // try_one

  /** What one attempt leaves: the new state, whether `try_one` returns now, and the record it returns. */
  datatype Step = Step(state: EngineState, done: bool, record: Option<Record>)

  /** The bookkeeping of an attempt that raised. */
  function Failure(s: Settings, st: EngineState, attempt: nat): EngineState {
    var c := st.counters;
    if attempt < s.retries then st.(counters := c.(retried := c.retried + 1))
    else st.(counters := c.(errors := c.errors + 1, completed := c.completed + 1))
  }

  /** `if baseline_length is None: baseline_length = length`. */
  function WithBaseline(st: EngineState, length: nat): EngineState {
    if st.counters.baseline.None? then st.(counters := st.counters.(baseline := Some(length))) else st
  }

  /** A success: counted, recorded, its flags collected, the stop flag raised under auto-stop. */
  function Succeeded(s: Settings, st: EngineState, rec: Record): EngineState {
    var c := st.counters;
    EngineState(c.(success := c.success + 1, results := c.results + [rec], flags := c.flags + rec.flags),
                if s.autoStop then true else st.stopFlag)
  }

  /** A response that is not a success: one completion. */
  function Completed(st: EngineState): EngineState {
    st.(counters := st.counters.(completed := st.counters.completed + 1))
  }

  /** One pass of the retry loop's body. */
  function AttemptStep(s: Settings, net: Network, st: EngineState, payload: Combination, data: map<string, string>, attempt: nat): Step {
    match net(data, attempt)
    case Response(text, status) =>
      var st1 := WithBaseline(st, |text|);
      var verdict := Verdict(s.criteria, s.search, text, |text|, status, st1.counters.baseline);
      if verdict == Some(true) then
        var rec := Record(payload, |text|, status, ExtractFlags(text), Snippet(text));
        Step(Succeeded(s, st1, rec), true, Some(rec))
      else if verdict == Some(false) then Step(Completed(st1), true, None)
      else Step(Failure(s, st1, attempt), false, None)
    case _ => Step(Failure(s, st, attempt), false, None)
  }

  /** The retry loop from attempt `attempt` on (`for attempt in range(retries + 1)`). */
  function AttemptsFrom(s: Settings, net: Network, st: EngineState, payload: Combination, data: map<string, string>, attempt: nat)
    : (EngineState, Option<Record>)
    decreases s.retries + 1 - attempt
  {
    if attempt > s.retries then (st, None)
    else
      var step := AttemptStep(s, net, st, payload, data, attempt);
      if step.done then (step.state, step.record)
      else AttemptsFrom(s, net, step.state, payload, data, attempt + 1)
  }

  /** `try_one` once past its stop-flag check: build the request body and run the retry loop. */
  function LaunchEffect(s: Settings, net: Network, st: EngineState, payload: Combination): (EngineState, Option<Record>) {
    AttemptsFrom(s, net, st, payload, RequestData(s.template, payload), 0)
  }

  /** `try_one`. */
  function TryEffect(s: Settings, net: Network, st: EngineState, payload: Combination): (EngineState, Option<Record>) {
    if st.stopFlag then (st, None) else LaunchEffect(s, net, st, payload)
  }

  // ---------------------------------------------------------------------------
  // run

  /** A batch: every payload of it launched, in order. */
  function BatchEffect(s: Settings, net: Network, st: EngineState, batch: seq<Combination>): EngineState
    decreases |batch|
  {
    if batch == [] then st else BatchEffect(s, net, LaunchEffect(s, net, st, batch[0]).0, batch[1..])
  }

  /** The batches from offset `i` on: stop when the payloads run out or the stop flag is up. */
  function BatchesEffect(s: Settings, net: Network, st: EngineState, payloads: seq<Combination>, i: nat): EngineState
    requires s.batchSize > 0
    decreases |payloads| - i
  {
    if i >= |payloads| || st.stopFlag then st
    else
      var hi := if i + s.batchSize <= |payloads| then i + s.batchSize else |payloads|;
      BatchesEffect(s, net, BatchEffect(s, net, st, payloads[i..hi]), payloads, i + s.batchSize)
  }

  lemma BatchesUnfold(s: Settings, net: Network, st: EngineState, payloads: seq<Combination>, i: nat)
    requires s.batchSize > 0 && i < |payloads| && !st.stopFlag
    ensures var hi := if i + s.batchSize <= |payloads| then i + s.batchSize else |payloads|;
            BatchesEffect(s, net, st, payloads, i) == BatchesEffect(s, net, BatchEffect(s, net, st, payloads[i..hi]), payloads, i + s.batchSize)
  {
  }

  /** `run`: generate the payload space, record its size, then walk it in batches. */
  function RunEffect(s: Settings, net: Network, st: EngineState): (EngineState, RunResult) {
    match Generate(s.env, s.slots)
    case Err(e) => (st, ConfigFailed(e))
    case Ok(payloads) =>
      var st1 := st.(counters := st.counters.(total := |payloads|));
      if s.batchSize == 0 then (st1, ZeroBatchSize)
      else if s.batchSize < 0 then (st1, Finished)
      else (BatchesEffect(s, net, st1, payloads, 0), Finished)
  }

  // ---------------------------------------------------------------------------
  // Properties of one payload

  /** With the stop flag up, `try_one` sends nothing and changes nothing. */
  lemma StoppedTryIsNoop(s: Settings, net: Network, st: EngineState, payload: Combination)
    requires st.stopFlag
    ensures TryEffect(s, net, st, payload) == (st, None)
  {
  }

  /** With a negative retry count the retry loop never runs: nothing is sent and nothing is counted. */
  lemma NegativeRetriesNoop(s: Settings, net: Network, st: EngineState, payload: Combination)
    requires s.retries < 0
    ensures LaunchEffect(s, net, st, payload) == (st, None)
  {
  }

  /** One pass of the loop body: it either ends the payload or counts one failure, and touches nothing else. */
  lemma StepAccounting(s: Settings, net: Network, st: EngineState, payload: Combination, data: map<string, string>, attempt: nat)
    ensures var step := AttemptStep(s, net, st, payload, data, attempt);
            var c, c' := st.counters, step.state.counters;
            && c'.total == c.total
            && (c.baseline.Some? ==> c'.baseline == c.baseline)
            && (step.done ==>
                  && c'.success + c'.completed == c.success + c.completed + 1
                  && c'.success == c.success + (if step.record.Some? then 1 else 0)
                  && c'.results == c.results + (if step.record.Some? then [step.record.value] else [])
                  && c'.flags == c.flags + (if step.record.Some? then step.record.value.flags else [])
                  && c'.retried == c.retried && c'.errors == c.errors
                  && step.state.stopFlag == (st.stopFlag || (step.record.Some? && s.autoStop))
                  && (step.record.Some? ==> step.record.value.payload == payload && |step.record.value.response| <= 2000))
            && (!step.done ==>
                  && step.record.None? && step.state.stopFlag == st.stopFlag
                  && c'.success == c.success && c'.results == c.results && c'.flags == c.flags
                  && (attempt < s.retries ==> c'.retried == c.retried + 1 && c'.errors == c.errors && c'.completed == c.completed)
                  && (attempt >= s.retries ==> c'.retried == c.retried && c'.errors == c.errors + 1 && c'.completed == c.completed + 1))
  {
    var step := AttemptStep(s, net, st, payload, data, attempt);
    match net(data, attempt)
    case Response(text, status) =>
      var st1 := WithBaseline(st, |text|);
      var verdict := Verdict(s.criteria, s.search, text, |text|, status, st1.counters.baseline);
      if verdict == Some(true) {
        var rec := Record(payload, |text|, status, ExtractFlags(text), Snippet(text));
        assert step == Step(Succeeded(s, st1, rec), true, Some(rec));
      } else if verdict == Some(false) {
        assert step == Step(Completed(st1), true, None);
      } else {
        assert step == Step(Failure(s, st1, attempt), false, None);
      }
    case _ =>
      assert step == Step(Failure(s, st, attempt), false, None);
  }

  /**
   * Attempt accounting: a payload ends exactly once, either as one success
   * (with its record appended and its flags extended) or as one completion;
   * at most `retries` retries and at most one error are counted; a success
   * raises the stop flag exactly when auto-stop is on; the total, and a
   * baseline already set, are untouched.
   */
  lemma {:induction false} AttemptsAccounting(s: Settings, net: Network, st: EngineState, payload: Combination, data: map<string, string>, attempt: nat)
    requires attempt <= s.retries
    ensures var (st', r) := AttemptsFrom(s, net, st, payload, data, attempt);
            var c, c' := st.counters, st'.counters;
            && c'.success + c'.completed == c.success + c.completed + 1
            && c'.success == c.success + (if r.Some? then 1 else 0)
            && c'.results == c.results + (if r.Some? then [r.value] else [])
            && c'.flags == c.flags + (if r.Some? then r.value.flags else [])
            && c.retried <= c'.retried <= c.retried + (s.retries - attempt)
            && c.errors <= c'.errors <= c.errors + 1
            && (c'.errors == c.errors + 1 ==> r.None? && c'.retried == c.retried + (s.retries - attempt))
            && c'.total == c.total
            && (c.baseline.Some? ==> c'.baseline == c.baseline)
            && st'.stopFlag == (st.stopFlag || (r.Some? && s.autoStop))
            && (r.Some? ==> r.value.payload == payload && |r.value.response| <= 2000)
    decreases s.retries - attempt
  {
    var step := AttemptStep(s, net, st, payload, data, attempt);
    StepAccounting(s, net, st, payload, data, attempt);
    if !step.done && attempt < s.retries {
      AttemptsAccounting(s, net, step.state, payload, data, attempt + 1);
    }
  }

  /** The full accounting for one launched payload (retries non-negative). */
  lemma LaunchAccounting(s: Settings, net: Network, st: EngineState, payload: Combination)
    requires s.retries >= 0
    ensures var (st', r) := LaunchEffect(s, net, st, payload);
            var c, c' := st.counters, st'.counters;
            && c'.success + c'.completed == c.success + c.completed + 1
            && c'.success == c.success + (if r.Some? then 1 else 0)
            && c'.results == c.results + (if r.Some? then [r.value] else [])
            && c'.flags == c.flags + (if r.Some? then r.value.flags else [])
            && c.retried <= c'.retried <= c.retried + s.retries
            && c.errors <= c'.errors <= c.errors + 1
            && (c'.errors == c.errors + 1 ==> r.None? && c'.retried == c.retried + s.retries)
            && c'.total == c.total
            && (c.baseline.Some? ==> c'.baseline == c.baseline)
            && st'.stopFlag == (st.stopFlag || (r.Some? && s.autoStop))
            && (r.Some? ==> r.value.payload == payload && |r.value.response| <= 2000)
  {
    AttemptsAccounting(s, net, st, payload, RequestData(s.template, payload), 0);
  }

  /** Appending a record extends the flag list by that record's flags. */
  lemma AllFlagsSnoc(results: seq<Record>, rec: Record)
    ensures AllFlags(results + [rec]) == AllFlags(results) + rec.flags
  {
    assert (results + [rec])[..|results|] == results;
  }

  /** Launching a payload keeps the collections consistent with the counters. */
  lemma LaunchKeepsConsistent(s: Settings, net: Network, st: EngineState, payload: Combination)
    requires Consistent(st.counters)
    ensures Consistent(LaunchEffect(s, net, st, payload).0.counters)
  {
    if s.retries >= 0 {
      AttemptsAccounting(s, net, st, payload, RequestData(s.template, payload), 0);
      var (st', r) := LaunchEffect(s, net, st, payload);
      var c, c' := st.counters, st'.counters;
      if r.Some? {
        assert c'.results == c.results + [r.value];
        assert c'.flags == c.flags + r.value.flags;
        AllFlagsSnoc(c.results, r.value);
      } else {
        assert c'.results == c.results;
        assert c'.flags == c.flags;
      }
      assert c'.success == c.success + (if r.Some? then 1 else 0);
    }
  }

  /**
   * The first response ever received fixes the baseline at its length: with
   * no baseline yet, if attempts `attempt` to `a - 1` all raised and attempt
   * `a` (within the retries) gets a response, the baseline becomes that
   * response's length, whatever the verdict and the later attempts.
   */
  lemma {:induction false} FirstResponseAt(s: Settings, net: Network, st: EngineState, payload: Combination, data: map<string, string>,
                                           attempt: nat, a: nat, text: string, status: int)
    requires attempt <= a <= s.retries && st.counters.baseline.None?
    requires forall b :: attempt <= b < a ==> !net(data, b).Response?
    requires net(data, a) == Response(text, status)
    ensures AttemptsFrom(s, net, st, payload, data, attempt).0.counters.baseline == Some(|text|)
    decreases a - attempt
  {
    var step := AttemptStep(s, net, st, payload, data, attempt);
    if attempt < a {
      assert !net(data, attempt).Response?;
      assert step.state == Failure(s, st, attempt) && !step.done;
      FirstResponseAt(s, net, step.state, payload, data, attempt + 1, a, text, status);
    } else {
      assert step.state.counters.baseline == Some(|text|);
      if !step.done && attempt < s.retries {
        AttemptsAccounting(s, net, step.state, payload, data, attempt + 1);
      }
    }
  }

  /** For a whole payload: after attempts that all raised, the first response sets the baseline to its length. */
  lemma FirstResponseSetsBaseline(s: Settings, net: Network, st: EngineState, payload: Combination, a: nat, text: string, status: int)
    requires a <= s.retries && st.counters.baseline.None?
    requires forall b :: 0 <= b < a ==> !net(RequestData(s.template, payload), b).Response?
    requires net(RequestData(s.template, payload), a) == Response(text, status)
    ensures LaunchEffect(s, net, st, payload).0.counters.baseline == Some(|text|)
  {
    FirstResponseAt(s, net, st, payload, RequestData(s.template, payload), 0, a, text, status);
  }

  /** A payload whose every attempt times out is retried `retries` times and then counted as one error and one completion. */
  lemma {:induction false} AllTimeouts(s: Settings, net: Network, st: EngineState, payload: Combination, data: map<string, string>, attempt: nat)
    requires attempt <= s.retries
    requires forall a :: attempt <= a <= s.retries ==> net(data, a) == Timeout
    ensures var (st', r) := AttemptsFrom(s, net, st, payload, data, attempt);
            && r.None? && st'.stopFlag == st.stopFlag
            && st'.counters == st.counters.(retried := st.counters.retried + (s.retries - attempt),
                                            errors := st.counters.errors + 1,
                                            completed := st.counters.completed + 1)
    decreases s.retries - attempt
  {
    if attempt < s.retries {
      AllTimeouts(s, net, AttemptStep(s, net, st, payload, data, attempt).state, payload, data, attempt + 1);
    }
  }

  /**
   * Each failed attempt before the deciding response counts one retry: if
   * attempts `attempt` to `a - 1` all raised and attempt `a` gets a response
   * that the classifier decides (for success or failure), the payload was
   * retried exactly `a - attempt` times and no error is counted.
   */
  lemma {:induction false} RetriesThenDecided(s: Settings, net: Network, st: EngineState, payload: Combination, data: map<string, string>,
                                              attempt: nat, a: nat, text: string, status: int)
    requires attempt <= a <= s.retries
    requires forall b :: attempt <= b < a ==> !net(data, b).Response?
    requires net(data, a) == Response(text, status)
    requires Verdict(s.criteria, s.search, text, |text|, status, WithBaseline(st, |text|).counters.baseline).Some?
    ensures var c' := AttemptsFrom(s, net, st, payload, data, attempt).0.counters;
            c'.retried == st.counters.retried + (a - attempt) && c'.errors == st.counters.errors
    decreases a - attempt
  {
    var step := AttemptStep(s, net, st, payload, data, attempt);
    if attempt < a {
      assert !net(data, attempt).Response?;
      assert step.state == Failure(s, st, attempt) && !step.done;
      assert step.state.counters.retried == st.counters.retried + 1;
      assert WithBaseline(step.state, |text|).counters.baseline == WithBaseline(st, |text|).counters.baseline;
      RetriesThenDecided(s, net, step.state, payload, data, attempt + 1, a, text, status);
    } else {
      var st1 := WithBaseline(st, |text|);
      var v := Verdict(s.criteria, s.search, text, |text|, status, st1.counters.baseline);
      if v.value {
        var rec := Record(payload, |text|, status, ExtractFlags(text), Snippet(text));
        assert step == Step(Succeeded(s, st1, rec), true, Some(rec));
      } else {
        assert step == Step(Completed(st1), true, None);
      }
    }
  }

  /** One timeout, then a response the status rule accepts, with one retry allowed: one retry, one success, no error. */
  lemma TimeoutThenSuccess(s: Settings, net: Network, st: EngineState, payload: Combination, text: string)
    requires s.retries == 1
    requires s.criteria == Criteria([], [], [], None, None, Some(200), false)
    requires net(RequestData(s.template, payload), 0) == Timeout
    requires net(RequestData(s.template, payload), 1) == Response(text, 200)
    ensures var (st', r) := LaunchEffect(s, net, st, payload);
            var c, c' := st.counters, st'.counters;
            && r.Some? && c'.success == c.success + 1
            && c'.retried == c.retried + 1 && c'.errors == c.errors
  {
    var data := RequestData(s.template, payload);
    var st1 := WithBaseline(st, |text|);
    StatusOnly(s.search, text, |text|, 200, 200, st1.counters.baseline);
    RetriesThenDecided(s, net, st, payload, data, 0, 1, text, 200);
    var st2 := Failure(s, st, 0);
    assert AttemptStep(s, net, st, payload, data, 0) == Step(st2, false, None);
    StatusOnly(s.search, text, |text|, 200, 200, WithBaseline(st2, |text|).counters.baseline);
    LaunchAccounting(s, net, st, payload);
  }

  /**
   * Two timeouts, then a response that the status rule accepts, with two
   * retries allowed: two retries, one success, no error, and the record
   * carries the response.
   */
  lemma RetriedThenSucceeded(s: Settings, net: Network, st: EngineState, payload: Combination, text: string)
    requires s.retries == 2
    requires s.criteria == Criteria([], [], [], None, None, Some(200), false)
    requires net(RequestData(s.template, payload), 0) == Timeout
    requires net(RequestData(s.template, payload), 1) == Timeout
    requires net(RequestData(s.template, payload), 2) == Response(text, 200)
    ensures var (st', r) := LaunchEffect(s, net, st, payload);
            var c, c' := st.counters, st'.counters;
            && r == Some(Record(payload, |text|, 200, ExtractFlags(text), Snippet(text)))
            && c'.retried == c.retried + 2 && c'.success == c.success + 1
            && c'.errors == c.errors && c'.completed == c.completed
  {
    var data := RequestData(s.template, payload);
    var st1 := Failure(s, st, 0);
    var st2 := Failure(s, st1, 1);
    assert AttemptStep(s, net, st, payload, data, 0) == Step(st1, false, None);
    assert AttemptStep(s, net, st1, payload, data, 1) == Step(st2, false, None);
    var st3 := WithBaseline(st2, |text|);
    StatusOnly(s.search, text, |text|, 200, 200, st3.counters.baseline);
    var rec := Record(payload, |text|, 200, ExtractFlags(text), Snippet(text));
    assert AttemptStep(s, net, st2, payload, data, 2) == Step(Succeeded(s, st3, rec), true, Some(rec));
    assert AttemptsFrom(s, net, st, payload, data, 0) == AttemptsFrom(s, net, st1, payload, data, 1);
    assert AttemptsFrom(s, net, st1, payload, data, 1) == AttemptsFrom(s, net, st2, payload, data, 2);
  }

  // ---------------------------------------------------------------------------
  // Properties of a run

  /**
   * Auto-stop does not cut a batch short: when the first payload of a batch
   * succeeds under auto-stop, the second is still sent and accounted for,
   * although `try_one` would skip it if it checked the flag at that point.
   */
  lemma BatchOutlivesStop(s: Settings, net: Network, st: EngineState, p1: Combination, p2: Combination)
    requires s.retries >= 0 && s.autoStop && LaunchEffect(s, net, st, p1).1.Some?
    ensures var st' := BatchEffect(s, net, st, [p1, p2]);
            && st'.stopFlag
            && st'.counters.success + st'.counters.completed == st.counters.success + st.counters.completed + 2
    ensures TryEffect(s, net, LaunchEffect(s, net, st, p1).0, p2) == (LaunchEffect(s, net, st, p1).0, None)
  {
    var st1 := LaunchEffect(s, net, st, p1).0;
    LaunchAccounting(s, net, st, p1);
    LaunchAccounting(s, net, st1, p2);
    assert [p1, p2][1..] == [p2];
    assert BatchEffect(s, net, st1, [p2]) == LaunchEffect(s, net, st1, p2).0;
  }

  /** The number of payloads a batch walk from offset `i` has left. */
  function Remaining(payloads: seq<Combination>, i: nat): nat {
    if i >= |payloads| then 0 else |payloads| - i
  }

  lemma {:induction false} BatchAccounting(s: Settings, net: Network, st: EngineState, batch: seq<Combination>)
    requires s.retries >= 0
    ensures var st' := BatchEffect(s, net, st, batch);
            && st'.counters.total == st.counters.total
            && st'.counters.success + st'.counters.completed == st.counters.success + st.counters.completed + |batch|
            && (st.counters.baseline.Some? ==> st'.counters.baseline == st.counters.baseline)
            && (!s.autoStop ==> st'.stopFlag == st.stopFlag)
            && (Consistent(st.counters) ==> Consistent(st'.counters))
    decreases |batch|
  {
    if batch != [] {
      LaunchAccounting(s, net, st, batch[0]);
      if Consistent(st.counters) {
        LaunchKeepsConsistent(s, net, st, batch[0]);
      }
      BatchAccounting(s, net, LaunchEffect(s, net, st, batch[0]).0, batch[1..]);
    }
  }

  /**
   * Walking the batches never counts more payloads than there are left;
   * without auto-stop every one of them is counted exactly once and the
   * stop flag stays down.
   */
  lemma {:induction false} BatchesAccounting(s: Settings, net: Network, st: EngineState, payloads: seq<Combination>, i: nat)
    requires s.batchSize > 0 && s.retries >= 0
    ensures var st' := BatchesEffect(s, net, st, payloads, i);
            && st'.counters.total == st.counters.total
            && st.counters.success + st.counters.completed <= st'.counters.success + st'.counters.completed
                 <= st.counters.success + st.counters.completed + Remaining(payloads, i)
            && (!s.autoStop && !st.stopFlag ==>
                  !st'.stopFlag && st'.counters.success + st'.counters.completed == st.counters.success + st.counters.completed + Remaining(payloads, i))
            && (st.counters.baseline.Some? ==> st'.counters.baseline == st.counters.baseline)
            && (Consistent(st.counters) ==> Consistent(st'.counters))
    decreases |payloads| - i
  {
    if i < |payloads| && !st.stopFlag {
      var hi := if i + s.batchSize <= |payloads| then i + s.batchSize else |payloads|;
      var batch := payloads[i..hi];
      BatchAccounting(s, net, st, batch);
      BatchesAccounting(s, net, BatchEffect(s, net, st, batch), payloads, i + s.batchSize);
    }
  }

  /** With a negative retry count a batch sends nothing and changes nothing. */
  lemma {:induction false} BatchNegativeRetries(s: Settings, net: Network, st: EngineState, batch: seq<Combination>)
    requires s.retries < 0
    ensures BatchEffect(s, net, st, batch) == st
    decreases |batch|
  {
    if batch != [] {
      NegativeRetriesNoop(s, net, st, batch[0]);
      BatchNegativeRetries(s, net, st, batch[1..]);
    }
  }

  /** With a negative retry count the whole batch walk sends nothing and changes nothing. */
  lemma {:induction false} BatchesNegativeRetries(s: Settings, net: Network, st: EngineState, payloads: seq<Combination>, i: nat)
    requires s.batchSize > 0 && s.retries < 0
    ensures BatchesEffect(s, net, st, payloads, i) == st
    decreases |payloads| - i
  {
    if i < |payloads| && !st.stopFlag {
      var hi := if i + s.batchSize <= |payloads| then i + s.batchSize else |payloads|;
      BatchNegativeRetries(s, net, st, payloads[i..hi]);
      BatchesNegativeRetries(s, net, st, payloads, i + s.batchSize);
    }
  }

  /**
   * The stop flag ends the walk between batches: with the flag already up
   * no batch is sent, and the batch that raises it is the last one sent.
   */
  lemma StopEndsWalk(s: Settings, net: Network, st: EngineState, payloads: seq<Combination>, i: nat)
    requires s.batchSize > 0
    ensures st.stopFlag ==> BatchesEffect(s, net, st, payloads, i) == st
    ensures var hi := if i + s.batchSize <= |payloads| then i + s.batchSize else |payloads|;
            i < |payloads| && !st.stopFlag && BatchEffect(s, net, st, payloads[i..hi]).stopFlag ==>
              BatchesEffect(s, net, st, payloads, i) == BatchEffect(s, net, st, payloads[i..hi])
  {
    if i < |payloads| && !st.stopFlag {
      var hi := if i + s.batchSize <= |payloads| then i + s.batchSize else |payloads|;
      BatchesUnfold(s, net, st, payloads, i);
      var st' := BatchEffect(s, net, st, payloads[i..hi]);
      if st'.stopFlag {
        assert BatchesEffect(s, net, st', payloads, i + s.batchSize) == st';
      }
    }
  }

  /**
   * A run from fresh statistics records the size of the payload space as
   * the total and keeps successes and completions within it; without
   * auto-stop, with a positive batch size and a non-negative retry count,
   * every payload ends as exactly one success or one completion; with a
   * negative retry count nothing is sent and nothing but the total is
   * counted; one record per success.
   */
  lemma RunAccounting(s: Settings, net: Network)
    requires Generate(s.env, s.slots).Ok?
    ensures var (st', r) := RunEffect(s, net, EngineState(InitialCounters, false));
            var c := st'.counters;
            && c.total == |Generate(s.env, s.slots).value|
            && c.success + c.completed <= c.total
            && c.success == |c.results| && c.flags == AllFlags(c.results)
            && (r == ZeroBatchSize <==> s.batchSize == 0)
            && (!s.autoStop && s.batchSize > 0 && s.retries >= 0 ==> c.success + c.completed == c.total && !st'.stopFlag)
            && (s.retries < 0 ==> c == InitialCounters.(total := c.total) && !st'.stopFlag)
  {
    var payloads := Generate(s.env, s.slots).value;
    var st1 := EngineState(InitialCounters.(total := |payloads|), false);
    if s.batchSize > 0 {
      if s.retries >= 0 {
        BatchesAccounting(s, net, st1, payloads, 0);
      } else {
        BatchesNegativeRetries(s, net, st1, payloads, 0);
      }
    }
  }

  /** A configuration error stops the run before anything is sent or counted. */
  lemma RunConfigError(s: Settings, net: Network, st: EngineState)
    requires Generate(s.env, s.slots).Err?
    ensures RunEffect(s, net, st) == (st, ConfigFailed(Generate(s.env, s.slots).error))
  {
  }

  // ---------------------------------------------------------------------------
  // The statistics and the engine as objects

  /** `Stats`: the counters a run updates in place. */
  class Stats {
    var total: int
    var completed: int
    var success: int
    var errors: int
    var retried: int
    var baseline: Option<int>
    var results: seq<Record>
    var flags: seq<string>

    constructor ()
      ensures Snapshot() == InitialCounters
    {
      total, completed, success, errors, retried := 0, 0, 0, 0, 0;
      baseline := None;
      results, flags := [], [];
    }

    function Snapshot(): Counters
      reads this
    {
      Counters(total, completed, success, errors, retried, baseline, results, flags)
    }
  }

  class BruteEngine {
    const settings: Settings
    const network: Network
    const stats: Stats
    var stopFlag: bool

    constructor (settings: Settings, network: Network)
      ensures this.settings == settings && this.network == network
      ensures fresh(stats) && State() == EngineState(InitialCounters, false)
    {
      this.settings := settings;
      this.network := network;
      stats := new Stats();
      stopFlag := false;
    }

    function State(): EngineState
      reads this, stats
    {
      EngineState(stats.Snapshot(), stopFlag)
    }

    /** The bookkeeping of an attempt that raised. */
    method Fail(attempt: nat)
      modifies stats
      ensures State() == Failure(settings, old(State()), attempt)
    {
      if attempt < settings.retries {
        stats.retried := stats.retried + 1;
      } else {
        stats.errors := stats.errors + 1;
        stats.completed := stats.completed + 1;
      }
    }

    method SetBaseline(length: nat)
      modifies stats
      ensures State() == WithBaseline(old(State()), length)
    {
      if stats.baseline.None? {
        stats.baseline := Some(length);
      }
    }

    method RecordSuccess(rec: Record)
      modifies this, stats
      ensures State() == Succeeded(settings, old(State()), rec)
    {
      stats.success := stats.success + 1;
      stats.results := stats.results + [rec];
      stats.flags := stats.flags + rec.flags;
      if settings.autoStop {
        stopFlag := true;
      }
    }

    method CountCompleted()
      modifies stats
      ensures State() == Completed(old(State()))
    {
      stats.completed := stats.completed + 1;
    }

    /** One pass of the retry loop's body: send, classify, account. */
    method Attempt(payload: Combination, data: map<string, string>, attempt: nat) returns (done: bool, r: Option<Record>)
      modifies this, stats
      ensures Step(State(), done, r) == AttemptStep(settings, network, old(State()), payload, data, attempt)
    {
      var outcome := network(data, attempt);
      if outcome.Response? {
        var text, status := outcome.text, outcome.status;
        var length := |text|;
        SetBaseline(length);
        var verdict := CheckSuccess(settings.criteria, settings.search, text, length, status, stats.baseline);
        if verdict == Some(true) {
          var found := CollectFlags(text);
          var rec := Record(payload, length, status, found, Snippet(text));
          RecordSuccess(rec);
          return true, Some(rec);
        } else if verdict == Some(false) {
          CountCompleted();
          return true, None;
        }
      }
      Fail(attempt);
      return false, None;
    }

    /** `try_one` past its stop-flag check. */
    method Launch(payload: Combination) returns (r: Option<Record>)
      modifies this, stats
      ensures (State(), r) == LaunchEffect(settings, network, old(State()), payload)
    {
      var data := BuildRequestData(settings.template, payload);
      ghost var start := State();
      var attempt: nat := 0;
      while attempt <= settings.retries
        invariant AttemptsFrom(settings, network, State(), payload, data, attempt) == AttemptsFrom(settings, network, start, payload, data, 0)
        decreases settings.retries + 1 - attempt
      {
        var done;
        done, r := Attempt(payload, data, attempt);
        if done {
          return;
        }
        attempt := attempt + 1;
      }
      return None;
    }

    /** `try_one`. */
    method TryOne(payload: Combination) returns (r: Option<Record>)
      modifies this, stats
      ensures (State(), r) == TryEffect(settings, network, old(State()), payload)
    {
      if stopFlag {
        return None;
      }
      r := Launch(payload);
    }

    /**
     * One batch of `run`. Every task of a batch passes `try_one`'s stop-flag
     * check before any response of the batch is handled, so a batch
     * launches all of its payloads; they are handled one after another.
     */
    method RunBatch(batch: seq<Combination>)
      modifies this, stats
      ensures State() == BatchEffect(settings, network, old(State()), batch)
    {
      ghost var before := State();
      var k := 0;
      while k < |batch|
        invariant 0 <= k <= |batch|
        invariant BatchEffect(settings, network, State(), batch[k..]) == BatchEffect(settings, network, before, batch)
      {
        assert batch[k..][1..] == batch[k + 1..];
        var _ := Launch(batch[k]);
        k := k + 1;
      }
    }

    /** The batch loop of `run`: stop when the payloads run out or the stop flag is up. */
    method RunBatches(payloads: seq<Combination>)
      requires settings.batchSize > 0
      modifies this, stats
      ensures State() == BatchesEffect(settings, network, old(State()), payloads, 0)
    {
      ghost var start := State();
      var i: nat := 0;
      while i < |payloads|
        invariant BatchesEffect(settings, network, State(), payloads, i) == BatchesEffect(settings, network, start, payloads, 0)
        decreases |payloads| - i
      {
        if stopFlag {
          break;
        }
        var hi := if i + settings.batchSize <= |payloads| then i + settings.batchSize else |payloads|;
        BatchesUnfold(settings, network, State(), payloads, i);
        RunBatch(payloads[i..hi]);
        i := i + settings.batchSize;
      }
    }

    /** `run`: generate the payloads, record the total, walk the batches. */
    method Run() returns (r: RunResult)
      modifies this, stats
      ensures (State(), r) == RunEffect(settings, network, old(State()))
    {
      var generated := GeneratePayloads(settings.env, settings.slots);
      if generated.Err? {
        return ConfigFailed(generated.error);
      }
      var payloads := generated.value;
      stats.total := |payloads|;
      if settings.batchSize == 0 {
        return ZeroBatchSize;
      }
      if settings.batchSize < 0 {
        return Finished;
      }
      RunBatches(payloads);
      return Finished;
    }
  }
}
