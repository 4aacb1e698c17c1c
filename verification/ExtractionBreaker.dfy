/** Atom extraction with a circuit breaker on schema failures. */
module ExtractionBreaker {
  import opened Wrappers

  datatype Config = Config(threshold: real, minAttempts: int, retryCount: int)

  /** What the constructor accepts. */
  predicate Accepted(c: Config) {
    0.0 < c.threshold <= 1.0 && c.minAttempts > 0 && c.retryCount >= 0
  }

  /** One invocation of the extraction chain: the raw atoms, each valid or not, or
      an exception that looks like a schema failure or not. */
  datatype Reply = Atoms(valid: seq<bool>) | SchemaError | TransientError

  /** Everything one call meets: the evidence, the chain's replies by attempt, and
      the number of rule atoms, unless rule extraction raises. */
  datatype Input = Input(found: bool, intact: bool, complete: bool, chain: nat -> Reply, rules: Option<nat>)

  datatype Outcome = IntegrityFailure | SkippedIncomplete | Empty | Success | SchemaFailed | TransientFailed

  datatype Metrics = Metrics(attempts: nat, success: nat, schemaFailures: nat, empty: nat, integrity: nat, skipped: nat,
                             transient: nat)

  datatype State = State(metrics: Metrics, paused: bool)

  const INITIAL: State := State(Metrics(0, 0, 0, 0, 0, 0, 0), false)

  /** Failures per attempt exceed the threshold, with enough attempts made. */
  predicate Tripped(c: Config, m: Metrics) {
    m.attempts >= c.minAttempts && m.attempts > 0 && m.schemaFailures as real / m.attempts as real > c.threshold
  }

  function CountInvalid(valid: seq<bool>): nat {
    if valid == [] then 0 else (if valid[0] then 0 else 1) + CountInvalid(valid[1..])
  }

  /** The attempt at which the retry loop ends: the first that is not a transient
      failure, or the last one allowed. */
  function LastAttempt(chain: nat -> Reply, k: nat, retries: nat): nat
    decreases retries - k
  {
    if k < retries && chain(k) == TransientError then LastAttempt(chain, k + 1, retries) else k
  }

  /** The result of one call: the new state, the outcome or an escaping
      exception, and how often the chain was invoked. */
  datatype Call = Call(state: State, outcome: Option<Outcome>, invocations: nat)

  function CountFailures(c: Config, s: State, failures: nat): State {
    if failures == 0 then s
    else
      var m := s.metrics.(schemaFailures := s.metrics.schemaFailures + failures);
      State(m, s.paused || Tripped(c, m))
  }

  function Extract(c: Config, s0: State, i: Input): Call
    requires Accepted(c)
  {
    var m := s0.metrics.(attempts := s0.metrics.attempts + 1);
    var s := s0.(metrics := m);
    if !i.found || !i.intact then
      Call(s.(metrics := m.(integrity := m.integrity + 1)), Some(IntegrityFailure), 0)
    else if !i.complete then
      Call(s.(metrics := m.(skipped := m.skipped + 1)), Some(SkippedIncomplete), 0)
    else if s.paused || Tripped(c, m) then
      var p := s.(paused := true);
      match i.rules
      case None => Call(p, None, 0)
      case Some(n) =>
        if n == 0 then Call(p.(metrics := m.(empty := m.empty + 1)), Some(Empty), 0)
        else Call(p.(metrics := m.(success := m.success + 1)), Some(Success), 0)
    else
      var last := LastAttempt(i.chain, 0, c.retryCount);
      match i.chain(last)
      case SchemaError => Call(CountFailures(c, s, 1), Some(SchemaFailed), last + 1)
      case TransientError => Call(s.(metrics := m.(transient := m.transient + 1)), Some(TransientFailed), last + 1)
      case Atoms(valid) =>
        if valid == [] then Call(s.(metrics := m.(empty := m.empty + 1)), Some(Empty), last + 1)
        else
          var failures := CountInvalid(valid);
          var f := CountFailures(c, s, failures);
          if failures == |valid| then Call(f, Some(SchemaFailed), last + 1)
          else Call(f.(metrics := f.metrics.(success := f.metrics.success + 1)), Some(Success), last + 1)
  }

  class MemoryExtractorService {
    const config: Config
    var metrics: Metrics
    var llmExtractionPaused: bool

    function Model(): State
      reads this
    {
      State(metrics, llmExtractionPaused)
    }

    constructor (config: Config)
      requires Accepted(config)
      ensures this.config == config && Model() == INITIAL
    {
      this.config := config;
      metrics, llmExtractionPaused := Metrics(0, 0, 0, 0, 0, 0, 0), false;
    }

    method ShouldPause() returns (pause: bool)
      requires Accepted(config)
      modifies this`llmExtractionPaused
      ensures pause <==> old(llmExtractionPaused) || Tripped(config, metrics)
      ensures llmExtractionPaused == pause
    {
      if llmExtractionPaused {
        return true;
      }
      if metrics.attempts < config.minAttempts {
        return false;
      }
      if metrics.schemaFailures as real / metrics.attempts as real > config.threshold {
        llmExtractionPaused := true;
        return true;
      }
      return false;
    }

    method CountSchemaFailures(failures: nat)
      requires Accepted(config)
      modifies this
      ensures Model() == CountFailures(config, old(Model()), failures)
    {
      if failures > 0 {
        metrics := metrics.(schemaFailures := metrics.schemaFailures + failures);
        if metrics.attempts >= config.minAttempts
          && metrics.schemaFailures as real / metrics.attempts as real > config.threshold
        {
          llmExtractionPaused := true;
        }
      }
    }

    method ExtractAtomsFromEvidence(i: Input) returns (outcome: Option<Outcome>, ghost invocations: nat)
      requires Accepted(config)
      modifies this
      ensures Call(Model(), outcome, invocations) == Extract(config, old(Model()), i)
    {
      invocations := 0;
      metrics := metrics.(attempts := metrics.attempts + 1);
      if !i.found {
        metrics := metrics.(integrity := metrics.integrity + 1);
        return Some(IntegrityFailure), 0;
      }
      if !i.intact {
        metrics := metrics.(integrity := metrics.integrity + 1);
        return Some(IntegrityFailure), 0;
      }
      if !i.complete {
        metrics := metrics.(skipped := metrics.skipped + 1);
        return Some(SkippedIncomplete), 0;
      }
      var pause := ShouldPause();
      if pause {
        if i.rules.None? {
          return None, 0;
        }
        if i.rules.value == 0 {
          metrics := metrics.(empty := metrics.empty + 1);
          return Some(Empty), 0;
        }
        metrics := metrics.(success := metrics.success + 1);
        return Some(Success), 0;
      }
      var attempt: nat := 0;
      var reply := TransientError;
      while true
        invariant invocations == attempt <= config.retryCount
        invariant LastAttempt(i.chain, 0, config.retryCount) == LastAttempt(i.chain, attempt, config.retryCount)
        decreases config.retryCount - attempt
      {
        reply := i.chain(attempt);
        invocations := invocations + 1;
        if reply != TransientError || attempt >= config.retryCount {
          break;
        }
        attempt := attempt + 1;
      }
      match reply {
        case SchemaError =>
          CountSchemaFailures(1);
          return Some(SchemaFailed), invocations;
        case TransientError =>
          metrics := metrics.(transient := metrics.transient + 1);
          return Some(TransientFailed), invocations;
        case Atoms(valid) =>
          if valid == [] {
            metrics := metrics.(empty := metrics.empty + 1);
            return Some(Empty), invocations;
          }
          var failures := CountEach(valid);
          CountSchemaFailures(failures);
          if failures == |valid| {
            return Some(SchemaFailed), invocations;
          }
          metrics := metrics.(success := metrics.success + 1);
          return Some(Success), invocations;
      }
    }
  }

  method CountEach(valid: seq<bool>) returns (failures: nat)
    ensures failures == CountInvalid(valid)
  {
    failures := 0;
    for k := 0 to |valid|
      invariant CountInvalid(valid) == failures + CountInvalid(valid[k..])
    {
      assert valid[k..][0] == valid[k] && valid[k..][1..] == valid[k + 1..];
      if !valid[k] {
        failures := failures + 1;
      }
    }
  }

  // ---------- one call ----------

  lemma {:induction false} LastAttemptBound(chain: nat -> Reply, k: nat, retries: nat)
    requires k <= retries
    ensures k <= LastAttempt(chain, k, retries) <= retries
    ensures forall j :: k <= j < LastAttempt(chain, k, retries) ==> chain(j) == TransientError
    ensures LastAttempt(chain, k, retries) < retries ==> chain(LastAttempt(chain, k, retries)) != TransientError
    decreases retries - k
  {
    if k < retries && chain(k) == TransientError {
      LastAttemptBound(chain, k + 1, retries);
    }
  }

  /** The chain is invoked only when the breaker is closed: not paused, and either
      too few attempts or a failure rate within the threshold.  One call invokes
      it at most once more than the retry count, and only transient failures are
      retried. */
  lemma InvokedOnlyWhenClosed(c: Config, s: State, i: Input)
    requires Accepted(c)
    ensures var r := Extract(c, s, i);
      && r.invocations <= c.retryCount + 1
      && (r.invocations > 0 ==> !s.paused && !Tripped(c, s.metrics.(attempts := s.metrics.attempts + 1)))
      && (forall j :: 0 <= j < r.invocations - 1 ==> i.chain(j) == TransientError)
  {
    LastAttemptBound(i.chain, 0, c.retryCount);
  }

  // ---------- runs ----------

  /** Counters of a run: outcomes of calls that returned, calls that raised, and
      chain invocations. */
  datatype Tally = Tally(schemaFailed: nat, raised: nat, invocations: nat)

  function Run(c: Config, inputs: seq<Input>): (State, Tally)
    requires Accepted(c)
  {
    if inputs == [] then (INITIAL, Tally(0, 0, 0))
    else
      var (s, t) := Run(c, inputs[..|inputs| - 1]);
      var r := Extract(c, s, inputs[|inputs| - 1]);
      (r.state, Tally(t.schemaFailed + (if r.outcome == Some(SchemaFailed) then 1 else 0),
                      t.raised + (if r.outcome == None then 1 else 0),
                      t.invocations + r.invocations))
  }

  /** One call adds one attempt and, if it returns, one outcome; a schema failure
      outcome comes with a counted failure. */
  lemma CallAccounts(c: Config, s: State, i: Input)
    requires Accepted(c)
    ensures var (m, n, r) := (s.metrics, Extract(c, s, i).state.metrics, Extract(c, s, i).outcome);
      && n.attempts == m.attempts + 1
      && n.success == m.success + (if r == Some(Success) then 1 else 0)
      && n.empty == m.empty + (if r == Some(Empty) then 1 else 0)
      && n.integrity == m.integrity + (if r == Some(IntegrityFailure) then 1 else 0)
      && n.skipped == m.skipped + (if r == Some(SkippedIncomplete) then 1 else 0)
      && n.transient == m.transient + (if r == Some(TransientFailed) then 1 else 0)
      && n.schemaFailures >= m.schemaFailures + (if r == Some(SchemaFailed) then 1 else 0)
  {
  }

  /** Every attempt that returns is counted under exactly one outcome, and every
      schema failure outcome under at least one schema failure. */
  lemma {:induction false} RunsAreAccounted(c: Config, inputs: seq<Input>)
    requires Accepted(c)
    ensures var (s, t) := Run(c, inputs);
      && s.metrics.attempts == |inputs|
      && s.metrics.attempts == s.metrics.success + s.metrics.empty + s.metrics.integrity + s.metrics.skipped
           + s.metrics.transient + t.schemaFailed + t.raised
      && t.schemaFailed <= s.metrics.schemaFailures
  {
    if inputs != [] {
      var front := inputs[..|inputs| - 1];
      RunsAreAccounted(c, front);
      CallAccounts(c, Run(c, front).0, inputs[|inputs| - 1]);
    }
  }

  /** Pausing is a latch: once paused, every later state is paused and the chain
      is never invoked again; and a run is paused whenever a schema failure left
      the rate over the threshold. */
  lemma {:induction false} PauseIsALatch(c: Config, inputs: seq<Input>, k: nat)
    requires Accepted(c) && k <= |inputs|
    requires Run(c, inputs[..k]).0.paused
    ensures Run(c, inputs).0.paused
    ensures Run(c, inputs).1.invocations == Run(c, inputs[..k]).1.invocations
  {
    if k < |inputs| {
      var front := inputs[..|inputs| - 1];
      assert front[..k] == inputs[..k];
      PauseIsALatch(c, front, k);
    } else {
      assert inputs[..k] == inputs;
    }
  }

  /** The breaker opens exactly when needed: a call leaves it open if and only if
      it was open, or the call counted a schema failure or was about to use the
      chain with the rate over the threshold. */
  lemma OpensExactly(c: Config, s: State, i: Input)
    requires Accepted(c)
    ensures var r := Extract(c, s, i);
      var before := s.metrics.(attempts := s.metrics.attempts + 1);
      var usable := i.found && i.intact && i.complete;
      r.state.paused <==>
        s.paused
        || (usable && Tripped(c, before))
        || (r.state.metrics.schemaFailures > s.metrics.schemaFailures && Tripped(c, r.state.metrics))
  {
  }

  // ---------- the threshold, in numbers ----------

  /** The counted failures exceed the threshold's share of the attempts. */
  ghost predicate TooManyFailures(c: Config, attempts: nat, failures: nat) {
    attempts >= c.minAttempts && failures as real > c.threshold * attempts as real
  }

  lemma TrippedExact(c: Config, m: Metrics)
    requires Accepted(c)
    ensures Tripped(c, m) <==> TooManyFailures(c, m.attempts, m.schemaFailures)
  {
    if m.attempts > 0 {
      var failures, attempts := m.schemaFailures as real, m.attempts as real;
      assert failures / attempts * attempts == failures;
      if failures / attempts > c.threshold {
        ScaleUp(failures / attempts, c.threshold, attempts);
      } else {
        ScaleUp(c.threshold, failures / attempts, attempts);
      }
    }
  }

  lemma ScaleUp(a: real, b: real, scale: real)
    requires scale > 0.0 && a >= b
    ensures a * scale >= b * scale && (a > b ==> a * scale > b * scale)
  {
    assert a * scale - b * scale == (a - b) * scale;
  }

  /** How many of the chain's atoms a call counts as schema failures. */
  ghost function Rejected(reply: Reply): nat {
    match reply
    case SchemaError => 1
    case TransientError => 0
    case Atoms(valid) => multiset(valid)[false]
  }

  lemma {:induction false} CountInvalidExact(valid: seq<bool>)
    ensures CountInvalid(valid) == multiset(valid)[false]
  {
    if valid != [] {
      CountInvalidExact(valid[1..]);
      assert valid == [valid[0]] + valid[1..];
    }
  }

  /** A call leaves the breaker open exactly when it was open, or the evidence was
      usable and the failures counted before the chain, or the failures it added
      itself, exceed the threshold's share of the attempts. */
  lemma OpensByCounts(c: Config, s: State, i: Input)
    requires Accepted(c)
    ensures var r := Extract(c, s, i);
      var attempts, before := s.metrics.attempts + 1, s.metrics.schemaFailures;
      var usable := i.found && i.intact && i.complete;
      var closed := usable && !s.paused && !TooManyFailures(c, attempts, before);
      var added := if closed then Rejected(i.chain(LastAttempt(i.chain, 0, c.retryCount))) else 0;
      && r.state.metrics.attempts == attempts && r.state.metrics.schemaFailures == before + added
      && (r.state.paused <==>
            s.paused || (usable && !closed) || (added > 0 && TooManyFailures(c, attempts, before + added)))
  {
    var before := s.metrics.(attempts := s.metrics.attempts + 1);
    TrippedExact(c, before);
    var reply := i.chain(LastAttempt(i.chain, 0, c.retryCount));
    if reply.Atoms? {
      CountInvalidExact(reply.valid);
    }
    TrippedExact(c, before.(schemaFailures := before.schemaFailures + Rejected(reply)));
  }
}
