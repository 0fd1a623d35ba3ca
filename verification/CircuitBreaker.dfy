/** circuit_breaker.CircuitBreaker: stop calling a backend that keeps failing, then let a few probes through. */
module CircuitBreaker {
  datatype Mode = Closed | Open | HalfOpen

  /** Thresholds and durations may be any integer: nothing checks the configuration. */
  datatype Config = Config(failureThreshold: int, successThreshold: int, openDuration: int, halfOpenMaxAllowed: int)

  datatype Circuit = Circuit(mode: Mode, failures: int, successes: int, halfOpenAllowed: int, lastFailure: int)

  const START: Circuit := Circuit(Closed, 0, 0, 0, 0)

  /** What happens to a breaker, with the time it happens at. */
  datatype Event = Allow(at: int) | Success(at: int) | Failure(at: int)

  function To(c: Circuit, mode: Mode): Circuit {
    Circuit(mode, 0, 0, 0, c.lastFailure)
  }

  predicate Admits(cfg: Config, c: Circuit, now: int) {
    match c.mode
    case Closed => true
    case Open => now - c.lastFailure > cfg.openDuration
    case HalfOpen => c.halfOpenAllowed < cfg.halfOpenMaxAllowed
  }

  function Step(cfg: Config, c: Circuit, e: Event): Circuit {
    match e
    case Allow(now) =>
      if c.mode.Closed? || !Admits(cfg, c, now) then c
      else if c.mode.Open? then To(c, HalfOpen).(halfOpenAllowed := 1)
      else c.(halfOpenAllowed := c.halfOpenAllowed + 1)
    case Success(_) =>
      if c.mode.HalfOpen? then
        if c.successes + 1 >= cfg.successThreshold then To(c, Closed)
        else c.(halfOpenAllowed := c.halfOpenAllowed - 1, successes := c.successes + 1)
      else if c.mode.Closed? then c.(failures := 0)
      else c
    case Failure(now) =>
      if c.mode.HalfOpen? then To(c.(lastFailure := now), Open)
      else if c.mode.Closed? then
        if c.failures + 1 >= cfg.failureThreshold then To(c.(lastFailure := now), Open)
        else c.(failures := c.failures + 1)
      else c
  }

  class Breaker {
    const config: Config
    var state: Mode
    var failureCount: int
    var successCount: int
    var halfOpenAllowed: int
    var lastFailureTime: int

    ghost function Now(): Circuit
      reads this
    {
      Circuit(state, failureCount, successCount, halfOpenAllowed, lastFailureTime)
    }

    constructor (cfg: Config)
      ensures config == cfg && Now() == START
    {
      config, state := cfg, Closed;
      failureCount, successCount, halfOpenAllowed, lastFailureTime := 0, 0, 0, 0;
    }

    method TransitionTo(mode: Mode)
      modifies this
      ensures Now() == To(old(Now()), mode)
    {
      state := mode;
      failureCount, successCount, halfOpenAllowed := 0, 0, 0;
    }

    method AllowRequest(now: int) returns (allowed: bool)
      modifies this
      ensures allowed == Admits(config, old(Now()), now) && (old(state).Closed? ==> allowed)
      ensures Now() == Step(config, old(Now()), Allow(now))
    {
      match state
      case Closed =>
        return true;
      case Open =>
        if now - lastFailureTime > config.openDuration {
          TransitionTo(HalfOpen);
          halfOpenAllowed := 1;
          return true;
        }
        return false;
      case HalfOpen =>
        if halfOpenAllowed < config.halfOpenMaxAllowed {
          halfOpenAllowed := halfOpenAllowed + 1;
          return true;
        }
        return false;
    }

    method RecordSuccess()
      modifies this
      ensures forall at :: Now() == Step(config, old(Now()), Success(at))
    {
      match state
      case HalfOpen =>
        halfOpenAllowed := halfOpenAllowed - 1;
        successCount := successCount + 1;
        if successCount >= config.successThreshold {
          TransitionTo(Closed);
        }
      case Closed =>
        failureCount := 0;
      case Open =>
    }

    method RecordFailure(now: int)
      modifies this
      ensures Now() == Step(config, old(Now()), Failure(now))
    {
      match state
      case Closed =>
        failureCount := failureCount + 1;
        if failureCount >= config.failureThreshold {
          lastFailureTime := now;
          TransitionTo(Open);
        }
      case HalfOpen =>
        lastFailureTime := now;
        TransitionTo(Open);
      case Open =>
    }
  }

  // -- Whole traces, told without the breaker's counters ------------------------

  function After(cfg: Config, trace: seq<Event>): Circuit {
    if trace == [] then START else Step(cfg, After(cfg, trace[..|trace| - 1]), trace[|trace| - 1])
  }

  function ModeAt(cfg: Config, trace: seq<Event>, n: nat): Mode
    requires n <= |trace|
  {
    After(cfg, trace[..n]).mode
  }

  predicate AdmittedAt(cfg: Config, trace: seq<Event>, n: nat)
    requires n < |trace| && trace[n].Allow?
  {
    Admits(cfg, After(cfg, trace[..n]), trace[n].at)
  }

  function AtLeastOne(threshold: int): nat {
    if threshold > 1 then threshold else 1
  }

  /** The failures recorded since the last success. */
  function Streak(trace: seq<Event>): nat {
    if trace == [] then 0
    else
      var init := trace[..|trace| - 1];
      match trace[|trace| - 1]
      case Allow(_) => Streak(init)
      case Success(_) => 0
      case Failure(_) => 1 + Streak(init)
  }

  function Successes(trace: seq<Event>, start: nat): nat {
    if |trace| <= start then 0
    else Successes(trace[..|trace| - 1], start) + if trace[|trace| - 1].Success? then 1 else 0
  }

  /** The requests let through from the one at *start* on. */
  function Admitted(cfg: Config, trace: seq<Event>, start: nat): nat {
    if |trace| <= start then 0
    else
      var n := |trace| - 1;
      Admitted(cfg, trace[..n], start) + if trace[n].Allow? && AdmittedAt(cfg, trace, n) then 1 else 0
  }

  /** The mode has been the same since the event at *since*, which brought it about. */
  ghost predicate EnteredAt(cfg: Config, trace: seq<Event>, since: nat) {
    && since < |trace|
    && ModeAt(cfg, trace, since) != ModeAt(cfg, trace, since + 1)
    && forall n :: since < n <= |trace| ==> ModeAt(cfg, trace, n) == ModeAt(cfg, trace, |trace|)
  }

  /** Opened by a failure at its time; since then nobody asked late enough. */
  ghost predicate OpenSince(cfg: Config, trace: seq<Event>, since: nat) {
    && EnteredAt(cfg, trace, since)
    && ModeAt(cfg, trace, |trace|) == Open
    && trace[since].Failure? && After(cfg, trace).lastFailure == trace[since].at
    && forall n :: since < n < |trace| && trace[n].Allow? ==> trace[n].at - trace[since].at <= cfg.openDuration
  }

  /** Half open by an admitted request; no failure since, too few successes, and the probes all counted. */
  ghost predicate HalfOpenSince(cfg: Config, trace: seq<Event>, since: nat) {
    && EnteredAt(cfg, trace, since)
    && ModeAt(cfg, trace, |trace|) == HalfOpen && ModeAt(cfg, trace, since) == Open
    && trace[since].Allow? && AdmittedAt(cfg, trace, since)
    && (forall n :: since < n < |trace| ==> !trace[n].Failure?)
    && After(cfg, trace).successes == Successes(trace, since) < AtLeastOne(cfg.successThreshold)
    && After(cfg, trace).halfOpenAllowed == Admitted(cfg, trace, since) - Successes(trace, since)
    && After(cfg, trace).halfOpenAllowed <= AtLeastOne(cfg.halfOpenMaxAllowed)
  }

  ghost predicate ClosedWithStreak(cfg: Config, trace: seq<Event>) {
    && ModeAt(cfg, trace, |trace|) == Closed
    && After(cfg, trace).failures == Streak(trace) < AtLeastOne(cfg.failureThreshold)
  }

  ghost predicate Explained(cfg: Config, trace: seq<Event>) {
    match After(cfg, trace).mode
    case Closed => ClosedWithStreak(cfg, trace)
    case Open => exists since :: OpenSince(cfg, trace, since)
    case HalfOpen => exists since :: HalfOpenSince(cfg, trace, since)
  }

  lemma Prefix(cfg: Config, trace: seq<Event>, e: Event)
    ensures forall n :: 0 <= n <= |trace| ==> ModeAt(cfg, trace + [e], n) == ModeAt(cfg, trace, n)
    ensures forall n :: 0 <= n < |trace| && trace[n].Allow?
                        ==> AdmittedAt(cfg, trace + [e], n) == AdmittedAt(cfg, trace, n)
    ensures After(cfg, trace + [e]) == Step(cfg, After(cfg, trace), e)
    ensures ModeAt(cfg, trace + [e], |trace| + 1) == Step(cfg, After(cfg, trace), e).mode
    ensures Streak(trace + [e]) ==
            match e
            case Allow(_) => Streak(trace)
            case Success(_) => 0
            case Failure(_) => 1 + Streak(trace)
  {
    assert (trace + [e])[..|trace|] == trace;
    assert (trace + [e])[..|trace| + 1] == trace + [e];
    forall n | 0 <= n <= |trace|
      ensures (trace + [e])[..n] == trace[..n]
    {
    }
  }

  lemma CountOneMore(cfg: Config, trace: seq<Event>, e: Event, since: nat)
    requires since <= |trace|
    ensures Successes(trace + [e], since) == Successes(trace, since) + if e.Success? then 1 else 0
    ensures Admitted(cfg, trace + [e], since)
         == Admitted(cfg, trace, since) + if e.Allow? && Admits(cfg, After(cfg, trace), e.at) then 1 else 0
  {
    assert (trace + [e])[..|trace|] == trace;
  }

  lemma ModeBefore(cfg: Config, trace: seq<Event>, e: Event, n: nat)
    requires n <= |trace|
    ensures ModeAt(cfg, trace + [e], n) == ModeAt(cfg, trace, n)
  {
    assert (trace + [e])[..n] == trace[..n];
  }

  lemma ModeNow(cfg: Config, trace: seq<Event>, e: Event)
    ensures ModeAt(cfg, trace, |trace|) == After(cfg, trace).mode
    ensures ModeAt(cfg, trace + [e], |trace| + 1) == Step(cfg, After(cfg, trace), e).mode
  {
    assert trace[..|trace|] == trace;
    assert (trace + [e])[..|trace| + 1] == trace + [e] && (trace + [e])[..|trace|] == trace;
  }

  lemma Continues(cfg: Config, trace: seq<Event>, e: Event, since: nat)
    requires EnteredAt(cfg, trace, since)
    requires Step(cfg, After(cfg, trace), e).mode == After(cfg, trace).mode
    ensures EnteredAt(cfg, trace + [e], since)
  {
    hide Step, ModeAt, After;
    var longer := trace + [e];
    var mode := After(cfg, trace).mode;
    ModeNow(cfg, trace, e);
    forall n | since < n <= |longer|
      ensures ModeAt(cfg, longer, n) == mode
    {
      if n <= |trace| {
        ModeBefore(cfg, trace, e, n);
        ModeSince(cfg, trace, since, n);
      }
    }
    ModeBefore(cfg, trace, e, since);
    ModeSince(cfg, trace, since, since + 1);
    ModeBefore(cfg, trace, e, since + 1);
  }

  lemma ModeSince(cfg: Config, trace: seq<Event>, since: nat, n: nat)
    requires EnteredAt(cfg, trace, since) && since < n <= |trace|
    ensures ModeAt(cfg, trace, n) == ModeAt(cfg, trace, |trace|) != ModeAt(cfg, trace, since)
  {
  }

  lemma Turns(cfg: Config, trace: seq<Event>, e: Event)
    requires Step(cfg, After(cfg, trace), e).mode != After(cfg, trace).mode
    ensures EnteredAt(cfg, trace + [e], |trace|)
    ensures ModeAt(cfg, trace + [e], |trace|) == After(cfg, trace).mode
  {
    Prefix(cfg, trace, e);
    assert trace[..|trace|] == trace;
  }

  lemma Opens(cfg: Config, trace: seq<Event>, e: Event)
    requires After(cfg, trace).mode != Open && Step(cfg, After(cfg, trace), e).mode == Open
    ensures OpenSince(cfg, trace + [e], |trace|)
  {
    hide EnteredAt, After, Admits;
    Prefix(cfg, trace, e);
    Turns(cfg, trace, e);
  }

  lemma StaysOpen(cfg: Config, trace: seq<Event>, e: Event, since: nat)
    requires OpenSince(cfg, trace, since) && Step(cfg, After(cfg, trace), e).mode == Open
    ensures OpenSince(cfg, trace + [e], since)
  {
    hide EnteredAt, After;
    EnteredBefore(cfg, trace, since);
    Prefix(cfg, trace, e);
    Continues(cfg, trace, e, since);
  }

  lemma EnteredBefore(cfg: Config, trace: seq<Event>, since: nat)
    requires EnteredAt(cfg, trace, since)
    ensures since < |trace| && ModeAt(cfg, trace, |trace|) == After(cfg, trace).mode
  {
    assert trace[..|trace|] == trace;
  }

  lemma HalfOpens(cfg: Config, trace: seq<Event>, e: Event)
    requires After(cfg, trace).mode == Open && Step(cfg, After(cfg, trace), e).mode == HalfOpen
    ensures HalfOpenSince(cfg, trace + [e], |trace|)
  {
    Prefix(cfg, trace, e);
    Turns(cfg, trace, e);
    CountOneMore(cfg, trace, e, |trace|);
    assert (trace + [e])[..|trace|] == trace;
    hide EnteredAt, After;
  }

  lemma StaysHalfOpen(cfg: Config, trace: seq<Event>, e: Event, since: nat)
    requires HalfOpenSince(cfg, trace, since) && Step(cfg, After(cfg, trace), e).mode == HalfOpen
    ensures HalfOpenSince(cfg, trace + [e], since)
  {
    hide EnteredAt, After, AdmittedAt;
    EnteredBefore(cfg, trace, since);
    Prefix(cfg, trace, e);
    Continues(cfg, trace, e, since);
    CountOneMore(cfg, trace, e, since);
  }

  lemma StaysOrGetsClosed(cfg: Config, trace: seq<Event>, e: Event)
    requires After(cfg, trace).mode == Closed ==> ClosedWithStreak(cfg, trace)
    requires Step(cfg, After(cfg, trace), e).mode == Closed
    ensures ClosedWithStreak(cfg, trace + [e])
  {
    hide After;
    Prefix(cfg, trace, e);
  }

  /** Every trace explains the mode the breaker is in and the counters it keeps. */
  lemma {:induction false} ModeIsExplained(cfg: Config, trace: seq<Event>)
    ensures Explained(cfg, trace)
  {
    if trace != [] {
      var init, e := trace[..|trace| - 1], trace[|trace| - 1];
      ModeIsExplained(cfg, init);
      assert trace == init + [e];
      assert init[..|init|] == init;
      hide OpenSince, HalfOpenSince, ClosedWithStreak, Step;
      var before, now := After(cfg, init).mode, Step(cfg, After(cfg, init), e).mode;
      StepModes(cfg, After(cfg, init), e);
      if now == Closed {
        StaysOrGetsClosed(cfg, init, e);
      } else if now == Open {
        if before == Open {
          var since :| OpenSince(cfg, init, since);
          StaysOpen(cfg, init, e, since);
        } else {
          Opens(cfg, init, e);
        }
      } else if before == HalfOpen {
        var since :| HalfOpenSince(cfg, init, since);
        StaysHalfOpen(cfg, init, e, since);
      } else {
        HalfOpens(cfg, init, e);
      }
    }
  }

  lemma StepModes(cfg: Config, c: Circuit, e: Event)
    ensures Step(cfg, c, e).mode == HalfOpen ==> c.mode != Closed
  {
  }

  // -- What the breaker promises ------------------------------------------------

  /** The request comes after the breaker has been open for longer than it must. */
  ghost predicate ComesLate(cfg: Config, trace: seq<Event>, now: int) {
    exists since: nat :: EnteredAt(cfg, trace, since) && now - trace[since].at > cfg.openDuration
  }

  /** Of the requests let through since the half-open period began, fewer than the limit are not reported back. */
  ghost predicate HasRoom(cfg: Config, trace: seq<Event>) {
    exists since: nat :: EnteredAt(cfg, trace, since)
                      && Admitted(cfg, trace, since) - Successes(trace, since) < cfg.halfOpenMaxAllowed
  }

  /** After any trace, which requests are let through. */
  lemma AdmitsExactly(cfg: Config, trace: seq<Event>, now: int)
    ensures After(cfg, trace).mode == Closed ==> Admits(cfg, After(cfg, trace), now)
    ensures After(cfg, trace).mode == Open ==> (Admits(cfg, After(cfg, trace), now) <==> ComesLate(cfg, trace, now))
    ensures After(cfg, trace).mode == HalfOpen ==> (Admits(cfg, After(cfg, trace), now) <==> HasRoom(cfg, trace))
  {
    ModeIsExplained(cfg, trace);
    hide EnteredAt, After;
    if After(cfg, trace).mode == Open {
      var since :| OpenSince(cfg, trace, since);
      forall other: nat | EnteredAt(cfg, trace, other) ensures other == since {
        EnteredOnce(cfg, trace, since, other);
      }
    }
    if After(cfg, trace).mode == HalfOpen {
      var since :| HalfOpenSince(cfg, trace, since);
      forall other: nat | EnteredAt(cfg, trace, other) ensures other == since {
        EnteredOnce(cfg, trace, since, other);
      }
    }
  }

  /** From closed it opens exactly on the failure that makes the streak reach the threshold. */
  lemma OpensExactlyOnThreshold(cfg: Config, trace: seq<Event>, e: Event)
    requires After(cfg, trace).mode == Closed
    ensures After(cfg, trace + [e]).mode == Open
       <==> e.Failure? && Streak(trace + [e]) == AtLeastOne(cfg.failureThreshold)
    ensures After(cfg, trace + [e]).mode != Open ==> After(cfg, trace + [e]).mode == Closed
  {
    ModeIsExplained(cfg, trace);
    Prefix(cfg, trace, e);
  }

  /** The event at *i* opened the breaker. */
  predicate OpenedBy(cfg: Config, trace: seq<Event>, i: nat)
    requires i < |trace|
  {
    ModeAt(cfg, trace, i) != Open && ModeAt(cfg, trace, i + 1) == Open
  }

  lemma OneOn(cfg: Config, trace: seq<Event>, n: nat)
    requires n < |trace|
    ensures After(cfg, trace[..n + 1]) == Step(cfg, After(cfg, trace[..n]), trace[n])
  {
    assert trace[..n + 1][..n] == trace[..n];
  }

  /** Successes and failures recorded while it is open do not move it; only a late enough request does. */
  lemma {:induction false} OpenUntilAskedLate(cfg: Config, trace: seq<Event>, i: nat, j: nat)
    requires i < j < |trace| && OpenedBy(cfg, trace, i)
    requires forall n :: i < n < j && trace[n].Allow? ==> trace[n].at - trace[i].at <= cfg.openDuration
    ensures trace[i].Failure? && ModeAt(cfg, trace, j) == Open
    ensures trace[j].Allow? ==> (AdmittedAt(cfg, trace, j) <==> trace[j].at - trace[i].at > cfg.openDuration)
    ensures After(cfg, trace[..j]).lastFailure == trace[i].at
  {
    OneOn(cfg, trace, j - 1);
    if j > i + 1 {
      OpenUntilAskedLate(cfg, trace, i, j - 1);
    }
  }

  /** In time order: nothing is let through, whatever is recorded, until the open duration has passed. */
  lemma RefusesWhileOpen(cfg: Config, trace: seq<Event>, i: nat, j: nat)
    requires i < j < |trace| && OpenedBy(cfg, trace, i)
    requires forall m, n :: 0 <= m <= n < |trace| ==> trace[m].at <= trace[n].at
    requires trace[j].at - trace[i].at <= cfg.openDuration
    ensures ModeAt(cfg, trace, j) == Open && (trace[j].Allow? ==> !AdmittedAt(cfg, trace, j))
  {
    OpenUntilAskedLate(cfg, trace, i, j);
  }

  /** No failure in the half-open period, and the success now recorded completes the threshold. */
  ghost predicate PeriodCompletes(cfg: Config, trace: seq<Event>, since: nat)
    requires trace != []
  {
    && EnteredAt(cfg, trace[..|trace| - 1], since) && ModeAt(cfg, trace, since) == Open
    && trace[since].Allow?
    && (forall n :: since < n < |trace| ==> !trace[n].Failure?)
    && trace[|trace| - 1].Success?
    && Successes(trace, since) == AtLeastOne(cfg.successThreshold)
  }

  /** It closes exactly when one half-open period without a failure collects enough successes. */
  lemma ClosesExactlyAfterSuccesses(cfg: Config, trace: seq<Event>, e: Event)
    requires After(cfg, trace).mode != Closed
    ensures After(cfg, trace + [e]).mode == Closed <==> exists since :: PeriodCompletes(cfg, trace + [e], since)
  {
    var longer := trace + [e];
    assert longer[..|longer| - 1] == trace;
    Prefix(cfg, trace, e);
    ModeIsExplained(cfg, trace);
    hide EnteredAt, After;
    if After(cfg, trace).mode == HalfOpen {
      var since :| HalfOpenSince(cfg, trace, since);
      EnteredBefore(cfg, trace, since);
      CountOneMore(cfg, trace, e, since);
      if After(cfg, longer).mode == Closed {
        assert PeriodCompletes(cfg, longer, since);
      }
      forall other | PeriodCompletes(cfg, longer, other)
        ensures other == since
      {
        EnteredOnce(cfg, trace, since, other);
      }
    } else {
      forall since
        ensures !PeriodCompletes(cfg, longer, since)
      {
        if PeriodCompletes(cfg, longer, since) {
          HalfOpenFromOpen(cfg, trace, since);
        }
      }
    }
  }

  lemma EnteredOnce(cfg: Config, trace: seq<Event>, i: nat, j: nat)
    requires EnteredAt(cfg, trace, i) && EnteredAt(cfg, trace, j)
    ensures i == j
  {
  }

  lemma HalfOpenFromOpen(cfg: Config, trace: seq<Event>, i: nat)
    requires EnteredAt(cfg, trace, i) && ModeAt(cfg, trace, i) == Open
    ensures After(cfg, trace).mode == HalfOpen
  {
    EnteredBefore(cfg, trace, i);
    OneOn(cfg, trace, i);
  }

  /** Requests let through in a half-open period, less those reported back, never exceed the limit. */
  lemma ProbesStayBounded(cfg: Config, trace: seq<Event>)
    requires After(cfg, trace).mode == HalfOpen
    ensures exists since ::
      && EnteredAt(cfg, trace, since)
      && Admitted(cfg, trace, since) - Successes(trace, since) <= AtLeastOne(cfg.halfOpenMaxAllowed)
  {
    ModeIsExplained(cfg, trace);
    var since :| HalfOpenSince(cfg, trace, since);
    assert EnteredAt(cfg, trace, since);
  }

  /** No counter leaves the range of the machine integers the configuration itself fits in. */
  lemma {:induction false} CountersStayInRange(cfg: Config, trace: seq<Event>)
    ensures var c := After(cfg, trace);
            && 0 <= c.failures < AtLeastOne(cfg.failureThreshold)
            && 0 <= c.successes < AtLeastOne(cfg.successThreshold)
            && 0 <= c.halfOpenAllowed + c.successes && c.halfOpenAllowed <= AtLeastOne(cfg.halfOpenMaxAllowed)
  {
    if trace != [] {
      CountersStayInRange(cfg, trace[..|trace| - 1]);
    }
  }
}
