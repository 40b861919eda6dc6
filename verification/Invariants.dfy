/** What holds in every reachable state of every run, whatever the order of the answers. */
module Invariants {
  import opened ProviderHealth
  import opened LatestBlock
  import opened HealthCheckSpec

  // ----- Lagging means Warning

  predicate IsLagging(cfg: Config, s: State, name: string)
    requires WellFormed(s)
  {
    name in s.checked && Lags(cfg, s.checked[name][0], s.latest)
  }

  predicate LagInvariant(cfg: Config, s: State)
    requires WellFormed(s)
  {
    forall k <- s.checked :: IsLagging(cfg, s, k) ==> s.health[k].status == Warning
  }

  lemma StepKeepsLagInvariant(cfg: Config, s: State, e: Event)
    requires WellFormed(s) && e.name in s.health && cfg.lagLimit >= 0 && LagInvariant(cfg, s)
    ensures LagInvariant(cfg, Step(cfg, s, e))
  {
    var t := Step(cfg, s, e);
    StepLatest(cfg, s, e);
    StepChecked(cfg, s, e);
    forall k <- t.checked ensures IsLagging(cfg, t, k) ==> t.health[k].status == Warning {
      if k == e.name { StepOwn(cfg, s, e); } else { StepBystander(cfg, s, e, k); }
    }
  }

  lemma {:induction false} RunKeepsLagInvariant(cfg: Config, s: State, es: seq<Event>)
    requires WellFormed(s) && Known(s.health.Keys, es) && cfg.lagLimit >= 0 && LagInvariant(cfg, s)
    ensures LagInvariant(cfg, Run(cfg, s, es))
    decreases |es|
  {
    if es != [] {
      var front := es[..|es| - 1];
      RunKeepsLagInvariant(cfg, s, front);
      StepKeepsLagInvariant(cfg, Run(cfg, s, front), es[|es| - 1]);
    }
  }

  ghost predicate LagInvariantInEveryRun(cfg: Config, names: set<string>) {
    forall es | Known(names, es) :: LagInvariant(cfg, Run(cfg, Initial(names), es))
  }

  /** The invariant needs the lag limit to be non-negative, and nothing else: not even the absence
      of 64-bit overflow in the lag test or of negative block numbers. */
  lemma LaggingMeansWarning(cfg: Config, names: set<string>)
    requires names != {}
    ensures LagInvariantInEveryRun(cfg, names) <==> cfg.lagLimit >= 0
  {
    if cfg.lagLimit >= 0 {
      forall es | Known(names, es) ensures LagInvariant(cfg, Run(cfg, Initial(names), es)) {
        RunKeepsLagInvariant(cfg, Initial(names), es);
      }
    } else {
      var name :| name in names;
      var s := Initial(names);
      var e := Event(name, Answer(1, 200, false));
      RunOne(cfg, s, e);
      var t := Run(cfg, s, [e]);
      StepOwn(cfg, s, e);
      assert t.checked[name] == [1] && t.latest == 1;
      assert IsLagging(cfg, t, name) && t.health[name].status == Healthy;
      assert Known(names, [e]);
    }
  }

  // ----- Staying behind

  predicate NoAccept(es: seq<Event>, name: string) {
    forall i :: 0 <= i < |es| && es[i].name == name ==> !Accepted(es[i].answer)
  }

  lemma StepKeepsLagging(cfg: Config, s: State, e: Event, name: string)
    requires WellFormed(s) && e.name in s.health && IsLagging(cfg, s, name) && s.latest > 0
    requires e.name == name ==> !Accepted(e.answer)
    ensures IsLagging(cfg, Step(cfg, s, e), name) && Step(cfg, s, e).latest > 0
  {}

  /** A provider that lags goes on lagging, in Warning, through any failures, rate limits and other
      providers' answers, until its own next accepted answer. */
  lemma {:induction false} LaggingPersists(cfg: Config, s: State, es: seq<Event>, name: string)
    requires WellFormed(s) && Known(s.health.Keys, es) && cfg.lagLimit >= 0 && LagInvariant(cfg, s)
    requires IsLagging(cfg, s, name) && s.checked[name][0] >= 0
    requires NoAccept(es, name)
    ensures IsLagging(cfg, Run(cfg, s, es), name)
    ensures Run(cfg, s, es).health[name].status == Warning
    ensures Run(cfg, s, es).latest > 0
    decreases |es|
  {
    RunKeepsLagInvariant(cfg, s, es);
    if es != [] {
      var front, e := es[..|es| - 1], es[|es| - 1];
      LaggingPersists(cfg, s, front, name);
      StepKeepsLagging(cfg, Run(cfg, s, front), e, name);
    }
  }

  // ----- Leaving Warning

  /** From Warning the only way out is the provider's own accepted answer at or above the head, and
      even that leaves it in Warning if its recorded block lags the head it has just raised. */
  lemma LeavesWarningExactlyWhen(cfg: Config, s: State, e: Event, name: string)
    requires WellFormed(s) && e.name in s.health && name in s.health
    requires s.health[name].status == Warning
    ensures Step(cfg, s, e).health[name].status != Warning <==>
            && e.name == name && Accepted(e.answer) && AtHead(s, e.answer.block)
            && !(Raises(s, e.answer.block) && name in s.checked && LagTest(cfg, s.checked[name][0], e.answer.block))
    ensures Step(cfg, s, e).health[name].status != Unhealthy
  {
    if e.name == name { StepOwn(cfg, s, e); } else { StepBystander(cfg, s, e, name); }
  }

  /** A Healthy provider turns to Warning exactly by its own 429, by its own answer lagging the head, or
      when somebody, possibly itself, raises the head and its recorded block lags the new one. */
  lemma HealthyTurnsWarningExactlyWhen(cfg: Config, s: State, e: Event, name: string)
    requires WellFormed(s) && e.name in s.health && name in s.health
    requires s.health[name].status == Healthy
    ensures Step(cfg, s, e).health[name].status == Warning <==>
            || (e.name == name && RateLimited(e.answer))
            || (e.name == name && Accepted(e.answer) && !AtHead(s, e.answer.block) && LagTest(cfg, e.answer.block, s.latest))
            || (Accepted(e.answer) && Raises(s, e.answer.block) && name in s.checked
                && LagTest(cfg, s.checked[name][0], e.answer.block))
  {
    if e.name == name { StepOwn(cfg, s, e); } else { StepBystander(cfg, s, e, name); }
  }

  /** No accepted answer of `name` is at or above the head it meets. */
  predicate NeverAtHead(cfg: Config, s: State, es: seq<Event>, name: string)
    requires WellFormed(s) && Known(s.health.Keys, es)
  {
    forall i :: 0 <= i < |es| && es[i].name == name && Accepted(es[i].answer) ==>
      !AtHead(Run(cfg, s, es[..i]), es[i].answer.block)
  }

  lemma {:induction false} WarningIsSticky(cfg: Config, s: State, es: seq<Event>, name: string)
    requires WellFormed(s) && Known(s.health.Keys, es) && name in s.health
    requires s.health[name].status == Warning && NeverAtHead(cfg, s, es, name)
    ensures Run(cfg, s, es).health[name].status == Warning
    decreases |es|
  {
    if es != [] {
      var front := es[..|es| - 1];
      assert forall i :: 0 <= i < |front| ==> front[..i] == es[..i];
      WarningIsSticky(cfg, s, front, name);
      LeavesWarningExactlyWhen(cfg, Run(cfg, s, front), es[|es| - 1], name);
    }
  }

  // ----- Hysteresis

  predicate Hysteresis(cfg: Config, h: Health) {
    h.status.Unhealthy? ==> h.failures > cfg.threshold && h.successes <= cfg.threshold
  }

  lemma {:induction false} UnhealthyMeans(cfg: Config, names: set<string>, es: seq<Event>, name: string)
    requires Known(names, es) && name in names && cfg.threshold >= 0
    ensures Hysteresis(cfg, Run(cfg, Initial(names), es).health[name])
    decreases |es|
  {
    if es != [] {
      var front, e := es[..|es| - 1], es[|es| - 1];
      var s := Run(cfg, Initial(names), front);
      UnhealthyMeans(cfg, names, front, name);
      if e.name == name { StepOwn(cfg, s, e); } else { StepBystander(cfg, s, e, name); }
    }
  }

  /** Accepted pings of `name` since its last failure or 429, read off the answers alone. */
  function AcceptedStreak(es: seq<Event>, name: string): nat {
    if es == [] then 0 else
    var front, e := es[..|es| - 1], es[|es| - 1];
    if e.name != name then AcceptedStreak(front, name)
    else if Accepted(e.answer) then AcceptedStreak(front, name) + 1
    else 0
  }

  lemma {:induction false} SuccessesCountTheStreak(cfg: Config, names: set<string>, es: seq<Event>, name: string)
    requires Known(names, es) && name in names
    ensures Run(cfg, Initial(names), es).health[name].successes == AcceptedStreak(es, name)
    decreases |es|
  {
    if es != [] {
      var front, e := es[..|es| - 1], es[|es| - 1];
      var s := Run(cfg, Initial(names), front);
      SuccessesCountTheStreak(cfg, names, front, name);
      if e.name == name { StepOwn(cfg, s, e); } else { StepBystander(cfg, s, e, name); }
    }
  }

  /** A success streak that takes the provider out of Unhealthy. */
  predicate Recovers(cfg: Config, s: State, e: Event)
    requires e.name in s.health
  {
    Accepted(e.answer) && s.health[e.name].status.Unhealthy? && s.health[e.name].successes + 1 > cfg.threshold
  }

  /** Failed pings of `name` since its last 429 or success-streak recovery. */
  function FailuresSinceReset(cfg: Config, names: set<string>, es: seq<Event>, name: string): nat
    requires Known(names, es)
    decreases |es|
  {
    if es == [] then 0 else
    var front, e := es[..|es| - 1], es[|es| - 1];
    if e.name != name then FailuresSinceReset(cfg, names, front, name)
    else if Failed(e.answer) then FailuresSinceReset(cfg, names, front, name) + 1
    else if RateLimited(e.answer) || Recovers(cfg, Run(cfg, Initial(names), front), e) then 0
    else FailuresSinceReset(cfg, names, front, name)
  }

  lemma {:induction false} FailuresCountSinceReset(cfg: Config, names: set<string>, es: seq<Event>, name: string)
    requires Known(names, es) && name in names
    ensures Run(cfg, Initial(names), es).health[name].failures == FailuresSinceReset(cfg, names, es, name)
    decreases |es|
  {
    if es != [] {
      var front, e := es[..|es| - 1], es[|es| - 1];
      var s := Run(cfg, Initial(names), front);
      FailuresCountSinceReset(cfg, names, front, name);
      if e.name == name { StepOwn(cfg, s, e); } else { StepBystander(cfg, s, e, name); }
    }
  }

  lemma StepMakesUnhealthy(cfg: Config, s: State, e: Event, name: string)
    requires WellFormed(s) && e.name in s.health && name in s.health && s.health[name].status != Unhealthy
    ensures var h := Step(cfg, s, e).health[name];
            h.status == Unhealthy <==>
            e.name == name && Failed(e.answer) && s.health[name].status == Healthy && h.failures > cfg.threshold
  {
    if e.name == name { StepOwn(cfg, s, e); } else { StepBystander(cfg, s, e, name); }
  }

  /** A step makes a provider Unhealthy exactly when it is the provider's own failed ping, found it
      Healthy, and is one more than `threshold` failures since the last 429 or recovery. */
  lemma {:induction false} BecomesUnhealthyExactlyWhen(cfg: Config, names: set<string>, es: seq<Event>,
                                                       e: Event, name: string)
    requires Known(names, es) && e.name in names && name in names
    requires Run(cfg, Initial(names), es).health[name].status != Unhealthy
    ensures Known(names, es + [e])
    ensures Run(cfg, Initial(names), es + [e]).health[name].status == Unhealthy <==>
            && e.name == name && Failed(e.answer)
            && Run(cfg, Initial(names), es).health[name].status == Healthy
            && FailuresSinceReset(cfg, names, es + [e], name) > cfg.threshold
  {
    StepMakesUnhealthy(cfg, Run(cfg, Initial(names), es), e, name);
    ghost var all := es + [e];
    RunSnoc(cfg, Initial(names), es, e);
    FailuresCountSinceReset(cfg, names, all, name);
  }

  // ----- Leaving Unhealthy

  /** From Unhealthy a provider gets to Healthy only by its own accepted answer: at the head, unless its
      old entry lags the head it raises, or below the head but in lag, with more than `threshold`
      successes. It gets to Warning by its own 429, its own lagging answer, or a raise its entry lags. */
  lemma {:induction false} LeavesUnhealthyExactlyWhen(cfg: Config, s: State, e: Event, name: string)
    requires WellFormed(s) && e.name in s.health && name in s.health
    requires s.health[name].status == Unhealthy
    ensures Step(cfg, s, e).health[name].status == Healthy <==>
            && e.name == name && Accepted(e.answer)
            && if AtHead(s, e.answer.block)
               then !(Raises(s, e.answer.block) && name in s.checked && LagTest(cfg, s.checked[name][0], e.answer.block))
               else !LagTest(cfg, e.answer.block, s.latest) && s.health[name].successes + 1 > cfg.threshold
    ensures Step(cfg, s, e).health[name].status == Warning <==>
            || (e.name == name && RateLimited(e.answer))
            || (e.name == name && Accepted(e.answer) && !AtHead(s, e.answer.block) && LagTest(cfg, e.answer.block, s.latest))
            || (Accepted(e.answer) && Raises(s, e.answer.block) && name in s.checked
                && LagTest(cfg, s.checked[name][0], e.answer.block))
  {
    if e.name == name { StepOwn(cfg, s, e); } else { StepBystander(cfg, s, e, name); }
  }

  /** In a run from the start, an answer below the head but in lag heals an Unhealthy provider exactly
      when it is one more than `threshold` accepted answers in a row. */
  lemma {:induction false} RecoversExactlyWhen(cfg: Config, names: set<string>, es: seq<Event>, e: Event)
    requires Known(names, es) && e.name in names && Accepted(e.answer)
    requires var s := Run(cfg, Initial(names), es);
             && s.health[e.name].status == Unhealthy && !AtHead(s, e.answer.block)
             && !LagTest(cfg, e.answer.block, s.latest)
    ensures Known(names, es + [e])
    ensures Run(cfg, Initial(names), es + [e]).health[e.name].status ==
            if AcceptedStreak(es + [e], e.name) > cfg.threshold then Healthy else Unhealthy
  {
    RunSnoc(cfg, Initial(names), es, e);
    SuccessesCountTheStreak(cfg, names, es, e.name);
    LeavesUnhealthyExactlyWhen(cfg, Run(cfg, Initial(names), es), e, e.name);
    assert (es + [e])[..|es + [e]| - 1] == es;
  }

  // ----- Repeated failures

  function FailedPings(es: seq<Event>, name: string): nat {
    if es == [] then 0 else
    FailedPings(es[..|es| - 1], name)
    + if es[|es| - 1].name == name && Failed(es[|es| - 1].answer) then 1 else 0
  }

  /** While a provider has no accepted answer and stays Healthy, every failed ping is still counted
      and the count has not passed the threshold. */
  lemma {:induction false} HealthyKeepsTheCount(cfg: Config, s: State, es: seq<Event>, name: string)
    requires WellFormed(s) && Known(s.health.Keys, es) && name in s.health && NoAccept(es, name)
    ensures var h := Run(cfg, s, es).health[name];
            h.status.Healthy? && FailedPings(es, name) > 0 ==> FailedPings(es, name) <= h.failures <= cfg.threshold
    ensures Run(cfg, s, es).health[name].status.Healthy? ==> FailedPings(es, name) <= Run(cfg, s, es).health[name].failures
    decreases |es|
  {
    if es != [] {
      var front, e := es[..|es| - 1], es[|es| - 1];
      HealthyKeepsTheCount(cfg, s, front, name);
      if e.name == name { StepOwn(cfg, Run(cfg, s, front), e); } else { StepBystander(cfg, Run(cfg, s, front), e, name); }
    }
  }

  /** After more than `threshold` failed pings with no accepted answer between or since, a provider
      is not Healthy, whatever else happened. */
  lemma {:induction false} ManyFailuresMeanNotHealthy(cfg: Config, s: State, es: seq<Event>, name: string)
    requires WellFormed(s) && Known(s.health.Keys, es) && name in s.health && NoAccept(es, name)
    requires FailedPings(es, name) > 0 && FailedPings(es, name) > cfg.threshold
    ensures Run(cfg, s, es).health[name].status != Healthy
  {
    HealthyKeepsTheCount(cfg, s, es, name);
  }

  // ----- The history is a sliding window

  /** The accepted block numbers of `name`, newest first. */
  function Observed(es: seq<Event>, name: string): seq<int64> {
    if es == [] then [] else
    var front, e := es[..|es| - 1], es[|es| - 1];
    if e.name == name && Accepted(e.answer) then [e.answer.block] + Observed(front, name) else Observed(front, name)
  }

  function Window(observed: seq<int64>): seq<int64> {
    if |observed| <= 10 then observed else observed[..10]
  }

  lemma {:induction false} HistoryIsAWindow(cfg: Config, names: set<string>, es: seq<Event>, name: string)
    requires Known(names, es) && name in names
    ensures ListOf(Run(cfg, Initial(names), es).checked, name) == Window(Observed(es, name))
    ensures name in Run(cfg, Initial(names), es).checked <==> Observed(es, name) != []
    decreases |es|
  {
    if es != [] {
      var front, e := es[..|es| - 1], es[|es| - 1];
      HistoryIsAWindow(cfg, names, front, name);
      StepChecked(cfg, Run(cfg, Initial(names), front), e);
    }
  }

  // ----- Providers that only fail

  predicate OnlyFails(es: seq<Event>, name: string) {
    forall i :: 0 <= i < |es| && es[i].name == name ==> Failed(es[i].answer)
  }

  /** A provider that has only failed since the start, or not answered at all, is Unhealthy exactly when
      it has failed, and more than `threshold` times; until then it is Healthy. */
  lemma {:induction false} OnlyFailures(cfg: Config, names: set<string>, es: seq<Event>, name: string)
    requires Known(names, es) && name in names && OnlyFails(es, name)
    ensures name !in Run(cfg, Initial(names), es).checked
    ensures Run(cfg, Initial(names), es).health[name].failures == FailedPings(es, name)
    ensures Run(cfg, Initial(names), es).health[name].status ==
            if FailedPings(es, name) > 0 && FailedPings(es, name) > cfg.threshold then Unhealthy else Healthy
    decreases |es|
  {
    hide Step;
    if es != [] {
      var front, e := es[..|es| - 1], es[|es| - 1];
      var s := Run(cfg, Initial(names), front);
      OnlyFailures(cfg, names, front, name);
      StepChecked(cfg, s, e);
      if e.name == name { StepOwn(cfg, s, e); } else { StepBystander(cfg, s, e, name); }
    }
  }
}
