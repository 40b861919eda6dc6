/** The provider and the network as the program updates them in place (modules/provider.go,
    modules/network.go), each method tied to the step function it implements. */
module Network {
  import opened ProviderHealth
  import opened LatestBlock
  import opened HealthCheckSpec
  import opened Invariants
  import opened Rounds

  /** Caddy's view of one endpoint. Whether Caddy calls it available is not decided here. */
  class Upstream {
    const dial: string
    var up: bool

    constructor (dial: string, up: bool)
      ensures this.dial == dial && this.up == up
    {
      this.dial, this.up := dial, up;
    }

    predicate Available()
      reads this
    {
      up
    }
  }

  class Provider {
    const host: string
    const priority: int
    const upstream: Upstream
    var failures: nat
    var successes: nat
    var healthStatus: HealthStatus

    constructor (host: string, priority: int, upstream: Upstream)
      ensures this.host == host && this.priority == priority && this.upstream == upstream
      ensures View() == FRESH
    {
      this.host, this.priority, this.upstream := host, priority, upstream;
      failures, successes, healthStatus := 0, 0, Healthy;
    }

    function View(): Health
      reads this
    {
      Health(failures, successes, healthStatus)
    }

    method MarkPingFailure(hcThreshold: int)
      modifies this
      ensures View() == PingFailure(old(View()), hcThreshold)
    {
      failures := failures + 1;
      successes := 0;
      if healthStatus == Healthy && failures > hcThreshold {
        healthStatus := Unhealthy;
      }
    }

    method MarkPingWarning()
      modifies this
      ensures View() == PingWarning(old(View()))
    {
      successes := 0;
      failures := 0;
      healthStatus := Warning;
    }

    method MarkPingSuccess(hcThreshold: int)
      modifies this
      ensures View() == PingSuccess(old(View()), hcThreshold)
    {
      successes := successes + 1;
      if healthStatus == Unhealthy && successes > hcThreshold {
        failures := 0;
        healthStatus := Healthy;
      }
    }

    method MarkHealthy()
      modifies this
      ensures View() == AsHealthy(old(View()))
    {
      healthStatus := Healthy;
    }

    method MarkWarning()
      modifies this
      ensures View() == AsWarning(old(View()))
    {
      healthStatus := Warning;
    }

    predicate IsHealthy()
      reads this
    {
      healthStatus == Healthy
    }

    predicate IsWarning()
      reads this
    {
      healthStatus == Warning
    }

    predicate Available()
      reads this, upstream
    {
      upstream.Available() && IsHealthy()
    }

    predicate IsAvailableWithWarning()
      reads this, upstream
    {
      upstream.Available() && IsWarning()
    }
  }

  class Network {
    const hcThreshold: int
    const blockLagLimit: int64
    var providers: map<string, Provider>
    var latestBlockNumber: int64
    var checkedProviders: map<string, seq<int64>>
    var metrics: seq<Metric>
    ghost var members: set<Provider>  // every provider ever added

    /** Providers are keyed by their host, so no two keys hold the same provider. */
    ghost predicate Valid()
      reads this, members
    {
      && (forall k <- providers :: providers[k] in members && providers[k].host == k)
      && checkedProviders.Keys <= providers.Keys
      && forall k <- checkedProviders :: 1 <= |checkedProviders[k]| <= 10
    }

    ghost function Settings(): Config {
      Config(hcThreshold, blockLagLimit)
    }

    ghost function HealthView(): (m: map<string, Health>)
      requires forall k <- providers :: providers[k] in members
      reads this`providers, this`members, members
      ensures m.Keys == providers.Keys
    {
      map k | k in providers :: providers[k].View()
    }

    ghost function View(): (s: State)
      requires Valid()
      reads this, members
      ensures WellFormed(s) && s.health.Keys == providers.Keys
    {
      State(latestBlockNumber, HealthView(), checkedProviders, metrics)
    }

    constructor (hcThreshold: int, blockLagLimit: int64)
      ensures Valid() && Settings() == Config(hcThreshold, blockLagLimit) && View() == Initial({})
    {
      this.hcThreshold, this.blockLagLimit := hcThreshold, blockLagLimit;
      providers, checkedProviders, latestBlockNumber, metrics := map[], map[], 0, [];
      members := {};
    }

    /** The configuration step that keys a provider by its host, replacing an earlier one. Nothing
        has been checked when it runs. */
    method AddProvider(p: Provider)
      requires Valid() && checkedProviders == map[]
      modifies this`providers, this`members
      ensures Valid() && providers == old(providers)[p.host := p]
      ensures View() == old(View()).(health := old(View()).health[p.host := p.View()])
    {
      providers, members := providers[p.host := p], members + {p};
    }

    method EvaluateCheckedProviders()
      requires Valid()
      modifies members
      ensures Valid() && View() == Evaluate(Settings(), old(View()))
    {
      ghost var before := View();
      var rest := checkedProviders.Keys;
      while rest != {}
        invariant rest <= checkedProviders.Keys
        invariant forall k <- providers ::
          providers[k].View() == Marked(Settings(), before, rest, k)
      {
        var name :| name in rest;
        rest := rest - {name};
        assert before.checked[name][0] == checkedProviders[name][0];
        if Add64(checkedProviders[name][0], blockLagLimit) < latestBlockNumber {
          providers[name].MarkWarning();
        }
      }
      assert HealthView() == Evaluate(Settings(), before).health;
    }

    method GetCheckedProviderHCList(providerName: string) returns (values: seq<int64>, ok: bool)
      ensures ok <==> providerName in checkedProviders
      ensures values == if ok then checkedProviders[providerName] else []
    {
      ok := providerName in checkedProviders;
      values := if ok then checkedProviders[providerName] else [];
    }

    method SetCheckedProviderHCList(providerName: string, newList: seq<int64>)
      modifies this`checkedProviders
      ensures checkedProviders == old(checkedProviders)[providerName := newList]
    {
      checkedProviders := checkedProviders[providerName := newList];
    }

    method AddHealthCheckToCheckedProviderList(providerName: string, block: int64)
      requires Valid() && providerName in providers
      modifies this`checkedProviders
      ensures Valid() && View() == Record(old(View()), providerName, block)
    {
      var current, ok := GetCheckedProviderHCList(providerName);
      if !ok {
        assert [block] == [block] + [];
        SetCheckedProviderHCList(providerName, [block]);
        return;
      }
      var newList := [block];
      if |current| == 10 {
        current := newList + current[..9];
      } else {
        current := newList + current;
      }
      SetCheckedProviderHCList(providerName, current);
    }

    method SendLatestBlockMetric(host: string, statusCode: int, status: HealthStatus, block: int64)
      modifies this`metrics
      ensures metrics == old(metrics) + [Metric(host, statusCode, status, block)]
    {
      metrics := metrics + [Metric(host, statusCode, status, block)];
    }

    /** The metric of an answer carries the status its provider has by then. */
    method ReportPing(provider: Provider, answer: Answer)
      requires Valid() && provider.host in providers && providers[provider.host] == provider
      modifies this`metrics
      ensures Valid() && View() == SendMetric(old(View()), provider.host, answer)
    {
      SendLatestBlockMetric(provider.host, answer.statusCode, provider.healthStatus, answer.block);
    }

    method RaiseHead(provider: Provider, block: int64)
      requires Valid() && provider.host in providers && providers[provider.host] == provider
      modifies this`latestBlockNumber, members
      ensures Valid() && View() == Evaluate(Settings(), Raise(old(View()), provider.host, block))
    {
      hide Evaluate;
      ghost var before := View();
      latestBlockNumber := block;
      provider.MarkHealthy();
      assert View() == Raise(before, provider.host, block);
      EvaluateCheckedProviders();
    }

    /** The consistency check of an accepted answer. */
    method CheckConsistency(provider: Provider, block: int64)
      requires Valid() && provider.host in providers && providers[provider.host] == provider
      modifies this`latestBlockNumber, members
      ensures Valid() && View() == Consistency(Settings(), old(View()), provider.host, block)
    {
      hide Evaluate;
      if latestBlockNumber == 0 || latestBlockNumber < block {
        RaiseHead(provider, block);
      } else {
        if latestBlockNumber == block {
          provider.MarkHealthy();
        } else if Add64(block, blockLagLimit) < latestBlockNumber {
          provider.MarkWarning();
        }
      }
    }

    method MarkUnaccepted(provider: Provider, answer: Answer)
      requires Valid() && provider.host in providers && providers[provider.host] == provider && !Accepted(answer)
      modifies provider
      ensures Valid()
      ensures View() == WithHealth(old(View()), provider.host, AfterUnaccepted(Settings(), old(provider.View()), answer))
    {
      if !answer.err && answer.statusCode == STATUS_TOO_MANY_REQUESTS {
        provider.MarkPingWarning();
      } else {
        provider.MarkPingFailure(hcThreshold);
      }
    }

    /** An error, a failing status code or a 429. */
    method CheckFailedPing(provider: Provider, answer: Answer)
      requires Valid() && provider.host in providers && providers[provider.host] == provider && !Accepted(answer)
      modifies this`metrics, provider
      ensures Valid() && View() == Step(Settings(), old(View()), Event(provider.host, answer))
    {
      hide Step, SendMetric, AfterUnaccepted;
      StepOfUnaccepted(Settings(), View(), Event(provider.host, answer));
      MarkUnaccepted(provider, answer);
      ReportPing(provider, answer);
    }

    method CheckAcceptedPing(provider: Provider, answer: Answer)
      requires Valid() && provider.host in providers && providers[provider.host] == provider && Accepted(answer)
      modifies this`latestBlockNumber, this`checkedProviders, this`metrics, members
      ensures Valid() && View() == Step(Settings(), old(View()), Event(provider.host, answer))
    {
      hide Consistency, Record, SendMetric;
      ghost var before := View();
      provider.MarkPingSuccess(hcThreshold);
      assert View() == WithHealth(before, provider.host, PingSuccess(before.health[provider.host], hcThreshold));
      CheckConsistency(provider, answer.block);
      ReportPing(provider, answer);
      AddHealthCheckToCheckedProviderList(provider.host, answer.block);
    }

    /** The whole handling of one provider's answer. */
    method CheckProvider(providerName: string, answer: Answer)
      requires Valid() && providerName in providers
      modifies this`latestBlockNumber, this`checkedProviders, this`metrics, members
      ensures Valid() && View() == Step(Settings(), old(View()), Event(providerName, answer))
    {
      hide Step;
      var provider := providers[providerName];
      if answer.err || answer.statusCode > 399 {
        CheckFailedPing(provider, answer);
      } else {
        CheckAcceptedPing(provider, answer);
      }
    }

    /** One round: the providers are handled one after the other in an order nobody chooses. */
    method HealthCheck(answers: map<string, Answer>) returns (ghost order: seq<Event>)
      requires Valid() && answers.Keys == providers.Keys
      modifies this`latestBlockNumber, this`checkedProviders, this`metrics, members
      ensures Valid()
      ensures IsRound(answers, order) && Known(old(View()).health.Keys, order)
      ensures View() == Run(Settings(), old(View()), order)
      ensures Settings().lagLimit >= 0 && LagInvariant(Settings(), old(View())) ==> LagInvariant(Settings(), View())
    {
      order := [];
      var rest := providers.Keys;
      while rest != {}
        invariant Valid() && rest <= providers.Keys
        invariant PartOfRound(answers, order) && Names(order) == answers.Keys - rest
        invariant Known(old(View()).health.Keys, order)
        invariant View() == Run(Settings(), old(View()), order)
      {
        var name :| name in rest;
        ghost var e := Event(name, answers[name]);
        CheckProvider(name, answers[name]);
        rest := rest - {name};
        RunSnoc(Settings(), old(View()), order, e);
        AppendEvent(answers, order, name);
        order := order + [e];
      }
      if Settings().lagLimit >= 0 && LagInvariant(Settings(), old(View())) {
        RunKeepsLagInvariant(Settings(), old(View()), order);
      }
    }
  }

  /** The health of a provider when only the lists outside `rest` have been looked at. */
  ghost function Marked(cfg: Config, before: State, rest: set<string>, name: string): Health
    requires WellFormed(before) && name in before.health
  {
    if name in before.checked && name !in rest && LagTest(cfg, before.checked[name][0], before.latest)
    then AsWarning(before.health[name]) else before.health[name]
  }

  lemma AppendEvent(answers: Answers, order: seq<Event>, name: string)
    requires PartOfRound(answers, order) && name in answers && name !in Names(order)
    ensures PartOfRound(answers, order + [Event(name, answers[name])])
    ensures Names(order + [Event(name, answers[name])]) == Names(order) + {name}
  {
    var e := [Event(name, answers[name])];
    assert Names(e) == {name} by { assert e[0] in e; }
    JoinParts(answers, order, e);
  }
}
