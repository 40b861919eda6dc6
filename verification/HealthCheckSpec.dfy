/** The health-check engine as a state machine on values (modules/network.go): one step is the
    whole handling of one provider's answer, and a run is any sequence of steps. */
module HealthCheckSpec {
  import opened ProviderHealth
  import opened LatestBlock

  datatype Config = Config(threshold: int, lagLimit: int64)

  /** What sendLatestBlockMetric is given. */
  datatype Metric = Metric(host: string, statusCode: int, status: HealthStatus, block: int64)

  /** `checked` holds the recorded block numbers of each provider, newest first. */
  datatype State = State(
    latest: int64,
    health: map<string, Health>,
    checked: map<string, seq<int64>>,
    metrics: seq<Metric>)

  datatype Event = Event(name: string, answer: Answer)

  /** Lookup safety: evaluateCheckedProviders indexes each list at 0 and looks its key up in the providers. */
  predicate WellFormed(s: State) {
    && s.checked.Keys <= s.health.Keys
    && forall k <- s.checked :: 1 <= |s.checked[k]| <= 10
  }

  function Initial(names: set<string>): State {
    State(0, map k | k in names :: FRESH, map[], [])
  }

  /** The code's lag test, in 64-bit arithmetic. */
  predicate LagTest(cfg: Config, block: int64, head: int64) {
    Add64(block, cfg.lagLimit) < head
  }

  /** What the test is meant to decide. */
  predicate Lags(cfg: Config, block: int64, head: int64) {
    block + cfg.lagLimit < head
  }

  function Evaluate(cfg: Config, s: State): (t: State)
    requires WellFormed(s)
    ensures WellFormed(t) && t.health.Keys == s.health.Keys && t == s.(health := t.health)
  {
    s.(health := map k | k in s.health ::
      if k in s.checked && LagTest(cfg, s.checked[k][0], s.latest)
      then AsWarning(s.health[k]) else s.health[k])
  }

  /** Prepending to the recorded list; an absent list and an empty one are extended alike. */
  function Push(list: seq<int64>, block: int64): (r: seq<int64>) {
    if |list| == 10 then [block] + list[..9] else [block] + list
  }

  function ListOf(checked: map<string, seq<int64>>, name: string): seq<int64> {
    if name in checked then checked[name] else []
  }

  function Record(s: State, name: string, block: int64): State {
    s.(checked := s.checked[name := Push(ListOf(s.checked, name), block)])
  }

  /** The answer at or above the head raises or confirms it. */
  predicate AtHead(s: State, block: int64) {
    s.latest == 0 || s.latest <= block
  }

  predicate Raises(s: State, block: int64) {
    s.latest == 0 || s.latest < block
  }

  /** The head moves to the block and its provider is marked Healthy, before the others are judged. */
  function Raise(s: State, name: string, block: int64): State
    requires name in s.health
  {
    s.(latest := block, health := s.health[name := AsHealthy(s.health[name])])
  }

  /** The consistency check of an accepted answer. */
  function Consistency(cfg: Config, s: State, name: string, block: int64): (t: State)
    requires WellFormed(s) && name in s.health
    ensures WellFormed(t) && t.health.Keys == s.health.Keys
  {
    var h := s.health[name];
    if Raises(s, block) then
      Evaluate(cfg, Raise(s, name, block))
    else if s.latest == block then
      s.(health := s.health[name := AsHealthy(h)])
    else if LagTest(cfg, block, s.latest) then
      s.(health := s.health[name := AsWarning(h)])
    else s
  }

  function SendMetric(s: State, name: string, a: Answer): State
    requires name in s.health
  {
    s.(metrics := s.metrics + [Metric(name, a.statusCode, s.health[name].status, a.block)])
  }

  /** The state with one health record replaced. */
  function WithHealth(s: State, name: string, h: Health): State {
    s.(health := s.health[name := h])
  }

  function Step(cfg: Config, s: State, e: Event): (t: State)
    requires WellFormed(s) && e.name in s.health
    ensures WellFormed(t) && t.health.Keys == s.health.Keys
  {
    var h, a := s.health[e.name], e.answer;
    if Failed(a) then
      SendMetric(WithHealth(s, e.name, PingFailure(h, cfg.threshold)), e.name, a)
    else if RateLimited(a) then
      SendMetric(WithHealth(s, e.name, PingWarning(h)), e.name, a)
    else
      var pinged := WithHealth(s, e.name, PingSuccess(h, cfg.threshold));
      Record(SendMetric(Consistency(cfg, pinged, e.name, a.block), e.name, a), e.name, a.block)
  }

  /** The record after an answer that is not accepted. */
  function AfterUnaccepted(cfg: Config, h: Health, a: Answer): Health {
    if RateLimited(a) then PingWarning(h) else PingFailure(h, cfg.threshold)
  }

  lemma StepOfUnaccepted(cfg: Config, s: State, e: Event)
    requires WellFormed(s) && e.name in s.health && !Accepted(e.answer)
    ensures Step(cfg, s, e) ==
            SendMetric(WithHealth(s, e.name, AfterUnaccepted(cfg, s.health[e.name], e.answer)), e.name, e.answer)
  {}

  /** Every event belongs to one of the providers. */
  predicate Known(names: set<string>, es: seq<Event>) {
    forall i :: 0 <= i < |es| ==> es[i].name in names
  }

  function Run(cfg: Config, s: State, es: seq<Event>): (t: State)
    requires WellFormed(s) && Known(s.health.Keys, es)
    ensures WellFormed(t) && t.health.Keys == s.health.Keys
    decreases |es|
  {
    if es == [] then s
    else Step(cfg, Run(cfg, s, es[..|es| - 1]), es[|es| - 1])
  }

  lemma RunNone(cfg: Config, s: State)
    requires WellFormed(s)
    ensures Run(cfg, s, []) == s
  {}

  lemma RunSnoc(cfg: Config, s: State, es: seq<Event>, e: Event)
    requires WellFormed(s) && Known(s.health.Keys, es) && e.name in s.health
    ensures Known(s.health.Keys, es + [e])
    ensures Run(cfg, s, es + [e]) == Step(cfg, Run(cfg, s, es), e)
  {
    assert (es + [e])[..|es + [e]| - 1] == es;
  }

  lemma RunOne(cfg: Config, s: State, e: Event)
    requires WellFormed(s) && e.name in s.health
    ensures Known(s.health.Keys, [e])
    ensures Run(cfg, s, [e]) == Step(cfg, s, e)
  {
    RunSnoc(cfg, s, [], e);
    assert [] + [e] == [e];
  }

  lemma {:induction false} RunConcat(cfg: Config, s: State, a: seq<Event>, b: seq<Event>)
    requires WellFormed(s) && Known(s.health.Keys, a) && Known(s.health.Keys, b)
    ensures Known(s.health.Keys, a + b)
    ensures Run(cfg, s, a + b) == Run(cfg, Run(cfg, s, a), b)
    decreases |b|
  {
    if b == [] {
      assert a + b == a;
    } else {
      var front := b[..|b| - 1];
      RunConcat(cfg, s, a, front);
      assert (a + b)[..|a + b| - 1] == a + front;
    }
  }

  // ----- What one step does to each part of the state

  /** Only an accepted answer moves the head. */
  lemma StepLatest(cfg: Config, s: State, e: Event)
    requires WellFormed(s) && e.name in s.health
    ensures Step(cfg, s, e).latest == if Accepted(e.answer) && Raises(s, e.answer.block) then e.answer.block else s.latest
  {}

  /** Only an accepted answer touches a history, and only its own. */
  lemma StepChecked(cfg: Config, s: State, e: Event)
    requires WellFormed(s) && e.name in s.health
    ensures Step(cfg, s, e).checked ==
            if Accepted(e.answer) then s.checked[e.name := Push(ListOf(s.checked, e.name), e.answer.block)] else s.checked
  {}

  /** Another provider's step can only write Warning, only while raising the head, and only when the
      recorded block lags the new head. */
  lemma StepBystander(cfg: Config, s: State, e: Event, name: string)
    requires WellFormed(s) && e.name in s.health && name in s.health && name != e.name
    ensures Step(cfg, s, e).health[name] ==
            if Accepted(e.answer) && Raises(s, e.answer.block) && name in s.checked
               && LagTest(cfg, s.checked[name][0], e.answer.block)
            then AsWarning(s.health[name]) else s.health[name]
  {}

  /** The status a provider's own accepted answer leaves it with. */
  function StatusAfterAccept(cfg: Config, s: State, name: string, block: int64): HealthStatus
    requires WellFormed(s) && name in s.health
  {
    if Raises(s, block) then
      if name in s.checked && LagTest(cfg, s.checked[name][0], block) then Warning else Healthy
    else if s.latest == block then Healthy
    else if LagTest(cfg, block, s.latest) then Warning
    else PingSuccess(s.health[name], cfg.threshold).status
  }

  lemma StepOwn(cfg: Config, s: State, e: Event)
    requires WellFormed(s) && e.name in s.health
    ensures var h, h' := s.health[e.name], Step(cfg, s, e).health[e.name];
            && (Failed(e.answer) ==> h' == PingFailure(h, cfg.threshold))
            && (RateLimited(e.answer) ==> h' == PingWarning(h))
            && (Accepted(e.answer) ==>
                  h' == PingSuccess(h, cfg.threshold).(status := StatusAfterAccept(cfg, s, e.name, e.answer.block)))
  {}
}
