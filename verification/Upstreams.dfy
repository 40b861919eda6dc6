/** The upstream selection of the reverse proxy (GetUpstreams in modules/din_upstreams.go) and what
    the health checks make of it. */
module Upstreams {
  import opened ProviderHealth
  import opened LatestBlock
  import opened HealthCheckSpec
  import opened Invariants
  import opened Network
  import opened Wrappers

  /** What the selection sees of one provider. */
  datatype Candidate = Candidate(priority: int, up: bool, status: HealthStatus)

  type Candidates = map<string, Candidate>

  /** Available, of the given status, and with a priority among 0 .. number of providers - 1. */
  function Eligible(cs: Candidates, status: HealthStatus): set<string> {
    set k <- cs | cs[k].up && cs[k].status == status && 0 <= cs[k].priority < |cs|
  }

  /** The eligible ones that nobody eligible comes before. */
  function Foremost(cs: Candidates, status: HealthStatus): set<string> {
    set k <- Eligible(cs, status) | forall j <- Eligible(cs, status) :: cs[k].priority <= cs[j].priority
  }

  /** The selection, stated without loops. */
  function Selected(cs: Candidates): set<string> {
    if Eligible(cs, Healthy) != {} then Foremost(cs, Healthy) else Foremost(cs, Warning)
  }

  lemma {:induction false} ForemostExists(cs: Candidates, among: set<string>) returns (first: string)
    requires among != {} && among <= cs.Keys
    ensures first in among && forall j <- among :: cs[first].priority <= cs[j].priority
    decreases |among|
  {
    first :| first in among;
    var rest := among - {first};
    assert among == {first} + rest;
    if rest != {} {
      var other := ForemostExists(cs, rest);
      if cs[other].priority < cs[first].priority { first := other; }
    }
  }

  /** The foremost are missing only when nobody is eligible. */
  lemma ForemostIsEmpty(cs: Candidates, status: HealthStatus)
    ensures Foremost(cs, status) == {} <==> Eligible(cs, status) == {}
  {
    if Eligible(cs, status) != {} {
      var first := ForemostExists(cs, Eligible(cs, status));
      assert first in Foremost(cs, status);
    }
  }

  /** One class and one priority: everything selected is available and shares both, nothing eligible
      of that class comes before it, and Warning is used only when no Healthy provider is eligible. */
  lemma SelectedIsUniform(cs: Candidates, k: string)
    requires k in Selected(cs)
    ensures k in cs && cs[k].up && 0 <= cs[k].priority < |cs|
    ensures cs[k].status == Healthy || (cs[k].status == Warning && Eligible(cs, Healthy) == {})
    ensures forall j <- cs :: j in Selected(cs) <==>
              cs[j].up && cs[j].status == cs[k].status && cs[j].priority == cs[k].priority
    ensures forall j <- Eligible(cs, cs[k].status) :: cs[k].priority <= cs[j].priority
  {}

  /** Nothing is selected exactly when no available Healthy or Warning provider has a priority in range. */
  lemma SelectedIsEmptyExactlyWhen(cs: Candidates)
    ensures Selected(cs) == {} <==>
            forall k <- cs :: cs[k].up && cs[k].status != Unhealthy ==> !(0 <= cs[k].priority < |cs|)
  {
    ForemostIsEmpty(cs, Healthy);
    ForemostIsEmpty(cs, Warning);
    forall k <- cs | cs[k].up && cs[k].status != Unhealthy && 0 <= cs[k].priority < |cs|
      ensures Selected(cs) != {}
    {
      assert k in Eligible(cs, Healthy) || k in Eligible(cs, Warning);
    }
    if k :| k in Selected(cs) { SelectedIsUniform(cs, k); }
  }

  // ----- The loops

  ghost function CandidateOf(p: Provider): Candidate
    reads p, p.upstream
  {
    Candidate(p.priority, p.upstream.Available(), p.healthStatus)
  }

  ghost function CandidatesOf(providers: map<string, Provider>): (cs: Candidates)
    reads *
    ensures cs.Keys == providers.Keys && |cs| == |providers|
  {
    var cs := map k | k in providers :: CandidateOf(providers[k]);
    assert |cs| == |cs.Keys| && |providers| == |providers.Keys|;
    cs
  }

  /** The pool lists the upstreams of these providers, once each, in the order of `names`. */
  ghost predicate Lists(providers: map<string, Provider>, names: seq<string>, pool: seq<Upstream>) {
    && |pool| == |names|
    && (forall i, j :: 0 <= i < j < |names| ==> names[i] != names[j])
    && forall i :: 0 <= i < |names| ==> names[i] in providers && pool[i] == providers[names[i]].upstream
  }

  /** The pool holds the upstreams of the selected providers, once each and in some order. */
  ghost predicate IsPoolOf(providers: map<string, Provider>, selected: set<string>, pool: seq<Upstream>) {
    exists names: seq<string> :: Lists(providers, names, pool) && Members(names) == selected
  }

  ghost function Members(names: seq<string>): set<string> {
    set k <- names
  }

  ghost function AtPriority(cs: Candidates, status: HealthStatus, priority: int): set<string> {
    set k <- cs | cs[k].up && cs[k].status == status && cs[k].priority == priority
  }

  /** One pass over the provider map, in whatever order the map yields its keys. */
  method Pass(providers: map<string, Provider>, priority: int, warning: bool)
    returns (pool: seq<Upstream>, ghost names: seq<string>)
    ensures Lists(providers, names, pool)
    ensures Members(names) == AtPriority(CandidatesOf(providers), if warning then Warning else Healthy, priority)
  {
    pool, names := [], [];
    ghost var cs := CandidatesOf(providers);
    ghost var status := if warning then Warning else Healthy;
    var rest := providers.Keys;
    while rest != {}
      invariant rest <= providers.Keys
      invariant Lists(providers, names, pool)
      invariant Members(names) == AtPriority(cs, status, priority) - rest
    {
      var name :| name in rest;
      rest := rest - {name};
      var p := providers[name];
      var usable := if warning then p.IsAvailableWithWarning() else p.Available();
      if p.priority == priority && usable {
        pool := pool + [p.upstream];
        ghost var before := names;
        names := names + [name];
        assert Members(names) == Members(before) + {name};
      }
    }
  }

  /** The passes for one class, by increasing priority, up to the first that finds something. */
  method Passes(providers: map<string, Provider>, warning: bool)
    returns (pool: seq<Upstream>, ghost names: seq<string>)
    ensures Lists(providers, names, pool)
    ensures Members(names) == Foremost(CandidatesOf(providers), if warning then Warning else Healthy)
  {
    hide Eligible, Foremost, AtPriority, CandidatesOf;
    pool, names := [], [];
    ghost var cs := CandidatesOf(providers);
    ghost var status := if warning then Warning else Healthy;
    var priority := 0;
    NoneBeforeZero(cs, status);
    while priority < |providers|
      invariant 0 <= priority <= |providers|
      invariant pool == [] && names == []
      invariant NoneBefore(cs, status, priority)
    {
      pool, names := Pass(providers, priority, warning);
      if |pool| > 0 {
        assert names[0] in Members(names);
        FirstFound(cs, status, priority, names[0]);
        return;
      }
      assert Members(names) == {};
      NoneAt(cs, status, priority);
      priority := priority + 1;
    }
    NoneAtAll(cs, status);
  }

  ghost predicate NoneBefore(cs: Candidates, status: HealthStatus, priority: int) {
    forall k <- Eligible(cs, status) :: priority <= cs[k].priority
  }

  lemma NoneBeforeZero(cs: Candidates, status: HealthStatus)
    ensures NoneBefore(cs, status, 0)
  {}

  lemma NoneAt(cs: Candidates, status: HealthStatus, priority: int)
    requires NoneBefore(cs, status, priority) && AtPriority(cs, status, priority) == {}
    ensures NoneBefore(cs, status, priority + 1)
  {
    forall k <- Eligible(cs, status) ensures priority + 1 <= cs[k].priority {
      assert k !in AtPriority(cs, status, priority);
    }
  }

  lemma NoneAtAll(cs: Candidates, status: HealthStatus)
    requires NoneBefore(cs, status, |cs|)
    ensures Foremost(cs, status) == {}
  {
    assert forall k <- Eligible(cs, status) :: false;
  }

  lemma FirstFound(cs: Candidates, status: HealthStatus, priority: int, name: string)
    requires 0 <= priority < |cs| && NoneBefore(cs, status, priority)
    requires name in AtPriority(cs, status, priority)
    ensures AtPriority(cs, status, priority) == Foremost(cs, status)
  {
    assert name in Eligible(cs, status);
  }

  /** Read off the provider object: it is up, has the status, and its priority is among the first n. */
  ghost predicate Offers(p: Provider, status: HealthStatus, n: int)
    reads p, p.upstream
  {
    p.upstream.up && p.healthStatus == status && 0 <= p.priority < n
  }

  /** No provider that offers itself with the status comes before this one, which does so too. */
  ghost predicate OffersFirst(providers: map<string, Provider>, k: string, status: HealthStatus)
    requires k in providers
    reads *
  {
    && Offers(providers[k], status, |providers|)
    && forall j <- providers ::
         Offers(providers[j], status, |providers|) ==> providers[k].priority <= providers[j].priority
  }

  ghost predicate NoneOffers(providers: map<string, Provider>, status: HealthStatus)
    reads *
  {
    forall j <- providers :: !Offers(providers[j], status, |providers|)
  }

  /** First among the Healthy, or, where no Healthy provider offers itself, among the Warning. */
  ghost predicate IsOffered(providers: map<string, Provider>, k: string)
    requires k in providers
    reads *
  {
    OffersFirst(providers, k, Healthy) || (NoneOffers(providers, Healthy) && OffersFirst(providers, k, Warning))
  }

  /** The selection in terms of the provider objects. */
  lemma SelectedOffers(providers: map<string, Provider>, k: string)
    requires k in providers
    ensures k in Selected(CandidatesOf(providers)) <==> IsOffered(providers, k)
  {
    var cs := CandidatesOf(providers);
    forall j <- providers, status | status in {Healthy, Warning}
      ensures j in Eligible(cs, status) <==> Offers(providers[j], status, |providers|)
    {
      assert cs[j] == CandidateOf(providers[j]);
    }
  }

  /** The two rounds of passes. However the map iterates, the pool is the selection, once each: what is
      offered is up, and a provider is offered exactly when it comes first among the Healthy that are
      up and in range, or, if there is no such Healthy provider, among such Warning ones. */
  method GetUpstreams(providers: map<string, Provider>) returns (pool: seq<Upstream>)
    ensures IsPoolOf(providers, Selected(CandidatesOf(providers)), pool)
    ensures forall u <- pool :: u.up
    ensures OwnUpstreams(providers) ==>
              forall k <- providers :: providers[k].upstream in pool <==> IsOffered(providers, k)
  {
    pool := RunPasses(providers);
    PoolOffers(providers, pool);
  }

  lemma PoolOffers(providers: map<string, Provider>, pool: seq<Upstream>)
    requires IsPoolOf(providers, Selected(CandidatesOf(providers)), pool)
    ensures forall u <- pool :: u.up
    ensures OwnUpstreams(providers) ==>
              forall k <- providers :: providers[k].upstream in pool <==> IsOffered(providers, k)
  {
    hide Selected;
    var names: seq<string> :| Lists(providers, names, pool) && Members(names) == Selected(CandidatesOf(providers));
    forall i | 0 <= i < |pool| ensures pool[i].up {
      assert names[i] in Members(names);
      SelectedOffers(providers, names[i]);
    }
    if OwnUpstreams(providers) {
      forall k <- providers
        ensures providers[k].upstream in pool <==> IsOffered(providers, k)
      {
        InPool(providers, pool, k);
        SelectedOffers(providers, k);
      }
    }
  }

  method RunPasses(providers: map<string, Provider>) returns (pool: seq<Upstream>)
    ensures IsPoolOf(providers, Selected(CandidatesOf(providers)), pool)
  {
    hide Eligible, Foremost;
    ghost var cs := CandidatesOf(providers);
    ForemostIsEmpty(cs, Healthy);
    ghost var names;
    pool, names := Passes(providers, false);
    assert CandidatesOf(providers) == cs;
    if |pool| == 0 {
      assert Members(names) == {};
      pool, names := Passes(providers, true);
      assert CandidatesOf(providers) == cs;
    } else {
      assert names[0] in Members(names);
      assert names[0] in Foremost(cs, Healthy);
    }
    assert Members(names) == Selected(cs);
  }

  // ----- The provider a request is reported under

  ghost predicate KeyedByHost(providers: map<string, Provider>) {
    forall k <- providers :: providers[k].host == k
  }

  /** Provisioning makes one upstream for each provider. */
  ghost predicate OwnUpstreams(providers: map<string, Provider>) {
    forall j, k :: j in providers && k in providers && providers[j].upstream == providers[k].upstream ==> j == k
  }

  /** Select records the host of a provider that has the chosen upstream. With an empty pool nothing
      is chosen, and the closing log line then dereferences nil. */
  method Select(providers: map<string, Provider>, selected: Upstream?) returns (recorded: Option<string>, fault: bool)
    requires KeyedByHost(providers)
    ensures fault <==> selected == null
    ensures recorded.Some? <==> exists k :: k in providers && providers[k].upstream == selected
    ensures recorded.Some? ==> recorded.value in providers && providers[recorded.value].upstream == selected
  {
    recorded := None;
    var rest := providers.Keys;
    while rest != {}
      invariant rest <= providers.Keys && recorded == None
      invariant forall k <- providers :: k !in rest ==> providers[k].upstream != selected
    {
      var name :| name in rest;
      rest := rest - {name};
      if selected == providers[name].upstream {
        recorded := Some(providers[name].host);
        break;
      }
    }
    fault := selected == null;
  }

  /** The lookup after the reply, with the empty name if nothing was recorded. None is a nil dereference. */
  method ReportedStatus(providers: map<string, Provider>, recorded: Option<string>) returns (status: Option<HealthStatus>)
    ensures var name := if recorded.Some? then recorded.value else "";
            status == if name in providers then Some(providers[name].healthStatus) else None
  {
    var name := if recorded.Some? then recorded.value else "";
    if name in providers { return Some(providers[name].healthStatus); }
    return None;
  }

  lemma StatusOfSelected(providers: map<string, Provider>, name: string)
    requires name in Selected(CandidatesOf(providers))
    ensures name in providers
    ensures providers[name].healthStatus == if Eligible(CandidatesOf(providers), Healthy) != {} then Healthy else Warning
  {
    var cs := CandidatesOf(providers);
    SelectedIsUniform(cs, name);
    assert cs[name] == CandidateOf(providers[name]);
    if cs[name].status == Healthy { assert name in Eligible(cs, Healthy); }
  }

  /** From selection to report: whichever member of the pool the hash picks, the recorded name is found
      and its status is that of the class selected from. An empty selection faults on the way. */
  method SelectAndReport(providers: map<string, Provider>, pick: nat) returns (status: Option<HealthStatus>, fault: bool)
    requires KeyedByHost(providers) && OwnUpstreams(providers)
    ensures fault <==> Selected(CandidatesOf(providers)) == {}
    ensures fault ==> status == None
    ensures !fault ==> status == Some(if Eligible(CandidatesOf(providers), Healthy) != {} then Healthy else Warning)
  {
    hide Selected, Eligible, IsOffered;
    ghost var cs := CandidatesOf(providers);
    var pool := GetUpstreams(providers);
    ghost var names :| Lists(providers, names, pool) && Members(names) == Selected(CandidatesOf(providers));
    var chosen: Upstream? := null;
    if |pool| > 0 {
      chosen := pool[pick % |pool|];
      ghost var name := names[pick % |pool|];
      assert name in Members(names) && providers[name].upstream == chosen;
      StatusOfSelected(providers, name);
    } else {
      assert Members(names) == {};
    }
    var recorded;
    recorded, fault := Select(providers, chosen);
    if fault { return None, true; }
    status := ReportedStatus(providers, recorded);
  }

  // ----- Health checks and selection together

  /** Priorities and availability beside the statuses of a health-check state. */
  function CandidatesIn(s: State, priority: map<string, int>, up: map<string, bool>): Candidates
    requires priority.Keys == up.Keys == s.health.Keys
  {
    map k | k in s.health :: Candidate(priority[k], up[k], s.health[k].status)
  }

  /** The selection sees the statuses of the network's state, beside what its objects say. */
  lemma CandidatesShowTheState(n: Network, k: string)
    requires n.Valid() && k in n.providers
    ensures k in CandidatesOf(n.providers) && CandidatesOf(n.providers)[k].status == n.View().health[k].status
    ensures var priority := map j | j in n.providers :: n.providers[j].priority;
            var up := map j | j in n.providers :: n.providers[j].upstream.up;
            CandidatesIn(n.View(), priority, up) == CandidatesOf(n.providers)
  {
    assert CandidatesOf(n.providers)[k] == CandidateOf(n.providers[k]);
  }

  /** After any run, a provider whose recorded block lags the head is offered only when no available
      Healthy provider has a priority in range. */
  lemma {:induction false} LaggingOnlyAsLastResort(cfg: Config, names: set<string>, es: seq<Event>,
                                priority: map<string, int>, up: map<string, bool>, name: string)
    requires Known(names, es) && cfg.lagLimit >= 0 && priority.Keys == up.Keys == names
    requires IsLagging(cfg, Run(cfg, Initial(names), es), name)
    requires name in Selected(CandidatesIn(Run(cfg, Initial(names), es), priority, up))
    ensures forall k <- names ::
              up[k] && 0 <= priority[k] < |names| ==> Run(cfg, Initial(names), es).health[k].status != Healthy
  {
    var s := Run(cfg, Initial(names), es);
    var cs := CandidatesIn(s, priority, up);
    assert cs.Keys == names;
    RunKeepsLagInvariant(cfg, Initial(names), es);
    SelectedIsUniform(cs, name);
    forall k <- names | up[k] && 0 <= priority[k] < |names| ensures s.health[k].status != Healthy {
      assert k !in Eligible(cs, Healthy);
    }
  }

  lemma InPool(providers: map<string, Provider>, pool: seq<Upstream>, k: string)
    requires OwnUpstreams(providers) && IsPoolOf(providers, Selected(CandidatesOf(providers)), pool) && k in providers
    ensures providers[k].upstream in pool <==> k in Selected(CandidatesOf(providers))
  {
    hide Selected;
    var names: seq<string> :| Lists(providers, names, pool) && Members(names) == Selected(CandidatesOf(providers));
    if k in names { var i :| 0 <= i < |names| && names[i] == k; assert pool[i] in pool; }
  }

  lemma NotEligible(cs: Candidates, status: HealthStatus, k: string)
    requires k in cs && cs[k].up && 0 <= cs[k].priority < |cs| && Eligible(cs, status) == {}
    ensures cs[k].status != status
  {
    assert k !in Eligible(cs, status);
  }

  /** The same for the network as it stands and the pool GetUpstreams returns on its providers: once a
      lagging provider is in the pool, everybody in it is in Warning, and no available provider with a
      priority in range is Healthy. */
  lemma LaggingInThePool(n: Network, pool: seq<Upstream>, name: string)
    requires n.Valid() && LagInvariant(n.Settings(), n.View()) && OwnUpstreams(n.providers)
    requires IsPoolOf(n.providers, Selected(CandidatesOf(n.providers)), pool)
    requires IsLagging(n.Settings(), n.View(), name) && n.providers[name].upstream in pool
    ensures forall k <- n.providers :: n.providers[k].upstream in pool ==> n.providers[k].healthStatus == Warning
    ensures forall k <- n.providers ::
              n.providers[k].upstream.Available() && 0 <= n.providers[k].priority < |n.providers| ==>
              n.providers[k].healthStatus != Healthy
  {
    hide Selected, Eligible;
    var cs := CandidatesOf(n.providers);
    forall k <- n.providers ensures n.providers[k].upstream in pool <==> k in Selected(cs) {
      InPool(n.providers, pool, k);
    }
    SelectedIsUniform(cs, name);
    CandidatesShowTheState(n, name);
    forall k <- n.providers
      ensures cs[k] == CandidateOf(n.providers[k])
      ensures k in Selected(cs) ==> cs[k].status == Warning
    {
      if k in Selected(cs) { SelectedIsUniform(cs, k); }
    }
    forall k <- n.providers | n.providers[k].upstream.Available() && 0 <= n.providers[k].priority < |n.providers|
      ensures n.providers[k].healthStatus != Healthy
    {
      NotEligible(cs, Healthy, k);
    }
  }

  /** More than `threshold` failed pings with no accepted answer between or since, from any reachable
      state: the provider is out of the first-pass pool. */
  lemma {:induction false} FailingLeavesFirstPool(cfg: Config, names: set<string>, before: seq<Event>, es: seq<Event>,
                               priority: map<string, int>, up: map<string, bool>, name: string)
    requires Known(names, before) && Known(names, es) && name in names && priority.Keys == up.Keys == names
    requires NoAccept(es, name) && FailedPings(es, name) > 0 && FailedPings(es, name) > cfg.threshold
    ensures var s := Run(cfg, Run(cfg, Initial(names), before), es);
            && name !in Eligible(CandidatesIn(s, priority, up), Healthy)
            && (Eligible(CandidatesIn(s, priority, up), Healthy) != {} ==> name !in Selected(CandidatesIn(s, priority, up)))
  {
    ManyFailuresMeanNotHealthy(cfg, Run(cfg, Initial(names), before), es, name);
  }

  /** A lagging head raise takes an Unhealthy provider to Warning, so it is offered again: marking it
      "unhealthy", as the comment on the evaluation says, is not what happens. */
  lemma RaisedHeadOffersUnhealthy(cfg: Config, s: State, e: Event, name: string)
    requires WellFormed(s) && e.name in s.health && name in s.checked && name != e.name
    requires s.health[name].status == Unhealthy
    ensures Step(cfg, s, e).health[name].status == Warning <==>
            Accepted(e.answer) && Raises(s, e.answer.block) && LagTest(cfg, s.checked[name][0], e.answer.block)
    ensures Step(cfg, s, e).health[name].status != Warning ==> Step(cfg, s, e).health[name] == s.health[name]
  {
    StepBystander(cfg, s, e, name);
  }
}
