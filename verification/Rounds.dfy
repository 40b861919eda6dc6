/** One health-check round: every provider answers once, in any completion order, and the next
    round starts when all of them are done (healthCheck in modules/network.go). */
module Rounds {
  import opened ProviderHealth
  import opened LatestBlock
  import opened HealthCheckSpec
  import opened Invariants

  type Answers = map<string, Answer>

  function Names(es: seq<Event>): set<string> {
    set e <- es :: e.name
  }

  predicate Distinct(es: seq<Event>) {
    forall i, j :: 0 <= i < j < |es| ==> es[i].name != es[j].name
  }

  /** No provider answers twice, and each gives the answer fixed for it. */
  predicate PartOfRound(answers: Answers, es: seq<Event>) {
    && Distinct(es)
    && forall e <- es :: e.name in answers && e.answer == answers[e.name]
  }

  /** A completion order of the whole round. */
  predicate IsRound(answers: Answers, es: seq<Event>) {
    PartOfRound(answers, es) && Names(es) == answers.Keys
  }

  /** The round is one of this network's: it has an answer for every provider. */
  predicate RoundOf(s: State, answers: Answers) {
    WellFormed(s) && answers.Keys == s.health.Keys
  }

  lemma RoundIsKnown(s: State, answers: Answers, es: seq<Event>)
    requires RoundOf(s, answers) && PartOfRound(answers, es)
    ensures Known(s.health.Keys, es)
  {}

  lemma PrefixOfRound(answers: Answers, es: seq<Event>, n: nat)
    requires PartOfRound(answers, es) && n <= |es|
    ensures PartOfRound(answers, es[..n]) && PartOfRound(answers, es[n..])
  {}

  // ----- Completion orders exist

  lemma PrependEvent(answers: Answers, name: string, rest: seq<Event>)
    requires PartOfRound(answers, rest) && name in answers && name !in Names(rest)
    ensures PartOfRound(answers, [Event(name, answers[name])] + rest)
    ensures Names([Event(name, answers[name])] + rest) == {name} + Names(rest)
  {
    var e := Event(name, answers[name]);
    forall j | 0 <= j < |rest| ensures rest[j].name != name { assert rest[j] in rest; }
    forall k | k in Names(rest) ensures k in Names([e] + rest) {
      var x :| x in rest && x.name == k;
      assert x in [e] + rest;
    }
    assert ([e] + rest)[0] == e;
  }

  /** Some completion order of the answers of `names`. */
  lemma {:induction false} Enumerate(answers: Answers, names: set<string>) returns (es: seq<Event>)
    requires names <= answers.Keys
    ensures PartOfRound(answers, es) && Names(es) == names
    decreases |names|
  {
    es := [];
    if names != {} {
      var name :| name in names;
      var rest := Enumerate(answers, names - {name});
      PrependEvent(answers, name, rest);
      es := [Event(name, answers[name])] + rest;
    }
  }

  /** Two parts with no provider in common join into one. */
  lemma JoinParts(answers: Answers, a: seq<Event>, b: seq<Event>)
    requires PartOfRound(answers, a) && PartOfRound(answers, b) && Names(a) !! Names(b)
    ensures PartOfRound(answers, a + b) && Names(a + b) == Names(a) + Names(b)
  {
    forall i, j | 0 <= i < |a| && 0 <= j < |b| ensures a[i].name != b[j].name {
      assert a[i].name in Names(a) && b[j].name in Names(b);
    }
    forall k | k in Names(a) + Names(b) ensures k in Names(a + b) {
      if k in Names(a) { var e :| e in a && e.name == k; assert e in a + b; }
      else { var e :| e in b && e.name == k; assert e in a + b; }
    }
  }

  // ----- The head

  /** The accepted blocks among the events. */
  function Blocks(es: seq<Event>): set<int64> {
    set e <- es | Accepted(e.answer) :: e.answer.block
  }

  /** The accepted blocks among the answers of a round. */
  function AcceptedBlocks(answers: Answers): set<int64> {
    set k <- answers | Accepted(answers[k]) :: answers[k].block
  }

  lemma BlocksOfRound(answers: Answers, es: seq<Event>)
    requires PartOfRound(answers, es)
    ensures Blocks(es) <= AcceptedBlocks(answers)
    ensures IsRound(answers, es) ==> Blocks(es) == AcceptedBlocks(answers)
  {
    if IsRound(answers, es) {
      forall b | b in AcceptedBlocks(answers) ensures b in Blocks(es) {
        var k :| k in answers && Accepted(answers[k]) && answers[k].block == b;
        assert k in Names(es);
      }
    }
  }

  lemma BlocksSnoc(es: seq<Event>)
    requires es != []
    ensures var e := es[|es| - 1];
            Blocks(es) == Blocks(es[..|es| - 1]) + if Accepted(e.answer) then {e.answer.block} else {}
  {
    var front, e := es[..|es| - 1], es[|es| - 1];
    assert es == front + [e];
  }

  predicate Bounded(blocks: set<int64>, top: int64) {
    forall b <- blocks :: b <= top
  }

  predicate NonNegative(blocks: set<int64>) {
    forall b <- blocks :: b >= 0
  }

  /** The greatest of a head and a set of blocks. */
  predicate IsGreatest(top: int64, head: int64, blocks: set<int64>) {
    top in {head} + blocks && head <= top && Bounded(blocks, top)
  }

  lemma {:induction false} GreatestExists(head: int64, blocks: set<int64>) returns (top: int64)
    ensures IsGreatest(top, head, blocks)
  {
    top := head;
    if blocks != {} {
      var b :| b in blocks;
      var m := GreatestExists(head, blocks - {b});
      top := if b > m then b else m;
      assert blocks == (blocks - {b}) + {b};
    }
  }

  /** For any answers at all the head stays the old head or becomes an accepted block. */
  lemma {:induction false} HeadComesFrom(cfg: Config, s: State, es: seq<Event>)
    requires WellFormed(s) && Known(s.health.Keys, es)
    ensures Run(cfg, s, es).latest in {s.latest} + Blocks(es)
    decreases |es|
  {
    if es != [] {
      var front := es[..|es| - 1];
      HeadComesFrom(cfg, s, front);
      BlocksSnoc(es);
      StepLatest(cfg, Run(cfg, s, front), es[|es| - 1]);
    }
  }

  /** It reaches the greatest value answered, unless that is zero and a negative block was accepted. */
  lemma {:induction false} HeadReaches(cfg: Config, s: State, es: seq<Event>, top: int64)
    requires WellFormed(s) && Known(s.health.Keys, es)
    requires IsGreatest(top, s.latest, Blocks(es)) && (top != 0 || NonNegative(Blocks(es)))
    ensures Run(cfg, s, es).latest == top
    decreases |es|
  {
    if es != [] {
      var front, e := es[..|es| - 1], es[|es| - 1];
      BlocksSnoc(es);
      HeadComesFrom(cfg, s, front);
      StepLatest(cfg, Run(cfg, s, front), e);
      if top in {s.latest} + Blocks(front) { HeadReaches(cfg, s, front, top); }
    }
  }

  /** In every run from the start that accepts no negative block, the head is the highest block accepted
      so far, and 0 before the first. */
  lemma {:induction false} HeadFromStart(cfg: Config, names: set<string>, es: seq<Event>, top: int64)
    requires Known(names, es) && NonNegative(Blocks(es)) && IsGreatest(top, 0, Blocks(es))
    ensures Run(cfg, Initial(names), es).latest == top
  {
    HeadReaches(cfg, Initial(names), es, top);
  }

  /** A negative head never climbs back to zero while only negative blocks are accepted. */
  lemma {:induction false} HeadStaysNegative(cfg: Config, s: State, es: seq<Event>)
    requires WellFormed(s) && Known(s.health.Keys, es) && es != [] && s.latest <= 0
    requires forall e <- es :: Accepted(e.answer) && e.answer.block < 0
    ensures Run(cfg, s, es).latest < 0
    decreases |es|
  {
    var front, e := es[..|es| - 1], es[|es| - 1];
    StepLatest(cfg, Run(cfg, s, front), e);
    assert e in es;
    if front != [] { HeadStaysNegative(cfg, s, front); } else { assert Run(cfg, s, front) == s; }
  }

  ghost predicate HeadIsGreatestInEveryOrder(cfg: Config, s: State, answers: Answers, top: int64)
    requires RoundOf(s, answers)
  {
    forall es | IsRound(answers, es) && Known(s.health.Keys, es) :: Run(cfg, s, es).latest == top
  }

  /** In every completion order the round ends with the head at the greatest of the old head and the
      accepted blocks, exactly unless that greatest value is 0 and some accepted block is negative:
      zero is read as "no head yet", so a negative block answered last then replaces it. */
  lemma HeadOfRound(cfg: Config, s: State, answers: Answers, top: int64)
    requires RoundOf(s, answers) && IsGreatest(top, s.latest, AcceptedBlocks(answers))
    ensures HeadIsGreatestInEveryOrder(cfg, s, answers, top) <==> top != 0 || NonNegative(AcceptedBlocks(answers))
  {
    if top != 0 || NonNegative(AcceptedBlocks(answers)) {
      forall es | IsRound(answers, es) && Known(s.health.Keys, es) ensures Run(cfg, s, es).latest == top {
        BlocksOfRound(answers, es);
        HeadReaches(cfg, s, es, top);
      }
    } else {
      var es := NegativesLast(cfg, s, answers);
      assert Run(cfg, s, es).latest != top;
    }
  }

  lemma {:induction false} NegativesLast(cfg: Config, s: State, answers: Answers) returns (es: seq<Event>)
    requires RoundOf(s, answers) && IsGreatest(0, s.latest, AcceptedBlocks(answers))
    requires !NonNegative(AcceptedBlocks(answers))
    ensures IsRound(answers, es) && Known(s.health.Keys, es) && Run(cfg, s, es).latest < 0
  {
    hide Step;
    var negative := set k <- answers | Accepted(answers[k]) && answers[k].block < 0;
    var a := Enumerate(answers, answers.Keys - negative);
    var b := Enumerate(answers, negative);
    JoinParts(answers, a, b);
    RoundIsKnown(s, answers, a);
    RoundIsKnown(s, answers, b);
    forall e <- b ensures Accepted(e.answer) && e.answer.block < 0 { assert e.name in Names(b); }
    assert b != [] by {
      var n :| n in AcceptedBlocks(answers) && n < 0;
      var k :| k in answers && Accepted(answers[k]) && answers[k].block == n;
      assert k in Names(b);
    }
    assert Run(cfg, s, a).latest <= 0 by {
      BlocksOfRound(answers, a);
      HeadComesFrom(cfg, s, a);
    }
    HeadStaysNegative(cfg, Run(cfg, s, a), b);
    RunConcat(cfg, s, a, b);
    es := a + b;
  }

  // ----- Histories and metrics

  lemma {:induction false} BystanderHistory(cfg: Config, s: State, es: seq<Event>, name: string)
    requires WellFormed(s) && Known(s.health.Keys, es) && name !in Names(es)
    ensures name in Run(cfg, s, es).checked <==> name in s.checked
    ensures ListOf(Run(cfg, s, es).checked, name) == ListOf(s.checked, name)
    decreases |es|
  {
    if es != [] {
      var front, e := es[..|es| - 1], es[|es| - 1];
      assert e in es;
      BystanderHistory(cfg, s, front, name);
      StepChecked(cfg, Run(cfg, s, front), e);
    }
  }

  /** The list a provider has after a round, from the list it had and its answer. */
  function HistoryAfter(s: State, name: string, a: Answer): seq<int64> {
    if Accepted(a) then Push(ListOf(s.checked, name), a.block) else ListOf(s.checked, name)
  }

  /** Splits a part of a round at one of its events. */
  lemma {:induction false} SplitAt(cfg: Config, s: State, answers: Answers, es: seq<Event>, i: nat)
    requires RoundOf(s, answers) && PartOfRound(answers, es) && Known(s.health.Keys, es) && i < |es|
    ensures var a, b := es[..i], es[i + 1..];
            && Known(s.health.Keys, a) && Known(s.health.Keys, b)
            && es[i].name !in Names(a) && es[i].name !in Names(b)
            && Run(cfg, s, es) == Run(cfg, Step(cfg, Run(cfg, s, a), es[i]), b)
  {
    var a, b := es[..i], es[i + 1..];
    assert es == (a + [es[i]]) + b;
    RunSnoc(cfg, s, a, es[i]);
    RunConcat(cfg, s, a + [es[i]], b);
  }

  lemma {:induction false} OwnHistory(cfg: Config, s: State, answers: Answers, es: seq<Event>, name: string)
    requires RoundOf(s, answers) && IsRound(answers, es) && Known(s.health.Keys, es) && name in answers
    ensures var t := Run(cfg, s, es);
            && ListOf(t.checked, name) == HistoryAfter(s, name, answers[name])
            && (name in t.checked <==> name in s.checked || Accepted(answers[name]))
  {
    assert name in Names(es);
    var i :| 0 <= i < |es| && es[i].name == name;
    assert es[i] in es;
    SplitAt(cfg, s, answers, es, i);
    BystanderHistory(cfg, s, es[..i], name);
    var mid := Run(cfg, s, es[..i]);
    StepChecked(cfg, mid, es[i]);
    BystanderHistory(cfg, Step(cfg, mid, es[i]), es[i + 1..], name);
  }

  /** The history map a round leaves, which no completion order can change. */
  function RoundHistories(s: State, answers: Answers): map<string, seq<int64>>
    requires RoundOf(s, answers)
  {
    map k | k in answers && (k in s.checked || Accepted(answers[k])) :: HistoryAfter(s, k, answers[k])
  }

  lemma {:induction false} HistoriesOfRound(cfg: Config, s: State, answers: Answers, es: seq<Event>)
    requires RoundOf(s, answers) && IsRound(answers, es) && Known(s.health.Keys, es)
    ensures Run(cfg, s, es).checked == RoundHistories(s, answers)
  {
    hide Step;
    var t := Run(cfg, s, es);
    forall k | k in answers
      ensures k in t.checked <==> k in s.checked || Accepted(answers[k])
      ensures k in t.checked ==> t.checked[k] == HistoryAfter(s, k, answers[k])
    {
      OwnHistory(cfg, s, answers, es, k);
    }
  }

  /** The metrics sent for these events, one each and in their order. */
  predicate SentFor(sent: seq<Metric>, es: seq<Event>) {
    |sent| == |es| && forall i :: 0 <= i < |es| ==> IsMetricOf(sent[i], es[i])
  }

  predicate IsMetricOf(m: Metric, e: Event) {
    m.host == e.name && m.statusCode == e.answer.statusCode && m.block == e.answer.block
  }

  lemma StepMetric(cfg: Config, s: State, e: Event) returns (m: Metric)
    requires WellFormed(s) && e.name in s.health
    ensures IsMetricOf(m, e) && m.status == Step(cfg, s, e).health[e.name].status
    ensures Step(cfg, s, e).metrics == s.metrics + [m]
  {
    m := Step(cfg, s, e).metrics[|s.metrics|];
  }

  lemma {:induction false} MetricsOfRun(cfg: Config, s: State, es: seq<Event>) returns (sent: seq<Metric>)
    requires WellFormed(s) && Known(s.health.Keys, es)
    ensures SentFor(sent, es) && Run(cfg, s, es).metrics == s.metrics + sent
    decreases |es|
  {
    hide Step;
    sent := [];
    if es != [] {
      var front := es[..|es| - 1];
      var before := MetricsOfRun(cfg, s, front);
      var m := StepMetric(cfg, Run(cfg, s, front), es[|es| - 1]);
      sent := before + [m];
    }
  }

  /** From the start on, the metrics are those of the answers, one each and in their order. */
  lemma {:induction false} MetricsFromStart(cfg: Config, names: set<string>, es: seq<Event>)
    requires Known(names, es)
    ensures SentFor(Run(cfg, Initial(names), es).metrics, es)
  {
    var sent := MetricsOfRun(cfg, Initial(names), es);
    assert [] + sent == sent;
  }

  predicate IsOnlyMetricOf(sent: seq<Metric>, i: int, name: string, a: Answer) {
    && 0 <= i < |sent| && IsMetricOf(sent[i], Event(name, a))
    && forall j :: 0 <= j < |sent| && j != i ==> sent[j].host != name
  }

  /** Per round every provider sends exactly one block metric, whatever the order and the answers. */
  lemma {:induction false} OneMetricPerProvider(cfg: Config, s: State, answers: Answers, es: seq<Event>)
    returns (sent: seq<Metric>)
    requires RoundOf(s, answers) && IsRound(answers, es) && Known(s.health.Keys, es)
    ensures Run(cfg, s, es).metrics == s.metrics + sent && |sent| == |es|
    ensures forall name <- answers :: exists i :: IsOnlyMetricOf(sent, i, name, answers[name])
  {
    sent := MetricsOfRun(cfg, s, es);
    forall name <- answers ensures exists i :: IsOnlyMetricOf(sent, i, name, answers[name]) {
      assert name in Names(es);
      var i :| 0 <= i < |es| && es[i].name == name;
      assert es[i] in es;
      assert IsOnlyMetricOf(sent, i, name, answers[name]);
    }
  }

  /** Failures and rate limits leave the head, every history and every other provider as they were. */
  lemma {:induction false} NothingAcceptedNothingMoves(cfg: Config, s: State, es: seq<Event>)
    requires WellFormed(s) && Known(s.health.Keys, es) && Blocks(es) == {}
    ensures Run(cfg, s, es).latest == s.latest && Run(cfg, s, es).checked == s.checked
    ensures forall k <- s.health :: k !in Names(es) ==> Run(cfg, s, es).health[k] == s.health[k]
    decreases |es|
  {
    hide Step;
    if es != [] {
      var front, e := es[..|es| - 1], es[|es| - 1];
      BlocksSnoc(es);
      NothingAcceptedNothingMoves(cfg, s, front);
      var mid := Run(cfg, s, front);
      StepLatest(cfg, mid, e);
      StepChecked(cfg, mid, e);
      assert e in es && forall x <- front :: x in es;
      forall k <- s.health | k !in Names(es) ensures Step(cfg, mid, e).health[k] == s.health[k] {
        StepBystander(cfg, mid, e, k);
      }
    }
  }

  // ----- Confluence

  /** The providers whose recorded block lags the head. */
  function Lagging(cfg: Config, s: State): set<string>
    requires WellFormed(s)
  {
    set k <- s.checked | IsLagging(cfg, s, k)
  }

  /** What any completion order leaves. */
  lemma {:induction false} OutcomeOfRound(cfg: Config, s: State, answers: Answers, es: seq<Event>, top: int64)
    requires RoundOf(s, answers) && LagInvariant(cfg, s) && cfg.lagLimit >= 0 && IsRound(answers, es)
    requires IsGreatest(top, s.latest, AcceptedBlocks(answers)) && (top != 0 || NonNegative(AcceptedBlocks(answers)))
    ensures Known(s.health.Keys, es)
    ensures Run(cfg, s, es).latest == top
    ensures Run(cfg, s, es).checked == RoundHistories(s, answers)
    ensures LagInvariant(cfg, Run(cfg, s, es))
  {
    RoundIsKnown(s, answers, es);
    BlocksOfRound(answers, es);
    HeadReaches(cfg, s, es, top);
    HistoriesOfRound(cfg, s, answers, es);
    RunKeepsLagInvariant(cfg, s, es);
  }

  /** Any two completion orders of the same answers end with the same head, the same histories and
      the same lagging providers, all of them in Warning. */
  lemma {:induction false} Confluence(cfg: Config, s: State, answers: Answers, es1: seq<Event>,
                                      es2: seq<Event>, top: int64)
    requires RoundOf(s, answers) && LagInvariant(cfg, s) && cfg.lagLimit >= 0
    requires IsRound(answers, es1) && IsRound(answers, es2)
    requires IsGreatest(top, s.latest, AcceptedBlocks(answers)) && (top != 0 || NonNegative(AcceptedBlocks(answers)))
    ensures Known(s.health.Keys, es1) && Known(s.health.Keys, es2)
    ensures var t1, t2 := Run(cfg, s, es1), Run(cfg, s, es2);
            && t1.latest == t2.latest == top
            && t1.checked == t2.checked == RoundHistories(s, answers)
            && Lagging(cfg, t1) == Lagging(cfg, t2)
            && forall k <- Lagging(cfg, t1) :: t1.health[k].status == Warning && t2.health[k].status == Warning
  {
    OutcomeOfRound(cfg, s, answers, es1, top);
    OutcomeOfRound(cfg, s, answers, es2, top);
    SameLagging(cfg, Run(cfg, s, es1), Run(cfg, s, es2));
  }

  lemma SameLagging(cfg: Config, t1: State, t2: State)
    requires WellFormed(t1) && WellFormed(t2) && t1.latest == t2.latest && t1.checked == t2.checked
    requires LagInvariant(cfg, t1) && LagInvariant(cfg, t2)
    ensures Lagging(cfg, t1) == Lagging(cfg, t2)
    ensures forall k <- Lagging(cfg, t1) :: t1.health[k].status == Warning && t2.health[k].status == Warning
  {}

  /** The orders in which a series of rounds was completed. */
  predicate AreRounds(series: seq<Answers>, orders: seq<seq<Event>>) {
    |orders| == |series| && forall i :: 0 <= i < |series| ==> IsRound(series[i], orders[i])
  }

  predicate SeriesFor(names: set<string>, series: seq<Answers>) {
    forall i :: 0 <= i < |series| ==> series[i].Keys == names && NonNegative(AcceptedBlocks(series[i]))
  }

  function Joined(orders: seq<seq<Event>>): seq<Event> {
    if orders == [] then [] else Joined(orders[..|orders| - 1]) + orders[|orders| - 1]
  }

  lemma {:induction false} JoinedIsKnown(names: set<string>, series: seq<Answers>, orders: seq<seq<Event>>)
    requires SeriesFor(names, series) && AreRounds(series, orders)
    ensures Known(names, Joined(orders))
    decreases |series|
  {
    if series != [] {
      var n := |series| - 1;
      JoinedIsKnown(names, series[..n], orders[..n]);
      forall e <- orders[n] ensures e.name in names { assert e.name in Names(orders[n]); }
    }
  }

  lemma SameHistories(s1: State, s2: State, answers: Answers)
    requires RoundOf(s1, answers) && RoundOf(s2, answers) && s1.checked == s2.checked
    ensures RoundHistories(s1, answers) == RoundHistories(s2, answers)
  {}

  /** Nothing that completion orders may change tells the two states apart. */
  predicate Alike(cfg: Config, s1: State, s2: State) {
    && WellFormed(s1) && WellFormed(s2) && s1.health.Keys == s2.health.Keys
    && s1.latest == s2.latest >= 0 && s1.checked == s2.checked
    && LagInvariant(cfg, s1) && LagInvariant(cfg, s2)
  }

  lemma {:induction false} StayAlike(cfg: Config, s1: State, s2: State, answers: Answers, es1: seq<Event>,
                                     es2: seq<Event>)
    requires Alike(cfg, s1, s2) && RoundOf(s1, answers) && cfg.lagLimit >= 0 && NonNegative(AcceptedBlocks(answers))
    requires IsRound(answers, es1) && IsRound(answers, es2)
    ensures Known(s1.health.Keys, es1) && Known(s2.health.Keys, es2)
    ensures Alike(cfg, Run(cfg, s1, es1), Run(cfg, s2, es2))
  {
    hide Run, Step, RoundHistories, AcceptedBlocks, NonNegative, LagInvariant;
    var top := GreatestExists(s1.latest, AcceptedBlocks(answers));
    OutcomeOfRound(cfg, s1, answers, es1, top);
    OutcomeOfRound(cfg, s2, answers, es2, top);
    SameHistories(s1, s2, answers);
  }

  lemma StartAlike(cfg: Config, names: set<string>)
    ensures Alike(cfg, Run(cfg, Initial(names), []), Run(cfg, Initial(names), []))
  {}

  lemma {:induction false} AlikeAfterSeries(cfg: Config, names: set<string>, series: seq<Answers>,
                                            orders1: seq<seq<Event>>, orders2: seq<seq<Event>>)
    requires cfg.lagLimit >= 0 && SeriesFor(names, series) && AreRounds(series, orders1) && AreRounds(series, orders2)
    ensures Known(names, Joined(orders1)) && Known(names, Joined(orders2))
    ensures Alike(cfg, Run(cfg, Initial(names), Joined(orders1)), Run(cfg, Initial(names), Joined(orders2)))
    decreases |series|
  {
    hide Run, Step, Alike, IsRound, NonNegative, AcceptedBlocks;
    JoinedIsKnown(names, series, orders1);
    JoinedIsKnown(names, series, orders2);
    StartAlike(cfg, names);
    if series != [] {
      var n := |series| - 1;
      var before1, before2 := Joined(orders1[..n]), Joined(orders2[..n]);
      AlikeAfterSeries(cfg, names, series[..n], orders1[..n], orders2[..n]);
      StayAlike(cfg, Run(cfg, Initial(names), before1), Run(cfg, Initial(names), before2), series[n], orders1[n], orders2[n]);
      RunConcat(cfg, Initial(names), before1, orders1[n]);
      RunConcat(cfg, Initial(names), before2, orders2[n]);
    }
  }

  /** Over any number of rounds, started from nothing, the completion orders of all of them leave no
      trace in the head, the histories or the lagging providers, who all are in Warning. */
  lemma ConfluenceOverRounds(cfg: Config, names: set<string>, series: seq<Answers>,
                             orders1: seq<seq<Event>>, orders2: seq<seq<Event>>)
    requires cfg.lagLimit >= 0 && SeriesFor(names, series) && AreRounds(series, orders1) && AreRounds(series, orders2)
    ensures Known(names, Joined(orders1)) && Known(names, Joined(orders2))
    ensures var t1, t2 := Run(cfg, Initial(names), Joined(orders1)), Run(cfg, Initial(names), Joined(orders2));
            && t1.latest == t2.latest && t1.checked == t2.checked
            && Lagging(cfg, t1) == Lagging(cfg, t2)
            && forall k <- Lagging(cfg, t1) :: t1.health[k].status == Warning && t2.health[k].status == Warning
  {
    hide Run, Step;
    AlikeAfterSeries(cfg, names, series, orders1, orders2);
    SameLagging(cfg, Run(cfg, Initial(names), Joined(orders1)), Run(cfg, Initial(names), Joined(orders2)));
  }

  /** An accepted answer. */
  function Says(name: string, block: int64): Event {
    Event(name, Answer(block, 200, false))
  }

  /** The statuses of providers that do not lag may depend on the order: after a first round at block
      10 both providers jump to block 100, and whichever is handled first ends in Warning, by its own
      old entry. */
  lemma {:induction false} StatusesAreNotConfluent()
    ensures var cfg, first := Config(2, 5), [Says("a", 10), Says("b", 10)];
            var ab, ba := [Says("a", 100), Says("b", 100)], [Says("b", 100), Says("a", 100)];
            && Known({"a", "b"}, first) && Known({"a", "b"}, ab) && Known({"a", "b"}, ba)
            && var s := Run(cfg, Initial({"a", "b"}), first);
            && Run(cfg, s, ab).health["a"].status == Warning && Run(cfg, s, ab).health["b"].status == Healthy
            && Run(cfg, s, ba).health["a"].status == Healthy && Run(cfg, s, ba).health["b"].status == Warning
  {
    hide Run, Step;
    var cfg, e1, e2 := Config(2, 5), Says("a", 10), Says("b", 10);
    var s0 := Initial({"a", "b"});
    var s1 := Step(cfg, s0, e1);
    RunTwo(cfg, s0, e1, e2);
    StepLatest(cfg, s0, e1);
    StepChecked(cfg, s0, e1);
    StepLatest(cfg, s1, e2);
    StepChecked(cfg, s1, e2);
    JumpTogether(cfg, Step(cfg, s1, e2), "a", "b");
    JumpTogether(cfg, Step(cfg, s1, e2), "b", "a");
  }

  lemma RunTwo(cfg: Config, s: State, e1: Event, e2: Event)
    requires WellFormed(s) && e1.name in s.health && e2.name in s.health
    ensures Known(s.health.Keys, [e1, e2])
    ensures Run(cfg, s, [e1, e2]) == Step(cfg, Step(cfg, s, e1), e2)
  {
    RunOne(cfg, s, e1);
    RunSnoc(cfg, s, [e1], e2);
    assert [e1] + [e2] == [e1, e2];
  }

  lemma JumpTogether(cfg: Config, s: State, first: string, second: string)
    requires cfg == Config(2, 5) && first != second && WellFormed(s) && s.health.Keys == {first, second}
    requires s.latest == 10 && first in s.checked && second in s.checked
    requires s.checked[first][0] == 10 && s.checked[second][0] == 10
    ensures var es := [Says(first, 100), Says(second, 100)];
            && Known(s.health.Keys, es)
            && Run(cfg, s, es).health[first].status == Warning && Run(cfg, s, es).health[second].status == Healthy
  {
    hide Run, Step;
    var e1, e2 := Says(first, 100), Says(second, 100);
    var s1 := Step(cfg, s, e1);
    RunTwo(cfg, s, e1, e2);
    StepOwn(cfg, s, e1);
    StepLatest(cfg, s, e1);
    StepBystander(cfg, s1, e2, first);
    StepOwn(cfg, s1, e2);
  }
}
