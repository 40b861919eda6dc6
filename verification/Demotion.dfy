/** Which providers a round leaves Healthy however its answers are ordered, and where 64-bit
    arithmetic makes the lag test demote a provider that does not lag. */
module Demotion {
  import opened ProviderHealth
  import opened LatestBlock
  import opened HealthCheckSpec
  import opened Invariants
  import opened Rounds

  /** For a non-negative limit the 64-bit lag test decides what it is meant to, exactly unless the
      addition wraps around and the head is above the wrapped sum. */
  lemma LagTestIsExact(cfg: Config, block: int64, head: int64)
    requires cfg.lagLimit >= 0
    ensures (LagTest(cfg, block, head) <==> Lags(cfg, block, head)) <==>
            block + cfg.lagLimit <= MAX_INT64 || head <= block + cfg.lagLimit - 0x1_0000_0000_0000_0000
    ensures Lags(cfg, block, head) ==> LagTest(cfg, block, head)
  {}

  /** The wrapped sum demotes a Healthy provider one block behind the head. */
  lemma {:induction false} OverflowDemotes()
    ensures var cfg, e1, e2 := Config(2, 5), Says("a", MAX_INT64 - 1), Says("b", MAX_INT64);
            && Known({"a", "b"}, [e1]) && Known({"a", "b"}, [e1, e2])
            && var s, t := Run(cfg, Initial({"a", "b"}), [e1]), Run(cfg, Initial({"a", "b"}), [e1, e2]);
            && s.health["a"].status == Healthy && t.health["a"].status == Warning
            && t.latest == MAX_INT64 && ListOf(t.checked, "a") == [MAX_INT64 - 1] && !IsLagging(cfg, t, "a")
  {
    hide Run, Step;
    var cfg, e1, e2 := Config(2, 5), Says("a", MAX_INT64 - 1), Says("b", MAX_INT64);
    var s0 := Initial({"a", "b"});
    var s1 := Step(cfg, s0, e1);
    RunOne(cfg, s0, e1);
    RunTwo(cfg, s0, e1, e2);
    StepLatest(cfg, s0, e1);
    StepChecked(cfg, s0, e1);
    StepOwn(cfg, s0, e1);
    StepLatest(cfg, s1, e2);
    StepChecked(cfg, s1, e2);
    StepBystander(cfg, s1, e2, "a");
  }

  predicate Fits(cfg: Config, block: int64) {
    0 <= block && block + cfg.lagLimit <= MAX_INT64
  }

  /** Block numbers are not negative, and adding the limit to one does not overflow. */
  predicate Sane(cfg: Config, s: State, answers: Answers)
    requires WellFormed(s)
  {
    && cfg.lagLimit >= 0 && s.latest >= 0
    && (forall k <- answers :: Accepted(answers[k]) ==> Fits(cfg, answers[k].block))
    && (forall k <- s.checked :: Fits(cfg, s.checked[k][0]))
  }

  predicate OldEntryLags(cfg: Config, s: State, name: string, top: int64)
    requires WellFormed(s)
  {
    name in s.checked && Lags(cfg, s.checked[name][0], top)
  }

  /** While others answer, a provider's counters stay, and its status can only turn to Warning, which
      needs its recorded block to lag the highest head of the round. */
  lemma {:induction false} BystanderHealth(cfg: Config, s: State, es: seq<Event>, name: string, top: int64)
    requires WellFormed(s) && Known(s.health.Keys, es) && name in s.health && name !in Names(es)
    requires s.latest <= top && Bounded(Blocks(es), top)
    ensures var h, h' := s.health[name], Run(cfg, s, es).health[name];
            && (h' == h || h' == AsWarning(h))
            && (!(name in s.checked && LagTest(cfg, s.checked[name][0], top)) ==> h' == h)
    decreases |es|
  {
    hide Step;
    if es != [] {
      var front, e := es[..|es| - 1], es[|es| - 1];
      assert e in es;
      BlocksSnoc(es);
      BystanderHealth(cfg, s, front, name, top);
      BystanderHistory(cfg, s, front, name);
      StepBystander(cfg, Run(cfg, s, front), e, name);
    }
  }

  /** The state in which the i-th event of an order finds the network. */
  function Before(cfg: Config, s: State, es: seq<Event>, i: nat): State
    requires WellFormed(s) && Known(s.health.Keys, es) && i < |es|
  {
    Run(cfg, s, es[..i])
  }

  /** An order seen from its i-th event: the provider answers neither before nor after, and every
      block answered on either side is at most the final head. */
  lemma Turn(cfg: Config, s: State, answers: Answers, es: seq<Event>, i: nat, top: int64)
    requires RoundOf(s, answers) && IsRound(answers, es) && Known(s.health.Keys, es) && i < |es|
    requires IsGreatest(top, s.latest, AcceptedBlocks(answers))
    ensures var a, b := es[..i], es[i + 1..];
            && Known(s.health.Keys, a) && Known(s.health.Keys, b)
            && es[i].name in answers && es[i].answer == answers[es[i].name]
            && es[i].name !in Names(a) && es[i].name !in Names(b)
            && Bounded(Blocks(a), top) && Bounded(Blocks(b), top) && Blocks(a) <= AcceptedBlocks(answers)
            && Run(cfg, s, es) == Run(cfg, Step(cfg, Run(cfg, s, a), es[i]), b)
  {
    hide Run, Step;
    SplitAt(cfg, s, answers, es, i);
    assert es[i] in es;
    PrefixOfRound(answers, es, i);
    PrefixOfRound(answers, es, i + 1);
    BlocksOfRound(answers, es[..i]);
    BlocksOfRound(answers, es[i + 1..]);
  }

  lemma BlockIsBounded(answers: Answers, name: string, head: int64, top: int64)
    requires name in answers && Accepted(answers[name]) && IsGreatest(top, head, AcceptedBlocks(answers))
    ensures answers[name].block <= top
  {
    assert answers[name].block in AcceptedBlocks(answers);
  }

  /** Once a provider has given an answer that does not lag the final head, nothing more happens to it. */
  lemma SettledAfter(cfg: Config, mid: State, e: Event, rest: seq<Event>, top: int64)
    requires WellFormed(mid) && e.name in mid.health && Known(mid.health.Keys, rest) && e.name !in Names(rest)
    requires mid.latest <= top && Bounded(Blocks(rest), top)
    requires Accepted(e.answer) && e.answer.block <= top && !LagTest(cfg, e.answer.block, top)
    ensures Run(cfg, Step(cfg, mid, e), rest).health[e.name] == Step(cfg, mid, e).health[e.name]
  {
    hide Run;
    StepLatest(cfg, mid, e);
    StepChecked(cfg, mid, e);
    BystanderHealth(cfg, Step(cfg, mid, e), rest, e.name, top);
  }

  lemma {:induction false} SettledAfterOwnStep(cfg: Config, s: State, answers: Answers, es: seq<Event>, i: nat,
                                               top: int64)
    requires RoundOf(s, answers) && Sane(cfg, s, answers) && IsRound(answers, es) && Known(s.health.Keys, es)
    requires i < |es|
    requires IsGreatest(top, s.latest, AcceptedBlocks(answers))
    requires Accepted(es[i].answer) && !Lags(cfg, es[i].answer.block, top)
    ensures Run(cfg, s, es).health[es[i].name] == Step(cfg, Before(cfg, s, es, i), es[i]).health[es[i].name]
  {
    hide Run, Step, Names, Blocks;
    Turn(cfg, s, answers, es, i, top);
    BlockIsBounded(answers, es[i].name, s.latest, top);
    HeadComesFrom(cfg, s, es[..i]);
    SettledAfter(cfg, Before(cfg, s, es, i), es[i], es[i + 1..], top);
  }

  /** What has happened to a provider when its own turn comes. */
  lemma BeforeOwnStep(cfg: Config, s: State, answers: Answers, es: seq<Event>, i: nat, top: int64)
    requires RoundOf(s, answers) && Sane(cfg, s, answers) && IsRound(answers, es) && Known(s.health.Keys, es)
    requires i < |es|
    requires IsGreatest(top, s.latest, AcceptedBlocks(answers))
    ensures var mid, name := Before(cfg, s, es, i), es[i].name;
            && name in mid.health && 0 <= mid.latest <= top && (top == s.latest ==> mid.latest == top)
            && (name in mid.checked <==> name in s.checked)
            && (name in s.checked ==> mid.checked[name] == s.checked[name])
            && (mid.health[name] == s.health[name] || mid.health[name] == AsWarning(s.health[name]))
            && (!OldEntryLags(cfg, s, name, top) ==> mid.health[name] == s.health[name])
  {
    hide Run, Step, Names, Blocks;
    var a, name := es[..i], es[i].name;
    Turn(cfg, s, answers, es, i, top);
    HeadComesFrom(cfg, s, a);
    assert Run(cfg, s, a).latest >= 0 by { AcceptedNotNegative(cfg, s, answers); }
    if top == s.latest {
      assert NonNegative(Blocks(a)) by { AcceptedNotNegative(cfg, s, answers); }
      HeadReaches(cfg, s, a, top);
    }
    BystanderHistory(cfg, s, a, name);
    BystanderHealth(cfg, s, a, name, top);
  }

  lemma AcceptedNotNegative(cfg: Config, s: State, answers: Answers)
    requires WellFormed(s) && Sane(cfg, s, answers)
    ensures NonNegative(AcceptedBlocks(answers))
  {}

  /** The condition, read off the state before the round, the provider's own answer and the final head. */
  predicate MustEndHealthy(cfg: Config, s: State, name: string, a: Answer, top: int64)
    requires WellFormed(s) && name in s.health
  {
    var h := s.health[name];
    if Failed(a) then
      PingFailure(h, cfg.threshold).status.Healthy? && !OldEntryLags(cfg, s, name, top)
    else if RateLimited(a) then false
    else
      && !Lags(cfg, a.block, top)
      && (top > s.latest ==> !OldEntryLags(cfg, s, name, top))
      && (a.block == top || PingSuccess(h, cfg.threshold).status.Healthy?)
  }

  lemma {:induction false} AcceptedEndsHealthy(cfg: Config, s: State, answers: Answers, es: seq<Event>, i: nat,
                                               top: int64)
    requires RoundOf(s, answers) && Sane(cfg, s, answers) && LagInvariant(cfg, s)
    requires IsGreatest(top, s.latest, AcceptedBlocks(answers))
    requires IsRound(answers, es) && Known(s.health.Keys, es) && i < |es|
    requires Accepted(es[i].answer) && MustEndHealthy(cfg, s, es[i].name, es[i].answer, top)
    ensures Run(cfg, s, es).health[es[i].name].status == Healthy
  {
    hide Run, Step, Names, Blocks;
    Turn(cfg, s, answers, es, i, top);
    BlockIsBounded(answers, es[i].name, s.latest, top);
    SettledAfterOwnStep(cfg, s, answers, es, i, top);
    BeforeOwnStep(cfg, s, answers, es, i, top);
    StepOwn(cfg, Before(cfg, s, es, i), es[i]);
  }

  /** After a failure or a 429 the status can only turn to Warning, by a lagging recorded block. */
  lemma StaysAfterUnaccepted(cfg: Config, mid: State, e: Event, rest: seq<Event>, top: int64)
    requires WellFormed(mid) && e.name in mid.health && Known(mid.health.Keys, rest) && e.name !in Names(rest)
    requires mid.latest <= top && Bounded(Blocks(rest), top) && !Accepted(e.answer)
    requires !(e.name in mid.checked && LagTest(cfg, mid.checked[e.name][0], top))
    ensures Run(cfg, Step(cfg, mid, e), rest).health[e.name] == Step(cfg, mid, e).health[e.name]
  {
    hide Run;
    StepLatest(cfg, mid, e);
    StepChecked(cfg, mid, e);
    BystanderHealth(cfg, Step(cfg, mid, e), rest, e.name, top);
  }

  /** What a failure or a 429 leaves a provider in at the end of the round. */
  function StatusAfterUnaccepted(cfg: Config, s: State, name: string, a: Answer, top: int64): HealthStatus
    requires WellFormed(s) && name in s.health
  {
    if RateLimited(a) || OldEntryLags(cfg, s, name, top) then Warning
    else PingFailure(s.health[name], cfg.threshold).status
  }

  /** It is the same status in every order. */
  lemma {:induction false} UnacceptedStatus(cfg: Config, s: State, answers: Answers, es: seq<Event>, i: nat, top: int64)
    requires RoundOf(s, answers) && Sane(cfg, s, answers) && LagInvariant(cfg, s)
    requires IsGreatest(top, s.latest, AcceptedBlocks(answers))
    requires IsRound(answers, es) && Known(s.health.Keys, es) && i < |es| && !Accepted(es[i].answer)
    ensures Run(cfg, s, es).health[es[i].name].status == StatusAfterUnaccepted(cfg, s, es[i].name, es[i].answer, top)
  {
    hide Run, Step, Names, Blocks;
    var name, mid := es[i].name, Before(cfg, s, es, i);
    Turn(cfg, s, answers, es, i, top);
    BeforeOwnStep(cfg, s, answers, es, i, top);
    if OldEntryLags(cfg, s, name, top) {
      AcceptedNotNegative(cfg, s, answers);
      OutcomeOfRound(cfg, s, answers, es, top);
      assert HistoryAfter(s, name, es[i].answer) == s.checked[name];
      assert IsLagging(cfg, Run(cfg, s, es), name);
    } else {
      StepOwn(cfg, mid, es[i]);
      StaysAfterUnaccepted(cfg, mid, es[i], es[i + 1..], top);
    }
  }

  /** A completion order that starts with these events. */
  lemma StartingWith(answers: Answers, first: seq<Event>) returns (es: seq<Event>)
    requires PartOfRound(answers, first)
    ensures IsRound(answers, es) && |first| <= |es| && es[..|first|] == first
  {
    var rest := Enumerate(answers, answers.Keys - Names(first));
    JoinParts(answers, first, rest);
    es := first + rest;
  }

  /** If the provider's own new block lags the final head, it ends in Warning. */
  lemma {:induction false} LaggingAnswerEndsInWarning(cfg: Config, s: State, answers: Answers, es: seq<Event>,
                                                      name: string, top: int64)
    requires RoundOf(s, answers) && Sane(cfg, s, answers) && LagInvariant(cfg, s)
    requires IsGreatest(top, s.latest, AcceptedBlocks(answers))
    requires IsRound(answers, es) && name in answers && Accepted(answers[name]) && Lags(cfg, answers[name].block, top)
    ensures Known(s.health.Keys, es) && Run(cfg, s, es).health[name].status == Warning
  {
    hide Run, Step, Names, Blocks;
    AcceptedNotNegative(cfg, s, answers);
    OutcomeOfRound(cfg, s, answers, es, top);
    assert HistoryAfter(s, name, answers[name])[0] == answers[name].block;
    assert IsLagging(cfg, Run(cfg, s, es), name);
  }

  // ----- Orders with the provider first, or right after another

  /** The final status of an accepted answer that does not lag the final head is the one it got. */
  lemma {:induction false} EndsAsJudged(cfg: Config, s: State, answers: Answers, es: seq<Event>, i: nat, top: int64)
    requires RoundOf(s, answers) && Sane(cfg, s, answers) && IsGreatest(top, s.latest, AcceptedBlocks(answers))
    requires IsRound(answers, es) && Known(s.health.Keys, es) && i < |es|
    requires Accepted(es[i].answer) && !Lags(cfg, es[i].answer.block, top)
    ensures es[i].name in s.health
    ensures Run(cfg, s, es).health[es[i].name].status ==
            StatusAfterAccept(cfg, Before(cfg, s, es, i), es[i].name, es[i].answer.block)
  {
    hide Run, Step, StatusAfterAccept;
    SettledAfterOwnStep(cfg, s, answers, es, i, top);
    StepOwn(cfg, Before(cfg, s, es, i), es[i]);
  }

  /** Somebody else's accepted answer has this block. */
  predicate IsAnother(answers: Answers, name: string, q: string, block: int64) {
    q in answers && q != name && Accepted(answers[q]) && answers[q].block == block
  }

  lemma {:induction false} AnswersFirst(cfg: Config, s: State, answers: Answers, name: string, top: int64)
    returns (es: seq<Event>)
    requires RoundOf(s, answers) && Sane(cfg, s, answers) && IsGreatest(top, s.latest, AcceptedBlocks(answers))
    requires name in answers && Accepted(answers[name]) && !Lags(cfg, answers[name].block, top)
    ensures IsRound(answers, es) && Known(s.health.Keys, es)
    ensures Run(cfg, s, es).health[name].status == StatusAfterAccept(cfg, s, name, answers[name].block)
  {
    hide Run, Step, StatusAfterAccept;
    var e := Event(name, answers[name]);
    es := StartingWith(answers, [e]);
    RoundIsKnown(s, answers, es);
    assert es[0] == es[..1][0] == e;
    EndsAsJudged(cfg, s, answers, es, 0, top);
    assert es[..0] == [];
    RunNone(cfg, s);
  }

  lemma {:induction false} AnswersAfter(cfg: Config, s: State, answers: Answers, q: string, name: string, top: int64)
    returns (es: seq<Event>)
    requires RoundOf(s, answers) && Sane(cfg, s, answers) && IsGreatest(top, s.latest, AcceptedBlocks(answers))
    requires name in answers && Accepted(answers[name]) && !Lags(cfg, answers[name].block, top) && q in answers
    requires q != name
    ensures IsRound(answers, es) && Known(s.health.Keys, es)
    ensures Run(cfg, s, es).health[name].status ==
            StatusAfterAccept(cfg, Step(cfg, s, Event(q, answers[q])), name, answers[name].block)
  {
    hide Run, Step, StatusAfterAccept;
    var e, leader := Event(name, answers[name]), Event(q, answers[q]);
    es := StartingWith(answers, [leader, e]);
    RoundIsKnown(s, answers, es);
    assert es[0] == es[..2][0] == leader && es[1] == es[..2][1] == e;
    EndsAsJudged(cfg, s, answers, es, 1, top);
    assert es[..1] == [leader];
    RunOne(cfg, s, leader);
  }

  /** A provider that answers right after one that raises the head. */
  lemma AfterRaise(cfg: Config, s: State, answers: Answers, q: string, name: string, block: int64)
    requires RoundOf(s, answers) && Sane(cfg, s, answers) && name in answers
    requires IsAnother(answers, name, q, block) && block > s.latest
    ensures var mid := Step(cfg, s, Event(q, answers[q]));
            && mid.latest == block
            && mid.health[name] == if OldEntryLags(cfg, s, name, block) then AsWarning(s.health[name]) else s.health[name]
  {
    hide Step;
    var e := Event(q, answers[q]);
    StepLatest(cfg, s, e);
    StepBystander(cfg, s, e, name);
  }

  /** Answering first, the provider can demote itself, or miss a head that others confirm. Just after
      a head-raiser, it can be demoted by it, or left below the head. */
  lemma {:induction false} SomeOrderNotHealthy(cfg: Config, s: State, answers: Answers, name: string, top: int64)
    returns (es: seq<Event>)
    requires RoundOf(s, answers) && Sane(cfg, s, answers) && LagInvariant(cfg, s)
    requires IsGreatest(top, s.latest, AcceptedBlocks(answers))
    requires name in answers && Accepted(answers[name]) && !MustEndHealthy(cfg, s, name, answers[name], top)
    ensures IsRound(answers, es) && Known(s.health.Keys, es)
    ensures Run(cfg, s, es).health[name].status != Healthy
  {
    hide Run, Step;
    BlockIsBounded(answers, name, s.latest, top);
    if Lags(cfg, answers[name].block, top) {
      es := StartingWith(answers, []);
      LaggingAnswerEndsInWarning(cfg, s, answers, es, name, top);
    } else if answers[name].block == top || top == s.latest {
      es := AnswersFirst(cfg, s, answers, name, top);
    } else {
      var q :| q in answers && Accepted(answers[q]) && answers[q].block == top;
      AfterRaise(cfg, s, answers, q, name, top);
      es := AnswersAfter(cfg, s, answers, q, name, top);
    }
  }

  ghost predicate HealthyInEveryOrder(cfg: Config, s: State, answers: Answers, name: string)
    requires RoundOf(s, answers) && name in answers
  {
    forall es | IsRound(answers, es) && Known(s.health.Keys, es) :: Run(cfg, s, es).health[name].status == Healthy
  }

  /** No false demotion, exactly: a provider ends the round Healthy in every completion order if and
      only if the condition holds, for any kind of answer. */
  lemma HealthyInEveryOrderExactlyWhen(cfg: Config, s: State, answers: Answers, name: string, top: int64)
    requires RoundOf(s, answers) && Sane(cfg, s, answers) && LagInvariant(cfg, s) && name in answers
    requires IsGreatest(top, s.latest, AcceptedBlocks(answers))
    ensures HealthyInEveryOrder(cfg, s, answers, name) <==> MustEndHealthy(cfg, s, name, answers[name], top)
  {
    forall es: seq<Event> | IsRound(answers, es) && Known(s.health.Keys, es)
      ensures MustEndHealthy(cfg, s, name, answers[name], top) ==> Run(cfg, s, es).health[name].status == Healthy
      ensures !Accepted(answers[name]) ==>
                (Run(cfg, s, es).health[name].status == Healthy <==> MustEndHealthy(cfg, s, name, answers[name], top))
    {
      assert name in Names(es);
      var i :| 0 <= i < |es| && es[i].name == name;
      assert es[i] in es;
      if !Accepted(answers[name]) { UnacceptedStatus(cfg, s, answers, es, i, top); }
      else if MustEndHealthy(cfg, s, name, answers[name], top) { AcceptedEndsHealthy(cfg, s, answers, es, i, top); }
    }
    if !MustEndHealthy(cfg, s, name, answers[name], top) {
      if Accepted(answers[name]) {
        var es := SomeOrderNotHealthy(cfg, s, answers, name, top);
      } else {
        var es := StartingWith(answers, []);
        RoundIsKnown(s, answers, es);
        assert Run(cfg, s, es).health[name].status != Healthy;
      }
    }
  }
}
