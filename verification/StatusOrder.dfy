/** When the status a round leaves a provider in depends on the order in which the answers come. */
module StatusOrder {
  import opened ProviderHealth
  import opened LatestBlock
  import opened HealthCheckSpec
  import opened Invariants
  import opened Rounds
  import opened Demotion

  ghost predicate EndsAs(cfg: Config, s: State, answers: Answers, name: string, status: HealthStatus)
    requires RoundOf(s, answers) && name in answers
  {
    forall es | IsRound(answers, es) && Known(s.health.Keys, es) :: Run(cfg, s, es).health[name].status == status
  }

  ghost predicate SameStatusInEveryOrder(cfg: Config, s: State, answers: Answers, name: string)
    requires RoundOf(s, answers) && name in answers
  {
    exists status :: EndsAs(cfg, s, answers, name, status)
  }

  ghost predicate AnotherAnswers(answers: Answers, name: string, block: int64) {
    exists q :: IsAnother(answers, name, q, block)
  }

  /** Read off the state before the round, the answers and the final head `top`: a provider that is
      not behind the final head is judged alike whoever has already answered. */
  ghost predicate StatusIsDetermined(cfg: Config, s: State, answers: Answers, name: string, top: int64)
    requires RoundOf(s, answers) && name in answers
  {
    var block := answers[name].block;
    if !Accepted(answers[name]) || Lags(cfg, block, top) || top == s.latest then true
    else if block == top then !OldEntryLags(cfg, s, name, top) || !AnotherAnswers(answers, name, top)
    else if block < s.latest then !OldEntryLags(cfg, s, name, top) || s.health[name].status == Warning
    else
      || MustEndHealthy(cfg, s, name, answers[name], top)
      || (OldEntryLags(cfg, s, name, block) && block != s.latest && !AnotherAnswers(answers, name, block))
  }

  /** The status of a provider that answers before all others. */
  function StatusIfFirst(cfg: Config, s: State, name: string, a: Answer, top: int64): HealthStatus
    requires WellFormed(s) && name in s.health
  {
    if !Accepted(a) then StatusAfterUnaccepted(cfg, s, name, a, top)
    else if Lags(cfg, a.block, top) then Warning
    else StatusAfterAccept(cfg, s, name, a.block)
  }

  // ----- The state a provider answers in

  lemma {:induction false} HeadNotBelow(cfg: Config, s: State, es: seq<Event>)
    requires WellFormed(s) && Known(s.health.Keys, es) && s.latest >= 0 && NonNegative(Blocks(es))
    ensures Run(cfg, s, es).latest >= s.latest
  {
    var top := GreatestExists(s.latest, Blocks(es));
    HeadReaches(cfg, s, es, top);
  }

  /** What a provider can find when its turn comes. */
  ghost predicate Found(cfg: Config, s: State, answers: Answers, name: string, mid: State, top: int64)
    requires WellFormed(s) && WellFormed(mid) && name in s.health && name in mid.health
  {
    && s.latest <= mid.latest <= top
    && (mid.latest == s.latest || AnotherAnswers(answers, name, mid.latest))
    && (name in mid.checked <==> name in s.checked)
    && (name in s.checked ==> mid.checked[name] == s.checked[name])
    && (mid.health[name] == s.health[name] || mid.health[name] == AsWarning(s.health[name]))
    && (!OldEntryLags(cfg, s, name, top) ==> mid.health[name] == s.health[name])
    && LagInvariant(cfg, mid)
  }

  lemma {:induction false} FindsBefore(cfg: Config, s: State, answers: Answers, es: seq<Event>, i: nat, top: int64)
    requires RoundOf(s, answers) && Sane(cfg, s, answers) && LagInvariant(cfg, s)
    requires IsGreatest(top, s.latest, AcceptedBlocks(answers))
    requires IsRound(answers, es) && Known(s.health.Keys, es) && i < |es|
    ensures es[i].name in s.health && es[i].name in Before(cfg, s, es, i).health
    ensures Found(cfg, s, answers, es[i].name, Before(cfg, s, es, i), top)
  {
    hide Run, Step, LagInvariant, OldEntryLags;
    var a, name := es[..i], es[i].name;
    Turn(cfg, s, answers, es, i, top);
    BeforeOwnStep(cfg, s, answers, es, i, top);
    AcceptedNotNegative(cfg, s, answers);
    HeadNotBelow(cfg, s, a);
    HeadComesFrom(cfg, s, a);
    RunKeepsLagInvariant(cfg, s, a);
    var latest := Run(cfg, s, a).latest;
    if latest != s.latest {
      var e :| e in a && Accepted(e.answer) && e.answer.block == latest;
      assert e in es && e.name in Names(a);
      assert IsAnother(answers, name, e.name, latest);
    }
  }

  /** Whatever a provider finds, it is judged as if it came first. */
  lemma JudgedAlike(cfg: Config, s: State, answers: Answers, name: string, mid: State, top: int64)
    requires RoundOf(s, answers) && Sane(cfg, s, answers) && LagInvariant(cfg, s) && name in answers
    requires WellFormed(mid) && name in mid.health && Found(cfg, s, answers, name, mid, top)
    requires Accepted(answers[name]) && !Lags(cfg, answers[name].block, top) && answers[name].block <= top
    requires StatusIsDetermined(cfg, s, answers, name, top)
    ensures StatusAfterAccept(cfg, mid, name, answers[name].block) == StatusAfterAccept(cfg, s, name, answers[name].block)
  {
    if name in s.checked && Lags(cfg, s.checked[name][0], mid.latest) {
      assert IsLagging(cfg, mid, name);
    }
    if name in s.checked && Lags(cfg, s.checked[name][0], s.latest) {
      assert IsLagging(cfg, s, name);
    }
  }

  lemma {:induction false} EndsAsIfFirst(cfg: Config, s: State, answers: Answers, es: seq<Event>, i: nat, top: int64)
    requires RoundOf(s, answers) && Sane(cfg, s, answers) && LagInvariant(cfg, s)
    requires IsGreatest(top, s.latest, AcceptedBlocks(answers))
    requires IsRound(answers, es) && Known(s.health.Keys, es) && i < |es|
    requires es[i].name in answers && StatusIsDetermined(cfg, s, answers, es[i].name, top)
    ensures Run(cfg, s, es).health[es[i].name].status == StatusIfFirst(cfg, s, es[i].name, answers[es[i].name], top)
  {
    hide Run, Step, StatusAfterAccept, Found, StatusIsDetermined, StatusAfterUnaccepted;
    var name := es[i].name;
    assert es[i] in es;
    if !Accepted(es[i].answer) {
      UnacceptedStatus(cfg, s, answers, es, i, top);
    } else if Lags(cfg, es[i].answer.block, top) {
      LaggingAnswerEndsInWarning(cfg, s, answers, es, name, top);
    } else {
      EndsAsJudged(cfg, s, answers, es, i, top);
      FindsBefore(cfg, s, answers, es, i, top);
      BlockIsBounded(answers, name, s.latest, top);
      JudgedAlike(cfg, s, answers, name, Before(cfg, s, es, i), top);
    }
  }

  // ----- Two orders that differ

  /** What a provider ends as when it answers right after one that raises the head to `block`. */
  lemma {:induction false} RaisedBefore(cfg: Config, s: State, answers: Answers, q: string, name: string,
                                        block: int64, top: int64)
    returns (es: seq<Event>)
    requires RoundOf(s, answers) && Sane(cfg, s, answers) && IsGreatest(top, s.latest, AcceptedBlocks(answers))
    requires name in answers && Accepted(answers[name]) && !Lags(cfg, answers[name].block, top)
    requires IsAnother(answers, name, q, block) && block > s.latest && block >= answers[name].block
    ensures IsRound(answers, es) && Known(s.health.Keys, es)
    ensures Run(cfg, s, es).health[name].status ==
            if answers[name].block == block then Healthy
            else if OldEntryLags(cfg, s, name, block) then Warning
            else PingSuccess(s.health[name], cfg.threshold).status
  {
    hide Run, Step;
    BlockIsBounded(answers, q, s.latest, top);
    AfterRaise(cfg, s, answers, q, name, block);
    es := AnswersAfter(cfg, s, answers, q, name, top);
  }

  lemma {:induction false} TwoOrdersDiffer(cfg: Config, s: State, answers: Answers, name: string, top: int64)
    returns (es1: seq<Event>, es2: seq<Event>)
    requires RoundOf(s, answers) && Sane(cfg, s, answers) && LagInvariant(cfg, s) && name in answers
    requires IsGreatest(top, s.latest, AcceptedBlocks(answers)) && !StatusIsDetermined(cfg, s, answers, name, top)
    ensures IsRound(answers, es1) && Known(s.health.Keys, es1) && IsRound(answers, es2) && Known(s.health.Keys, es2)
    ensures Run(cfg, s, es1).health[name].status != Run(cfg, s, es2).health[name].status
  {
    hide Run, Step, IsRound, MustEndHealthy, LagInvariant;
    var block := answers[name].block;
    BlockIsBounded(answers, name, s.latest, top);
    es1 := AnswersFirst(cfg, s, answers, name, top);
    if block == top {
      var q :| IsAnother(answers, name, q, top);
      es2 := RaisedBefore(cfg, s, answers, q, name, top, top);
    } else if block < s.latest {
      var q :| q in answers && Accepted(answers[q]) && answers[q].block == top;
      es2 := RaisedBefore(cfg, s, answers, q, name, top, top);
    } else {
      es2 := SomeOrderNotHealthy(cfg, s, answers, name, top);
      if block != s.latest && OldEntryLags(cfg, s, name, block) {
        var q :| IsAnother(answers, name, q, block);
        es1 := RaisedBefore(cfg, s, answers, q, name, block, top);
      }
    }
  }

  lemma {:induction false} DeterminedEndsAsIfFirst(cfg: Config, s: State, answers: Answers, name: string, top: int64)
    requires RoundOf(s, answers) && Sane(cfg, s, answers) && LagInvariant(cfg, s) && name in answers
    requires IsGreatest(top, s.latest, AcceptedBlocks(answers)) && StatusIsDetermined(cfg, s, answers, name, top)
    ensures EndsAs(cfg, s, answers, name, StatusIfFirst(cfg, s, name, answers[name], top))
  {
    hide Run, StatusIsDetermined, StatusIfFirst;
    forall es: seq<Event> | IsRound(answers, es) && Known(s.health.Keys, es)
      ensures Run(cfg, s, es).health[name].status == StatusIfFirst(cfg, s, name, answers[name], top)
    {
      assert name in Names(es);
      var i :| 0 <= i < |es| && es[i].name == name;
      EndsAsIfFirst(cfg, s, answers, es, i, top);
    }
  }

  /** The exact condition for a provider's final status not to depend on the order of the answers. */
  lemma {:induction false} SameStatusExactlyWhen(cfg: Config, s: State, answers: Answers, name: string, top: int64)
    requires RoundOf(s, answers) && Sane(cfg, s, answers) && LagInvariant(cfg, s) && name in answers
    requires IsGreatest(top, s.latest, AcceptedBlocks(answers))
    ensures SameStatusInEveryOrder(cfg, s, answers, name) <==> StatusIsDetermined(cfg, s, answers, name, top)
  {
    hide Run, StatusIsDetermined, StatusIfFirst;
    if StatusIsDetermined(cfg, s, answers, name, top) {
      DeterminedEndsAsIfFirst(cfg, s, answers, name, top);
    } else {
      var es1, es2 := TwoOrdersDiffer(cfg, s, answers, name, top);
    }
  }

  /** And the status it then is. */
  lemma {:induction false} SameStatusIsTheFirst(cfg: Config, s: State, answers: Answers, name: string, top: int64)
    requires RoundOf(s, answers) && Sane(cfg, s, answers) && LagInvariant(cfg, s) && name in answers
    requires IsGreatest(top, s.latest, AcceptedBlocks(answers)) && SameStatusInEveryOrder(cfg, s, answers, name)
    ensures EndsAs(cfg, s, answers, name, StatusIfFirst(cfg, s, name, answers[name], top))
  {
    hide StatusIsDetermined, SameStatusInEveryOrder, EndsAs;
    SameStatusExactlyWhen(cfg, s, answers, name, top);
    DeterminedEndsAsIfFirst(cfg, s, answers, name, top);
  }
}
