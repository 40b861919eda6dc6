/** A round at the grain of single reads and writes: the goroutines of the accepted answers share the
    head and the recorded lists without holding a lock across their reads and writes
    (modules/network.go). Each is a small program; a schedule names who moves next, and any schedule
    is possible. */
module FineGrained {
  import opened LatestBlock
  import opened HealthCheckSpec
  import opened Invariants
  import opened Rounds

  /** Where a goroutine is. The head is compared with zero, then with the block, then written; later
      the list is read under one lock and stored under another. */
  datatype Place =
    | AtFirstRead
    | AtSecondRead
    | AtHeadWrite
    | AtListRead
    | AtListWrite(list: seq<int64>)
    | Finished

  datatype Memory = Memory(latest: int64, checked: map<string, seq<int64>>, places: map<string, Place>)

  predicate Covers(answers: Answers, m: Memory) {
    m.places.Keys == answers.Keys
  }

  function Spawn(latest: int64, checked: map<string, seq<int64>>, answers: Answers): (m: Memory)
    ensures Covers(answers, m)
  {
    Memory(latest, checked, map k | k in answers :: AtFirstRead)
  }

  /** One move of one goroutine. One whose answer is not accepted finishes without touching the head or a list. */
  function Move(answers: Answers, m: Memory, name: string): (m': Memory)
    requires Covers(answers, m) && name in answers
    ensures Covers(answers, m')
  {
    var a := answers[name];
    match m.places[name]
    case AtFirstRead =>
      if !Accepted(a) then m.(places := m.places[name := Finished])
      else m.(places := m.places[name := if m.latest == 0 then AtHeadWrite else AtSecondRead])
    case AtSecondRead =>
      m.(places := m.places[name := if m.latest < a.block then AtHeadWrite else AtListRead])
    case AtHeadWrite =>
      m.(latest := a.block, places := m.places[name := AtListRead])
    case AtListRead =>
      m.(places := m.places[name := AtListWrite(ListOf(m.checked, name))])
    case AtListWrite(list) =>
      m.(checked := m.checked[name := Push(list, a.block)], places := m.places[name := Finished])
    case Finished => m
  }

  predicate Schedulable(answers: Answers, schedule: seq<string>) {
    forall i :: 0 <= i < |schedule| ==> schedule[i] in answers
  }

  function Interleave(answers: Answers, m: Memory, schedule: seq<string>): (m': Memory)
    requires Covers(answers, m) && Schedulable(answers, schedule)
    ensures Covers(answers, m')
    decreases |schedule|
  {
    if schedule == [] then m
    else Move(answers, Interleave(answers, m, schedule[..|schedule| - 1]), schedule[|schedule| - 1])
  }

  /** The barrier at the end of the round is passed. */
  predicate AllFinished(m: Memory) {
    forall k <- m.places :: m.places[k] == Finished
  }

  lemma InterleaveSnoc(answers: Answers, m: Memory, schedule: seq<string>, name: string)
    requires Covers(answers, m) && Schedulable(answers, schedule) && name in answers
    ensures Schedulable(answers, schedule + [name])
    ensures Interleave(answers, m, schedule + [name]) == Move(answers, Interleave(answers, m, schedule), name)
  {
    assert (schedule + [name])[..|schedule + [name]| - 1] == schedule;
  }

  lemma {:induction false} InterleaveConcat(answers: Answers, m: Memory, a: seq<string>, b: seq<string>)
    requires Covers(answers, m) && Schedulable(answers, a) && Schedulable(answers, b)
    ensures Schedulable(answers, a + b)
    ensures Interleave(answers, m, a + b) == Interleave(answers, Interleave(answers, m, a), b)
    decreases |b|
  {
    if b == [] {
      assert a + b == a;
    } else {
      var front := b[..|b| - 1];
      InterleaveConcat(answers, m, a, front);
      assert (a + b)[..|a + b| - 1] == a + front;
    }
  }

  // ----- Finishing

  function StepsLeft(place: Place): nat {
    match place
    case AtFirstRead => 5
    case AtSecondRead => 4
    case AtHeadWrite => 3
    case AtListRead => 2
    case AtListWrite(_) => 1
    case Finished => 0
  }

  /** One goroutine can be scheduled to its end while the others stay where they are. */
  lemma {:induction false} FinishOne(answers: Answers, m: Memory, k: string) returns (schedule: seq<string>)
    requires Covers(answers, m) && k in answers
    ensures Schedulable(answers, schedule)
    ensures Interleave(answers, m, schedule).places == m.places[k := Finished]
    ensures m.places[k] == AtHeadWrite ==> Interleave(answers, m, schedule).latest == answers[k].block
    ensures StepsLeft(m.places[k]) <= 2 ==> Interleave(answers, m, schedule).latest == m.latest
    decreases StepsLeft(m.places[k])
  {
    schedule := [];
    if m.places[k] != Finished {
      var next := Move(answers, m, k);
      var rest := FinishOne(answers, next, k);
      InterleaveSnoc(answers, m, [], k);
      assert [] + [k] == [k];
      InterleaveConcat(answers, m, [k], rest);
      schedule := [k] + rest;
    }
  }

  /** So can any set of goroutines. */
  lemma {:induction false} FinishSet(answers: Answers, m: Memory, ks: set<string>) returns (schedule: seq<string>)
    requires Covers(answers, m) && ks <= answers.Keys
    ensures Schedulable(answers, schedule)
    ensures forall k <- answers ::
              Interleave(answers, m, schedule).places[k] == if k in ks then Finished else m.places[k]
    decreases |ks|
  {
    schedule := [];
    if ks != {} {
      var k :| k in ks;
      var one := FinishOne(answers, m, k);
      var rest := FinishSet(answers, Interleave(answers, m, one), ks - {k});
      InterleaveConcat(answers, m, one, rest);
      schedule := one + rest;
    }
  }

  /** A goroutine that is about to write the head can be the last of the round to do so. */
  lemma LastWriter(answers: Answers, m: Memory, prefix: seq<string>, k: string) returns (schedule: seq<string>)
    requires Covers(answers, m) && Schedulable(answers, prefix) && k in answers
    requires Interleave(answers, m, prefix).places[k] == AtHeadWrite
    ensures Schedulable(answers, schedule) && AllFinished(Interleave(answers, m, schedule))
    ensures Interleave(answers, m, schedule).latest == answers[k].block
  {
    hide Interleave;
    var m1 := Interleave(answers, m, prefix);
    var others := FinishSet(answers, m1, answers.Keys - {k});
    var m2 := Interleave(answers, m1, others);
    var own := FinishOne(answers, m2, k);
    InterleaveConcat(answers, m, prefix, others);
    InterleaveConcat(answers, m, prefix + others, own);
    schedule := prefix + others + own;
  }

  // ----- The head

  /** No accepted block can be written over a zero head and fall below the head the round started with. */
  predicate HeadIsSafe(start: int64, answers: Answers) {
    forall k <- answers :: Accepted(answers[k]) && answers[k].block < start ==>
      start > 0 || (start != 0 && 0 !in AcceptedBlocks(answers))
  }

  predicate HeadInvariant(start: int64, answers: Answers, m: Memory)
    requires Covers(answers, m)
  {
    && m.latest >= start
    && m.latest in {start} + AcceptedBlocks(answers)
    && forall k <- answers ::
         (m.places[k] == AtHeadWrite ==> Accepted(answers[k]) && answers[k].block >= start)
         && (m.places[k] == AtSecondRead ==> Accepted(answers[k]))
  }

  lemma MoveKeepsHeadInvariant(start: int64, answers: Answers, m: Memory, name: string)
    requires Covers(answers, m) && name in answers && HeadIsSafe(start, answers) && HeadInvariant(start, answers, m)
    ensures HeadInvariant(start, answers, Move(answers, m, name))
  {
    assert Accepted(answers[name]) ==> answers[name].block in AcceptedBlocks(answers);
  }

  lemma {:induction false} HeadInvariantHolds(latest: int64, checked: map<string, seq<int64>>,
                                              answers: Answers, schedule: seq<string>)
    requires Schedulable(answers, schedule) && HeadIsSafe(latest, answers)
    ensures HeadInvariant(latest, answers, Interleave(answers, Spawn(latest, checked, answers), schedule))
    decreases |schedule|
  {
    if schedule != [] {
      var front := schedule[..|schedule| - 1];
      HeadInvariantHolds(latest, checked, answers, front);
      var m := Interleave(answers, Spawn(latest, checked, answers), front);
      MoveKeepsHeadInvariant(latest, answers, m, schedule[|schedule| - 1]);
    }
  }

  predicate WritesAccepted(answers: Answers, m: Memory)
    requires Covers(answers, m)
  {
    forall k <- answers :: m.places[k] == AtHeadWrite || m.places[k] == AtSecondRead ==> Accepted(answers[k])
  }

  /** At every point of every interleaving, for any answers at all, the head is the value the round
      started with or an accepted block. */
  lemma {:induction false} HeadIsStartOrAnswer(latest: int64, checked: map<string, seq<int64>>,
                                               answers: Answers, schedule: seq<string>)
    requires Schedulable(answers, schedule)
    ensures Interleave(answers, Spawn(latest, checked, answers), schedule).latest in {latest} + AcceptedBlocks(answers)
    ensures WritesAccepted(answers, Interleave(answers, Spawn(latest, checked, answers), schedule))
    decreases |schedule|
  {
    if schedule != [] {
      var front, name := schedule[..|schedule| - 1], schedule[|schedule| - 1];
      HeadIsStartOrAnswer(latest, checked, answers, front);
      assert Accepted(answers[name]) ==> answers[name].block in AcceptedBlocks(answers);
    }
  }

  ghost predicate NeverBelowStart(latest: int64, checked: map<string, seq<int64>>, answers: Answers) {
    forall schedule | Schedulable(answers, schedule) ::
      Interleave(answers, Spawn(latest, checked, answers), schedule).latest >= latest
  }

  ghost predicate NotBelowStartAtTheEnd(latest: int64, checked: map<string, seq<int64>>, answers: Answers) {
    forall schedule | Completes(latest, checked, answers, schedule) ::
      Interleave(answers, Spawn(latest, checked, answers), schedule).latest >= latest
  }

  /** The schedule takes the whole round to its barrier. */
  predicate Completes(latest: int64, checked: map<string, seq<int64>>, answers: Answers, schedule: seq<string>) {
    Schedulable(answers, schedule) && AllFinished(Interleave(answers, Spawn(latest, checked, answers), schedule))
  }

  /** However the reads and the write interleave, the head stays at or above the value it had at the
      start of the round, exactly unless a smaller accepted block can meet a zero head; and that is
      also exactly when it is there at the end of the round. */
  lemma HeadNeverBelowStart(latest: int64, checked: map<string, seq<int64>>, answers: Answers)
    ensures NeverBelowStart(latest, checked, answers) <==> HeadIsSafe(latest, answers)
    ensures NotBelowStartAtTheEnd(latest, checked, answers) <==> HeadIsSafe(latest, answers)
  {
    if HeadIsSafe(latest, answers) {
      forall schedule | Schedulable(answers, schedule)
        ensures Interleave(answers, Spawn(latest, checked, answers), schedule).latest >= latest
      {
        HeadInvariantHolds(latest, checked, answers, schedule);
      }
    } else {
      var schedule := EndBelowStart(latest, checked, answers);
      assert Interleave(answers, Spawn(latest, checked, answers), schedule).latest < latest;
    }
  }

  lemma EndBelowStart(latest: int64, checked: map<string, seq<int64>>, answers: Answers) returns (schedule: seq<string>)
    requires !HeadIsSafe(latest, answers)
    ensures Completes(latest, checked, answers, schedule)
    ensures Interleave(answers, Spawn(latest, checked, answers), schedule).latest < latest
  {
    var k :| k in answers && Accepted(answers[k]) && answers[k].block < latest
             && !(latest > 0 || (latest != 0 && 0 !in AcceptedBlocks(answers)));
    var m := Spawn(latest, checked, answers);
    var prefix := [];
    if latest != 0 {
      var z :| z in answers && Accepted(answers[z]) && answers[z].block == 0;
      RaiseToZero(answers, m, z);
      prefix := [z, z, z];
    }
    InterleaveSnoc(answers, m, prefix, k);
    schedule := LastWriter(answers, m, prefix + [k], k);
  }

  lemma RaiseToZero(answers: Answers, m: Memory, z: string)
    requires Covers(answers, m) && z in answers && Accepted(answers[z]) && answers[z].block == 0
    requires m.places[z] == AtFirstRead && m.latest < 0
    ensures Schedulable(answers, [z, z, z])
    ensures Interleave(answers, m, [z, z, z]) == m.(latest := 0, places := m.places[z := AtListRead])
  {
    InterleaveSnoc(answers, m, [], z);
    InterleaveSnoc(answers, m, [z], z);
    InterleaveSnoc(answers, m, [z, z], z);
    assert [] + [z] == [z] && [z] + [z] == [z, z] && [z, z] + [z] == [z, z, z];
  }

  // ----- The highest answer

  /** The block passes the comparison with the head the round started with. */
  predicate Contends(start: int64, answers: Answers, k: string) {
    k in answers && Accepted(answers[k]) && (start == 0 || start < answers[k].block)
  }

  ghost predicate ContendersAgree(start: int64, answers: Answers) {
    forall j, k :: Contends(start, answers, j) && Contends(start, answers, k) ==> answers[j].block == answers[k].block
  }

  /** When the contenders agree: whoever is about to write holds `top`, and once one of them has
      written the head is `top`. */
  ghost predicate AgreedInvariant(start: int64, answers: Answers, m: Memory, top: int64)
    requires Covers(answers, m)
  {
    && m.latest in {start, top}
    && forall k <- answers :: AgreedPlace(start, answers[k], m.latest, m.places[k], top)
  }

  predicate AgreedPlace(start: int64, a: Answer, latest: int64, place: Place, top: int64) {
    && (place == AtHeadWrite ==> a.block == top)
    && (place != AtFirstRead && place != Finished ==> Accepted(a))
    && (StepsLeft(place) <= 2 && Accepted(a) && a.block == top ==> latest == top)
  }

  lemma MoveKeepsAgreed(start: int64, answers: Answers, m: Memory, name: string, top: int64)
    requires Covers(answers, m) && name in answers && AgreedInvariant(start, answers, m, top)
    requires 0 <= start <= top && ContendersAgree(start, answers)
    requires forall k <- answers :: Accepted(answers[k]) ==> 0 <= answers[k].block <= top
    requires top != start ==> exists k :: Contends(start, answers, k) && answers[k].block == top
    ensures AgreedInvariant(start, answers, Move(answers, m, name), top)
  {
    assert Contends(start, answers, name) ==> answers[name].block == top by {
      if Contends(start, answers, name) && top != start {
        var k :| Contends(start, answers, k) && answers[k].block == top;
      }
    }
    var m' := Move(answers, m, name);
    forall k <- answers ensures AgreedPlace(start, answers[k], m'.latest, m'.places[k], top) {
      assert AgreedPlace(start, answers[k], m.latest, m.places[k], top);
      assert AgreedPlace(start, answers[name], m.latest, m.places[name], top);
    }
  }

  lemma {:induction false} AgreedInvariantHolds(start: int64, checked: map<string, seq<int64>>, answers: Answers,
                                                schedule: seq<string>, top: int64)
    requires Schedulable(answers, schedule) && start >= 0 && NonNegative(AcceptedBlocks(answers))
    requires IsGreatest(top, start, AcceptedBlocks(answers)) && ContendersAgree(start, answers)
    ensures AgreedInvariant(start, answers, Interleave(answers, Spawn(start, checked, answers), schedule), top)
    decreases |schedule|
  {
    if schedule != [] {
      var front := schedule[..|schedule| - 1];
      AgreedInvariantHolds(start, checked, answers, front, top);
      assert forall k <- answers :: Accepted(answers[k]) ==> answers[k].block in AcceptedBlocks(answers);
      if top != start {
        var k :| k in answers && Accepted(answers[k]) && answers[k].block == top;
        assert Contends(start, answers, k);
      }
      var m := Interleave(answers, Spawn(start, checked, answers), front);
      MoveKeepsAgreed(start, answers, m, schedule[|schedule| - 1], top);
    }
  }

  /** A contender can pass the comparison before anybody writes, and then write last of all. */
  lemma LowerWriteCanWin(start: int64, checked: map<string, seq<int64>>, answers: Answers, low: string)
    returns (schedule: seq<string>)
    requires Contends(start, answers, low)
    ensures Completes(start, checked, answers, schedule)
    ensures Interleave(answers, Spawn(start, checked, answers), schedule).latest == answers[low].block
  {
    var m := Spawn(start, checked, answers);
    InterleaveSnoc(answers, m, [], low);
    InterleaveSnoc(answers, m, [low], low);
    assert [] + [low] == [low] && [low] + [low] == [low, low];
    schedule := LastWriter(answers, m, if start == 0 then [low] else [low, low], low);
  }

  ghost predicate EndsAtTop(start: int64, checked: map<string, seq<int64>>, answers: Answers, top: int64) {
    forall schedule | Completes(start, checked, answers, schedule) ::
      Interleave(answers, Spawn(start, checked, answers), schedule).latest == top
  }

  /** Every interleaving of a whole round ends at the highest answer exactly when all accepted blocks
      above the head, or all accepted blocks if the head is still 0, are the same. Otherwise the
      unsynchronised comparison and write can lose the highest one. */
  lemma HighestSurvivesExactlyWhen(start: int64, checked: map<string, seq<int64>>, answers: Answers, top: int64)
    requires start >= 0 && NonNegative(AcceptedBlocks(answers)) && IsGreatest(top, start, AcceptedBlocks(answers))
    ensures EndsAtTop(start, checked, answers, top) <==> ContendersAgree(start, answers)
  {
    if ContendersAgree(start, answers) {
      forall schedule | Completes(start, checked, answers, schedule)
        ensures Interleave(answers, Spawn(start, checked, answers), schedule).latest == top
      {
        AgreedInvariantHolds(start, checked, answers, schedule, top);
        AgreedAtTheEnd(start, answers, Interleave(answers, Spawn(start, checked, answers), schedule), top);
      }
    } else {
      var j, k :| Contends(start, answers, j) && Contends(start, answers, k) && answers[j].block != answers[k].block;
      var low := if answers[j].block < answers[k].block then j else k;
      assert answers[j].block in AcceptedBlocks(answers) && answers[k].block in AcceptedBlocks(answers);
      var schedule := LowerWriteCanWin(start, checked, answers, low);
      assert Interleave(answers, Spawn(start, checked, answers), schedule).latest < top;
    }
  }

  lemma AgreedAtTheEnd(start: int64, answers: Answers, m: Memory, top: int64)
    requires Covers(answers, m) && AllFinished(m) && AgreedInvariant(start, answers, m, top)
    requires IsGreatest(top, start, AcceptedBlocks(answers))
    ensures m.latest == top
  {
    if top != start {
      var k :| k in answers && Accepted(answers[k]) && answers[k].block == top;
      assert AgreedPlace(start, answers[k], m.latest, m.places[k], top);
    }
  }

  // ----- The recorded lists

  /** One provider's list and goroutine. A list has one writer, so what the goroutine read is still
      there when it writes. */
  predicate ListOfOne(checked: map<string, seq<int64>>, a: Answer, m: Memory, k: string)
    requires k in m.places
  {
    var place := m.places[k];
    && (place == AtFirstRead || place == Finished || Accepted(a))
    && (place.AtListWrite? ==> place.list == ListOf(checked, k))
    && if place == Finished && Accepted(a)
       then k in m.checked && m.checked[k] == Push(ListOf(checked, k), a.block)
       else ListOf(m.checked, k) == ListOf(checked, k) && (k in m.checked <==> k in checked)
  }

  lemma MoveKeepsListOfOne(checked: map<string, seq<int64>>, answers: Answers, m: Memory, name: string, k: string)
    requires Covers(answers, m) && name in answers && k in answers && ListOfOne(checked, answers[k], m, k)
    ensures ListOfOne(checked, answers[k], Move(answers, m, name), k)
  {}

  lemma {:induction false} ListOfOneHolds(latest: int64, checked: map<string, seq<int64>>, answers: Answers,
                                          schedule: seq<string>, k: string)
    requires Schedulable(answers, schedule) && k in answers
    ensures ListOfOne(checked, answers[k], Interleave(answers, Spawn(latest, checked, answers), schedule), k)
    decreases |schedule|
  {
    if schedule != [] {
      var front := schedule[..|schedule| - 1];
      ListOfOneHolds(latest, checked, answers, front, k);
      var m := Interleave(answers, Spawn(latest, checked, answers), front);
      MoveKeepsListOfOne(checked, answers, m, schedule[|schedule| - 1], k);
    }
  }

  lemma MoveKeepsOtherList(answers: Answers, m: Memory, name: string, k: string)
    requires Covers(answers, m) && name in answers && k !in answers
    ensures k in Move(answers, m, name).checked <==> k in m.checked
    ensures ListOf(Move(answers, m, name).checked, k) == ListOf(m.checked, k)
  {}

  /** The goroutines of a round write no other list. */
  lemma {:induction false} OtherListsStay(answers: Answers, m: Memory, schedule: seq<string>, k: string)
    requires Covers(answers, m) && Schedulable(answers, schedule) && k !in answers
    ensures k in Interleave(answers, m, schedule).checked <==> k in m.checked
    ensures ListOf(Interleave(answers, m, schedule).checked, k) == ListOf(m.checked, k)
    decreases |schedule|
  {
    hide Move;
    if schedule != [] {
      var front := schedule[..|schedule| - 1];
      OtherListsStay(answers, m, front, k);
      MoveKeepsOtherList(answers, Interleave(answers, m, front), schedule[|schedule| - 1], k);
    }
  }

  /** The list of one provider at the end of a round. */
  lemma ListAfterRound(latest: int64, checked: map<string, seq<int64>>, answers: Answers,
                       schedule: seq<string>, k: string)
    requires Schedulable(answers, schedule)
    requires AllFinished(Interleave(answers, Spawn(latest, checked, answers), schedule))
    ensures var m := Interleave(answers, Spawn(latest, checked, answers), schedule);
            var accepted := k in answers && Accepted(answers[k]);
            && (k in m.checked <==> k in checked || accepted)
            && ListOf(m.checked, k) == if accepted then Push(ListOf(checked, k), answers[k].block) else ListOf(checked, k)
  {
    hide Interleave;
    if k in answers { ListOfOneHolds(latest, checked, answers, schedule, k); }
    else { OtherListsStay(answers, Spawn(latest, checked, answers), schedule, k); }
  }

  /** No lost entries: when the round is over, every accepted answer is in its provider's list exactly
      as the atomic round would have put it, whatever the interleaving. */
  lemma ListsAreThoseOfTheRound(s: State, answers: Answers, schedule: seq<string>)
    requires RoundOf(s, answers) && Schedulable(answers, schedule)
    requires AllFinished(Interleave(answers, Spawn(s.latest, s.checked, answers), schedule))
    ensures Interleave(answers, Spawn(s.latest, s.checked, answers), schedule).checked == RoundHistories(s, answers)
  {
    hide Interleave, Spawn;
    var m, lists := Interleave(answers, Spawn(s.latest, s.checked, answers), schedule), RoundHistories(s, answers);
    forall k: string
      ensures k in m.checked <==> k in lists
      ensures k in lists ==> m.checked[k] == lists[k]
    {
      ListAfterRound(s.latest, s.checked, answers, schedule, k);
    }
  }

  /** The fine-grained round agrees on the lists with every atomic completion order. */
  lemma {:induction false} ListsAgreeWithAtomicRound(cfg: Config, s: State, answers: Answers,
                                                     schedule: seq<string>, es: seq<Event>)
    requires RoundOf(s, answers) && Schedulable(answers, schedule) && IsRound(answers, es) && Known(s.health.Keys, es)
    requires AllFinished(Interleave(answers, Spawn(s.latest, s.checked, answers), schedule))
    ensures Interleave(answers, Spawn(s.latest, s.checked, answers), schedule).checked == Run(cfg, s, es).checked
  {
    ListsAreThoseOfTheRound(s, answers, schedule);
    HistoriesOfRound(cfg, s, answers, es);
  }

  // ----- Many rounds, one after the other

  datatype Round = Round(answers: Answers, schedule: seq<string>)

  /** Head and lists at a barrier. */
  datatype Barrier = Barrier(latest: int64, checked: map<string, seq<int64>>)

  function After(b: Barrier, r: Round): Barrier
    requires Schedulable(r.answers, r.schedule)
  {
    var m := Interleave(r.answers, Spawn(b.latest, b.checked, r.answers), r.schedule);
    Barrier(m.latest, m.checked)
  }

  /** Each round is fair enough to finish: its schedule takes every goroutine to its end. */
  ghost predicate Complete(b: Barrier, rs: seq<Round>)
    decreases |rs|
  {
    rs != [] ==>
      var r := rs[0];
      && Schedulable(r.answers, r.schedule)
      && AllFinished(Interleave(r.answers, Spawn(b.latest, b.checked, r.answers), r.schedule))
      && Complete(After(b, r), rs[1..])
  }

  ghost function AfterAll(b: Barrier, rs: seq<Round>): Barrier
    requires Complete(b, rs)
    decreases |rs|
  {
    if rs == [] then b else AfterAll(After(b, rs[0]), rs[1..])
  }

  /** The accepted blocks of one provider over the rounds, newest first. */
  function ObservedIn(rs: seq<Round>, name: string): seq<int64> {
    if rs == [] then []
    else ObservedIn(rs[1..], name) + ObservedOnce(rs[0], name)
  }

  /** What a round adds to the observations of one provider. */
  function ObservedOnce(r: Round, name: string): seq<int64> {
    if name in r.answers && Accepted(r.answers[name]) then [r.answers[name].block] else []
  }

  lemma ListAfterOneRound(b: Barrier, r: Round, name: string)
    requires Schedulable(r.answers, r.schedule) && |ListOf(b.checked, name)| <= 10
    requires AllFinished(Interleave(r.answers, Spawn(b.latest, b.checked, r.answers), r.schedule))
    ensures ListOf(After(b, r).checked, name) == Window(ObservedOnce(r, name) + ListOf(b.checked, name))
  {
    hide Interleave;
    ListAfterRound(b.latest, b.checked, r.answers, r.schedule, name);
    assert [] + ListOf(b.checked, name) == ListOf(b.checked, name);
  }

  /** At every barrier a provider's list is the first ten of everything it ever reported. */
  lemma {:induction false} ListsOverManyRounds(b: Barrier, rs: seq<Round>, name: string)
    requires Complete(b, rs) && |ListOf(b.checked, name)| <= 10
    ensures ListOf(AfterAll(b, rs).checked, name) == Window(ObservedIn(rs, name) + ListOf(b.checked, name))
    decreases |rs|
  {
    hide Interleave, After, ObservedOnce;
    var list := ListOf(b.checked, name);
    if rs == [] {
      assert ObservedIn(rs, name) + list == list;
    } else {
      var later, once := ObservedIn(rs[1..], name), ObservedOnce(rs[0], name);
      ListAfterOneRound(b, rs[0], name);
      ListsOverManyRounds(After(b, rs[0]), rs[1..], name);
      assert ObservedIn(rs, name) + list == later + (once + list);
      WindowTwice(later, once + list);
    }
  }

  lemma WindowTwice(later: seq<int64>, list: seq<int64>)
    ensures Window(later + Window(list)) == Window(later + list)
  {}

  /** From one barrier to any later one the head does not fall, if no negative block is ever accepted. */
  lemma {:induction false} HeadOverManyRounds(b: Barrier, rs: seq<Round>)
    requires Complete(b, rs)
    requires b.latest >= 0 && forall r <- rs :: NonNegative(AcceptedBlocks(r.answers))
    ensures AfterAll(b, rs).latest >= b.latest
    decreases |rs|
  {
    if rs != [] {
      var r := rs[0];
      assert HeadIsSafe(b.latest, r.answers) by {
        forall k <- r.answers | Accepted(r.answers[k]) ensures r.answers[k].block >= 0 {
          assert r.answers[k].block in AcceptedBlocks(r.answers);
        }
      }
      HeadInvariantHolds(b.latest, b.checked, r.answers, r.schedule);
      HeadOverManyRounds(After(b, r), rs[1..]);
    }
  }

  // ----- When the head rises

  predicate ReportsAbove(answers: Answers, head: int64) {
    exists block <- AcceptedBlocks(answers) :: block > head
  }

  /** Over a positive head nothing but higher blocks is written, and once the goroutine of a higher
      block is past the head, the head has risen. */
  predicate RiseInvariant(start: int64, answers: Answers, m: Memory)
    requires Covers(answers, m)
  {
    && m.latest >= start
    && forall k <- answers :: RisePlace(start, answers[k], m.latest, m.places[k])
  }

  predicate RisePlace(start: int64, a: Answer, latest: int64, place: Place) {
    && (place == AtHeadWrite ==> a.block > start)
    && (StepsLeft(place) <= 2 && Accepted(a) && a.block > start ==> latest > start)
  }

  lemma MoveKeepsRise(start: int64, answers: Answers, m: Memory, name: string)
    requires Covers(answers, m) && name in answers && start > 0 && RiseInvariant(start, answers, m)
    ensures RiseInvariant(start, answers, Move(answers, m, name))
  {
    var m' := Move(answers, m, name);
    forall k <- answers ensures RisePlace(start, answers[k], m'.latest, m'.places[k]) {
      assert RisePlace(start, answers[k], m.latest, m.places[k]);
      assert RisePlace(start, answers[name], m.latest, m.places[name]);
    }
  }

  lemma {:induction false} RiseHolds(start: int64, checked: map<string, seq<int64>>, answers: Answers, schedule: seq<string>)
    requires Schedulable(answers, schedule) && start > 0
    ensures RiseInvariant(start, answers, Interleave(answers, Spawn(start, checked, answers), schedule))
    decreases |schedule|
  {
    hide RiseInvariant;
    if schedule == [] {
      RiseStarts(start, checked, answers);
    } else {
      var front := schedule[..|schedule| - 1];
      RiseHolds(start, checked, answers, front);
      var m := Interleave(answers, Spawn(start, checked, answers), front);
      MoveKeepsRise(start, answers, m, schedule[|schedule| - 1]);
    }
  }

  lemma RiseStarts(start: int64, checked: map<string, seq<int64>>, answers: Answers)
    ensures RiseInvariant(start, answers, Spawn(start, checked, answers))
  {}

  lemma RisesInOneRound(b: Barrier, r: Round)
    requires b.latest > 0 && Schedulable(r.answers, r.schedule)
    requires AllFinished(Interleave(r.answers, Spawn(b.latest, b.checked, r.answers), r.schedule))
    ensures After(b, r).latest >= b.latest
    ensures After(b, r).latest > b.latest <==> ReportsAbove(r.answers, b.latest)
  {
    hide Interleave;
    var m := Interleave(r.answers, Spawn(b.latest, b.checked, r.answers), r.schedule);
    RiseHolds(b.latest, b.checked, r.answers, r.schedule);
    HeadIsStartOrAnswer(b.latest, b.checked, r.answers, r.schedule);
    if ReportsAbove(r.answers, b.latest) {
      var k :| k in r.answers && Accepted(r.answers[k]) && r.answers[k].block > b.latest;
      assert RisePlace(b.latest, r.answers[k], m.latest, m.places[k]);
    }
  }

  /** From one barrier with a positive head to any later one, in every interleaving and for any answers,
      the head does not fall, and it rises exactly when some round accepted a block above it. */
  lemma {:induction false} HeadRisesExactlyWhen(b: Barrier, rs: seq<Round>)
    requires Complete(b, rs) && b.latest > 0
    ensures AfterAll(b, rs).latest >= b.latest
    ensures AfterAll(b, rs).latest > b.latest <==> exists r <- rs :: ReportsAbove(r.answers, b.latest)
    decreases |rs|
  {
    hide Interleave, After, ReportsAbove;
    if rs != [] {
      RisesInOneRound(b, rs[0]);
      HeadRisesExactlyWhen(After(b, rs[0]), rs[1..]);
      assert forall r <- rs :: r == rs[0] || r in rs[1..];
      assert forall r <- rs[1..] :: r in rs;
    }
  }
}
