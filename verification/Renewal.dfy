/** The renewal of session slots in logical time (Start and Renew in lib/auth/siwe/client.go): the
    token server answers at once, timers fire at or after their due time, and nothing stops the client. */
module Renewal {
  import opened Wrappers

  const SECOND := 1_000_000_000
  const RENEWAL_LEAD := 5 * SECOND
  const START_RETRY := 15 * SECOND
  const RENEWAL_RETRY := 60 * SECOND

  /** What GetToken returned: a token, which may expire, and whether there was an error beside it. */
  datatype Grant = Grant(expiration: Option<int>, failed: bool)

  /** A slot with the grant it holds, the time it got it, and whether that was in a renewal. */
  datatype Slot = Slot(grant: Grant, at: int, renewed: bool)

  datatype Timer = Timer(slot: nat, due: int)

  datatype Sessions = Sessions(now: int, slots: seq<Slot>, timers: seq<Timer>)

  /** A timer asked for at `now` with duration d starts 5 seconds early, or at once. */
  function DueAfter(now: int, d: int): int {
    now + if d - RENEWAL_LEAD > 0 then d - RENEWAL_LEAD else 0
  }

  /** The timer a grant asks for at `now`, if any; `retry` is the wait after an error. */
  function Request(i: nat, now: int, g: Grant, retry: int): seq<Timer> {
    if g.failed then [Timer(i, DueAfter(now, retry))]
    else match g.expiration
      case Some(e) => [Timer(i, DueAfter(now, e - now))]
      case None => []
  }

  /** During Start a failed grant is given the present as its expiry. */
  function Held(g: Grant, now: int): Grant {
    if g.failed then Grant(Some(now), true) else g
  }

  /** Start fills the next slot. */
  function StartSlot(s: Sessions, g: Grant): Sessions {
    s.(slots := s.slots + [Slot(Held(g, s.now), s.now, false)],
       timers := s.timers + Request(|s.slots|, s.now, g, START_RETRY))
  }

  function Without(timers: seq<Timer>, j: nat): seq<Timer>
    requires j < |timers|
  {
    timers[..j] + timers[j + 1..]
  }

  /** The j-th timer fires: its slot takes whatever was granted, and may ask for another timer. */
  function Fire(s: Sessions, j: nat, g: Grant): Sessions
    requires j < |s.timers| && s.timers[j].slot < |s.slots|
  {
    var i := s.timers[j].slot;
    s.(slots := s.slots[i := Slot(g, s.now, true)],
       timers := Without(s.timers, j) + Request(i, s.now, g, RENEWAL_RETRY))
  }

  /** A slot that holds a token for good: issued without an error and without an expiry. */
  predicate Settled(slot: Slot) {
    !slot.grant.failed && slot.grant.expiration.None?
  }

  /** The time at which a slot must be renewed: 10 seconds after a failed grant of Start, 55 seconds
      after a failed renewal, 5 seconds before the expiry of a token, or at once. */
  predicate DueRight(slot: Slot, due: int) {
    if slot.grant.failed then
      due == slot.at + if slot.renewed then 55 * SECOND else 10 * SECOND
    else
      && slot.grant.expiration.Some?
      && var e := slot.grant.expiration.value;
         due == if e - 5 * SECOND > slot.at then e - 5 * SECOND else slot.at
  }

  /** No slot has two timers. */
  predicate OneEach(timers: seq<Timer>) {
    forall j, k :: 0 <= j < k < |timers| ==> timers[j].slot != timers[k].slot
  }

  function TimedSlots(timers: seq<Timer>): set<nat> {
    set t <- timers :: t.slot
  }

  /** No slot has two timers, a slot has one exactly unless it holds a token for good, and every timer
      is due when its slot must be renewed. */
  predicate Invariant(s: Sessions) {
    && OneEach(s.timers)
    && (forall t <- s.timers :: t.slot < |s.slots| && DueRight(s.slots[t.slot], t.due))
    && (forall i :: 0 <= i < |s.slots| ==> (i in TimedSlots(s.timers) <==> !Settled(s.slots[i])))
  }

  datatype Event = Tick(elapsed: nat) | Starting(grant: Grant) | Firing(timer: nat, grant: Grant)

  predicate Enabled(s: Sessions, sessionCount: nat, e: Event) {
    match e
    case Tick(_) => true
    case Starting(_) => |s.slots| < sessionCount
    case Firing(j, _) => j < |s.timers| && s.timers[j].due <= s.now
  }

  function Next(s: Sessions, sessionCount: nat, e: Event): Sessions
    requires Invariant(s)
  {
    if !Enabled(s, sessionCount, e) then s else
    match e
    case Tick(elapsed) => s.(now := s.now + elapsed)
    case Starting(g) => StartSlot(s, g)
    case Firing(j, g) => assert s.timers[j] in s.timers; Fire(s, j, g)
  }

  lemma Added(timers: seq<Timer>, t: Timer)
    requires OneEach(timers) && t.slot !in TimedSlots(timers)
    ensures OneEach(timers + [t]) && TimedSlots(timers + [t]) == TimedSlots(timers) + {t.slot}
  {
    forall j | 0 <= j < |timers| ensures timers[j].slot != t.slot { assert timers[j].slot in TimedSlots(timers); }
    assert (timers + [t])[|timers|] == t;
    assert forall x <- timers :: x in timers + [t];
  }

  lemma Removed(timers: seq<Timer>, j: nat)
    requires OneEach(timers) && j < |timers|
    ensures OneEach(Without(timers, j))
    ensures forall t <- Without(timers, j) :: t in timers
    ensures TimedSlots(Without(timers, j)) == TimedSlots(timers) - {timers[j].slot}
  {
    var rest := Without(timers, j);
    assert forall k :: 0 <= k < |rest| ==> rest[k] == timers[if k < j then k else k + 1];
    forall t <- timers | t.slot != timers[j].slot ensures t in rest {
      var k :| 0 <= k < |timers| && timers[k] == t;
      assert rest[if k < j then k else k - 1] == t;
    }
  }

  /** What a grant asks for is what its slot needs. */
  lemma RequestFits(i: nat, now: int, g: Grant, held: Grant, renewed: bool)
    requires held.failed == g.failed && (!g.failed ==> held == g)
    ensures var r := Request(i, now, g, if renewed then RENEWAL_RETRY else START_RETRY);
            if Settled(Slot(held, now, renewed)) then r == []
            else |r| == 1 && r[0].slot == i && DueRight(Slot(held, now, renewed), r[0].due)
  {}

  lemma StartSlotKeepsInvariant(s: Sessions, g: Grant)
    requires Invariant(s)
    ensures Invariant(StartSlot(s, g))
  {
    hide Request;
    var i, r := |s.slots|, Request(|s.slots|, s.now, g, START_RETRY);
    var t := StartSlot(s, g);
    RequestFits(i, s.now, g, t.slots[i].grant, false);
    assert i !in TimedSlots(s.timers);
    if r != [] {
      assert r == [r[0]];
      Added(s.timers, r[0]);
    } else {
      assert t.timers == s.timers;
    }
  }

  lemma FireKeepsInvariant(s: Sessions, j: nat, g: Grant)
    requires Invariant(s) && j < |s.timers| && s.timers[j].slot < |s.slots|
    ensures Invariant(Fire(s, j, g))
  {
    hide Request, Without;
    var i, rest := s.timers[j].slot, Without(s.timers, j);
    var r := Request(i, s.now, g, RENEWAL_RETRY);
    var t := Fire(s, j, g);
    RequestFits(i, s.now, g, g, true);
    Removed(s.timers, j);
    OthersKeepTheirTimers(s, rest, i, Slot(g, s.now, true));
    if r != [] {
      assert r == [r[0]];
      Added(rest, r[0]);
    } else {
      assert t.timers == rest;
    }
  }

  lemma OthersKeepTheirTimers(s: Sessions, rest: seq<Timer>, i: nat, slot: Slot)
    requires Invariant(s) && i < |s.slots| && forall t <- rest :: t in s.timers
    requires TimedSlots(rest) == TimedSlots(s.timers) - {i}
    ensures var slots := s.slots[i := slot];
            && (forall t <- rest :: t.slot != i && t.slot < |slots| && DueRight(slots[t.slot], t.due))
            && forall k :: 0 <= k < |slots| && k != i ==> (k in TimedSlots(rest) <==> !Settled(slots[k]))
  {
    assert forall t <- rest :: t.slot in TimedSlots(rest);
  }

  lemma NextKeepsInvariant(s: Sessions, sessionCount: nat, e: Event)
    requires Invariant(s)
    ensures Invariant(Next(s, sessionCount, e))
  {
    if Enabled(s, sessionCount, e) {
      match e
      case Tick(_) =>
      case Starting(g) => StartSlotKeepsInvariant(s, g);
      case Firing(j, g) => assert s.timers[j] in s.timers; FireKeepsInvariant(s, j, g);
    }
  }

  function Exec(now: int, sessionCount: nat, es: seq<Event>): (s: Sessions)
    ensures Invariant(s) && |s.slots| <= sessionCount
    decreases |es|
  {
    if es == [] then Sessions(now, [], [])
    else
      var before := Exec(now, sessionCount, es[..|es| - 1]);
      NextKeepsInvariant(before, sessionCount, es[|es| - 1]);
      Next(before, sessionCount, es[|es| - 1])
  }

  /** The timers of one slot. */
  function TimersOf(s: Sessions, i: nat): set<int> {
    set j | 0 <= j < |s.timers| && s.timers[j].slot == i
  }

  /** In every reachable state, also while Start is still filling slots, a slot that holds a token for
      good has no timer, and any other slot has exactly one, due when it should be. */
  lemma OneTimerPerSlot(now: int, sessionCount: nat, es: seq<Event>, i: nat)
    requires i < |Exec(now, sessionCount, es).slots|
    ensures Settled(Exec(now, sessionCount, es).slots[i]) ==> TimersOf(Exec(now, sessionCount, es), i) == {}
    ensures !Settled(Exec(now, sessionCount, es).slots[i]) ==>
              exists j :: TimersOf(Exec(now, sessionCount, es), i) == {j}
                          && DueRight(Exec(now, sessionCount, es).slots[i], Exec(now, sessionCount, es).timers[j].due)
  {
    TimersOfSlot(Exec(now, sessionCount, es), i);
  }

  lemma TimersOfSlot(s: Sessions, i: nat)
    requires Invariant(s) && i < |s.slots|
    ensures Settled(s.slots[i]) ==> TimersOf(s, i) == {}
    ensures !Settled(s.slots[i]) ==> exists j :: TimersOf(s, i) == {j} && DueRight(s.slots[i], s.timers[j].due)
  {
    if Settled(s.slots[i]) {
      forall j | 0 <= j < |s.timers| ensures s.timers[j].slot != i { assert s.timers[j].slot in TimedSlots(s.timers); }
    } else {
      var t :| t in s.timers && t.slot == i;
      var j :| 0 <= j < |s.timers| && s.timers[j] == t;
      assert TimersOf(s, i) == {j};
    }
  }

  // ----- What one event does, in any reachable state

  lemma ExecSnoc(now: int, sessionCount: nat, es: seq<Event>, e: Event)
    ensures Exec(now, sessionCount, es + [e]) == Next(Exec(now, sessionCount, es), sessionCount, e)
  {
    assert (es + [e])[..|es + [e]| - 1] == es;
  }

  /** A timer fires when it is due and not before. Its slot then holds exactly what was granted, got
      now and in a renewal; the other slots and the clock stay. */
  lemma FiringStoresTheGrant(now: int, sessionCount: nat, es: seq<Event>, j: nat, g: Grant)
    requires j < |Exec(now, sessionCount, es).timers|
    ensures var s, t := Exec(now, sessionCount, es), Exec(now, sessionCount, es + [Firing(j, g)]);
            && s.timers[j].slot < |s.slots|
            && if s.timers[j].due <= s.now
               then t.slots == s.slots[s.timers[j].slot := Slot(g, s.now, true)] && t.now == s.now
               else t == s
  {
    ExecSnoc(now, sessionCount, es, Firing(j, g));
    assert Exec(now, sessionCount, es).timers[j] in Exec(now, sessionCount, es).timers;
  }

  /** Start fills the next slot with what was granted, or, after an error, with a token that expires now. */
  lemma StartingStoresTheGrant(now: int, sessionCount: nat, es: seq<Event>, g: Grant)
    requires |Exec(now, sessionCount, es).slots| < sessionCount
    ensures var s, t := Exec(now, sessionCount, es), Exec(now, sessionCount, es + [Starting(g)]);
            && |t.slots| == |s.slots| + 1 && t.slots[..|s.slots|] == s.slots && t.now == s.now
            && t.slots[|s.slots|].grant.failed == g.failed
            && t.slots[|s.slots|].grant.expiration == (if g.failed then Some(s.now) else g.expiration)
            && t.slots[|s.slots|].at == s.now && !t.slots[|s.slots|].renewed
  {
    ExecSnoc(now, sessionCount, es, Starting(g));
  }

  lemma TimeMovesTheClock(now: int, sessionCount: nat, es: seq<Event>, elapsed: nat)
    ensures Exec(now, sessionCount, es + [Tick(elapsed)]) ==
            Exec(now, sessionCount, es).(now := Exec(now, sessionCount, es).now + elapsed)
  {
    ExecSnoc(now, sessionCount, es, Tick(elapsed));
  }

  // ----- Prompt timers

  /** Time never passes the due time of a timer that has not fired. */
  predicate Prompt(s: Sessions, e: Event) {
    e.Tick? ==> forall t <- s.timers :: s.now + e.elapsed <= t.due
  }

  predicate PromptRun(now: int, sessionCount: nat, es: seq<Event>) {
    forall i :: 0 <= i < |es| ==> Prompt(Exec(now, sessionCount, es[..i]), es[i])
  }

  predicate NothingOverdue(s: Sessions) {
    forall t <- s.timers :: s.now <= t.due
  }

  lemma NextKeepsPromptness(s: Sessions, sessionCount: nat, e: Event)
    requires Invariant(s) && NothingOverdue(s) && Prompt(s, e)
    ensures NothingOverdue(Next(s, sessionCount, e))
  {}

  lemma {:induction false} PromptRunIsNeverOverdue(now: int, sessionCount: nat, es: seq<Event>)
    requires PromptRun(now, sessionCount, es)
    ensures NothingOverdue(Exec(now, sessionCount, es))
    decreases |es|
  {
    hide Next;
    if es != [] {
      var n := |es| - 1;
      assert forall i :: 0 <= i < n ==> es[..n][..i] == es[..i];
      PromptRunIsNeverOverdue(now, sessionCount, es[..n]);
      NextKeepsPromptness(Exec(now, sessionCount, es[..n]), sessionCount, es[n]);
    }
  }

  /** An issued token with more than 5 seconds to live when it came still has them. */
  predicate ClearOfExpiry(now: int, slot: Slot) {
    && !slot.grant.failed && slot.grant.expiration.Some?
    && slot.grant.expiration.value - 5 * SECOND >= slot.at
    ==> now <= slot.grant.expiration.value - 5 * SECOND
  }

  /** With prompt timers a slot never holds an issued token in the last 5 seconds before its expiry,
      unless the token came with less than that to live. */
  lemma {:induction false} NeverNearExpiry(now: int, sessionCount: nat, es: seq<Event>)
    requires PromptRun(now, sessionCount, es)
    ensures forall slot <- Exec(now, sessionCount, es).slots :: ClearOfExpiry(Exec(now, sessionCount, es).now, slot)
  {
    var s := Exec(now, sessionCount, es);
    PromptRunIsNeverOverdue(now, sessionCount, es);
    forall i | 0 <= i < |s.slots| ensures ClearOfExpiry(s.now, s.slots[i]) {
      NotNearExpiry(s, i);
    }
  }

  lemma NotNearExpiry(s: Sessions, i: nat)
    requires Invariant(s) && NothingOverdue(s) && i < |s.slots|
    ensures ClearOfExpiry(s.now, s.slots[i])
  {
    if !Settled(s.slots[i]) {
      TimersOfSlot(s, i);
      var j :| TimersOf(s, i) == {j} && DueRight(s.slots[i], s.timers[j].due);
      assert j in TimersOf(s, i);
      assert s.timers[j] in s.timers;
    }
  }

  // ----- The client

  datatype StartOutcome = Started | Refused | LengthPanic

  /** The part of the client that Start and the timers write. */
  class Renewer {
    const sessionCount: int
    var now: int
    var slots: seq<Slot>
    var timers: seq<Timer>

    function View(): Sessions
      reads this
    {
      Sessions(now, slots, timers)
    }

    method Renew(i: nat, d: int)
      modifies this`timers
      ensures timers == old(timers) + [Timer(i, DueAfter(now, d))]
    {
      var wait := d - RENEWAL_LEAD;
      timers := timers + [Timer(i, now + if wait > 0 then wait else 0)];
    }

    /** One turn of Start's loop. */
    method StartNext(g: Grant)
      modifies this`slots, this`timers
      ensures View() == StartSlot(old(View()), g)
    {
      var i := |slots|;
      if g.failed {
        slots := slots + [Slot(g.(expiration := Some(now)), now, false)];
        Renew(i, START_RETRY);
        return;
      }
      slots := slots + [Slot(g, now, false)];
      if g.expiration.Some? {
        Renew(i, g.expiration.value - now);
      }
    }

    /** Start with no timer firing meanwhile. It refuses a session count of 0; for a negative one the
        allocation of the slots panics. */
    method Start(grants: nat -> Grant) returns (outcome: StartOutcome)
      requires slots == [] && timers == []
      modifies this`slots, this`timers
      ensures outcome == if sessionCount > 0 then Started else if sessionCount == 0 then Refused else LengthPanic
      ensures Invariant(View()) && |slots| == if outcome == Started then sessionCount else 0
      ensures forall i :: 0 <= i < |slots| ==>
                && slots[i].grant == Grant(if grants(i).failed then Some(now) else grants(i).expiration, grants(i).failed)
                && slots[i].at == now && !slots[i].renewed
    {
      if sessionCount == 0 { return Refused; }
      if sessionCount < 0 { return LengthPanic; }
      var i := 0;
      while i < sessionCount
        invariant 0 <= i == |slots| <= sessionCount
        invariant Invariant(View())
        invariant forall k :: 0 <= k < i ==> slots[k] == Slot(Held(grants(k), now), now, false)
      {
        ghost var before := View();
        StartNext(grants(i));
        StartSlotKeepsInvariant(before, grants(i));
        i := i + 1;
      }
      outcome := Started;
    }

    /** The body of a renewal goroutine, once its timer fires. */
    method TimerFires(j: nat, g: Grant)
      requires j < |timers| && timers[j].slot < |slots|
      modifies this`slots, this`timers
      ensures View() == Fire(old(View()), j, g)
    {
      var i := timers[j].slot;
      timers := timers[..j] + timers[j + 1..];
      slots := slots[i := Slot(g, now, true)];
      if g.failed {
        Renew(i, RENEWAL_RETRY);
        return;
      }
      if g.expiration.Some? {
        Renew(i, g.expiration.value - now);
      }
    }
  }
}
