/** Concurrent signing: any number of Sign calls spend tokens while their slots are renewed, in any
    interleaving (lib/auth/siwe/client.go, lib/auth/interface.go). Every call works on a copy of the
    token it selected; the copies share one atomic counter. */
module TokenRuns {
  import opened Wrappers
  import opened AuthTokens

  type CounterId = nat
  type CallId = nat

  datatype Token = Token(counter: Option<CounterId>, expiration: Option<int>)

  /** Where a Sign call is: about to select, to decrement, to look at the clock, or done. */
  datatype Place = Selecting | Decrementing(token: Token) | Checking(token: Token) | Applied(token: Token) | GaveUp

  datatype SignCall = SignCall(slot: nat, used: nat, place: Place)

  /** A counter and its history: its first value, the uses made of it, those that passed the limit
      check, and those of them that found the token expired. */
  datatype Ledger = Ledger(left: int, budget: int, uses: nat, passes: nat, lapsed: nat)

  datatype System = System(
    now: int,
    slots: seq<Token>,
    counters: map<CounterId, Ledger>,
    signs: map<CallId, SignCall>)

  datatype Event =
    | Tick(elapsed: nat)
    | Renew(slot: nat, id: CounterId, budget: Option<int>, expiration: Option<int>)
    | Arrive(call: CallId, slot: nat)
    | Advance(call: CallId)

  predicate Enabled(s: System, e: Event) {
    match e
    case Tick(_) => true
    case Renew(slot, id, _, _) => slot < |s.slots| && id !in s.counters
    case Arrive(call, slot) => call !in s.signs && slot < |s.slots|
    case Advance(call) => call in s.signs
  }

  /** The place carries a copy of a token. */
  function CopyOf(place: Place): Option<Token> {
    match place
    case Decrementing(t) => Some(t)
    case Checking(t) => Some(t)
    case Applied(t) => Some(t)
    case _ => None
  }

  predicate TokenKnown(counters: map<CounterId, Ledger>, t: Token) {
    t.counter.Some? ==> t.counter.value in counters
  }

  predicate SignKnown(s: System, c: SignCall) {
    c.slot < |s.slots| && (CopyOf(c.place).Some? ==> TokenKnown(s.counters, CopyOf(c.place).value))
  }

  predicate Consistent(s: System) {
    && (forall i :: 0 <= i < |s.slots| ==> TokenKnown(s.counters, s.slots[i]))
    && (forall c <- s.signs :: SignKnown(s, s.signs[c]))
  }

  function Fresh(budget: int): Ledger {
    Ledger(budget, budget, 0, 0, 0)
  }

  /** The atomic decrement. */
  function UseOnce(l: Ledger): Ledger {
    var left := l.left - 1;
    Ledger(left, l.budget, l.uses + 1, if left < 0 then l.passes else l.passes + 1, l.lapsed)
  }

  /** After a failed use: give up after the last try, select again otherwise. */
  function Retry(c: SignCall): SignCall {
    c.(place := if c.used == MAX_TRIES then GaveUp else Selecting)
  }

  function MoveCall(s: System, c: SignCall): SignCall
    requires Consistent(s) && SignKnown(s, c)
  {
    match c.place
    case Selecting => c.(place := Decrementing(s.slots[c.slot]))
    case Decrementing(token) =>
      var c' := c.(used := c.used + 1);
      if token.counter.Some? && s.counters[token.counter.value].left - 1 < 0 then Retry(c')
      else c'.(place := Checking(token))
    case Checking(token) => if Lapsed(s, token) then Retry(c) else c.(place := Applied(token))
    case _ => c
  }

  predicate Lapsed(s: System, token: Token) {
    token.expiration.Some? && s.now > token.expiration.value
  }

  function MoveCounters(s: System, c: SignCall): map<CounterId, Ledger>
    requires Consistent(s) && SignKnown(s, c)
  {
    match c.place
    case Decrementing(Token(Some(id), _)) => s.counters[id := UseOnce(s.counters[id])]
    case Checking(Token(Some(id), e)) =>
      if Lapsed(s, c.place.token) then s.counters[id := s.counters[id].(lapsed := s.counters[id].lapsed + 1)] else s.counters
    case _ => s.counters
  }

  function Install(s: System, slot: nat, id: CounterId, budget: Option<int>, expiration: Option<int>): System
    requires slot < |s.slots|
  {
    match budget
    case None => s.(slots := s.slots[slot := Token(None, expiration)])
    case Some(u) =>
      s.(slots := s.slots[slot := Token(Some(id), expiration)], counters := s.counters[id := Fresh(u)])
  }

  /** An event that is not enabled changes nothing. */
  function Next(s: System, e: Event): System
    requires Consistent(s)
  {
    if !Enabled(s, e) then s else
    match e
    case Tick(elapsed) => s.(now := s.now + elapsed)
    case Renew(slot, id, u, expiration) => Install(s, slot, id, u, expiration)
    case Arrive(call, slot) => s.(signs := s.signs[call := SignCall(slot, 0, Selecting)])
    case Advance(call) =>
      var c := s.signs[call];
      s.(counters := MoveCounters(s, c), signs := s.signs[call := MoveCall(s, c)])
  }

  lemma NextIsConsistent(s: System, e: Event)
    requires Consistent(s)
    ensures Consistent(Next(s, e))
    ensures s.counters.Keys <= Next(s, e).counters.Keys
  {}

  // ----- The budget

  /** The call's use of this counter passed and has not been undone by the clock. */
  predicate Holds(c: SignCall, id: CounterId) {
    (c.place.Checking? || c.place.Applied?) && c.place.token.counter == Some(id)
  }

  function Holders(signs: map<CallId, SignCall>, id: CounterId): set<CallId> {
    set c <- signs | Holds(signs[c], id)
  }

  /** The calls that have put a token of this counter on their request. */
  function AppliedCalls(signs: map<CallId, SignCall>, id: CounterId): set<CallId> {
    set c <- signs | signs[c].place.Applied? && signs[c].place.token.counter == Some(id)
  }

  predicate LedgerHolds(l: Ledger) {
    l.left == l.budget - l.uses && l.passes == Min(l.uses, Max(l.budget, 0))
  }

  predicate CallHolds(c: SignCall) {
    && c.used <= MAX_TRIES
    && (c.place.Selecting? || c.place.Decrementing? ==> c.used < MAX_TRIES)
    && (c.place.GaveUp? ==> c.used == MAX_TRIES)
  }

  predicate CounterHolds(s: System, id: CounterId)
    requires id in s.counters
  {
    LedgerHolds(s.counters[id]) && |Holders(s.signs, id)| + s.counters[id].lapsed == s.counters[id].passes
  }

  predicate Invariant(s: System) {
    && Consistent(s)
    && (forall id <- s.counters :: CounterHolds(s, id))
    && (forall c <- s.signs :: CallHolds(s.signs[c]))
  }

  lemma HoldersAfter(signs: map<CallId, SignCall>, call: CallId, c: SignCall, id: CounterId)
    ensures var before, after := Holders(signs, id), Holders(signs[call := c], id);
            && (call in before && !Holds(c, id) ==> |after| == |before| - 1)
            && (call !in before && Holds(c, id) ==> |after| == |before| + 1)
            && ((call in before <==> Holds(c, id)) ==> |after| == |before|)
  {
    var before, after := Holders(signs, id), Holders(signs[call := c], id);
    if Holds(c, id) { assert after == before + {call}; } else { assert after == before - {call}; }
  }

  /** A move gains a hold on a counter exactly with a use that passed, and loses one exactly with a lapse. */
  lemma MoveBalances(s: System, c: SignCall, id: CounterId)
    requires Consistent(s) && SignKnown(s, c) && id in s.counters
    ensures id in MoveCounters(s, c)
    ensures LedgerHolds(s.counters[id]) ==> LedgerHolds(MoveCounters(s, c)[id])
    ensures var l, l' := s.counters[id], MoveCounters(s, c)[id];
            (l'.passes - l'.lapsed) - (l.passes - l.lapsed) ==
            (if Holds(MoveCall(s, c), id) then 1 else 0) - (if Holds(c, id) then 1 else 0)
  {}

  lemma AdvanceKeepsCounter(s: System, call: CallId, id: CounterId)
    requires Invariant(s) && call in s.signs && id in s.counters
    ensures id in Next(s, Advance(call)).counters && CounterHolds(Next(s, Advance(call)), id)
  {
    hide MoveCall, MoveCounters;
    var c := s.signs[call];
    MoveBalances(s, c, id);
    HoldersAfter(s.signs, call, MoveCall(s, c), id);
  }

  lemma NextKeepsCounter(s: System, e: Event, id: CounterId)
    requires Invariant(s) && id in Next(s, e).counters
    ensures CounterHolds(Next(s, e), id)
  {
    if e.Advance? {
      NextIsConsistent(s, e);
      if Enabled(s, e) { AdvanceKeepsCounter(s, e.call, id); }
    } else if id !in s.counters {
      assert Holders(s.signs, id) == {};
    } else if e.Arrive? {
      HoldersAfter(s.signs, e.call, SignCall(e.slot, 0, Selecting), id);
    }
  }

  lemma NextKeepsCall(s: System, e: Event, c: CallId)
    requires Invariant(s) && c in Next(s, e).signs
    ensures CallHolds(Next(s, e).signs[c])
  {}

  lemma NextKeepsInvariant(s: System, e: Event)
    requires Invariant(s)
    ensures Invariant(Next(s, e))
  {
    hide Next;
    NextIsConsistent(s, e);
    forall id <- Next(s, e).counters ensures CounterHolds(Next(s, e), id) { NextKeepsCounter(s, e, id); }
    forall c <- Next(s, e).signs ensures CallHolds(Next(s, e).signs[c]) { NextKeepsCall(s, e, c); }
  }

  /** The client after Start: each slot holds a token, finite ones with a counter, and nothing has
      been signed. */
  predicate Started(s: System) {
    s.signs == map[] && Consistent(s) && forall id <- s.counters :: s.counters[id] == Fresh(s.counters[id].budget)
  }

  lemma StartedIsInvariant(s: System)
    requires Started(s)
    ensures Invariant(s)
  {
    forall id <- s.counters ensures CounterHolds(s, id) { assert Holders(s.signs, id) == {}; }
  }

  function Exec(s: System, es: seq<Event>): (t: System)
    requires Started(s)
    ensures Invariant(t) && Consistent(t)
    decreases |es|
  {
    if es == [] then StartedIsInvariant(s); s
    else
      var before := Exec(s, es[..|es| - 1]);
      NextKeepsInvariant(before, es[|es| - 1]);
      Next(before, es[|es| - 1])
  }

  /** The calls that have passed the limit check and not yet looked at the clock. */
  function CheckingCalls(signs: map<CallId, SignCall>, id: CounterId): set<CallId> {
    set c <- signs | signs[c].place.Checking? && signs[c].place.token.counter == Some(id)
  }

  /** However the calls and renewals interleave: at most `budget` calls put a token of one counter on
      their request, exactly min(uses, budget) uses of it passed the limit check, each of them applied,
      lapsed or about to look at the clock. */
  lemma BudgetHolds(s: System, es: seq<Event>, id: CounterId)
    requires Started(s) && id in Exec(s, es).counters
    ensures |AppliedCalls(Exec(s, es).signs, id)| <= Max(Exec(s, es).counters[id].budget, 0)
    ensures Exec(s, es).counters[id].passes == Min(Exec(s, es).counters[id].uses, Max(Exec(s, es).counters[id].budget, 0))
    ensures Exec(s, es).counters[id].passes ==
            |AppliedCalls(Exec(s, es).signs, id)| + |CheckingCalls(Exec(s, es).signs, id)| + Exec(s, es).counters[id].lapsed
  {
    var t := Exec(s, es);
    assert CounterHolds(t, id);
    assert Holders(t.signs, id) == AppliedCalls(t.signs, id) + CheckingCalls(t.signs, id);
  }

  /** With or without counters and renewals: no call makes more than eleven uses, and one that gives up
      has made them all. */
  lemma UsesAreBounded(s: System, es: seq<Event>, call: CallId)
    requires Started(s) && call in Exec(s, es).signs
    ensures Exec(s, es).signs[call].used <= 11
    ensures Exec(s, es).signs[call].place.GaveUp? ==> Exec(s, es).signs[call].used == 11
  {
    assert CallHolds(Exec(s, es).signs[call]);
  }

  /** The budget a counter starts with is its budget for good. */
  lemma BudgetIsFixed(s: System, e: Event, id: CounterId)
    requires Consistent(s) && id in s.counters
    ensures id in Next(s, e).counters && Next(s, e).counters[id].budget == s.counters[id].budget
  {}

  // ----- What one move does, in any reachable state

  /** A call that is about to look at the clock signs exactly when its token has not expired. */
  lemma SignsExactlyWhenUnexpired(s: System, es: seq<Event>, call: CallId)
    requires Started(s) && call in Exec(s, es).signs && Exec(s, es).signs[call].place.Checking?
    ensures Exec(s, es + [Advance(call)]).signs.Keys == Exec(s, es).signs.Keys
    ensures var token := Exec(s, es).signs[call].place.token;
            Exec(s, es + [Advance(call)]).signs[call].place.Applied? <==>
            token.expiration.None? || Exec(s, es).now <= token.expiration.value
    ensures Exec(s, es + [Advance(call)]).signs[call].place.Applied? ==>
              Exec(s, es + [Advance(call)]).signs[call].place.token == Exec(s, es).signs[call].place.token
  {
    ExecSnoc(s, es, Advance(call));
  }

  /** A call takes the token its slot holds, and its use passes exactly when the counter had uses left;
      the use is taken off that counter, and off no other. */
  lemma UsesItsToken(s: System, es: seq<Event>, call: CallId)
    requires Started(s) && call in Exec(s, es).signs
    ensures call in Exec(s, es + [Advance(call)]).signs
    ensures var t, t' := Exec(s, es), Exec(s, es + [Advance(call)]);
            var c, c' := t.signs[call], t'.signs[call];
            && (c.place.Selecting? ==>
                  c' == SignCall(c.slot, c.used, Decrementing(t.slots[c.slot])) && t'.counters == t.counters)
            && (c.place.Decrementing? ==> c'.used == c.used + 1 && UsesOne(t, t', c.place.token))
            && (c.place.Decrementing? ==>
                  (c'.place == Checking(c.place.token) <==>
                   c.place.token.counter.None? || t.counters[c.place.token.counter.value].left >= 1))
  {
    ExecSnoc(s, es, Advance(call));
    assert SignKnown(Exec(s, es), Exec(s, es).signs[call]);
  }

  predicate UsesOne(s: System, t: System, token: Token) {
    && s.counters.Keys == t.counters.Keys
    && forall id <- s.counters :: t.counters[id].left == s.counters[id].left - if token.counter == Some(id) then 1 else 0
  }

  /** A renewal puts what was granted into its slot, with a counter of its own if the uses are finite,
      and leaves the other slots, all old counters, the calls and the clock alone. */
  lemma RenewalInstalls(s: System, es: seq<Event>, slot: nat, id: CounterId, budget: Option<int>,
                        expiration: Option<int>)
    requires Started(s) && slot < |Exec(s, es).slots| && id !in Exec(s, es).counters
    ensures var t, t' := Exec(s, es), Exec(s, es + [Renew(slot, id, budget, expiration)]);
            && t'.slots == t.slots[slot := Token(if budget.Some? then Some(id) else None, expiration)]
            && t'.now == t.now && t'.signs == t.signs
            && t'.counters.Keys == t.counters.Keys + (if budget.Some? then {id} else {})
            && (budget.Some? ==> t'.counters[id].left == budget.value == t'.counters[id].budget)
            && forall k <- t.counters :: t'.counters[k] == t.counters[k]
  {
    hide Exec, Invariant, Consistent;
    ExecSnoc(s, es, Renew(slot, id, budget, expiration));
  }

  /** Calls arrive with nothing used, and the clock moves by what has elapsed. */
  lemma ArrivalsAndTime(s: System, es: seq<Event>, call: CallId, slot: nat, elapsed: nat)
    requires Started(s) && call !in Exec(s, es).signs && slot < |Exec(s, es).slots|
    ensures Exec(s, es + [Arrive(call, slot)]) ==
            Exec(s, es).(signs := Exec(s, es).signs[call := SignCall(slot, 0, Selecting)])
    ensures Exec(s, es + [Tick(elapsed)]) == Exec(s, es).(now := Exec(s, es).now + elapsed)
  {
    hide Exec, Invariant, Consistent;
    ExecSnoc(s, es, Arrive(call, slot));
    ExecSnoc(s, es, Tick(elapsed));
  }

  // ----- Calls and the renewals of their slot

  /** The call has selected a token and is not done. */
  predicate UnderWay(c: SignCall) {
    !c.place.Applied? && !c.place.GaveUp? && (c.place.Selecting? ==> c.used > 0)
  }

  /** The event renews the call's own slot while the call is under way. */
  predicate RenewsUnder(s: System, e: Event, call: CallId) {
    e.Renew? && Enabled(s, e) && call in s.signs && UnderWay(s.signs[call]) && e.slot == s.signs[call].slot
  }

  predicate RenewedDuring(s: System, es: seq<Event>, call: CallId)
    requires Started(s)
    decreases |es|
  {
    es != [] &&
    var front, e := es[..|es| - 1], es[|es| - 1];
    RenewedDuring(s, front, call) || RenewsUnder(Exec(s, front), e, call)
  }

  /** No later use of the token is granted. */
  predicate Dead(s: System, t: Token)
    requires TokenKnown(s.counters, t)
  {
    (t.counter.Some? && s.counters[t.counter.value].left < 0) || Lapsed(s, t)
  }

  /** A call that has failed once has left its slot's token dead, and can only go on failing. */
  predicate FirstUseDecides(s: System, c: SignCall)
    requires Consistent(s) && SignKnown(s, c)
  {
    var token := s.slots[c.slot];
    && (c.place.Decrementing? || c.place.Checking? ==> c.place.token == token)
    && (c.used >= 1 && (c.place.Selecting? || c.place.Decrementing?) ==> Dead(s, token))
    && (c.place.Checking? && c.used != 1 ==> Lapsed(s, token))
    && (c.place.Applied? ==> c.used == 1)
  }

  lemma DeadStaysDead(s: System, e: Event, t: Token)
    requires Consistent(s) && TokenKnown(s.counters, t) && Dead(s, t)
    ensures TokenKnown(Next(s, e).counters, t) && Dead(Next(s, e), t)
  {}

  lemma MoveKeepsFirstUse(s: System, call: CallId)
    requires Consistent(s) && call in s.signs && FirstUseDecides(s, s.signs[call])
    ensures var s' := Next(s, Advance(call));
            Consistent(s') && SignKnown(s', s'.signs[call]) && FirstUseDecides(s', s'.signs[call])
  {
    NextIsConsistent(s, Advance(call));
  }

  lemma OthersKeepFirstUse(s: System, e: Event, call: CallId)
    requires Consistent(s) && call in s.signs && FirstUseDecides(s, s.signs[call])
    requires !RenewsUnder(s, e, call) && e != Advance(call)
    ensures var s' := Next(s, e);
            && Consistent(s') && call in s'.signs && SignKnown(s', s'.signs[call])
            && s'.signs[call] == s.signs[call] && FirstUseDecides(s', s'.signs[call])
  {
    NextIsConsistent(s, e);
    var token := s.slots[s.signs[call].slot];
    if Dead(s, token) { DeadStaysDead(s, e, token); }
  }

  lemma {:induction false} FirstUseHolds(s: System, es: seq<Event>, call: CallId)
    requires Started(s) && !RenewedDuring(s, es, call) && call in Exec(s, es).signs
    ensures FirstUseDecides(Exec(s, es), Exec(s, es).signs[call])
    decreases |es|
  {
    hide Next, FirstUseDecides;
    if es != [] {
      var front, e := es[..|es| - 1], es[|es| - 1];
      var before := Exec(s, front);
      if call in before.signs {
        FirstUseHolds(s, front, call);
        if e == Advance(call) { MoveKeepsFirstUse(before, call); } else { OthersKeepFirstUse(before, e, call); }
      } else {
        JustArrived(before, e, call);
      }
    }
  }

  lemma JustArrived(s: System, e: Event, call: CallId)
    requires Consistent(s) && call !in s.signs && call in Next(s, e).signs
    ensures Consistent(Next(s, e)) && FirstUseDecides(Next(s, e), Next(s, e).signs[call])
  {
    NextIsConsistent(s, e);
  }

  /** However the calls interleave and other slots are renewed: a call whose own slot is not renewed
      while it is under way signs with its first use or not at all. */
  lemma UsesOfACall(s: System, es: seq<Event>, call: CallId)
    requires Started(s) && !RenewedDuring(s, es, call) && call in Exec(s, es).signs
    ensures Exec(s, es).signs[call].place.Applied? ==> Exec(s, es).signs[call].used == 1
    ensures Exec(s, es).signs[call].place.GaveUp? ==> Exec(s, es).signs[call].used == 11
  {
    FirstUseHolds(s, es, call);
    UsesAreBounded(s, es, call);
  }

  lemma ExecSnoc(s: System, es: seq<Event>, e: Event)
    requires Started(s)
    ensures Exec(s, es + [e]) == Next(Exec(s, es), e)
  {
    assert (es + [e])[..|es + [e]| - 1] == es;
  }

  /** In any reachable state, renewing the slot of a call that is about to select again lets it sign
      with its next use. */
  lemma {:induction false} RenewalRevives(s: System, es: seq<Event>, call: CallId, id: CounterId)
    returns (more: seq<Event>)
    requires Started(s) && call in Exec(s, es).signs && Exec(s, es).signs[call].place.Selecting?
    requires id !in Exec(s, es).counters
    ensures call in Exec(s, es + more).signs && Exec(s, es + more).signs[call].place.Applied?
    ensures Exec(s, es + more).signs[call].used == Exec(s, es).signs[call].used + 1
  {
    hide Exec, Next, Invariant, Consistent;
    var next, renew := Advance(call), Renew(Exec(s, es).signs[call].slot, id, Some(1), None);
    NextUsePasses(Exec(s, es), call, id);
    ExecSnoc(s, es, renew);
    ExecSnoc(s, es + [renew], next);
    ExecSnoc(s, es + [renew] + [next], next);
    ExecSnoc(s, es + [renew] + [next] + [next], next);
    more := [renew, next, next, next];
    assert es + more == es + [renew] + [next] + [next] + [next];
  }

  lemma NextUsePasses(s: System, call: CallId, id: CounterId)
    requires Invariant(s) && call in s.signs && id !in s.counters && s.signs[call].place.Selecting?
    ensures var c := s.signs[call];
            && Consistent(s)
            && var s1 := Next(s, Renew(c.slot, id, Some(1), None));
            && Consistent(s1) && Consistent(Next(s1, Advance(call)))
            && var s3 := Next(Next(s1, Advance(call)), Advance(call));
               && Consistent(s3) && call in Next(s3, Advance(call)).signs
               && Next(s3, Advance(call)).signs[call] == SignCall(c.slot, c.used + 1, Applied(Token(Some(id), None)))
  {
    assert SignKnown(s, s.signs[call]) && CallHolds(s.signs[call]);
    hide Consistent, Invariant;
    var renew := Renew(s.signs[call].slot, id, Some(1), None);
    var s1 := Next(s, renew);
    NextIsConsistent(s, renew);
    NextIsConsistent(s1, Advance(call));
    NextIsConsistent(Next(s1, Advance(call)), Advance(call));
  }

  /** So a renewal between its tries lets a call whose first use failed sign with its second. */
  lemma {:induction false} RenewalRescues(s: System, call: CallId, slot: nat, id: CounterId) returns (es: seq<Event>)
    requires Started(s) && slot < |s.slots| && id !in s.counters
    requires s.slots[slot].counter.Some? && s.counters[s.slots[slot].counter.value].left <= 0
    ensures call in Exec(s, es).signs && Exec(s, es).signs[call].place.Applied? && Exec(s, es).signs[call].used == 2
  {
    var t := FirstUseFails(s, call, slot);
    hide Exec;
    var before := [Arrive(call, slot), Advance(call), Advance(call)];
    var more := RenewalRevives(s, before, call, id);
    es := before + more;
  }

  lemma FirstUseFails(s: System, call: CallId, slot: nat) returns (t: System)
    requires Started(s) && slot < |s.slots|
    requires s.slots[slot].counter.Some? && s.counters[s.slots[slot].counter.value].left <= 0
    ensures t == Exec(s, [Arrive(call, slot), Advance(call), Advance(call)])
    ensures t.signs == map[call := SignCall(slot, 1, Selecting)]
    ensures t.slots == s.slots && t.counters.Keys == s.counters.Keys
  {
    var a, b := Arrive(call, slot), Advance(call);
    assert [a, b, b][..2] == [a, b] && [a, b][..1] == [a] && [a][..0] == [];
    assert Exec(s, []) == s;
    assert Exec(s, [a]) == Next(s, a);
    assert Exec(s, [a, b]) == Next(Next(s, a), b);
    t := Exec(s, [a, b, b]);
  }
}
