/** Session tokens with a shared use counter (lib/auth/interface.go) and the client that spends them
    (Sign and its helpers in lib/auth/siwe/client.go), one call at a time. */
module AuthTokens {
  import opened Wrappers

  /** The integer a token's Uses points to. Copies of the token share it. */
  class Counter {
    var uses: int

    constructor (uses: int)
      ensures this.uses == uses
    {
      this.uses := uses;
    }

    /** The atomic addition returns the new value. */
    method Add(delta: int) returns (value: int)
      modifies this
      ensures uses == old(uses) + delta && value == uses
    {
      uses := uses + delta;
      value := uses;
    }
  }

  datatype AuthToken = AuthToken(headers: map<string, string>, expiration: Option<int>, uses: Counter?)

  datatype AuthError = ErrRequestLimit | ErrSessionExpired

  predicate Expired(at: AuthToken, now: int) {
    at.expiration.Some? && now > at.expiration.value
  }

  /** A use would be granted now. */
  ghost predicate Usable(at: AuthToken, now: int)
    reads at.uses
  {
    (at.uses == null || at.uses.uses > 0) && !Expired(at, now)
  }

  method Use(at: AuthToken, now: int) returns (err: Option<AuthError>)
    modifies if at.uses == null then {} else {at.uses}
    ensures at.uses != null ==> at.uses.uses == old(at.uses.uses) - 1
    ensures err.None? <==> old(Usable(at, now))
    ensures err.None? <==> (at.uses == null || old(at.uses.uses) >= 1)
                           && (at.expiration.None? || now <= at.expiration.value)
    ensures err == Some(ErrRequestLimit) <==> at.uses != null && old(at.uses.uses) <= 0
  {
    if at.uses != null {
      var left := at.uses.Add(-1);
      if left < 0 { return Some(ErrRequestLimit); }
    }
    if Expired(at, now) { return Some(ErrSessionExpired); }
    return None;
  }

  /** Peek foretells Use: it finds nothing wrong exactly when a use at this moment would be granted. */
  method Peek(at: AuthToken, now: int) returns (err: Option<AuthError>)
    ensures err.None? <==> Usable(at, now)
    ensures err == Some(ErrRequestLimit) <==> at.uses != null && at.uses.uses <= 0
  {
    if at.uses != null && at.uses.uses <= 0 { return Some(ErrRequestLimit); }
    if Expired(at, now) { return Some(ErrSessionExpired); }
    return None;
  }

  function Min(a: int, b: int): int { if a < b then a else b }
  function Max(a: int, b: int): int { if a > b then a else b }

  /** However often a token is used, at whatever times, the uses that pass the limit check are as many
      as its counter allows, and every use is taken off the counter, passed or not. */
  method UseRepeatedly(at: AuthToken, clock: nat -> int, times: nat) returns (passed: nat)
    modifies if at.uses == null then {} else {at.uses}
    ensures at.uses == null ==> passed == times
    ensures at.uses != null ==> at.uses.uses == old(at.uses.uses) - times
    ensures at.uses != null ==> passed == Min(times, Max(old(at.uses.uses), 0))
  {
    passed := 0;
    for i := 0 to times
      invariant at.uses == null ==> passed == i
      invariant at.uses != null ==> at.uses.uses == old(at.uses.uses) - i
      invariant at.uses != null ==> passed == Min(i, Max(old(at.uses.uses), 0))
    {
      var err := Use(at, clock(i));
      if err != Some(ErrRequestLimit) {
        passed := passed + 1;
      }
    }
  }

  /** What the hash of a session id yields. */
  type uint32 = x: int | 0 <= x < 0x1_0000_0000

  /** The slot of a session id's 32-bit hash; a request without a session id takes the first. */
  function SlotOf(hash: Option<uint32>, sessionCount: nat): (slot: nat)
    requires sessionCount > 0
    ensures slot < sessionCount
    ensures hash.None? ==> slot == 0
    ensures hash.Some? ==> exists q :: hash.value == q * sessionCount + slot
  {
    match hash
    case Some(h) =>
      assert h == (h / sessionCount) * sessionCount + h % sessionCount;
      h % sessionCount
    case None => 0
  }

  /** How often Sign tries at most: the first time and ten more. */
  const MAX_TRIES := 11

  class Signer {
    var sessionTokens: seq<AuthToken>

    method SelectAuthToken(hash: Option<uint32>) returns (at: AuthToken)
      requires |sessionTokens| > 0
      ensures at == sessionTokens[SlotOf(hash, |sessionTokens|)]
    {
      at := sessionTokens[SlotOf(hash, |sessionTokens|)];
    }

    ghost function Chosen(hash: Option<uint32>): AuthToken
      requires |sessionTokens| > 0
      reads this
    {
      sessionTokens[SlotOf(hash, |sessionTokens|)]
    }

    /** One call by itself: nobody else uses the token or renews the slot meanwhile. `clock` gives the
        time of each use and does not go back. Signing succeeds exactly when the first use does;
        otherwise all tries are spent, each of them on the counter. */
    method Sign(hash: Option<uint32>, header: map<string, string>, clock: nat -> int)
      returns (err: Option<AuthError>, signed: map<string, string>, ghost calls: nat)
      requires |sessionTokens| > 0
      requires forall i: nat, j: nat :: i <= j ==> clock(i) <= clock(j)
      modifies if Chosen(hash).uses == null then {} else {Chosen(hash).uses}
      ensures sessionTokens == old(sessionTokens)
      ensures err.None? <==> old(Usable(Chosen(hash), clock(0)))
      ensures calls == if err.None? then 1 else 11
      ensures err.Some? ==>
                (err == Some(ErrRequestLimit) <==> Chosen(hash).uses != null && old(Chosen(hash).uses.uses) < MAX_TRIES)
      ensures Chosen(hash).uses != null ==> Chosen(hash).uses.uses == old(Chosen(hash).uses.uses) - calls
      ensures signed == if err.None? then header + Chosen(hash).headers else header
    {
      var at := SelectAuthToken(hash);
      var counter := 0;
      signed := header;
      err := Use(at, clock(0));
      calls := 1;
      while err != None
        invariant at == Chosen(hash) && sessionTokens == old(sessionTokens)
        invariant 0 <= counter <= 10 && calls == counter + 1
        invariant at.uses != null ==> at.uses.uses == old(Chosen(hash).uses.uses) - calls
        invariant err.None? <==> old(Usable(Chosen(hash), clock(0)))
        invariant err.Some? ==> (at.uses != null && at.uses.uses < 0) || Expired(at, clock(counter))
        invariant err.None? ==> calls == 1
        invariant err.Some? ==>
                    (err == Some(ErrRequestLimit) <==> at.uses != null && old(Chosen(hash).uses.uses) <= counter)
        decreases 10 - counter
      {
        if counter == 10 { return; }
        counter := counter + 1;
        at := SelectAuthToken(hash);
        err := Use(at, clock(counter));
        calls := calls + 1;
      }
      signed := header + at.headers;
    }
  }
}
