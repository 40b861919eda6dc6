/** The buffering response writer (modules/response_writer_wrapper.go) and the retry loop that uses it
    (ServeHTTP in modules/din_middleware.go). The next handler is arbitrary: each of its calls is
    any script of actions on its writer and request, through the library or on the header map itself,
    and an error flag. */
module Retry {
  import opened Headers
  import opened Wrappers

  /** What reaches the client: the status codes, each with the headers it was sent under, and the body. */
  datatype Head = Head(status: int, header: Headers)

  class ClientWriter {
    var header: Headers
    var heads: seq<Head>
    var body: Bytes

    method WriteHeader(statusCode: int)
      modifies this`heads
      ensures heads == old(heads) + [Head(statusCode, header)]
    {
      heads := heads + [Head(statusCode, header)];
    }

    method Write(b: Bytes)
      modifies this`body
      ensures body == old(body) + b
    {
      body := body + b;
    }
  }

  class Request {
    var body: Bytes  // what is left to read
  }

  /** The header map a wrapper starts with. The library's delete canonicalises, so an entry under a
      key that is not canonical stays. */
  function Cleared(h: Headers): Headers {
    NonCanonicalPart(h)["Caddy" := ["Server"]]
  }

  class ResponseWriterWrapper {
    const writer: ClientWriter
    var body: Bytes
    var statusCode: int

    constructor (rw: ClientWriter)
      modifies rw`header
      ensures writer == rw && body == [] && statusCode == 0
      ensures rw.header == Cleared(old(rw.header))
    {
      writer, body, statusCode := rw, [], 0;
      new;
      CaddyIsCanonical();
      var rest := rw.header.Keys;
      ghost var before := rw.header;
      while rest != {}
        modifies rw`header
        invariant rest <= before.Keys
        invariant rw.header.Keys <= before.Keys
        invariant forall k <- before ::
          (k in rw.header ==> rw.header[k] == before[k])
          && (IsCanonical(k) && k !in rest ==> k !in rw.header)
          && (!IsCanonical(k) ==> k in rw.header)
      {
        var k :| k in rest;
        rest := rest - {k};
        CanonicalTwice(k);
        rw.header := Del(rw.header, k);
      }
      assert rw.header == NonCanonicalPart(before);
      rw.header := Set(rw.header, "Caddy", "Server");
    }

    method WriteHeader(code: int)
      modifies this`statusCode
      ensures statusCode == code
    {
      statusCode := code;
    }

    method Write(b: Bytes)
      modifies this`body
      ensures body == old(body) + b
    {
      body := body + b;
    }
  }

  lemma CaddyIsCanonical()
    ensures IsCanonical("Caddy")
  {
    assert "Caddy"[1..] == "addy" && "addy"[1..] == "ddy" && "ddy"[1..] == "dy" && "dy"[1..] == "y" && "y"[1..] == "";
    assert RecaseFrom("y", false) == "y";
    assert RecaseFrom("dy", false) == "dy";
    assert RecaseFrom("ddy", false) == "ddy";
    assert RecaseFrom("addy", false) == "addy";
  }

  // ----- One call of the next handler

  datatype Action =
    | SetHeader(key: string, value: string)           // through the library, which canonicalises
    | AddHeader(key: string, value: string)           // likewise
    | DelHeader(key: string)                          // likewise
    | AssignHeader(key: string, values: seq<string>)  // straight into the map
    | DropHeader(key: string)                         // straight from the map
    | WriteStatus(statusCode: int)
    | WriteBody(bytes: Bytes)
    | ReadBody(count: nat)

  datatype Call = Call(actions: seq<Action>, failed: bool)

  /** What one action makes of the header map. */
  function Perform(h: Headers, a: Action): Headers {
    match a
    case SetHeader(k, v) => Set(h, k, v)
    case AddHeader(k, v) => Add(h, k, v)
    case DelHeader(k) => Del(h, k)
    case AssignHeader(k, vs) => h[k := vs]
    case DropHeader(k) => h - {k}
    case _ => h
  }

  function HeaderAfter(h: Headers, actions: seq<Action>): Headers {
    if actions == [] then h
    else Perform(HeaderAfter(h, actions[..|actions| - 1]), actions[|actions| - 1])
  }

  /** The last status written, 0 if none was. */
  function StatusOf(actions: seq<Action>): int {
    if actions == [] then 0 else
    var last := actions[|actions| - 1];
    if last.WriteStatus? then last.statusCode else StatusOf(actions[..|actions| - 1])
  }

  /** All that was written, in order. */
  function BodyOf(actions: seq<Action>): Bytes {
    if actions == [] then [] else
    var last := actions[|actions| - 1];
    BodyOf(actions[..|actions| - 1]) + if last.WriteBody? then last.bytes else []
  }

  /** How much of the request's body the handler asks for. */
  function ReadCount(actions: seq<Action>): nat {
    if actions == [] then 0 else
    var last := actions[|actions| - 1];
    ReadCount(actions[..|actions| - 1]) + if last.ReadBody? then last.count else 0
  }

  function Unread(body: Bytes, actions: seq<Action>): Bytes {
    if ReadCount(actions) <= |body| then body[ReadCount(actions)..] else []
  }

  /** What a handler writes is what its parts write, one after the other. */
  lemma {:induction false} BodyOfJoin(a: seq<Action>, b: seq<Action>)
    ensures BodyOf(a + b) == BodyOf(a) + BodyOf(b)
    decreases |b|
  {
    if b == [] {
      assert a + b == a;
    } else {
      BodyOfJoin(a, b[..|b| - 1]);
      assert (a + b)[..|a + b| - 1] == a + b[..|b| - 1];
    }
  }

  lemma BodyOfOne(a: Action)
    ensures BodyOf([a]) == if a.WriteBody? then a.bytes else []
    ensures ReadCount([a]) == if a.ReadBody? then a.count else 0
  {
    assert [a][..0] == [];
  }

  lemma {:induction false} ReadCountJoin(a: seq<Action>, b: seq<Action>)
    ensures ReadCount(a + b) == ReadCount(a) + ReadCount(b)
    decreases |b|
  {
    if b == [] {
      assert a + b == a;
    } else {
      ReadCountJoin(a, b[..|b| - 1]);
      assert (a + b)[..|a + b| - 1] == a + b[..|b| - 1];
    }
  }

  lemma {:induction false} HeaderAfterJoin(h: Headers, a: seq<Action>, b: seq<Action>)
    ensures HeaderAfter(h, a + b) == HeaderAfter(HeaderAfter(h, a), b)
    decreases |b|
  {
    hide Perform;
    if b == [] {
      assert a + b == a;
    } else {
      HeaderAfterJoin(h, a, b[..|b| - 1]);
      assert (a + b)[..|a + b| - 1] == a + b[..|b| - 1];
    }
  }

  predicate NoStatus(actions: seq<Action>) {
    forall a <- actions :: !a.WriteStatus?
  }

  lemma {:induction false} NoStatusIsZero(actions: seq<Action>)
    requires NoStatus(actions)
    ensures StatusOf(actions) == 0
  {
    if actions != [] {
      assert actions[|actions| - 1] in actions;
      NoStatusIsZero(actions[..|actions| - 1]);
    }
  }

  /** The status is the last one written. */
  lemma {:induction false} LastStatusCounts(actions: seq<Action>, i: nat)
    requires i < |actions| && actions[i].WriteStatus? && NoStatus(actions[i + 1..])
    ensures StatusOf(actions) == actions[i].statusCode
    decreases |actions|
  {
    var n := |actions| - 1;
    if i < n {
      assert actions[n] == actions[i + 1..][n - i - 1];
      assert actions[..n][i + 1..] == actions[i + 1..][..n - i - 1];
      LastStatusCounts(actions[..n], i);
    }
  }

  // ----- The values of a header

  /** What the action does to the key makes its earlier values irrelevant. */
  predicate Resets(a: Action, k: string) {
    match a
    case SetHeader(key, _) => Canonical(key) == k
    case DelHeader(key) => Canonical(key) == k
    case AssignHeader(key, _) => key == k
    case DropHeader(key) => key == k
    case _ => false
  }

  /** The values added to the key, in their order. */
  function Added(actions: seq<Action>, k: string): seq<string> {
    if actions == [] then [] else
    var last := actions[|actions| - 1];
    Added(actions[..|actions| - 1], k) + if last.AddHeader? && Canonical(last.key) == k then [last.value] else []
  }

  lemma PerformAdds(h: Headers, a: Action, k: string)
    requires !Resets(a, k)
    ensures var adds := a.AddHeader? && Canonical(a.key) == k;
            && (k in Perform(h, a) <==> k in h || adds)
            && (k in Perform(h, a) ==>
                  Perform(h, a)[k] == (if k in h then h[k] else []) + if adds then [a.value] else [])
  {
    hide Canonical;
  }

  /** A key nobody resets keeps its values and gets those that are added. */
  lemma {:induction false} AddedToTheOldValues(h: Headers, actions: seq<Action>, k: string)
    requires forall a <- actions :: !Resets(a, k)
    ensures k in HeaderAfter(h, actions) <==> k in h || Added(actions, k) != []
    ensures k in HeaderAfter(h, actions) ==>
              HeaderAfter(h, actions)[k] == (if k in h then h[k] else []) + Added(actions, k)
  {
    hide Canonical, Perform, Resets;
    if actions != [] {
      var front, last := actions[..|actions| - 1], actions[|actions| - 1];
      assert last in actions;
      AddedToTheOldValues(h, front, k);
      PerformAdds(HeaderAfter(h, front), last, k);
    }
  }

  /** A key holds what the last action that resets it gave it, and what was added since; a deletion
      gives it nothing. */
  lemma {:induction false} LastResetCounts(h: Headers, actions: seq<Action>, i: nat, k: string)
    requires i < |actions| && Resets(actions[i], k) && forall a <- actions[i + 1..] :: !Resets(a, k)
    ensures var a, more, after := actions[i], Added(actions[i + 1..], k), HeaderAfter(h, actions);
            && (a.SetHeader? ==> k in after && after[k] == [a.value] + more)
            && (a.AssignHeader? ==> k in after && after[k] == a.values + more)
            && (a.DelHeader? || a.DropHeader? ==> (k in after <==> more != []) && (k in after ==> after[k] == more))
  {
    hide Canonical, Added;
    var first, rest := actions[..i + 1], actions[i + 1..];
    assert actions == first + rest;
    HeaderAfterJoin(h, first, rest);
    assert first[..i] == actions[..i];
    AddedToTheOldValues(HeaderAfter(h, first), rest, k);
  }

  method ServeNext(rww: ResponseWriterWrapper, r: Request, call: Call)
    requires rww.body == [] && rww.statusCode == 0
    modifies rww, r, rww.writer`header
    ensures rww.writer.header == HeaderAfter(old(rww.writer.header), call.actions)
    ensures rww.statusCode == StatusOf(call.actions) && rww.body == BodyOf(call.actions)
    ensures r.body == Unread(old(r.body), call.actions)
  {
    hide Canonical, Set, Add, Del;
    var i := 0;
    while i < |call.actions|
      invariant 0 <= i <= |call.actions|
      invariant rww.writer.header == HeaderAfter(old(rww.writer.header), call.actions[..i])
      invariant rww.statusCode == StatusOf(call.actions[..i]) && rww.body == BodyOf(call.actions[..i])
      invariant r.body == Unread(old(r.body), call.actions[..i])
    {
      var writer := rww.writer;
      assert call.actions[..i + 1][..i] == call.actions[..i];
      match call.actions[i] {
        case SetHeader(k, v) => writer.header := Set(writer.header, k, v);
        case AddHeader(k, v) => writer.header := Add(writer.header, k, v);
        case DelHeader(k) => writer.header := Del(writer.header, k);
        case AssignHeader(k, vs) => writer.header := writer.header[k := vs];
        case DropHeader(k) => writer.header := writer.header - {k};
        case WriteStatus(code) => rww.WriteHeader(code);
        case WriteBody(bytes) => rww.Write(bytes);
        case ReadBody(count) => r.body := if count <= |r.body| then r.body[count..] else [];
      }
      i := i + 1;
    }
    assert call.actions[..i] == call.actions;
  }

  // ----- The loop

  /** What the handler does on each attempt. */
  type Script = nat -> Call

  const STATUS_OK := 200

  predicate Succeeds(call: Call) {
    !call.failed && StatusOf(call.actions) == STATUS_OK
  }

  /** The number of attempts: up to and including the first that succeeds, and never more than the limit. */
  ghost predicate Attempts(script: Script, limit: int, n: nat) {
    && (forall i :: 0 <= i < n - 1 ==> !Succeeds(script(i)))
    && (n > 0 ==> n <= limit)
    && (n < limit ==> n > 0 && Succeeds(script(n - 1)))
  }

  lemma AttemptsIsUnique(script: Script, limit: int, m: nat, n: nat)
    requires Attempts(script, limit, m) && Attempts(script, limit, n)
    ensures m == n
  {}

  /** The loop goes on exactly after a call that failed or whose status was not 200. */
  lemma LoopStopsAtSuccess(script: Script, limit: int, n: nat)
    requires Attempts(script, limit, n)
    ensures forall i :: 0 <= i < n - 1 ==> script(i).failed || StatusOf(script(i).actions) != 200
    ensures n < limit ==> n > 0 && !script(n - 1).failed && StatusOf(script(n - 1).actions) == 200
  {}

  /** The headers on the client's writer after n attempts. */
  function HeaderAfterAttempts(h: Headers, script: Script, n: nat): Headers {
    if n == 0 then h
    else HeaderAfter(Cleared(HeaderAfterAttempts(h, script, n - 1)), script(n - 1).actions)
  }

  const DIN_PROVIDER_INFO := "din-provider-info"

  function WithoutProviderInfo(h: Headers): Headers {
    if Get(h, DIN_PROVIDER_INFO) != "" then Del(h, DIN_PROVIDER_INFO) else h
  }

  /** Clearing has already removed the custom header, so its own removal finds nothing. */
  lemma ProviderInfoIsCleared(h: Headers)
    ensures WithoutProviderInfo(Cleared(h)) == Cleared(h)
  {
    CanonicalTwice(DIN_PROVIDER_INFO);
    assert |Canonical(DIN_PROVIDER_INFO)| == 17;
  }

  /** One turn of the loop: a new wrapper, the request as it first was, and the call. */
  method TryOnce(rw: ClientWriter, r: Request, bodyBytes: Bytes, attempt: nat, call: Call)
    returns (rww: ResponseWriterWrapper, ghost found: Bytes)
    requires attempt == 0 ==> r.body == bodyBytes
    modifies rw`header, r
    ensures fresh(rww) && rww.writer == rw && found == bodyBytes
    ensures rw.header == HeaderAfter(Cleared(old(rw.header)), call.actions)
    ensures rww.statusCode == StatusOf(call.actions) && rww.body == BodyOf(call.actions)
  {
    ghost var before := rw.header;
    rww := new ResponseWriterWrapper(rw);
    if attempt > 0 {
      r.body := bodyBytes;
      ProviderInfoIsCleared(before);
      rw.header := WithoutProviderInfo(rw.header);
    }
    found := r.body;
    ServeNext(rww, r, call);
  }

  /** The loop. `seen` is the body each attempt found in the request. */
  method RetryLoop(rw: ClientWriter, r: Request, bodyBytes: Bytes, attemptCount: int, script: Script)
    returns (rww: ResponseWriterWrapper?, err: bool, ghost seen: seq<Bytes>)
    requires r.body == bodyBytes
    modifies rw`header, r
    ensures Attempts(script, attemptCount, |seen|)
    ensures forall body <- seen :: body == bodyBytes
    ensures rw.header == HeaderAfterAttempts(old(rw.header), script, |seen|)
    ensures rww == null <==> seen == []
    ensures seen == [] ==> !err
    ensures rww != null ==>
              && fresh(rww) && rww.writer == rw && err == script(|seen| - 1).failed
              && rww.statusCode == StatusOf(script(|seen| - 1).actions)
              && rww.body == BodyOf(script(|seen| - 1).actions)
  {
    hide HeaderAfter, Cleared, StatusOf, BodyOf;
    rww, err, seen := null, false, [];
    var attempt := 0;
    while attempt < attemptCount
      invariant |seen| == attempt && (attempt > 0 ==> attempt <= attemptCount)
      invariant attempt == 0 ==> r.body == bodyBytes && !err
      invariant forall body <- seen :: body == bodyBytes
      invariant forall i :: 0 <= i < attempt ==> !Succeeds(script(i))
      invariant rw.header == HeaderAfterAttempts(old(rw.header), script, attempt)
      invariant rww == null <==> attempt == 0
      invariant rww != null ==>
                  && fresh(rww) && rww.writer == rw && err == script(attempt - 1).failed
                  && rww.statusCode == StatusOf(script(attempt - 1).actions)
                  && rww.body == BodyOf(script(attempt - 1).actions)
    {
      ghost var found: Bytes;
      rww, found := TryOnce(rw, r, bodyBytes, attempt, script(attempt));
      err := script(attempt).failed;
      seen := seen + [found];
      if !err && rww.statusCode == STATUS_OK {
        return;
      }
      attempt := attempt + 1;
    }
  }

  /** The loop and the reply. The client hears of the last attempt only, and only if it did not fail:
      its status once, under its headers, and exactly what it wrote. */
  method ServeWithRetries(rw: ClientWriter, r: Request, bodyBytes: Bytes, attemptCount: int, script: Script)
    returns (handlerError: bool, ghost seen: seq<Bytes>)
    requires r.body == bodyBytes
    modifies rw, r
    ensures Attempts(script, attemptCount, |seen|)
    ensures forall body <- seen :: body == bodyBytes
    ensures rw.header == HeaderAfterAttempts(old(rw.header), script, |seen|)
    ensures handlerError <==> |seen| > 0 && script(|seen| - 1).failed
    ensures if seen == [] || handlerError then rw.heads == old(rw.heads) && rw.body == old(rw.body)
            else rw.heads == old(rw.heads) + [Head(StatusOf(script(|seen| - 1).actions), rw.header)]
                 && rw.body == old(rw.body) + BodyOf(script(|seen| - 1).actions)
  {
    var rww, err;
    rww, err, seen := RetryLoop(rw, r, bodyBytes, attemptCount, script);
    if err {
      return true, seen;
    }
    if rww != null {
      rw.WriteHeader(rww.statusCode);
      rw.Write(rww.body);
    }
    handlerError := false;
  }

  // ----- What the attempts leave for the client

  /** The action writes or deletes exactly this key of the map. */
  predicate TouchesKey(a: Action, k: string) {
    (a.AssignHeader? || a.DropHeader?) && a.key == k
  }

  predicate Touches(actions: seq<Action>, k: string) {
    exists a <- actions :: TouchesKey(a, k)
  }

  /** The last action that touches the key assigns it. */
  predicate Leaves(actions: seq<Action>, k: string) {
    actions != [] &&
    var last := actions[|actions| - 1];
    if TouchesKey(last, k) then last.AssignHeader? else Leaves(actions[..|actions| - 1], k)
  }

  /** Read off the handler's actions alone: what n attempts leave of a key that is not canonical. */
  predicate LeftAfter(h: Headers, script: Script, n: nat, k: string) {
    if n == 0 then k in h
    else
      var actions := script(n - 1).actions;
      if Touches(actions, k) then Leaves(actions, k) else LeftAfter(h, script, n - 1, k)
  }

  /** No key outside the canonical form is left. */
  ghost predicate NothingLeft(h: Headers, script: Script, n: nat) {
    forall k: string | !IsCanonical(k) :: !LeftAfter(h, script, n, k)
  }

  lemma TouchesSnoc(actions: seq<Action>, k: string)
    ensures Touches(actions, k) <==>
            actions != [] && (Touches(actions[..|actions| - 1], k) || TouchesKey(actions[|actions| - 1], k))
  {
    if actions != [] {
      assert actions == actions[..|actions| - 1] + [actions[|actions| - 1]];
    }
  }

  /** The library's operations do not reach a key that is not canonical. */
  lemma {:induction false} NonCanonicalPresence(h: Headers, actions: seq<Action>, k: string)
    requires !IsCanonical(k)
    ensures k in HeaderAfter(h, actions) <==> if Touches(actions, k) then Leaves(actions, k) else k in h
    ensures k in h && !Touches(actions, k) ==> HeaderAfter(h, actions)[k] == h[k]
  {
    hide IsCanonical, Touches;
    TouchesSnoc(actions, k);
    if actions != [] {
      var last := actions[|actions| - 1];
      NonCanonicalPresence(h, actions[..|actions| - 1], k);
      if last.SetHeader? || last.AddHeader? || last.DelHeader? { CanonicalTwice(last.key); }
    }
  }

  lemma {:induction false} PresenceAfterAttempts(h: Headers, script: Script, n: nat, k: string)
    requires !IsCanonical(k)
    ensures k in HeaderAfterAttempts(h, script, n) <==> LeftAfter(h, script, n, k)
  {
    hide HeaderAfter, Touches, Leaves, IsCanonical;
    if n > 0 {
      var before := HeaderAfterAttempts(h, script, n - 1);
      PresenceAfterAttempts(h, script, n - 1, k);
      NonCanonicalPresence(Cleared(before), script(n - 1).actions, k);
      CaddyIsCanonical();
    }
  }

  /** After n attempts the map has only canonical keys exactly when no other key was left in it. */
  lemma {:induction false} CanonicalAfterAttempts(h: Headers, script: Script, n: nat)
    ensures OnlyCanonical(HeaderAfterAttempts(h, script, n)) <==> NothingLeft(h, script, n)
  {
    hide HeaderAfterAttempts, LeftAfter, IsCanonical;
    forall k: string | !IsCanonical(k)
      ensures k in HeaderAfterAttempts(h, script, n) <==> LeftAfter(h, script, n, k)
    {
      PresenceAfterAttempts(h, script, n, k);
    }
  }

  const FIRST_HEADERS: Headers := map["Caddy" := ["Server"]]

  lemma ClearedIsFirst(h: Headers)
    ensures Cleared(h) == FIRST_HEADERS <==> OnlyCanonical(h)
  {
    CaddyIsCanonical();
    NoNonCanonicalPart(h);
    assert forall k <- NonCanonicalPart(h) :: k in Cleared(h) && k != "Caddy";
  }

  /** The last of n attempts starts from the first headers alone exactly when neither the client's
      writer nor the earlier attempts left a key that is not canonical. */
  lemma StartsAfreshExactlyWhen(h: Headers, script: Script, n: nat)
    requires n > 0
    ensures Cleared(HeaderAfterAttempts(h, script, n - 1)) == FIRST_HEADERS <==> NothingLeft(h, script, n - 1)
  {
    hide HeaderAfterAttempts, Cleared, OnlyCanonical, NothingLeft;
    ClearedIsFirst(HeaderAfterAttempts(h, script, n - 1));
    CanonicalAfterAttempts(h, script, n - 1);
  }

  predicate SameAt(g: Headers, h: Headers, k: string) {
    (k in g <==> k in h) && (k in g ==> g[k] == h[k])
  }

  /** What the actions make of a key depends on what was there before, unless they touch it. */
  lemma {:induction false} SameAfter(g: Headers, h: Headers, actions: seq<Action>, k: string)
    requires SameAt(g, h, k) || Touches(actions, k)
    ensures SameAt(HeaderAfter(g, actions), HeaderAfter(h, actions), k)
  {
    hide IsCanonical, Touches;
    TouchesSnoc(actions, k);
    if actions != [] {
      var front := actions[..|actions| - 1];
      if SameAt(g, h, k) || Touches(front, k) { SameAfter(g, h, front, k); }
    }
  }

  /** The last attempt itself touches every non-canonical key it finds. */
  ghost predicate LeftoversAreTouched(h: Headers, script: Script, n: nat)
    requires n > 0
  {
    forall k: string | !IsCanonical(k) && LeftAfter(h, script, n - 1, k) :: Touches(script(n - 1).actions, k)
  }

  /** The reply has the headers of the last attempt alone, whatever earlier attempts and the client's
      writer held, exactly when the last attempt assigns or drops every non-canonical key they left. */
  lemma OnlyTheLastAttemptsHeaders(h: Headers, script: Script, n: nat)
    requires n > 0
    ensures HeaderAfterAttempts(h, script, n) == HeaderAfter(FIRST_HEADERS, script(n - 1).actions) <==>
            LeftoversAreTouched(h, script, n)
  {
    hide HeaderAfter, LeftAfter, Touches, IsCanonical;
    var start, actions := Cleared(HeaderAfterAttempts(h, script, n - 1)), script(n - 1).actions;
    forall k: string
      ensures SameAt(HeaderAfter(start, actions), HeaderAfter(FIRST_HEADERS, actions), k) <==>
              IsCanonical(k) || !LeftAfter(h, script, n - 1, k) || Touches(actions, k)
    {
      LeftoverAt(h, script, n, k);
    }
    SameEverywhere(HeaderAfter(start, actions), HeaderAfter(FIRST_HEADERS, actions));
  }

  lemma SameEverywhere(g: Headers, h: Headers)
    ensures g == h <==> forall k: string :: SameAt(g, h, k)
  {
    if forall k: string :: SameAt(g, h, k) {
      forall k: string
        ensures k in g <==> k in h
        ensures k in g ==> g[k] == h[k]
      {
        assert SameAt(g, h, k);
      }
    }
  }

  lemma LeftoverAt(h: Headers, script: Script, n: nat, k: string)
    requires n > 0
    ensures var start, actions := Cleared(HeaderAfterAttempts(h, script, n - 1)), script(n - 1).actions;
            SameAt(HeaderAfter(start, actions), HeaderAfter(FIRST_HEADERS, actions), k) <==>
            IsCanonical(k) || !LeftAfter(h, script, n - 1, k) || Touches(actions, k)
  {
    hide HeaderAfter, LeftAfter, Touches, IsCanonical;
    var start, actions := Cleared(HeaderAfterAttempts(h, script, n - 1)), script(n - 1).actions;
    CaddyIsCanonical();
    if IsCanonical(k) {
      SameAfter(start, FIRST_HEADERS, actions, k);
    } else {
      PresenceAfterAttempts(h, script, n - 1, k);
      NonCanonicalPresence(start, actions, k);
      NonCanonicalPresence(FIRST_HEADERS, actions, k);
      if k !in start || Touches(actions, k) { SameAfter(start, FIRST_HEADERS, actions, k); }
    }
  }

  /** A non-canonical key left behind by attempt m is there, with its values, after every later attempt
      until one touches it in the map itself. */
  lemma {:induction false} NonCanonicalHeaderLeaks(h: Headers, script: Script, m: nat, n: nat, k: string)
    requires m <= n && k in HeaderAfterAttempts(h, script, m) && !IsCanonical(k)
    requires forall i: nat :: m <= i < n ==> !Touches(script(i).actions, k)
    ensures k in HeaderAfterAttempts(h, script, n)
    ensures HeaderAfterAttempts(h, script, n)[k] == HeaderAfterAttempts(h, script, m)[k]
  {
    hide HeaderAfter, Touches, IsCanonical;
    if m < n {
      NonCanonicalHeaderLeaks(h, script, m, n - 1, k);
      CaddyIsCanonical();
      NonCanonicalPresence(Cleared(HeaderAfterAttempts(h, script, n - 1)), script(n - 1).actions, k);
    }
  }

  /** A handler that assigns only canonical keys. */
  predicate WritesCanonically(actions: seq<Action>) {
    forall a <- actions :: a.AssignHeader? ==> IsCanonical(a.key)
  }

  lemma {:induction false} CanonicalWritesLeaveNothing(actions: seq<Action>, k: string)
    requires WritesCanonically(actions) && !IsCanonical(k)
    ensures !Leaves(actions, k)
  {
    if actions != [] {
      assert actions[|actions| - 1] in actions;
      CanonicalWritesLeaveNothing(actions[..|actions| - 1], k);
    }
  }

  /** With such handlers and a canonical start the promise holds: the reply depends on the last attempt
      alone. */
  lemma {:induction false} CanonicalHandlersStartAfresh(h: Headers, script: Script, n: nat)
    requires n > 0 && OnlyCanonical(h) && forall i: nat :: i < n - 1 ==> WritesCanonically(script(i).actions)
    ensures HeaderAfterAttempts(h, script, n) == HeaderAfter(FIRST_HEADERS, script(n - 1).actions)
  {
    hide HeaderAfter, HeaderAfterAttempts, LeftAfter, Touches, IsCanonical, OnlyCanonical, WritesCanonically;
    forall k: string | !IsCanonical(k) ensures !LeftAfter(h, script, n - 1, k) {
      NotLeft(h, script, n - 1, k);
    }
    OnlyTheLastAttemptsHeaders(h, script, n);
  }

  lemma {:induction false} NotLeft(h: Headers, script: Script, n: nat, k: string)
    requires OnlyCanonical(h) && !IsCanonical(k) && forall i: nat :: i < n ==> WritesCanonically(script(i).actions)
    ensures !LeftAfter(h, script, n, k)
  {
    hide IsCanonical, Touches, Leaves, WritesCanonically;
    if n > 0 {
      NotLeft(h, script, n - 1, k);
      CanonicalWritesLeaveNothing(script(n - 1).actions, k);
    }
  }

  lemma XIdIsNotCanonical()
    ensures !IsCanonical("x-id")
  {
    assert Canonical("x-id")[0] == 'X';
  }

  lemma AssignedThenFailed(h: Headers)
    ensures HeaderAfter(h, [AssignHeader("x-id", ["1"]), WriteStatus(500)]) == h["x-id" := ["1"]]
  {
    var assign: seq<Action> := [AssignHeader("x-id", ["1"])];
    assert assign[..0] == [];
    assert HeaderAfter(h, assign) == h["x-id" := ["1"]];
    assert [AssignHeader("x-id", ["1"]), WriteStatus(500)][..1] == assign;
  }

  /** A first attempt that assigns "x-id" and ends in 500, and a second that only answers 200: the
      reply of the second carries the first one's header. */
  lemma {:induction false} FirstAttemptsHeaderInTheReply(h: Headers, script: Script, limit: int)
    requires script(0) == Call([AssignHeader("x-id", ["1"]), WriteStatus(500)], false)
    requires script(1) == Call([WriteStatus(STATUS_OK)], false)
    requires limit >= 2
    ensures Attempts(script, limit, 2)
    ensures "x-id" in HeaderAfterAttempts(h, script, 2) && HeaderAfterAttempts(h, script, 2)["x-id"] == ["1"]
    ensures "x-id" !in HeaderAfter(FIRST_HEADERS, script(1).actions)
  {
    hide IsCanonical, Cleared;
    XIdIsNotCanonical();
    AssignedThenFailed(Cleared(h));
    NonCanonicalHeaderLeaks(h, script, 1, 2, "x-id");
    NonCanonicalPresence(FIRST_HEADERS, script(1).actions, "x-id");
  }
}
