/** How one health-check reply is read (getLatestBlockNumber in modules/network.go) and what the
    health check makes of it. Hexadecimal parsing is library code: a text result arrives together
    with what the parser said about the digits behind its first two bytes. */
module LatestBlock {
  import opened Wrappers

  const MAX_INT64: int := 0x7FFF_FFFF_FFFF_FFFF
  const MIN_INT64: int := -0x8000_0000_0000_0000
  type int64 = x: int | MIN_INT64 <= x <= MAX_INT64

  /** 64-bit signed addition, which wraps around. */
  function Add64(a: int64, b: int64): int64 {
    var sum := a + b;
    if sum > MAX_INT64 then sum - 0x1_0000_0000_0000_0000
    else if sum < MIN_INT64 then sum + 0x1_0000_0000_0000_0000
    else sum
  }

  /** The sum is right up to a multiple of 2 to the 64, and is the sum itself if that fits. */
  lemma AddWraps(a: int64, b: int64)
    ensures exists k :: Add64(a, b) == a + b + k * 0x1_0000_0000_0000_0000
    ensures MIN_INT64 <= a + b <= MAX_INT64 ==> Add64(a, b) == a + b
  {
    var k := if a + b > MAX_INT64 then -1 else if a + b < MIN_INT64 then 1 else 0;
    assert Add64(a, b) == a + b + k * 0x1_0000_0000_0000_0000;
  }

  /** "0x". */
  const HEX_PREFIX: Bytes := [0x30, 0x78]

  /** The "result" member of the reply: the reply may not be a JSON object, or may lack the member. */
  datatype Result =
    | NotJson
    | Missing
    | Text(text: Bytes, parsed: Option<int64>)
    | Number(converted: int64)
    | OtherType

  datatype Reply = PostError | Reply(statusCode: int, result: Result)

  /** What the caller of getLatestBlockNumber gets: its three results, or a slice fault. */
  datatype Answer = Answer(block: int64, statusCode: int, err: bool)

  const STATUS_SERVICE_UNAVAILABLE := 503
  const STATUS_ORIGIN_UNREACHABLE := 523
  const STATUS_TOO_MANY_REQUESTS := 429

  /** None is the slice fault: the first two bytes are taken of a text of one byte. */
  function GetLatestBlockNumber(reply: Reply): Option<Answer> {
    match reply
    case PostError => Some(Answer(0, 0, true))
    case Reply(statusCode, result) =>
      if statusCode == STATUS_SERVICE_UNAVAILABLE || statusCode == STATUS_ORIGIN_UNREACHABLE then
        Some(Answer(0, statusCode, true))
      else
        match result
        case NotJson => Some(Answer(0, 0, true))
        case Missing => Some(Answer(0, 0, true))
        case OtherType => Some(Answer(0, 0, true))
        case Number(n) => Some(Answer(n, statusCode, false))
        case Text(text, parsed) =>
          if text == [] then Some(Answer(0, 0, true))
          else if |text| == 1 then None
          else if text[..2] != HEX_PREFIX then Some(Answer(0, 0, true))
          else match parsed
            case None => Some(Answer(0, 0, true))
            case Some(n) => Some(Answer(n, statusCode, false))
  }

  predicate Failed(a: Answer) {
    a.err || (a.statusCode > 399 && a.statusCode != STATUS_TOO_MANY_REQUESTS)
  }

  predicate RateLimited(a: Answer) {
    !a.err && a.statusCode == STATUS_TOO_MANY_REQUESTS
  }

  predicate Accepted(a: Answer) {
    !a.err && a.statusCode <= 399
  }

  /** The block number a reply carries, whatever its status code: an independent reading of the body. */
  predicate Carries(result: Result, block: int64) {
    || result == Number(block)
    || (result.Text? && |result.text| >= 2 && result.text[..2] == HEX_PREFIX && result.parsed == Some(block))
  }

  /** The reply ends up as an accepted answer with this block number. */
  predicate AcceptedAs(reply: Reply, block: int64) {
    var answer := GetLatestBlockNumber(reply);
    answer.Some? && Accepted(answer.value) && answer.value.block == block
  }

  /** A reply counts as rate limiting, or as an accepted answer, only if its body carries a block
      number; a 429 without one is an ordinary failure. Only a text of one byte faults. */
  lemma ReplyClassification(reply: Reply)
    ensures GetLatestBlockNumber(reply).None? <==>
              reply.Reply? && reply.result.Text? && |reply.result.text| == 1
              && reply.statusCode !in {503, 523}
    ensures forall block: int64 ::
              AcceptedAs(reply, block) <==>
              reply.Reply? && reply.statusCode <= 399 && Carries(reply.result, block)
    ensures (GetLatestBlockNumber(reply).Some? && RateLimited(GetLatestBlockNumber(reply).value)) <==>
            (reply.Reply? && reply.statusCode == 429
             && exists block: int64 :: Carries(reply.result, block))
    ensures GetLatestBlockNumber(reply).Some? ==>
              var a := GetLatestBlockNumber(reply).value;
              && (Failed(a) || RateLimited(a) || Accepted(a))
              && !(Failed(a) && RateLimited(a)) && !(Failed(a) && Accepted(a)) && !(RateLimited(a) && Accepted(a))
  {
    if reply.Reply? {
      match reply.result
      case Number(n) => assert Carries(reply.result, n);
      case Text(text, parsed) =>
        if |text| >= 2 && text[..2] == HEX_PREFIX && parsed.Some? { assert Carries(reply.result, parsed.value); }
      case _ =>
    }
  }

  /** What the caller is told: the reply's code with the block its body carries, or an error with block
      0, and with the code only if that is what was wrong. */
  lemma ReplyContents(reply: Reply)
    ensures GetLatestBlockNumber(reply).Some? ==>
              var a := GetLatestBlockNumber(reply).value;
              && (!a.err ==> reply.Reply? && a.statusCode == reply.statusCode && Carries(reply.result, a.block))
              && (a.err ==> a.block == 0)
              && (a.err && reply.Reply? && reply.statusCode in {503, 523} ==> a.statusCode == reply.statusCode)
              && (a.err && !(reply.Reply? && reply.statusCode in {503, 523}) ==> a.statusCode == 0)
  {
    if reply.Reply? && reply.result.Text? && |reply.result.text| >= 2 {
      assert reply.result.text[..2] == HEX_PREFIX || reply.result.text[..2] != HEX_PREFIX;
    }
  }
}
