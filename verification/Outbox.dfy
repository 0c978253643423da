/** The `federation_outbound_events` table: retry arithmetic and the SQL statements
    that claim and mark its rows. */
module Outbox {
  import opened Basics
  import opened SqlOrder
  import opened ErrorCode
  import opened Text

  const RETRY_BASE_MS: nat := 1_000
  const RETRY_MAX_MS: nat := 30_000
  const MAX_ATTEMPTS: int := 8
  const MAX_CLAIM: nat := 100

  const NO_PEER_CODE: string := Spelled("UNKNOWN_PEER_ENDPOINT")
  const BAD_BODY_CODE: string := Spelled("INVALID_EVENT_BODY")
  const TRANSPORT_CODE: string := Spelled("TRANSPORT_ERROR")
  const BAD_REQUEST_CODE: string := Spelled("INVALID_DELIVERY_REQUEST")

  // The same text, letter by letter, which keeps the solver from computing with it.
  function Spelled(text: string): string { seq(|text|, i requires 0 <= i < |text| => text[i]) }

  datatype Status = Pending | Sending | Sent | Failed | Dead

  datatype Row = Row(
    destination: string, eventId: string, status: Status, attempts: int,
    nextAttemptAt: Option<int>, lastError: Option<string>)

  type Table = map<int, Row>

  // ----- Retry arithmetic -------------------------------------------------------

  function Pow2(n: nat): nat { if n == 0 then 1 else 2 * Pow2(n - 1) }

  function RetryDelay(attempts: int): nat {
    Min(RETRY_BASE_MS * Pow2(Clamp(attempts, 0, 5)), RETRY_MAX_MS)
  }

  function NextRetryAt(now: int, attempts: int): int { SaturatingAdd(now, RetryDelay(attempts)) }

  lemma PowersUpToFive()
    ensures Pow2(0) == 1 && Pow2(1) == 2 && Pow2(2) == 4 && Pow2(3) == 8 && Pow2(4) == 16 && Pow2(5) == 32
  {
    assert Pow2(4) == 2 * Pow2(3);
  }

  // The delays in milliseconds.
  function DelayInMs(failures: nat): nat {
    if failures == 0 then 1_000 else if failures == 1 then 2_000 else if failures == 2 then 4_000
    else if failures == 3 then 8_000 else if failures == 4 then 16_000 else 30_000
  }

  /** For every attempt count the product fits, and the delay is 1, 2, 4, 8, 16, then
      30 seconds. */
  lemma RetryDelayTable(attempts: int)
    ensures RETRY_BASE_MS * Pow2(Clamp(attempts, 0, 5)) <= I64_MAX
    ensures RetryDelay(attempts) == DelayInMs(Max(attempts, 0))
  {
    PowersUpToFive();
    var shift := Clamp(attempts, 0, 5);
    assert shift == 0 || shift == 1 || shift == 2 || shift == 3 || shift == 4 || shift == 5;
  }

  /** On all `i64` clocks and `i32` counts: later attempts never wait less, the wait is
      between one and thirty seconds, and it is cut short only by the end of time. */
  lemma RetryWaits(now: int, fewer: int, more: int)
    requires IsI64(now) && IsI32(fewer) && IsI32(more) && fewer <= more
    ensures NextRetryAt(now, fewer) <= NextRetryAt(now, more)
    ensures IsI64(NextRetryAt(now, more))
    ensures NextRetryAt(now, more) < I64_MAX ==> 1_000 <= NextRetryAt(now, more) - now <= 30_000
    ensures NextRetryAt(now, more) < now + 1_000 ==> NextRetryAt(now, more) == I64_MAX
  {
    RetryDelayTable(fewer);
    RetryDelayTable(more);
  }

  datatype FailurePlan = FailurePlan(status: Status, attempts: int, nextAttemptAt: Option<int>, lastError: string)

  function NextAttempts(previous: int): int { Max(Min(previous + 1, I32_MAX), 1) }

  function NextFailurePlan(now: int, previous: int, error: string): FailurePlan {
    var attempts := NextAttempts(previous);
    var dead := attempts >= MAX_ATTEMPTS;
    FailurePlan(if dead then Dead else Failed, attempts,
                if dead then None else Some(NextRetryAt(now, previous)), Sanitized(error))
  }

  function DeadPlan(previous: int, error: string): FailurePlan {
    FailurePlan(Dead, NextAttempts(previous), None, Sanitized(error))
  }

  /** What is planned after a failure: another try after the delay for the attempts so far,
      and none after the eighth. */
  lemma FailurePlanTable(now: int, previous: int, error: string)
    requires 0 <= previous <= 7
    ensures var plan := NextFailurePlan(now, previous, error);
            && plan.attempts == previous + 1 && plan.lastError == Sanitized(error)
            && (previous < 7 ==> plan.status == Failed && plan.nextAttemptAt == Some(Min(now + DelayInMs(previous), I64_MAX)))
            && (previous == 7 ==> plan.status == Dead && plan.nextAttemptAt == None)
  {
    RetryDelayTable(previous);
  }

  // ----- Statements ---------------------------------------------------------------

  predicate Due(row: Row, now: int) {
    row.status in {Pending, Failed} && row.nextAttemptAt.Some? && row.nextAttemptAt.value <= now
  }

  function WithStatus(t: Table, ids: set<int>, status: Status): Table {
    map id | id in t :: if id in ids then t[id].(status := status) else t[id]
  }

  // `UPDATE ... WHERE id = $1`: nothing happens when the row is missing, and the
  // current status is not looked at.
  function MarkSent(t: Table, id: int): Table {
    if id in t then t[id := t[id].(status := Sent)] else t
  }

  function Record(t: Table, id: int, plan: FailurePlan): Table {
    if id in t then
      t[id := t[id].(status := plan.status, attempts := plan.attempts,
                     nextAttemptAt := plan.nextAttemptAt, lastError := Some(plan.lastError))]
    else t
  }

  predicate Conflicts(t: Table, destination: string, eventId: string) {
    exists id :: id in t && t[id].destination == destination && t[id].eventId == eventId
  }

  function Enqueued(destination: string, eventId: string, now: int): Row {
    Row(destination, eventId, Pending, 0, Some(now), None)
  }

  // ----- Delivery outcomes ----------------------------------------------------------

  datatype Disposition = Delivered | Retryable(code: string) | Permanent(code: string)

  datatype Answer = Response(status: nat) | TransportError | InvalidRequest

  predicate RetryableStatus(status: nat) { 500 <= status < 600 || status in {408, 409, 425, 429} }

  function HttpCode(status: nat): string { "HTTP_" + Decimal(status) }

  function DispositionOf(answer: Answer): Disposition {
    match answer
    case Response(status) =>
      if 200 <= status < 300 then Delivered
      else if RetryableStatus(status) then Retryable(HttpCode(status))
      else Permanent(HttpCode(status))
    case TransportError => Retryable(TRANSPORT_CODE)
    case InvalidRequest => Permanent(BAD_REQUEST_CODE)
  }

  lemma SpelledIsTheText(text: string)
    ensures Spelled(text) == text
  {
  }

  /** Which answers count as delivered, which are worth another try, and the codes of the
      others. */
  lemma AnswersSorted(answer: Answer)
    ensures DispositionOf(answer).Delivered? <==> answer.Response? && 200 <= answer.status <= 299
    ensures DispositionOf(answer).Retryable? <==>
            answer.TransportError?
            || (answer.Response? && (500 <= answer.status <= 599 || answer.status == 408 || answer.status == 409
                                     || answer.status == 425 || answer.status == 429))
    ensures DispositionOf(answer).Retryable? ==>
            DispositionOf(answer).code == if answer.Response? then "HTTP_" + Decimal(answer.status) else "TRANSPORT_ERROR"
    ensures DispositionOf(answer).Permanent? ==>
            DispositionOf(answer).code ==
            if answer.Response? then "HTTP_" + Decimal(answer.status) else "INVALID_DELIVERY_REQUEST"
  {
    SpelledIsTheText("TRANSPORT_ERROR");
    SpelledIsTheText("INVALID_DELIVERY_REQUEST");
  }

  lemma FixedCodesAreWellFormed()
    ensures WellFormed(NO_PEER_CODE) && WellFormed(BAD_BODY_CODE)
    ensures WellFormed(TRANSPORT_CODE) && WellFormed(BAD_REQUEST_CODE)
  {
  }

  lemma FixedCodesAreKept()
    ensures Sanitized(NO_PEER_CODE) == NO_PEER_CODE && Sanitized(BAD_BODY_CODE) == BAD_BODY_CODE
    ensures Sanitized(TRANSPORT_CODE) == TRANSPORT_CODE && Sanitized(BAD_REQUEST_CODE) == BAD_REQUEST_CODE
  {
    FixedCodesAreWellFormed();
    KeptAsItIs(NO_PEER_CODE);
    KeptAsItIs(BAD_BODY_CODE);
    KeptAsItIs(TRANSPORT_CODE);
    KeptAsItIs(BAD_REQUEST_CODE);
  }

  lemma NoPeerCodeIsKept()
    ensures Sanitized(NO_PEER_CODE) == NO_PEER_CODE
  {
    FixedCodesAreKept();
  }

  lemma BadBodyCodeIsKept()
    ensures Sanitized(BAD_BODY_CODE) == BAD_BODY_CODE
  {
    FixedCodesAreKept();
  }

  lemma KeptAsItIs(code: string)
    requires WellFormed(code)
    ensures Sanitized(code) == code
  {
    WellFormedIffFixed(code);
  }

  lemma {:induction false} ThreeDigits(status: nat)
    requires 100 <= status <= 999
    ensures |Decimal(status)| == 3
  {
    assert |Decimal(status / 100)| == 1;
    assert |Decimal(status / 10)| == 2;
  }

  lemma StatusCodesAreKept(status: nat)
    requires 100 <= status <= 999
    ensures Sanitized(HttpCode(status)) == HttpCode(status)
  {
    ThreeDigits(status);
    WellFormedIffFixed(HttpCode(status));
  }

  function CodeOf(d: Disposition): Option<string> {
    match d
    case Delivered => None
    case Retryable(code) => Some(code)
    case Permanent(code) => Some(code)
  }

  lemma AnswersCode(answer: Answer)
    ensures CodeOf(DispositionOf(answer)) in {None, Some(TRANSPORT_CODE), Some(BAD_REQUEST_CODE)}
            || (answer.Response? && CodeOf(DispositionOf(answer)) == Some(HttpCode(answer.status)))
  {
  }

  /** Every code a dispatcher records is recorded as it is. */
  lemma CodesAreKept(answer: Answer)
    requires answer.Response? ==> 100 <= answer.status <= 999
    ensures CodeOf(DispositionOf(answer)).Some? ==>
            Sanitized(CodeOf(DispositionOf(answer)).value) == CodeOf(DispositionOf(answer)).value
  {
    AnswersCode(answer);
    FixedCodesAreKept();
    if answer.Response? {
      StatusCodesAreKept(answer.status);
    }
  }

  /** The statement a dispatcher issues once it knows how delivery went. */
  function Settle(t: Table, id: int, now: int, previous: int, d: Disposition): Table {
    match d
    case Delivered => MarkSent(t, id)
    case Retryable(code) => Record(t, id, NextFailurePlan(now, previous, code))
    case Permanent(code) => Record(t, id, DeadPlan(previous, code))
  }
}
