/** What the retry machinery promises a queued event: which row each outcome leaves, that a
    failed row is tried again, when, and how long that can go on. */
module Retries {
  import opened Basics
  import opened ErrorCode
  import opened Outbox
  import opened Dispatchers
  import opened DispatchCycle

  // ----- One row -----------------------------------------------------------------------

  /** A row after its next failure; `again` says whether another try could help. */
  function Failing(row: Row, now: int, again: bool, code: string): Row {
    if again && row.attempts < 7
    then row.(status := Failed, attempts := row.attempts + 1, lastError := Some(code),
              nextAttemptAt := Some(Min(now + DelayInMs(Max(row.attempts, 0)), I64_MAX)))
    else row.(status := Dead, attempts := row.attempts + 1, lastError := Some(code), nextAttemptAt := None)
  }

  predicate WorthRetrying(answer: Answer) {
    match answer
    case Response(status) =>
      500 <= status <= 599 || status == 408 || status == 409 || status == 425 || status == 429
    case TransportError => true
    case InvalidRequest => false
  }

  predicate Success(answer: Answer) { answer.Response? && 200 <= answer.status <= 299 }

  function AnswerCode(answer: Answer): string {
    match answer
    case Response(status) => HttpCode(status)
    case TransportError => TRANSPORT_CODE
    case InvalidRequest => BAD_REQUEST_CODE
  }

  function RowAfterFate(row: Row, now: int, fate: Fate): Row {
    match fate
    case NoPeer(true) => Failing(row, now, true, NO_PEER_CODE)
    case BadBody(true) => Failing(row, now, false, BAD_BODY_CODE)
    case Answers(answer, true) =>
      if Success(answer) then row.(status := Sent) else Failing(row, now, WorthRetrying(answer), AnswerCode(answer))
    case _ => row
  }

  predicate Sensible(fate: Fate) { fate.Answers? && fate.answer.Response? ==> 100 <= fate.answer.status <= 999 }

  lemma AnswerCodeIsKept(answer: Answer)
    requires answer.Response? ==> 100 <= answer.status <= 999
    ensures Sanitized(AnswerCode(answer)) == AnswerCode(answer)
  {
    FixedCodesAreKept();
    if answer.Response? {
      StatusCodesAreKept(answer.status);
    }
  }

  lemma AnswerIsSorted(answer: Answer)
    ensures DispositionOf(answer) ==
            if Success(answer) then Delivered
            else if WorthRetrying(answer) then Retryable(AnswerCode(answer)) else Permanent(AnswerCode(answer))
  {
    AnswersSorted(answer);
  }

  // A plan that says what `Failing` does.
  predicate PlansFailure(plan: FailurePlan, previous: int, now: int, again: bool, code: string) {
    plan.attempts == previous + 1 && plan.lastError == code
    && if again && previous < 7 then plan.status == Failed
            && plan.nextAttemptAt == Some(Min(now + DelayInMs(Max(previous, 0)), I64_MAX))
       else plan.status == Dead && plan.nextAttemptAt == None
  }

  lemma RecordedFailure(t: Table, id: int, plan: FailurePlan, now: int, again: bool, code: string)
    requires id in t && PlansFailure(plan, t[id].attempts, now, again, code)
    ensures Record(t, id, plan) == t[id := Failing(t[id], now, again, code)]
  {
  }

  lemma NextPlanRetries(now: int, previous: int, code: string)
    requires 0 <= previous <= 7 && Sanitized(code) == code
    ensures PlansFailure(NextFailurePlan(now, previous, code), previous, now, true, code)
  {
    FailurePlanTable(now, previous, code);
  }

  lemma DeadPlanEnds(now: int, previous: int, code: string)
    requires 0 <= previous <= 7 && Sanitized(code) == code
    ensures PlansFailure(DeadPlan(previous, code), previous, now, false, code)
  {
  }

  lemma FailingRow(t: Table, id: int, now: int, code: string)
    requires id in t && 0 <= t[id].attempts <= 7 && Sanitized(code) == code
    ensures Record(t, id, NextFailurePlan(now, t[id].attempts, code)) == t[id := Failing(t[id], now, true, code)]
  {
    NextPlanRetries(now, t[id].attempts, code);
    RecordedFailure(t, id, NextFailurePlan(now, t[id].attempts, code), now, true, code);
  }

  lemma DyingRow(t: Table, id: int, now: int, code: string)
    requires id in t && 0 <= t[id].attempts <= 7 && Sanitized(code) == code
    ensures Record(t, id, DeadPlan(t[id].attempts, code)) == t[id := Failing(t[id], now, false, code)]
  {
    DeadPlanEnds(now, t[id].attempts, code);
    RecordedFailure(t, id, DeadPlan(t[id].attempts, code), now, false, code);
  }

  /** For every outcome: the row it leaves. A row is retried for an unknown peer, a failed
      transport, and the answers 408, 409, 425, 429 and 5xx; seven failures are retried, the
      eighth is final. */
  lemma EffectOnTheRow(t: Table, e: Claimed, now: int, fate: Fate)
    requires e.id in t && t[e.id].attempts == e.attempts && 0 <= e.attempts <= 7 && Sensible(fate)
    ensures EffectOf(t, e, now, fate) == t[e.id := RowAfterFate(t[e.id], now, fate)]
  {
    match fate
    case LookupFails => assert t == t[e.id := t[e.id]];
    case NoPeer(recorded) => EffectWithoutPeer(t, e, now, recorded);
    case BadBody(recorded) => EffectOfBadBody(t, e, now, recorded);
    case Answers(answer, recorded) => EffectOfAnswer(t, e, now, answer, recorded);
  }

  lemma EffectWithoutPeer(t: Table, e: Claimed, now: int, recorded: bool)
    requires e.id in t && t[e.id].attempts == e.attempts && 0 <= e.attempts <= 7
    ensures EffectOf(t, e, now, NoPeer(recorded)) == t[e.id := RowAfterFate(t[e.id], now, NoPeer(recorded))]
  {
    if recorded {
      NoPeerCodeIsKept();
      FailingRow(t, e.id, now, NO_PEER_CODE);
    } else {
      assert t == t[e.id := t[e.id]];
    }
  }

  lemma EffectOfBadBody(t: Table, e: Claimed, now: int, recorded: bool)
    requires e.id in t && t[e.id].attempts == e.attempts && 0 <= e.attempts <= 7
    ensures EffectOf(t, e, now, BadBody(recorded)) == t[e.id := RowAfterFate(t[e.id], now, BadBody(recorded))]
  {
    if recorded {
      BadBodyCodeIsKept();
      DyingRow(t, e.id, now, BAD_BODY_CODE);
    } else {
      assert t == t[e.id := t[e.id]];
    }
  }

  lemma EffectOfAnswer(t: Table, e: Claimed, now: int, answer: Answer, recorded: bool)
    requires e.id in t && t[e.id].attempts == e.attempts && 0 <= e.attempts <= 7 && Sensible(Answers(answer, recorded))
    ensures EffectOf(t, e, now, Answers(answer, recorded)) ==
            t[e.id := RowAfterFate(t[e.id], now, Answers(answer, recorded))]
  {
    if recorded {
      AnswerIsSorted(answer);
      AnswerCodeIsKept(answer);
      SettledIs(t, e, now, answer, AnswerCode(answer));
    } else {
      assert t == t[e.id := t[e.id]];
    }
  }

  lemma SettledIs(t: Table, e: Claimed, now: int, answer: Answer, code: string)
    requires e.id in t && t[e.id].attempts == e.attempts && 0 <= e.attempts <= 7 && Sanitized(code) == code
    requires DispositionOf(answer) ==
             if Success(answer) then Delivered else if WorthRetrying(answer) then Retryable(code) else Permanent(code)
    ensures Settle(t, e.id, now, e.attempts, DispositionOf(answer)) ==
            t[e.id := if Success(answer) then t[e.id].(status := Sent)
                      else Failing(t[e.id], now, WorthRetrying(answer), code)]
  {
    if Success(answer) {
    } else if WorthRetrying(answer) {
      FailingRow(t, e.id, now, code);
    } else {
      DyingRow(t, e.id, now, code);
    }
  }

  // What a reported outcome says of the row it was reported for.
  predicate Describes(outcome: Result<Disposition, CycleError>, before: Row, after: Row) {
    match outcome
    case Ok(Delivered) => after.status == Sent
    case Ok(Retryable(code)) => after.status == Failed && after.lastError == Some(code)
    case Ok(Permanent(code)) => after.status == Dead && after.lastError == Some(code)
    case Err(InvalidBody) => after.status == Dead && after.lastError == Some(BAD_BODY_CODE)
    case Err(Storage) => after == before
  }

  lemma RetryIsDescribed(row: Row, now: int, code: string)
    requires 0 <= row.attempts <= 7 && Sanitized(code) == code
    ensures Describes(Ok(AfterPlan(NextFailurePlan(now, row.attempts, code))), row, Failing(row, now, true, code))
    ensures Describes(Ok(Reported(Retryable(code), now, row.attempts)), row, Failing(row, now, true, code))
  {
    FailurePlanTable(now, row.attempts, code);
  }

  lemma AnswerIsDescribed(row: Row, id: int, now: int, answer: Answer, recorded: bool)
    requires 0 <= row.attempts <= 7 && Sensible(Answers(answer, recorded))
    ensures Describes(OutcomeOf(Claimed(id, row.attempts), now, Answers(answer, recorded)), row,
                      RowAfterFate(row, now, Answers(answer, recorded)))
  {
    AnswerIsSorted(answer);
    if recorded && !Success(answer) && WorthRetrying(answer) {
      AnswerCodeIsKept(answer);
      RetryIsDescribed(row, now, AnswerCode(answer));
    }
  }

  /** The outcome reported for a row says what became of it, code included; an error means
      it was left alone, except for a row whose body was bad. */
  lemma OutcomeNamesTheRow(row: Row, id: int, now: int, fate: Fate)
    requires 0 <= row.attempts <= 7 && row.status == Sending && Sensible(fate)
    ensures Describes(OutcomeOf(Claimed(id, row.attempts), now, fate), row, RowAfterFate(row, now, fate))
  {
    match fate
    case LookupFails =>
    case BadBody(_) =>
    case NoPeer(recorded) =>
      if recorded {
        NoPeerCodeIsKept();
        RetryIsDescribed(row, now, NO_PEER_CODE);
      }
    case Answers(answer, recorded) => AnswerIsDescribed(row, id, now, answer, recorded);
  }

  // ----- A failed row is tried again -------------------------------------------------------

  lemma FailedRowWaits(row: Row, h: History)
    requires RowOk(row, h) && row.status == Failed
    ensures 1 <= |h.claims| == h.failures == row.attempts <= 7
    ensures row.nextAttemptAt == Some(Min(h.claims[|h.claims| - 1] + DelayInMs(h.failures - 1), I64_MAX))
  {
    RetryDelayTable(h.failures - 1);
  }

  /** In every run a failed row waits out the delay its failures earned, counted from its
      latest claim, and then a claim takes it as soon as the batch has room for it. */
  lemma FailedRowIsTriedAgain(run: seq<Action>, id: int, now: int, limit: int)
    requires Legal(run) && id in After(run).table && After(run).table[id].status == Failed
    ensures var row, h := After(run).table[id], After(run).Past(id);
            && 1 <= |h.claims| == h.failures == row.attempts <= 7
            && row.nextAttemptAt == Some(Min(h.claims[|h.claims| - 1] + DelayInMs(h.failures - 1), I64_MAX))
            && (id in ClaimOrder(After(run).table, now, limit) <==>
                  row.nextAttemptAt.value <= now && |Ahead(After(run).table, id)| < Max(1, Min(limit, 100)))
  {
    RunKeepsInv(run);
    FailedRowWaits(After(run).table[id], After(run).Past(id));
    ClaimedIff(After(run).table, now, limit, id);
  }

  /** And so it is with a row that was never tried, from the time it was enqueued with. */
  lemma PendingRowIsTried(run: seq<Action>, id: int, now: int, limit: int)
    requires Legal(run) && id in After(run).table && After(run).table[id].status == Pending
    ensures var row := After(run).table[id];
            && row.nextAttemptAt.Some? && row.attempts == 0 && After(run).Past(id).claims == []
            && (id in ClaimOrder(After(run).table, now, limit) <==>
                  row.nextAttemptAt.value <= now && |Ahead(After(run).table, id)| < Max(1, Min(limit, 100)))
  {
    RunKeepsInv(run);
    assert RowOk(After(run).table[id], After(run).Past(id));
    ClaimedIff(After(run).table, now, limit, id);
  }

  /** A newly enqueued event waits in a row of its own, due from the time of the enqueuing. */
  lemma EnqueuedRowWaits(s: State, id: int, destination: string, eventId: string, at: int, other: int)
    requires Enabled(s, Enqueue(id, destination, eventId, at))
    ensures id !in s.table
    ensures Apply(s, Enqueue(id, destination, eventId, at)).table
            == s.table[id := Row(destination, eventId, Pending, 0, Some(at), None)]
    ensures other in s.table ==> s.table[other].destination != destination || s.table[other].eventId != eventId
  {
  }

  // The failures a dispatcher records with another try in mind.
  predicate Retries(s: State, a: Action, w: nat)
    requires Enabled(s, a)
  {
    a == PeerUnknown(w) || (a == Settled(w) && s.cycles[w].phase.disposition.Retryable?)
  }

  function RetriedCode(s: State, a: Action, w: nat): string
    requires Enabled(s, a) && Retries(s, a, w)
  {
    if a.PeerUnknown? then NO_PEER_CODE else s.cycles[w].phase.disposition.code
  }

  // The row such a failure leaves.
  lemma RetryRow(s: State, a: Action, w: nat)
    requires Enabled(s, a) && Retries(s, a, w) && HasHead(s, w)
    ensures var c, head := s.cycles[w], s.cycles[w].batch[0];
            && head.id in Apply(s, a).table
            && Apply(s, a).table[head.id] ==
               WithPlan(s.table[head.id], NextFailurePlan(c.now, head.attempts, RetriedCode(s, a, w)))
  {
    HeadActionTable(s, a, w);
  }

  /** Recording a retryable failure makes the row fail, to be tried again after the delay
      for the failures before it, unless it was the eighth. */
  lemma RetryableFailureIsPlanned(run: seq<Action>, a: Action, w: nat)
    requires Legal(run) && Enabled(After(run), a) && Retries(After(run), a, w)
    ensures HasHead(After(run), w)
    ensures var s := After(run);
            Planned(s.table[s.cycles[w].batch[0].id], Apply(s, a).table[s.cycles[w].batch[0].id], s.cycles[w].now)
  {
    RunKeepsInv(run);
    var s := After(run);
    HeadRow(s, w);
    RetryRow(s, a, w);
    HeldRowCounts(s.table[s.cycles[w].batch[0].id], s.Past(s.cycles[w].batch[0].id));
    PlannedRow(s.table[s.cycles[w].batch[0].id], s.cycles[w].now, RetriedCode(s, a, w));
  }

  predicate Planned(before: Row, after: Row, now: int) {
    && 0 <= before.attempts <= 7 && after.attempts == before.attempts + 1
    && (before.attempts < 7 ==>
          after.status == Failed && after.nextAttemptAt == Some(Min(now + DelayInMs(before.attempts), I64_MAX)))
    && (before.attempts == 7 ==> after.status == Dead && after.nextAttemptAt == None)
  }

  lemma HeldRowCounts(row: Row, h: History)
    requires RowOk(row, h) && row.status == Sending
    ensures 0 <= row.attempts <= 7
  {
  }

  lemma PlannedRow(row: Row, now: int, code: string)
    requires 0 <= row.attempts <= 7
    ensures Planned(row, WithPlan(row, NextFailurePlan(now, row.attempts, code)), now)
  {
    FailurePlanTable(now, row.attempts, code);
  }

  // ----- Eight tries, ninety-one seconds ------------------------------------------------------

  function Round(now: int, answer: Answer): seq<Action> { [Claim(0, now, [1]), Post(0, answer), Settled(0), Stop(0)] }

  /** Row 1 waits for its next try, `claims` being the earlier ones, all failed. */
  ghost predicate Waiting(s: State, claims: seq<int>, time: int) {
    && s.cycles == map[] && 1 in s.table && Due(s.table[1], time) && s.table[1].attempts == |claims|
    && s.Past(1) == History(claims, |claims|, |claims|)
  }

  ghost predicate Tried(s: State, claims: seq<int>, time: int) {
    var n := |claims|;
    && s.cycles == map[] && 1 in s.table && s.Past(1) == History(claims + [time], n + 1, n + 1)
    && s.table[1].attempts == n + 1
    && (n < 7 ==> s.table[1].status == Failed && s.table[1].nextAttemptAt == Some(time + DelayInMs(n)))
    && (n == 7 ==> s.table[1].status == Dead)
  }

  lemma ClaimStep(s: State, claims: seq<int>, time: int)
    requires Waiting(s, claims, time) && IsI64(time)
    ensures Enabled(s, Claim(0, time, [1]))
    ensures var t := Apply(s, Claim(0, time, [1]));
            && t.cycles == map[0 := Cycle(time, [Claimed(1, |claims|)], Ready)] && 1 in t.table
            && t.table[1].attempts == |claims|
            && t.Past(1) == History(claims + [time], |claims|, |claims|)
  {
    var a := Claim(0, time, [1]);
    LogGrows(s, Apply(s, a), NoteOf(s, a), 1);
    assert 1 in [1];
    assert Batch(s.table, [1]) == [Claimed(1, |claims|)];
  }

  lemma PostStep(s: State, time: int, n: nat, h: History, answer: Answer)
    requires s.cycles == map[0 := Cycle(time, [Claimed(1, n)], Ready)] && 1 in s.table && s.Past(1) == h
    ensures Enabled(s, Post(0, answer))
    ensures var t := Apply(s, Post(0, answer));
            && t.cycles == map[0 := Cycle(time, [Claimed(1, n)], Answered(DispositionOf(answer)))]
            && t.table == s.table && t.Past(1) == h.(posts := h.posts + 1)
  {
    var a := Post(0, answer);
    LogGrows(s, Apply(s, a), NoteOf(s, a), 1);
  }

  lemma SettleStep(s: State, time: int, n: nat, h: History, code: string)
    requires s.cycles == map[0 := Cycle(time, [Claimed(1, n)], Answered(Retryable(code)))]
    requires 1 in s.table && s.table[1].attempts == n && s.Past(1) == h && n <= 7
    ensures Enabled(s, Settled(0))
    ensures var t := Apply(s, Settled(0));
            && t.cycles == map[0 := Cycle(time, [], Ready)] && 1 in t.table && Planned(s.table[1], t.table[1], time)
            && t.Past(1) == h.(failures := h.failures + 1)
  {
    SettledLetsGo(s, time, n, code);
    RetryRow(s, Settled(0), 0);
    PlannedRow(s.table[1], time, code);
    LogGrows(s, Apply(s, Settled(0)), Failure(1), 1);
  }

  lemma SettledLetsGo(s: State, time: int, n: nat, code: string)
    requires s.cycles == map[0 := Cycle(time, [Claimed(1, n)], Answered(Retryable(code)))]
    ensures Enabled(s, Settled(0)) && CyclesAfter(s, Settled(0)) == map[0 := Cycle(time, [], Ready)]
    ensures NoteOf(s, Settled(0)) == Failure(1)
  {
    assert [Claimed(1, n)][1..] == [];
  }

  lemma StopStep(s: State, time: int)
    requires s.cycles == map[0 := Cycle(time, [], Ready)]
    ensures Enabled(s, Stop(0)) && Apply(s, Stop(0)).cycles == map[] && Apply(s, Stop(0)).table == s.table
    ensures Apply(s, Stop(0)).Past(1) == s.Past(1)
  {
    LogGrows(s, Apply(s, Stop(0)), NoteOf(s, Stop(0)), 1);
  }

  // Worker 0 holds row 1 alone.
  ghost predicate HoldsRowOne(s: State, time: int, n: nat, phase: Phase, h: History) {
    s.cycles == map[0 := Cycle(time, [Claimed(1, n)], phase)] && 1 in s.table && s.table[1].attempts == n
    && s.Past(1) == h
  }

  lemma ClaimTaken(run: seq<Action>, claims: seq<int>, time: int)
    requires Legal(run) && Waiting(After(run), claims, time) && IsI64(time)
    ensures Legal(run + [Claim(0, time, [1])])
    ensures HoldsRowOne(After(run + [Claim(0, time, [1])]), time, |claims|, Ready,
                        History(claims + [time], |claims|, |claims|))
  {
    ClaimStep(After(run), claims, time);
    OneMore(run, Claim(0, time, [1]));
  }

  /** One failed try. */
  lemma OneRound(run: seq<Action>, claims: seq<int>, time: int, answer: Answer)
    requires Legal(run) && Waiting(After(run), claims, time) && |claims| <= 7 && 0 <= time <= 1_000_000
    requires DispositionOf(answer).Retryable?
    ensures Legal(run + Round(time, answer)) && Tried(After(run + Round(time, answer)), claims, time)
  {
    ClaimTaken(run, claims, time);
    AfterTheClaim(run + [Claim(0, time, [1])], claims, time, answer);
    assert run + Round(time, answer) == run + [Claim(0, time, [1])] + [Post(0, answer), Settled(0), Stop(0)];
  }

  lemma AfterTheClaim(run: seq<Action>, claims: seq<int>, time: int, answer: Answer)
    requires Legal(run) && DispositionOf(answer).Retryable? && |claims| <= 7 && 0 <= time <= 1_000_000
    requires HoldsRowOne(After(run), time, |claims|, Ready, History(claims + [time], |claims|, |claims|))
    ensures var longer := run + [Post(0, answer), Settled(0), Stop(0)];
            Legal(longer) && Tried(After(longer), claims, time)
  {
    PostStep(After(run), time, |claims|, After(run).Past(1), answer);
    OneMore(run, Post(0, answer));
    var d := DispositionOf(answer);
    AfterThePost(run + [Post(0, answer)], claims, time, d.code);
    assert run + [Post(0, answer), Settled(0), Stop(0)] == run + [Post(0, answer)] + [Settled(0), Stop(0)];
  }

  // What recording the answer leaves, with the worker idle again.
  ghost predicate Recorded(s: State, time: int, claims: seq<int>) {
    s.cycles == map[0 := Cycle(time, [], Ready)] && 1 in s.table && s.table[1].attempts == |claims| + 1
    && s.Past(1) == History(claims + [time], |claims| + 1, |claims| + 1)
    && (|claims| < 7 ==> s.table[1].status == Failed && s.table[1].nextAttemptAt == Some(time + DelayInMs(|claims|)))
    && (|claims| == 7 ==> s.table[1].status == Dead)
  }

  lemma AnswerRecorded(run: seq<Action>, claims: seq<int>, time: int, code: string)
    requires Legal(run) && |claims| <= 7 && 0 <= time <= 1_000_000
    requires HoldsRowOne(After(run), time, |claims|, Answered(Retryable(code)),
                         History(claims + [time], |claims| + 1, |claims|))
    ensures Legal(run + [Settled(0)]) && Recorded(After(run + [Settled(0)]), time, claims)
  {
    SettleStep(After(run), time, |claims|, After(run).Past(1), code);
    OneMore(run, Settled(0));
  }

  lemma AfterThePost(run: seq<Action>, claims: seq<int>, time: int, code: string)
    requires Legal(run) && |claims| <= 7 && 0 <= time <= 1_000_000
    requires HoldsRowOne(After(run), time, |claims|, Answered(Retryable(code)),
                         History(claims + [time], |claims| + 1, |claims|))
    ensures var longer := run + [Settled(0), Stop(0)]; Legal(longer) && Tried(After(longer), claims, time)
  {
    AnswerRecorded(run, claims, time, code);
    var settled := run + [Settled(0)];
    StopStep(After(settled), time);
    OneMore(settled, Stop(0));
    assert run + [Settled(0), Stop(0)] == settled + [Stop(0)];
  }

  const RETRY_TIMES: seq<int> := [0, 1_000, 3_000, 7_000, 15_000, 31_000, 61_000, 91_000]

  lemma FirstEnqueued() returns (run: seq<Action>)
    ensures Legal(run) && Waiting(After(run), [], 0)
  {
    var a := Enqueue(1, "b.example", "e", 0);
    OneMore([], a);
    LogGrows(EMPTY, Apply(EMPTY, a), Other, 1);
    run := [] + [a];
  }

  lemma AnotherTry(run: seq<Action>, n: nat, answer: Answer)
    requires n < 7 && DispositionOf(answer).Retryable?
    requires Legal(run) && Waiting(After(run), RETRY_TIMES[..n], RETRY_TIMES[n])
    ensures var longer := run + Round(RETRY_TIMES[n], answer);
            Legal(longer) && Waiting(After(longer), RETRY_TIMES[..n + 1], RETRY_TIMES[n + 1])
  {
    OneRound(run, RETRY_TIMES[..n], RETRY_TIMES[n], answer);
    assert RETRY_TIMES[..n + 1] == RETRY_TIMES[..n] + [RETRY_TIMES[n]];
  }

  lemma {:induction false} FailedTries(n: nat, answer: Answer) returns (run: seq<Action>)
    requires n <= 7 && DispositionOf(answer).Retryable?
    ensures Legal(run) && Waiting(After(run), RETRY_TIMES[..n], RETRY_TIMES[n])
  {
    if n == 0 {
      run := FirstEnqueued();
    } else {
      var before := FailedTries(n - 1, answer);
      AnotherTry(before, n - 1, answer);
      run := before + Round(RETRY_TIMES[n - 1], answer);
    }
  }

  /** The bounds are met, whatever retryable answer keeps coming: a run in which one row is
      claimed and posted eight times, the eighth claim exactly 91 seconds after the first,
      and is given up after that. */
  lemma EightPostsFit(answer: Answer) returns (run: seq<Action>)
    requires WorthRetrying(answer)
    ensures Legal(run) && 1 in After(run).table
    ensures After(run).table[1].status == Dead && After(run).table[1].attempts == 8
    ensures After(run).Past(1).posts == 8 && |After(run).Past(1).claims| == 8
    ensures After(run).Past(1).claims[7] - After(run).Past(1).claims[0] == 91_000
  {
    AnswerIsSorted(answer);
    var before := FailedTries(7, answer);
    OneRound(before, RETRY_TIMES[..7], RETRY_TIMES[7], answer);
    run := before + Round(RETRY_TIMES[7], answer);
  }
}
