/** Every interleaving of any number of outbox dispatchers.

    A dispatcher claims a batch, then settles its rows one by one: look up the peer,
    check the body, post, record the answer. It may stop for good between any two of
    these actions (crash, storage error, early return), leaving its rows in `Sending`.
    Clocks of different dispatchers are unrelated. */
module Dispatchers {
  import opened Basics
  import opened ErrorCode
  import opened Outbox

  datatype Claimed = Claimed(id: int, attempts: int)

  datatype Phase = Ready | Answered(disposition: Disposition)

  // The claimed rows not yet settled; the first one is being worked on.
  datatype Cycle = Cycle(now: int, batch: seq<Claimed>, phase: Phase)

  datatype Event = Claims(ids: set<int>, now: int) | Posted(id: int) | Failure(id: int) | Other

  datatype State = State(table: Table, cycles: map<nat, Cycle>, log: seq<Event>) {
    function Past(id: int): History { HistoryOf(log, id) }
  }

  datatype Action =
    | Enqueue(id: int, destination: string, eventId: string, at: int)
    | Claim(worker: nat, now: int, ids: seq<int>)
    | PeerUnknown(worker: nat)
    | BodyInvalid(worker: nat)
    | Post(worker: nat, answer: Answer)
    | Settled(worker: nat)
    | Stop(worker: nat)

  predicate Working(s: State, w: nat, phase: bool) {
    w in s.cycles && s.cycles[w].batch != [] && s.cycles[w].phase.Answered? == phase
  }

  predicate Distinct(ids: seq<int>) { forall i, j :: 0 <= i < j < |ids| ==> ids[i] != ids[j] }

  // `SKIP LOCKED` lets a claim pass over rows another claim is looking at, so any
  // choice of due rows within the limit is possible.
  predicate Enabled(s: State, a: Action) {
    match a
    case Enqueue(id, destination, eventId, at) => id !in s.table && !Conflicts(s.table, destination, eventId)
    case Claim(w, now, ids) =>
      w !in s.cycles && IsI64(now) && |ids| <= MAX_CLAIM && Distinct(ids)
      && forall i :: 0 <= i < |ids| ==> ids[i] in s.table && Due(s.table[ids[i]], now)
    case PeerUnknown(w) => Working(s, w, false)
    case BodyInvalid(w) => Working(s, w, false)
    case Post(w, _) => Working(s, w, false)
    case Settled(w) => Working(s, w, true)
    case Stop(w) => w in s.cycles
  }

  function Batch(t: Table, ids: seq<int>): seq<Claimed>
    requires forall i :: 0 <= i < |ids| ==> ids[i] in t
  {
    seq(|ids|, i requires 0 <= i < |ids| => Claimed(ids[i], t[ids[i]].attempts))
  }

  function Advance(c: Cycle): Cycle
    requires c.batch != []
  {
    Cycle(c.now, c.batch[1..], Ready)
  }

  function TableAfter(s: State, a: Action): Table
    requires Enabled(s, a)
  {
    match a
    case Enqueue(id, destination, eventId, at) => s.table[id := Enqueued(destination, eventId, at)]
    case Claim(_, _, ids) => WithStatus(s.table, (set id | id in ids), Sending)
    case PeerUnknown(w) =>
      var c, head := s.cycles[w], s.cycles[w].batch[0];
      Record(s.table, head.id, NextFailurePlan(c.now, head.attempts, NO_PEER_CODE))
    case BodyInvalid(w) =>
      var head := s.cycles[w].batch[0];
      Record(s.table, head.id, DeadPlan(head.attempts, BAD_BODY_CODE))
    case Settled(w) =>
      var c, head := s.cycles[w], s.cycles[w].batch[0];
      Settle(s.table, head.id, c.now, head.attempts, c.phase.disposition)
    case Post(_, _) => s.table
    case Stop(_) => s.table
  }

  function CyclesAfter(s: State, a: Action): map<nat, Cycle>
    requires Enabled(s, a)
  {
    match a
    case Enqueue(_, _, _, _) => s.cycles
    case Claim(w, now, ids) => s.cycles[w := Cycle(now, Batch(s.table, ids), Ready)]
    case PeerUnknown(w) => s.cycles[w := Advance(s.cycles[w])]
    case BodyInvalid(w) => s.cycles - {w}
    case Settled(w) => s.cycles[w := Advance(s.cycles[w])]
    case Post(w, answer) => s.cycles[w := s.cycles[w].(phase := Answered(DispositionOf(answer)))]
    case Stop(w) => s.cycles - {w}
  }

  function NoteOf(s: State, a: Action): Event
    requires Enabled(s, a)
  {
    match a
    case Claim(_, now, ids) => Claims((set id | id in ids), now)
    case PeerUnknown(w) => Failure(s.cycles[w].batch[0].id)
    case BodyInvalid(w) => Failure(s.cycles[w].batch[0].id)
    case Settled(w) => if s.cycles[w].phase.disposition.Delivered? then Other else Failure(s.cycles[w].batch[0].id)
    case Post(w, _) => Posted(s.cycles[w].batch[0].id)
    case Enqueue(_, _, _, _) => Other
    case Stop(_) => Other
  }

  function Apply(s: State, a: Action): State
    requires Enabled(s, a)
  {
    State(TableAfter(s, a), CyclesAfter(s, a), s.log + [NoteOf(s, a)])
  }

  const EMPTY: State := State(map[], map[], [])

  predicate Legal(run: seq<Action>)
    decreases |run|, 0
  {
    run == [] || (Legal(run[..|run| - 1]) && Enabled(After(run[..|run| - 1]), run[|run| - 1]))
  }

  function After(run: seq<Action>): State
    requires Legal(run)
    decreases |run|, 1
  {
    if run == [] then EMPTY else Apply(After(run[..|run| - 1]), run[|run| - 1])
  }

  // ----- What the log says about a row ------------------------------------------------

  datatype History = History(claims: seq<int>, posts: nat, failures: nat)

  function Noted(h: History, e: Event, id: int): History {
    match e
    case Claims(ids, now) => if id in ids then h.(claims := h.claims + [now]) else h
    case Posted(i) => if i == id then h.(posts := h.posts + 1) else h
    case Failure(i) => if i == id then h.(failures := h.failures + 1) else h
    case Other => h
  }

  function HistoryOf(log: seq<Event>, id: int): History {
    if log == [] then History([], 0, 0)
    else Noted(HistoryOf(log[..|log| - 1], id), log[|log| - 1], id)
  }

  lemma LogGrows(s: State, t: State, e: Event, id: int)
    requires t.log == s.log + [e]
    ensures t.Past(id) == Noted(s.Past(id), e, id)
  {
    assert t.log[..|s.log|] == s.log;
  }

  // ----- The invariant ----------------------------------------------------------------

  /** Each claim waits out the delay earned by the failures before it. */
  ghost predicate Spaced(claims: seq<int>) {
    forall k :: 0 <= k < |claims| - 1 ==> NextRetryAt(claims[k], k) <= claims[k + 1]
  }

  ghost predicate RowOk(row: Row, h: History) {
    && row.attempts == h.failures
    && h.posts <= |h.claims|
    && Spaced(h.claims)
    && (forall k :: 0 <= k < |h.claims| ==> IsI64(h.claims[k]))
    && (h.failures > 0 <==> row.lastError.Some?) && (row.lastError.Some? ==> WellFormed(row.lastError.value))
    && match row.status
       case Pending => h.claims == [] && h.failures == 0 && row.nextAttemptAt.Some?
       case Failed =>
         1 <= |h.claims| == h.failures < MAX_ATTEMPTS
         && row.nextAttemptAt == Some(NextRetryAt(h.claims[|h.claims| - 1], h.failures - 1))
       case Sending => |h.claims| == h.failures + 1 <= MAX_ATTEMPTS
       case Sent => |h.claims| == h.failures + 1 <= MAX_ATTEMPTS
       case Dead => 1 <= |h.claims| == h.failures <= MAX_ATTEMPTS
  }

  ghost predicate RowsOk(s: State) {
    && (forall id :: id in s.table ==> RowOk(s.table[id], s.Past(id)))
    && (forall id :: id !in s.table ==> s.Past(id) == History([], 0, 0))
  }

  ghost predicate HeldBy(s: State, w: nat, k: nat, id: int) {
    w in s.cycles && k < |s.cycles[w].batch| && s.cycles[w].batch[k].id == id
  }

  /** A held row is `Sending`, its claim is the latest one, and it is posted at most
      once under that claim. */
  ghost predicate HoldOk(table: Table, h: History, c: Cycle, k: nat)
    requires k < |c.batch|
  {
    var held := c.batch[k];
    && held.id in table && table[held.id].status == Sending && table[held.id].attempts == held.attempts
    && h.claims != [] && h.claims[|h.claims| - 1] == c.now
    && (k > 0 || c.phase.Ready? ==> h.posts < |h.claims|)
  }

  ghost predicate HoldsOk(s: State) {
    forall w: nat, k: nat, id :: HeldBy(s, w, k, id) ==> HoldOk(s.table, s.Past(id), s.cycles[w], k)
  }

  ghost predicate SingleClaimer(s: State) {
    forall w1: nat, k1: nat, w2: nat, k2: nat, id ::
      HeldBy(s, w1, k1, id) && HeldBy(s, w2, k2, id) ==> w1 == w2 && k1 == k2
  }

  ghost predicate Inv(s: State) { RowsOk(s) && HoldsOk(s) && SingleClaimer(s) }

  // ----- One row through one statement ----------------------------------------------------

  lemma ClaimedRowOk(row: Row, h: History, now: int)
    requires RowOk(row, h) && Due(row, now) && IsI64(now)
    ensures RowOk(row.(status := Sending), h.(claims := h.claims + [now]))
  {
    var claims := h.claims + [now];
    forall k | 0 <= k < |claims| - 1 ensures NextRetryAt(claims[k], k) <= claims[k + 1] {
      if k < |h.claims| - 1 {
        assert claims[k] == h.claims[k] && claims[k + 1] == h.claims[k + 1];
      }
    }
  }

  lemma PlannedRowOk(row: Row, h: History, plan: FailurePlan)
    requires RowOk(row, h) && row.status == Sending
    requires plan.attempts == row.attempts + 1 && WellFormed(plan.lastError)
    requires plan.status == Dead
             || (plan.status == Failed && plan.attempts < MAX_ATTEMPTS
                 && plan.nextAttemptAt == Some(NextRetryAt(h.claims[|h.claims| - 1], row.attempts)))
    ensures RowOk(WithPlan(row, plan), h.(failures := h.failures + 1))
  {
  }

  lemma RetriedRowOk(row: Row, h: History, code: string)
    requires RowOk(row, h) && row.status == Sending
    ensures RowOk(WithPlan(row, NextFailurePlan(h.claims[|h.claims| - 1], row.attempts, code)),
                  h.(failures := h.failures + 1))
  {
    SanitizedIsWellFormed(code);
    PlannedRowOk(row, h, NextFailurePlan(h.claims[|h.claims| - 1], row.attempts, code));
  }

  lemma DeadRowOk(row: Row, h: History, code: string)
    requires RowOk(row, h) && row.status == Sending
    ensures RowOk(WithPlan(row, DeadPlan(row.attempts, code)), h.(failures := h.failures + 1))
  {
    SanitizedIsWellFormed(code);
    PlannedRowOk(row, h, DeadPlan(row.attempts, code));
  }

  // ----- A claim ----------------------------------------------------------------------

  lemma ClaimKeepsRows(s: State, t: State, now: int, ids: seq<int>)
    requires RowsOk(s) && IsI64(now) && forall i :: 0 <= i < |ids| ==> ids[i] in s.table && Due(s.table[ids[i]], now)
    requires t.table == WithStatus(s.table, (set id | id in ids), Sending)
    requires t.log == s.log + [Claims((set id | id in ids), now)]
    ensures RowsOk(t)
  {
    var e := Claims((set id | id in ids), now);
    forall id | id in t.table ensures RowOk(t.table[id], t.Past(id)) {
      LogGrows(s, t, e, id);
      if id in ids {
        ClaimedRowOk(s.table[id], s.Past(id), now);
      }
    }
    forall id | id !in t.table ensures t.Past(id) == History([], 0, 0) {
      LogGrows(s, t, e, id);
    }
  }

  lemma OldHoldAfterClaim(s: State, w: nat, now: int, ids: seq<int>, v: nat, k: nat, id: int)
    requires Inv(s) && Enabled(s, Claim(w, now, ids)) && v != w && HeldBy(Apply(s, Claim(w, now, ids)), v, k, id)
    ensures var t := Apply(s, Claim(w, now, ids));
            HeldBy(s, v, k, id) && id !in ids && HoldOk(t.table, t.Past(id), t.cycles[v], k)
  {
    var t := Apply(s, Claim(w, now, ids));
    LogGrows(s, t, NoteOf(s, Claim(w, now, ids)), id);
    assert HeldBy(s, v, k, id) && HoldOk(s.table, s.Past(id), s.cycles[v], k);
  }

  lemma NewHoldAfterClaim(s: State, w: nat, now: int, ids: seq<int>, k: nat, id: int)
    requires Inv(s) && Enabled(s, Claim(w, now, ids)) && HeldBy(Apply(s, Claim(w, now, ids)), w, k, id)
    ensures var t := Apply(s, Claim(w, now, ids));
            k < |ids| && ids[k] == id && HoldOk(t.table, t.Past(id), t.cycles[w], k)
  {
    var t := Apply(s, Claim(w, now, ids));
    LogGrows(s, t, NoteOf(s, Claim(w, now, ids)), id);
    assert RowOk(s.table[id], s.Past(id));
  }

  lemma ClaimKeepsInv(s: State, w: nat, now: int, ids: seq<int>)
    requires Inv(s) && Enabled(s, Claim(w, now, ids))
    ensures Inv(Apply(s, Claim(w, now, ids)))
  {
    var t := Apply(s, Claim(w, now, ids));
    ClaimKeepsRows(s, t, now, ids);
    forall v: nat, k: nat, id | HeldBy(t, v, k, id)
      ensures HoldOk(t.table, t.Past(id), t.cycles[v], k)
      ensures if v == w then k < |ids| && ids[k] == id else HeldBy(s, v, k, id) && id !in ids
    {
      if v == w {
        NewHoldAfterClaim(s, w, now, ids, k, id);
      } else {
        OldHoldAfterClaim(s, w, now, ids, v, k, id);
      }
    }
  }

  // ----- A statement on the row at the head of a batch ----------------------------------

  // The note concerns this row, or none.
  predicate OnRow(e: Event, id: int) { e == Posted(id) || e == Failure(id) || e == Other }

  predicate HasHead(s: State, w: nat) { w in s.cycles && s.cycles[w].batch != [] && s.cycles[w].batch[0].id in s.table }

  predicate SameBatch(s: State, t: State, w: nat) { w in t.cycles && w in s.cycles && t.cycles[w].batch == s.cycles[w].batch }

  /** Worker `w`'s head row becomes `row`, `e` is noted, and `w` lets go of the row or of
      everything, or has just posted it. Nothing else changes. */
  ghost predicate HeadStep(s: State, t: State, w: nat, row: Row, e: Event) {
    && HasHead(s, w)
    && var c, id := s.cycles[w], s.cycles[w].batch[0].id;
       && t.table == s.table[id := row] && t.log == s.log + [e] && OnRow(e, id)
       && (t.cycles == s.cycles - {w} || t.cycles == s.cycles[w := Advance(c)]
           || (row == s.table[id] && exists d :: t.cycles == s.cycles[w := c.(phase := Answered(d))]))
  }

  /** What the invariant says of the row at the head. */
  lemma HeadRow(s: State, w: nat)
    requires Inv(s) && w in s.cycles && s.cycles[w].batch != []
    ensures HasHead(s, w)
    ensures var c, head := s.cycles[w], s.cycles[w].batch[0];
            && HeldBy(s, w, 0, head.id) && HoldOk(s.table, s.Past(head.id), c, 0)
            && RowOk(s.table[head.id], s.Past(head.id))
  {
    var head := s.cycles[w].batch[0];
    assert HeldBy(s, w, 0, head.id) && HoldOk(s.table, s.Past(head.id), s.cycles[w], 0);
  }

  lemma HeadStepKeepsRows(s: State, t: State, w: nat, row: Row, e: Event)
    requires RowsOk(s) && HeadStep(s, t, w, row, e)
    requires var id := s.cycles[w].batch[0].id; RowOk(row, Noted(s.Past(id), e, id))
    ensures RowsOk(t)
  {
    forall id | id in t.table ensures RowOk(t.table[id], t.Past(id)) {
      LogGrows(s, t, e, id);
    }
    forall id | id !in t.table ensures t.Past(id) == History([], 0, 0) {
      LogGrows(s, t, e, id);
    }
  }

  // Where position `k` of worker `v`'s batch was before a step on worker `w`'s head.
  function Origin(s: State, t: State, w: nat, v: nat, k: nat): nat { if v == w && !SameBatch(s, t, w) then k + 1 else k }

  lemma HeadStepHolds(s: State, t: State, w: nat, row: Row, e: Event, v: nat, k: nat, id: int)
    requires HeadStep(s, t, w, row, e) && HeldBy(t, v, k, id)
    ensures HeldBy(s, v, Origin(s, t, w, v, k), id) && t.cycles[v].now == s.cycles[v].now
    ensures t.cycles[v].batch[k] == s.cycles[v].batch[Origin(s, t, w, v, k)]
    ensures v != w ==> t.cycles[v] == s.cycles[v]
    ensures v == w && SameBatch(s, t, w) ==> row == s.table[s.cycles[w].batch[0].id] && t.cycles[w].phase.Answered?
  {
  }

  lemma HeadStepKeepsHold(s: State, t: State, w: nat, row: Row, e: Event, v: nat, k: nat, id: int)
    requires Inv(s) && HeadStep(s, t, w, row, e) && HeldBy(t, v, k, id)
    requires e.Posted? ==> s.cycles[w].phase.Ready?
    ensures HoldOk(t.table, t.Past(id), t.cycles[v], k)
  {
    HeadStepHolds(s, t, w, row, e, v, k, id);
    HeadRow(s, w);
    LogGrows(s, t, e, id);
    assert HoldOk(s.table, s.Past(id), s.cycles[v], Origin(s, t, w, v, k));
  }

  lemma HeadStepKeepsInv(s: State, t: State, w: nat, row: Row, e: Event)
    requires Inv(s) && HeadStep(s, t, w, row, e)
    requires e.Posted? ==> s.cycles[w].phase.Ready?
    requires var id := s.cycles[w].batch[0].id; RowOk(row, Noted(s.Past(id), e, id))
    ensures Inv(t)
  {
    HeadStepKeepsRows(s, t, w, row, e);
    forall v: nat, k: nat, id | HeldBy(t, v, k, id)
      ensures HeldBy(s, v, Origin(s, t, w, v, k), id) && HoldOk(t.table, t.Past(id), t.cycles[v], k)
    {
      HeadStepHolds(s, t, w, row, e, v, k, id);
      HeadStepKeepsHold(s, t, w, row, e, v, k, id);
    }
  }

  // ----- Which actions are such statements ----------------------------------------------

  predicate OnHead(a: Action, w: nat) {
    a == PeerUnknown(w) || a == BodyInvalid(w) || a == Settled(w) || (a.Post? && a.worker == w)
  }

  function WithPlan(row: Row, plan: FailurePlan): Row {
    row.(status := plan.status, attempts := plan.attempts, nextAttemptAt := plan.nextAttemptAt,
         lastError := Some(plan.lastError))
  }

  /** The row a head action writes, and what it notes. */
  function RowAfter(s: State, a: Action, w: nat): Row
    requires Enabled(s, a) && OnHead(a, w) && HasHead(s, w)
  {
    var c, head := s.cycles[w], s.cycles[w].batch[0];
    var row := s.table[head.id];
    match a
    case PeerUnknown(_) => WithPlan(row, NextFailurePlan(c.now, head.attempts, NO_PEER_CODE))
    case BodyInvalid(_) => WithPlan(row, DeadPlan(head.attempts, BAD_BODY_CODE))
    case Settled(_) =>
      (match c.phase.disposition
       case Delivered => row.(status := Sent)
       case Retryable(code) => WithPlan(row, NextFailurePlan(c.now, head.attempts, code))
       case Permanent(code) => WithPlan(row, DeadPlan(head.attempts, code)))
    case _ => row
  }

  lemma RecordChangesRow(t: Table, id: int, plan: FailurePlan)
    requires id in t
    ensures Record(t, id, plan) == t[id := WithPlan(t[id], plan)]
  {
  }

  // The table a head action leaves differs in the head row alone.
  lemma HeadActionTable(s: State, a: Action, w: nat)
    requires Enabled(s, a) && OnHead(a, w) && HasHead(s, w)
    ensures TableAfter(s, a) == s.table[s.cycles[w].batch[0].id := RowAfter(s, a, w)]
  {
    var c, head := s.cycles[w], s.cycles[w].batch[0];
    match a
    case PeerUnknown(_) => RecordChangesRow(s.table, head.id, NextFailurePlan(c.now, head.attempts, NO_PEER_CODE));
    case BodyInvalid(_) => RecordChangesRow(s.table, head.id, DeadPlan(head.attempts, BAD_BODY_CODE));
    case Settled(_) => SettledTable(s, w);
    case Post(_, _) => assert s.table == s.table[head.id := s.table[head.id]];
  }

  lemma SettledTable(s: State, w: nat)
    requires Enabled(s, Settled(w)) && HasHead(s, w)
    ensures TableAfter(s, Settled(w)) == s.table[s.cycles[w].batch[0].id := RowAfter(s, Settled(w), w)]
  {
    var c, head := s.cycles[w], s.cycles[w].batch[0];
    match c.phase.disposition
    case Delivered =>
    case Retryable(code) => RecordChangesRow(s.table, head.id, NextFailurePlan(c.now, head.attempts, code));
    case Permanent(code) => RecordChangesRow(s.table, head.id, DeadPlan(head.attempts, code));
  }

  lemma HeadActionCycles(s: State, a: Action, w: nat)
    requires Enabled(s, a) && OnHead(a, w) && HasHead(s, w)
    ensures OnRow(NoteOf(s, a), s.cycles[w].batch[0].id) && (NoteOf(s, a).Posted? ==> s.cycles[w].phase.Ready?)
    ensures var c, after := s.cycles[w], CyclesAfter(s, a);
            after == s.cycles - {w} || after == s.cycles[w := Advance(c)]
            || (a.Post? && after == s.cycles[w := c.(phase := Answered(DispositionOf(a.answer)))])
  {
  }

  lemma HeadActionIsHeadStep(s: State, a: Action, w: nat)
    requires Enabled(s, a) && OnHead(a, w) && HasHead(s, w)
    ensures HeadStep(s, Apply(s, a), w, RowAfter(s, a, w), NoteOf(s, a))
    ensures NoteOf(s, a).Posted? ==> s.cycles[w].phase.Ready?
  {
    HeadActionTable(s, a, w);
    HeadActionCycles(s, a, w);
  }

  // A failure recorded for the head row.
  lemma HeadRetryKeepsRow(s: State, w: nat, code: string)
    requires Inv(s) && HasHead(s, w)
    ensures var c, head := s.cycles[w], s.cycles[w].batch[0];
            RowOk(WithPlan(s.table[head.id], NextFailurePlan(c.now, head.attempts, code)),
                  Noted(s.Past(head.id), Failure(head.id), head.id))
  {
    var id := s.cycles[w].batch[0].id;
    HeadRow(s, w);
    RetriedRowOk(s.table[id], s.Past(id), code);
  }

  lemma HeadDeathKeepsRow(s: State, w: nat, code: string)
    requires Inv(s) && HasHead(s, w)
    ensures var head := s.cycles[w].batch[0];
            RowOk(WithPlan(s.table[head.id], DeadPlan(head.attempts, code)),
                  Noted(s.Past(head.id), Failure(head.id), head.id))
  {
    var id := s.cycles[w].batch[0].id;
    HeadRow(s, w);
    DeadRowOk(s.table[id], s.Past(id), code);
  }

  ghost predicate HeadRowStaysOk(s: State, a: Action, w: nat)
    requires Enabled(s, a) && OnHead(a, w) && HasHead(s, w)
  {
    var id := s.cycles[w].batch[0].id;
    RowOk(RowAfter(s, a, w), Noted(s.Past(id), NoteOf(s, a), id))
  }

  lemma SettledKeepsRow(s: State, w: nat)
    requires Inv(s) && Enabled(s, Settled(w)) && HasHead(s, w)
    ensures HeadRowStaysOk(s, Settled(w), w)
  {
    match s.cycles[w].phase.disposition
    case Delivered => HeadRow(s, w);
    case Retryable(code) => HeadRetryKeepsRow(s, w, code);
    case Permanent(code) => HeadDeathKeepsRow(s, w, code);
  }

  lemma PostKeepsRow(s: State, w: nat, answer: Answer)
    requires Inv(s) && Enabled(s, Post(w, answer)) && HasHead(s, w)
    ensures HeadRowStaysOk(s, Post(w, answer), w)
  {
    HeadRow(s, w);
  }

  lemma PeerUnknownKeepsRow(s: State, w: nat)
    requires Inv(s) && Enabled(s, PeerUnknown(w)) && HasHead(s, w)
    ensures HeadRowStaysOk(s, PeerUnknown(w), w)
  {
    HeadRetryKeepsRow(s, w, NO_PEER_CODE);
  }

  lemma BodyInvalidKeepsRow(s: State, w: nat)
    requires Inv(s) && Enabled(s, BodyInvalid(w)) && HasHead(s, w)
    ensures HeadRowStaysOk(s, BodyInvalid(w), w)
  {
    HeadDeathKeepsRow(s, w, BAD_BODY_CODE);
  }

  lemma HeadActionKeepsInv(s: State, a: Action, w: nat)
    requires Inv(s) && Enabled(s, a) && OnHead(a, w)
    ensures Inv(Apply(s, a))
  {
    HeadRow(s, w);
    HeadActionIsHeadStep(s, a, w);
    match a {
      case PeerUnknown(_) => PeerUnknownKeepsRow(s, w);
      case BodyInvalid(_) => BodyInvalidKeepsRow(s, w);
      case Settled(_) => SettledKeepsRow(s, w);
      case Post(_, answer) => PostKeepsRow(s, w, answer);
    }
    HeadStepKeepsInv(s, Apply(s, a), w, RowAfter(s, a, w), NoteOf(s, a));
  }

  // ----- Every action -----------------------------------------------------------------

  lemma QuietStepKeepsInv(s: State, t: State)
    requires Inv(s) && t.log == s.log + [Other]
    requires s.table.Keys <= t.table.Keys && forall id :: id in s.table ==> t.table[id] == s.table[id]
    requires forall id :: id in t.table && id !in s.table ==> RowOk(t.table[id], History([], 0, 0))
    requires forall w :: w in t.cycles ==> w in s.cycles && t.cycles[w] == s.cycles[w]
    ensures Inv(t)
  {
    forall id ensures t.Past(id) == s.Past(id) {
      LogGrows(s, t, Other, id);
    }
    forall v: nat, k: nat, id | HeldBy(t, v, k, id)
      ensures HeldBy(s, v, k, id) && HoldOk(t.table, t.Past(id), t.cycles[v], k)
    {
      assert HeldBy(s, v, k, id) && HoldOk(s.table, s.Past(id), s.cycles[v], k);
    }
  }

  lemma StepKeepsInv(s: State, a: Action)
    requires Inv(s) && Enabled(s, a)
    ensures Inv(Apply(s, a))
  {
    match a
    case Claim(w, now, ids) => ClaimKeepsInv(s, w, now, ids);
    case PeerUnknown(w) => HeadActionKeepsInv(s, a, w);
    case BodyInvalid(w) => HeadActionKeepsInv(s, a, w);
    case Settled(w) => HeadActionKeepsInv(s, a, w);
    case Post(w, _) => HeadActionKeepsInv(s, a, w);
    case Enqueue(_, _, _, _) => QuietStepKeepsInv(s, Apply(s, a));
    case Stop(_) => QuietStepKeepsInv(s, Apply(s, a));
  }

  lemma {:induction false} RunKeepsInv(run: seq<Action>)
    requires Legal(run)
    ensures Inv(After(run))
    decreases |run|
  {
    if run != [] {
      RunKeepsInv(run[..|run| - 1]);
      StepKeepsInv(After(run[..|run| - 1]), run[|run| - 1]);
    }
  }

  // ----- Whole runs ---------------------------------------------------------------------

  /** In every run a row has at most one holder, and what a holder holds is `Sending`. */
  lemma RowsHaveOneHolder(run: seq<Action>, w1: nat, k1: nat, w2: nat, k2: nat, id: int)
    requires Legal(run) && HeldBy(After(run), w1, k1, id) && HeldBy(After(run), w2, k2, id)
    ensures w1 == w2 && k1 == k2
    ensures id in After(run).table && After(run).table[id].status == Sending
  {
    RunKeepsInv(run);
    assert HoldOk(After(run).table, After(run).Past(id), After(run).cycles[w1], k1);
  }

  /** In every run a row is posted at most once per claim and at most eight times, and
      its attempt count is the number of failures recorded for it. */
  lemma AtMostEightPosts(run: seq<Action>, id: int)
    requires Legal(run)
    ensures After(run).Past(id).posts <= |After(run).Past(id).claims| <= 8
    ensures id in After(run).table ==> After(run).table[id].attempts == After(run).Past(id).failures <= 8
  {
    RunKeepsInv(run);
    assert id in After(run).table ==> RowOk(After(run).table[id], After(run).Past(id));
  }

  ghost predicate EventsKept(t: Table, u: Table) {
    forall id :: id in t ==> id in u && u[id].destination == t[id].destination && u[id].eventId == t[id].eventId
  }

  ghost predicate OneRowEach(t: Table) {
    forall a, b :: a in t && b in t && a != b ==> t[a].destination != t[b].destination || t[a].eventId != t[b].eventId
  }

  lemma RecordKeepsEvents(t: Table, id: int, plan: FailurePlan)
    ensures EventsKept(t, Record(t, id, plan)) && Record(t, id, plan).Keys == t.Keys
  {
  }

  lemma SettledKeepsEvents(s: State, w: nat)
    requires Enabled(s, Settled(w))
    ensures EventsKept(s.table, TableAfter(s, Settled(w))) && TableAfter(s, Settled(w)).Keys == s.table.Keys
  {
    var c, head := s.cycles[w], s.cycles[w].batch[0];
    match c.phase.disposition
    case Delivered =>
    case Retryable(code) => RecordKeepsEvents(s.table, head.id, NextFailurePlan(c.now, head.attempts, code));
    case Permanent(code) => RecordKeepsEvents(s.table, head.id, DeadPlan(head.attempts, code));
  }

  lemma StepKeepsEvents(s: State, a: Action)
    requires Enabled(s, a)
    ensures EventsKept(s.table, TableAfter(s, a))
    ensures a.Enqueue? || TableAfter(s, a).Keys == s.table.Keys
  {
    match a
    case Enqueue(_, _, _, _) =>
    case Claim(_, _, _) =>
    case Post(_, _) =>
    case Stop(_) =>
    case Settled(w) => SettledKeepsEvents(s, w);
    case PeerUnknown(w) =>
      var c, head := s.cycles[w], s.cycles[w].batch[0];
      RecordKeepsEvents(s.table, head.id, NextFailurePlan(c.now, head.attempts, NO_PEER_CODE));
    case BodyInvalid(w) =>
      var head := s.cycles[w].batch[0];
      RecordKeepsEvents(s.table, head.id, DeadPlan(head.attempts, BAD_BODY_CODE));
  }

  lemma StepKeepsOneRowEach(s: State, a: Action)
    requires Enabled(s, a) && OneRowEach(s.table)
    ensures OneRowEach(TableAfter(s, a))
  {
    StepKeepsEvents(s, a);
  }

  /** In every run an event has one row per destination, and a row stays with its event. */
  lemma {:induction false} OneRowPerEvent(run: seq<Action>)
    requires Legal(run)
    ensures OneRowEach(After(run).table)
    ensures run != [] ==> EventsKept(After(run[..|run| - 1]).table, After(run).table)
    decreases |run|
  {
    if run != [] {
      var front := run[..|run| - 1];
      OneRowPerEvent(front);
      StepKeepsEvents(After(front), run[|run| - 1]);
      StepKeepsOneRowEach(After(front), run[|run| - 1]);
    }
  }

  predicate Finished(row: Row) { row.status == Sent || row.status == Dead }

  lemma FinishedRowStays(s: State, a: Action, id: int)
    requires Inv(s) && Enabled(s, a) && id in s.table && Finished(s.table[id])
    ensures id in TableAfter(s, a) && TableAfter(s, a)[id] == s.table[id]
  {
    match a
    case Claim(_, _, _) =>
    case Enqueue(_, _, _, _) =>
    case Stop(_) =>
    case PeerUnknown(w) => HeadLeavesFinished(s, a, w, id);
    case BodyInvalid(w) => HeadLeavesFinished(s, a, w, id);
    case Settled(w) => HeadLeavesFinished(s, a, w, id);
    case Post(w, _) => HeadLeavesFinished(s, a, w, id);
  }

  lemma HeadLeavesFinished(s: State, a: Action, w: nat, id: int)
    requires Inv(s) && Enabled(s, a) && OnHead(a, w) && id in s.table && Finished(s.table[id])
    ensures id in TableAfter(s, a) && TableAfter(s, a)[id] == s.table[id]
  {
    HeadRow(s, w);
    HeadActionIsHeadStep(s, a, w);
  }

  /** `Sent` and `Dead` are final: whatever happens later, the row never changes again. */
  lemma {:induction false} FinishedRowsAreFinal(run: seq<Action>, n: nat, id: int)
    requires Legal(run) && n <= |run| && Legal(run[..n])
    requires id in After(run[..n]).table && Finished(After(run[..n]).table[id])
    ensures id in After(run).table && After(run).table[id] == After(run[..n]).table[id]
    decreases |run|
  {
    if n == |run| {
      assert run[..n] == run;
    } else {
      var front := run[..|run| - 1];
      assert front[..n] == run[..n];
      FinishedRowsAreFinal(front, n, id);
      RunKeepsInv(front);
      FinishedRowStays(After(front), run[|run| - 1], id);
    }
  }

  lemma {:induction false} PrefixIsLegal(run: seq<Action>, n: nat)
    requires Legal(run) && n <= |run|
    ensures Legal(run[..n])
    decreases |run|
  {
    if n == |run| {
      assert run[..n] == run;
    } else {
      PrefixIsLegal(run[..|run| - 1], n);
      assert run[..|run| - 1][..n] == run[..n];
    }
  }

  lemma ClaimWaits(claims: seq<int>, k: nat)
    requires Spaced(claims) && k < |claims| - 1 && claims[k + 1] < I64_MAX
    ensures claims[k] + RetryDelay(k) <= claims[k + 1]
  {
    assert NextRetryAt(claims[k], k) <= claims[k + 1];
  }

  lemma EightClaimsSpan(claims: seq<int>)
    requires Spaced(claims) && |claims| == 8 && claims[7] < I64_MAX
    ensures claims[7] - claims[0] >= 91_000
  {
    RetryDelayTable(6); ClaimWaits(claims, 6);
    RetryDelayTable(5); ClaimWaits(claims, 5);
    RetryDelayTable(4); ClaimWaits(claims, 4);
    RetryDelayTable(3); ClaimWaits(claims, 3);
    RetryDelayTable(2); ClaimWaits(claims, 2);
    RetryDelayTable(1); ClaimWaits(claims, 1);
    RetryDelayTable(0); ClaimWaits(claims, 0);
  }

  /** The eighth claim of a row, in every run, comes at least 91 seconds after the first
      (a claim at the very last representable millisecond aside). */
  lemma EighthClaimIsLate(run: seq<Action>, id: int)
    requires Legal(run) && |After(run).Past(id).claims| == 8
    requires After(run).Past(id).claims[7] < I64_MAX
    ensures After(run).Past(id).claims[7] - After(run).Past(id).claims[0] >= 91_000
  {
    RunKeepsInv(run);
    assert RowOk(After(run).table[id], After(run).Past(id));
    EightClaimsSpan(After(run).Past(id).claims);
  }

  /** A row given up without a permanent refusal was claimed exactly eight times. */
  lemma RetriedToDeathMeansEightClaims(run: seq<Action>, id: int)
    requires Legal(run) && id in After(run).table
    requires After(run).table[id].status == Dead && After(run).table[id].attempts >= MAX_ATTEMPTS
    ensures |After(run).Past(id).claims| == 8
  {
    RunKeepsInv(run);
    assert RowOk(After(run).table[id], After(run).Past(id));
  }
}
