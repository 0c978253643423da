/** One dispatch cycle over the outbox table: claim the due rows, settle them in
    order, and stop at the first error. */
module DispatchCycle {
  import opened Basics
  import opened SqlOrder
  import opened Outbox
  import opened Dispatchers

  /** What the outside world does to one claimed row: the endpoint lookup, the body
      check, the delivery, and whether the statement that records it goes through. */
  datatype Fate =
    | LookupFails
    | NoPeer(recorded: bool)
    | BadBody(recorded: bool)
    | Answers(answer: Answer, recorded: bool)

  datatype CycleError = Storage | InvalidBody

  datatype Report = Report(claimed: nat, sent: nat, failed: nat, dead: nat)

  function AfterPlan(plan: FailurePlan): Disposition {
    if plan.status == Dead then Permanent(plan.lastError) else Retryable(plan.lastError)
  }

  /** A retryable answer that uses up the last attempt is reported as permanent. */
  function Reported(d: Disposition, now: int, attempts: int): Disposition {
    if d.Retryable? && NextFailurePlan(now, attempts, d.code).status == Dead
    then AfterPlan(NextFailurePlan(now, attempts, d.code)) else d
  }

  /** How settling one row is reported. */
  function OutcomeOf(e: Claimed, now: int, fate: Fate): Result<Disposition, CycleError> {
    match fate
    case LookupFails => Err(Storage)
    case NoPeer(recorded) =>
      if recorded then Ok(AfterPlan(NextFailurePlan(now, e.attempts, NO_PEER_CODE))) else Err(Storage)
    case BadBody(recorded) => Err(if recorded then InvalidBody else Storage)
    case Answers(answer, recorded) =>
      if recorded then Ok(Reported(DispositionOf(answer), now, e.attempts)) else Err(Storage)
  }

  function EffectOf(t: Table, e: Claimed, now: int, fate: Fate): Table {
    match fate
    case LookupFails => t
    case NoPeer(recorded) => if recorded then Record(t, e.id, NextFailurePlan(now, e.attempts, NO_PEER_CODE)) else t
    case BadBody(recorded) => if recorded then Record(t, e.id, DeadPlan(e.attempts, BAD_BODY_CODE)) else t
    case Answers(answer, recorded) =>
      if recorded then Settle(t, e.id, now, e.attempts, DispositionOf(answer)) else t
  }

  function Named(d: Disposition): Status {
    match d
    case Delivered => Sent
    case Retryable(_) => Failed
    case Permanent(_) => Dead
  }

  /** The status a settled row ends in, whatever happened to it. */
  function FinalStatus(e: Claimed, now: int, fate: Fate): Status {
    match OutcomeOf(e, now, fate)
    case Ok(d) => Named(d)
    case Err(InvalidBody) => Dead
    case Err(Storage) => Sending
  }

  // What recording an answer does to its row, and to no other.
  lemma SettledRow(t: Table, id: int, now: int, attempts: int, d: Disposition)
    requires id in t && t[id].status == Sending
    ensures var after := Settle(t, id, now, attempts, d);
            && after.Keys == t.Keys && (forall other :: other in t && other != id ==> after[other] == t[other])
            && after[id].status == (match d
                                    case Delivered => Sent
                                    case Retryable(code) => NextFailurePlan(now, attempts, code).status
                                    case Permanent(_) => Dead)
  {
  }

  /** The report and the table never disagree about a row. */
  lemma ReportMatchesTable(t: Table, e: Claimed, now: int, fate: Fate)
    requires e.id in t && t[e.id].status == Sending
    ensures EffectOf(t, e, now, fate).Keys == t.Keys
    ensures EffectOf(t, e, now, fate)[e.id].status == FinalStatus(e, now, fate)
    ensures forall id :: id in t && id != e.id ==> EffectOf(t, e, now, fate)[id] == t[id]
  {
    match fate
    case Answers(answer, _) => SettledRow(t, e.id, now, e.attempts, DispositionOf(answer));
    case _ =>
  }

  function Tally(events: seq<Claimed>, now: int, fates: int -> Fate, status: Status): nat {
    if events == [] then 0
    else
      var last := events[|events| - 1];
      Tally(events[..|events| - 1], now, fates, status)
      + (if FinalStatus(last, now, fates(last.id)) == status then 1 else 0)
  }

  // The rows a claim may take.
  function DueIds(t: Table, now: int): set<int> {
    set id | id in t && (t[id].status == Pending || t[id].status == Failed) && t[id].nextAttemptAt.Some?
             && t[id].nextAttemptAt.value <= now
  }

  function SlotOf(t: Table, id: int): Slot
    requires id in t && t[id].nextAttemptAt.Some?
  {
    Slot(t[id].nextAttemptAt.value, id)
  }

  function DueSlots(t: Table, now: int): set<Slot> { set id | id in t && Due(t[id], now) :: SlotOf(t, id) }

  /** The ids a claim takes, in the order it takes them. */
  function ClaimOrder(t: Table, now: int, limit: int): (ids: seq<int>)
    ensures Distinct(ids) && |ids| <= MAX_CLAIM
    ensures forall i :: 0 <= i < |ids| ==> ids[i] in t && Due(t[ids[i]], now)
  {
    var slots := OrderLimit(DueSlots(t, now), Clamp(limit, 1, MAX_CLAIM));
    assert forall i, j :: 0 <= i < j < |slots| ==> slots[i] in DueSlots(t, now) && slots[j] in DueSlots(t, now);
    seq(|slots|, i requires 0 <= i < |slots| => slots[i].id)
  }

  function SlotsOf(t: Table, ids: set<int>): set<Slot>
    requires forall id :: id in ids ==> id in t && t[id].nextAttemptAt.Some?
  {
    set id | id in ids :: SlotOf(t, id)
  }

  lemma Member<T>(s: set<T>) returns (x: T)
    requires s != {}
    ensures x in s
  {
    x :| x in s;
  }

  lemma SlotsCount(t: Table, ids: set<int>)
    requires forall id :: id in ids ==> id in t && t[id].nextAttemptAt.Some?
    ensures |SlotsOf(t, ids)| == |ids|
    decreases |ids|
  {
    if ids != {} {
      var id := Member(ids);
      var rest := ids - {id};
      SlotsCount(t, rest);
      assert SlotsOf(t, ids) == SlotsOf(t, rest) + {SlotOf(t, id)};
    }
  }

  lemma OneSlotPerRow(t: Table, now: int)
    ensures |DueSlots(t, now)| == |DueIds(t, now)|
  {
    SlotsCount(t, DueIds(t, now));
    assert DueSlots(t, now) == SlotsOf(t, DueIds(t, now));
  }

  // Position `i` of a claim in terms of the slots it was taken from.
  lemma TakenSlot(t: Table, now: int, limit: int, i: nat)
    requires i < |ClaimOrder(t, now, limit)|
    ensures var slots := OrderLimit(DueSlots(t, now), Clamp(limit, 1, MAX_CLAIM));
            var ids := ClaimOrder(t, now, limit);
            |slots| == |ids| && ids[i] in t && Due(t[ids[i]], now) && slots[i] == SlotOf(t, ids[i])
  {
    var slots := OrderLimit(DueSlots(t, now), Clamp(limit, 1, MAX_CLAIM));
    assert slots[i] in DueSlots(t, now);
  }

  lemma TakenInOrder(t: Table, now: int, limit: int, i: nat, j: nat)
    requires i < j < |ClaimOrder(t, now, limit)|
    ensures var ids := ClaimOrder(t, now, limit);
            ids[i] in DueIds(t, now) && ids[j] in DueIds(t, now) && Before(SlotOf(t, ids[i]), SlotOf(t, ids[j]))
  {
    TakenSlot(t, now, limit, i);
    TakenSlot(t, now, limit, j);
  }

  lemma LeftIsLater(t: Table, now: int, limit: int, i: nat, left: int)
    requires i < |ClaimOrder(t, now, limit)| && left in DueIds(t, now) && left !in ClaimOrder(t, now, limit)
    ensures var ids := ClaimOrder(t, now, limit);
            ids[i] in DueIds(t, now) && Before(SlotOf(t, ids[i]), SlotOf(t, left))
  {
    TakenSlot(t, now, limit, i);
    NotTaken(t, now, limit, left);
  }

  lemma NotTaken(t: Table, now: int, limit: int, left: int)
    requires left in DueIds(t, now) && left !in ClaimOrder(t, now, limit)
    ensures SlotOf(t, left) in DueSlots(t, now)
    ensures SlotOf(t, left) !in OrderLimit(DueSlots(t, now), Clamp(limit, 1, MAX_CLAIM))
  {
    var slots := OrderLimit(DueSlots(t, now), Clamp(limit, 1, MAX_CLAIM));
    forall k | 0 <= k < |slots| ensures slots[k] != SlotOf(t, left) {
      TakenSlot(t, now, limit, k);
      assert ClaimOrder(t, now, limit)[k] in ClaimOrder(t, now, limit);
    }
  }

  /** A batch filled from the due rows, in the order of their due times and ids, such that
      every due row left behind comes later than all that were taken. */
  ghost predicate TakesEarliest(t: Table, now: int, limit: int, ids: seq<int>) {
    && |ids| == Min(Clamp(limit, 1, MAX_CLAIM), |DueIds(t, now)|)
    && (forall i :: 0 <= i < |ids| ==> ids[i] in DueIds(t, now))
    && (forall i, j :: 0 <= i < j < |ids| ==> Before(SlotOf(t, ids[i]), SlotOf(t, ids[j])))
    && (forall i, left :: 0 <= i < |ids| && left in DueIds(t, now) && left !in ids ==>
          Before(SlotOf(t, ids[i]), SlotOf(t, left)))
  }

  lemma ClaimTakesEarliest(t: Table, now: int, limit: int)
    ensures TakesEarliest(t, now, limit, ClaimOrder(t, now, limit))
  {
    var ids := ClaimOrder(t, now, limit);
    OneSlotPerRow(t, now);
    forall i | 0 <= i < |ids| ensures ids[i] in DueIds(t, now) {
      TakenSlot(t, now, limit, i);
    }
    forall i, j | 0 <= i < j < |ids| ensures Before(SlotOf(t, ids[i]), SlotOf(t, ids[j])) {
      TakenInOrder(t, now, limit, i, j);
    }
    forall i, left | 0 <= i < |ids| && left in DueIds(t, now) && left !in ids
      ensures Before(SlotOf(t, ids[i]), SlotOf(t, left))
    {
      LeftIsLater(t, now, limit, i, left);
    }
  }

  /** The pending and failed rows whose retry time, or else whose id, comes before that of
      row `id`. */
  function Ahead(t: Table, id: int): set<int>
    requires id in t && t[id].nextAttemptAt.Some?
  {
    set other | other in t && (t[other].status == Pending || t[other].status == Failed) && t[other].nextAttemptAt.Some?
                && (t[other].nextAttemptAt.value < t[id].nextAttemptAt.value
                    || (t[other].nextAttemptAt.value == t[id].nextAttemptAt.value && other < id))
  }

  // A row that is taken has only taken rows before it.
  lemma TakenHasFewAhead(t: Table, now: int, limit: int, ids: seq<int>, i: nat)
    requires TakesEarliest(t, now, limit, ids) && Distinct(ids) && i < |ids|
    ensures |Ahead(t, ids[i])| < |ids|
  {
    var before := ids[..i];
    forall other | other in Ahead(t, ids[i]) ensures other in before {
      assert other in DueIds(t, now);
      assert other in ids;
      var j :| 0 <= j < |ids| && ids[j] == other;
      assert j < i;
    }
    ElementCount(before);
    SubsetCount(Ahead(t, ids[i]), set id | id in before);
  }

  // A due row that is left behind has all the taken rows before it.
  lemma LeftHasManyAhead(t: Table, now: int, limit: int, ids: seq<int>, left: int)
    requires TakesEarliest(t, now, limit, ids) && Distinct(ids) && left in DueIds(t, now) && left !in ids
    ensures |ids| == Clamp(limit, 1, MAX_CLAIM) && |Ahead(t, left)| >= |ids|
  {
    var taken := set id | id in ids;
    ElementCount(ids);
    SubsetCount(taken + {left}, DueIds(t, now));
    forall id | id in taken ensures id in Ahead(t, left) {
      var i :| 0 <= i < |ids| && ids[i] == id;
      assert Before(SlotOf(t, ids[i]), SlotOf(t, left));
    }
    SubsetCount(taken, Ahead(t, left));
  }

  /** A claim takes exactly the pending and failed rows whose time has come and that have
      fewer rows before them than the batch has places, which are 1 to 100. */
  lemma ClaimedIff(t: Table, now: int, limit: int, id: int)
    requires id in t
    ensures id in ClaimOrder(t, now, limit) <==>
            (t[id].status == Pending || t[id].status == Failed)
            && t[id].nextAttemptAt.Some? && t[id].nextAttemptAt.value <= now
            && |Ahead(t, id)| < (if limit < 1 then 1 else if limit > 100 then 100 else limit)
  {
    var ids := ClaimOrder(t, now, limit);
    ClaimTakesEarliest(t, now, limit);
    if id in ids {
      var i :| 0 <= i < |ids| && ids[i] == id;
      TakenHasFewAhead(t, now, limit, ids, i);
    } else if id in DueIds(t, now) {
      LeftHasManyAhead(t, now, limit, ids, id);
    }
  }

  /** A claim is one of the choices the interleaved model allows. */
  lemma ClaimIsAllowed(s: State, w: nat, now: int, limit: int)
    requires w !in s.cycles && IsI64(now)
    ensures Enabled(s, Claim(w, now, ClaimOrder(s.table, now, limit)))
  {
  }

  /** The first `done` claimed rows are settled, the later ones are still `Sending`, and
      no other row has changed. */
  ghost predicate Settling(before: Table, t: Table, events: seq<Claimed>, now: int, fates: int -> Fate, done: nat) {
    && t.Keys == before.Keys
    && (forall k :: 0 <= k < |events| ==> events[k].id in t)
    && (forall k :: 0 <= k < |events| ==>
          t[events[k].id].status == if k < done then FinalStatus(events[k], now, fates(events[k].id)) else Sending)
    && (forall id :: id in t && (forall k :: 0 <= k < |events| ==> events[k].id != id) ==> t[id] == before[id])
  }

  ghost predicate DistinctEvents(events: seq<Claimed>) {
    forall i, j :: 0 <= i < j < |events| ==> events[i].id != events[j].id
  }

  lemma ClaimStartsSettling(t: Table, now: int, limit: int, fates: int -> Fate)
    ensures var ids := ClaimOrder(t, now, limit);
            && DistinctEvents(Batch(t, ids))
            && Settling(t, WithStatus(t, (set id | id in ids), Sending), Batch(t, ids), now, fates, 0)
  {
    ClaimedAreSending(t, ClaimOrder(t, now, limit), now, fates);
  }

  lemma ClaimedAreSending(t: Table, ids: seq<int>, now: int, fates: int -> Fate)
    requires Distinct(ids) && forall i :: 0 <= i < |ids| ==> ids[i] in t
    ensures DistinctEvents(Batch(t, ids))
    ensures Settling(t, WithStatus(t, (set id | id in ids), Sending), Batch(t, ids), now, fates, 0)
  {
    var events := Batch(t, ids);
    assert forall k :: 0 <= k < |events| ==> events[k].id == ids[k];
    assert forall id :: id in ids ==> exists k :: 0 <= k < |events| && events[k].id == id;
  }

  lemma SettlingAdvances(
    before: Table, t: Table, events: seq<Claimed>, now: int, fates: int -> Fate, done: nat)
    requires Settling(before, t, events, now, fates, done) && DistinctEvents(events) && done < |events|
    ensures Settling(before, EffectOf(t, events[done], now, fates(events[done].id)), events, now, fates, done + 1)
  {
    ReportMatchesTable(t, events[done], now, fates(events[done].id));
  }

  function ReportOf(claimed: nat, settled: seq<Claimed>, now: int, fates: int -> Fate): Report {
    Report(claimed, Tally(settled, now, fates, Sent), Tally(settled, now, fates, Failed), Tally(settled, now, fates, Dead))
  }

  function Counted(r: Report, d: Disposition): Report {
    match d
    case Delivered => r.(sent := r.sent + 1)
    case Retryable(_) => r.(failed := r.failed + 1)
    case Permanent(_) => r.(dead := r.dead + 1)
  }

  lemma {:induction false} TallyAdvances(events: seq<Claimed>, now: int, fates: int -> Fate, i: nat, status: Status)
    requires i < |events|
    ensures Tally(events[..i + 1], now, fates, status) ==
            Tally(events[..i], now, fates, status)
            + (if FinalStatus(events[i], now, fates(events[i].id)) == status then 1 else 0)
  {
    var longer := events[..i + 1];
    assert longer[..|longer| - 1] == events[..i] && longer[|longer| - 1] == events[i];
  }

  lemma {:induction false} ReportAdvances(
    events: seq<Claimed>, now: int, fates: int -> Fate, i: nat, d: Disposition)
    requires i < |events| && OutcomeOf(events[i], now, fates(events[i].id)) == Ok(d)
    ensures ReportOf(|events|, events[..i + 1], now, fates) == Counted(ReportOf(|events|, events[..i], now, fates), d)
  {
    TallyAdvances(events, now, fates, i, Sent);
    TallyAdvances(events, now, fates, i, Failed);
    TallyAdvances(events, now, fates, i, Dead);
    assert FinalStatus(events[i], now, fates(events[i].id)) == Named(d);
  }

  /** The loop's progress: `done` rows settled without an error and counted. */
  ghost predicate Progress(
    before: Table, t: Table, events: seq<Claimed>, now: int, fates: int -> Fate, done: nat, r: Report)
  {
    && done <= |events| && DistinctEvents(events)
    && Settling(before, t, events, now, fates, done)
    && (forall k :: 0 <= k < done ==> OutcomeOf(events[k], now, fates(events[k].id)).Ok?)
    && r == ReportOf(|events|, events[..done], now, fates)
    && r.sent + r.failed + r.dead == done
  }

  lemma ProgressAdvances(
    before: Table, t: Table, events: seq<Claimed>, now: int, fates: int -> Fate, done: nat, r: Report, d: Disposition)
    requires Progress(before, t, events, now, fates, done, r) && done < |events|
    requires OutcomeOf(events[done], now, fates(events[done].id)) == Ok(d)
    ensures Progress(before, EffectOf(t, events[done], now, fates(events[done].id)), events, now, fates,
                     done + 1, Counted(r, d))
  {
    SettlingAdvances(before, t, events, now, fates, done);
    ReportAdvances(events, now, fates, done, d);
  }

  /** What a cycle that began with the table `before` leaves and reports. */
  ghost predicate Ended(before: Table, t: Table, events: seq<Claimed>, now: int, fates: int -> Fate,
                        result: Result<Report, CycleError>, stopped: nat)
  {
    && stopped <= |events|
    && (forall k :: 0 <= k < stopped ==> OutcomeOf(events[k], now, fates(events[k].id)).Ok?)
    && match result
       case Ok(report) =>
         && stopped == |events| && Settling(before, t, events, now, fates, |events|)
         && report == ReportOf(|events|, events, now, fates)
         && report.claimed == report.sent + report.failed + report.dead
       case Err(error) =>
         && stopped < |events| && Settling(before, t, events, now, fates, stopped + 1)
         && OutcomeOf(events[stopped], now, fates(events[stopped].id)) == Err(error)
  }

  lemma EndsWithReport(before: Table, t: Table, events: seq<Claimed>, now: int, fates: int -> Fate, r: Report)
    requires Progress(before, t, events, now, fates, |events|, r)
    ensures Ended(before, t, events, now, fates, Ok(r), |events|)
    ensures CycleTable(t, events[|events|..], now, fates) == t
  {
    assert events[..|events|] == events;
  }

  lemma EndsWithError(
    before: Table, t: Table, events: seq<Claimed>, now: int, fates: int -> Fate, done: nat, r: Report)
    requires Progress(before, t, events, now, fates, done, r) && done < |events|
    requires OutcomeOf(events[done], now, fates(events[done].id)).Err?
    ensures Ended(before, EffectOf(t, events[done], now, fates(events[done].id)), events, now, fates,
                  Err(OutcomeOf(events[done], now, fates(events[done].id)).error), done)
  {
    SettlingAdvances(before, t, events, now, fates, done);
  }

  // ----- A cycle is a run of the interleaved machine -------------------------------------------

  /** The table once the claimed rows are settled in order, up to the first error. */
  function CycleTable(t: Table, events: seq<Claimed>, now: int, fates: int -> Fate): Table
    decreases |events|
  {
    if events == [] then t
    else
      var e := events[0];
      var after := EffectOf(t, e, now, fates(e.id));
      if OutcomeOf(e, now, fates(e.id)).Err? then after else CycleTable(after, events[1..], now, fates)
  }

  lemma TableUnfolds(t: Table, events: seq<Claimed>, now: int, fates: int -> Fate, i: nat)
    requires i < |events|
    ensures var e := events[i];
            var after := EffectOf(t, e, now, fates(e.id));
            CycleTable(t, events[i..], now, fates) ==
            if OutcomeOf(e, now, fates(e.id)).Err? then after else CycleTable(after, events[i + 1..], now, fates)
  {
    assert events[i..][1..] == events[i + 1..] && events[i..][0] == events[i];
  }

  /** The whole cycle: the claim and what follows from it. */
  function DispatchedTable(t: Table, now: int, limit: int, fates: int -> Fate): Table {
    var ids := ClaimOrder(t, now, limit);
    CycleTable(WithStatus(t, (set id | id in ids), Sending), Batch(t, ids), now, fates)
  }

  /** The machine's steps for one row. */
  function Moves(w: nat, fate: Fate): seq<Action> {
    match fate
    case LookupFails => [Stop(w)]
    case NoPeer(recorded) => [if recorded then PeerUnknown(w) else Stop(w)]
    case BadBody(recorded) => [if recorded then BodyInvalid(w) else Stop(w)]
    case Answers(answer, recorded) => [Post(w, answer), if recorded then Settled(w) else Stop(w)]
  }

  function CycleMoves(w: nat, events: seq<Claimed>, now: int, fates: int -> Fate): seq<Action>
    decreases |events|
  {
    if events == [] then [Stop(w)]
    else
      var e := events[0];
      Moves(w, fates(e.id)) + (if OutcomeOf(e, now, fates(e.id)).Err? then [] else CycleMoves(w, events[1..], now, fates))
  }

  lemma OneMore(run: seq<Action>, a: Action)
    requires Legal(run) && Enabled(After(run), a)
    ensures Legal(run + [a]) && After(run + [a]) == Apply(After(run), a)
  {
    var longer := run + [a];
    assert longer[..|longer| - 1] == run && longer[|longer| - 1] == a;
  }

  ghost predicate Holding(run: seq<Action>, w: nat, now: int, events: seq<Claimed>) {
    Legal(run) && w in After(run).cycles && After(run).cycles[w] == Cycle(now, events, Ready)
  }

  lemma MovesAreSteps(run: seq<Action>, w: nat, now: int, events: seq<Claimed>, fate: Fate)
    requires Holding(run, w, now, events) && events != []
    ensures Legal(run + Moves(w, fate))
    ensures After(run + Moves(w, fate)).table == EffectOf(After(run).table, events[0], now, fate)
    ensures OutcomeOf(events[0], now, fate).Ok? ==> Holding(run + Moves(w, fate), w, now, events[1..])
    ensures OutcomeOf(events[0], now, fate).Err? ==> w !in After(run + Moves(w, fate)).cycles
  {
    var moves := Moves(w, fate);
    OneMore(run, moves[0]);
    if |moves| == 2 {
      OneMore(run + [moves[0]], moves[1]);
      assert run + [moves[0]] + [moves[1]] == run + moves;
    } else {
      assert run + [moves[0]] == run + moves;
    }
  }

  lemma CycleIsSteps(run: seq<Action>, w: nat, now: int, events: seq<Claimed>, fates: int -> Fate)
    requires Holding(run, w, now, events)
    ensures var longer := run + CycleMoves(w, events, now, fates);
            && Legal(longer) && w !in After(longer).cycles
            && After(longer).table == CycleTable(After(run).table, events, now, fates)
    decreases |events|
  {
    if events == [] {
      OneMore(run, Stop(w));
    } else {
      var fate := fates(events[0].id);
      MovesAreSteps(run, w, now, events, fate);
      if OutcomeOf(events[0], now, fate).Ok? {
        CycleIsSteps(run + Moves(w, fate), w, now, events[1..], fates);
        Regroup(run, Moves(w, fate), CycleMoves(w, events[1..], now, fates));
      } else {
        assert Moves(w, fate) + [] == Moves(w, fate);
      }
    }
  }

  lemma Regroup(x: seq<Action>, y: seq<Action>, z: seq<Action>)
    ensures x + (y + z) == x + y + z
  {
  }

  /** From any reachable state, a whole dispatch cycle is a run of the interleaved machine
      that leads to the same table, so what every run keeps holds of it. */
  lemma DispatchIsARun(run: seq<Action>, w: nat, now: int, limit: int, fates: int -> Fate)
    requires Legal(run) && w !in After(run).cycles && IsI64(now)
    ensures var t := After(run).table;
            var ids := ClaimOrder(t, now, limit);
            var longer := run + [Claim(w, now, ids)] + CycleMoves(w, Batch(t, ids), now, fates);
            && Legal(longer) && w !in After(longer).cycles
            && After(longer).table == DispatchedTable(t, now, limit, fates)
  {
    var t := After(run).table;
    var ids := ClaimOrder(t, now, limit);
    ClaimIsAllowed(After(run), w, now, limit);
    OneMore(run, Claim(w, now, ids));
    CycleIsSteps(run + [Claim(w, now, ids)], w, now, Batch(t, ids), fates);
  }

  class OutboxTable {
    var rows: Table

    constructor (rows: Table)
      ensures this.rows == rows
    {
      this.rows := rows;
    }

    method ClaimDue(now: int, limit: int) returns (events: seq<Claimed>)
      modifies this
      ensures events == Batch(old(rows), ClaimOrder(old(rows), now, limit))
      ensures rows == WithStatus(old(rows), (set id | id in ClaimOrder(old(rows), now, limit)), Sending)
      ensures TakesEarliest(old(rows), now, limit, seq(|events|, i requires 0 <= i < |events| => events[i].id))
      ensures rows.Keys == old(rows).Keys
      ensures forall i :: 0 <= i < |events| ==>
                var id := events[i].id;
                && id in rows && events[i].attempts == old(rows)[id].attempts
                && rows[id] == old(rows)[id].(status := Sending)
      ensures forall id :: id in rows && (forall i :: 0 <= i < |events| ==> events[i].id != id) ==>
                rows[id] == old(rows)[id]
    {
      var ids := ClaimOrder(rows, now, limit);
      ClaimTakesEarliest(rows, now, limit);
      events := Batch(rows, ids);
      assert seq(|events|, i requires 0 <= i < |events| => events[i].id) == ids;
      assert forall id :: id in ids ==> exists i :: 0 <= i < |events| && events[i].id == id;
      rows := WithStatus(rows, (set id | id in ids), Sending);
    }

    method DispatchClaimed(e: Claimed, now: int, fate: Fate) returns (outcome: Result<Disposition, CycleError>)
      modifies this
      ensures rows == EffectOf(old(rows), e, now, fate)
      ensures outcome == OutcomeOf(e, now, fate)
    {
      match fate
      case LookupFails => return Err(Storage);
      case NoPeer(recorded) =>
        if !recorded {
          return Err(Storage);
        }
        var d := RecordFailure(e, now, NO_PEER_CODE);
        return Ok(d);
      case BadBody(recorded) =>
        if !recorded {
          return Err(Storage);
        }
        rows := Record(rows, e.id, DeadPlan(e.attempts, BAD_BODY_CODE));
        return Err(InvalidBody);
      case Answers(answer, recorded) =>
        if !recorded {
          return Err(Storage);
        }
        var d := RecordAnswer(e, now, DispositionOf(answer));
        return Ok(d);
    }

    method RecordFailure(e: Claimed, now: int, code: string) returns (outcome: Disposition)
      modifies this
      ensures rows == Record(old(rows), e.id, NextFailurePlan(now, e.attempts, code))
      ensures outcome == AfterPlan(NextFailurePlan(now, e.attempts, code))
    {
      var plan := NextFailurePlan(now, e.attempts, code);
      rows := Record(rows, e.id, plan);
      outcome := if plan.status == Dead then Permanent(plan.lastError) else Retryable(plan.lastError);
    }

    method RecordAnswer(e: Claimed, now: int, d: Disposition) returns (reported: Disposition)
      modifies this
      ensures rows == Settle(old(rows), e.id, now, e.attempts, d)
      ensures reported == Reported(d, now, e.attempts)
    {
      reported := d;
      match d {
        case Delivered => rows := MarkSent(rows, e.id);
        case Retryable(code) =>
          var outcome := RecordFailure(e, now, code);
          if outcome.Permanent? {
            reported := outcome;
          }
        case Permanent(code) => rows := Record(rows, e.id, DeadPlan(e.attempts, code));
      }
    }

    /** On success the report adds up and every claimed row is in the status its
        outcome names. On an error, with `stopped` rows settled before it, the failing
        row and everything after it are still `Sending`, except that a row with an
        invalid body is dead. Rows that were not claimed never change. */
    method DispatchDue(now: int, limit: int, fates: int -> Fate)
      returns (result: Result<Report, CycleError>, events: seq<Claimed>, ghost stopped: nat)
      modifies this
      ensures events == Batch(old(rows), ClaimOrder(old(rows), now, limit))
      ensures rows == DispatchedTable(old(rows), now, limit, fates)
      ensures Ended(old(rows), rows, events, now, fates, result, stopped)
    {
      ClaimStartsSettling(rows, now, limit, fates);
      events := ClaimDue(now, limit);
      result, stopped := DispatchAll(old(rows), events, now, fates);
    }

    method DispatchAll(ghost before: Table, claimed: seq<Claimed>, now: int, fates: int -> Fate)
      returns (result: Result<Report, CycleError>, ghost stopped: nat)
      requires DistinctEvents(claimed) && Settling(before, rows, claimed, now, fates, 0)
      modifies this
      ensures rows == CycleTable(old(rows), claimed, now, fates)
      ensures Ended(before, rows, claimed, now, fates, result, stopped)
    {
      var report := Report(|claimed|, 0, 0, 0);
      var i := 0;
      assert claimed[0..] == claimed;
      while i < |claimed|
        invariant 0 <= i <= |claimed|
        invariant Progress(before, rows, claimed, now, fates, i, report)
        invariant CycleTable(rows, claimed[i..], now, fates) == CycleTable(old(rows), claimed, now, fates)
      {
        ghost var t := rows;
        TableUnfolds(t, claimed, now, fates, i);
        var outcome := DispatchClaimed(claimed[i], now, fates(claimed[i].id));
        if outcome.Err? {
          EndsWithError(before, t, claimed, now, fates, i, report);
          return Err(outcome.error), i;
        }
        ProgressAdvances(before, t, claimed, now, fates, i, report, outcome.value);
        report := Count(report, outcome.value);
        i := i + 1;
      }
      EndsWithReport(before, rows, claimed, now, fates, report);
      return Ok(report), |claimed|;
    }

    method Count(report: Report, d: Disposition) returns (next: Report)
      ensures next == Counted(report, d)
    {
      match d
      case Delivered => next := report.(sent := report.sent + 1);
      case Retryable(_) => next := report.(failed := report.failed + 1);
      case Permanent(_) => next := report.(dead := report.dead + 1);
    }
  }
}
