/** From event identity to effect: what is queued, delivered any number of times and
    applied, over every run of any set of servers. */
module Delivery {
  import opened Basics
  import opened Text
  import opened Json
  import opened JsonObject
  import opened EventKind
  import opened Protocol
  import opened Runtime
  import opened Producer

  // ----- Event ids --------------------------------------------------------------------

  /** SHA-256 cut to 128 bits is not injective; a run is free of collisions when it
      happens to be injective on what that run hashes. */
  ghost predicate NoCollision(x: Externals, a: string, b: string) {
    ShortDigest(x, a) == ShortDigest(x, b) ==> a == b
  }

  function PreImageOf(source: string, destination: string, e: LocalEvent): string
    requires Permitted(e)
  {
    PreImage(source, destination, KindOf(e), DedupeKey(e))
  }

  lemma {:induction false} PrefixedInjective(a: seq<string>, b: seq<string>)
    requires forall i :: 0 <= i < |a| ==> Lacks(a[i], ':')
    requires forall i :: 0 <= i < |b| ==> Lacks(b[i], ':')
    requires Prefixed(a) == Prefixed(b)
    ensures a == b
  {
    if a != [] && b != [] {
      SplitLast(':', Prefixed(a[..|a| - 1]), a[|a| - 1], Prefixed(b[..|b| - 1]), b[|b| - 1]);
      PrefixedInjective(a[..|a| - 1], b[..|b| - 1]);
      assert a == a[..|a| - 1] + [a[|a| - 1]] && b == b[..|b| - 1] + [b[|b| - 1]];
    }
  }

  lemma DecimalsLackColon(ids: seq<I64>)
    ensures forall i :: 0 <= i < |ids| ==> Lacks(Decimals(ids)[i], ':')
  {
    forall i | 0 <= i < |ids| ensures Lacks(Decimals(ids)[i], ':') {
      DecimalLacks(ids[i], ':');
    }
  }

  lemma DecimalsInjective(a: seq<I64>, b: seq<I64>)
    requires Decimals(a) == Decimals(b)
    ensures a == b
  {
    assert |a| == |Decimals(a)| == |b|;
    forall i | 0 <= i < |a| ensures a[i] == b[i] {
      assert Decimals(a)[i] == Decimals(b)[i];
      ToDecimalInjective(a[i], b[i]);
    }
  }

  lemma ColonSeparatedInjective(a: seq<I64>, b: seq<I64>)
    requires ColonSeparated(a) == ColonSeparated(b)
    ensures a == b
  {
    DecimalsLackColon(a);
    DecimalsLackColon(b);
    PrefixedInjective(Decimals(a), Decimals(b));
    DecimalsInjective(a, b);
  }

  lemma IdLacksNewline(s: string, max: nat)
    requires IsId(s, max)
    ensures Lacks(s, '\n')
  {
  }

  /** The hashed text determines the source, the destination, the kind and the ids. */
  lemma PreImageInjective(s1: string, d1: string, e1: LocalEvent, s2: string, d2: string, e2: LocalEvent)
    requires Permitted(e1) && Permitted(e2)
    requires ValidPeer(s1) && ValidPeer(d1) && ValidPeer(s2) && ValidPeer(d2)
    requires PreImageOf(s1, d1, e1) == PreImageOf(s2, d2, e2)
    ensures s1 == s2 && d1 == d2 && KindOf(e1) == KindOf(e2) && Ids(e1) == Ids(e2)
  {
    IdLacksNewline(s1, 253); IdLacksNewline(d1, 253); IdLacksNewline(s2, 253); IdLacksNewline(d2, 253);
    PermittedNames(KindOf(e1)); PermittedNames(KindOf(e2));
    var k1, k2 := AsStr(KindOf(e1)) + ['\n'] + DedupeKey(e1), AsStr(KindOf(e2)) + ['\n'] + DedupeKey(e2);
    SplitFirst('\n', s1, d1 + ['\n'] + k1, s2, d2 + ['\n'] + k2);
    SplitFirst('\n', d1, k1, d2, k2);
    SplitFirst('\n', AsStr(KindOf(e1)), DedupeKey(e1), AsStr(KindOf(e2)), DedupeKey(e2));
    NamesDiffer(KindOf(e1), KindOf(e2));
    var name := AsStr(KindOf(e1));
    assert ColonSeparated(Ids(e1)) == DedupeKey(e1)[|name|..];
    assert ColonSeparated(Ids(e2)) == DedupeKey(e2)[|name|..];
    ColonSeparatedInjective(Ids(e1), Ids(e2));
  }

  predicate SameIdentity(s1: string, d1: string, e1: LocalEvent, s2: string, d2: string, e2: LocalEvent)
    requires Permitted(e1) && Permitted(e2)
  {
    s1 == s2 && d1 == d2 && KindOf(e1) == KindOf(e2) && Ids(e1) == Ids(e2)
  }

  lemma BuiltHasId(x: Externals, source: string, destination: string, e: LocalEvent, at: I64)
    requires x.WellFormed() && Permitted(e) && Build(x, source, destination, e, Local, at).Ok?
    ensures ValidPeer(source) && ValidPeer(destination)
    ensures Build(x, source, destination, e, Local, at).value.eventId == EventId(x, source, destination, e)
  {
    BuiltFacts(x, source, destination, e, at);
  }

  /** Two envelopes share an event id exactly when they agree on source, destination,
      kind and integer identity; texts and times play no part. */
  lemma SameEventIdIff(
    x: Externals, s1: string, d1: string, e1: LocalEvent, t1: I64, s2: string, d2: string, e2: LocalEvent, t2: I64)
    requires x.WellFormed()
    requires Build(x, s1, d1, e1, Local, t1).Ok? && Build(x, s2, d2, e2, Local, t2).Ok?
    requires Permitted(e1) && Permitted(e2)
    requires NoCollision(x, PreImageOf(s1, d1, e1), PreImageOf(s2, d2, e2))
    ensures Build(x, s1, d1, e1, Local, t1).value.eventId == Build(x, s2, d2, e2, Local, t2).value.eventId
            <==> SameIdentity(s1, d1, e1, s2, d2, e2)
  {
    BuiltHasId(x, s1, d1, e1, t1);
    BuiltHasId(x, s2, d2, e2, t2);
    EventIdsAgreeIff(x, s1, d1, e1, s2, d2, e2);
  }

  lemma EventIdsAgreeIff(
    x: Externals, s1: string, d1: string, e1: LocalEvent, s2: string, d2: string, e2: LocalEvent)
    requires Permitted(e1) && Permitted(e2)
    requires ValidPeer(s1) && ValidPeer(d1) && ValidPeer(s2) && ValidPeer(d2)
    requires NoCollision(x, PreImageOf(s1, d1, e1), PreImageOf(s2, d2, e2))
    ensures EventId(x, s1, d1, e1) == EventId(x, s2, d2, e2) <==> SameIdentity(s1, d1, e1, s2, d2, e2)
  {
    var h1, h2 := ShortDigest(x, PreImageOf(s1, d1, e1)), ShortDigest(x, PreImageOf(s2, d2, e2));
    if EventId(x, s1, d1, e1) == EventId(x, s2, d2, e2) {
      PermittedNames(KindOf(e1));
      PermittedNames(KindOf(e2));
      assert EventId(x, s1, d1, e1)[4..] == AsStr(KindOf(e1)) + [':'] + h1;
      assert EventId(x, s2, d2, e2)[4..] == AsStr(KindOf(e2)) + [':'] + h2;
      SplitFirst(':', AsStr(KindOf(e1)), h1, AsStr(KindOf(e2)), h2);
      PreImageInjective(s1, d1, e1, s2, d2, e2);
    }
  }

  // ----- The receiving handler ----------------------------------------------------------

  datatype Received = Received(decision: Decision, command: Command)

  /** Parse, gate, convert: everything a verified request goes through before it is
      recorded. */
  function Receive(x: Externals, v: Verified, text: string): Option<Received> {
    match FromJson(x, text)
    case Err(_) => None
    case Ok(e) =>
      match Ingress(x, v, e)
      case Err(_) => None
      case Ok(decision) =>
        match CommandFrom(x, e)
        case Err(_) => None
        case Ok(command) => Some(Received(decision, command))
  }

  /** Whatever text is received under whatever verified identity: what comes of it is the
      envelope's own event, from and to the verified peers, and a command for no other
      server than the verified one. */
  lemma ReceivedSpeaksForItsPeer(x: Externals, v: Verified, text: string)
    requires Receive(x, v, text).Some?
    ensures FromJson(x, text).Ok?
    ensures var r, e := Receive(x, v, text).value, FromJson(x, text).value;
            && e.source == v.source && e.destination == v.destination
            && r.decision == Decision(v.source, v.destination, e.eventId, e.kind, x.digest(Print(e.payload)))
            && Says(x, e, r.command)
            && HomeOf(r.command) == if e.kind == InvitePreview then None else Some(v.source)
  {
    var e := FromJson(x, text).value;
    GatesOpenTogether(x, v, e);
    CommandIsWhatWasSent(x, e);
  }

  // ----- Runs ----------------------------------------------------------------------------

  /** A queued row, with the event and time it was built from. */
  datatype Queued = Queued(
    source: string, destination: string, eventId: string, payloadHash: string, body: Json, event: LocalEvent, sentAt: I64)

  // `federation_inbound_events` of every server: who received what from whom.
  datatype Seen = Seen(at: string, source: string, eventId: string)

  // `row` is the queued row that was delivered, if it came from one.
  datatype Applied = Applied(row: Option<nat>, seen: Seen, command: Command)

  datatype State = State(queue: seq<Queued>, seen: set<Seen>, applied: seq<Applied>)

  /** A delivery may be repeated at will; `survives` is false when the receiver stops
      between recording the event and applying it. Any peer may present any text at all
      under the identity its key proves. */
  datatype Action =
    | Enqueue(source: string, destination: string, event: LocalEvent, origin: Origin, at: I64)
    | Deliver(row: nat, survives: bool)
    | Present(peer: Verified, text: string, survives: bool)

  predicate AlreadyQueued(queue: seq<Queued>, source: string, destination: string, eventId: string) {
    exists i :: 0 <= i < |queue| && queue[i].source == source && queue[i].destination == destination
                && queue[i].eventId == eventId
  }

  predicate Enabled(s: State, a: Action) { a.Deliver? ==> a.row < |s.queue| }

  function Apply(x: Externals, s: State, a: Action): State
    requires Enabled(s, a)
  {
    match a
    case Enqueue(source, destination, event, origin, at) =>
      (match Build(x, source, destination, event, origin, at)
       case Err(_) => s
       case Ok(p) =>
         if AlreadyQueued(s.queue, source, destination, p.eventId) then s
         else s.(queue := s.queue + [Queued(source, destination, p.eventId, p.payloadHash, p.body, event, at)]))
    case Deliver(row, survives) =>
      var q := s.queue[row];
      Arrived(x, s, Verified(q.source, q.destination), Print(q.body), Some(row), survives)
    case Present(peer, text, survives) => Arrived(x, s, peer, text, None, survives)
  }

  function Arrived(x: Externals, s: State, v: Verified, text: string, row: Option<nat>, survives: bool): State {
    match Receive(x, v, text)
    case None => s
    case Some(r) => ReceivedBy(s, v, row, survives, r)
  }

  // The inbound record is made first; only a new one is applied.
  function ReceivedBy(s: State, v: Verified, row: Option<nat>, survives: bool, r: Received): State {
    var entry := SeenUnder(v, r);
    if entry in s.seen then s
    else State(s.queue, s.seen + {entry}, if survives then s.applied + [Applied(row, entry, r.command)] else s.applied)
  }

  function SeenUnder(v: Verified, r: Received): Seen { Seen(v.destination, r.decision.source, r.decision.eventId) }

  const EMPTY: State := State([], {}, [])

  predicate Legal(x: Externals, run: seq<Action>)
    decreases |run|, 0
  {
    run == [] || (Legal(x, run[..|run| - 1]) && Enabled(After(x, run[..|run| - 1]), run[|run| - 1]))
  }

  function After(x: Externals, run: seq<Action>): State
    requires Legal(x, run)
    decreases |run|, 1
  {
    if run == [] then EMPTY else Apply(x, After(x, run[..|run| - 1]), run[|run| - 1])
  }

  // ----- The invariant ------------------------------------------------------------------

  ghost predicate Genuine(x: Externals, q: Queued) {
    Permitted(q.event)
    && var p := Build(x, q.source, q.destination, q.event, Local, q.sentAt);
       p.Ok? && p.value == Produced(q.eventId, KindOf(q.event), q.destination, q.payloadHash, q.body)
  }

  predicate SameRow(a: Queued, b: Queued) {
    a.source == b.source && a.destination == b.destination && a.eventId == b.eventId
  }

  function SeenOf(q: Queued): Seen { Seen(q.destination, q.source, q.eventId) }

  /** What was applied is recorded as seen, acts for the peer it came from, and if it came
      from a queued row is the command of that row. */
  predicate AppliedOk(x: Externals, s: State, a: Applied) {
    && a.seen in s.seen && HomeOf(a.command) in {None, Some(a.seen.source)}
    && (a.row.Some? ==>
          a.row.value < |s.queue|
          && var q := s.queue[a.row.value];
             a.seen == SeenOf(q) && Permitted(q.event) && ExpectedCommand(x, q.source, q.event) == Ok(a.command))
  }

  ghost predicate Inv(x: Externals, s: State) {
    && (forall i :: 0 <= i < |s.queue| ==> Genuine(x, s.queue[i]))
    && (forall i, j :: 0 <= i < j < |s.queue| ==> !SameRow(s.queue[i], s.queue[j]))
    && (forall i :: 0 <= i < |s.applied| ==> AppliedOk(x, s, s.applied[i]))
    && (forall i, j :: 0 <= i < j < |s.applied| ==> s.applied[i].seen != s.applied[j].seen)
  }

  /** Delivering a queued row yields its own event id and payload hash, and the command it
      stands for. */
  lemma DeliveryIsFaithful(x: Externals, q: Queued)
    requires x.WellFormed() && Genuine(x, q)
    ensures var r := Receive(x, Verified(q.source, q.destination), Print(q.body));
            match ExpectedCommand(x, q.source, q.event)
            case Err(_) => r == None
            case Ok(command) =>
              r == Some(Received(Decision(q.source, q.destination, q.eventId, KindOf(q.event), q.payloadHash), command))
  {
    BuiltEnvelopeRoundTrip(x, q.source, q.destination, q.event, q.sentAt);
  }

  lemma NewRowKeepsInv(x: Externals, s: State, q: Queued)
    requires Inv(x, s) && Genuine(x, q) && !AlreadyQueued(s.queue, q.source, q.destination, q.eventId)
    ensures Inv(x, s.(queue := s.queue + [q]))
  {
    var t := s.(queue := s.queue + [q]);
    forall i | 0 <= i < |t.queue| ensures Genuine(x, t.queue[i]) {
      assert i < |s.queue| ==> Genuine(x, s.queue[i]);
    }
    forall i | 0 <= i < |t.applied| ensures AppliedOk(x, t, t.applied[i]) {
      assert AppliedOk(x, s, s.applied[i]);
    }
  }

  lemma EnqueueKeepsInv(x: Externals, s: State, a: Action)
    requires Inv(x, s) && a.Enqueue?
    ensures Inv(x, Apply(x, s, a))
  {
    var p := Build(x, a.source, a.destination, a.event, a.origin, a.at);
    if p.Ok? && !AlreadyQueued(s.queue, a.source, a.destination, p.value.eventId) {
      if !Permitted(a.event) || a.origin != Local {
        NothingElseIsBuilt(x, a.source, a.destination, a.event, a.origin, a.at);
      }
      NewRowKeepsInv(x, s, Queued(a.source, a.destination, p.value.eventId, p.value.payloadHash, p.value.body,
                                  a.event, a.at));
    }
  }

  lemma FirstArrivalKeepsInv(x: Externals, s: State, a: Applied, applied: seq<Applied>)
    requires Inv(x, s) && a.seen !in s.seen && (applied == s.applied || applied == s.applied + [a])
    requires AppliedOk(x, s.(seen := s.seen + {a.seen}), a)
    ensures Inv(x, State(s.queue, s.seen + {a.seen}, applied))
  {
    var t := State(s.queue, s.seen + {a.seen}, applied);
    forall i | 0 <= i < |s.applied| ensures AppliedOk(x, t, s.applied[i]) && s.applied[i].seen != a.seen {
      assert AppliedOk(x, s, s.applied[i]);
    }
    assert AppliedOk(x, t, a);
  }

  // What a delivery from a queued row brings is that row's own.
  ghost predicate BringsItsRow(x: Externals, s: State, row: Option<nat>, entry: Seen, command: Command) {
    row.Some? ==>
      row.value < |s.queue| && entry == SeenOf(s.queue[row.value]) && Permitted(s.queue[row.value].event)
      && ExpectedCommand(x, s.queue[row.value].source, s.queue[row.value].event) == Ok(command)
  }

  lemma ReceivedKeepsInv(x: Externals, s: State, v: Verified, row: Option<nat>, survives: bool, r: Received)
    requires Inv(x, s) && HomeOf(r.command) in {None, Some(r.decision.source)}
    requires BringsItsRow(x, s, row, SeenUnder(v, r), r.command)
    ensures Inv(x, ReceivedBy(s, v, row, survives, r))
  {
    if SeenUnder(v, r) !in s.seen {
      FirstArrivalKeepsInv(x, s, Applied(row, SeenUnder(v, r), r.command), ReceivedBy(s, v, row, survives, r).applied);
    }
  }

  lemma ArrivalKeepsInv(x: Externals, s: State, v: Verified, text: string, row: Option<nat>, survives: bool)
    requires Inv(x, s)
    requires Receive(x, v, text).Some? ==>
               BringsItsRow(x, s, row, SeenUnder(v, Receive(x, v, text).value), Receive(x, v, text).value.command)
    ensures Inv(x, Arrived(x, s, v, text, row, survives))
  {
    if Receive(x, v, text).Some? {
      ReceivedSpeaksForItsPeer(x, v, text);
      ReceivedKeepsInv(x, s, v, row, survives, Receive(x, v, text).value);
    }
  }

  lemma DeliverKeepsInv(x: Externals, s: State, a: Action)
    requires x.WellFormed() && Inv(x, s) && a.Deliver? && Enabled(s, a)
    ensures Inv(x, Apply(x, s, a))
  {
    var q := s.queue[a.row];
    assert Genuine(x, q);
    DeliveryIsFaithful(x, q);
    ArrivalKeepsInv(x, s, Verified(q.source, q.destination), Print(q.body), Some(a.row), a.survives);
  }

  lemma {:induction false} RunKeepsInv(x: Externals, run: seq<Action>)
    requires x.WellFormed() && Legal(x, run)
    ensures Inv(x, After(x, run))
    decreases |run|
  {
    if run != [] {
      RunKeepsInv(x, run[..|run| - 1]);
      var s, a := After(x, run[..|run| - 1]), run[|run| - 1];
      match a {
        case Enqueue(_, _, _, _, _) => EnqueueKeepsInv(x, s, a);
        case Deliver(_, _) => DeliverKeepsInv(x, s, a);
        case Present(peer, text, survives) => ArrivalKeepsInv(x, s, peer, text, None, survives);
      }
    }
  }

  // ----- Whole runs ------------------------------------------------------------------------

  predicate SameEvent(a: Queued, b: Queued) {
    Permitted(a.event) && Permitted(b.event)
    && SameIdentity(a.source, a.destination, a.event, b.source, b.destination, b.event)
  }

  /** However often an event is enqueued, it has one row per destination, whatever
      becomes of that row. */
  lemma OneRowPerIdentity(x: Externals, run: seq<Action>, i: nat, j: nat)
    requires x.WellFormed() && Legal(x, run) && i < j < |After(x, run).queue|
    ensures Permitted(After(x, run).queue[i].event) && Permitted(After(x, run).queue[j].event)
    ensures !SameEvent(After(x, run).queue[i], After(x, run).queue[j])
  {
    RunKeepsInv(x, run);
    var a, b := After(x, run).queue[i], After(x, run).queue[j];
    assert Genuine(x, a) && Genuine(x, b) && !SameRow(a, b);
    GenuineRowsDiffer(x, a, b);
  }

  lemma GenuineRowsDiffer(x: Externals, a: Queued, b: Queued)
    requires x.WellFormed() && Genuine(x, a) && Genuine(x, b) && !SameRow(a, b)
    ensures !SameEvent(a, b)
  {
    BuiltEnvelopeRoundTrip(x, a.source, a.destination, a.event, a.sentAt);
    BuiltEnvelopeRoundTrip(x, b.source, b.destination, b.event, b.sentAt);
  }

  /** In every run, whatever else is presented, what is delivered from a queued row is exactly
      the command its event stands for, and no event is delivered and applied twice. */
  lemma AppliedAtMostOnce(x: Externals, run: seq<Action>, i: nat)
    requires x.WellFormed() && Legal(x, run) && i < |After(x, run).applied| && After(x, run).applied[i].row.Some?
    ensures var s := After(x, run);
            var m := s.applied[i].row.value;
            && m < |s.queue| && Permitted(s.queue[m].event)
            && ExpectedCommand(x, s.queue[m].source, s.queue[m].event) == Ok(s.applied[i].command)
            && forall j :: 0 <= j < |s.applied| && j != i && s.applied[j].row.Some? ==>
                 s.applied[j].row.value < |s.queue| && !SameEvent(s.queue[m], s.queue[s.applied[j].row.value])
  {
    RunKeepsInv(x, run);
    var s := After(x, run);
    var m := s.applied[i].row.value;
    assert AppliedOk(x, s, s.applied[i]);
    forall j | 0 <= j < |s.applied| && j != i && s.applied[j].row.Some?
      ensures s.applied[j].row.value < |s.queue| && !SameEvent(s.queue[m], s.queue[s.applied[j].row.value])
    {
      var n := s.applied[j].row.value;
      assert AppliedOk(x, s, s.applied[j]);
      assert m != n;
      OneRowPerIdentity(x, run, if m < n then m else n, if m < n then n else m);
    }
  }

  /** In every run: the first delivery of a queued row that reaches a receiver applies its
      command, later ones and refused events change nothing. */
  lemma FirstDeliveryApplies(x: Externals, run: seq<Action>, row: nat, survives: bool)
    requires x.WellFormed() && Legal(x, run) && row < |After(x, run).queue|
    ensures Permitted(After(x, run).queue[row].event)
    ensures var s := After(x, run);
            var q := s.queue[row];
            Apply(x, s, Deliver(row, survives)) ==
            match ExpectedCommand(x, q.source, q.event)
            case Err(_) => s
            case Ok(command) =>
              var entry := Seen(q.destination, q.source, q.eventId);
              if entry in s.seen then s
              else State(s.queue, s.seen + {entry},
                         if survives then s.applied + [Applied(Some(row), entry, command)] else s.applied)
  {
    RunKeepsInv(x, run);
    assert Genuine(x, After(x, run).queue[row]);
    DeliveryIsFaithful(x, After(x, run).queue[row]);
  }

  /** In every run, a command is applied only for the server whose key proved the delivery,
      and at most once for each event id that server uses towards the receiver, whatever
      text anyone presents. */
  lemma PeersActForThemselves(x: Externals, run: seq<Action>, i: nat)
    requires x.WellFormed() && Legal(x, run) && i < |After(x, run).applied|
    ensures var s := After(x, run);
            && s.applied[i].seen in s.seen && HomeOf(s.applied[i].command) in {None, Some(s.applied[i].seen.source)}
            && forall j :: 0 <= j < |s.applied| && j != i ==> s.applied[j].seen != s.applied[i].seen
  {
    RunKeepsInv(x, run);
    assert AppliedOk(x, After(x, run), After(x, run).applied[i]);
  }

  /** What presenting a text does: nothing, or one new event of the presenting peer's own. */
  lemma PresentingAddsOwnEvents(x: Externals, s: State, peer: Verified, text: string, survives: bool)
    ensures var t := Apply(x, s, Present(peer, text, survives));
            && t.queue == s.queue
            && (t == s
                || exists eventId, command ::
                     var entry := Seen(peer.destination, peer.source, eventId);
                     && entry !in s.seen && t.seen == s.seen + {entry} && HomeOf(command) in {None, Some(peer.source)}
                     && t.applied == if survives then s.applied + [Applied(None, entry, command)] else s.applied)
  {
    if Receive(x, peer, text).Some? {
      var r := Receive(x, peer, text).value;
      ReceivedSpeaksForItsPeer(x, peer, text);
      var entry := Seen(peer.destination, peer.source, r.decision.eventId);
      if entry !in s.seen {
        assert Apply(x, s, Present(peer, text, survives)).seen == s.seen + {entry};
      }
    }
  }

  // A queued row and a newly built envelope share an event id as they share an identity.
  lemma RowMatchesIff(x: Externals, q: Queued, source: string, destination: string, e: LocalEvent, at: I64)
    requires x.WellFormed() && Genuine(x, q) && Permitted(e) && Build(x, source, destination, e, Local, at).Ok?
    requires Permitted(q.event) ==>
               NoCollision(x, PreImageOf(q.source, q.destination, q.event), PreImageOf(source, destination, e))
    ensures Permitted(q.event)
    ensures q.source == source && q.destination == destination
            && q.eventId == Build(x, source, destination, e, Local, at).value.eventId
            <==> SameIdentity(q.source, q.destination, q.event, source, destination, e)
  {
    SameEventIdIff(x, q.source, q.destination, q.event, q.sentAt, source, destination, e, at);
  }

  predicate Matches(q: Queued, source: string, destination: string, e: LocalEvent)
    requires Permitted(e)
  {
    Permitted(q.event) && SameIdentity(q.source, q.destination, q.event, source, destination, e)
  }

  /** Without collisions a new event is turned away as a duplicate exactly when its own
      identity was queued before: no other event can take its place. A member who
      leaves and joins again therefore sends no second join. */
  lemma DuplicateIff(
    x: Externals, run: seq<Action>, source: string, destination: string, e: LocalEvent, at: I64)
    requires x.WellFormed() && Legal(x, run) && Build(x, source, destination, e, Local, at).Ok? && Permitted(e)
    requires forall i :: 0 <= i < |After(x, run).queue| && Permitted(After(x, run).queue[i].event) ==>
               var q := After(x, run).queue[i];
               NoCollision(x, PreImageOf(q.source, q.destination, q.event), PreImageOf(source, destination, e))
    ensures Apply(x, After(x, run), Enqueue(source, destination, e, Local, at)) == After(x, run)
            <==> exists i :: 0 <= i < |After(x, run).queue| && Matches(After(x, run).queue[i], source, destination, e)
  {
    RunKeepsInv(x, run);
    var s, p := After(x, run), Build(x, source, destination, e, Local, at).value;
    forall i | 0 <= i < |s.queue|
      ensures (s.queue[i].source == source && s.queue[i].destination == destination && s.queue[i].eventId == p.eventId)
              <==> Matches(s.queue[i], source, destination, e)
    {
      RowMatchesIff(x, s.queue[i], source, destination, e, at);
    }
    QueuedIff(x, s, source, destination, e, at);
  }

  lemma QueuedIff(x: Externals, s: State, source: string, destination: string, e: LocalEvent, at: I64)
    requires Build(x, source, destination, e, Local, at).Ok?
    ensures Apply(x, s, Enqueue(source, destination, e, Local, at)) == s <==>
            AlreadyQueued(s.queue, source, destination, Build(x, source, destination, e, Local, at).value.eventId)
  {
    var t := Apply(x, s, Enqueue(source, destination, e, Local, at));
    assert t != s ==> |t.queue| == |s.queue| + 1;
  }
}
