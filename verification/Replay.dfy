/** Replay protection over whole runs.

    A receiving server checks a request's timestamp against its clock, and later, in
    a separate database statement, reserves the request's nonce. Nonces are forgotten
    again by a pruner. Any number of requests are in flight at once, the clock only
    moves forward, and every step below is one atomic action of that system. */
module Replay {
  import opened Basics
  import opened NonceTable
  import RequestAuth

  const MAX_TIMESTAMP_SKEW_MS: nat := 5 * 60 * 1000

  /** `latency` bounds the time between a request passing the clock check and its
      nonce reaching the database. */
  datatype Config = Config(skew: nat, ttl: nat, latency: nat, strictPrune: bool) {
    predicate Valid() {
      skew <= 0x1000_0000_0000_0000 && ttl <= 0x1000_0000_0000_0000 && latency <= 0x1000_0000_0000_0000
    }
  }

  function Deployed(latency: nat): Config {
    Config(MAX_TIMESTAMP_SKEW_MS, REPLAY_NONCE_TTL_MS, latency, true)
  }

  datatype Request = Request(peer: string, keyId: string, nonce: string, timestamp: int) {
    function Key(): NonceKey { NonceKey(peer, nonce) }
  }

  datatype InFlight = InFlight(request: Request, verifiedAt: int)

  datatype Acceptance = Acceptance(request: Request, reservedAt: int)

  datatype State = State(now: int, rows: Rows, inFlight: map<nat, InFlight>, accepted: seq<Acceptance>)

  datatype Action =
    | Tick(to: int)
    | Verify(handler: nat, request: Request)
    | Reserve(handler: nat, id: int, at: int)
    | Abandon(handler: nat)
    | Prune(cutoff: int, limit: int)

  predicate Within(skew: nat, now: int, timestamp: int) { timestamp - skew <= now <= timestamp + skew }

  /** A handler's reading of the clock may be older than the moment its statement
      executes, but never older than its own earlier reading. */
  predicate Enabled(c: Config, s: State, a: Action) {
    match a
    case Tick(to) => s.now <= to <= I64_MAX
    case Verify(h, request) =>
      h !in s.inFlight && 0 < request.timestamp && Within(c.skew, s.now, request.timestamp)
    case Reserve(h, id, at) =>
      h in s.inFlight && FreshId(s.rows, id) && s.inFlight[h].verifiedAt <= at <= s.now
      && s.now - s.inFlight[h].verifiedAt <= c.latency
    case Abandon(h) => h in s.inFlight
    case Prune(cutoff, _) => cutoff <= s.now
  }

  function Apply(c: Config, s: State, a: Action): State
    requires Enabled(c, s, a)
  {
    match a
    case Tick(to) => s.(now := to)
    case Verify(h, request) => s.(inFlight := s.inFlight[h := InFlight(request, s.now)])
    case Reserve(h, id, at) =>
      var request := s.inFlight[h].request;
      var row := NonceRow(id, request.keyId, request.timestamp, SaturatingAdd(at, c.ttl));
      State(s.now, Reserved(s.rows, request.Key(), row), s.inFlight - {h},
            if request.Key() in s.rows then s.accepted else s.accepted + [Acceptance(request, at)])
    case Abandon(h) => s.(inFlight := s.inFlight - {h})
    case Prune(cutoff, limit) => s.(rows := Pruned(s.rows, cutoff, limit, c.strictPrune))
  }

  function Start(now: int): State { State(now, map[], map[], []) }

  predicate Legal(c: Config, start: int, run: seq<Action>)
    decreases |run|, 0
  {
    0 <= start <= I64_MAX
    && (run == [] || (Legal(c, start, run[..|run| - 1])
                      && Enabled(c, After(c, start, run[..|run| - 1]), run[|run| - 1])))
  }

  /** The state a legal run leads to. */
  function After(c: Config, start: int, run: seq<Action>): State
    requires Legal(c, start, run)
    decreases |run|, 1
  {
    if run == [] then Start(start)
    else Apply(c, After(c, start, run[..|run| - 1]), run[|run| - 1])
  }

  // Two requests with this in common are the same signed request sent twice.
  predicate SameRequest(a: Request, b: Request) {
    a.peer == b.peer && a.nonce == b.nonce && a.timestamp == b.timestamp
  }

  ghost predicate AcceptedAtMostOnce(s: State) {
    forall i, j :: 0 <= i < j < |s.accepted| ==> !SameRequest(s.accepted[i].request, s.accepted[j].request)
  }

  /** No run whatsoever lets a request through twice. */
  ghost predicate ReplaySafe(c: Config) {
    forall start, run :: Legal(c, start, run) ==> AcceptedAtMostOnce(After(c, start, run))
  }

  // ----- Safety ---------------------------------------------------------------

  predicate Remembered(c: Config, s: State, a: Acceptance) {
    a.request.Key() in s.rows && s.rows[a.request.Key()].expiresAt == SaturatingAdd(a.reservedAt, c.ttl)
  }

  predicate Outlived(c: Config, s: State, a: Acceptance) { SaturatingAdd(a.reservedAt, c.ttl) < s.now }

  ghost predicate Inv(c: Config, s: State) {
    && s.now <= I64_MAX
    && (forall h :: h in s.inFlight ==>
          s.inFlight[h].verifiedAt <= s.now
          && Within(c.skew, s.inFlight[h].verifiedAt, s.inFlight[h].request.timestamp))
    && (forall i :: 0 <= i < |s.accepted| ==>
          s.accepted[i].request.timestamp - c.skew <= s.accepted[i].reservedAt
          && (Remembered(c, s, s.accepted[i]) || Outlived(c, s, s.accepted[i])))
    && AcceptedAtMostOnce(s)
  }

  /** Once a nonce is forgotten, its request's clock window has already closed. */
  lemma ForgottenMeansTooLate(c: Config, s: State, request: Request, verifiedAt: int, i: nat)
    requires c.strictPrune && c.ttl >= 2 * c.skew + c.latency
    requires Inv(c, s) && i < |s.accepted|
    requires Within(c.skew, verifiedAt, request.timestamp) && s.now - verifiedAt <= c.latency
    requires request.Key() !in s.rows
    ensures !SameRequest(s.accepted[i].request, request)
  {
    assert SameRequest(s.accepted[i].request, request) ==> s.accepted[i].request.Key() == request.Key();
  }

  lemma StepKeepsInv(c: Config, s: State, a: Action)
    requires c.strictPrune && c.ttl >= 2 * c.skew + c.latency
    requires Inv(c, s) && Enabled(c, s, a)
    ensures Inv(c, Apply(c, s, a))
  {
    var t := Apply(c, s, a);
    match a
    case Tick(_) =>
    case Verify(_, _) =>
    case Abandon(_) =>
    case Reserve(h, _, _) =>
      var request := s.inFlight[h].request;
      if request.Key() !in s.rows {
        forall i | 0 <= i < |s.accepted| ensures !SameRequest(s.accepted[i].request, request) {
          ForgottenMeansTooLate(c, s, request, s.inFlight[h].verifiedAt, i);
        }
      }
    case Prune(cutoff, limit) =>
      forall i | 0 <= i < |t.accepted|
        ensures Remembered(c, t, t.accepted[i]) || Outlived(c, t, t.accepted[i])
      {
        var key := t.accepted[i].request.Key();
        if Remembered(c, s, s.accepted[i]) && key !in t.rows {
          assert Expired(s.rows[key], cutoff, true);
        }
      }
  }

  lemma {:induction false} RunKeepsInv(c: Config, start: int, run: seq<Action>)
    requires c.strictPrune && c.ttl >= 2 * c.skew + c.latency
    requires Legal(c, start, run)
    ensures Inv(c, After(c, start, run))
    decreases |run|
  {
    if run != [] {
      RunKeepsInv(c, start, run[..|run| - 1]);
      StepKeepsInv(c, After(c, start, run[..|run| - 1]), run[|run| - 1]);
    }
  }

  // ----- What goes wrong with any shorter lifetime ------------------------------

  const SAMPLE: Request := Request([], [], [], 0)

  function Sample(c: Config): Request { SAMPLE.(timestamp := c.skew + 1) }

  // Accepted at the earliest instant the skew allows.
  function EarlyAcceptance(c: Config): seq<Action> { [Verify(0, Sample(c)), Reserve(0, 0, 1)] }

  // Verified again at the latest instant, and still in flight when the pruner comes.
  function LateCheck(c: Config): seq<Action> {
    [Tick(2 * c.skew + 1), Verify(1, Sample(c)), Tick(2 * c.skew + 1 + c.latency)]
  }

  function LateReservation(c: Config): seq<Action> {
    EarlyAcceptance(c) + LateCheck(c) + [Prune(LateTime(c), 1)] + [Reserve(1, 1, LateTime(c))]
  }

  // When the second reservation comes: the clock window's last instant, plus the gap.
  function LateTime(c: Config): int { 2 * c.skew + 1 + c.latency }

  /** One more action on a legal run. */
  lemma Extend(c: Config, start: int, run: seq<Action>, a: Action)
    requires Legal(c, start, run) && Enabled(c, After(c, start, run), a)
    ensures Legal(c, start, run + [a]) && After(c, start, run + [a]) == Apply(c, After(c, start, run), a)
  {
    var longer := run + [a];
    assert longer[..|longer| - 1] == run && longer[|longer| - 1] == a;
  }

  lemma EarlyAcceptanceHappens(c: Config)
    requires c.Valid()
    ensures Legal(c, 1, EarlyAcceptance(c))
    ensures After(c, 1, EarlyAcceptance(c)) ==
            State(1, map[Sample(c).Key() := NonceRow(0, Sample(c).keyId, Sample(c).timestamp, 1 + c.ttl)],
                  map[], [Acceptance(Sample(c), 1)])
  {
    Extend(c, 1, [], Verify(0, Sample(c)));
    Extend(c, 1, [Verify(0, Sample(c))], Reserve(0, 0, 1));
    assert [] + [Verify(0, Sample(c))] == [Verify(0, Sample(c))];
    assert [Verify(0, Sample(c))] + [Reserve(0, 0, 1)] == EarlyAcceptance(c);
  }

  lemma LateCheckHappens(c: Config)
    requires c.Valid()
    ensures var run := EarlyAcceptance(c) + LateCheck(c);
            && Legal(c, 1, run)
            && After(c, 1, run) ==
               State(2 * c.skew + 1 + c.latency,
                     map[Sample(c).Key() := NonceRow(0, Sample(c).keyId, Sample(c).timestamp, 1 + c.ttl)],
                     map[1 := InFlight(Sample(c), 2 * c.skew + 1)], [Acceptance(Sample(c), 1)])
  {
    EarlyAcceptanceHappens(c);
    var run := EarlyAcceptance(c);
    var first, second, third := Tick(2 * c.skew + 1), Verify(1, Sample(c)), Tick(2 * c.skew + 1 + c.latency);
    Extend(c, 1, run, first);
    Extend(c, 1, run + [first], second);
    Extend(c, 1, run + [first] + [second], third);
    assert run + [first] + [second] + [third] == run + LateCheck(c);
  }

  // The first acceptance is remembered and the second handler holds the same request.
  function LateState(c: Config, rows: Rows): State {
    State(LateTime(c), rows, map[1 := InFlight(Sample(c), 2 * c.skew + 1)], [Acceptance(Sample(c), 1)])
  }

  function FirstRow(c: Config): NonceRow { NonceRow(0, Sample(c).keyId, Sample(c).timestamp, 1 + c.ttl) }

  lemma PruneForgetsFirst(c: Config)
    requires c.Valid()
    requires c.ttl < 2 * c.skew + c.latency || (!c.strictPrune && c.ttl == 2 * c.skew + c.latency)
    ensures Apply(c, LateState(c, map[Sample(c).Key() := FirstRow(c)]), Prune(LateTime(c), 1)) == LateState(c, map[])
  {
    LoneExpiredRowGoes(Sample(c).Key(), FirstRow(c), LateTime(c), c.strictPrune);
  }

  lemma ReserveAcceptsAgain(c: Config)
    requires c.Valid()
    ensures Enabled(c, LateState(c, map[]), Reserve(1, 1, LateTime(c)))
    ensures !AcceptedAtMostOnce(Apply(c, LateState(c, map[]), Reserve(1, 1, LateTime(c))))
  {
    var accepted := Apply(c, LateState(c, map[]), Reserve(1, 1, LateTime(c))).accepted;
    assert SameRequest(accepted[0].request, accepted[1].request);
  }

  lemma PruneThenReserve(c: Config, run: seq<Action>)
    requires c.Valid() && Legal(c, 1, run)
    requires c.ttl < 2 * c.skew + c.latency || (!c.strictPrune && c.ttl == 2 * c.skew + c.latency)
    requires After(c, 1, run) == LateState(c, map[Sample(c).Key() := FirstRow(c)])
    ensures var longer := run + [Prune(LateTime(c), 1)] + [Reserve(1, 1, LateTime(c))];
            Legal(c, 1, longer) && !AcceptedAtMostOnce(After(c, 1, longer))
  {
    PruneForgetsFirst(c);
    ReserveAcceptsAgain(c);
    Extend(c, 1, run, Prune(LateTime(c), 1));
    Extend(c, 1, run + [Prune(LateTime(c), 1)], Reserve(1, 1, LateTime(c)));
  }

  lemma LateReservationReplays(c: Config)
    requires c.Valid()
    requires c.ttl < 2 * c.skew + c.latency || (!c.strictPrune && c.ttl == 2 * c.skew + c.latency)
    ensures Legal(c, 1, LateReservation(c)) && !AcceptedAtMostOnce(After(c, 1, LateReservation(c)))
  {
    LateCheckHappens(c);
    PruneThenReserve(c, EarlyAcceptance(c) + LateCheck(c));
  }

  lemma LoneExpiredRowGoes(key: NonceKey, row: NonceRow, cutoff: int, strict: bool)
    requires Expired(row, cutoff, strict)
    ensures Pruned(map[key := row], cutoff, 1, strict) == map[]
  {
    var rows := map[key := row];
    var slots := ExpiredSlots(rows, cutoff, strict);
    assert rows[key].Expiry() in slots;
    assert slots == {row.Expiry()};
    var oldest := Oldest(rows, cutoff, 1, strict);
    assert oldest[0] == row.Expiry();
  }

  // ----- The exact condition ------------------------------------------------------

  /** The nonce lifetime protects every run exactly when it covers both halves of the
      clock window and the gap between the check and the reservation. */
  lemma ReplaySafeIff(c: Config)
    requires c.Valid() && c.strictPrune
    ensures ReplaySafe(c) <==> c.ttl >= 2 * c.skew + c.latency
  {
    if c.ttl >= 2 * c.skew + c.latency {
      forall start, run | Legal(c, start, run) ensures AcceptedAtMostOnce(After(c, start, run)) {
        RunKeepsInv(c, start, run);
      }
    } else {
      LateReservationReplays(c);
    }
  }

  /** With the deployed ten-minute lifetime and five-minute skew there is no slack:
      check and reservation must carry the same clock reading. */
  lemma DeployedReplaySafeIff(latency: nat)
    requires Deployed(latency).Valid()
    ensures Deployed(latency) == Config(300_000, 600_000, latency, true)
    ensures ReplaySafe(Deployed(latency)) <==> latency == 0
  {
    ReplaySafeIff(Deployed(latency));
  }

  /** Pruning a row in the very millisecond it expires would lose that exactness. */
  lemma StrictPruneIsNeeded(c: Config)
    requires c.Valid() && !c.strictPrune && c.ttl == 2 * c.skew + c.latency
    ensures !ReplaySafe(c) && ReplaySafe(c.(strictPrune := true))
  {
    LateReservationReplays(c);
    ReplaySafeIff(c.(strictPrune := true));
  }

  // ----- The clock check of this machine is the verifier's -----------------------------------

  function RequestOf(v: RequestAuth.VerifiedRequest): Request { Request(v.source, v.keyId, v.nonce, v.timestamp) }

  /** Whatever the signature verifier lets through at the machine's time is a request the
      machine may take in. */
  lemma VerifiedRequestsEnter(
    x: RequestAuth.Scheme, self: string, keys: RequestAuth.KeyStore, method_: string, path: string,
    h: RequestAuth.Headers, body: RequestAuth.Bytes, s: State, handler: nat, latency: nat)
    requires handler !in s.inFlight
    requires RequestAuth.VerifySignature(x, self, keys, s.now, method_, path, h, body).Ok?
    ensures var v := RequestAuth.VerifySignature(x, self, keys, s.now, method_, path, h, body).value;
            Enabled(Deployed(latency), s, Verify(handler, RequestOf(v)))
  {
    RequestAuth.ParsedTimestampFits(h);
  }

  /** Two valid requests with the same canonical text are one request to this machine, so a
      captured request sent again is the same request however it is dressed up. */
  lemma SameTextSameRequest(a: RequestAuth.Request, b: RequestAuth.Request)
    requires a.Valid() && b.Valid() && RequestAuth.Canonical(a) == RequestAuth.Canonical(b)
    ensures SameRequest(Request(a.source, a.keyId, a.nonce, a.timestamp), Request(b.source, b.keyId, b.nonce, b.timestamp))
  {
    RequestAuth.CanonicalInjective(a, b);
  }
}
