/** The lock-free id generator: one packed word changed only by compare-exchange, by
    any number of callers whose steps interleave freely.

    A caller reads the clock once, then loads the word and tries to exchange it until an
    exchange succeeds. An exchange may fail spuriously, and a caller whose millisecond is
    full keeps loading without ever reading the clock again. */
module Snowflake {
  import opened Basics

  const EPOCH_MS: int := 1_735_689_600_000
  const WORD: int := 0x1_0000_0000_0000_0000
  const MAX_SEQ: int := 4095
  const ID_TIME_LIMIT: int := 0x400_0000_0000       // 2^42: the id's time field is full
  const POSITIVE_TIME_LIMIT: int := 0x200_0000_0000 // 2^41: the sign bit of an `i64` is reached

  type U64 = n: int | 0 <= n < WORD

  // ----- Packing ------------------------------------------------------------------------

  /** Milliseconds since the epoch, `u64::saturating_sub`. */
  function Timestamp(nowMs: U64): U64 { Max(nowMs - EPOCH_MS, 0) }

  // The fields below a shifted timestamp are zero, so `|` is addition; bits shifted out
  // of the word are lost.
  function Pack(timestamp: U64, serial: int): U64
    requires 0 <= serial <= MAX_SEQ
  {
    timestamp % 0x10_0000_0000_0000 * 0x1000 + serial
  }

  function IdBits(worker: int, timestamp: U64, serial: int): U64
    requires 0 <= worker < 1024 && 0 <= serial <= MAX_SEQ
  {
    timestamp % ID_TIME_LIMIT * 0x40_0000 + worker * 0x1000 + serial
  }

  /** `as i64`. */
  function AsI64(n: U64): I64 { if n <= I64_MAX then n else n - WORD }

  function Id(worker: int, timestamp: U64, serial: int): I64
    requires 0 <= worker < 1024 && 0 <= serial <= MAX_SEQ
  {
    AsI64(IdBits(worker, timestamp, serial))
  }

  /** The sequence number a caller computes from the word it loaded. */
  function NextSeq(word: U64, timestamp: U64): int {
    if word / 0x1000 == timestamp then word % 0x1000 + 1 else 0
  }

  /** While its time field has not overflowed, an id reads back as what it was made of. */
  lemma IdReadsBack(worker: int, timestamp: U64, serial: int)
    requires 0 <= worker < 1024 && 0 <= serial <= MAX_SEQ && timestamp < ID_TIME_LIMIT
    ensures var bits := IdBits(worker, timestamp, serial);
            bits / 0x40_0000 == timestamp && bits / 0x1000 % 1024 == worker && bits % 0x1000 == serial
  {
    var bits := IdBits(worker, timestamp, serial);
    assert bits / 0x1000 == timestamp * 1024 + worker;
  }

  lemma IdValue(worker: int, timestamp: U64, serial: int)
    requires 0 <= worker < 1024 && 0 <= serial <= MAX_SEQ && timestamp < POSITIVE_TIME_LIMIT
    ensures Id(worker, timestamp, serial) == timestamp * 0x40_0000 + worker * 0x1000 + serial
  {
  }

  /** The audit log's decoding, `(id >> 22) + epoch`, recovers the generation time. */
  lemma AuditTimeIsGenerationTime(worker: int, nowMs: U64, serial: int)
    requires 0 <= worker < 1024 && 0 <= serial <= MAX_SEQ
    requires nowMs < EPOCH_MS + POSITIVE_TIME_LIMIT
    ensures Id(worker, Timestamp(nowMs), serial) / 4_194_304 + 1_735_689_600_000 == Max(nowMs, 1_735_689_600_000)
  {
    IdReadsBack(worker, Timestamp(nowMs), serial);
  }

  /** What a turn of the loop computes from the word it loaded, in plain arithmetic. */
  lemma TurnInNumbers(worker: int, timestamp: U64, prev: U64)
    requires 0 <= worker < 1024
    ensures NextSeq(prev, timestamp) > MAX_SEQ <==> prev / 4096 == timestamp && prev % 4096 == 4095
    ensures timestamp < POSITIVE_TIME_LIMIT && NextSeq(prev, timestamp) <= MAX_SEQ ==>
              var serial := if prev / 4096 == timestamp then prev % 4096 + 1 else 0;
              Id(worker, timestamp, NextSeq(prev, timestamp)) == timestamp * 4_194_304 + worker * 4096 + serial
              && Pack(timestamp, NextSeq(prev, timestamp)) == timestamp * 4096 + serial
  {
    if timestamp < POSITIVE_TIME_LIMIT && NextSeq(prev, timestamp) <= MAX_SEQ {
      IdValue(worker, timestamp, NextSeq(prev, timestamp));
    }
  }

  // ----- The generator object --------------------------------------------------------------

  class SnowflakeGenerator {
    const workerId: int
    var word: U64

    constructor (workerId: int)
      requires 0 <= workerId < 1024
      ensures this.workerId == workerId && word == 0
    {
      this.workerId := workerId;
      word := 0;
    }

    method CompareExchangeWeak(expected: U64, replacement: U64, spurious: bool) returns (ok: bool)
      modifies this
      ensures ok <==> old(word) == expected && !spurious
      ensures word == if ok then replacement else old(word)
    {
      ok := word == expected && !spurious;
      if ok {
        word := replacement;
      }
    }

    /** One turn of the loop in `next_id`, after `prev` was loaded; no id means another
        turn is needed. */
    method Attempt(timestamp: U64, prev: U64, spurious: bool) returns (id: Option<I64>)
      requires 0 <= workerId < 1024
      modifies this
      ensures id.Some? <==> TurnYields(old(word), timestamp, prev, spurious)
      ensures id.Some? ==> id.value == Id(workerId, timestamp, NextSeq(prev, timestamp))
      ensures word == if id.Some? then Pack(timestamp, NextSeq(prev, timestamp)) else old(word)
      // Only a full millisecond, a changed word or a spurious failure stops it.
      ensures id.Some? <==> old(word) == prev && !spurious && !(prev / 4096 == timestamp && prev % 4096 == 4095)
      // The next serial number of the millisecond, behind the worker and the time.
      ensures id.Some? && timestamp < POSITIVE_TIME_LIMIT ==>
                var serial := if prev / 4096 == timestamp then prev % 4096 + 1 else 0;
                id.value == timestamp * 4_194_304 + workerId * 4096 + serial && word == timestamp * 4096 + serial
    {
      TurnInNumbers(workerId, timestamp, prev);
      var serial := NextSeq(prev, timestamp);
      if serial > MAX_SEQ {
        return None;
      }
      var ok := CompareExchangeWeak(prev, Pack(timestamp, serial), spurious);
      return if ok then Some(Id(workerId, timestamp, serial)) else None;
    }
  }

  // ----- Interleaved callers ------------------------------------------------------------

  datatype Caller = Caller(timestamp: U64, loaded: Option<U64>)

  datatype Issued = Issued(timestamp: U64, serial: int)

  // `issued` lists the successful exchanges in the order they happened.
  datatype State = State(word: U64, callers: map<nat, Caller>, issued: seq<Issued>)

  datatype Action =
    | Begin(caller: nat, nowMs: U64)
    | Load(caller: nat)
    | Retry(caller: nat)
    | Exchange(caller: nat)

  predicate Loaded(s: State, c: nat) { c in s.callers && s.callers[c].loaded.Some? }

  predicate Enabled(s: State, a: Action) {
    match a
    case Begin(c, _) => c !in s.callers
    case Load(c) => c in s.callers && s.callers[c].loaded.None?
    case Retry(c) => Loaded(s, c) // full millisecond, spurious failure, or a changed word
    case Exchange(c) =>
      Loaded(s, c) && s.callers[c].loaded.value == s.word && NextSeq(s.word, s.callers[c].timestamp) <= MAX_SEQ
  }

  function Apply(s: State, a: Action): State
    requires Enabled(s, a)
  {
    match a
    case Begin(c, nowMs) => s.(callers := s.callers[c := Caller(Timestamp(nowMs), None)])
    case Load(c) => s.(callers := s.callers[c := s.callers[c].(loaded := Some(s.word))])
    case Retry(c) => s.(callers := s.callers[c := s.callers[c].(loaded := None)])
    case Exchange(c) =>
      var t := s.callers[c].timestamp;
      var serial := NextSeq(s.word, t);
      State(Pack(t, serial), s.callers - {c}, s.issued + [Issued(t, serial)])
  }

  predicate Legal(run: seq<Action>)
    decreases |run|, 0
  {
    run == [] || (Legal(run[..|run| - 1]) && Enabled(After(run[..|run| - 1]), run[|run| - 1]))
  }

  function After(run: seq<Action>): State
    requires Legal(run)
    decreases |run|, 1
  {
    if run == [] then State(0, map[], []) else Apply(After(run[..|run| - 1]), run[|run| - 1])
  }

  /** One turn of the generator's loop, on values: whether it yields an id, which one, and
      the word it leaves. */
  function TurnYields(word: U64, timestamp: U64, prev: U64, spurious: bool): bool {
    NextSeq(prev, timestamp) <= MAX_SEQ && word == prev && !spurious
  }

  /** Whatever a turn of the loop does with a loaded word is one action of this machine: an
      exchange issuing the id the turn returns, or a retry that changes nothing. */
  lemma TurnIsAStep(s: State, c: nat, spurious: bool)
    requires Loaded(s, c)
    ensures var timestamp, prev := s.callers[c].timestamp, s.callers[c].loaded.value;
            var a := if TurnYields(s.word, timestamp, prev, spurious) then Exchange(c) else Retry(c);
            && Enabled(s, a)
            && Apply(s, a).word == (if a.Exchange? then Pack(timestamp, NextSeq(prev, timestamp)) else s.word)
            && Apply(s, a).issued ==
               (if a.Exchange? then s.issued + [Issued(timestamp, NextSeq(prev, timestamp))] else s.issued)
  {
  }

  // ----- What the log looks like -------------------------------------------------------------

  ghost predicate InTime(log: seq<Issued>, limit: int) {
    forall i :: 0 <= i < |log| ==> log[i].timestamp < limit
  }

  /** Each exchange either counts on within the millisecond of the one before it or
      starts again at zero; the very first starts from the zero word. */
  ghost predicate Chained(log: seq<Issued>) {
    && (forall i :: 0 <= i < |log| ==> 0 <= log[i].serial <= MAX_SEQ)
    && (|log| > 0 ==> log[0].serial == if log[0].timestamp == 0 then 1 else 0)
    && forall i :: 0 < i < |log| ==>
         log[i].serial == if log[i].timestamp == log[i - 1].timestamp then log[i - 1].serial + 1 else 0
  }

  ghost predicate Inv(s: State) {
    && Chained(s.issued)
    && s.word == if s.issued == [] then 0
                 else Pack(s.issued[|s.issued| - 1].timestamp, s.issued[|s.issued| - 1].serial)
  }

  lemma StepKeepsInv(s: State, a: Action)
    requires Inv(s) && Enabled(s, a) && InTime(Apply(s, a).issued, ID_TIME_LIMIT)
    ensures Inv(Apply(s, a))
  {
    if a.Exchange? && s.issued != [] {
      var last := s.issued[|s.issued| - 1];
      assert Apply(s, a).issued[|s.issued| - 1] == last;
      assert s.word / 0x1000 == last.timestamp && s.word % 0x1000 == last.serial;
    }
  }

  lemma {:induction false} RunKeepsInv(run: seq<Action>)
    requires Legal(run) && InTime(After(run).issued, ID_TIME_LIMIT)
    ensures Inv(After(run))
    decreases |run|
  {
    if run != [] {
      var s, t := After(run[..|run| - 1]), After(run);
      assert forall i :: 0 <= i < |s.issued| ==> s.issued[i] == t.issued[i];
      RunKeepsInv(run[..|run| - 1]);
      StepKeepsInv(s, run[|run| - 1]);
    }
  }

  // ----- Order and uniqueness ------------------------------------------------------------------

  function IdAt(worker: int, log: seq<Issued>, i: nat): I64
    requires 0 <= worker < 1024 && i < |log| && Chained(log)
  {
    Id(worker, log[i].timestamp, log[i].serial)
  }

  ghost predicate Ascending(worker: int, log: seq<Issued>)
    requires 0 <= worker < 1024 && Chained(log)
  {
    forall i, j :: 0 <= i < j < |log| ==> IdAt(worker, log, i) < IdAt(worker, log, j)
  }

  ghost predicate Distinct(worker: int, log: seq<Issued>)
    requires 0 <= worker < 1024 && Chained(log)
  {
    forall i, j :: 0 <= i < j < |log| ==> IdAt(worker, log, i) != IdAt(worker, log, j)
  }

  ghost predicate TimesNeverFall(log: seq<Issued>) {
    forall i, j :: 0 <= i < j < |log| ==> log[i].timestamp <= log[j].timestamp
  }

  /** The one harmless return. Counting in millisecond zero starts at one when the log
      does, so a single exchange that comes back to it, before and after others, gets the
      unused zero. */
  ghost predicate ReturnsHarmlessly(log: seq<Issued>, i: nat, j: nat)
    requires i < j < |log|
  {
    && (forall m :: 0 <= m <= i ==> log[m].timestamp == 0)
    && log[j].timestamp == 0 && log[j - 1].timestamp != 0
    && (j + 1 < |log| ==> log[j + 1].timestamp != 0)
  }

  /** No exchange returns to a millisecond that another one has left, except harmlessly. */
  ghost predicate NoMillisecondRevisited(log: seq<Issued>) {
    forall i, k, j :: 0 <= i < k < j < |log| && log[i].timestamp == log[j].timestamp != log[k].timestamp ==>
      ReturnsHarmlessly(log, i, j)
  }

  lemma IdOrder(worker: int, log: seq<Issued>, i: nat, j: nat)
    requires 0 <= worker < 1024 && Chained(log) && InTime(log, POSITIVE_TIME_LIMIT) && i < |log| && j < |log|
    ensures IdAt(worker, log, i) < IdAt(worker, log, j) <==>
            log[i].timestamp < log[j].timestamp
            || (log[i].timestamp == log[j].timestamp && log[i].serial < log[j].serial)
  {
    IdValue(worker, log[i].timestamp, log[i].serial);
    IdValue(worker, log[j].timestamp, log[j].serial);
  }

  /** Inside one millisecond the sequence counts up. */
  lemma {:induction false} SeqCountsUp(log: seq<Issued>, i: nat, j: nat)
    requires Chained(log) && i < j < |log|
    requires forall k :: i <= k <= j ==> log[k].timestamp == log[i].timestamp
    ensures log[j].serial == log[i].serial + (j - i)
    decreases j
  {
    if j > i + 1 {
      SeqCountsUp(log, i, j - 1);
    }
  }

  lemma AscendingIffTimesNeverFall(worker: int, log: seq<Issued>)
    requires 0 <= worker < 1024 && Chained(log) && InTime(log, POSITIVE_TIME_LIMIT)
    ensures Ascending(worker, log) <==> TimesNeverFall(log)
  {
    forall i, j | 0 <= i < j < |log| && TimesNeverFall(log) ensures IdAt(worker, log, i) < IdAt(worker, log, j) {
      IdOrder(worker, log, i, j);
      if log[i].timestamp == log[j].timestamp {
        SeqCountsUp(log, i, j);
      }
    }
    forall i, j | 0 <= i < j < |log| && Ascending(worker, log) ensures log[i].timestamp <= log[j].timestamp {
      IdOrder(worker, log, i, j);
      assert IdAt(worker, log, i) < IdAt(worker, log, j);
    }
  }

  /** The first exchange of the stretch of equal milliseconds that `i` lies in. */
  lemma {:induction false} StretchStart(log: seq<Issued>, i: nat) returns (start: nat)
    requires Chained(log) && i < |log|
    ensures start <= i && forall k :: start <= k <= i ==> log[k].timestamp == log[i].timestamp
    ensures log[start].serial == if start == 0 && log[i].timestamp == 0 then 1 else 0
    ensures start > 0 ==> log[start - 1].timestamp != log[i].timestamp
    decreases i
  {
    if i == 0 || log[i - 1].timestamp != log[i].timestamp {
      start := i;
    } else {
      start := StretchStart(log, i - 1);
    }
  }

  lemma RepeatedAt(worker: int, log: seq<Issued>, a: nat, b: nat)
    requires 0 <= worker < 1024 && Chained(log) && a < b < |log| && log[a] == log[b]
    ensures !Distinct(worker, log)
  {
    assert IdAt(worker, log, a) == IdAt(worker, log, b);
  }

  /** Both stretches count up from the same serial, unless the first one is the log's start
      in millisecond zero and the second one is too short to reach serial one. */
  lemma RevisitRepeatsAnId(worker: int, log: seq<Issued>, i: nat, k: nat, j: nat)
    requires 0 <= worker < 1024 && Chained(log) && i < k < j < |log|
    requires log[i].timestamp == log[j].timestamp != log[k].timestamp && !ReturnsHarmlessly(log, i, j)
    ensures !Distinct(worker, log)
  {
    var a := StretchStart(log, i);
    var b := StretchStart(log, j);
    assert k < b;
    if a > 0 || log[i].timestamp > 0 {
      RepeatedAt(worker, log, a, b);
    } else {
      SecondOfStretch(log, i, j, b);
      RepeatedAt(worker, log, a, b + 1);
    }
  }

  lemma SecondOfStretch(log: seq<Issued>, i: nat, j: nat, b: nat)
    requires Chained(log) && i < b <= j < |log| && log[b].serial == 0
    requires forall m :: b <= m <= j ==> log[m].timestamp == 0
    requires forall m :: 0 <= m <= i ==> log[m].timestamp == 0
    requires log[b - 1].timestamp != 0 && !ReturnsHarmlessly(log, i, j)
    ensures b + 1 < |log| && log[b + 1] == Issued(0, 1)
  {
    if b == j {
      assert j + 1 < |log| && log[j + 1].timestamp == 0;
    }
  }

  lemma SameMillisecondDiffers(worker: int, log: seq<Issued>, i: nat, j: nat)
    requires 0 <= worker < 1024 && Chained(log) && NoMillisecondRevisited(log)
    requires i < j < |log| && log[i].timestamp == log[j].timestamp
    ensures log[i].serial != log[j].serial
  {
    if k: nat :| i < k < j && log[k].timestamp != log[i].timestamp {
      assert ReturnsHarmlessly(log, i, j);
      if i > 0 {
        SeqCountsUp(log, 0, i);
      }
    } else {
      SeqCountsUp(log, i, j);
    }
  }

  lemma DistinctIffNotRevisited(worker: int, log: seq<Issued>)
    requires 0 <= worker < 1024 && Chained(log) && InTime(log, POSITIVE_TIME_LIMIT)
    ensures Distinct(worker, log) <==> NoMillisecondRevisited(log)
  {
    forall i, j | 0 <= i < j < |log| && NoMillisecondRevisited(log)
      ensures IdAt(worker, log, i) != IdAt(worker, log, j)
    {
      if log[i].timestamp == log[j].timestamp {
        SameMillisecondDiffers(worker, log, i, j);
      }
      IdOrder(worker, log, i, j);
      IdOrder(worker, log, j, i);
    }
    forall i, k, j | 0 <= i < k < j < |log| && log[i].timestamp == log[j].timestamp != log[k].timestamp
                     && Distinct(worker, log)
      ensures ReturnsHarmlessly(log, i, j)
    {
      if !ReturnsHarmlessly(log, i, j) {
        RevisitRepeatsAnId(worker, log, i, k, j);
      }
    }
  }

  /** Over every interleaving: the ids come out strictly increasing exactly when the
      timestamps of successful exchanges never fall. */
  lemma RunAscendingIff(worker: int, run: seq<Action>)
    requires 0 <= worker < 1024 && Legal(run) && InTime(After(run).issued, POSITIVE_TIME_LIMIT)
    ensures Chained(After(run).issued)
    ensures Ascending(worker, After(run).issued) <==> TimesNeverFall(After(run).issued)
  {
    RunKeepsInv(run);
    AscendingIffTimesNeverFall(worker, After(run).issued);
  }

  /** Over every interleaving: the ids are pairwise distinct exactly when no exchange goes
      back to a millisecond already left, the harmless return to the first one aside. */
  lemma RunDistinctIff(worker: int, run: seq<Action>)
    requires 0 <= worker < 1024 && Legal(run) && InTime(After(run).issued, POSITIVE_TIME_LIMIT)
    ensures Chained(After(run).issued)
    ensures Distinct(worker, After(run).issued) <==> NoMillisecondRevisited(After(run).issued)
  {
    RunKeepsInv(run);
    DistinctIffNotRevisited(worker, After(run).issued);
  }

  /** While timestamps never fall every id is positive, even in millisecond zero on
      worker zero. */
  lemma RunIdsArePositive(worker: int, run: seq<Action>, i: nat)
    requires 0 <= worker < 1024 && Legal(run) && InTime(After(run).issued, POSITIVE_TIME_LIMIT)
    requires TimesNeverFall(After(run).issued) && i < |After(run).issued|
    ensures Chained(After(run).issued) && IdAt(worker, After(run).issued, i) > 0
  {
    RunKeepsInv(run);
    LogIdsArePositive(worker, After(run).issued, i);
  }

  lemma LogIdsArePositive(worker: int, log: seq<Issued>, i: nat)
    requires 0 <= worker < 1024 && Chained(log) && InTime(log, POSITIVE_TIME_LIMIT)
    requires TimesNeverFall(log) && i < |log|
    ensures IdAt(worker, log, i) > 0
  {
    if log[i].timestamp == 0 && i > 0 {
      SeqCountsUp(log, 0, i);
    }
  }

  /** Generators with different worker ids never issue the same id, whatever their
      clocks do. */
  lemma WorkersNeverCollide(w1: int, run1: seq<Action>, i: nat, w2: int, run2: seq<Action>, j: nat)
    requires 0 <= w1 < 1024 && 0 <= w2 < 1024 && w1 != w2 && Legal(run1) && Legal(run2)
    requires InTime(After(run1).issued, ID_TIME_LIMIT) && InTime(After(run2).issued, ID_TIME_LIMIT)
    requires i < |After(run1).issued| && j < |After(run2).issued|
    ensures Chained(After(run1).issued) && Chained(After(run2).issued)
    ensures IdAt(w1, After(run1).issued, i) != IdAt(w2, After(run2).issued, j)
  {
    RunKeepsInv(run1);
    RunKeepsInv(run2);
    var a, b := After(run1).issued[i], After(run2).issued[j];
    WorkersDiffer(w1, a.timestamp, a.serial, w2, b.timestamp, b.serial);
  }

  lemma WorkersDiffer(w1: int, t1: U64, s1: int, w2: int, t2: U64, s2: int)
    requires 0 <= w1 < 1024 && 0 <= w2 < 1024 && w1 != w2 && 0 <= s1 <= MAX_SEQ && 0 <= s2 <= MAX_SEQ
    requires t1 < ID_TIME_LIMIT && t2 < ID_TIME_LIMIT
    ensures Id(w1, t1, s1) != Id(w2, t2, s2)
  {
    IdReadsBack(w1, t1, s1);
    IdReadsBack(w2, t2, s2);
    SignKeepsApart(IdBits(w1, t1, s1), IdBits(w2, t2, s2));
  }

  lemma SignKeepsApart(m: U64, n: U64)
    ensures AsI64(m) == AsI64(n) <==> m == n
  {
  }

  /** Three callers have read the clock, the last one a millisecond later, and the first
      has its id. */
  lemma FirstIdIssued() returns (run: seq<Action>)
    ensures Legal(run) && After(run).word == Pack(1, 0) && After(run).issued == [Issued(1, 0)]
    ensures After(run).callers == map[1 := Caller(1, None), 2 := Caller(2, None)]
  {
    run := Step([], Begin(0, EPOCH_MS + 1));
    run := Step(run, Begin(1, EPOCH_MS + 1));
    run := Step(run, Begin(2, EPOCH_MS + 2));
    assert After(run).callers == map[0 := Caller(1, None), 1 := Caller(1, None), 2 := Caller(2, None)];
    run := Step(run, Load(0));
    run := Step(run, Exchange(0));
  }

  lemma SecondIdIssued() returns (run: seq<Action>)
    ensures Legal(run) && After(run).word == Pack(2, 0) && After(run).issued == [Issued(1, 0), Issued(2, 0)]
    ensures After(run).callers == map[1 := Caller(1, None)]
  {
    run := FirstIdIssued();
    run := Step(run, Load(2));
    run := Step(run, Exchange(2));
  }

  lemma ThirdIdIssued() returns (run: seq<Action>)
    ensures Legal(run) && After(run).issued == [Issued(1, 0), Issued(2, 0), Issued(1, 0)]
  {
    run := SecondIdIssued();
    run := Step(run, Load(1));
    run := Step(run, Exchange(1));
  }

  /** A caller with a stale timestamp really can bring an id back: it is overtaken by a
      later millisecond and then starts its own one again. */
  lemma StaleTimestampRepeatsAnId(worker: int) returns (run: seq<Action>)
    requires 0 <= worker < 1024
    ensures Legal(run) && InTime(After(run).issued, POSITIVE_TIME_LIMIT)
    ensures Chained(After(run).issued) && !Distinct(worker, After(run).issued)
  {
    run := ThirdIdIssued();
    var log := After(run).issued;
    assert Chained(log);
    RepeatedAt(worker, log, 0, 2);
  }

  lemma Step(run: seq<Action>, a: Action) returns (next: seq<Action>)
    requires Legal(run) && Enabled(After(run), a)
    ensures Legal(next) && After(next) == Apply(After(run), a)
  {
    next := run + [a];
    assert next[..|next| - 1] == run && next[|next| - 1] == a;
  }
}
