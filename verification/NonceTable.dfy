/** The `federation_replay_nonces` table: reserving a nonce and pruning expired
    ones, each a single SQL statement. */
module NonceTable {
  import opened Basics
  import opened SqlOrder

  const REPLAY_NONCE_TTL_MS: nat := 10 * 60 * 1000
  const PRUNE_BATCH_LIMIT: nat := 10_000

  // The table's unique constraint is on the peer and the nonce, not the key id.
  datatype NonceKey = NonceKey(peer: string, nonce: string)

  datatype NonceRow = NonceRow(id: int, keyId: string, timestamp: int, expiresAt: int) {
    function Expiry(): Slot { Slot(expiresAt, id) }
  }

  type Rows = map<NonceKey, NonceRow>

  ghost predicate UniqueIds(rows: Rows) {
    forall a, b :: a in rows && b in rows && rows[a].id == rows[b].id ==> a == b
  }

  predicate FreshId(rows: Rows, id: int) { forall k :: k in rows ==> rows[k].id != id }

  /** `INSERT ... ON CONFLICT DO NOTHING`. */
  function Reserved(rows: Rows, key: NonceKey, row: NonceRow): Rows {
    if key in rows then rows else rows[key := row]
  }

  /** Which rows a prune at `cutoff` may forget; the deployed comparison is strict. */
  predicate Expired(row: NonceRow, cutoff: int, strict: bool) {
    row.expiresAt < cutoff || (!strict && row.expiresAt == cutoff)
  }

  function ExpiredSlots(rows: Rows, cutoff: int, strict: bool): set<Slot> {
    set k | k in rows && Expired(rows[k], cutoff, strict) :: rows[k].Expiry()
  }

  function Oldest(rows: Rows, cutoff: int, limit: int, strict: bool): seq<Slot> {
    OrderLimit(ExpiredSlots(rows, cutoff, strict), Clamp(limit, 1, PRUNE_BATCH_LIMIT))
  }

  /** The rows a prune keeps. */
  function Pruned(rows: Rows, cutoff: int, limit: int, strict: bool): (kept: Rows)
    ensures forall k :: k in kept ==> k in rows && kept[k] == rows[k]
    ensures forall k :: k in rows && k !in kept ==> Expired(rows[k], cutoff, strict)
  {
    var oldest := Oldest(rows, cutoff, limit, strict);
    map k | k in rows && rows[k].Expiry() !in oldest :: rows[k]
  }

  /** A prune forgets the oldest expirations first: every expired row it leaves
      behind comes after every row it removes. */
  lemma PruneForgetsOldestFirst(rows: Rows, cutoff: int, limit: int, gone: NonceKey, left: NonceKey)
    requires gone in rows && gone !in Pruned(rows, cutoff, limit, true)
    requires left in Pruned(rows, cutoff, limit, true) && Expired(rows[left], cutoff, true)
    ensures Before(rows[gone].Expiry(), rows[left].Expiry())
  {
    var oldest := Oldest(rows, cutoff, limit, true);
    assert rows[gone].Expiry() in oldest && rows[left].Expiry() !in oldest;
    assert rows[left].Expiry() in ExpiredSlots(rows, cutoff, true);
    var i :| 0 <= i < |oldest| && oldest[i] == rows[gone].Expiry();
  }

  /** A prune removes as many rows as the clamped batch limit allows, and fewer only
      when it has run out of expired rows. */
  lemma PruneFillsItsBatch(rows: Rows, cutoff: int, limit: int)
    requires UniqueIds(rows)
    ensures |rows| - |Pruned(rows, cutoff, limit, true)|
         == Min(Clamp(limit, 1, PRUNE_BATCH_LIMIT), |ExpiredSlots(rows, cutoff, true)|)
  {
    var oldest := Oldest(rows, cutoff, limit, true);
    var kept := Pruned(rows, cutoff, limit, true);
    var gone := set k | k in rows && rows[k].Expiry() in oldest;
    OldestAreHeld(rows, cutoff, limit, gone);
    SameCount(rows, gone, oldest);
    CountRemoved(rows, kept, gone);
  }

  lemma OldestAreHeld(rows: Rows, cutoff: int, limit: int, gone: set<NonceKey>)
    requires gone == set k | k in rows && rows[k].Expiry() in Oldest(rows, cutoff, limit, true)
    ensures forall slot :: slot in Oldest(rows, cutoff, limit, true) ==> Holds(rows, gone, slot)
  {
    forall slot | slot in Oldest(rows, cutoff, limit, true) ensures Holds(rows, gone, slot) {
      assert slot in ExpiredSlots(rows, cutoff, true);
      var k :| k in rows && Expired(rows[k], cutoff, true) && rows[k].Expiry() == slot;
      assert k in gone;
    }
  }

  lemma CountRemoved(rows: Rows, kept: Rows, gone: set<NonceKey>)
    requires gone <= rows.Keys && kept.Keys == rows.Keys - gone
    ensures |rows| - |kept| == |gone|
  {
    assert |rows| == |rows.Keys| && |kept| == |kept.Keys|;
  }

  ghost predicate Holds(rows: Rows, keys: set<NonceKey>, slot: Slot)
    requires keys <= rows.Keys
  {
    exists k :: k in keys && rows[k].Expiry() == slot
  }

  /** Rows with unique ids are counted by their slots. */
  lemma {:induction false} SameCount(rows: Rows, keys: set<NonceKey>, slots: seq<Slot>)
    requires UniqueIds(rows)
    requires keys <= rows.Keys
    requires forall k :: k in keys ==> rows[k].Expiry() in slots
    requires forall i :: 0 <= i < |slots| ==> Holds(rows, keys, slots[i])
    requires forall i, j :: 0 <= i < j < |slots| ==> slots[i] != slots[j]
    ensures |keys| == |slots|
    decreases |slots|
  {
    if slots == [] {
      assert keys == {};
    } else {
      var last := slots[|slots| - 1];
      var k :| k in keys && rows[k].Expiry() == last;
      var front := slots[..|slots| - 1];
      forall i | 0 <= i < |front| ensures Holds(rows, keys - {k}, front[i]) {
        assert Holds(rows, keys, slots[i]);
        var x :| x in keys && rows[x].Expiry() == slots[i];
        assert x in keys - {k};
      }
      forall x | x in keys - {k} ensures rows[x].Expiry() in front {
        assert rows[x].Expiry() != last;
        var i :| 0 <= i < |slots| && slots[i] == rows[x].Expiry();
        assert front[i] == slots[i];
      }
      SameCount(rows, keys - {k}, front);
    }
  }

  // ----- Exactly which rows go ---------------------------------------------------------------

  /** The rows that expired before row `k`, or at the same time under a lower id. */
  function ExpiredBefore(rows: Rows, k: NonceKey): set<NonceKey>
    requires k in rows
  {
    set o | o in rows && (rows[o].expiresAt < rows[k].expiresAt
                          || (rows[o].expiresAt == rows[k].expiresAt && rows[o].id < rows[k].id))
  }

  // Rows with unique ids whose slots stand in the list are no more than the list is long.
  lemma {:induction false} NoMoreThanSlots(rows: Rows, keys: set<NonceKey>, slots: seq<Slot>)
    requires UniqueIds(rows) && keys <= rows.Keys
    requires forall k :: k in keys ==> rows[k].Expiry() in slots
    ensures |keys| <= |slots|
    decreases |slots|
  {
    if slots == [] {
      assert keys == {};
    } else {
      var front, last := slots[..|slots| - 1], slots[|slots| - 1];
      var others := set k | k in keys && rows[k].Expiry() != last;
      forall k | k in others ensures rows[k].Expiry() in front {
        var i :| 0 <= i < |slots| && slots[i] == rows[k].Expiry();
        assert front[i] == slots[i];
      }
      NoMoreThanSlots(rows, others, front);
      if k :| k in keys && rows[k].Expiry() == last {
        assert keys == others + {k};
      } else {
        assert keys == others;
      }
    }
  }

  // Whatever expired before a row that a prune takes was taken before it.
  lemma EarlierIsTakenEarlier(rows: Rows, cutoff: int, oldest: seq<Slot>, limit: int, i: nat, o: NonceKey)
    requires oldest == Oldest(rows, cutoff, limit, true) && i < |oldest|
    requires o in rows && Expired(rows[o], cutoff, true) && Before(rows[o].Expiry(), oldest[i])
    ensures rows[o].Expiry() in oldest[..i]
  {
    assert rows[o].Expiry() in ExpiredSlots(rows, cutoff, true);
    assert rows[o].Expiry() in oldest;
    var j :| 0 <= j < |oldest| && oldest[j] == rows[o].Expiry();
    assert j < i;
    assert oldest[..i][j] == oldest[j];
  }

  lemma PrunedRowHasFewBefore(rows: Rows, cutoff: int, limit: int, k: NonceKey)
    requires UniqueIds(rows) && k in rows && k !in Pruned(rows, cutoff, limit, true)
    ensures rows[k].expiresAt < cutoff && |ExpiredBefore(rows, k)| < Clamp(limit, 1, PRUNE_BATCH_LIMIT)
  {
    var oldest := Oldest(rows, cutoff, limit, true);
    var i :| 0 <= i < |oldest| && oldest[i] == rows[k].Expiry();
    assert Expired(rows[k], cutoff, true);
    forall o | o in ExpiredBefore(rows, k) ensures rows[o].Expiry() in oldest[..i] {
      EarlierIsTakenEarlier(rows, cutoff, oldest, limit, i, o);
    }
    NoMoreThanSlots(rows, ExpiredBefore(rows, k), oldest[..i]);
  }

  lemma KeptRowHasManyBefore(rows: Rows, cutoff: int, limit: int, k: NonceKey)
    requires UniqueIds(rows) && k in Pruned(rows, cutoff, limit, true) && rows[k].expiresAt < cutoff
    ensures |ExpiredBefore(rows, k)| >= Clamp(limit, 1, PRUNE_BATCH_LIMIT)
  {
    var kept := Pruned(rows, cutoff, limit, true);
    var gone := rows.Keys - kept.Keys;
    forall o | o in gone ensures o in ExpiredBefore(rows, k) {
      PruneForgetsOldestFirst(rows, cutoff, limit, o, k);
    }
    SubsetCount(gone, ExpiredBefore(rows, k));
    CountRemoved(rows, kept, gone);
    PruneFillsItsBatch(rows, cutoff, limit);
    var oldest := Oldest(rows, cutoff, limit, true);
    assert rows[k].Expiry() in ExpiredSlots(rows, cutoff, true) && rows[k].Expiry() !in oldest;
    TakenIsNotAll(ExpiredSlots(rows, cutoff, true), oldest, rows[k].Expiry());
  }

  lemma TakenIsNotAll(slots: set<Slot>, taken: seq<Slot>, left: Slot)
    requires left in slots && left !in taken && forall i :: 0 <= i < |taken| ==> taken[i] in slots
    requires forall i, j :: 0 <= i < j < |taken| ==> taken[i] != taken[j]
    ensures |taken| < |slots|
  {
    var held := set x | x in taken;
    ElementCount(taken);
    SubsetCount(held + {left}, slots);
  }

  /** A prune removes exactly the rows that expired before the cutoff and have fewer rows
      before them than the batch has places, which are 1 to 10000. */
  lemma PrunedIff(rows: Rows, cutoff: int, limit: int, k: NonceKey)
    requires UniqueIds(rows) && k in rows
    ensures k !in Pruned(rows, cutoff, limit, true) <==>
            rows[k].expiresAt < cutoff
            && |ExpiredBefore(rows, k)| < (if limit < 1 then 1 else if limit > 10_000 then 10_000 else limit)
  {
    if k !in Pruned(rows, cutoff, limit, true) {
      PrunedRowHasFewBefore(rows, cutoff, limit, k);
    } else if rows[k].expiresAt < cutoff {
      KeptRowHasManyBefore(rows, cutoff, limit, k);
    }
  }

  /** The durable table as the handlers see it. */
  class NonceStore {
    var rows: Rows

    constructor ()
      ensures rows == map[]
    {
      rows := map[];
    }

    ghost predicate Valid()
      reads this
    {
      UniqueIds(rows)
    }

    /** True exactly when the nonce was not yet in the table. An id already used as
        a primary key is a storage error and leaves the table alone. */
    method Reserve(id: int, key: NonceKey, keyId: string, timestamp: int, now: int)
      returns (outcome: Result<bool, ()>)
      requires Valid()
      modifies this
      ensures Valid()
      ensures outcome.Err? <==> key !in old(rows) && !FreshId(old(rows), id)
      ensures outcome.Err? ==> rows == old(rows)
      ensures outcome.Ok? ==> outcome.value == (key !in old(rows))
      ensures outcome.Ok? ==>
                rows == if key in old(rows) then old(rows)
                        else old(rows)[key := NonceRow(id, keyId, timestamp, Min(now + 600_000, I64_MAX))]
      ensures outcome.Ok? ==>
                rows == Reserved(old(rows), key, NonceRow(id, keyId, timestamp, SaturatingAdd(now, REPLAY_NONCE_TTL_MS)))
    {
      if key in rows {
        return Ok(false);
      }
      if !FreshId(rows, id) {
        return Err(());
      }
      rows := rows[key := NonceRow(id, keyId, timestamp, SaturatingAdd(now, REPLAY_NONCE_TTL_MS))];
      return Ok(true);
    }

    method Prune(now: int, limit: int) returns (deleted: nat)
      requires Valid()
      modifies this
      ensures Valid()
      ensures rows == Pruned(old(rows), now, limit, true)
      ensures deleted == |old(rows)| - |rows|
      ensures deleted == Min(Clamp(limit, 1, PRUNE_BATCH_LIMIT), |ExpiredSlots(old(rows), now, true)|)
    {
      var before := |rows|;
      PruneFillsItsBatch(rows, now, limit);
      rows := Pruned(rows, now, limit, true);
      deleted := before - |rows|;
    }
  }
}
