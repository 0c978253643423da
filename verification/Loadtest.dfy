/** Spreading generated users over generated servers and their channels. */
module Loadtest {
  import opened Basics

  const MAX_USERS_PER_CALL: nat := 1000
  const MAX_LIVE_USERS: nat := 5000

  datatype Assignment = Assignment(serverId: int, channelId: int)

  datatype ServerInfo = ServerInfo(serverId: int, channelIds: seq<int>)

  datatype SetupError = BadCount | CapReached

  // ----- Who goes where ------------------------------------------------------------------------

  /** The first `m` users dealt round to `n` servers: those dealt to server `k`. */
  function Members(m: nat, n: nat, k: nat): (r: seq<nat>)
    requires n > 0
    ensures forall i :: i in r ==> i < m
  {
    if m == 0 then []
    else if (m - 1) % n == k then Members(m - 1, n, k) + [m - 1]
    else Members(m - 1, n, k)
  }

  lemma NextQuotient(m: nat, n: nat)
    requires n > 0
    ensures m % n == n - 1 ==> (m + 1) / n == m / n + 1 && (m + 1) % n == 0
    ensures m % n < n - 1 ==> (m + 1) / n == m / n && (m + 1) % n == m % n + 1
  {
    var q, r := m / n, m % n;
    assert m == q * n + r;
    if r == n - 1 {
      assert m + 1 == (q + 1) * n;
      UniqueQuotient(m + 1, n, q + 1, 0);
    } else {
      UniqueQuotient(m + 1, n, q, r + 1);
    }
  }

  lemma UniqueQuotient(m: nat, n: nat, q: nat, r: nat)
    requires n > 0 && m == q * n + r && r < n
    ensures m / n == q && m % n == r
  {
    var p, s := m / n, m % n;
    assert m == p * n + s;
    assert (p - q) * n == r - s;
    NoMultipleBelow(p - q, n);
  }

  lemma NoMultipleBelow(d: int, n: int)
    requires n >= 0
    ensures d >= 1 ==> d * n >= n
    ensures d <= -1 ==> d * n <= -n
  {
    TimesAtLeast(d, n);
    TimesAtLeast(-d, n);
  }

  lemma TimesAtLeast(d: int, n: nat)
    ensures d >= 1 ==> d * n >= n
  {
    if d >= 1 {
      assert d * n == (d - 1) * n + n;
      assert (d - 1) * n >= 0;
    }
  }

  /** Exactly the users whose number leaves remainder `k`, in order, each once: the one at
      place `t` was dealt in round `t`. Server sizes differ by at most one. */
  lemma {:induction false} MembersShape(m: nat, n: nat, k: nat)
    requires k < n
    ensures |Members(m, n, k)| == m / n + (if k < m % n then 1 else 0)
    ensures forall t :: 0 <= t < |Members(m, n, k)| ==> Members(m, n, k)[t] / n == t && Members(m, n, k)[t] % n == k
    ensures forall i: nat :: i < m && i % n == k ==> i in Members(m, n, k)
  {
    if m > 0 {
      MembersShape(m - 1, n, k);
      NextQuotient(m - 1, n);
    }
  }

  /** The members listing without its counting: who is in it, and nobody twice. */
  lemma {:induction false} MembersAreExact(m: nat, n: nat, k: nat)
    requires n > 0
    ensures forall i: nat :: i in Members(m, n, k) <==> i < m && i % n == k
    ensures forall s, t :: 0 <= s < t < |Members(m, n, k)| ==> Members(m, n, k)[s] < Members(m, n, k)[t]
  {
    if m > 0 {
      MembersAreExact(m - 1, n, k);
      var before := Members(m - 1, n, k);
      forall s | 0 <= s < |before| ensures before[s] < m - 1 {
        assert before[s] in before;
      }
    }
  }

  /** No server gets two users more than another, and a server gets none only if there are
      too few users for it. */
  lemma SharesAreEven(m: nat, n: nat, k: nat, l: nat)
    requires k < n && l < n
    ensures |Members(m, n, k)| <= |Members(m, n, l)| + 1
    ensures Members(m, n, k) != [] <==> k < m
  {
    MembersShape(m, n, k);
    MembersShape(m, n, l);
    if k < m {
      UniqueQuotient(k, n, 0, k);
      assert k in Members(m, n, k);
    } else {
      UniqueQuotient(m, n, 0, m);
    }
  }

  // ----- Setup -------------------------------------------------------------------------------------

  /** The ids drawn while servers and channels are created. */
  datatype Ids = Ids(servers: seq<int>, channels: seq<seq<int>>) {
    predicate Cover(n: nat, c: nat) {
      |servers| == |channels| == n && forall k :: 0 <= k < n ==> |channels[k]| == c
    }
  }

  function Place(ids: Ids, n: nat, c: nat, user: nat): Assignment
    requires n > 0 && c > 0 && ids.Cover(n, c)
  {
    Assignment(ids.servers[user % n], ids.channels[user % n][user / n % c])
  }

  method DealUsers(count: nat, n: nat) returns (dealt: seq<seq<nat>>)
    requires n > 0
    ensures |dealt| == n && forall k :: 0 <= k < n ==> dealt[k] == Members(count, n, k)
  {
    var indices := new seq<nat>[n](_ => []);
    for i := 0 to count
      invariant forall k :: 0 <= k < n ==> indices[k] == Members(i, n, k)
    {
      indices[i % n] := indices[i % n] + [i];
    }
    dealt := indices[..];
  }

  ghost predicate PlacedUpTo(assignment: seq<Assignment>, ids: Ids, n: nat, c: nat, k: nat)
    requires n > 0 && c > 0 && ids.Cover(n, c)
  {
    forall i :: 0 <= i < |assignment| && i % n < k ==> assignment[i] == Place(ids, n, c, i)
  }

  method AssignChannels(ids: Ids, n: nat, c: nat, k: nat, members: seq<nat>, count: nat, assignment: array<Assignment>)
    requires n > 0 && c > 0 && ids.Cover(n, c) && k < n
    requires assignment.Length == count && members == Members(count, n, k)
    requires PlacedUpTo(assignment[..], ids, n, c, k)
    modifies assignment
    ensures PlacedUpTo(assignment[..], ids, n, c, k + 1)
  {
    MembersAreExact(count, n, k);
    for t := 0 to |members|
      invariant PlacedUpTo(assignment[..], ids, n, c, k)
      invariant forall s :: 0 <= s < t ==> members[s] < count && assignment[members[s]] == Place(ids, n, c, members[s])
    {
      var user := members[t];
      assert user in members;
      MemberPlace(ids, n, c, count, k, t);
      PlaceOne(assignment[..], ids, n, c, k, user, Place(ids, n, c, user));
      assignment[user] := Assignment(ids.servers[k], ids.channels[k][t % c]);
    }
    forall i | 0 <= i < count && i % n == k ensures assignment[i] == Place(ids, n, c, i) {
      assert i in members;
    }
    PlacedOneMore(assignment[..], ids, n, c, k);
  }

  lemma MemberPlace(ids: Ids, n: nat, c: nat, count: nat, k: nat, t: nat)
    requires n > 0 && c > 0 && ids.Cover(n, c) && k < n && t < |Members(count, n, k)|
    ensures Place(ids, n, c, Members(count, n, k)[t]) == Assignment(ids.servers[k], ids.channels[k][t % c])
  {
    MembersShape(count, n, k);
  }

  lemma PlaceOne(before: seq<Assignment>, ids: Ids, n: nat, c: nat, k: nat, user: nat, a: Assignment)
    requires n > 0 && c > 0 && ids.Cover(n, c) && user < |before| && user % n == k
    requires PlacedUpTo(before, ids, n, c, k)
    ensures PlacedUpTo(before[user := a], ids, n, c, k)
  {
  }

  lemma PlacedOneMore(assignment: seq<Assignment>, ids: Ids, n: nat, c: nat, k: nat)
    requires n > 0 && c > 0 && ids.Cover(n, c) && PlacedUpTo(assignment, ids, n, c, k)
    requires forall i :: 0 <= i < |assignment| && i % n == k ==> assignment[i] == Place(ids, n, c, i)
    ensures PlacedUpTo(assignment, ids, n, c, k + 1)
  {
  }

  lemma NothingToPlace(assignment: seq<Assignment>, ids: Ids, n: nat, c: nat, k: nat)
    requires n > 0 && c > 0 && ids.Cover(n, c) && k < n
    requires PlacedUpTo(assignment, ids, n, c, k) && Members(|assignment|, n, k) == []
    ensures PlacedUpTo(assignment, ids, n, c, k + 1)
  {
    forall i: nat | i < |assignment| ensures i % n != k {
      NoMember(|assignment|, n, k, i);
    }
    PlacedOneMore(assignment, ids, n, c, k);
  }

  lemma NoMember(m: nat, n: nat, k: nat, i: nat)
    requires n > 0 && Members(m, n, k) == [] && i < m
    ensures i % n != k
  {
    MembersAreExact(m, n, k);
    assert i !in Members(m, n, k);
  }

  /** Servers without users are skipped. */
  function InfosUpTo(ids: Ids, n: nat, c: nat, count: nat, k: nat): seq<ServerInfo>
    requires n > 0 && ids.Cover(n, c) && k <= n
  {
    if k == 0 then []
    else
      InfosUpTo(ids, n, c, count, k - 1)
      + (if Members(count, n, k - 1) == [] then [] else [ServerInfo(ids.servers[k - 1], ids.channels[k - 1])])
  }

  method Spread(ids: Ids, n: nat, c: nat, count: nat) returns (assignment: array<Assignment>, infos: seq<ServerInfo>)
    requires n > 0 && c > 0 && ids.Cover(n, c)
    ensures assignment.Length == count && PlacedUpTo(assignment[..], ids, n, c, n)
    ensures infos == InfosUpTo(ids, n, c, count, n)
  {
    var dealt := DealUsers(count, n);
    assignment := new Assignment[count](_ => Assignment(0, 0));
    infos := [];
    for k := 0 to n
      invariant PlacedUpTo(assignment[..], ids, n, c, k)
      invariant infos == InfosUpTo(ids, n, c, count, k)
    {
      if dealt[k] != [] {
        AssignChannels(ids, n, c, k, dealt[k], count, assignment);
        infos := infos + [ServerInfo(ids.servers[k], ids.channels[k])];
      } else {
        NothingToPlace(assignment[..], ids, n, c, k);
      }
    }
  }

  method Setup(requested: Option<int>, servers: Option<int>, channels: Option<int>, existing: nat, ids: Ids)
    returns (result: Result<(seq<Assignment>, seq<ServerInfo>), SetupError>)
    requires ids.Cover(Servers(servers), Servers(channels))
    ensures var count, n, c := (if requested.Some? then requested.value else 100), Servers(servers), Servers(channels);
            match result
            case Err(BadCount) => count < 1 || count > 1000
            case Err(CapReached) => 1 <= count <= 1000 && existing + count > 5000
            case Ok((assignment, infos)) =>
              && 1 <= count <= 1000 && existing + count <= 5000
              && |assignment| == count && (forall i :: 0 <= i < count ==> assignment[i] == Place(ids, n, c, i))
              && infos == InfosUpTo(ids, n, c, count, n)
  {
    var count := Users(requested);
    if count < 1 || count > MAX_USERS_PER_CALL {
      return Err(BadCount);
    }
    if existing + count > MAX_LIVE_USERS {
      return Err(CapReached);
    }
    var assignment, infos := Spread(ids, Servers(servers), Servers(channels), count);
    return Ok((assignment[..], infos));
  }

  function Users(requested: Option<int>): int { if requested.Some? then requested.value else 100 }

  function Servers(requested: Option<int>): (n: nat)
    ensures 1 <= n <= 500
    ensures requested.None? ==> n == 1
    ensures requested.Some? && 1 <= requested.value <= 500 ==> n == requested.value
  {
    Clamp(if requested.Some? then requested.value else 1, 1, 500)
  }

  /** Every user is on a server that was created, in one of that server's channels, and is
      the user dealt to it in round `user / n`. */
  lemma PlacesAreCreated(ids: Ids, n: nat, c: nat, count: nat, user: nat)
    requires 0 < n && 0 < c && ids.Cover(n, c) && user < count
    ensures exists i :: 0 <= i < |InfosUpTo(ids, n, c, count, n)|
                        && InfosUpTo(ids, n, c, count, n)[i].serverId == Place(ids, n, c, user).serverId
                        && Place(ids, n, c, user).channelId in InfosUpTo(ids, n, c, count, n)[i].channelIds
  {
    MembersAreExact(count, n, user % n);
    assert user in Members(count, n, user % n);
    InfoIsListed(ids, n, c, count, user % n, n);
    var info := ServerInfo(ids.servers[user % n], ids.channels[user % n]);
    var i :| 0 <= i < |InfosUpTo(ids, n, c, count, n)| && InfosUpTo(ids, n, c, count, n)[i] == info;
    assert info.channelIds[user / n % c] in info.channelIds;
  }

  /** The servers reported are the ones that have users, which are the first `count`. */
  lemma {:induction false} InfosAreTheUsedServers(ids: Ids, n: nat, c: nat, count: nat, k: nat)
    requires 0 < n && ids.Cover(n, c) && k <= n
    ensures InfosUpTo(ids, n, c, count, k) ==
            seq(Min(k, count), i requires 0 <= i < Min(k, count) => ServerInfo(ids.servers[i], ids.channels[i]))
  {
    if k > 0 {
      InfosAreTheUsedServers(ids, n, c, count, k - 1);
      SharesAreEven(count, n, k - 1, k - 1);
    }
  }

  lemma {:induction false} InfoIsListed(ids: Ids, n: nat, c: nat, count: nat, k: nat, upTo: nat)
    requires 0 < n && ids.Cover(n, c) && k < upTo <= n && Members(count, n, k) != []
    ensures ServerInfo(ids.servers[k], ids.channels[k]) in InfosUpTo(ids, n, c, count, upTo)
  {
    if k < upTo - 1 {
      InfoIsListed(ids, n, c, count, k, upTo - 1);
    }
  }

  /** Inside a server the channels are dealt round in the same way: channel `j` gets the
      members at the places `Members(size, c, j)`, so channel loads differ by at most one. */
  lemma ChannelOfMember(ids: Ids, n: nat, c: nat, count: nat, k: nat, j: nat, t: nat)
    requires 0 < n && 0 < c && ids.Cover(n, c) && k < n && j < c && t < |Members(count, n, k)|
    ensures t in Members(|Members(count, n, k)|, c, j) <==> t % c == j
    ensures Place(ids, n, c, Members(count, n, k)[t]) == Assignment(ids.servers[k], ids.channels[k][t % c])
  {
    MembersShape(count, n, k);
    MembersShape(|Members(count, n, k)|, c, j);
  }
}
