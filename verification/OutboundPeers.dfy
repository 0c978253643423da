/** Which peers an event is sent to: the route table, the query over it, and the selection
    the producer makes from its rows. */
module OutboundPeers {
  import opened Basics
  import JsonObject

  datatype Scope = Server(id: I64) | Channel(id: I64) | Dm(id: I64) | Principal(id: I64)

  datatype Peer = Peer(peerId: string, routes: seq<Scope>, active: bool)

  datatype Source = Local | InboundFederation

  // ----- Selection -----------------------------------------------------------------------------

  predicate Matches(route: Scope, scope: Scope) {
    match (route, scope)
    case (Server(r), Server(s)) => r == s
    case (Channel(r), Channel(s)) => r == s
    case (Dm(r), Dm(s)) => r == s
    case (Principal(r), Principal(s)) => r == s
    case _ => false
  }

  predicate Wanted(p: Peer, localId: string, scope: Scope) {
    p.active && p.peerId != localId && exists i :: 0 <= i < |p.routes| && Matches(p.routes[i], scope)
  }

  /** The ids to send to, as a set. */
  function Targets(candidates: seq<Peer>, localId: string, scope: Scope, source: Source): set<string> {
    if source == InboundFederation then {}
    else (set i | 0 <= i < |candidates| && Wanted(candidates[i], localId, scope) :: candidates[i].peerId)
  }

  predicate AtMost(a: string, b: string) { a == b || JsonObject.Less(a, b) }

  predicate Ascending(s: seq<string>) { forall i, j :: 0 <= i < j < |s| ==> AtMost(s[i], s[j]) }

  predicate StrictlyAscending(s: seq<string>) { forall i, j :: 0 <= i < j < |s| ==> JsonObject.Less(s[i], s[j]) }

  function Elements(s: seq<string>): set<string> { set i | 0 <= i < |s| :: s[i] }

  function Placed(s: seq<string>, x: string): seq<string> {
    if s == [] then [x] else if AtMost(x, s[0]) then [x] + s else [s[0]] + Placed(s[1..], x)
  }

  /** What sorting a vector of strings leaves in it. */
  function Sorted(s: seq<string>): seq<string> {
    if s == [] then [] else Placed(Sorted(s[..|s| - 1]), s[|s| - 1])
  }

  /** Runs of equal neighbours cut down to one. */
  function Deduped(s: seq<string>): seq<string> {
    if |s| < 2 then s
    else if s[|s| - 2] == s[|s| - 1] then Deduped(s[..|s| - 1])
    else Deduped(s[..|s| - 1]) + [s[|s| - 1]]
  }

  lemma {:induction false} PlacedIsAscending(s: seq<string>, x: string)
    requires Ascending(s)
    ensures Ascending(Placed(s, x)) && Elements(Placed(s, x)) == Elements(s) + {x}
  {
    var r := Placed(s, x);
    if s != [] && !AtMost(x, s[0]) {
      PlacedIsAscending(s[1..], x);
      JsonObject.LessIsTotal(x, s[0]);
      var rest := Placed(s[1..], x);
      forall j | 0 <= j < |rest| ensures AtMost(s[0], rest[j]) {
        assert rest[j] in Elements(rest);
        if rest[j] != x {
          var i :| 0 <= i < |s[1..]| && s[1..][i] == rest[j];
          assert rest[j] == s[i + 1];
        }
      }
      assert Elements(r) == {s[0]} + Elements(rest) by {
        assert r == [s[0]] + rest;
        ElementsOfCons(s[0], rest);
      }
      assert s == [s[0]] + s[1..];
      ElementsOfCons(s[0], s[1..]);
    } else {
      ElementsOfCons(x, s);
      forall j | 0 <= j < |s| ensures AtMost(x, s[j]) {
        if j > 0 && x != s[0] && s[0] != s[j] {
          JsonObject.LessIsTransitive(x, s[0], s[j]);
        }
      }
    }
  }

  lemma ElementsOfCons(x: string, s: seq<string>)
    ensures Elements([x] + s) == {x} + Elements(s)
  {
    forall y | y in Elements(s) ensures y in Elements([x] + s) {
      var i :| 0 <= i < |s| && s[i] == y;
      assert ([x] + s)[i + 1] == y;
    }
    assert ([x] + s)[0] == x;
  }

  lemma ElementsOfSnoc(s: seq<string>, x: string)
    ensures Elements(s + [x]) == Elements(s) + {x}
  {
    forall y | y in Elements(s) ensures y in Elements(s + [x]) {
      var i :| 0 <= i < |s| && s[i] == y;
      assert (s + [x])[i] == y;
    }
    assert (s + [x])[|s|] == x;
  }

  lemma {:induction false} SortedIsAscending(s: seq<string>)
    ensures Ascending(Sorted(s)) && Elements(Sorted(s)) == Elements(s)
  {
    if s != [] {
      SortedIsAscending(s[..|s| - 1]);
      PlacedIsAscending(Sorted(s[..|s| - 1]), s[|s| - 1]);
      ElementsOfSnoc(s[..|s| - 1], s[|s| - 1]);
      assert s == s[..|s| - 1] + [s[|s| - 1]];
    }
  }

  lemma {:induction false} DedupedIsStrict(s: seq<string>)
    requires Ascending(s)
    ensures StrictlyAscending(Deduped(s)) && Elements(Deduped(s)) == Elements(s)
    ensures s != [] ==> Deduped(s) != [] && Deduped(s)[|Deduped(s)| - 1] == s[|s| - 1]
  {
    if |s| >= 2 {
      var before, last := s[..|s| - 1], s[|s| - 1];
      DedupedIsStrict(before);
      ElementsOfSnoc(before, last);
      assert s == before + [last];
      var shorter := Deduped(before);
      if before[|before| - 1] == last {
        assert last in Elements(before);
      } else {
        ElementsOfSnoc(shorter, last);
        AppendKeepsStrict(shorter, last);
      }
    }
  }

  lemma AppendKeepsStrict(s: seq<string>, x: string)
    requires StrictlyAscending(s) && s != [] && JsonObject.Less(s[|s| - 1], x)
    ensures StrictlyAscending(s + [x])
  {
    forall i | 0 <= i < |s| ensures JsonObject.Less(s[i], x) {
      if i < |s| - 1 {
        JsonObject.LessIsTransitive(s[i], s[|s| - 1], x);
      }
    }
  }

  method SelectOutboundPeers(candidates: seq<Peer>, localId: string, scope: Scope, source: Source)
    returns (selected: seq<string>)
    ensures StrictlyAscending(selected)
    ensures Elements(selected) == Targets(candidates, localId, scope, source)
    ensures forall id :: id in Elements(selected) <==>
              source == Local && id != localId
              && exists i :: 0 <= i < |candidates| && candidates[i].peerId == id && candidates[i].active
                             && scope in candidates[i].routes
  {
    WantedIff(candidates, localId, scope);
    if source == InboundFederation {
      return [];
    }
    selected := [];
    for k := 0 to |candidates|
      invariant Elements(selected) == Targets(candidates[..k], localId, scope, source)
    {
      var peer := candidates[k];
      assert candidates[..k + 1] == candidates[..k] + [peer];
      TargetsOfSnoc(candidates[..k], peer, localId, scope);
      if peer.active && peer.peerId != localId {
        if Wanted(peer, localId, scope) {
          ElementsOfSnoc(selected, peer.peerId);
          selected := selected + [peer.peerId];
        }
      }
    }
    assert candidates[..|candidates|] == candidates;
    SortedIsAscending(selected);
    selected := Sorted(selected);
    DedupedIsStrict(selected);
    selected := Deduped(selected);
  }

  // A route wants an event exactly if it is the event's own scope.
  lemma WantedIff(peers: seq<Peer>, localId: string, scope: Scope)
    ensures forall i :: 0 <= i < |peers| ==>
              (Wanted(peers[i], localId, scope) <==>
                 peers[i].active && peers[i].peerId != localId && scope in peers[i].routes)
  {
    forall i | 0 <= i < |peers|
      ensures Wanted(peers[i], localId, scope) <==>
              peers[i].active && peers[i].peerId != localId && scope in peers[i].routes
    {
      RoutesMatchIff(peers[i].routes, scope);
    }
  }

  lemma RoutesMatchIff(routes: seq<Scope>, scope: Scope)
    ensures (exists i :: 0 <= i < |routes| && Matches(routes[i], scope)) <==> scope in routes
  {
    if scope in routes {
      var i :| 0 <= i < |routes| && routes[i] == scope;
      assert Matches(routes[i], scope);
    }
  }

  lemma TargetsOfSnoc(peers: seq<Peer>, p: Peer, localId: string, scope: Scope)
    ensures Targets(peers + [p], localId, scope, Local) ==
            Targets(peers, localId, scope, Local) + (if Wanted(p, localId, scope) then {p.peerId} else {})
  {
    var all := peers + [p];
    forall y | y in Targets(peers, localId, scope, Local) ensures y in Targets(all, localId, scope, Local) {
      var i :| 0 <= i < |peers| && Wanted(peers[i], localId, scope) && peers[i].peerId == y;
      assert all[i] == peers[i];
    }
    if Wanted(p, localId, scope) {
      assert all[|peers|] == p;
    }
  }

  /** A set has only one strictly ascending listing, so the result is determined by the
      targets alone: not by the order of the candidates nor by how often one is listed. */
  lemma {:induction false} ListingIsUnique(a: seq<string>, b: seq<string>)
    requires StrictlyAscending(a) && StrictlyAscending(b) && Elements(a) == Elements(b)
    ensures a == b
  {
    EmptyListing(a);
    EmptyListing(b);
    if a != [] {
      SameFirst(a, b);
      WithoutFirst(a);
      WithoutFirst(b);
      ListingIsUnique(a[1..], b[1..]);
      assert a == [a[0]] + a[1..] && b == [b[0]] + b[1..];
    }
  }

  lemma EmptyListing(s: seq<string>)
    ensures s == [] <==> Elements(s) == {}
  {
    if s != [] {
      assert s[0] in Elements(s);
    }
  }

  lemma SameFirst(a: seq<string>, b: seq<string>)
    requires a != [] && b != [] && StrictlyAscending(a) && StrictlyAscending(b) && Elements(a) == Elements(b)
    ensures a[0] == b[0]
  {
    assert a[0] in Elements(a) && b[0] in Elements(b);
    var i :| 0 <= i < |b| && b[i] == a[0];
    var j :| 0 <= j < |a| && a[j] == b[0];
    NotBothWays(a[0], b[0]);
  }

  lemma NotBothWays(x: string, y: string)
    ensures !(JsonObject.Less(x, y) && JsonObject.Less(y, x))
  {
    if JsonObject.Less(x, y) {
      JsonObject.LessIsStrict(x, y);
    }
  }

  lemma WithoutFirst(s: seq<string>)
    requires s != [] && StrictlyAscending(s)
    ensures StrictlyAscending(s[1..]) && Elements(s[1..]) == Elements(s) - {s[0]}
  {
    assert s == [s[0]] + s[1..];
    ElementsOfCons(s[0], s[1..]);
    forall i | 0 <= i < |s[1..]| ensures s[1..][i] != s[0] {
      JsonObject.LessIsStrict(s[0], s[i + 1]);
    }
  }

  // ----- The route table ------------------------------------------------------------------------

  datatype ScopeRow = ScopeRow(scopeType: string, scopeId: I64)

  const SERVER: string := "server"
  const CHANNEL: string := "channel"
  const DM: string := "dm"
  const PRINCIPAL: string := "principal"

  function QueryParts(scope: Scope): ScopeRow {
    match scope
    case Server(id) => ScopeRow(SERVER, id)
    case Channel(id) => ScopeRow(CHANNEL, id)
    case Dm(id) => ScopeRow(DM, id)
    case Principal(id) => ScopeRow(PRINCIPAL, id)
  }

  function RouteFromRow(row: ScopeRow): Option<Scope> {
    if row.scopeType == SERVER then Some(Server(row.scopeId))
    else if row.scopeType == CHANNEL then Some(Channel(row.scopeId))
    else if row.scopeType == DM then Some(Dm(row.scopeId))
    else if row.scopeType == PRINCIPAL then Some(Principal(row.scopeId))
    else None
  }

  /** A stored scope reads back as itself, and matches itself alone. */
  lemma ScopeReadsBack(scope: Scope, other: Scope)
    ensures QueryParts(scope) == ScopeRow(if scope.Server? then "server" else if scope.Channel? then "channel"
                                          else if scope.Dm? then "dm" else "principal", scope.id)
    ensures RouteFromRow(QueryParts(scope)) == Some(scope)
    ensures QueryParts(scope) == QueryParts(other) <==> scope == other
    ensures Matches(scope, other) <==> scope == other
  {
    assert SERVER[0] == 's' && CHANNEL[0] == 'c' && DM[0] == 'd' && PRINCIPAL[0] == 'p';
  }

  datatype RouteKey = RouteKey(peerId: string, scope: ScopeRow)

  datatype Status = Active | Revoked

  type Routes = map<RouteKey, Status>

  datatype Change = Upsert(peerId: string, scope: Scope) | Revoke(peerId: string, scope: Scope)

  function KeyOf(c: Change): RouteKey { RouteKey(c.peerId, QueryParts(c.scope)) }

  function Changed(routes: Routes, c: Change): Routes {
    match c
    case Upsert(_, _) => routes[KeyOf(c) := Active]
    case Revoke(_, _) => if KeyOf(c) in routes then routes[KeyOf(c) := Revoked] else routes
  }

  function AfterChanges(changes: seq<Change>): Routes {
    if changes == [] then map[] else Changed(AfterChanges(changes[..|changes| - 1]), changes[|changes| - 1])
  }

  // The latest change to this peer's route for this scope, if any, was an upsert.
  predicate LastWasUpsert(changes: seq<Change>, peerId: string, scope: Scope) {
    changes != []
    && var last := changes[|changes| - 1];
       if last.peerId == peerId && last.scope == scope then last.Upsert?
       else LastWasUpsert(changes[..|changes| - 1], peerId, scope)
  }

  /** The rows the query returns, one candidate each. Its join keeps only peers with an
      active key, and its order does not matter here. */
  ghost predicate IsAnswer(routes: Routes, keyed: set<string>, scope: Scope, candidates: seq<Peer>) {
    && (forall i :: 0 <= i < |candidates| ==>
          candidates[i].active && candidates[i].peerId in keyed && candidates[i].routes == [scope]
          && ActiveRoute(routes, candidates[i].peerId, scope))
    && (forall p :: p in keyed && ActiveRoute(routes, p, scope) ==> Listed(candidates, p))
  }

  predicate ActiveRoute(routes: Routes, peerId: string, scope: Scope) {
    RouteKey(peerId, QueryParts(scope)) in routes && routes[RouteKey(peerId, QueryParts(scope))] == Active
  }

  predicate Listed(candidates: seq<Peer>, peerId: string) {
    exists i :: 0 <= i < |candidates| && candidates[i].peerId == peerId
  }

  lemma {:induction false} ActiveIff(changes: seq<Change>, peerId: string, scope: Scope)
    ensures ActiveRoute(AfterChanges(changes), peerId, scope) <==> LastWasUpsert(changes, peerId, scope)
  {
    if changes != [] {
      ActiveIff(changes[..|changes| - 1], peerId, scope);
      ScopeReadsBack(changes[|changes| - 1].scope, scope);
    }
  }

  /** After any history of route changes, a local event goes to exactly the other peers
      with an active key whose route for the event's scope was last set and not revoked. */
  lemma SentToIff(changes: seq<Change>, keyed: set<string>, scope: Scope, candidates: seq<Peer>,
                                     localId: string, peerId: string)
    requires IsAnswer(AfterChanges(changes), keyed, scope, candidates)
    ensures peerId in Targets(candidates, localId, scope, Local) <==>
            peerId != localId && peerId in keyed && LastWasUpsert(changes, peerId, scope)
  {
    ActiveIff(changes, peerId, scope);
    ScopeReadsBack(scope, scope);
    if peerId != localId && peerId in keyed && LastWasUpsert(changes, peerId, scope) {
      assert Listed(candidates, peerId);
      var i :| 0 <= i < |candidates| && candidates[i].peerId == peerId;
      assert Matches(candidates[i].routes[0], scope);
      assert Wanted(candidates[i], localId, scope);
    }
  }
}
