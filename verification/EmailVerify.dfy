/** Single-use email verification tokens, read, deleted and acted upon in three separate
    steps by any number of concurrent callers. Tokens are named by their hashes. */
module EmailVerify {
  import opened Basics
  import opened Text

  datatype Entry = Entry(value: string, expiresAt: int)

  type Keys = map<string, Entry>

  predicate Live(k: Keys, token: string, now: int) { token in k && now < k[token].expiresAt }

  /** The user id a caller reads, if the token is there and its value is a number. */
  function UserIdIn(k: Keys, token: string, now: int): Option<int> {
    if Live(k, token, now) then ParseI64(k[token].value) else None
  }

  /** One caller, undisturbed. */
  class Verifier {
    var keys: Keys
    var verified: set<int>

    constructor ()
      ensures keys == map[] && verified == {}
    {
      keys, verified := map[], {};
    }

    /** A live numeric token is used up even when the user's row cannot be updated. */
    method Consume(token: string, now: int, updateSucceeds: bool) returns (user: Option<int>)
      modifies this
      ensures user.Some? <==> updateSucceeds && token in old(keys) && now < old(keys)[token].expiresAt
                              && ParseI64(old(keys)[token].value).Some?
      ensures user.Some? ==> user == ParseI64(old(keys)[token].value)
      ensures user == if updateSucceeds then UserIdIn(old(keys), token, now) else None
      ensures keys == if UserIdIn(old(keys), token, now).Some? then old(keys) - {token} else old(keys)
      ensures verified == if user.Some? then old(verified) + {user.value} else old(verified)
    {
      if !(token in keys && now < keys[token].expiresAt) {
        return None;
      }
      var parsed := ParseI64(keys[token].value);
      if parsed.None? {
        return None;
      }
      keys := keys - {token};
      if !updateSucceeds {
        return None;
      }
      verified := verified + {parsed.value};
      return parsed;
    }
  }

  // ----- Interleaved callers ---------------------------------------------------------------------

  /** Where one call stands. Only a caller whose deletion removed the key is `won`. */
  datatype Call =
    | Reading(token: string, userId: int)
    | Won(token: string, userId: int)
    | Finished(token: string, result: Option<int>)

  datatype State = State(now: int, keys: Keys, stored: map<string, string>, calls: map<nat, Call>, verified: set<int>)

  /** A failing cache command reports nothing; a failing deletion may still have happened. */
  datatype Action =
    | Tick(to: int)
    | Store(token: string, value: string, ttl: nat)
    | Get(caller: nat, token: string, fails: bool)
    | Delete(caller: nat, fails: bool, takesEffect: bool)
    | Update(caller: nat, succeeds: bool)

  /** Tokens are random and are stored once; a caller is one call. */
  predicate Enabled(s: State, a: Action) {
    match a
    case Tick(to) => s.now <= to
    case Store(token, _, _) => token !in s.stored
    case Get(c, _, _) => c !in s.calls
    case Delete(c, fails, takesEffect) => c in s.calls && s.calls[c].Reading? && (!fails ==> takesEffect)
    case Update(c, _) => c in s.calls && s.calls[c].Won?
  }

  function CallAfterGet(s: State, token: string, fails: bool): Call {
    match UserIdIn(s.keys, token, s.now)
    case Some(id) => if fails then Finished(token, None) else Reading(token, id)
    case None => Finished(token, None)
  }

  function CallAfterDelete(s: State, call: Call, fails: bool): Call
    requires call.Reading?
  {
    if !fails && Live(s.keys, call.token, s.now) then Won(call.token, call.userId) else Finished(call.token, None)
  }

  function Apply(s: State, a: Action): State
    requires Enabled(s, a)
  {
    match a
    case Tick(to) => s.(now := to)
    case Store(token, value, ttl) =>
      s.(keys := s.keys[token := Entry(value, s.now + ttl)], stored := s.stored[token := value])
    case Get(c, token, fails) => s.(calls := s.calls[c := CallAfterGet(s, token, fails)])
    case Delete(c, fails, takesEffect) =>
      s.(keys := if takesEffect then s.keys - {s.calls[c].token} else s.keys,
         calls := s.calls[c := CallAfterDelete(s, s.calls[c], fails)])
    case Update(c, succeeds) =>
      var call := s.calls[c];
      s.(calls := s.calls[c := Finished(call.token, if succeeds then Some(call.userId) else None)],
         verified := if succeeds then s.verified + {call.userId} else s.verified)
  }

  predicate Legal(start: int, run: seq<Action>)
    decreases |run|, 0
  {
    run == [] || (Legal(start, run[..|run| - 1]) && Enabled(After(start, run[..|run| - 1]), run[|run| - 1]))
  }

  function After(start: int, run: seq<Action>): State
    requires Legal(start, run)
    decreases |run|, 1
  {
    if run == [] then State(start, map[], map[], map[], {}) else Apply(After(start, run[..|run| - 1]), run[|run| - 1])
  }

  // ----- One caller, undisturbed --------------------------------------------------------------

  function UndisturbedCall(caller: nat, token: string, updateSucceeds: bool): seq<Action> {
    [Get(caller, token, false), Delete(caller, false, true), Update(caller, updateSucceeds)]
  }

  /** The steps the one-caller form takes: all three for a token it can use, otherwise just
      the first. */
  function StepsOf(s: State, caller: nat, token: string, updateSucceeds: bool): seq<Action> {
    if UserIdIn(s.keys, token, s.now).Some? then UndisturbedCall(caller, token, updateSucceeds)
    else [Get(caller, token, false)]
  }

  lemma Extend(start: int, run: seq<Action>, a: Action)
    requires Legal(start, run) && Enabled(After(start, run), a)
    ensures Legal(start, run + [a]) && After(start, run + [a]) == Apply(After(start, run), a)
  {
    var longer := run + [a];
    assert longer[..|longer| - 1] == run && longer[|longer| - 1] == a;
  }

  lemma UsableTokenSteps(s: State, caller: nat, token: string, updateSucceeds: bool)
    requires caller !in s.calls && UserIdIn(s.keys, token, s.now).Some?
    ensures Enabled(s, Get(caller, token, false))
    ensures var s1 := Apply(s, Get(caller, token, false));
            && Enabled(s1, Delete(caller, false, true))
            && var s2 := Apply(s1, Delete(caller, false, true));
               && Enabled(s2, Update(caller, updateSucceeds))
               && var s3 := Apply(s2, Update(caller, updateSucceeds));
                  && caller in s3.calls && s3.keys == s.keys - {token}
                  && var user := UserIdIn(s.keys, token, s.now);
                     && s3.calls[caller] == Finished(token, if updateSucceeds then user else None)
                     && s3.verified == (if updateSucceeds then s.verified + {user.value} else s.verified)
  {
  }

  /** From any reachable state the one-caller form is a run of the interleaved machine with
      the same result, keys and verified users. */
  lemma UndisturbedCallIsARun(start: int, run: seq<Action>, caller: nat, token: string, updateSucceeds: bool)
    requires Legal(start, run) && caller !in After(start, run).calls
    ensures var s := After(start, run);
            var user := if updateSucceeds then UserIdIn(s.keys, token, s.now) else None;
            var longer := run + StepsOf(s, caller, token, updateSucceeds);
            && Legal(start, longer) && caller in After(start, longer).calls
            && After(start, longer).calls[caller] == Finished(token, user)
            && After(start, longer).keys == (if UserIdIn(s.keys, token, s.now).Some? then s.keys - {token} else s.keys)
            && After(start, longer).verified == (if user.Some? then s.verified + {user.value} else s.verified)
  {
    var s := After(start, run);
    var get, delete, update := Get(caller, token, false), Delete(caller, false, true), Update(caller, updateSucceeds);
    Extend(start, run, get);
    if UserIdIn(s.keys, token, s.now).Some? {
      UsableTokenSteps(s, caller, token, updateSucceeds);
      ThreeSteps(start, run, get, delete, update);
    }
  }

  lemma ThreeSteps(start: int, run: seq<Action>, a: Action, b: Action, c: Action)
    requires Legal(start, run) && Enabled(After(start, run), a) && Enabled(Apply(After(start, run), a), b)
    requires Enabled(Apply(Apply(After(start, run), a), b), c)
    ensures Legal(start, run + [a, b, c])
    ensures After(start, run + [a, b, c]) == Apply(Apply(Apply(After(start, run), a), b), c)
  {
    Extend(start, run, a);
    Extend(start, run + [a], b);
    Extend(start, run + [a] + [b], c);
    assert run + [a] + [b] + [c] == run + [a, b, c];
  }

  // ----- At most one winner -----------------------------------------------------------------------

  predicate Yields(c: Call) { c.Finished? && c.result.Some? }

  predicate Holds(c: Call) { c.Won? || Yields(c) }

  function UserOf(c: Call): Option<int> {
    match c
    case Finished(_, result) => result
    case _ => Some(c.userId)
  }

  predicate Genuine(s: State, token: string, user: Option<int>) {
    token in s.stored && ParseI64(s.stored[token]) == user
  }

  predicate CallIsSound(s: State, c: Call) {
    (c.Reading? || Holds(c) ==> Genuine(s, c.token, UserOf(c))) && (Holds(c) ==> c.token !in s.keys)
  }

  ghost predicate Inv(s: State) {
    && (forall t :: t in s.keys ==> t in s.stored && s.stored[t] == s.keys[t].value)
    && (forall c :: c in s.calls ==> CallIsSound(s, s.calls[c]))
    && (forall c, d :: c in s.calls && d in s.calls && c != d && Holds(s.calls[c]) && Holds(s.calls[d]) ==>
          s.calls[c].token != s.calls[d].token)
    && (forall u :: u in s.verified ==> exists c :: c in s.calls && Yields(s.calls[c]) && s.calls[c].result == Some(u))
  }

  lemma OneCallKeepsInv(s: State, t: State, c: nat, call: Call)
    requires Inv(s) && t.calls == s.calls[c := call] && t.stored == s.stored && t.keys.Keys <= s.keys.Keys
    requires forall k :: k in t.keys ==> t.keys[k] == s.keys[k]
    requires CallIsSound(t, call)
    requires Holds(call) ==> call.token in s.keys || (c in s.calls && Holds(s.calls[c]) && s.calls[c].token == call.token)
    requires c in s.calls ==> !Yields(s.calls[c])
    requires forall u :: u in t.verified ==> u in s.verified || (Yields(call) && call.result == Some(u))
    ensures Inv(t)
  {
    forall u | u in t.verified
      ensures exists d :: d in t.calls && Yields(t.calls[d]) && t.calls[d].result == Some(u)
    {
      if u in s.verified {
        var d :| d in s.calls && Yields(s.calls[d]) && s.calls[d].result == Some(u);
        assert t.calls[d] == s.calls[d];
      } else {
        assert t.calls[c] == call;
      }
    }
    forall d | d in t.calls ensures CallIsSound(t, t.calls[d]) {
      if d != c {
        assert CallIsSound(s, s.calls[d]);
      }
    }
  }

  lemma StoreKeepsInv(s: State, a: Action)
    requires Inv(s) && Enabled(s, a) && a.Store?
    ensures Inv(Apply(s, a))
  {
    var t := Apply(s, a);
    forall c | c in t.calls ensures CallIsSound(t, t.calls[c]) {
      assert CallIsSound(s, s.calls[c]);
    }
    forall u | u in t.verified
      ensures exists d :: d in t.calls && Yields(t.calls[d]) && t.calls[d].result == Some(u)
    {
      assert u in s.verified;
    }
  }

  lemma StepKeepsInv(s: State, a: Action)
    requires Inv(s) && Enabled(s, a)
    ensures Inv(Apply(s, a))
  {
    var t := Apply(s, a);
    match a
    case Tick(_) =>
      forall c | c in t.calls ensures CallIsSound(t, t.calls[c]) {
        assert CallIsSound(s, s.calls[c]);
      }
    case Store(_, _, _) => StoreKeepsInv(s, a);
    case Get(c, token, fails) => OneCallKeepsInv(s, t, c, t.calls[c]);
    case Delete(c, _, _) =>
      assert CallIsSound(s, s.calls[c]);
      OneCallKeepsInv(s, t, c, t.calls[c]);
    case Update(c, _) =>
      assert CallIsSound(s, s.calls[c]);
      OneCallKeepsInv(s, t, c, t.calls[c]);
  }

  lemma {:induction false} RunKeepsInv(start: int, run: seq<Action>)
    requires Legal(start, run)
    ensures Inv(After(start, run))
    decreases |run|
  {
    if run != [] {
      RunKeepsInv(start, run[..|run| - 1]);
      StepKeepsInv(After(start, run[..|run| - 1]), run[|run| - 1]);
    }
  }

  /** Whatever the interleaving, a call that yields a user yields the one its token was
      stored for, and no other call on that token yields anything. */
  lemma TokenIsSingleUse(start: int, run: seq<Action>, c: nat)
    requires Legal(start, run) && c in After(start, run).calls && Yields(After(start, run).calls[c])
    ensures var s := After(start, run);
            && s.calls[c].token in s.stored && ParseI64(s.stored[s.calls[c].token]) == s.calls[c].result
            && forall d :: d in s.calls && d != c && s.calls[d].token == s.calls[c].token ==> !Yields(s.calls[d])
  {
    RunKeepsInv(start, run);
    assert CallIsSound(After(start, run), After(start, run).calls[c]);
  }

  /** A token that has expired, or was never stored, or was used, gives nobody away: neither
      reading it nor deleting it lets a call go on. */
  lemma DeadTokenYieldsNothing(s: State, c: nat, token: string, fails: bool, takesEffect: bool)
    requires token !in s.keys || s.keys[token].expiresAt <= s.now
    ensures Enabled(s, Get(c, token, fails)) ==>
              Apply(s, Get(c, token, fails)).calls == s.calls[c := Finished(token, None)]
    ensures Enabled(s, Delete(c, fails, takesEffect)) && s.calls[c].token == token ==>
              Apply(s, Delete(c, fails, takesEffect)).calls == s.calls[c := Finished(token, None)]
  {
  }

  /** A user counts as verified only through a token stored for that user. */
  lemma VerifiedUsersHadTokens(start: int, run: seq<Action>, user: int)
    requires Legal(start, run) && user in After(start, run).verified
    ensures exists t :: t in After(start, run).stored && ParseI64(After(start, run).stored[t]) == Some(user)
  {
    RunKeepsInv(start, run);
    var s := After(start, run);
    var c :| c in s.calls && Yields(s.calls[c]) && s.calls[c].result == Some(user);
    assert CallIsSound(s, s.calls[c]);
  }
}
