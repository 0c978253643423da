/** Password logins and the per-address lock-out after repeated failures. */
module LoginLockout {
  import opened Basics
  import opened TimedKeys

  const MAX_ATTEMPTS: nat := 5

  const LOCKOUT_MS: nat := 900_000

  /** What checking the password would find. An unknown address is checked against a
      dummy hash and counted like a wrong password. */
  datatype Password = LookupFails | Unknown | HashFails | Wrong | Right

  datatype Reply = Locked | ServerError | Rejected | Accepted

  predicate CountsAsFailure(p: Password) { p == Unknown || p == Wrong }

  function ReplyTo(locks: Store, now: int, email: string, p: Password): Reply {
    if Reading(locks, email, now) >= MAX_ATTEMPTS then Locked
    else
      match p
      case LookupFails => ServerError
      case Right => Accepted
      case _ => Rejected
  }

  function LocksAfter(locks: Store, now: int, email: string, p: Password): Store {
    if Reading(locks, email, now) >= MAX_ATTEMPTS then locks
    else if CountsAsFailure(p) then Counted(locks, email, now, LOCKOUT_MS)
    else if p == Right then locks - {email}
    else locks
  }

  method Login(cache: Cache, now: int, email: string, p: Password) returns (reply: Reply)
    modifies cache
    ensures reply == ReplyTo(old(cache.store), now, email, p)
    ensures cache.store == LocksAfter(old(cache.store), now, email, p)
  {
    var lock := cache.Get(email, now);
    var count := if lock.Some? then lock.value.value else 0;
    if count >= MAX_ATTEMPTS {
      return Locked;
    }
    if p == LookupFails {
      return ServerError;
    }
    if p == HashFails {
      return Rejected;
    }
    if p == Unknown || p == Wrong {
      var failures := cache.Count(email, now, LOCKOUT_MS);
      return Rejected;
    }
    cache.Delete(email);
    return Accepted;
  }

  // ----- Runs --------------------------------------------------------------------------------

  /** `streaks` records, per address, when the failed checks since its last successful one
      happened. */
  datatype State = State(now: int, locks: Store, streaks: map<string, seq<int>>) {
    function Streak(email: string): seq<int> { if email in streaks then streaks[email] else [] }
  }

  datatype Action = Tick(to: int) | Attempt(email: string, password: Password)

  predicate Enabled(s: State, a: Action) { a.Tick? ==> s.now <= a.to }

  // A rejected unknown address or wrong password lengthens the streak, a login ends it.
  function StreakAfter(s: State, email: string, p: Password): seq<int> {
    match ReplyTo(s.locks, s.now, email, p)
    case Rejected => if p == Unknown || p == Wrong then s.Streak(email) + [s.now] else s.Streak(email)
    case Accepted => []
    case _ => s.Streak(email)
  }

  function Apply(s: State, a: Action): State
    requires Enabled(s, a)
  {
    match a
    case Tick(to) => s.(now := to)
    case Attempt(email, p) =>
      State(s.now, LocksAfter(s.locks, s.now, email, p), s.streaks[email := StreakAfter(s, email, p)])
  }

  predicate Legal(start: int, run: seq<Action>)
    decreases |run|, 0
  {
    run == [] || (Legal(start, run[..|run| - 1]) && Enabled(After(start, run[..|run| - 1]), run[|run| - 1]))
  }

  function After(start: int, run: seq<Action>): State
    requires Legal(start, run)
    decreases |run|, 1
  {
    if run == [] then State(start, map[], map[]) else Apply(After(start, run[..|run| - 1]), run[|run| - 1])
  }

  // ----- Lock-out windows ------------------------------------------------------------------------

  /** The lock-out window the last failure of a streak fell into: when it opened, how many
      failures it holds so far, and how many windows came before it. */
  datatype Window = Window(since: int, count: nat, index: nat)

  function WindowOf(s: seq<int>): Window
    requires s != []
  {
    var last := s[|s| - 1];
    if |s| == 1 then Window(last, 1, 0)
    else
      var w := WindowOf(s[..|s| - 1]);
      if last < w.since + LOCKOUT_MS then w.(count := w.count + 1) else Window(last, 1, w.index + 1)
  }

  /** Times in order, and never a sixth failure in one window. */
  predicate Paced(s: seq<int>) {
    s != [] ==> WindowOf(s).count <= MAX_ATTEMPTS && WindowOf(s).since <= s[|s| - 1] && Paced(s[..|s| - 1])
                && (|s| > 1 ==> s[|s| - 2] <= s[|s| - 1])
  }

  ghost predicate LockMatches(s: State, email: string) {
    var streak := s.Streak(email);
    && Paced(streak)
    && (streak == [] ==> email !in s.locks)
    && (streak != [] ==> streak[|streak| - 1] <= s.now && email in s.locks
                         && s.locks[email] == Counter(WindowOf(streak).count, Some(WindowOf(streak).since + LOCKOUT_MS)))
  }

  lemma NextFailure(s: seq<int>, at: int)
    requires Paced(s) && (s != [] ==> s[|s| - 1] <= at)
    requires s != [] && WindowOf(s).count >= MAX_ATTEMPTS ==> WindowOf(s).since + LOCKOUT_MS <= at
    ensures Paced(s + [at])
    ensures WindowOf(s + [at]) ==
            if s == [] then Window(at, 1, 0)
            else if at < WindowOf(s).since + LOCKOUT_MS then WindowOf(s).(count := WindowOf(s).count + 1)
            else Window(at, 1, WindowOf(s).index + 1)
  {
    var longer := s + [at];
    assert longer[..|longer| - 1] == s;
  }

  // The counter a failure leaves is that of the window it falls into.
  lemma LockAfterFailure(s: State, email: string)
    requires LockMatches(s, email) && Reading(s.locks, email, s.now) < MAX_ATTEMPTS
    ensures Paced(s.Streak(email) + [s.now])
    ensures var w := WindowOf(s.Streak(email) + [s.now]);
            Counted(s.locks, email, s.now, LOCKOUT_MS) == s.locks[email := Counter(w.count, Some(w.since + LOCKOUT_MS))]
  {
    var streak := s.Streak(email);
    NextFailure(streak, s.now);
    if streak != [] {
      WindowIsSound(streak);
    }
  }

  lemma FailureKeepsMatch(s: State, email: string, p: Password)
    requires LockMatches(s, email) && CountsAsFailure(p)
    ensures LockMatches(Apply(s, Attempt(email, p)), email)
  {
    if Reading(s.locks, email, s.now) < MAX_ATTEMPTS {
      LockAfterFailure(s, email);
      var t := Apply(s, Attempt(email, p));
      assert t.Streak(email) == s.Streak(email) + [s.now];
    }
  }

  lemma AttemptKeepsMatch(s: State, email: string, p: Password, other: string)
    requires LockMatches(s, email) && LockMatches(s, other)
    ensures LockMatches(Apply(s, Attempt(email, p)), other)
  {
    if email == other && CountsAsFailure(p) {
      FailureKeepsMatch(s, email, p);
    }
  }

  lemma {:induction false} RunKeepsMatch(start: int, run: seq<Action>, email: string)
    requires Legal(start, run)
    ensures LockMatches(After(start, run), email)
    decreases |run|
  {
    if run != [] {
      var before, last := run[..|run| - 1], run[|run| - 1];
      RunKeepsMatch(start, before, email);
      if last.Attempt? {
        RunKeepsMatch(start, before, last.email);
        AttemptKeepsMatch(After(start, before), last.email, last.password, email);
      }
    }
  }

  /** In every run, an address is refused without a check exactly while five failures since
      its last success share a window that is not yet 900 seconds old. Otherwise the reply is
      what the password check came to, the same for an unknown address, a wrong password and
      a hash that cannot be checked. */
  lemma LockedIff(start: int, run: seq<Action>, email: string, p: Password)
    requires Legal(start, run)
    ensures var s := After(start, run);
            var streak := s.Streak(email);
            ReplyTo(s.locks, s.now, email, p) ==
            if streak != [] && WindowOf(streak).count == 5 && s.now < WindowOf(streak).since + 900_000 then Locked
            else if p == Right then Accepted
            else if p == LookupFails then ServerError
            else Rejected
  {
    RunKeepsMatch(start, run, email);
  }

  /** The window of a streak in plain terms: it holds the last `count` failures, and those
      alone lie within 900 seconds of the first of them. */
  lemma {:induction false} WindowHoldsTheLast(s: seq<int>)
    requires Paced(s) && s != []
    ensures WindowOf(s).count <= |s| && WindowOf(s).since == s[|s| - WindowOf(s).count]
    ensures forall k :: |s| - WindowOf(s).count <= k < |s| ==> s[k] < WindowOf(s).since + 900_000
    decreases |s|
  {
    if |s| > 1 {
      WindowHoldsTheLast(s[..|s| - 1]);
    }
  }

  /** A fifth failure within 900 seconds of the first of a streak locks the address until
      those 900 seconds are over. */
  lemma FiveFailuresLock(start: int, run: seq<Action>, email: string, p: Password)
    requires Legal(start, run) && |After(start, run).Streak(email)| == 5
    requires var s := After(start, run); s.now < s.Streak(email)[0] + 900_000
    ensures ReplyTo(After(start, run).locks, After(start, run).now, email, p) == Locked
  {
    RunKeepsMatch(start, run, email);
    var streak := After(start, run).Streak(email);
    OneWindow(streak);
    LockedIff(start, run, email, p);
  }

  lemma {:induction false} OneWindow(s: seq<int>)
    requires Paced(s) && s != [] && s[|s| - 1] < s[0] + 900_000
    ensures WindowOf(s).count == |s| && WindowOf(s).since == s[0]
    decreases |s|
  {
    if |s| > 1 {
      OneWindow(s[..|s| - 1]);
    }
  }

  // ----- Pace ---------------------------------------------------------------------------------

  function Lasting(windows: int): int { 900_000 * windows }

  function Holding(windows: int): int { 5 * windows }

  lemma WindowIsSound(s: seq<int>)
    requires Paced(s) && s != []
    ensures 1 <= WindowOf(s).count <= MAX_ATTEMPTS && WindowOf(s).since <= s[|s| - 1]
    ensures WindowOf(s).count == 1 ==> WindowOf(s).since == s[|s| - 1]
  {
    if |s| > 1 {
      WindowIsSound(s[..|s| - 1]);
    }
  }

  // From one failure to a later one: how many windows apart, and what that means for
  // their number and their times.
  ghost predicate Advanced(at: int, v: Window, steps: int, w: Window) {
    && v.index <= w.index
    && steps <= Holding(w.index - v.index) + w.count - v.count
    && w.since >= v.since + Lasting(w.index - v.index)
    && (w.index > v.index ==> w.since >= at + Lasting(w.index - v.index - 1))
  }

  lemma OneMoreFailure(at: int, v: Window, steps: int, w: Window, x: Window, next: int)
    requires Advanced(at, v, steps, w) && w.count <= MAX_ATTEMPTS && at <= next
    requires x == if next < w.since + LOCKOUT_MS then w.(count := w.count + 1) else Window(next, 1, w.index + 1)
    ensures Advanced(at, v, steps + 1, x)
  {
  }

  ghost predicate FarFrom(s: seq<int>, i: nat, j: nat)
    requires i <= j < |s|
  {
    Paced(s[..i + 1]) && Paced(s[..j + 1]) && s[i] <= s[j]
    && Advanced(s[i], WindowOf(s[..i + 1]), j - i, WindowOf(s[..j + 1]))
  }

  lemma {:induction false} WindowsAdvance(s: seq<int>, i: nat, j: nat)
    requires Paced(s) && i <= j < |s|
    ensures FarFrom(s, i, j)
    decreases |s|, j - i
  {
    var shorter := s[..|s| - 1];
    if j < |s| - 1 {
      WindowsAdvance(shorter, i, j);
      FarFromInPrefix(s, i, j);
    } else if i < j {
      WindowsAdvance(shorter, i, j - 1);
      FarFromLast(s, i);
    } else {
      WholePrefix(s);
    }
  }

  lemma {:induction false} FarFromInPrefix(s: seq<int>, i: nat, j: nat)
    requires i <= j < |s| - 1 && FarFrom(s[..|s| - 1], i, j)
    ensures FarFrom(s, i, j)
  {
    ShorterPrefix(s, i + 1);
    ShorterPrefix(s, j + 1);
  }

  lemma {:induction false} FarFromLast(s: seq<int>, i: nat)
    requires Paced(s) && i < |s| - 1 && FarFrom(s[..|s| - 1], i, |s| - 2)
    ensures FarFrom(s, i, |s| - 1)
  {
    WholePrefix(s);
    ShorterPrefix(s, i + 1);
    WholePrefix(s[..|s| - 1]);
    LastFailureAdvances(s, i);
  }

  lemma ShorterPrefix(s: seq<int>, n: nat)
    requires n < |s|
    ensures s[..|s| - 1][..n] == s[..n]
  {
  }

  lemma WholePrefix(s: seq<int>)
    ensures s[..|s|] == s
  {
  }

  lemma {:induction false} LastFailureAdvances(s: seq<int>, i: nat)
    requires Paced(s) && i < |s| - 1
    requires var shorter := s[..|s| - 1];
             s[i] <= s[|s| - 2] && Advanced(s[i], WindowOf(s[..i + 1]), |s| - 2 - i, WindowOf(shorter))
    ensures s[i] <= s[|s| - 1] && Advanced(s[i], WindowOf(s[..i + 1]), |s| - 1 - i, WindowOf(s))
  {
    var shorter := s[..|s| - 1];
    WindowIsSound(shorter);
    OneMoreFailure(s[i], WindowOf(s[..i + 1]), |s| - 2 - i, WindowOf(shorter), WindowOf(s), s[|s| - 1]);
  }

  /** Failed checks come at a bounded pace in every run: counted from the first failure of a
      streak, five per 900 seconds; counted from any failure, with one window of grace. */
  lemma FailuresArePaced(start: int, run: seq<Action>, email: string, i: nat, j: nat)
    requires Legal(start, run) && i <= j < |After(start, run).Streak(email)|
    ensures var s := After(start, run).Streak(email);
            && s[j] >= s[0] + Lasting(j / MAX_ATTEMPTS)
            && s[j] >= s[i] + Lasting((j - i + 1) / MAX_ATTEMPTS - 1)
  {
    RunKeepsMatch(start, run, email);
    PacedFromFirst(After(start, run).Streak(email), j);
    PacedFromAny(After(start, run).Streak(email), i, j);
  }

  lemma PacedFromFirst(s: seq<int>, j: nat)
    requires Paced(s) && j < |s|
    ensures s[j] >= s[0] + Lasting(j / MAX_ATTEMPTS)
  {
    WindowsAdvance(s, 0, j);
    WindowIsSound(s[..1]);
    WindowIsSound(s[..j + 1]);
    WindowsPassed(j, WindowOf(s[..j + 1]).index - WindowOf(s[..1]).index);
  }

  // A failure that opened its window starts the next window's clock; any other one left
  // room for at most three more beside it.
  lemma PacedFromAny(s: seq<int>, i: nat, j: nat)
    requires Paced(s) && i <= j < |s|
    ensures s[j] >= s[i] + Lasting((j - i + 1) / MAX_ATTEMPTS - 1)
  {
    var v, w := WindowOf(s[..i + 1]), WindowOf(s[..j + 1]);
    WindowsAdvance(s, i, j);
    WindowIsSound(s[..i + 1]);
    WindowIsSound(s[..j + 1]);
    if v.count == 1 {
      WindowsPassed(j - i, w.index - v.index);
    } else {
      WindowsPassed(j - i + 1, w.index - v.index);
    }
  }

  lemma WindowsPassed(steps: nat, windows: int)
    requires steps <= Holding(windows) + 4
    ensures steps / MAX_ATTEMPTS <= windows
  {
  }

  /** So no 900 seconds, however placed, see a tenth failed check without a success in
      between. */
  lemma AtMostNineFailuresInAnyWindow(start: int, run: seq<Action>, email: string, i: nat, j: nat)
    requires Legal(start, run) && i <= j < |After(start, run).Streak(email)|
    requires After(start, run).Streak(email)[j] < After(start, run).Streak(email)[i] + 900_000
    ensures j - i + 1 <= 9
  {
    FailuresArePaced(start, run, email, i, j);
  }

  // ----- Nine do fit ---------------------------------------------------------------------------

  // The run has led to this clock, lock and streak of one address.
  ghost predicate Reached(run: seq<Action>, email: string, now: int, count: nat, since: int, streak: seq<int>) {
    && Legal(0, run) && After(0, run).now == now && After(0, run).Streak(email) == streak
    && email in After(0, run).locks && After(0, run).locks[email] == Counter(count, Some(since + LOCKOUT_MS))
  }

  lemma Extend(run: seq<Action>, a: Action)
    requires Legal(0, run) && Enabled(After(0, run), a)
    ensures Legal(0, run + [a]) && After(0, run + [a]) == Apply(After(0, run), a)
  {
    var longer := run + [a];
    assert longer[..|longer| - 1] == run && longer[|longer| - 1] == a;
  }

  lemma WrongAgain(run: seq<Action>, email: string, now: int, count: nat, since: int, streak: seq<int>)
    requires Reached(run, email, now, count, since, streak) && 0 < count < MAX_ATTEMPTS && now < since + LOCKOUT_MS
    ensures Reached(run + [Attempt(email, Wrong)], email, now, count + 1, since, streak + [now])
  {
    Extend(run, Attempt(email, Wrong));
  }

  lemma WrongAfterwards(run: seq<Action>, email: string, now: int, count: nat, since: int, streak: seq<int>)
    requires Reached(run, email, now, count, since, streak) && since + LOCKOUT_MS <= now
    ensures Reached(run + [Attempt(email, Wrong)], email, now, 1, now, streak + [now])
  {
    Extend(run, Attempt(email, Wrong));
  }

  lemma Wait(run: seq<Action>, email: string, now: int, count: nat, since: int, streak: seq<int>, to: int)
    requires Reached(run, email, now, count, since, streak) && now <= to
    ensures Reached(run + [Tick(to)], email, to, count, since, streak)
  {
    Extend(run, Tick(to));
  }

  lemma WrongFourTimes(run: seq<Action>, email: string, now: int, since: int, streak: seq<int>)
    returns (longer: seq<Action>)
    requires Reached(run, email, now, 1, since, streak) && now < since + LOCKOUT_MS
    ensures Reached(longer, email, now, 5, since, streak + [now, now, now, now])
  {
    var wrong := Attempt(email, Wrong);
    WrongAgain(run, email, now, 1, since, streak);
    WrongAgain(run + [wrong], email, now, 2, since, streak + [now]);
    WrongAgain(run + [wrong] + [wrong], email, now, 3, since, streak + [now] + [now]);
    WrongAgain(run + [wrong] + [wrong] + [wrong], email, now, 4, since, streak + [now] + [now] + [now]);
    longer := run + [wrong] + [wrong] + [wrong] + [wrong];
    assert streak + [now] + [now] + [now] + [now] == streak + [now, now, now, now];
  }

  lemma FirstWrong(email: string)
    ensures Reached([Attempt(email, Wrong)], email, 0, 1, 0, [0])
  {
    Extend([], Attempt(email, Wrong));
    assert [] + [Attempt(email, Wrong)] == [Attempt(email, Wrong)];
  }

  /** The bound is met: one failure, four more in the last millisecond of its window and
      five in the first millisecond of the next. */
  lemma NineFailuresFit(email: string) returns (run: seq<Action>)
    ensures Legal(0, run)
    ensures var s := After(0, run).Streak(email); |s| == 10 && s[9] < s[1] + 900_000
  {
    var late, next := LOCKOUT_MS - 1, LOCKOUT_MS;
    run := [Attempt(email, Wrong)];
    FirstWrong(email);
    Wait(run, email, 0, 1, 0, [0], late);
    run := WrongFourTimes(run + [Tick(late)], email, late, 0, [0]);
    var streak := [0] + [late, late, late, late];
    Wait(run, email, late, 5, 0, streak, next);
    WrongAfterwards(run + [Tick(next)], email, next, 5, 0, streak);
    run := WrongFourTimes(run + [Tick(next)] + [Attempt(email, Wrong)], email, next, next, streak + [next]);
  }
}
