/** The second login step: a ticket issued after the password, and a counter of code
    attempts beside it. */
module SecondFactor {
  import opened Basics
  import opened TimedKeys

  const MAX_ATTEMPTS: nat := 5

  const TTL_MS: nat := 300_000

  datatype Config = Config(ticketTtl: nat, attemptTtl: nat)

  const DEPLOYED: Config := Config(TTL_MS, TTL_MS)

  datatype Ticket = Ticket(userId: int, expiresAt: int)

  /** What the steps behind the ticket lookup would come to. Only the last three check the
      code itself. */
  datatype Submission =
    | UserBanned | UserUnavailable | NoSecret | CodeCheckFails | WrongCode | RightCode(sessionStored: bool)

  datatype Reply =
    | InvalidTicket | Refused | TooManyAttempts | ServerError | InvalidVerification | InvalidCode | Session(userId: int)

  datatype Keys = Keys(tickets: map<string, Ticket>, attempts: Store)

  predicate Live(k: Keys, ticket: string, now: int) { ticket in k.tickets && now < k.tickets[ticket].expiresAt }

  function ReplyTo(k: Keys, now: int, ticket: string, sub: Submission): Reply {
    if !Live(k, ticket, now) then InvalidTicket
    else if sub.UserBanned? then Refused
    else if Reading(k.attempts, ticket, now) >= MAX_ATTEMPTS then TooManyAttempts
    else
      match sub
      case NoSecret => InvalidVerification
      case WrongCode => InvalidCode
      case RightCode(true) => Session(k.tickets[ticket].userId)
      case _ => ServerError
  }

  function KeysAfter(c: Config, k: Keys, now: int, ticket: string, sub: Submission): Keys {
    if !Live(k, ticket, now) || sub.UserBanned? then k
    else if Reading(k.attempts, ticket, now) >= MAX_ATTEMPTS || sub.RightCode?
    then Keys(k.tickets - {ticket}, k.attempts - {ticket})
    else Keys(k.tickets, Counted(k.attempts, ticket, now, c.attemptTtl))
  }

  // The code was compared with what the user's secret or backup codes call for.
  predicate Checks(k: Keys, now: int, ticket: string, sub: Submission) {
    Live(k, ticket, now) && Reading(k.attempts, ticket, now) < MAX_ATTEMPTS
    && (sub.WrongCode? || sub.RightCode? || sub.CodeCheckFails?)
  }

  class TicketDesk {
    var tickets: map<string, Ticket>
    const attempts: Cache

    constructor ()
      ensures fresh(attempts) && tickets == map[] && attempts.store == map[]
    {
      tickets := map[];
      attempts := new Cache();
    }

    function Keys_(): Keys
      reads this, attempts
    {
      Keys(tickets, attempts.store)
    }

    method Issue(ticket: string, userId: int, now: int)
      modifies this
      ensures tickets == old(tickets)[ticket := Ticket(userId, now + TTL_MS)]
    {
      tickets := tickets[ticket := Ticket(userId, now + TTL_MS)];
    }

    method Submit(now: int, ticket: string, sub: Submission) returns (reply: Reply)
      modifies this, attempts
      ensures reply == ReplyTo(old(Keys_()), now, ticket, sub)
      ensures Keys_() == KeysAfter(DEPLOYED, old(Keys_()), now, ticket, sub)
    {
      if ticket !in tickets || tickets[ticket].expiresAt <= now {
        return InvalidTicket;
      }
      var userId := tickets[ticket].userId;
      if sub.UserBanned? {
        return Refused;
      }
      var count := attempts.Count(ticket, now, TTL_MS);
      if count > MAX_ATTEMPTS {
        tickets := tickets - {ticket};
        attempts.Delete(ticket);
        return TooManyAttempts;
      }
      match sub
      case NoSecret => return InvalidVerification;
      case WrongCode => return InvalidCode;
      case RightCode(stored) =>
        tickets := tickets - {ticket};
        attempts.Delete(ticket);
        return if stored then Session(userId) else ServerError;
      case _ => return ServerError;
    }
  }

  // ----- Runs -----------------------------------------------------------------------------------

  /** What was answered on a ticket: submissions counted against it, codes checked, sessions
      opened, and whether an answer used it up. */
  datatype Tally = Tally(counted: nat, checks: nat, sessions: nat, spent: bool)

  datatype Issued = Issued(userId: int, at: int)

  datatype State = State(now: int, keys: Keys, issued: map<string, Issued>, tallies: map<string, Tally>) {
    function TallyOf(ticket: string): Tally { if ticket in tallies then tallies[ticket] else Tally(0, 0, 0, false) }

    function Reply(ticket: string, sub: Submission): Reply { ReplyTo(keys, now, ticket, sub) }
  }

  datatype Action = Tick(to: int) | Issue(ticket: string, userId: int) | Submit(ticket: string, sub: Submission)

  /** Tickets are random and never repeat. */
  predicate Enabled(s: State, a: Action) {
    match a
    case Tick(to) => s.now <= to
    case Issue(ticket, _) => ticket !in s.issued
    case Submit(_, _) => true
  }

  /** A ticket is used up by a right code, whatever becomes of the session, and by one
      submission too many. */
  function TallyAfter(s: State, ticket: string, sub: Submission): Tally {
    var t, reply := s.TallyOf(ticket), s.Reply(ticket, sub);
    var answered := reply.ServerError? || reply.InvalidVerification? || reply.InvalidCode?;
    Tally(if answered && !sub.RightCode? then t.counted + 1 else t.counted,
          if Checks(s.keys, s.now, ticket, sub) then t.checks + 1 else t.checks,
          if reply.Session? then t.sessions + 1 else t.sessions,
          t.spent || reply.TooManyAttempts? || (sub.RightCode? && (reply.Session? || reply.ServerError?)))
  }

  function Apply(c: Config, s: State, a: Action): State
    requires Enabled(s, a)
  {
    match a
    case Tick(to) => s.(now := to)
    case Issue(ticket, userId) =>
      s.(keys := Keys(s.keys.tickets[ticket := Ticket(userId, s.now + c.ticketTtl)], s.keys.attempts),
         issued := s.issued[ticket := Issued(userId, s.now)])
    case Submit(ticket, sub) =>
      s.(keys := KeysAfter(c, s.keys, s.now, ticket, sub), tallies := s.tallies[ticket := TallyAfter(s, ticket, sub)])
  }

  predicate Legal(c: Config, start: int, run: seq<Action>)
    decreases |run|, 0
  {
    run == [] || (Legal(c, start, run[..|run| - 1]) && Enabled(After(c, start, run[..|run| - 1]), run[|run| - 1]))
  }

  function After(c: Config, start: int, run: seq<Action>): State
    requires Legal(c, start, run)
    decreases |run|, 1
  {
    if run == [] then State(start, Keys(map[], map[]), map[], map[])
    else Apply(c, After(c, start, run[..|run| - 1]), run[|run| - 1])
  }

  /** No ticket ever buys more than five code checks, or more than one session. */
  ghost predicate Sound(c: Config) {
    forall start, run, ticket :: Legal(c, start, run) ==> Within(After(c, start, run).TallyOf(ticket))
  }

  predicate Within(t: Tally) { t.checks <= MAX_ATTEMPTS && t.sessions <= 1 }

  // ----- Safety -----------------------------------------------------------------------------------

  /** While a ticket can still be used its counter has seen every check, and it cannot
      expire first. */
  ghost predicate Inv(c: Config, s: State, ticket: string) {
    var t := s.TallyOf(ticket);
    && Within(t)
    && (ticket !in s.issued ==> t == Tally(0, 0, 0, false) && ticket !in s.keys.tickets)
    && (ticket in s.issued && !t.spent ==> ticket in s.keys.tickets)
    && (ticket in s.keys.tickets ==>
          ticket in s.issued && !t.spent
          && s.keys.tickets[ticket] == Ticket(s.issued[ticket].userId, s.issued[ticket].at + c.ticketTtl))
    && (ticket !in s.keys.tickets ==> ticket !in s.keys.attempts)
    && (ticket in s.keys.tickets ==> t.sessions == 0)
    && (ticket in s.keys.tickets && ticket !in s.keys.attempts ==> t.counted == t.checks == 0)
    && (ticket in s.keys.attempts ==>
          s.keys.attempts[ticket].expiresAt.Some? && t.checks <= t.counted == s.keys.attempts[ticket].value <= MAX_ATTEMPTS
          && s.keys.tickets[ticket].expiresAt <= s.keys.attempts[ticket].expiresAt.value)
    && (ticket in s.keys.tickets ==> s.keys.tickets[ticket].expiresAt <= s.now + c.ticketTtl)
  }

  lemma SubmitKeepsInv(c: Config, s: State, ticket: string, sub: Submission, other: string)
    requires c.attemptTtl >= c.ticketTtl && Inv(c, s, ticket) && Inv(c, s, other)
    ensures Inv(c, Apply(c, s, Submit(ticket, sub)), other)
  {
    if Live(s.keys, ticket, s.now) && ticket in s.keys.attempts {
      assert Alive(s.keys.attempts[ticket], s.now);
    }
  }

  lemma {:induction false} RunKeepsInv(c: Config, start: int, run: seq<Action>, ticket: string)
    requires c.attemptTtl >= c.ticketTtl && Legal(c, start, run)
    ensures Inv(c, After(c, start, run), ticket)
    decreases |run|
  {
    if run != [] {
      var before, last := run[..|run| - 1], run[|run| - 1];
      RunKeepsInv(c, start, before, ticket);
      if last.Submit? {
        RunKeepsInv(c, start, before, last.ticket);
        SubmitKeepsInv(c, After(c, start, before), last.ticket, last.sub, ticket);
      }
    }
  }

  /** In every run a session means the ticket is used up: nothing submitted with it later
      is checked again. */
  lemma UsedTicketIsDead(c: Config, start: int, run: seq<Action>, ticket: string, sub: Submission)
    requires c.attemptTtl >= c.ticketTtl && Legal(c, start, run)
    requires After(c, start, run).TallyOf(ticket).sessions == 1
    ensures ReplyTo(After(c, start, run).keys, After(c, start, run).now, ticket, sub) == InvalidTicket
  {
    RunKeepsInv(c, start, run, ticket);
  }

  /** The reply to any submission follows from when and for whom the ticket was issued and
      from what was answered on it before. */
  lemma ReplyFollowsFromHistory(c: Config, start: int, run: seq<Action>, ticket: string, sub: Submission)
    requires c.attemptTtl >= c.ticketTtl && Legal(c, start, run)
    ensures var s := After(c, start, run);
            var t := s.TallyOf(ticket);
            s.Reply(ticket, sub) ==
            if ticket !in s.issued || t.spent || s.now >= s.issued[ticket].at + c.ticketTtl then InvalidTicket
            else if sub == UserBanned then Refused
            else if t.counted >= 5 then TooManyAttempts
            else if sub == RightCode(true) then Session(s.issued[ticket].userId)
            else if sub == WrongCode then InvalidCode
            else if sub == NoSecret then InvalidVerification
            else ServerError
  {
    RunKeepsInv(c, start, run, ticket);
    var s := After(c, start, run);
    if Live(s.keys, ticket, s.now) && ticket in s.keys.attempts {
      assert Alive(s.keys.attempts[ticket], s.now);
    }
  }

  /** A session is always for the user its ticket was issued to, and within five minutes of
      that. */
  lemma SessionIsForTheTicketsUser(start: int, run: seq<Action>, ticket: string, sub: Submission, userId: int)
    requires Legal(DEPLOYED, start, run) && After(DEPLOYED, start, run).Reply(ticket, sub) == Session(userId)
    ensures sub == RightCode(true) && ticket in After(DEPLOYED, start, run).issued
    ensures var s := After(DEPLOYED, start, run);
            s.issued[ticket].userId == userId && s.now < s.issued[ticket].at + 300_000
  {
    ReplyFollowsFromHistory(DEPLOYED, start, run, ticket, sub);
  }

  /** A right code opens that session as long as the ticket is younger than five minutes, not
      used up, and fewer than five submissions were counted against it. */
  lemma RightCodeOpensTheSession(start: int, run: seq<Action>, ticket: string)
    requires Legal(DEPLOYED, start, run) && ticket in After(DEPLOYED, start, run).issued
    requires var s := After(DEPLOYED, start, run);
             s.now < s.issued[ticket].at + 300_000 && !s.TallyOf(ticket).spent && s.TallyOf(ticket).counted < 5
    ensures var s := After(DEPLOYED, start, run);
            s.Reply(ticket, RightCode(true)) == Session(s.issued[ticket].userId)
  {
    ReplyFollowsFromHistory(DEPLOYED, start, run, ticket, RightCode(true));
  }

  /** Who a ticket was issued to, and when, never changes. */
  lemma {:induction false} IssuedIsRemembered(c: Config, start: int, run: seq<Action>, n: nat, ticket: string)
    requires Legal(c, start, run) && n < |run| && run[n].Issue? && run[n].ticket == ticket
    ensures Legal(c, start, run[..n]) && ticket in After(c, start, run).issued
    ensures After(c, start, run).issued[ticket] == Issued(run[n].userId, After(c, start, run[..n]).now)
    decreases |run|
  {
    var front := run[..|run| - 1];
    if n < |front| {
      IssuedIsRemembered(c, start, front, n, ticket);
      assert front[..n] == run[..n];
    }
  }

  // ----- What goes wrong with a shorter-lived counter -----------------------------------------------

  lemma Extend(c: Config, start: int, run: seq<Action>, a: Action)
    requires Legal(c, start, run) && Enabled(After(c, start, run), a)
    ensures Legal(c, start, run + [a]) && After(c, start, run + [a]) == Apply(c, After(c, start, run), a)
  {
    var longer := run + [a];
    assert longer[..|longer| - 1] == run && longer[|longer| - 1] == a;
  }

  const SAMPLE: string := "ticket"

  const GUESS: Action := Submit(SAMPLE, WrongCode)

  function Guesses(n: nat): seq<Action> { if n == 0 then [Issue(SAMPLE, 0)] else Guesses(n - 1) + [GUESS] }

  // The ticket is live at time zero, `n` guesses were checked, and the counter shows them
  // unless its lifetime is zero, which leaves it at nothing every time.
  ghost predicate Guessed(c: Config, s: State, n: nat) {
    && s.now == 0 && SAMPLE in s.keys.tickets && s.keys.tickets[SAMPLE] == Ticket(0, c.ticketTtl)
    && (if c.attemptTtl == 0 then Reading(s.keys.attempts, SAMPLE, 0) == 0
        else if n == 0 then SAMPLE !in s.keys.attempts
        else SAMPLE in s.keys.attempts && s.keys.attempts[SAMPLE] == Counter(n, Some(c.attemptTtl)))
    && s.TallyOf(SAMPLE) == Tally(n, n, 0, false)
  }

  lemma OneGuess(c: Config, s: State, n: nat)
    requires c.attemptTtl < c.ticketTtl && (c.attemptTtl == 0 || n < MAX_ATTEMPTS) && Guessed(c, s, n)
    ensures Guessed(c, Apply(c, s, GUESS), n + 1)
  {
  }

  lemma TicketIssued(c: Config)
    ensures Legal(c, 0, Guesses(0)) && Guessed(c, After(c, 0, Guesses(0)), 0)
  {
    assert [] + [Issue(SAMPLE, 0)] == Guesses(0);
    Extend(c, 0, [], Issue(SAMPLE, 0));
  }

  lemma AnotherGuess(c: Config, run: seq<Action>, n: nat)
    requires c.attemptTtl < c.ticketTtl && (c.attemptTtl == 0 || n < MAX_ATTEMPTS)
    requires Legal(c, 0, run) && Guessed(c, After(c, 0, run), n)
    ensures Legal(c, 0, run + [GUESS]) && Guessed(c, After(c, 0, run + [GUESS]), n + 1)
  {
    Extend(c, 0, run, GUESS);
    OneGuess(c, After(c, 0, run), n);
  }

  lemma {:induction false} GuessesCount(c: Config, n: nat)
    requires c.attemptTtl < c.ticketTtl && (c.attemptTtl == 0 || n <= MAX_ATTEMPTS)
    ensures Legal(c, 0, Guesses(n)) && Guessed(c, After(c, 0, Guesses(n)), n)
  {
    if n == 0 {
      TicketIssued(c);
    } else {
      GuessesCount(c, n - 1);
      AnotherGuess(c, Guesses(n - 1), n - 1);
    }
  }

  lemma SixthCheckAfterExpiry(c: Config)
    requires 0 < c.attemptTtl < c.ticketTtl
    ensures !Sound(c)
  {
    var run := Guesses(MAX_ATTEMPTS);
    GuessesCount(c, MAX_ATTEMPTS);
    Extend(c, 0, run, Tick(c.attemptTtl));
    Extend(c, 0, run + [Tick(c.attemptTtl)], GUESS);
    var longer := run + [Tick(c.attemptTtl)] + [GUESS];
    assert After(c, 0, longer).TallyOf(SAMPLE) == Tally(6, 6, 0, false);
  }

  lemma SixthCheckAtOnce(c: Config)
    requires c.attemptTtl == 0 < c.ticketTtl
    ensures !Sound(c)
  {
    GuessesCount(c, 6);
    assert After(c, 0, Guesses(6)).TallyOf(SAMPLE) == Tally(6, 6, 0, false);
  }

  /** The limits hold in every run exactly when the counter lives at least as long as the
      ticket it guards. */
  lemma SoundIff(c: Config)
    ensures Sound(c) <==> c.attemptTtl >= c.ticketTtl
  {
    if c.attemptTtl >= c.ticketTtl {
      forall start, run, ticket | Legal(c, start, run) ensures Within(After(c, start, run).TallyOf(ticket)) {
        RunKeepsInv(c, start, run, ticket);
      }
    } else if c.attemptTtl == 0 {
      SixthCheckAtOnce(c);
    } else {
      SixthCheckAfterExpiry(c);
    }
  }

  /** As deployed, both live five minutes. */
  lemma DeployedIsSound()
    ensures Sound(DEPLOYED)
  {
    SoundIff(DEPLOYED);
  }
}
