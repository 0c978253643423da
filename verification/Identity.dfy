/** The local stand-in for a user of another server. */
module Identity {
  import opened Basics
  import opened Text

  const MAX_PEER_ID_CHARS: nat := 253
  const MAX_REMOTE_USER_ID_CHARS: nat := 256

  const USERNAME_PREFIX: string := "fed_"
  const EMAIL_PREFIX: string := "remote+"
  const EMAIL_SUFFIX: string := "@federation.invalid"

  /** What is derived from the hashed text: the 24 hexadecimal digits in the user name and
      the 24 base64url characters in the address. */
  datatype Digest = Digest(hex: string -> string, tag: string -> string) {
    ghost predicate Correct() { forall s :: |hex(s)| == 24 && |tag(s)| == 24 }
  }

  datatype Projection = Projection(username: string, email: string)

  function LowerChar(c: char): char { if 'A' <= c <= 'Z' then 'a' + (c as int - 'A' as int) as char else c }

  /** Addresses are compared without regard to case. */
  function Lowered(s: string): string { seq(|s|, i requires 0 <= i < |s| => LowerChar(s[i])) }

  // The same character, or the same ASCII letter in the other case.
  predicate SameLetter(a: char, b: char) {
    a == b || ('A' <= a <= 'Z' && b as int == a as int + 32) || ('A' <= b <= 'Z' && a as int == b as int + 32)
  }

  /** Two texts are one address exactly if they differ at most in the case of letters. */
  lemma LoweredIff(a: string, b: string)
    ensures Lowered(a) == Lowered(b) <==> |a| == |b| && forall i :: 0 <= i < |a| ==> SameLetter(a[i], b[i])
  {
    if |a| == |b| {
      forall i | 0 <= i < |a| ensures Lowered(a)[i] == Lowered(b)[i] <==> SameLetter(a[i], b[i]) {
        LowerCharIff(a[i], b[i]);
      }
    } else {
      assert |Lowered(a)| == |a| && |Lowered(b)| == |b|;
    }
  }

  lemma LowerCharIff(a: char, b: char)
    ensures LowerChar(a) == LowerChar(b) <==> SameLetter(a, b)
  {
  }

  function HashedText(home: string, user: string): string { home + ['\n'] + user }

  function Project(d: Digest, home: string, user: string): Option<Projection> {
    if !IsId(home, MAX_PEER_ID_CHARS) || !IsId(user, MAX_REMOTE_USER_ID_CHARS) then None
    else
      var text := HashedText(home, user);
      Some(Projection(USERNAME_PREFIX + d.hex(text), EMAIL_PREFIX + (d.tag(text) + EMAIL_SUFFIX)))
  }

  /** What a remote user is projected to. */
  lemma ProjectionOf(d: Digest, home: string, user: string)
    requires IsId(home, 253) && IsId(user, 256)
    ensures Project(d, home, user).Some?
    ensures var p, text := Project(d, home, user).value, home + "\n" + user;
            p.username == "fed_" + d.hex(text) && p.email == "remote+" + d.tag(text) + "@federation.invalid"
  {
  }

  lemma IdLacksNewline(s: string, max: nat)
    requires IsId(s, max)
    ensures Lacks(s, '\n')
  {
  }

  lemma LoweredOfConcat(a: string, b: string)
    ensures Lowered(a + b) == Lowered(a) + Lowered(b)
  {
  }

  lemma PartsAgree(prefix: string, a: string, b: string, suffix: string)
    requires |a| == |b| && Lowered(prefix + (a + suffix)) == Lowered(prefix + (b + suffix))
    ensures Lowered(a) == Lowered(b)
  {
    LoweredOfConcat(prefix, a + suffix);
    LoweredOfConcat(prefix, b + suffix);
    LoweredOfConcat(a, suffix);
    LoweredOfConcat(b, suffix);
    SameMiddle(Lowered(prefix), Lowered(a), Lowered(b), Lowered(suffix));
  }

  lemma SameMiddle(prefix: string, a: string, b: string, suffix: string)
    requires |a| == |b| && prefix + (a + suffix) == prefix + (b + suffix)
    ensures a == b
  {
    assert (prefix + (a + suffix))[|prefix|..] == a + suffix;
    assert (prefix + (b + suffix))[|prefix|..] == b + suffix;
    assert (a + suffix)[..|a|] == a && (b + suffix)[..|b|] == b;
  }

  /** Two remote users share an account's address exactly when they are the same user of the
      same server, as long as the shortened hash, read without regard to case, keeps their
      two texts apart: the text itself cannot be split in two ways, although both parts may
      contain every separator but the newline. */
  lemma SameAddressIff(d: Digest, h1: string, u1: string, h2: string, u2: string)
    requires d.Correct() && Project(d, h1, u1).Some? && Project(d, h2, u2).Some?
    requires Lowered(d.tag(HashedText(h1, u1))) == Lowered(d.tag(HashedText(h2, u2))) ==>
               HashedText(h1, u1) == HashedText(h2, u2)
    ensures Lowered(Project(d, h1, u1).value.email) == Lowered(Project(d, h2, u2).value.email) <==> h1 == h2 && u1 == u2
  {
    if Lowered(Project(d, h1, u1).value.email) == Lowered(Project(d, h2, u2).value.email) {
      PartsAgree(EMAIL_PREFIX, d.tag(HashedText(h1, u1)), d.tag(HashedText(h2, u2)), EMAIL_SUFFIX);
      IdLacksNewline(h1, MAX_PEER_ID_CHARS);
      IdLacksNewline(h2, MAX_PEER_ID_CHARS);
      SplitFirst('\n', h1, u1, h2, u2);
    }
  }

  // ----- Mapping remote users to local ones ---------------------------------------------------

  datatype RemoteUser = RemoteUser(home: string, user: string)

  /** Addresses of local accounts and the account each remote user is mapped to. */
  datatype Tables = Tables(accounts: map<int, string>, mapped: map<RemoteUser, int>)

  predicate Holds(t: Tables, id: int, email: string) {
    id in t.accounts && Lowered(t.accounts[id]) == Lowered(email)
  }

  predicate Taken(t: Tables, email: string) { exists id :: id in t.accounts && Holds(t, id, email) }

  predicate StandsForOne(t: Tables, id: int) { exists r :: r in t.mapped && t.mapped[r] == id }

  /** No two accounts share an address, every remote user is mapped to the account with that
      user's derived address, and no account stands for two. */
  ghost predicate Sound(d: Digest, t: Tables) {
    && (forall i, j :: i in t.accounts && j in t.accounts && Lowered(t.accounts[i]) == Lowered(t.accounts[j]) ==> i == j)
    && (forall r :: r in t.mapped ==>
          Project(d, r.home, r.user).Some? && Holds(t, t.mapped[r], Project(d, r.home, r.user).value.email))
    && (forall q, r :: q in t.mapped && r in t.mapped && t.mapped[q] == t.mapped[r] ==> q == r)
  }

  /** The account insert: nothing happens when the id, the address or the user name is in
      use. */
  function WithAccount(t: Tables, newId: int, email: string, usernameTaken: bool): Tables {
    if newId !in t.accounts && !Taken(t, email) && !usernameTaken then t.(accounts := t.accounts[newId := email]) else t
  }

  lemma NotTaken(t: Tables, email: string, id: int)
    requires !Taken(t, email) && id in t.accounts
    ensures !Holds(t, id, email)
  {
  }

  lemma AccountKeepsSound(d: Digest, t: Tables, newId: int, email: string, usernameTaken: bool)
    requires Sound(d, t)
    ensures Sound(d, WithAccount(t, newId, email, usernameTaken))
  {
    var after := WithAccount(t, newId, email, usernameTaken);
    forall i | i in t.accounts && after != t ensures Lowered(t.accounts[i]) != Lowered(email) {
      NotTaken(t, email, i);
    }
    forall r | r in after.mapped
      ensures Project(d, r.home, r.user).Some? && Holds(after, after.mapped[r], Project(d, r.home, r.user).value.email)
    {
      assert Holds(t, t.mapped[r], Project(d, r.home, r.user).value.email);
    }
  }

  lemma MappingKeepsSound(d: Digest, t: Tables, r: RemoteUser, id: int)
    requires Sound(d, t) && !StandsForOne(t, id)
    requires Project(d, r.home, r.user).Some? && Holds(t, id, Project(d, r.home, r.user).value.email)
    ensures Sound(d, t.(mapped := t.mapped[r := id]))
  {
    forall q | q in t.mapped ensures t.mapped[q] != id {
      assert !(q in t.mapped && t.mapped[q] == id);
    }
  }

  /** An account that could stand for a new remote user: a new one, if its id, address and name
      are free, or the one with the address, if it stands for nobody yet. */
  ghost predicate AccountFor(t: Tables, newId: int, email: string, usernameTaken: bool) {
    (newId !in t.accounts && !usernameTaken && forall id :: id in t.accounts ==> !Holds(t, id, email))
    || exists id :: id in t.accounts && Holds(t, id, email) && forall r :: r in t.mapped ==> t.mapped[r] != id
  }

  lemma NoAccountToTake(t: Tables, newId: int, email: string, usernameTaken: bool)
    requires !Taken(WithAccount(t, newId, email, usernameTaken), email)
    ensures !AccountFor(t, newId, email, usernameTaken)
  {
    var after := WithAccount(t, newId, email, usernameTaken);
    forall id | id in after.accounts ensures !Holds(after, id, email) {
      NotTaken(after, email, id);
    }
    assert newId !in t.accounts && !usernameTaken && !Taken(t, email) ==> Holds(after, newId, email);
  }

  lemma AccountIsTaken(d: Digest, t: Tables, newId: int, email: string, usernameTaken: bool, id: int)
    requires Sound(d, t)
    requires var after := WithAccount(t, newId, email, usernameTaken);
             id in after.accounts && Holds(after, id, email) && StandsForOne(after, id)
    ensures !AccountFor(t, newId, email, usernameTaken)
  {
    var after := WithAccount(t, newId, email, usernameTaken);
    AccountKeepsSound(d, t, newId, email, usernameTaken);
    var r :| r in after.mapped && after.mapped[r] == id;
    assert Holds(t, t.mapped[r], Project(d, r.home, r.user).value.email);
    assert id in t.accounts && Holds(t, id, email);
  }

  lemma AccountIsFree(t: Tables, newId: int, email: string, usernameTaken: bool, id: int)
    requires var after := WithAccount(t, newId, email, usernameTaken);
             id in after.accounts && Holds(after, id, email) && !StandsForOne(after, id)
    ensures AccountFor(t, newId, email, usernameTaken)
  {
    if id in t.accounts {
      assert Holds(t, id, email);
      forall r | r in t.mapped ensures t.mapped[r] != id {
        assert !(r in t.mapped && t.mapped[r] == id);
      }
    } else {
      forall other | other in t.accounts ensures !Holds(t, other, email) {
        NotTaken(t, email, other);
      }
    }
  }

  class Directory {
    var tables: Tables

    constructor ()
      ensures tables == Tables(map[], map[])
    {
      tables := Tables(map[], map[]);
    }

    /** One transaction with its unique constraints. The account insert does nothing when
        the id, the address or the user name is in use; the account is then found by its
        address; a user already mapped stays mapped. */
    method Upsert(d: Digest, r: RemoteUser, newId: int, usernameTaken: bool) returns (result: Option<int>)
      requires Sound(d, tables)
      modifies this
      ensures Sound(d, tables)
      ensures result.Some? <==>
                Project(d, r.home, r.user).Some?
                && (r in old(tables).mapped
                    || AccountFor(old(tables), newId, Project(d, r.home, r.user).value.email, usernameTaken))
      ensures result.None? ==> tables == old(tables)
      ensures result.Some? ==>
                var email := Project(d, r.home, r.user).value.email;
                tables.accounts ==
                if newId !in old(tables).accounts && !usernameTaken
                   && forall id :: id in old(tables).accounts ==> !Holds(old(tables), id, email)
                then old(tables).accounts[newId := email] else old(tables).accounts
      ensures result.Some? ==> r in tables.mapped && tables.mapped[r] == result.value
      ensures r in old(tables).mapped ==> result == Some(old(tables).mapped[r])
      ensures forall q :: q in old(tables).mapped ==> q in tables.mapped && tables.mapped[q] == old(tables).mapped[q]
      ensures forall q :: q in tables.mapped && q != r ==> q in old(tables).mapped
      ensures forall id :: id in old(tables).accounts ==>
                id in tables.accounts && tables.accounts[id] == old(tables).accounts[id]
    {
      var p := Project(d, r.home, r.user);
      if p.None? {
        return None;
      }
      var email := p.value.email;
      var inserted := WithAccount(tables, newId, email, usernameTaken);
      AccountKeepsSound(d, tables, newId, email, usernameTaken);
      if r in tables.mapped {
        tables := inserted;
        return Some(tables.mapped[r]);
      }
      if !Taken(inserted, email) {
        NoAccountToTake(tables, newId, email, usernameTaken);
        return None;
      }
      var id :| id in inserted.accounts && Holds(inserted, id, email);
      if StandsForOne(inserted, id) {
        AccountIsTaken(d, tables, newId, email, usernameTaken, id);
        return None;
      }
      AccountIsFree(tables, newId, email, usernameTaken, id);
      MappingKeepsSound(d, inserted, r, id);
      tables := inserted.(mapped := inserted.mapped[r := id]);
      return Some(id);
    }
  }
}
