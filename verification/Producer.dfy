/** Turning a local event into the envelope that is queued for a peer. */
module Producer {
  import opened Basics
  import opened Text
  import opened Json
  import opened JsonObject
  import opened EventKind
  import opened Protocol
  import opened Runtime

  type RuntimeKind = kind: EventKind | !PropagationAllowed(kind) witness MessageCreate

  datatype Surface = AttachmentMedia | Voice | BotExecution | Billing | ServerAdministration | EmojiUpload | OfficialRelay

  /** The six events that may leave the server; the others carry only their kind, since
      they are refused before anything else about them is looked at. */
  datatype LocalEvent =
    | PrincipalUpserted(user: I64, username: Option<string>, displayName: Option<string>, avatarUrl: Option<string>)
    | MemberJoined(server: I64, user: I64, code: Option<string>, codeHash: Option<string>)
    | MemberLeft(server: I64, user: I64, reason: Option<string>)
    | MemberRemoved(server: I64, moderator: I64, target: I64, reason: Option<string>)
    | MemberBanned(server: I64, moderator: I64, target: I64, reason: Option<string>)
    | MemberUnbanned(server: I64, moderator: I64, target: I64)
    | RuntimeEvent(kind: RuntimeKind)
    | Unsupported(surface: Surface)

  datatype Origin = Local | InboundFederation(sourcePeer: string, remoteEvent: string)

  datatype ProducerError =
    | InboundRebroadcast
    | RuntimePropagationDisabled
    | UnsupportedSurface(surface: Surface)
    | InvalidProducerPayload
    | InvalidProducerEnvelope

  datatype Produced = Produced(eventId: string, kind: EventKind, destination: string, payloadHash: string, body: Json)

  predicate Permitted(e: LocalEvent) { !e.RuntimeEvent? && !e.Unsupported? }

  function KindOf(e: LocalEvent): EventKind
    requires !e.Unsupported?
  {
    match e
    case PrincipalUpserted(_, _, _, _) => PrincipalUpsert
    case MemberJoined(_, _, _, _) => MembershipJoin
    case MemberLeft(_, _, _) => MembershipLeave
    case MemberRemoved(_, _, _, _) => MembershipRemove
    case MemberBanned(_, _, _, _) => MembershipBan
    case MemberUnbanned(_, _, _) => MembershipUnban
    case RuntimeEvent(kind) => kind
  }

  function OptStr(s: Option<string>): Json { if s.Some? then Str(s.value) else Null }

  function IdField(key: string, id: I64): Field { Field(key, Str(ToDecimal(id))) }

  /** The invite is named by its hash only; the code itself is never sent. */
  function HashToSend(x: Externals, e: LocalEvent): Option<string>
    requires e.MemberJoined?
  {
    if e.codeHash.Some? then e.codeHash else if e.code.Some? then Some(CodeHash(x, e.code.value)) else None
  }

  function Pairs(x: Externals, e: LocalEvent): Option<seq<Field>>
    requires Permitted(e)
  {
    match e
    case PrincipalUpserted(user, username, displayName, avatarUrl) =>
      Some([IdField(REMOTE_USER_ID, user), Field(USERNAME, OptStr(username)),
            Field(DISPLAY_NAME, OptStr(displayName)), Field(AVATAR_URL, OptStr(avatarUrl))])
    case MemberJoined(server, user, _, _) =>
      if HashToSend(x, e).None? then None
      else Some([IdField(SERVER_ID, server), IdField(REMOTE_USER_ID, user),
                 Field(INVITE_CODE_HASH, Str(HashToSend(x, e).value))])
    case MemberLeft(server, user, reason) =>
      Some([IdField(SERVER_ID, server), IdField(REMOTE_USER_ID, user), Field(REASON, OptStr(reason))])
    case MemberRemoved(server, moderator, target, reason) => Some(ModerationPairs(server, moderator, target, reason))
    case MemberBanned(server, moderator, target, reason) => Some(ModerationPairs(server, moderator, target, reason))
    case MemberUnbanned(server, moderator, target) =>
      Some([IdField(SERVER_ID, server), IdField(REMOTE_USER_ID, moderator), IdField(TARGET_USER_ID, target)])
  }

  function ModerationPairs(server: I64, moderator: I64, target: I64, reason: Option<string>): seq<Field> {
    [IdField(SERVER_ID, server), IdField(REMOTE_USER_ID, moderator), IdField(TARGET_USER_ID, target),
     Field(REASON, OptStr(reason))]
  }

  /** The integers that name an event, whatever text it carries. */
  function Ids(e: LocalEvent): seq<I64>
    requires Permitted(e)
  {
    match e
    case PrincipalUpserted(user, _, _, _) => [user]
    case MemberJoined(server, user, _, _) => [server, user]
    case MemberLeft(server, user, _) => [server, user]
    case MemberRemoved(server, moderator, target, _) => [server, moderator, target]
    case MemberBanned(server, moderator, target, _) => [server, moderator, target]
    case MemberUnbanned(server, moderator, target) => [server, moderator, target]
  }

  function Prefixed(parts: seq<string>): string {
    if parts == [] then [] else Prefixed(parts[..|parts| - 1]) + [':'] + parts[|parts| - 1]
  }

  function Decimals(ids: seq<I64>): (parts: seq<string>)
    ensures |parts| == |ids|
  {
    seq(|ids|, i requires 0 <= i < |ids| => ToDecimal(ids[i]))
  }

  function ColonSeparated(ids: seq<I64>): string { Prefixed(Decimals(ids)) }

  function DedupeKey(e: LocalEvent): string
    requires Permitted(e)
  {
    AsStr(KindOf(e)) + ColonSeparated(Ids(e))
  }

  /** What is hashed into the event id. */
  function PreImage(source: string, destination: string, kind: EventKind, key: string): string {
    source + ['\n'] + (destination + ['\n'] + (AsStr(kind) + ['\n'] + key))
  }

  function ShortDigest(x: Externals, s: string): string { x.digest(s)[..Min(32, |x.digest(s)|)] }

  function EventId(x: Externals, source: string, destination: string, e: LocalEvent): string
    requires Permitted(e)
  {
    "fed:" + (AsStr(KindOf(e)) + [':'] + ShortDigest(x, PreImage(source, destination, KindOf(e), DedupeKey(e))))
  }

  function RawOf(x: Externals, source: string, destination: string, e: LocalEvent, sentAt: I64, payload: Json): Raw
    requires Permitted(e)
  {
    Raw(1, EventId(x, source, destination, e), AsStr(KindOf(e)), source, destination, sentAt, payload)
  }

  function Build(x: Externals, source: string, destination: string, e: LocalEvent, origin: Origin, sentAt: I64):
    Result<Produced, ProducerError>
  {
    if origin.InboundFederation? then Err(InboundRebroadcast)
    else if e.Unsupported? then Err(UnsupportedSurface(e.surface))
    else if !PropagationAllowed(KindOf(e)) then Err(RuntimePropagationDisabled)
    else
      match Pairs(x, e)
      case None => Err(InvalidProducerPayload)
      case Some(pairs) => BuildWith(x, source, destination, e, sentAt, ObjectOf(pairs))
  }

  function BuildWith(x: Externals, source: string, destination: string, e: LocalEvent, sentAt: I64, payload: Json):
    Result<Produced, ProducerError>
    requires Permitted(e)
  {
    var body := Body(RawOf(x, source, destination, e, sentAt, payload));
    Verdict(FromJson(x, Print(body)).Ok?, FromJson(x, Print(body)) == Err(InvalidPayload),
            Produced(EventId(x, source, destination, e), KindOf(e), destination, x.digest(Print(payload)), body))
  }

  // The producer reads its own text back before it lets it go.
  function Verdict(accepted: bool, badPayload: bool, produced: Produced): Result<Produced, ProducerError> {
    if accepted then Ok(produced) else if badPayload then Err(InvalidProducerPayload) else Err(InvalidProducerEnvelope)
  }

  // ----- The payload ------------------------------------------------------------------

  predicate Flat(pairs: seq<Field>) {
    forall i :: 0 <= i < |pairs| ==> pairs[i].value.Str? || pairs[i].value.Null?
  }

  lemma FlatObjectIsReadable(pairs: seq<Field>)
    requires Flat(pairs)
    ensures Canonical(ObjectOf(pairs)) && Printable(ObjectOf(pairs), MAX_DEPTH - 1)
  {
    InsertAllIsSorted(pairs);
    forall i | 0 <= i < |InsertAll(pairs)|
      ensures Canonical(InsertAll(pairs)[i].value) && Printable(InsertAll(pairs)[i].value, MAX_DEPTH - 2)
    {
      assert InsertAll(pairs)[i] in pairs;
    }
  }

  lemma FlatObjectHasOnly(pairs: seq<Field>, allowed: seq<string>)
    requires forall i :: 0 <= i < |pairs| ==> pairs[i].key in allowed
    ensures OnlyFields(ObjectOf(pairs), allowed)
  {
    InsertAllIsSorted(pairs);
    forall i | 0 <= i < |InsertAll(pairs)| ensures InsertAll(pairs)[i].key in allowed {
      assert InsertAll(pairs)[i] in pairs;
    }
  }

  /** Looking a key up in a payload of three or four fields. */
  lemma ThreeFields(a: Field, b: Field, c: Field, key: string)
    ensures Get(ObjectOf([a, b, c]), key) ==
            if c.key == key then Some(c.value) else if b.key == key then Some(b.value)
            else if a.key == key then Some(a.value) else None
  {
    ObjectOfLooksUp([a, b, c], key);
    LastOfFour(a, b, c, c, key);
  }

  lemma FourFields(a: Field, b: Field, c: Field, d: Field, key: string)
    ensures Get(ObjectOf([a, b, c, d]), key) ==
            if d.key == key then Some(d.value) else if c.key == key then Some(c.value)
            else if b.key == key then Some(b.value) else if a.key == key then Some(a.value) else None
  {
    ObjectOfLooksUp([a, b, c, d], key);
    LastOfFour(a, b, c, d, key);
  }

  predicate Within(s: Option<string>, max: nat) { s.Some? ==> |s.value| <= max }

  /** The bounds the documentation states for the text an event carries. */
  predicate TextInBounds(x: Externals, e: LocalEvent)
    requires Permitted(e)
  {
    match e
    case PrincipalUpserted(_, username, displayName, avatarUrl) =>
      Within(username, 120) && Within(displayName, 120) && StrictAvatar(x, avatarUrl)
    case MemberJoined(_, _, _, _) => Within(HashToSend(x, e), 256)
    case MemberLeft(_, _, reason) => Within(reason, 128)
    case MemberRemoved(_, _, _, reason) => Within(reason, 512)
    case MemberBanned(_, _, _, reason) => Within(reason, 512)
    case MemberUnbanned(_, _, _) => true
  }

  /** What the other side must make of the event. */
  function ExpectedCommand(x: Externals, source: string, e: LocalEvent): Result<Command, RuntimeError>
    requires Permitted(e)
  {
    match e
    case PrincipalUpserted(user, username, displayName, avatarUrl) =>
      if StrictMetadata(x, username, displayName, avatarUrl)
      then Ok(UpsertRemotePrincipal(source, ToDecimal(user), username, displayName, avatarUrl))
      else Err(InvalidForRuntime)
    case MemberJoined(server, user, _, _) =>
      if server > 0 && NonEmpty(HashToSend(x, e)).Some?
      then Ok(Join(source, ToDecimal(user), server, None, HashToSend(x, e)))
      else Err(InvalidForRuntime)
    case MemberLeft(server, user, _) =>
      if server > 0 then Ok(Leave(source, ToDecimal(user), server)) else Err(InvalidForRuntime)
    case MemberRemoved(server, moderator, target, reason) =>
      if server > 0 && target > 0 then Ok(Remove(source, ToDecimal(moderator), server, target, NonEmpty(reason)))
      else Err(InvalidForRuntime)
    case MemberBanned(server, moderator, target, reason) =>
      if server > 0 && target > 0 then Ok(Ban(source, ToDecimal(moderator), server, target, NonEmpty(reason)))
      else Err(InvalidForRuntime)
    case MemberUnbanned(server, moderator, target) =>
      if server > 0 && target > 0 then Ok(Unban(source, ToDecimal(moderator), server, target))
      else Err(InvalidForRuntime)
  }

  ghost predicate PayloadFits(x: Externals, e: LocalEvent, payload: Json)
    requires Permitted(e)
  {
    && (ValidPayload(x, KindOf(e), payload) <==> TextInBounds(x, e))
    && forall env: Envelope :: env.payload == payload && env.kind == KindOf(e) ==>
         CommandFrom(x, env) == ExpectedCommand(x, env.source, e)
  }

  /** The payload carries the id under the key, printed in decimal. */
  ghost predicate CarriesId(payload: Json, key: string, id: I64) {
    && RequiredId(payload, key) && NonEmpty(GetStr(payload, key)) == Some(ToDecimal(id))
    && LocalId(payload, key) == if id > 0 then Some(id) else None
  }

  ghost predicate CarriesText(payload: Json, key: string, text: Option<string>) {
    GetStr(payload, key) == text && (Absent(payload, key) <==> text.None?)
  }

  lemma IdReadsBack(payload: Json, key: string, id: I64)
    requires Get(payload, key) == Some(Str(ToDecimal(id)))
    ensures CarriesId(payload, key, id)
  {
    DecimalIsId(id);
    ParseToDecimal(id);
  }

  lemma UpsertCarries(x: Externals, e: LocalEvent, payload: Json)
    requires e.PrincipalUpserted? && payload == ObjectOf(Pairs(x, e).value)
    ensures OnlyFields(payload, [REMOTE_USER_ID, USERNAME, DISPLAY_NAME, AVATAR_URL])
    ensures CarriesId(payload, REMOTE_USER_ID, e.user) && CarriesText(payload, USERNAME, e.username)
    ensures CarriesText(payload, DISPLAY_NAME, e.displayName) && CarriesText(payload, AVATAR_URL, e.avatarUrl)
  {
    var pairs := Pairs(x, e).value;
    PayloadKeysDiffer();
    FlatObjectHasOnly(pairs, [REMOTE_USER_ID, USERNAME, DISPLAY_NAME, AVATAR_URL]);
    FourFields(pairs[0], pairs[1], pairs[2], pairs[3], REMOTE_USER_ID);
    FourFields(pairs[0], pairs[1], pairs[2], pairs[3], USERNAME);
    FourFields(pairs[0], pairs[1], pairs[2], pairs[3], DISPLAY_NAME);
    FourFields(pairs[0], pairs[1], pairs[2], pairs[3], AVATAR_URL);
    IdReadsBack(payload, REMOTE_USER_ID, e.user);
  }

  lemma UpsertFits(x: Externals, e: LocalEvent)
    requires e.PrincipalUpserted?
    ensures PayloadFits(x, e, ObjectOf(Pairs(x, e).value))
  {
    UpsertCarries(x, e, ObjectOf(Pairs(x, e).value));
  }

  lemma JoinCarries(x: Externals, e: LocalEvent, payload: Json)
    requires e.MemberJoined? && Pairs(x, e).Some? && payload == ObjectOf(Pairs(x, e).value)
    ensures OnlyFields(payload, [SERVER_ID, REMOTE_USER_ID, INVITE_CODE, INVITE_CODE_HASH])
    ensures CarriesId(payload, SERVER_ID, e.server) && CarriesId(payload, REMOTE_USER_ID, e.user)
    ensures CarriesText(payload, INVITE_CODE, None) && CarriesText(payload, INVITE_CODE_HASH, HashToSend(x, e))
  {
    var pairs := Pairs(x, e).value;
    PayloadKeysDiffer();
    FlatObjectHasOnly(pairs, [SERVER_ID, REMOTE_USER_ID, INVITE_CODE, INVITE_CODE_HASH]);
    ThreeFields(pairs[0], pairs[1], pairs[2], SERVER_ID);
    ThreeFields(pairs[0], pairs[1], pairs[2], REMOTE_USER_ID);
    ThreeFields(pairs[0], pairs[1], pairs[2], INVITE_CODE);
    ThreeFields(pairs[0], pairs[1], pairs[2], INVITE_CODE_HASH);
    IdReadsBack(payload, SERVER_ID, e.server);
    IdReadsBack(payload, REMOTE_USER_ID, e.user);
  }

  /** An invite code never leaves the server: a join carries the hash it was given, or else the
      hash of the code. */
  lemma JoinSendsOnlyTheHash(x: Externals, e: LocalEvent)
    requires e.MemberJoined? && Pairs(x, e).Some?
    ensures var payload := ObjectOf(Pairs(x, e).value);
            && GetStr(payload, "inviteCode") == None
            && (e.codeHash.Some? || e.code.Some?)
            && GetStr(payload, "inviteCodeHash") ==
               Some(if e.codeHash.Some? then e.codeHash.value else "sha256:" + x.digest(e.code.value))
  {
    JoinCarries(x, e, ObjectOf(Pairs(x, e).value));
  }

  lemma JoinFits(x: Externals, e: LocalEvent)
    requires e.MemberJoined? && Pairs(x, e).Some?
    ensures PayloadFits(x, e, ObjectOf(Pairs(x, e).value))
  {
    JoinCarries(x, e, ObjectOf(Pairs(x, e).value));
  }

  lemma LeaveCarries(x: Externals, e: LocalEvent, payload: Json)
    requires e.MemberLeft? && payload == ObjectOf(Pairs(x, e).value)
    ensures OnlyFields(payload, [SERVER_ID, REMOTE_USER_ID, REASON])
    ensures CarriesId(payload, SERVER_ID, e.server) && CarriesId(payload, REMOTE_USER_ID, e.user)
    ensures CarriesText(payload, REASON, e.reason)
  {
    var pairs := Pairs(x, e).value;
    PayloadKeysDiffer();
    FlatObjectHasOnly(pairs, [SERVER_ID, REMOTE_USER_ID, REASON]);
    ThreeFields(pairs[0], pairs[1], pairs[2], SERVER_ID);
    ThreeFields(pairs[0], pairs[1], pairs[2], REMOTE_USER_ID);
    ThreeFields(pairs[0], pairs[1], pairs[2], REASON);
    IdReadsBack(payload, SERVER_ID, e.server);
    IdReadsBack(payload, REMOTE_USER_ID, e.user);
  }

  lemma LeaveFits(x: Externals, e: LocalEvent)
    requires e.MemberLeft?
    ensures PayloadFits(x, e, ObjectOf(Pairs(x, e).value))
  {
    LeaveCarries(x, e, ObjectOf(Pairs(x, e).value));
  }

  lemma ModerationCarries(
    server: I64, moderator: I64, target: I64, reason: Option<string>, payload: Json)
    requires payload == ObjectOf(ModerationPairs(server, moderator, target, reason))
    ensures OnlyFields(payload, [SERVER_ID, REMOTE_USER_ID, TARGET_USER_ID, REASON])
    ensures CarriesId(payload, SERVER_ID, server) && CarriesId(payload, REMOTE_USER_ID, moderator)
    ensures CarriesId(payload, TARGET_USER_ID, target) && CarriesText(payload, REASON, reason)
  {
    var pairs := ModerationPairs(server, moderator, target, reason);
    FlatObjectHasOnly(pairs, [SERVER_ID, REMOTE_USER_ID, TARGET_USER_ID, REASON]);
    ModerationGets(server, moderator, target, reason, payload);
    IdReadsBack(payload, SERVER_ID, server);
    IdReadsBack(payload, REMOTE_USER_ID, moderator);
    IdReadsBack(payload, TARGET_USER_ID, target);
  }

  lemma ModerationGets(
    server: I64, moderator: I64, target: I64, reason: Option<string>, payload: Json)
    requires payload == ObjectOf(ModerationPairs(server, moderator, target, reason))
    ensures Get(payload, SERVER_ID) == Some(Str(ToDecimal(server)))
    ensures Get(payload, REMOTE_USER_ID) == Some(Str(ToDecimal(moderator)))
    ensures Get(payload, TARGET_USER_ID) == Some(Str(ToDecimal(target)))
    ensures Get(payload, REASON) == Some(OptStr(reason))
  {
    var pairs := ModerationPairs(server, moderator, target, reason);
    PayloadKeysDiffer();
    FourFields(pairs[0], pairs[1], pairs[2], pairs[3], SERVER_ID);
    FourFields(pairs[0], pairs[1], pairs[2], pairs[3], REMOTE_USER_ID);
    FourFields(pairs[0], pairs[1], pairs[2], pairs[3], TARGET_USER_ID);
    FourFields(pairs[0], pairs[1], pairs[2], pairs[3], REASON);
  }

  lemma ModerationDispatch(x: Externals, env: Envelope)
    requires env.kind.MembershipRemove? || env.kind.MembershipBan? || env.kind.MembershipUnban?
    ensures CommandFrom(x, env) == ModerationFrom(env)
  {
  }

  lemma ModerationCommandIs(x: Externals, env: Envelope, server: I64, moderator: I64, target: I64)
    requires env.kind.MembershipRemove? || env.kind.MembershipBan? || env.kind.MembershipUnban?
    requires LocalId(env.payload, SERVER_ID) == if server > 0 then Some(server) else None
    requires NonEmpty(GetStr(env.payload, REMOTE_USER_ID)) == Some(ToDecimal(moderator))
    requires LocalId(env.payload, TARGET_USER_ID) == if target > 0 then Some(target) else None
    ensures CommandFrom(x, env) ==
            ModerationCommand(env.kind, env.source, Some(ToDecimal(moderator)), if server > 0 then Some(server) else None,
                              if target > 0 then Some(target) else None, NonEmpty(GetStr(env.payload, REASON)))
  {
    ModerationDispatch(x, env);
  }

  lemma ModerationValidates(
    x: Externals, kind: EventKind, payload: Json, server: I64, moderator: I64, target: I64, reason: Option<string>)
    requires kind.MembershipRemove? || kind.MembershipBan?
    requires payload == ObjectOf(ModerationPairs(server, moderator, target, reason))
    ensures ValidPayload(x, kind, payload) <==> Within(reason, 512)
  {
    ModerationCarries(server, moderator, target, reason, payload);
  }

  lemma ModerationFits(x: Externals, e: LocalEvent)
    requires e.MemberRemoved? || e.MemberBanned?
    ensures PayloadFits(x, e, ObjectOf(Pairs(x, e).value))
  {
    var payload := ObjectOf(Pairs(x, e).value);
    ModerationValidates(x, KindOf(e), payload, e.server, e.moderator, e.target, e.reason);
    forall env: Envelope | env.payload == payload && env.kind == KindOf(e)
      ensures CommandFrom(x, env) == ExpectedCommand(x, env.source, e)
    {
      ModerationCommandFits(x, e, env);
    }
  }

  lemma ModerationCommandFits(x: Externals, e: LocalEvent, env: Envelope)
    requires (e.MemberRemoved? || e.MemberBanned?) && env.kind == KindOf(e)
    requires env.payload == ObjectOf(ModerationPairs(e.server, e.moderator, e.target, e.reason))
    ensures CommandFrom(x, env) == ExpectedCommand(x, env.source, e)
  {
    ModerationCarries(e.server, e.moderator, e.target, e.reason, env.payload);
    ModerationCommandIs(x, env, e.server, e.moderator, e.target);
  }

  lemma UnbanCarries(x: Externals, e: LocalEvent, payload: Json)
    requires e.MemberUnbanned? && payload == ObjectOf(Pairs(x, e).value)
    ensures OnlyFields(payload, [SERVER_ID, REMOTE_USER_ID, TARGET_USER_ID])
    ensures CarriesId(payload, SERVER_ID, e.server) && CarriesId(payload, REMOTE_USER_ID, e.moderator)
    ensures CarriesId(payload, TARGET_USER_ID, e.target)
  {
    var pairs := Pairs(x, e).value;
    PayloadKeysDiffer();
    FlatObjectHasOnly(pairs, [SERVER_ID, REMOTE_USER_ID, TARGET_USER_ID]);
    ThreeFields(pairs[0], pairs[1], pairs[2], SERVER_ID);
    ThreeFields(pairs[0], pairs[1], pairs[2], REMOTE_USER_ID);
    ThreeFields(pairs[0], pairs[1], pairs[2], TARGET_USER_ID);
    IdReadsBack(payload, SERVER_ID, e.server);
    IdReadsBack(payload, REMOTE_USER_ID, e.moderator);
    IdReadsBack(payload, TARGET_USER_ID, e.target);
  }

  lemma UnbanFits(x: Externals, e: LocalEvent)
    requires e.MemberUnbanned?
    ensures PayloadFits(x, e, ObjectOf(Pairs(x, e).value))
  {
    var payload := ObjectOf(Pairs(x, e).value);
    UnbanCarries(x, e, payload);
    assert ValidPayload(x, KindOf(e), payload);
    forall env: Envelope | env.payload == payload && env.kind == KindOf(e)
      ensures CommandFrom(x, env) == ExpectedCommand(x, env.source, e)
    {
      ModerationCommandIs(x, env, e.server, e.moderator, e.target);
    }
  }

  lemma EveryPayloadFits(x: Externals, e: LocalEvent)
    requires Permitted(e) && Pairs(x, e).Some?
    ensures PayloadFits(x, e, ObjectOf(Pairs(x, e).value)) && Flat(Pairs(x, e).value)
  {
    match e
    case PrincipalUpserted(_, _, _, _) => UpsertFits(x, e);
    case MemberJoined(_, _, _, _) => JoinFits(x, e);
    case MemberLeft(_, _, _) => LeaveFits(x, e);
    case MemberRemoved(_, _, _, _) => ModerationFits(x, e);
    case MemberBanned(_, _, _, _) => ModerationFits(x, e);
    case MemberUnbanned(_, _, _) => UnbanFits(x, e);
  }

  // ----- The round trip -----------------------------------------------------------------

  predicate LowerCase(c: char) { 'a' <= c <= 'z' || c == '_' }

  lemma PermittedName(kind: EventKind, name: string)
    requires name == AsStr(kind) && PropagationAllowed(kind)
    ensures 1 <= |name| <= 17 && forall i :: 0 <= i < |name| ==> LowerCase(name[i])
  {
    match kind
    case InvitePreview | PrincipalUpsert | MembershipJoin | MembershipLeave | MembershipRemove | MembershipBan |
         MembershipUnban =>
    case _ =>
  }

  lemma PermittedNames(kind: EventKind)
    requires PropagationAllowed(kind)
    ensures var name := AsStr(kind); 1 <= |name| <= 17 && forall i :: 0 <= i < |name| ==> LowerCase(name[i])
  {
    PermittedName(kind, AsStr(kind));
  }

  lemma EventIdIsValid(x: Externals, source: string, destination: string, e: LocalEvent)
    requires x.WellFormed() && Permitted(e)
    ensures IsId(EventId(x, source, destination, e), MAX_EVENT_ID_CHARS)
  {
    PermittedNames(KindOf(e));
    IdOfParts(x, AsStr(KindOf(e)), PreImage(source, destination, KindOf(e), DedupeKey(e)));
  }

  lemma IdOfParts(x: Externals, name: string, hashed: string)
    requires x.WellFormed() && |name| <= 17 && forall i :: 0 <= i < |name| ==> LowerCase(name[i])
    ensures IsId("fed:" + (name + [':'] + ShortDigest(x, hashed)), MAX_EVENT_ID_CHARS)
  {
    var short, full := ShortDigest(x, hashed), x.digest(hashed);
    assert forall i :: 0 <= i < |short| ==> short[i] == full[i];
  }

  /** For every input, what building an envelope comes to. */
  lemma BuildOutcome(x: Externals, source: string, destination: string, e: LocalEvent, sentAt: I64)
    requires x.WellFormed()
    ensures var r := Build(x, source, destination, e, Local, sentAt);
            && (e.Unsupported? ==> r == Err(UnsupportedSurface(e.surface)))
            && (e.RuntimeEvent? ==> r == Err(RuntimePropagationDisabled))
            && (Permitted(e) ==>
                  (r.Ok? <==> Pairs(x, e).Some? && ValidPeer(source) && ValidPeer(destination) && sentAt > 0
                              && TextInBounds(x, e)))
  {
    if Permitted(e) {
      PermittedOutcome(x, source, destination, e, sentAt);
    }
  }

  lemma PermittedOutcome(x: Externals, source: string, destination: string, e: LocalEvent, sentAt: I64)
    requires x.WellFormed() && Permitted(e)
    ensures Build(x, source, destination, e, Local, sentAt).Ok? <==>
            Pairs(x, e).Some? && ValidPeer(source) && ValidPeer(destination) && sentAt > 0 && TextInBounds(x, e)
  {
    if Pairs(x, e).Some? {
      BuildReadsBack(x, source, destination, e, sentAt);
      BuiltTextValidates(x, source, destination, e, sentAt);
    } else {
      NothingToSend(x, source, destination, e, sentAt);
    }
  }

  lemma PermittedKind(e: LocalEvent)
    requires Permitted(e)
    ensures PropagationAllowed(KindOf(e))
  {
  }

  lemma BuildIsBuildWith(x: Externals, source: string, destination: string, e: LocalEvent, sentAt: I64, pairs: seq<Field>)
    requires Permitted(e) && Pairs(x, e) == Some(pairs)
    ensures Build(x, source, destination, e, Local, sentAt) ==
            BuildWith(x, source, destination, e, sentAt, ObjectOf(pairs))
  {
    PermittedKind(e);
  }

  lemma BuildReadsBack(x: Externals, source: string, destination: string, e: LocalEvent, sentAt: I64)
    requires Permitted(e) && Pairs(x, e).Some?
    ensures var raw := RawOf(x, source, destination, e, sentAt, ObjectOf(Pairs(x, e).value));
            Build(x, source, destination, e, Local, sentAt).Ok? <==> FromJson(x, Print(Body(raw))).Ok?
  {
    BuildIsBuildWith(x, source, destination, e, sentAt, Pairs(x, e).value);
    PayloadReadsBack(x, source, destination, e, sentAt, ObjectOf(Pairs(x, e).value));
  }

  lemma PayloadReadsBack(x: Externals, source: string, destination: string, e: LocalEvent, sentAt: I64, payload: Json)
    requires Permitted(e)
    ensures BuildWith(x, source, destination, e, sentAt, payload).Ok? <==>
            FromJson(x, Print(Body(RawOf(x, source, destination, e, sentAt, payload)))).Ok?
  {
  }

  lemma NothingToSend(x: Externals, source: string, destination: string, e: LocalEvent, sentAt: I64)
    requires Permitted(e) && Pairs(x, e).None?
    ensures Build(x, source, destination, e, Local, sentAt) == Err(InvalidProducerPayload)
  {
  }

  lemma BuiltTextValidates(x: Externals, source: string, destination: string, e: LocalEvent, sentAt: I64)
    requires x.WellFormed() && Permitted(e) && Pairs(x, e).Some?
    ensures var raw := RawOf(x, source, destination, e, sentAt, ObjectOf(Pairs(x, e).value));
            FromJson(x, Print(Body(raw))) ==
            if !ValidPeer(source) || !ValidPeer(destination) || sentAt <= 0 then Err(InvalidEnvelope)
            else if !TextInBounds(x, e) then Err(InvalidPayload)
            else Ok(Envelope(1, raw.eventId, KindOf(e), source, destination, sentAt, raw.payload))
  {
    var raw := RawOf(x, source, destination, e, sentAt, ObjectOf(Pairs(x, e).value));
    EveryPayloadFits(x, e);
    FlatObjectIsReadable(Pairs(x, e).value);
    EnvelopeTextRoundTrip(x, raw);
    EventIdIsValid(x, source, destination, e);
    KindReadsBack(KindOf(e));
  }

  /** Whatever is built is read back by the receiver as the same envelope, and becomes
      exactly the command the event stands for. */
  lemma BuiltEnvelopeRoundTrip(
    x: Externals, source: string, destination: string, e: LocalEvent, sentAt: I64)
    requires x.WellFormed() && Build(x, source, destination, e, Local, sentAt).Ok?
    ensures Permitted(e) && Pairs(x, e).Some?
    ensures var produced := Build(x, source, destination, e, Local, sentAt).value;
            var read := FromJson(x, Print(produced.body));
            && read == Ok(Envelope(1, produced.eventId, KindOf(e), source, destination, sentAt, ObjectOf(Pairs(x, e).value)))
            && produced.kind == KindOf(e) && produced.destination == destination
            && produced.eventId == EventId(x, source, destination, e)
            && produced.payloadHash == x.digest(Print(read.value.payload))
            && CommandFrom(x, read.value) == ExpectedCommand(x, source, e)
  {
    BuiltFacts(x, source, destination, e, sentAt);
    BuiltTextValidates(x, source, destination, e, sentAt);
    EveryPayloadFits(x, e);
  }

  lemma BuiltFacts(x: Externals, source: string, destination: string, e: LocalEvent, sentAt: I64)
    requires x.WellFormed() && Build(x, source, destination, e, Local, sentAt).Ok?
    ensures Permitted(e) && Pairs(x, e).Some? && TextInBounds(x, e)
    ensures ValidPeer(source) && ValidPeer(destination) && sentAt > 0
    ensures var produced := Build(x, source, destination, e, Local, sentAt).value;
            && produced.kind == KindOf(e) && produced.destination == destination
            && produced.eventId == EventId(x, source, destination, e)
            && produced.payloadHash == x.digest(Print(ObjectOf(Pairs(x, e).value)))
            && produced.body == Body(RawOf(x, source, destination, e, sentAt, ObjectOf(Pairs(x, e).value)))
  {
    BuildOutcome(x, source, destination, e, sentAt);
  }

  /** Only locally made, permitted events ever leave. */
  lemma NothingElseIsBuilt(
    x: Externals, source: string, destination: string, e: LocalEvent, origin: Origin, sentAt: I64)
    requires !Permitted(e) || origin != Local
    ensures Build(x, source, destination, e, origin, sentAt).Err?
  {
  }
}
