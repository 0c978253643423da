/** What a receiving server does with a verified request: the ingress gate and the
    typed command. */
module Runtime {
  import opened Basics
  import opened Text
  import opened Json
  import opened JsonObject
  import opened EventKind
  import opened Protocol

  // ----- Ingress ----------------------------------------------------------------------

  datatype Verified = Verified(source: string, destination: string)

  datatype IngressError = SourceMismatch | DestinationMismatch | UnsupportedKind | PayloadNotObject

  datatype Decision = Decision(source: string, destination: string, eventId: string, kind: EventKind, payloadHash: string)

  function Ingress(x: Externals, v: Verified, e: Envelope): Result<Decision, IngressError> {
    if e.source != v.source then Err(SourceMismatch)
    else if e.destination != v.destination then Err(DestinationMismatch)
    else if !PropagationAllowed(e.kind) then Err(UnsupportedKind)
    else if !e.payload.Obj? then Err(PayloadNotObject)
    else Ok(Decision(e.source, e.destination, e.eventId, e.kind, x.digest(Print(e.payload))))
  }

  // ----- Commands -----------------------------------------------------------------------

  datatype Command =
    | AuditOnly
    | UpsertRemotePrincipal(home: string, user: string, username: Option<string>, displayName: Option<string>,
                            avatarUrl: Option<string>)
    | Join(home: string, user: string, server: int, code: Option<string>, codeHash: Option<string>)
    | Leave(home: string, user: string, server: int)
    | Remove(home: string, user: string, server: int, target: int, reason: Option<string>)
    | Ban(home: string, user: string, server: int, target: int, reason: Option<string>)
    | Unban(home: string, user: string, server: int, target: int)

  datatype RuntimeError = UnsupportedEventKind | InvalidForRuntime

  function NonEmpty(s: Option<string>): Option<string> { if s == Some("") then None else s }

  function CodeHash(x: Externals, code: string): string { "sha256:" + x.digest(code) }

  /** A positive 64-bit decimal. */
  function LocalId(payload: Json, key: string): Option<int> {
    match NonEmpty(GetStr(payload, key))
    case None => None
    case Some(s) => if ParseI64(s).Some? && ParseI64(s).value > 0 then ParseI64(s) else None
  }

  predicate UsernameChar(c: char) {
    'a' <= c <= 'z' || 'A' <= c <= 'Z' || '0' <= c <= '9' || c == '.' || c == '-' || c == '_'
  }

  predicate StrictUsername(s: Option<string>) {
    s.Some? ==> 1 <= |s.value| <= 120 && forall i :: 0 <= i < |s.value| ==> UsernameChar(s.value[i])
  }

  predicate StrictDisplayName(s: Option<string>) {
    s.Some? ==> |s.value| <= 120 && Lacks(s.value, '\n') && Lacks(s.value, '\r')
  }

  predicate StrictAvatar(x: Externals, s: Option<string>) { s.Some? ==> x.safeUrl(s.value) }

  predicate StrictMetadata(x: Externals, username: Option<string>, displayName: Option<string>, avatarUrl: Option<string>) {
    StrictUsername(username) && StrictDisplayName(displayName) && StrictAvatar(x, avatarUrl)
  }

  function PrincipalCommand(x: Externals, e: Envelope): Result<Command, RuntimeError> {
    var user := NonEmpty(GetStr(e.payload, REMOTE_USER_ID));
    var username, displayName := GetStr(e.payload, USERNAME), GetStr(e.payload, DISPLAY_NAME);
    var avatarUrl := GetStr(e.payload, AVATAR_URL);
    if user.None? || !StrictMetadata(x, username, displayName, avatarUrl) then Err(InvalidForRuntime)
    else Ok(UpsertRemotePrincipal(e.source, user.value, username, displayName, avatarUrl))
  }

  function JoinCommand(x: Externals, e: Envelope): Result<Command, RuntimeError> {
    var user, server := NonEmpty(GetStr(e.payload, REMOTE_USER_ID)), LocalId(e.payload, SERVER_ID);
    if user.None? || server.None? then Err(InvalidForRuntime)
    else
      var code := NonEmpty(GetStr(e.payload, INVITE_CODE));
      var given := NonEmpty(GetStr(e.payload, INVITE_CODE_HASH));
      var hash := if given.Some? then given else if code.Some? then Some(CodeHash(x, code.value)) else None;
      if code.None? && hash.None? then Err(InvalidForRuntime)
      else Ok(Join(e.source, user.value, server.value, code, hash))
  }

  function LeaveCommand(e: Envelope): Result<Command, RuntimeError> {
    var user, server := NonEmpty(GetStr(e.payload, REMOTE_USER_ID)), LocalId(e.payload, SERVER_ID);
    if user.None? || server.None? then Err(InvalidForRuntime) else Ok(Leave(e.source, user.value, server.value))
  }

  function ModerationCommand(kind: EventKind, home: string, user: Option<string>, server: Option<int>,
                             target: Option<int>, reason: Option<string>): Result<Command, RuntimeError>
  {
    if user.None? || server.None? || target.None? then Err(InvalidForRuntime)
    else if kind.MembershipRemove? then Ok(Remove(home, user.value, server.value, target.value, reason))
    else if kind.MembershipBan? then Ok(Ban(home, user.value, server.value, target.value, reason))
    else Ok(Unban(home, user.value, server.value, target.value))
  }

  function ModerationFrom(e: Envelope): Result<Command, RuntimeError> {
    ModerationCommand(e.kind, e.source, NonEmpty(GetStr(e.payload, REMOTE_USER_ID)), LocalId(e.payload, SERVER_ID),
                      LocalId(e.payload, TARGET_USER_ID), NonEmpty(GetStr(e.payload, REASON)))
  }

  function CommandFrom(x: Externals, e: Envelope): Result<Command, RuntimeError> {
    if !PropagationAllowed(e.kind) then Err(UnsupportedEventKind)
    else
      match e.kind
      case InvitePreview => Ok(AuditOnly)
      case PrincipalUpsert => PrincipalCommand(x, e)
      case MembershipJoin => JoinCommand(x, e)
      case MembershipLeave => LeaveCommand(e)
      case MembershipRemove => ModerationFrom(e)
      case MembershipBan => ModerationFrom(e)
      case MembershipUnban => ModerationFrom(e)
      case _ => Err(UnsupportedEventKind)
  }

  // ----- Gate agreement -------------------------------------------------------------------

  predicate NamesPositiveId(payload: Json, key: string) {
    GetStr(payload, key).Some? && ParseI64(GetStr(payload, key).value).Some?
    && ParseI64(GetStr(payload, key).value).value > 0
  }

  predicate NamesText(payload: Json, key: string) {
    GetStr(payload, key).Some? && GetStr(payload, key).value != ""
  }

  /** What the runtime asks of an accepted payload beyond what the protocol asked. */
  predicate RuntimeAccepts(kind: EventKind, payload: Json) {
    match kind
    case InvitePreview => true
    case PrincipalUpsert =>
      StrictUsername(GetStr(payload, USERNAME)) && StrictDisplayName(GetStr(payload, DISPLAY_NAME))
    case MembershipJoin =>
      NamesPositiveId(payload, SERVER_ID) && (NamesText(payload, INVITE_CODE) || NamesText(payload, INVITE_CODE_HASH))
    case MembershipLeave => NamesPositiveId(payload, SERVER_ID)
    case _ => NamesPositiveId(payload, SERVER_ID) && NamesPositiveId(payload, TARGET_USER_ID)
  }

  /** Ingress and runtime open for the same seven kinds, and ingress only to an envelope from
      and to the peers the signature was checked for. */
  lemma GatesOpenTogether(x: Externals, v: Verified, e: Envelope)
    ensures var seven := {InvitePreview, PrincipalUpsert, MembershipJoin, MembershipLeave, MembershipRemove,
                          MembershipBan, MembershipUnban};
            && (Ingress(x, v, e).Ok? <==>
                  e.source == v.source && e.destination == v.destination && e.kind in seven && e.payload.Obj?)
            && (CommandFrom(x, e) != Err(UnsupportedEventKind) <==> e.kind in seven)
    ensures Ingress(x, v, e).Ok? ==>
            Ingress(x, v, e).value == Decision(v.source, v.destination, e.eventId, e.kind, x.digest(Print(e.payload)))
    ensures e.source != v.source ==> Ingress(x, v, e) == Err(SourceMismatch)
    ensures e.source == v.source && e.destination != v.destination ==> Ingress(x, v, e) == Err(DestinationMismatch)
  {
  }

  // ----- What a command says ----------------------------------------------------------------

  /** The server a command acts for. */
  function HomeOf(command: Command): Option<string> {
    match command
    case AuditOnly => None
    case UpsertRemotePrincipal(home, _, _, _, _) => Some(home)
    case Join(home, _, _, _, _) => Some(home)
    case Leave(home, _, _) => Some(home)
    case Remove(home, _, _, _, _) => Some(home)
    case Ban(home, _, _, _, _) => Some(home)
    case Unban(home, _, _, _) => Some(home)
  }

  // The payload names the local id under the key, in decimal.
  predicate IdUnder(payload: Json, key: string, id: int) {
    GetStr(payload, key).Some? && ParseI64(GetStr(payload, key).value) == Some(id) && id > 0
  }

  // The text under the key, an empty one counting as none.
  predicate TextUnder(payload: Json, key: string, text: Option<string>) {
    text == if GetStr(payload, key) == Some("") then None else GetStr(payload, key)
  }

  predicate UserUnder(payload: Json, user: string) { GetStr(payload, "remoteUserId") == Some(user) && user != "" }

  predicate ModerationSays(payload: Json, user: string, server: int, target: int) {
    UserUnder(payload, user) && IdUnder(payload, "serverId", server) && IdUnder(payload, "targetUserId", target)
  }

  /** Every part of a command comes from one place in the envelope. */
  predicate Says(x: Externals, e: Envelope, command: Command) {
    match command
    case AuditOnly => e.kind == InvitePreview
    case UpsertRemotePrincipal(_, user, username, displayName, avatarUrl) =>
      && e.kind == PrincipalUpsert && UserUnder(e.payload, user) && username == GetStr(e.payload, "username")
      && displayName == GetStr(e.payload, "displayName") && avatarUrl == GetStr(e.payload, "avatarUrl")
    case Join(_, user, server, code, hash) =>
      && e.kind == MembershipJoin && UserUnder(e.payload, user) && IdUnder(e.payload, "serverId", server)
      && TextUnder(e.payload, "inviteCode", code) && hash.Some?
      && (TextUnder(e.payload, "inviteCodeHash", hash)
          || (TextUnder(e.payload, "inviteCodeHash", None) && code.Some? && hash.value == "sha256:" + x.digest(code.value)))
    case Leave(_, user, server) =>
      e.kind == MembershipLeave && UserUnder(e.payload, user) && IdUnder(e.payload, "serverId", server)
    case Remove(_, user, server, target, reason) =>
      e.kind == MembershipRemove && ModerationSays(e.payload, user, server, target)
      && TextUnder(e.payload, "reason", reason)
    case Ban(_, user, server, target, reason) =>
      e.kind == MembershipBan && ModerationSays(e.payload, user, server, target) && TextUnder(e.payload, "reason", reason)
    case Unban(_, user, server, target) =>
      e.kind == MembershipUnban && ModerationSays(e.payload, user, server, target)
  }

  lemma ModerationIsSaid(x: Externals, e: Envelope)
    requires e.kind.MembershipRemove? || e.kind.MembershipBan? || e.kind.MembershipUnban?
    requires ModerationFrom(e).Ok?
    ensures Says(x, e, ModerationFrom(e).value) && HomeOf(ModerationFrom(e).value) == Some(e.source)
  {
  }

  /** A command acts for the server that sent the envelope, and says what the envelope's
      payload says. */
  lemma CommandIsWhatWasSent(x: Externals, e: Envelope)
    requires CommandFrom(x, e).Ok?
    ensures Says(x, e, CommandFrom(x, e).value)
    ensures HomeOf(CommandFrom(x, e).value) == if e.kind == InvitePreview then None else Some(e.source)
  {
    if e.kind.MembershipRemove? || e.kind.MembershipBan? || e.kind.MembershipUnban? {
      ModerationIsSaid(x, e);
    }
  }

  // A name of 1 to 120 letters, digits, dots, dashes and underscores.
  ghost predicate PlainName(s: string) {
    1 <= |s| <= 120
    && forall i :: 0 <= i < |s| ==>
         'a' <= s[i] <= 'z' || 'A' <= s[i] <= 'Z' || '0' <= s[i] <= '9' || s[i] == '.' || s[i] == '-' || s[i] == '_'
  }

  // At most 120 characters on one line.
  ghost predicate OneLine(s: string) { |s| <= 120 && '\n' !in s && '\r' !in s }

  /** A profile is taken over exactly if it names a user, and its name, display name and
      picture, where given, are a plain name, one line and a safe link. */
  lemma ProfileIsAcceptedIff(x: Externals, e: Envelope)
    requires e.kind == PrincipalUpsert
    ensures CommandFrom(x, e).Ok? <==>
            && GetStr(e.payload, "remoteUserId").Some? && GetStr(e.payload, "remoteUserId").value != ""
            && (GetStr(e.payload, "username").Some? ==> PlainName(GetStr(e.payload, "username").value))
            && (GetStr(e.payload, "displayName").Some? ==> OneLine(GetStr(e.payload, "displayName").value))
            && (GetStr(e.payload, "avatarUrl").Some? ==> x.safeUrl(GetStr(e.payload, "avatarUrl").value))
  {
  }

  lemma LocalIdIffNamed(payload: Json, key: string)
    ensures LocalId(payload, key).Some? <==> NamesPositiveId(payload, key)
  {
  }

  lemma ValidPayloadNamesUser(x: Externals, kind: EventKind, payload: Json)
    requires PropagationAllowed(kind) && kind != InvitePreview && ValidPayload(x, kind, payload)
    ensures NamesText(payload, REMOTE_USER_ID)
    ensures kind.PrincipalUpsert? ==> StrictAvatar(x, GetStr(payload, AVATAR_URL))
  {
  }

  lemma AcceptedPayloadIsValid(x: Externals, text: string)
    requires FromJson(x, text).Ok?
    ensures ValidPayload(x, FromJson(x, text).value.kind, FromJson(x, text).value.payload)
  {
  }

  lemma ValidPayloadCommands(x: Externals, e: Envelope)
    requires PropagationAllowed(e.kind) && ValidPayload(x, e.kind, e.payload)
    ensures CommandFrom(x, e).Ok? <==> RuntimeAccepts(e.kind, e.payload)
    ensures CommandFrom(x, e).Err? ==> CommandFrom(x, e).error == InvalidForRuntime
  {
    LocalIdIffNamed(e.payload, SERVER_ID);
    LocalIdIffNamed(e.payload, TARGET_USER_ID);
    if e.kind != InvitePreview {
      ValidPayloadNamesUser(x, e.kind, e.payload);
    }
  }

  /** For every text that parses to a permitted kind, the command is refused exactly
      when a local id is not a positive decimal, a join names no invite, or the profile
      breaks the stricter rules; an accepted user id or avatar never causes a refusal. */
  lemma CommandFailsExactlyWhen(x: Externals, text: string)
    requires FromJson(x, text).Ok? && PropagationAllowed(FromJson(x, text).value.kind)
    ensures var e := FromJson(x, text).value;
            && (CommandFrom(x, e).Ok? <==> RuntimeAccepts(e.kind, e.payload))
            && (CommandFrom(x, e).Err? ==> CommandFrom(x, e).error == InvalidForRuntime)
  {
    AcceptedPayloadIsValid(x, text);
    ValidPayloadCommands(x, FromJson(x, text).value);
  }
}
