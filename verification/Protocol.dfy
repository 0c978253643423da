/** Reading an event envelope from its text and validating it. */
module Protocol {
  import opened Basics
  import opened Text
  import opened Json
  import opened JsonObject
  import opened EventKind

  const SUPPORTED_VERSION: int := 1
  const MAX_EVENT_ID_CHARS: nat := 256
  const MAX_PEER_ID_CHARS: nat := 253
  const MAX_PAYLOAD_ID_CHARS: nat := 256

  /** The parts of the server that are not modelled: SHA-256 in lower-case hex, the
      check for a safe public profile URL, and the payload rules of the thirty-three
      kinds that the gate refuses afterwards. */
  datatype Externals = Externals(
    digest: string -> string,
    safeUrl: string -> bool,
    disabledPayloadOk: (EventKind, Json) -> bool)
  {
    ghost predicate WellFormed() {
      forall s :: |digest(s)| == 64 && forall i :: 0 <= i < 64 ==> IsHex(digest(s)[i])
    }
  }

  lemma WellFormedExternalsExist()
    ensures exists x: Externals :: x.WellFormed()
  {
    var zeros := seq(64, i => '0');
    var x := Externals(s => zeros, s => true, (k, p) => true);
    assert x.WellFormed();
  }

  predicate IsHex(c: char) { '0' <= c <= '9' || 'a' <= c <= 'f' }

  datatype ProtocolError = MalformedJson | UnsupportedVersion | UnknownEventKind | InvalidEnvelope | InvalidPayload

  datatype Envelope = Envelope(
    protocolVersion: int, eventId: string, kind: EventKind, source: string, destination: string,
    sentAt: int, payload: Json)

  datatype Raw = Raw(
    version: int, eventId: string, kind: string, source: string, destination: string, sentAt: int, payload: Json)

  const PROTOCOL_VERSION: string := "protocolVersion"
  const EVENT_ID: string := "eventId"
  const KIND: string := "kind"
  const SOURCE_PEER_ID: string := "sourcePeerId"
  const DESTINATION_PEER_ID: string := "destinationPeerId"
  const SENT_AT_MS: string := "sentAtMs"
  const PAYLOAD: string := "payload"

  const SERVER_ID: string := "serverId"
  const REMOTE_USER_ID: string := "remoteUserId"
  const TARGET_USER_ID: string := "targetUserId"
  const REASON: string := "reason"
  const USERNAME: string := "username"
  const DISPLAY_NAME: string := "displayName"
  const AVATAR_URL: string := "avatarUrl"
  const INVITE_CODE: string := "inviteCode"
  const INVITE_CODE_HASH: string := "inviteCodeHash"

  lemma EnvelopeKeysDiffer()
    ensures |PROTOCOL_VERSION| == 15 && |EVENT_ID| == 7 && EVENT_ID[0] == 'e' && |KIND| == 4
    ensures |SOURCE_PEER_ID| == 12 && |DESTINATION_PEER_ID| == 17 && |SENT_AT_MS| == 8
    ensures |PAYLOAD| == 7 && PAYLOAD[0] == 'p'
  {
  }

  lemma PayloadKeysDiffer()
    ensures |SERVER_ID| == 8 && SERVER_ID[0] == 's' && |REMOTE_USER_ID| == 12 && REMOTE_USER_ID[0] == 'r'
    ensures |TARGET_USER_ID| == 12 && TARGET_USER_ID[0] == 't' && |REASON| == 6
    ensures |USERNAME| == 8 && USERNAME[0] == 'u' && |DISPLAY_NAME| == 11 && |AVATAR_URL| == 9
    ensures |INVITE_CODE| == 10 && |INVITE_CODE_HASH| == 14
  {
  }

  // ----- From text to a raw envelope -------------------------------------------------

  predicate IsI16(n: int) { -32768 <= n <= 32767 }

  function RawFrom(version: Json, eventId: Json, kind: Json, source: Json, destination: Json, sentAt: Json,
                   payload: Json): Option<Raw>
  {
    if version.Int? && IsI16(version.n) && eventId.Str? && kind.Str? && source.Str? && destination.Str?
       && sentAt.Int? && IsI64(sentAt.n)
    then Some(Raw(version.n, eventId.s, kind.s, source.s, destination.s, sentAt.n, Normalize(payload)))
    else None
  }

  // A field given twice is as malformed as a missing one.
  function Only(fields: seq<Field>, key: string): Option<Json> {
    if |Occurrences(fields, key)| == 1 then Some(Occurrences(fields, key)[0]) else None
  }

  /** An object by field name, or an array in field order; unknown fields are ignored. */
  function Deserialize(tree: Json): Option<Raw> {
    match tree
    case Obj(fields) =>
      var v, e, k := Only(fields, PROTOCOL_VERSION), Only(fields, EVENT_ID), Only(fields, KIND);
      var s, d := Only(fields, SOURCE_PEER_ID), Only(fields, DESTINATION_PEER_ID);
      var t, p := Only(fields, SENT_AT_MS), Only(fields, PAYLOAD);
      if v.Some? && e.Some? && k.Some? && s.Some? && d.Some? && t.Some? && p.Some? then
        RawFrom(v.value, e.value, k.value, s.value, d.value, t.value, p.value)
      else None
    case Arr(a) => if |a| == 7 then RawFrom(a[0], a[1], a[2], a[3], a[4], a[5], a[6]) else None
    case _ => None
  }

  // ----- Payload rules ------------------------------------------------------------------

  function GetStr(payload: Json, key: string): Option<string> {
    match Get(payload, key)
    case Some(Str(s)) => Some(s)
    case _ => None
  }

  predicate RequiredId(payload: Json, key: string) {
    GetStr(payload, key).Some? && IsId(GetStr(payload, key).value, MAX_PAYLOAD_ID_CHARS)
  }

  // Absent and null are both fine.
  predicate Absent(payload: Json, key: string) { Get(payload, key).None? || Get(payload, key).value.Null? }

  predicate OptionalShort(payload: Json, key: string, max: nat) {
    Absent(payload, key) || (GetStr(payload, key).Some? && |GetStr(payload, key).value| <= max)
  }

  predicate OptionalUrl(x: Externals, payload: Json, key: string) {
    Absent(payload, key) || (GetStr(payload, key).Some? && x.safeUrl(GetStr(payload, key).value))
  }

  predicate OnlyFields(payload: Json, allowed: seq<string>) {
    payload.Obj? && forall i :: 0 <= i < |payload.fields| ==> payload.fields[i].key in allowed
  }

  predicate ValidPayload(x: Externals, kind: EventKind, payload: Json) {
    match kind
    case InvitePreview => OnlyFields(payload, [SERVER_ID, INVITE_CODE, INVITE_CODE_HASH])
    case PrincipalUpsert =>
      && OnlyFields(payload, [REMOTE_USER_ID, USERNAME, DISPLAY_NAME, AVATAR_URL])
      && RequiredId(payload, REMOTE_USER_ID)
      && OptionalShort(payload, USERNAME, 120)
      && OptionalShort(payload, DISPLAY_NAME, 120)
      && OptionalUrl(x, payload, AVATAR_URL)
    case MembershipJoin =>
      && OnlyFields(payload, [SERVER_ID, REMOTE_USER_ID, INVITE_CODE, INVITE_CODE_HASH])
      && RequiredId(payload, SERVER_ID)
      && RequiredId(payload, REMOTE_USER_ID)
      && OptionalShort(payload, INVITE_CODE, 256)
      && OptionalShort(payload, INVITE_CODE_HASH, 256)
    case MembershipLeave =>
      && OnlyFields(payload, [SERVER_ID, REMOTE_USER_ID, REASON])
      && RequiredId(payload, SERVER_ID)
      && RequiredId(payload, REMOTE_USER_ID)
      && OptionalShort(payload, REASON, 128)
    case MembershipRemove => ValidModeration(payload)
    case MembershipBan => ValidModeration(payload)
    case MembershipUnban =>
      && OnlyFields(payload, [SERVER_ID, REMOTE_USER_ID, TARGET_USER_ID])
      && RequiredId(payload, SERVER_ID)
      && RequiredId(payload, REMOTE_USER_ID)
      && RequiredId(payload, TARGET_USER_ID)
    case _ => payload.Obj? && x.disabledPayloadOk(kind, payload)
  }

  predicate ValidModeration(payload: Json) {
    && OnlyFields(payload, [SERVER_ID, REMOTE_USER_ID, TARGET_USER_ID, REASON])
    && RequiredId(payload, SERVER_ID)
    && RequiredId(payload, REMOTE_USER_ID)
    && RequiredId(payload, TARGET_USER_ID)
    && OptionalShort(payload, REASON, 512)
  }

  predicate ValidPeer(peer: string) { IsId(peer, MAX_PEER_ID_CHARS) }

  function Validate(x: Externals, raw: Raw): Result<Envelope, ProtocolError> {
    if raw.version != SUPPORTED_VERSION then Err(UnsupportedVersion)
    else
      match ParseKind(raw.kind)
      case None => Err(UnknownEventKind)
      case Some(kind) =>
        if !IsId(raw.eventId, MAX_EVENT_ID_CHARS) || !ValidPeer(raw.source) || !ValidPeer(raw.destination)
           || raw.sentAt <= 0 || !raw.payload.Obj?
        then Err(InvalidEnvelope)
        else if !ValidPayload(x, kind, raw.payload) then Err(InvalidPayload)
        else Ok(Envelope(raw.version, raw.eventId, kind, raw.source, raw.destination, raw.sentAt, raw.payload))
  }

  function FromJson(x: Externals, text: string): Result<Envelope, ProtocolError> {
    match Parse(text)
    case None => Err(MalformedJson)
    case Some(tree) =>
      match Deserialize(tree)
      case None => Err(MalformedJson)
      case Some(raw) => Validate(x, raw)
  }

  // ----- What is accepted ----------------------------------------------------------------

  ghost predicate IdOfLength(s: string, max: nat) { 1 <= |s| <= max && forall i :: 0 <= i < |s| ==> IdChar(s[i]) }

  lemma ValidatedIs(x: Externals, raw: Raw)
    requires Validate(x, raw).Ok?
    ensures var e := Validate(x, raw).value;
            && e == Envelope(1, raw.eventId, e.kind, raw.source, raw.destination, raw.sentAt, raw.payload)
            && ParseKind(raw.kind) == Some(e.kind) && raw.version == 1 && 0 < e.sentAt && e.payload.Obj?
            && IdOfLength(e.eventId, 256) && IdOfLength(e.source, 253) && IdOfLength(e.destination, 253)
            && ValidPayload(x, e.kind, e.payload)
  {
  }

  lemma ReadFromRaw(x: Externals, text: string)
    requires FromJson(x, text).Ok?
    ensures Parse(text).Some? && Deserialize(Parse(text).value).Some?
    ensures FromJson(x, text) == Validate(x, Deserialize(Parse(text).value).value)
  {
  }

  lemma RawTimeFits(tree: Json)
    requires Deserialize(tree).Some?
    ensures IsI64(Deserialize(tree).value.sentAt)
  {
  }

  /** Whatever text is accepted: version 1, ids of the stated shapes, a positive time, an
      object as payload. */
  lemma AcceptedEnvelope(x: Externals, text: string)
    requires FromJson(x, text).Ok?
    ensures var e := FromJson(x, text).value;
            && e.protocolVersion == 1 && 0 < e.sentAt <= I64_MAX && e.payload.Obj?
            && IdOfLength(e.eventId, 256) && IdOfLength(e.source, 253) && IdOfLength(e.destination, 253)
            && ValidPayload(x, e.kind, e.payload)
  {
    ReadFromRaw(x, text);
    ValidatedIs(x, Deserialize(Parse(text).value).value);
    RawTimeFits(Parse(text).value);
  }

  // The first of the checks that fails decides the error.
  lemma RefusalReasons(x: Externals, raw: Raw)
    ensures Validate(x, raw) == Err(UnsupportedVersion) <==> raw.version != 1
    ensures Validate(x, raw) == Err(UnknownEventKind) <==> raw.version == 1 && ParseKind(raw.kind).None?
    ensures Validate(x, raw) == Err(InvalidEnvelope) <==>
            raw.version == 1 && ParseKind(raw.kind).Some?
            && !(IdOfLength(raw.eventId, 256) && IdOfLength(raw.source, 253) && IdOfLength(raw.destination, 253)
                 && raw.sentAt > 0 && raw.payload.Obj?)
    ensures Validate(x, raw) != Err(MalformedJson)
  {
  }

  /** A kind is unknown exactly if no kind has that name. */
  lemma UnknownKindIff(name: string)
    ensures ParseKind(name).None? <==> forall kind :: AsStr(kind) != name
  {
    NameReadsBack(name);
    forall kind | AsStr(kind) == name ensures ParseKind(name) == Some(kind) {
      KindReadsBack(kind);
    }
  }

  ghost predicate SaysOnce(fields: seq<Field>, key: string, value: Json) { Occurrences(fields, key) == [value] }

  lemma ObjectIsRead(fields: seq<Field>)
    requires Deserialize(Obj(fields)).Some?
    ensures var raw := Deserialize(Obj(fields)).value;
            && SaysOnce(fields, "protocolVersion", Int(raw.version)) && SaysOnce(fields, "eventId", Str(raw.eventId))
            && SaysOnce(fields, "kind", Str(raw.kind)) && SaysOnce(fields, "sourcePeerId", Str(raw.source))
            && SaysOnce(fields, "destinationPeerId", Str(raw.destination)) && SaysOnce(fields, "sentAtMs", Int(raw.sentAt))
            && exists p :: SaysOnce(fields, "payload", p) && Normalize(p) == raw.payload
  {
    assert SaysOnce(fields, "payload", Only(fields, PAYLOAD).value);
  }

  lemma ArrayIsRead(items: seq<Json>)
    requires Deserialize(Arr(items)).Some?
    ensures var raw := Deserialize(Arr(items)).value;
            && |items| == 7 && items[0] == Int(raw.version) && items[1] == Str(raw.eventId) && items[2] == Str(raw.kind)
            && items[3] == Str(raw.source) && items[4] == Str(raw.destination) && items[5] == Int(raw.sentAt)
            && Normalize(items[6]) == raw.payload
  {
  }

  ghost predicate ObjectSays(fields: seq<Field>, e: Envelope) {
    && SaysOnce(fields, "protocolVersion", Int(1)) && SaysOnce(fields, "eventId", Str(e.eventId))
    && SaysOnce(fields, "kind", Str(AsStr(e.kind))) && SaysOnce(fields, "sourcePeerId", Str(e.source))
    && SaysOnce(fields, "destinationPeerId", Str(e.destination)) && SaysOnce(fields, "sentAtMs", Int(e.sentAt))
    && exists p :: SaysOnce(fields, "payload", p) && Normalize(p) == e.payload
  }

  ghost predicate ArraySays(items: seq<Json>, e: Envelope) {
    && |items| == 7 && items[0] == Int(1) && items[1] == Str(e.eventId) && items[2] == Str(AsStr(e.kind))
    && items[3] == Str(e.source) && items[4] == Str(e.destination) && items[5] == Int(e.sentAt)
    && Normalize(items[6]) == e.payload
  }

  /** Which part of the text is which part of the envelope: each of the seven keys stands in
      an object exactly once, or the seven values stand in an array in this order. */
  lemma EnvelopeIsWhatWasSent(x: Externals, text: string)
    requires FromJson(x, text).Ok?
    ensures Parse(text).Some?
    ensures match Parse(text).value
            case Obj(fields) => ObjectSays(fields, FromJson(x, text).value)
            case Arr(items) => ArraySays(items, FromJson(x, text).value)
            case _ => false
  {
    ReadFromRaw(x, text);
    var raw := Deserialize(Parse(text).value).value;
    ValidatedIs(x, raw);
    NameReadsBack(raw.kind);
    match Parse(text).value {
      case Obj(fields) => ObjectIsRead(fields);
      case Arr(items) => ArrayIsRead(items);
      case _ =>
    }
  }

  ghost predicate KeysAmong(payload: Json, allowed: set<string>) {
    payload.Obj? && forall f :: f in payload.fields ==> f.key in allowed
  }

  /** A payload may hold the fields of its kind and no others. */
  lemma UnknownFieldsAreRefused(x: Externals, kind: EventKind, payload: Json)
    requires ValidPayload(x, kind, payload)
    ensures kind == InvitePreview ==> KeysAmong(payload, {"serverId", "inviteCode", "inviteCodeHash"})
    ensures kind == PrincipalUpsert ==> KeysAmong(payload, {"remoteUserId", "username", "displayName", "avatarUrl"})
    ensures kind == MembershipJoin ==>
            KeysAmong(payload, {"serverId", "remoteUserId", "inviteCode", "inviteCodeHash"})
    ensures kind == MembershipLeave ==> KeysAmong(payload, {"serverId", "remoteUserId", "reason"})
    ensures kind == MembershipRemove || kind == MembershipBan ==>
            KeysAmong(payload, {"serverId", "remoteUserId", "targetUserId", "reason"})
    ensures kind == MembershipUnban ==> KeysAmong(payload, {"serverId", "remoteUserId", "targetUserId"})
  {
  }

  ghost predicate IdUpTo256(payload: Json, key: string) {
    GetStr(payload, key).Some? && IdOfLength(GetStr(payload, key).value, 256)
  }

  ghost predicate TextUpTo(payload: Json, key: string, max: nat) {
    Get(payload, key) == None || Get(payload, key) == Some(Null)
    || (GetStr(payload, key).Some? && |GetStr(payload, key).value| <= max)
  }

  /** The required ids and the bounds on optional text. */
  lemma PayloadBounds(x: Externals, kind: EventKind, payload: Json)
    requires ValidPayload(x, kind, payload)
    ensures kind == PrincipalUpsert ==>
            IdUpTo256(payload, "remoteUserId") && TextUpTo(payload, "username", 120)
            && TextUpTo(payload, "displayName", 120)
            && (GetStr(payload, "avatarUrl").Some? ==> x.safeUrl(GetStr(payload, "avatarUrl").value))
    ensures kind == MembershipJoin || kind == MembershipLeave ==>
            IdUpTo256(payload, "serverId") && IdUpTo256(payload, "remoteUserId")
    ensures kind == MembershipJoin ==> TextUpTo(payload, "inviteCode", 256) && TextUpTo(payload, "inviteCodeHash", 256)
    ensures kind == MembershipLeave ==> TextUpTo(payload, "reason", 128)
    ensures kind == MembershipRemove || kind == MembershipBan || kind == MembershipUnban ==>
            IdUpTo256(payload, "serverId") && IdUpTo256(payload, "remoteUserId") && IdUpTo256(payload, "targetUserId")
    ensures kind == MembershipRemove || kind == MembershipBan ==> TextUpTo(payload, "reason", 512)
  {
  }

  // ----- Printing an envelope and reading it back --------------------------------------

  function Body(raw: Raw): Json {
    ObjectOf([
      Field(PROTOCOL_VERSION, Int(raw.version)), Field(EVENT_ID, Str(raw.eventId)), Field(KIND, Str(raw.kind)),
      Field(SOURCE_PEER_ID, Str(raw.source)), Field(DESTINATION_PEER_ID, Str(raw.destination)),
      Field(SENT_AT_MS, Int(raw.sentAt)), Field(PAYLOAD, raw.payload)])
  }

  lemma LastOfFour(a: Field, b: Field, c: Field, d: Field, key: string)
    ensures LastOf([a], key) == if a.key == key then Some(a.value) else None
    ensures LastOf([a, b], key) == if b.key == key then Some(b.value) else LastOf([a], key)
    ensures LastOf([a, b, c], key) == if c.key == key then Some(c.value) else LastOf([a, b], key)
    ensures LastOf([a, b, c, d], key) == if d.key == key then Some(d.value) else LastOf([a, b, c], key)
  {
    assert [a][..0] == [] && [a, b][..1] == [a] && [a, b, c][..2] == [a, b] && [a, b, c, d][..3] == [a, b, c];
  }

  lemma LastOfSnoc(pairs: seq<Field>, f: Field, key: string)
    ensures LastOf(pairs + [f], key) == if f.key == key then Some(f.value) else LastOf(pairs, key)
  {
    assert (pairs + [f])[..|pairs|] == pairs;
  }

  lemma LastOfSeven(a: Field, b: Field, c: Field, d: Field, e: Field, f: Field, g: Field, key: string)
    ensures LastOf([a, b, c, d, e, f, g], key) ==
            if g.key == key then Some(g.value) else if f.key == key then Some(f.value)
            else if e.key == key then Some(e.value) else LastOf([a, b, c, d], key)
  {
    LastOfSnoc([a, b, c, d], e, key);
    LastOfSnoc([a, b, c, d, e], f, key);
    LastOfSnoc([a, b, c, d, e, f], g, key);
    assert [a, b, c, d] + [e] == [a, b, c, d, e];
    assert [a, b, c, d, e] + [f] == [a, b, c, d, e, f];
    assert [a, b, c, d, e, f] + [g] == [a, b, c, d, e, f, g];
  }

  lemma BodyField(raw: Raw, key: string)
    ensures Only(Body(raw).fields, key) ==
            if key == PAYLOAD then Some(raw.payload)
            else if key == SENT_AT_MS then Some(Int(raw.sentAt))
            else if key == DESTINATION_PEER_ID then Some(Str(raw.destination))
            else if key == SOURCE_PEER_ID then Some(Str(raw.source))
            else if key == KIND then Some(Str(raw.kind))
            else if key == EVENT_ID then Some(Str(raw.eventId))
            else if key == PROTOCOL_VERSION then Some(Int(raw.version))
            else None
  {
    var a, b, c := Field(PROTOCOL_VERSION, Int(raw.version)), Field(EVENT_ID, Str(raw.eventId)), Field(KIND, Str(raw.kind));
    var d, e := Field(SOURCE_PEER_ID, Str(raw.source)), Field(DESTINATION_PEER_ID, Str(raw.destination));
    var f, g := Field(SENT_AT_MS, Int(raw.sentAt)), Field(PAYLOAD, raw.payload);
    ObjectOfLooksUp([a, b, c, d, e, f, g], key);
    LastOfSeven(a, b, c, d, e, f, g, key);
    LastOfFour(a, b, c, d, key);
  }

  lemma BodyDeserializes(raw: Raw)
    requires IsI16(raw.version) && IsI64(raw.sentAt) && Canonical(raw.payload)
    ensures Deserialize(Body(raw)) == Some(raw)
  {
    EnvelopeKeysDiffer();
    BodyField(raw, PROTOCOL_VERSION);
    BodyField(raw, EVENT_ID);
    BodyField(raw, KIND);
    BodyField(raw, SOURCE_PEER_ID);
    BodyField(raw, DESTINATION_PEER_ID);
    BodyField(raw, SENT_AT_MS);
    BodyField(raw, PAYLOAD);
    CanonicalIsFixed(raw.payload);
  }

  lemma BodyIsReadable(raw: Raw)
    requires IsI16(raw.version) && IsI64(raw.sentAt)
    requires Canonical(raw.payload) && Printable(raw.payload, MAX_DEPTH - 1)
    ensures Canonical(Body(raw)) && Printable(Body(raw), MAX_DEPTH)
  {
    var pairs := [
      Field(PROTOCOL_VERSION, Int(raw.version)), Field(EVENT_ID, Str(raw.eventId)), Field(KIND, Str(raw.kind)),
      Field(SOURCE_PEER_ID, Str(raw.source)), Field(DESTINATION_PEER_ID, Str(raw.destination)),
      Field(SENT_AT_MS, Int(raw.sentAt)), Field(PAYLOAD, raw.payload)];
    InsertAllIsSorted(pairs);
    forall i | 0 <= i < |InsertAll(pairs)|
      ensures Canonical(InsertAll(pairs)[i].value) && Printable(InsertAll(pairs)[i].value, MAX_DEPTH - 1)
    {
      assert InsertAll(pairs)[i] in pairs;
    }
  }

  /** Reading the text of a printed envelope is validating the envelope itself. */
  lemma EnvelopeTextRoundTrip(x: Externals, raw: Raw)
    requires IsI16(raw.version) && IsI64(raw.sentAt)
    requires Canonical(raw.payload) && Printable(raw.payload, MAX_DEPTH - 1)
    ensures FromJson(x, Print(Body(raw))) == Validate(x, raw)
  {
    BodyIsReadable(raw);
    TextRoundTrip(Body(raw));
    BodyDeserializes(raw);
  }
}
