/** The forty event kinds, their wire names, and the gate that admits seven of them. */
module EventKind {
  import opened Basics

  datatype EventKind =
    | InvitePreview | PrincipalUpsert
    | MembershipJoin | MembershipLeave | MembershipRemove | MembershipBan | MembershipUnban
    | RoleCreate | RoleUpdate | RoleDelete | RoleReorder
    | CategoryCreate | CategoryUpdate | CategoryDelete
    | ChannelCreate | ChannelUpdate | ChannelDelete | ChannelReorder
    | ChannelOverrideSet | ChannelOverrideDelete
    | MemberRoleAssign | MemberRoleRemove
    | EmojiRename | EmojiDelete
    | MessageCreate | MessageUpdate | MessageDelete | MessagePin | MessageUnpin
    | ReactionAdd | ReactionRemove
    | RelationshipRequest | RelationshipAccept | RelationshipRemove | RelationshipBlock
    | PresenceUpdate | TypingStart | ReadStateUpdate
    | DmCreate | DmGroupCreate

  function AsStr(kind: EventKind): string {
    match kind
    case InvitePreview => "invite_preview"
    case PrincipalUpsert => "principal_upsert"
    case MembershipJoin => "membership_join"
    case MembershipLeave => "membership_leave"
    case MembershipRemove => "membership_remove"
    case MembershipBan => "membership_ban"
    case MembershipUnban => "membership_unban"
    case RoleCreate => "role_create"
    case RoleUpdate => "role_update"
    case RoleDelete => "role_delete"
    case RoleReorder => "role_reorder"
    case CategoryCreate => "category_create"
    case CategoryUpdate => "category_update"
    case CategoryDelete => "category_delete"
    case ChannelCreate => "channel_create"
    case ChannelUpdate => "channel_update"
    case ChannelDelete => "channel_delete"
    case ChannelReorder => "channel_reorder"
    case ChannelOverrideSet => "channel_override_set"
    case ChannelOverrideDelete => "channel_override_delete"
    case MemberRoleAssign => "member_role_assign"
    case MemberRoleRemove => "member_role_remove"
    case EmojiRename => "emoji_rename"
    case EmojiDelete => "emoji_delete"
    case MessageCreate => "message_create"
    case MessageUpdate => "message_update"
    case MessageDelete => "message_delete"
    case MessagePin => "message_pin"
    case MessageUnpin => "message_unpin"
    case ReactionAdd => "reaction_add"
    case ReactionRemove => "reaction_remove"
    case RelationshipRequest => "relationship_request"
    case RelationshipAccept => "relationship_accept"
    case RelationshipRemove => "relationship_remove"
    case RelationshipBlock => "relationship_block"
    case PresenceUpdate => "presence_update"
    case TypingStart => "typing_start"
    case ReadStateUpdate => "read_state_update"
    case DmCreate => "dm_create"
    case DmGroupCreate => "dm_group_create"
  }

  function ParseHandshake(s: string): (r: Option<EventKind>)
    ensures r.Some? ==> AsStr(r.value) == s
  {
    match s
    case "invite_preview" => Some(InvitePreview)
    case "principal_upsert" => Some(PrincipalUpsert)
    case "membership_join" => Some(MembershipJoin)
    case "membership_leave" => Some(MembershipLeave)
    case "membership_remove" => Some(MembershipRemove)
    case "membership_ban" => Some(MembershipBan)
    case "membership_unban" => Some(MembershipUnban)
    case _ => None
  }

  function ParseRole(s: string): (r: Option<EventKind>)
    ensures r.Some? ==> AsStr(r.value) == s
  {
    match s
    case "role_create" => Some(RoleCreate)
    case "role_update" => Some(RoleUpdate)
    case "role_delete" => Some(RoleDelete)
    case "role_reorder" => Some(RoleReorder)
    case _ => None
  }

  function ParseCategory(s: string): (r: Option<EventKind>)
    ensures r.Some? ==> AsStr(r.value) == s
  {
    match s
    case "category_create" => Some(CategoryCreate)
    case "category_update" => Some(CategoryUpdate)
    case "category_delete" => Some(CategoryDelete)
    case _ => None
  }

  function ParseChannel(s: string): (r: Option<EventKind>)
    ensures r.Some? ==> AsStr(r.value) == s
  {
    match s
    case "channel_create" => Some(ChannelCreate)
    case "channel_update" => Some(ChannelUpdate)
    case "channel_delete" => Some(ChannelDelete)
    case "channel_reorder" => Some(ChannelReorder)
    case "channel_override_set" => Some(ChannelOverrideSet)
    case "channel_override_delete" => Some(ChannelOverrideDelete)
    case _ => None
  }

  function ParseMember(s: string): (r: Option<EventKind>)
    ensures r.Some? ==> AsStr(r.value) == s
  {
    match s
    case "member_role_assign" => Some(MemberRoleAssign)
    case "member_role_remove" => Some(MemberRoleRemove)
    case "emoji_rename" => Some(EmojiRename)
    case "emoji_delete" => Some(EmojiDelete)
    case _ => None
  }

  function ParseMessage(s: string): (r: Option<EventKind>)
    ensures r.Some? ==> AsStr(r.value) == s
  {
    match s
    case "message_create" => Some(MessageCreate)
    case "message_update" => Some(MessageUpdate)
    case "message_delete" => Some(MessageDelete)
    case "message_pin" => Some(MessagePin)
    case "message_unpin" => Some(MessageUnpin)
    case _ => None
  }

  function ParseReaction(s: string): (r: Option<EventKind>)
    ensures r.Some? ==> AsStr(r.value) == s
  {
    match s
    case "reaction_add" => Some(ReactionAdd)
    case "reaction_remove" => Some(ReactionRemove)
    case _ => None
  }

  function ParseRelationship(s: string): (r: Option<EventKind>)
    ensures r.Some? ==> AsStr(r.value) == s
  {
    match s
    case "relationship_request" => Some(RelationshipRequest)
    case "relationship_accept" => Some(RelationshipAccept)
    case "relationship_remove" => Some(RelationshipRemove)
    case "relationship_block" => Some(RelationshipBlock)
    case _ => None
  }

  function ParseSignal(s: string): (r: Option<EventKind>)
    ensures r.Some? ==> AsStr(r.value) == s
  {
    match s
    case "presence_update" => Some(PresenceUpdate)
    case "typing_start" => Some(TypingStart)
    case "read_state_update" => Some(ReadStateUpdate)
    case _ => None
  }

  function ParseDm(s: string): (r: Option<EventKind>)
    ensures r.Some? ==> AsStr(r.value) == s
  {
    match s
    case "dm_create" => Some(DmCreate)
    case "dm_group_create" => Some(DmGroupCreate)
    case _ => None
  }

  function OrElse(a: Option<EventKind>, b: Option<EventKind>): Option<EventKind> { if a.Some? then a else b }

  /** One arm per wire name, in ten groups. */
  function ParseKind(s: string): Option<EventKind> {
    OrElse(ParseHandshake(s),
    OrElse(ParseRole(s),
    OrElse(ParseCategory(s),
    OrElse(ParseChannel(s),
    OrElse(ParseMember(s),
    OrElse(ParseMessage(s),
    OrElse(ParseReaction(s),
    OrElse(ParseRelationship(s),
    OrElse(ParseSignal(s),
    ParseDm(s))))))))))
  }

  /** Every accepted name is the name of the kind it is read as. */
  lemma NameReadsBack(s: string)
    ensures ParseKind(s).Some? ==> AsStr(ParseKind(s).value) == s
  {
  }

  // The only kind with a name of this length, first character and fourth character from
  // the end.
  function OfShape(n: nat, first: char, fourth: char): Option<EventKind> {
    match n
    case 9 => if first == 'd' && fourth == 'e' then Some(DmCreate) else None
    case 11 =>
      if first == 'r' && fourth == 'e' then Some(RoleCreate)
      else if first == 'r' && fourth == 'd' then Some(RoleUpdate)
      else if first == 'r' && fourth == 'l' then Some(RoleDelete)
      else if first == 'm' && fourth == '_' then Some(MessagePin)
      else None
    case 12 =>
      if first == 'r' && fourth == 'r' then Some(RoleReorder)
      else if first == 'e' && fourth == 'n' then Some(EmojiRename)
      else if first == 'e' && fourth == 'l' then Some(EmojiDelete)
      else if first == 'r' && fourth == '_' then Some(ReactionAdd)
      else if first == 't' && fourth == 't' then Some(TypingStart)
      else None
    case 13 => if first == 'm' && fourth == 'n' then Some(MessageUnpin) else None
    case 14 =>
      if first == 'i' && fourth == 'v' then Some(InvitePreview)
      else if first == 'm' && fourth == '_' then Some(MembershipBan)
      else if first == 'c' && fourth == 'e' then Some(ChannelCreate)
      else if first == 'c' && fourth == 'd' then Some(ChannelUpdate)
      else if first == 'c' && fourth == 'l' then Some(ChannelDelete)
      else if first == 'm' && fourth == 'e' then Some(MessageCreate)
      else if first == 'm' && fourth == 'd' then Some(MessageUpdate)
      else if first == 'm' && fourth == 'l' then Some(MessageDelete)
      else None
    case 15 =>
      if first == 'm' && fourth == 'j' then Some(MembershipJoin)
      else if first == 'c' && fourth == 'e' then Some(CategoryCreate)
      else if first == 'c' && fourth == 'd' then Some(CategoryUpdate)
      else if first == 'c' && fourth == 'l' then Some(CategoryDelete)
      else if first == 'c' && fourth == 'r' then Some(ChannelReorder)
      else if first == 'r' && fourth == 'm' then Some(ReactionRemove)
      else if first == 'p' && fourth == 'd' then Some(PresenceUpdate)
      else if first == 'd' && fourth == 'e' then Some(DmGroupCreate)
      else None
    case 16 =>
      if first == 'p' && fourth == 's' then Some(PrincipalUpsert)
      else if first == 'm' && fourth == 'e' then Some(MembershipLeave)
      else if first == 'm' && fourth == 'n' then Some(MembershipUnban)
      else None
    case 17 =>
      if first == 'm' && fourth == 'm' then Some(MembershipRemove)
      else if first == 'r' && fourth == 'd' then Some(ReadStateUpdate)
      else None
    case 18 =>
      if first == 'm' && fourth == 's' then Some(MemberRoleAssign)
      else if first == 'm' && fourth == 'm' then Some(MemberRoleRemove)
      else if first == 'r' && fourth == 'l' then Some(RelationshipBlock)
      else None
    case 19 =>
      if first == 'r' && fourth == 'c' then Some(RelationshipAccept)
      else if first == 'r' && fourth == 'm' then Some(RelationshipRemove)
      else None
    case 20 =>
      if first == 'c' && fourth == '_' then Some(ChannelOverrideSet)
      else if first == 'r' && fourth == 'u' then Some(RelationshipRequest)
      else None
    case 23 => if first == 'c' && fourth == 'l' then Some(ChannelOverrideDelete) else None
    case _ => None
  }

  function KindOfShape(s: string): Option<EventKind> { if |s| < 4 then None else OfShape(|s|, s[0], s[|s| - 4]) }

  predicate HasOwnShape(kind: EventKind) { KindOfShape(AsStr(kind)) == Some(kind) }

  predicate Early(kind: EventKind) {
    match kind
    case InvitePreview | PrincipalUpsert | MembershipJoin | MembershipLeave | MembershipRemove |
         MembershipBan | MembershipUnban | RoleCreate | RoleUpdate | RoleDelete | RoleReorder |
         CategoryCreate | CategoryUpdate | CategoryDelete | ChannelCreate | ChannelUpdate | ChannelDelete |
         ChannelReorder | ChannelOverrideSet | ChannelOverrideDelete =>
      true
    case _ => false
  }

  lemma EarlyNames(kind: EventKind)
    requires Early(kind)
    ensures HasOwnShape(kind)
  {
    match kind
    case InvitePreview | PrincipalUpsert | MembershipJoin | MembershipLeave | MembershipRemove |
         MembershipBan | MembershipUnban | RoleCreate | RoleUpdate | RoleDelete | RoleReorder |
         CategoryCreate | CategoryUpdate | CategoryDelete | ChannelCreate | ChannelUpdate | ChannelDelete |
         ChannelReorder | ChannelOverrideSet | ChannelOverrideDelete =>
    case _ =>
  }

  lemma LateNames(kind: EventKind)
    requires !Early(kind)
    ensures HasOwnShape(kind)
  {
    match kind
    case MemberRoleAssign | MemberRoleRemove | EmojiRename | EmojiDelete | MessageCreate | MessageUpdate |
         MessageDelete | MessagePin | MessageUnpin | ReactionAdd | ReactionRemove | RelationshipRequest |
         RelationshipAccept | RelationshipRemove | RelationshipBlock | PresenceUpdate | TypingStart |
         ReadStateUpdate | DmCreate | DmGroupCreate =>
    case _ =>
  }

  lemma NamesDiffer(a: EventKind, b: EventKind)
    requires AsStr(a) == AsStr(b)
    ensures a == b
  {
    ShapeOfName(a);
    ShapeOfName(b);
  }

  lemma ShapeOfName(kind: EventKind)
    ensures HasOwnShape(kind)
  {
    if Early(kind) {
      EarlyNames(kind);
    } else {
      LateNames(kind);
    }
  }

  lemma HandshakeParses(kind: EventKind)
    requires kind.InvitePreview? || kind.PrincipalUpsert? || kind.MembershipJoin? || kind.MembershipLeave?
             || kind.MembershipRemove? || kind.MembershipBan? || kind.MembershipUnban?
    ensures ParseKind(AsStr(kind)).Some?
  {
    assert ParseHandshake(AsStr(kind)).Some?;
  }

  lemma ServerParses(kind: EventKind)
    requires kind.RoleCreate? || kind.RoleUpdate? || kind.RoleDelete? || kind.RoleReorder?
             || kind.CategoryCreate? || kind.CategoryUpdate? || kind.CategoryDelete? || kind.ChannelCreate?
             || kind.ChannelUpdate? || kind.ChannelDelete? || kind.ChannelReorder? || kind.ChannelOverrideSet?
             || kind.ChannelOverrideDelete?
    ensures ParseKind(AsStr(kind)).Some?
  {
    match kind
    case RoleCreate | RoleUpdate | RoleDelete | RoleReorder =>
      assert ParseRole(AsStr(kind)).Some?;
    case CategoryCreate | CategoryUpdate | CategoryDelete =>
      assert ParseCategory(AsStr(kind)).Some?;
    case ChannelCreate | ChannelUpdate | ChannelDelete | ChannelReorder | ChannelOverrideSet |
         ChannelOverrideDelete =>
      assert ParseChannel(AsStr(kind)).Some?;
    case _ =>
  }

  lemma ContentParses(kind: EventKind)
    requires kind.MemberRoleAssign? || kind.MemberRoleRemove? || kind.EmojiRename? || kind.EmojiDelete?
             || kind.MessageCreate? || kind.MessageUpdate? || kind.MessageDelete? || kind.MessagePin?
             || kind.MessageUnpin? || kind.ReactionAdd? || kind.ReactionRemove?
    ensures ParseKind(AsStr(kind)).Some?
  {
    match kind
    case MemberRoleAssign | MemberRoleRemove | EmojiRename | EmojiDelete =>
      assert ParseMember(AsStr(kind)).Some?;
    case MessageCreate | MessageUpdate | MessageDelete | MessagePin | MessageUnpin =>
      assert ParseMessage(AsStr(kind)).Some?;
    case ReactionAdd | ReactionRemove =>
      assert ParseReaction(AsStr(kind)).Some?;
    case _ =>
  }

  lemma SocialParses(kind: EventKind)
    requires kind.RelationshipRequest? || kind.RelationshipAccept? || kind.RelationshipRemove?
             || kind.RelationshipBlock? || kind.PresenceUpdate? || kind.TypingStart? || kind.ReadStateUpdate?
             || kind.DmCreate? || kind.DmGroupCreate?
    ensures ParseKind(AsStr(kind)).Some?
  {
    match kind
    case RelationshipRequest | RelationshipAccept | RelationshipRemove | RelationshipBlock =>
      assert ParseRelationship(AsStr(kind)).Some?;
    case PresenceUpdate | TypingStart | ReadStateUpdate =>
      assert ParseSignal(AsStr(kind)).Some?;
    case DmCreate | DmGroupCreate =>
      assert ParseDm(AsStr(kind)).Some?;
    case _ =>
  }

  lemma SomeGroupParses(kind: EventKind)
    ensures ParseKind(AsStr(kind)).Some?
  {
    match kind
    case InvitePreview | PrincipalUpsert | MembershipJoin | MembershipLeave | MembershipRemove |
         MembershipBan | MembershipUnban => HandshakeParses(kind);
    case RoleCreate | RoleUpdate | RoleDelete | RoleReorder | CategoryCreate | CategoryUpdate |
         CategoryDelete | ChannelCreate | ChannelUpdate | ChannelDelete | ChannelReorder |
         ChannelOverrideSet | ChannelOverrideDelete => ServerParses(kind);
    case MemberRoleAssign | MemberRoleRemove | EmojiRename | EmojiDelete | MessageCreate | MessageUpdate |
         MessageDelete | MessagePin | MessageUnpin | ReactionAdd | ReactionRemove => ContentParses(kind);
    case RelationshipRequest | RelationshipAccept | RelationshipRemove | RelationshipBlock |
         PresenceUpdate | TypingStart | ReadStateUpdate | DmCreate | DmGroupCreate => SocialParses(kind);
  }

  /** Every kind is read back from its name. */
  lemma KindReadsBack(kind: EventKind)
    ensures ParseKind(AsStr(kind)) == Some(kind)
  {
    SomeGroupParses(kind);
    NameReadsBack(AsStr(kind));
    NamesDiffer(kind, ParseKind(AsStr(kind)).value);
  }

  // ----- The propagation gate -----------------------------------------------------------

  datatype PropagationScope = MetadataHandshake | MembershipHandshake | RuntimePersistence | EphemeralSignal

  function Scope(kind: EventKind): PropagationScope {
    match kind
    case InvitePreview => MetadataHandshake
    case PrincipalUpsert => MetadataHandshake
    case MembershipJoin => MembershipHandshake
    case MembershipLeave => MembershipHandshake
    case MembershipRemove => MembershipHandshake
    case MembershipBan => MembershipHandshake
    case MembershipUnban => MembershipHandshake
    case PresenceUpdate => EphemeralSignal
    case TypingStart => EphemeralSignal
    case _ => RuntimePersistence
  }

  predicate PropagationAllowed(kind: EventKind) {
    match Scope(kind)
    case MetadataHandshake => true
    case MembershipHandshake => true
    case RuntimePersistence => false
    case EphemeralSignal => false
  }
}
