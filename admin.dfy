/** The admin check behind `/setthreshold` and the message gate. */
module Admin {
  import opened Wrappers
  import opened Tables

  /** What the platform's administrator lookup for the chat gave back. */
  datatype AdminLookup = Admins(ids: seq<UserId>) | LookupFailed

  /** Whether any admin in the list has the sender's id, scanning the list in order. */
  function AnyHasId(ids: seq<UserId>, u: UserId): (r: bool)
    ensures r <==> u in ids
  {
    if |ids| == 0 then false else ids[0] == u || AnyHasId(ids[1..], u)
  }

  /**
   * The sender is an admin: false when the update has no chat or the lookup
   * failed, otherwise whether the sender's id is among the chat's admins.
   */
  function IsAdmin(chat: Option<GroupId>, sender: UserId, lookup: AdminLookup): (r: bool)
    ensures r ==> chat.Some? && lookup.Admins?
    ensures chat.Some? && lookup.Admins? ==> (r <==> sender in lookup.ids)
  {
    if chat.None? then false
    else match lookup
      case LookupFailed => false
      case Admins(ids) => AnyHasId(ids, sender)
  }
}
