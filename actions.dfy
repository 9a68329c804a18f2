/**
 * What a handler asks the chat platform to do. The handlers return these
 * instead of calling the platform; message text becomes a tag with its numbers.
 */
module Actions {
  import opened Tables

  /** The replies of the `/setthreshold` command. */
  datatype ReplyKind =
    | OnlyAdmins                    // caller is not an admin of the chat
    | Usage                         // argument missing or not all digits
    | AtLeastOne                    // argument below 1
    | ThresholdSet(threshold: int)  // threshold stored

  datatype Action =
    | Restrict(member: UserId)                                // revoke a new member's messaging rights
    | Grant(inviter: UserId)                                  // restore messaging rights and announce it
    | Notify(inviter: UserId, count: int, threshold: int)     // announce progress in the group
    | DeleteMessage                                           // delete the message being handled
    | DirectNotice(user: UserId, threshold: int, count: int)  // private message to a gated member
    | Reply(kind: ReplyKind)                                  // reply to the command
}
