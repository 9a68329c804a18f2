/**
 * The invite gate as the bot runs it: two tables updated in place and the
 * three handlers. Platform calls come back as the actions a handler returns;
 * the chat's administrator lookup is an argument.
 */
module Bot {
  import opened Wrappers
  import opened Tables
  import opened Actions
  import opened Admin
  import opened ThresholdCommand
  import opened MemberBatch

  class InviteGate {
    /** The `groups` table. */
    var thresholds: Thresholds
    /** The `invites` table. */
    var counts: Counts

    /** Every stored threshold is at least 1 and every stored counter at least 1. */
    ghost predicate Valid()
      reads this
    {
      ThresholdsValid(thresholds) && CountsValid(counts)
    }

    /** A fresh database: both tables exist and are empty. */
    constructor ()
      ensures Valid() && thresholds == map[] && counts == map[]
    {
      thresholds := map[];
      counts := map[];
    }

    /** Reads a group's threshold: its row, else 5; at least 1 on a valid table. */
    method GetThreshold(g: GroupId) returns (t: int)
      ensures t == ThresholdIn(thresholds, g)
      ensures Valid() ==> t >= 1
    {
      if g in thresholds {
        t := thresholds[g];
      } else {
        t := DefaultThreshold;
      }
    }

    /**
     * Inserts or replaces a group's threshold row. A value outside SQLite's
     * signed 64-bit range cannot be bound: nothing is stored.
     */
    method SetThreshold(g: GroupId, t: int) returns (stored: bool)
      modifies this
      ensures stored <==> InSqliteRange(t)
      ensures thresholds == if stored then StoreThreshold(old(thresholds), g, t) else old(thresholds)
      ensures counts == old(counts)
    {
      stored := InSqliteRange(t);
      if stored {
        thresholds := thresholds[g := t];
      }
    }

    /** Read-modify-write of one counter: its old value, or 0 when absent, plus `increment`. */
    method UpdateInviteCount(g: GroupId, u: UserId, increment: int)
      modifies this
      ensures counts == AddInvites(old(counts), g, u, increment)
      ensures thresholds == old(thresholds)
    {
      var current := if (g, u) in counts then counts[(g, u)] else 0;
      counts := counts[(g, u) := current + increment];
    }

    /** Reads a counter: its row, else 0; never negative on a valid table. */
    method GetInviteCount(g: GroupId, u: UserId) returns (n: int)
      ensures n == CountIn(counts, g, u)
      ensures Valid() ==> n >= 0
    {
      if (g, u) in counts {
        n := counts[(g, u)];
      } else {
        n := 0;
      }
    }

    /**
     * `/setthreshold <n>`: replies and changes nothing unless an admin passes a
     * digit string worth at least 1; then the chat's threshold becomes exactly
     * that number and the reply confirms it. For an edited command the update
     * carries no `message`, so every reply fails: nothing is sent, but an
     * accepted value has already been stored.
     */
    method SetThresholdCommand(chat: Option<GroupId>, sender: UserId, lookup: AdminLookup, args: seq<string>, edited: bool)
      returns (actions: seq<Action>)
      requires Valid()
      modifies this
      ensures Valid() && counts == old(counts)
      ensures edited ==> actions == []
      ensures match Decide(IsAdmin(chat, sender, lookup), args)
        case Rejected(k) => thresholds == old(thresholds) && (!edited ==> actions == [Reply(k)])
        case Accepted(t) =>
          && chat.Some?
          && (InSqliteRange(t) ==> thresholds == StoreThreshold(old(thresholds), chat.value, t) && (!edited ==> actions == [Reply(ThresholdSet(t))]))
          && (!InSqliteRange(t) ==> thresholds == old(thresholds) && actions == [])
    {
      var admin := IsAdmin(chat, sender, lookup);
      match Decide(admin, args)
      case Rejected(k) =>
        actions := if edited then [] else [Reply(k)];
      case Accepted(t) =>
        var stored := SetThreshold(chat.value, t);
        StoreKeepsValid(old(thresholds), chat.value, t);
        actions := if stored && !edited then [Reply(ThresholdSet(t))] else [];
    }

    /**
     * A batch of new members: the threshold is read once; then, member by
     * member, the bot is skipped, everyone else restricted, and the sender
     * (when present and not the member) credited and answered with a grant or
     * a progress notice. The result is the batch function of the old table.
     */
    method HandleNewMember(g: GroupId, members: seq<UserId>, sender: Option<UserId>, bot: UserId)
      returns (actions: seq<Action>)
      requires Valid()
      modifies this
      ensures Valid() && thresholds == old(thresholds)
      ensures BatchState(counts, actions) == Batch(BatchState(old(counts), []), g, ThresholdIn(old(thresholds), g), sender, bot, members)
    {
      actions := [];
      if |members| == 0 {
        return;
      }
      var threshold := GetThreshold(g);
      for i := 0 to |members|
        invariant Valid() && thresholds == old(thresholds)
        invariant BatchState(counts, actions) == Batch(BatchState(old(counts), []), g, threshold, sender, bot, members[..i])
      {
        assert members[..i + 1][..i] == members[..i];
        var member := members[i];
        if member != bot {
          actions := actions + [Restrict(member)];
          if sender.Some? {
            var inviter := sender.value;
            if inviter != member {
              AddKeepsValid(counts, g, inviter, 1);
              UpdateInviteCount(g, inviter, 1);
              var n := GetInviteCount(g, inviter);
              if n >= threshold {
                actions := actions + [Grant(inviter)];
              } else {
                actions := actions + [Notify(inviter, n, threshold)];
              }
            }
          }
        }
      }
      assert members[..|members|] == members;
    }

    /**
     * A group text message: with a chat and a sender that is neither an admin
     * nor the bot, the message is deleted and the sender told the threshold and
     * their count exactly when the count is below the threshold. For an edited
     * message the update carries no `message`, so the deletion fails before
     * anything is sent. Neither table changes.
     */
    method HandleGroupMessage(chat: Option<GroupId>, user: Option<UserId>, lookup: AdminLookup, bot: UserId, edited: bool)
      returns (actions: seq<Action>)
      ensures chat.None? || user.None? || edited ==> actions == []
      ensures chat.Some? && user.Some? ==>
        (actions != [] <==>
          !edited && !IsAdmin(chat, user.value, lookup) && user.value != bot &&
          CountIn(counts, chat.value, user.value) < ThresholdIn(thresholds, chat.value))
      ensures actions != [] ==>
        actions == [DeleteMessage, DirectNotice(user.value, ThresholdIn(thresholds, chat.value), CountIn(counts, chat.value, user.value))]
      ensures (Valid() && chat.Some? && user.Some? && (chat.value, user.value) !in counts &&
               !edited && !IsAdmin(chat, user.value, lookup) && user.value != bot) ==> actions != []
    {
      actions := [];
      if chat.None? || user.None? {
        return;
      }
      var g, u := chat.value, user.value;
      if IsAdmin(chat, u, lookup) || u == bot {
        return;
      }
      var n := GetInviteCount(g, u);
      var t := GetThreshold(g);
      if n < t && !edited {
        actions := [DeleteMessage, DirectNotice(u, t, n)];
      }
    }
  }
}
