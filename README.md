# Invite-threshold gate of the Telegram group bot

The bot in `tele/test_bot.py` keeps newly added group members silent until
they have brought in enough members themselves. It keeps two tables:

- the threshold table (`groups`): for each group, how many invites a member
  needs. A group without a row is gated at 5. Admins change it with
  `/setthreshold <n>`, and the command only accepts `n >= 1`.
- the invite counters (`invites`): for each (group, user) pair, how many new
  members that user has added. A missing row reads as 0, and each qualifying
  new member adds 1.

Three handlers sit on these tables:

- **New members.** The threshold is read once for the whole batch. Each new
  member other than the bot is restricted. When the message has a sender
  other than that member, the sender is credited one invite. The sender then
  gets a grant if the new count reaches the threshold, and a progress notice
  with the count otherwise.
- **Group messages.** A text message (not a command) from someone who is
  neither an admin nor the bot is deleted when that user's count is below the group's threshold. The
  user is then sent a private notice with the threshold and their count.
- **`/setthreshold`.** The handler replies and changes nothing unless the
  caller is an admin and the first argument is a digit string worth at least 1.

The model follows the code:

- `Tables` holds the table semantics as functions on maps.
- `Admin` holds the admin check.
- `ThresholdCommand` holds the argument checks of `/setthreshold`.
- `MemberBatch` is a function that gives the counter table and the actions
  produced by a batch of new members, with lemmas about it.
- `Bot.InviteGate` is a class that holds the two tables as `map` fields. Its
  methods update those tables in place, and its handlers return the platform
  calls as a list of `Action` values.

`HandleNewMember` loops over the batch like the source does, and its
postcondition equates the new table and the returned actions with
`MemberBatch.Batch` of the old table.

Invites are not deduplicated: a member who is added twice, or who appears
twice in one batch, is credited twice (tele/test_bot.py:166-179).
`Qualifying` counts positions in the batch, not distinct users.

## Model

| member | source | states |
|---|---|---|
| Tables.StoreThenRead | tele/test_bot.py:51-59 | after storing `t` for a group, that group reads `t` and every other group reads as before |
| Tables.StoreOverwrites | tele/test_bot.py:54-56 | `INSERT OR REPLACE`: a second store for the same group replaces the first |
| Tables.AddThenRead | tele/test_bot.py:62-71 | an increment makes the pair's count its old value (0 if absent) plus the increment; every other pair reads as before |
| Tables.ReadsInRange | tele/test_bot.py:74-83 | on valid tables a threshold read is at least 1, a count read at least 0, and a count is 0 exactly when its row is absent |
| Tables.StoreKeepsValid | tele/test_bot.py:105-111 | storing keeps every stored threshold at least 1 if and only if the stored value is at least 1 |
| Tables.AddKeepsValid | tele/test_bot.py:62-71 | a positive increment keeps every counter row at least 1 and strictly raises the incremented count |
| Admin.AnyHasId | tele/test_bot.py:91 | the scan over the admin list is true if and only if the sender's id is in the list |
| Admin.IsAdmin | tele/test_bot.py:86-93 | false without a chat or when the lookup fails; otherwise true if and only if the sender is among the chat's admins |
| ThresholdCommand.DecimalRoundTrip | tele/test_bot.py:105 | reading the decimal numeral of `n` back gives `n` |
| ThresholdCommand.ZeroIffAllZeros | tele/test_bot.py:101-108 | a digit string is worth 0 if and only if all its digits are '0' |
| ThresholdCommand.Decide | tele/test_bot.py:96-108 | non-admins get the admins-only reply whatever the argument; a missing or non-digit argument gets the usage reply; an all-zeros argument gets the at-least-1 reply; otherwise the argument is accepted as exactly its decimal value, which is at least 1 |
| ThresholdCommand.NumeralAccepted | tele/test_bot.py:101-112 | an admin passing the numeral of `n >= 1` sets exactly `n`; passing "0" is refused |
| MemberBatch.MemberStep | tele/test_bot.py:166-190 | one iteration keeps the actions so far and appends at most two; it changes nothing exactly when the member is the bot |
| MemberBatch.Batch | tele/test_bot.py:164-190 | the loop keeps the actions it started from and appends at most two per member |
| MemberBatch.BatchCounts | tele/test_bot.py:166-179 | with no sender no counter changes; otherwise only the sender's counter in this group changes, and it rises by the number of qualifying members |
| MemberBatch.SenderCount | tele/test_bot.py:175-180 | the sender's count after the batch is its count before plus the number of qualifying members |
| MemberBatch.BatchNeverDecreases | tele/test_bot.py:179 | no counter of any group or user decreases |
| MemberBatch.BatchKeepsValid | tele/test_bot.py:179 | every stored counter stays at least 1 |
| MemberBatch.StepRestricts | tele/test_bot.py:166-172 | one iteration restricts the member unless it is the bot |
| MemberBatch.BatchRestricts | tele/test_bot.py:166-172 | the restricted users are exactly the new members other than the bot, once each, in arrival order |
| MemberBatch.StepVerdicts | tele/test_bot.py:175-190 | one iteration announces a verdict only for a credited member, judged on the sender's count plus one |
| MemberBatch.BatchVerdictsNoSender | tele/test_bot.py:175-177 | without a sender the batch grants nothing and sends no progress notice |
| MemberBatch.BatchVerdicts | tele/test_bot.py:164-190 | with a sender, the grants and notices are one per qualifying member, in order, each judged on the count just after that credit against the threshold read before the loop |
| MemberBatch.LadderAt | tele/test_bot.py:180-190 | the i-th verdict is a grant when the count after the (i+1)-th credit reaches the threshold, and otherwise a notice carrying that count |
| MemberBatch.LadderGrant | tele/test_bot.py:182-190 | a grant appears if and only if there was at least one credit and the final count reaches the threshold; every verdict names the inviter; every notice carries a count below the threshold and the batch's threshold |
| MemberBatch.GrantMeetsThreshold | tele/test_bot.py:175-184 | a granted user is the message's sender, and that user's count after the batch is at least the threshold |
| Bot.InviteGate.constructor | tele/test_bot.py:21-39 | a fresh database has both tables empty, and they are valid |
| Bot.InviteGate.GetThreshold | tele/test_bot.py:42-48 | returns the group's row, or 5 when absent; at least 1 on valid tables |
| Bot.InviteGate.SetThreshold | tele/test_bot.py:51-59 | stores the threshold for the group, leaving every other row and the counters unchanged; nothing is stored for a value outside SQLite's 64-bit integer range |
| Bot.InviteGate.UpdateInviteCount | tele/test_bot.py:62-71 | the pair's counter becomes its old value (0 if absent) plus the increment; nothing else changes |
| Bot.InviteGate.GetInviteCount | tele/test_bot.py:74-83 | returns the pair's row, or 0 when absent; never negative on valid tables |
| Bot.InviteGate.SetThresholdCommand | tele/test_bot.py:96-112 | a rejected command only replies; an accepted one stores exactly the accepted value for the chat and confirms it; an edited command sends no reply at all but still stores an accepted value; counters never change and the tables stay valid |
| Bot.InviteGate.HandleNewMember | tele/test_bot.py:159-190 | thresholds unchanged, tables stay valid, and the new counters and the returned actions are those of `MemberBatch.Batch` with the threshold read before the loop |
| Bot.InviteGate.HandleGroupMessage | tele/test_bot.py:193-217 | no action without a chat or a user, or for an edited message; otherwise delete the message and send a notice with the threshold and count if and only if the user is neither an admin nor the bot and their count is below the threshold; on valid tables, a user who has never invited anyone is always gated; neither table changes |

## Left out

- Platform calls are returned as `Action` values and are not performed. These
  calls are restricting, granting, sending messages, deleting messages and
  looking up administrators.
- Platform errors are not modelled. A failed restriction or grant is logged
  and skipped.
- A failed progress notice in the new-member handler is outside any error
  handling. It aborts the rest of the batch. The model assumes every action is
  delivered.
- In the message handler, the deletion and the private notice share one error
  handler. If the deletion fails, no notice is sent. The model does not
  capture this.
- The SQLite connection, the schema creation and the commits are replaced by
  the two maps. The database persisting across restarts is not modelled;
  the constructor starts from empty tables.
- A counter that goes past the 64-bit range is not modelled. SQLite would
  switch it to floating point.
- Handlers run one after another, which is the library's default for the
  application built at tele/test_bot.py:227. If concurrent update processing
  were turned on, handlers could interleave at each `await`; that is not
  modelled.
- Only text messages that are not commands reach the message handler
  (tele/test_bot.py:232); photos, stickers, captioned media and commands are
  never gated, and the model has no input for them.
- Handler registration, `main`, `error_handler`, logging setup and polling
  are not modelled.
- Reply and notice texts, and usernames used only in those texts, are not
  modelled. Each message is a tagged action carrying its numbers.
- `ThresholdCommand.Decide`: `str.isdigit` is modelled on ASCII digits only.
  Python also accepts other Unicode digits. `int` reads some of those (for
  example Arabic-Indic digits) and raises an error on others (for example
  superscript digits).
- An update without a message is modelled as an empty batch of new members.
  The model assumes a command always has a sender.
- `TCP/Server.py` and `TCP/Client.py` are a socket echo demo with no state or
  logic. They are not part of this model.
