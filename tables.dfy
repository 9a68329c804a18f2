/**
 * The two tables of the invite gate, as values: the per-group threshold table
 * (`groups` in the bot's database) and the per-(group, user) invite counter
 * (`invites`). A missing row reads as a default.
 */
module Tables {

  type GroupId = int
  type UserId = int

  /** Threshold table: group id to the number of invites a member needs. */
  type Thresholds = map<GroupId, int>

  /** Invite counters: (group id, inviter id) to the number of members credited. */
  type Counts = map<(GroupId, UserId), int>

  /** Threshold of a group that no admin has configured. */
  const DefaultThreshold: int := 5

  /** Bounds of an SQLite INTEGER (signed 64-bit); binding a value outside them fails. */
  const SqliteMinInt: int := -0x8000_0000_0000_0000
  const SqliteMaxInt: int := 0x7FFF_FFFF_FFFF_FFFF

  predicate InSqliteRange(x: int) {
    SqliteMinInt <= x <= SqliteMaxInt
  }

  /** The threshold a group is gated by: its stored row, or the default. */
  function ThresholdIn(thresholds: Thresholds, g: GroupId): int {
    if g in thresholds then thresholds[g] else DefaultThreshold
  }

  /** The invites credited to `u` in `g`: its stored row, or zero. */
  function CountIn(counts: Counts, g: GroupId, u: UserId): int {
    if (g, u) in counts then counts[(g, u)] else 0
  }

  /** Stored thresholds are all at least 1. */
  predicate ThresholdsValid(thresholds: Thresholds) {
    forall g :: g in thresholds ==> thresholds[g] >= 1
  }

  /** Every stored counter row was created by an increment of 1, so holds at least 1. */
  predicate CountsValid(counts: Counts) {
    forall k :: k in counts ==> counts[k] >= 1
  }

  /** `INSERT OR REPLACE` of a threshold row. */
  function StoreThreshold(thresholds: Thresholds, g: GroupId, t: int): Thresholds {
    thresholds[g := t]
  }

  /** `INSERT OR REPLACE ... COALESCE(old, 0) + increment` on a counter row. */
  function AddInvites(counts: Counts, g: GroupId, u: UserId, increment: int): Counts {
    counts[(g, u) := CountIn(counts, g, u) + increment]
  }

  /** With valid tables every threshold read is at least 1 and every count read at least 0. */
  lemma ReadsInRange(thresholds: Thresholds, counts: Counts, g: GroupId, u: UserId)
    requires ThresholdsValid(thresholds) && CountsValid(counts)
    ensures ThresholdIn(thresholds, g) >= 1
    ensures CountIn(counts, g, u) >= 0
    ensures CountIn(counts, g, u) == 0 <==> (g, u) !in counts
  {
  }

  /** Storing a threshold then reading it back yields it; every other group reads as before. */
  lemma StoreThenRead(thresholds: Thresholds, g: GroupId, t: int, h: GroupId)
    ensures ThresholdIn(StoreThreshold(thresholds, g, t), g) == t
    ensures h != g ==> ThresholdIn(StoreThreshold(thresholds, g, t), h) == ThresholdIn(thresholds, h)
  {
  }

  /** A second store overwrites the first. */
  lemma StoreOverwrites(thresholds: Thresholds, g: GroupId, t1: int, t2: int)
    ensures StoreThreshold(StoreThreshold(thresholds, g, t1), g, t2) == StoreThreshold(thresholds, g, t2)
  {
  }

  /** An increment adds exactly `increment` to one counter (absent reads as 0) and no other. */
  lemma AddThenRead(counts: Counts, g: GroupId, u: UserId, increment: int, h: GroupId, v: UserId)
    ensures CountIn(AddInvites(counts, g, u, increment), g, u) == CountIn(counts, g, u) + increment
    ensures (h, v) != (g, u) ==> CountIn(AddInvites(counts, g, u, increment), h, v) == CountIn(counts, h, v)
  {
  }

  /** Storing a threshold of at least 1 keeps the threshold table valid. */
  lemma StoreKeepsValid(thresholds: Thresholds, g: GroupId, t: int)
    requires ThresholdsValid(thresholds)
    ensures ThresholdsValid(StoreThreshold(thresholds, g, t)) <==> t >= 1
  {
    var stored := StoreThreshold(thresholds, g, t);
    assert g in stored && stored[g] == t;
  }

  /** A positive increment keeps the counter table valid and raises the incremented count. */
  lemma AddKeepsValid(counts: Counts, g: GroupId, u: UserId, increment: int)
    requires CountsValid(counts) && increment >= 1
    ensures CountsValid(AddInvites(counts, g, u, increment))
    ensures CountIn(AddInvites(counts, g, u, increment), g, u) > CountIn(counts, g, u)
  {
  }
}
