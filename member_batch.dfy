/**
 * What `handle_new_member` does to the counter table and which actions it
 * emits, as a function of the batch of new members. The threshold is an
 * argument: the handler reads it once, before the loop, for the whole batch.
 */
module MemberBatch {
  import opened Wrappers
  import opened Tables
  import opened Actions

  /** The counter table and the actions emitted so far. */
  datatype BatchState = BatchState(counts: Counts, actions: seq<Action>)

  /** The announcement for an inviter whose count has just become `n`. */
  function Verdict(inviter: UserId, n: int, threshold: int): Action {
    if n >= threshold then Grant(inviter) else Notify(inviter, n, threshold)
  }

  /**
   * One iteration of the loop for new member `m`: the bot is skipped; anyone
   * else is restricted, and when the message has a sender other than `m` that
   * sender is credited one invite and gets a grant or a progress notice.
   */
  function MemberStep(st: BatchState, g: GroupId, threshold: int, sender: Option<UserId>, bot: UserId, m: UserId): (r: BatchState)
    ensures |st.actions| <= |r.actions| <= |st.actions| + 2 && r.actions[..|st.actions|] == st.actions
    ensures m == bot <==> r == st
  {
    if m == bot then st
    else if sender.Some? && sender.value != m then
      var counts := AddInvites(st.counts, g, sender.value, 1);
      BatchState(counts, st.actions + [Restrict(m), Verdict(sender.value, CountIn(counts, g, sender.value), threshold)])
    else
      BatchState(st.counts, st.actions + [Restrict(m)])
  }

  /**
   * The whole loop: the members in order, starting from `st`. Actions are only
   * appended, at most two per member.
   */
  function Batch(st: BatchState, g: GroupId, threshold: int, sender: Option<UserId>, bot: UserId, members: seq<UserId>): (r: BatchState)
    ensures |st.actions| <= |r.actions| <= |st.actions| + 2 * |members| && r.actions[..|st.actions|] == st.actions
    decreases |members|
  {
    if |members| == 0 then st
    else MemberStep(Batch(st, g, threshold, sender, bot, members[..|members| - 1]), g, threshold, sender, bot, members[|members| - 1])
  }

  /** The new members other than the bot, in order. */
  function NonBot(members: seq<UserId>, bot: UserId): seq<UserId> {
    if |members| == 0 then []
    else NonBot(members[..|members| - 1], bot) + (if members[|members| - 1] == bot then [] else [members[|members| - 1]])
  }

  /** How many new members earn the sender an invite: neither the bot nor the sender. */
  function Qualifying(members: seq<UserId>, sender: UserId, bot: UserId): nat {
    if |members| == 0 then 0
    else Qualifying(members[..|members| - 1], sender, bot) + (if members[|members| - 1] == bot || members[|members| - 1] == sender then 0 else 1)
  }

  /** The users named by the Restrict actions, in order. */
  function Restricted(actions: seq<Action>): seq<UserId> {
    if |actions| == 0 then []
    else Restricted(actions[..|actions| - 1]) + (if actions[|actions| - 1].Restrict? then [actions[|actions| - 1].member] else [])
  }

  /** The Grant and Notify actions, in order. */
  function Verdicts(actions: seq<Action>): seq<Action> {
    if |actions| == 0 then []
    else Verdicts(actions[..|actions| - 1]) + (if actions[|actions| - 1].Grant? || actions[|actions| - 1].Notify? then [actions[|actions| - 1]] else [])
  }

  /** The announcements for `q` credits in a row to an inviter whose count starts at `start`. */
  function Ladder(inviter: UserId, start: int, q: nat, threshold: int): seq<Action> {
    if q == 0 then [] else Ladder(inviter, start, q - 1, threshold) + [Verdict(inviter, start + q, threshold)]
  }

  lemma {:induction false} RestrictedAppend(a: seq<Action>, b: seq<Action>)
    ensures Restricted(a + b) == Restricted(a) + Restricted(b)
    decreases |b|
  {
    if |b| > 0 {
      var b' := b[..|b| - 1];
      assert (a + b)[..|a + b| - 1] == a + b';
      RestrictedAppend(a, b');
    } else {
      assert a + b == a;
    }
  }

  lemma {:induction false} VerdictsAppend(a: seq<Action>, b: seq<Action>)
    ensures Verdicts(a + b) == Verdicts(a) + Verdicts(b)
    decreases |b|
  {
    if |b| > 0 {
      var b' := b[..|b| - 1];
      assert (a + b)[..|a + b| - 1] == a + b';
      VerdictsAppend(a, b');
    } else {
      assert a + b == a;
    }
  }

  /** The Grant and Notify actions are exactly those among all actions. */
  lemma {:induction false} VerdictsMembers(actions: seq<Action>, x: Action)
    requires x.Grant? || x.Notify?
    ensures x in Verdicts(actions) <==> x in actions
  {
    if |actions| > 0 {
      var init := actions[..|actions| - 1];
      VerdictsMembers(init, x);
      assert actions == init + [actions[|actions| - 1]];
    }
  }

  /**
   * Counter frame and exact credit: with no sender the table is unchanged;
   * otherwise only the sender's row in this group changes, and it rises by the
   * number of qualifying members (absent rows reading as 0).
   */
  lemma {:induction false} BatchCounts(st: BatchState, g: GroupId, threshold: int, sender: Option<UserId>, bot: UserId, members: seq<UserId>)
    ensures sender.None? ==> Batch(st, g, threshold, sender, bot, members).counts == st.counts
    ensures sender.Some? ==>
      var q := Qualifying(members, sender.value, bot);
      Batch(st, g, threshold, sender, bot, members).counts == if q == 0 then st.counts else AddInvites(st.counts, g, sender.value, q)
    decreases |members|
  {
    if |members| > 0 {
      var init := members[..|members| - 1];
      var m := members[|members| - 1];
      var prev := Batch(st, g, threshold, sender, bot, init);
      assert Batch(st, g, threshold, sender, bot, members) == MemberStep(prev, g, threshold, sender, bot, m);
      BatchCounts(st, g, threshold, sender, bot, init);
      if sender.Some? {
        var s := sender.value;
        var q := Qualifying(init, s, bot);
        if m != bot && m != s {
          assert Qualifying(members, s, bot) == q + 1;
          if q > 0 {
            var c := AddInvites(st.counts, g, s, q);
            assert AddInvites(c, g, s, 1) == AddInvites(st.counts, g, s, q + 1);
          }
        } else {
          assert Qualifying(members, s, bot) == q;
        }
      }
    }
  }

  /** The sender's own counter rises by the number of qualifying members. */
  lemma {:induction false} SenderCount(st: BatchState, g: GroupId, threshold: int, s: UserId, bot: UserId, members: seq<UserId>)
    ensures CountIn(Batch(st, g, threshold, Some(s), bot, members).counts, g, s) == CountIn(st.counts, g, s) + Qualifying(members, s, bot)
  {
    BatchCounts(st, g, threshold, Some(s), bot, members);
  }

  /** Counts never decrease, for any group and user. */
  lemma {:induction false} BatchNeverDecreases(st: BatchState, g: GroupId, threshold: int, sender: Option<UserId>, bot: UserId, members: seq<UserId>, h: GroupId, v: UserId)
    ensures CountIn(Batch(st, g, threshold, sender, bot, members).counts, h, v) >= CountIn(st.counts, h, v)
  {
    BatchCounts(st, g, threshold, sender, bot, members);
  }

  /** A batch keeps every stored counter row at least 1. */
  lemma {:induction false} BatchKeepsValid(st: BatchState, g: GroupId, threshold: int, sender: Option<UserId>, bot: UserId, members: seq<UserId>)
    requires CountsValid(st.counts)
    ensures CountsValid(Batch(st, g, threshold, sender, bot, members).counts)
  {
    BatchCounts(st, g, threshold, sender, bot, members);
    if sender.Some? && Qualifying(members, sender.value, bot) > 0 {
      AddKeepsValid(st.counts, g, sender.value, Qualifying(members, sender.value, bot));
    }
  }

  /** The filters on the single action of a member who earns no credit. */
  lemma RestrictOnlyFilters(m: UserId)
    ensures Restricted([Restrict(m)]) == [m] && Verdicts([Restrict(m)]) == []
  {
    assert [Restrict(m)][..0] == [];
  }

  /** The filters on the two actions of a member who earns the sender a credit. */
  lemma RestrictVerdictFilters(m: UserId, v: Action)
    requires v.Grant? || v.Notify?
    ensures Restricted([Restrict(m), v]) == [m] && Verdicts([Restrict(m), v]) == [v]
  {
    assert [Restrict(m), v][..1] == [Restrict(m)];
    RestrictOnlyFilters(m);
  }

  /** The restriction one member adds, if any. */
  lemma StepRestricts(prev: BatchState, g: GroupId, threshold: int, sender: Option<UserId>, bot: UserId, m: UserId)
    ensures Restricted(MemberStep(prev, g, threshold, sender, bot, m).actions) ==
      Restricted(prev.actions) + (if m != bot then [m] else [])
  {
    if m != bot {
      if sender.Some? && sender.value != m {
        var v := Verdict(sender.value, CountIn(prev.counts, g, sender.value) + 1, threshold);
        RestrictVerdictFilters(m, v);
        RestrictedAppend(prev.actions, [Restrict(m), v]);
      } else {
        RestrictOnlyFilters(m);
        RestrictedAppend(prev.actions, [Restrict(m)]);
      }
    }
  }

  /** Every new member except the bot is restricted, once, in arrival order; nobody else is. */
  lemma {:induction false} BatchRestricts(st: BatchState, g: GroupId, threshold: int, sender: Option<UserId>, bot: UserId, members: seq<UserId>)
    ensures Restricted(Batch(st, g, threshold, sender, bot, members).actions) == Restricted(st.actions) + NonBot(members, bot)
    decreases |members|
  {
    if |members| > 0 {
      var init := members[..|members| - 1];
      var m := members[|members| - 1];
      var prev := Batch(st, g, threshold, sender, bot, init);
      assert Batch(st, g, threshold, sender, bot, members) == MemberStep(prev, g, threshold, sender, bot, m);
      BatchRestricts(st, g, threshold, sender, bot, init);
      StepRestricts(prev, g, threshold, sender, bot, m);
      assert NonBot(members, bot) == NonBot(init, bot) + (if m != bot then [m] else []);
    }
  }

  /** The announcement one member adds, if any. */
  lemma StepVerdicts(prev: BatchState, g: GroupId, threshold: int, sender: Option<UserId>, bot: UserId, m: UserId)
    ensures Verdicts(MemberStep(prev, g, threshold, sender, bot, m).actions) ==
      Verdicts(prev.actions) +
      (if m != bot && sender.Some? && sender.value != m
       then [Verdict(sender.value, CountIn(prev.counts, g, sender.value) + 1, threshold)] else [])
  {
    if m != bot {
      if sender.Some? && sender.value != m {
        var v := Verdict(sender.value, CountIn(prev.counts, g, sender.value) + 1, threshold);
        RestrictVerdictFilters(m, v);
        VerdictsAppend(prev.actions, [Restrict(m), v]);
      } else {
        RestrictOnlyFilters(m);
        VerdictsAppend(prev.actions, [Restrict(m)]);
      }
    }
  }

  /** Without a sender, a batch announces nothing. */
  lemma {:induction false} BatchVerdictsNoSender(st: BatchState, g: GroupId, threshold: int, bot: UserId, members: seq<UserId>)
    ensures Verdicts(Batch(st, g, threshold, None, bot, members).actions) == Verdicts(st.actions)
    decreases |members|
  {
    if |members| > 0 {
      var init := members[..|members| - 1];
      var prev := Batch(st, g, threshold, None, bot, init);
      BatchVerdictsNoSender(st, g, threshold, bot, init);
      StepVerdicts(prev, g, threshold, None, bot, members[|members| - 1]);
    }
  }

  /**
   * With sender `s`, a batch announces one verdict per qualifying member, each
   * judged on the sender's count just after that credit.
   */
  lemma {:induction false} BatchVerdicts(counts: Counts, g: GroupId, threshold: int, s: UserId, bot: UserId, members: seq<UserId>)
    ensures Verdicts(Batch(BatchState(counts, []), g, threshold, Some(s), bot, members).actions) ==
      Ladder(s, CountIn(counts, g, s), Qualifying(members, s, bot), threshold)
    decreases |members|
  {
    var st := BatchState(counts, []);
    if |members| == 0 {
      assert Verdicts([]) == [];
    } else {
      var init := members[..|members| - 1];
      var m := members[|members| - 1];
      var prev := Batch(st, g, threshold, Some(s), bot, init);
      BatchVerdicts(counts, g, threshold, s, bot, init);
      StepVerdicts(prev, g, threshold, Some(s), bot, m);
      SenderCount(st, g, threshold, s, bot, init);
    }
  }

  /** The i-th announcement judges the count after the (i+1)-th credit. */
  lemma {:induction false} LadderAt(inviter: UserId, start: int, q: nat, threshold: int, i: nat)
    requires i < q
    ensures |Ladder(inviter, start, q, threshold)| == q
    ensures Ladder(inviter, start, q, threshold)[i] == Verdict(inviter, start + i + 1, threshold)
  {
    LadderLength(inviter, start, q - 1, threshold);
    if i < q - 1 {
      LadderAt(inviter, start, q - 1, threshold, i);
    }
  }

  lemma {:induction false} LadderLength(inviter: UserId, start: int, q: nat, threshold: int)
    ensures |Ladder(inviter, start, q, threshold)| == q
  {
    if q > 0 {
      LadderLength(inviter, start, q - 1, threshold);
    }
  }

  /**
   * A grant is announced in a run of credits exactly when there is at least one
   * credit and the final count reaches the threshold; every announcement names
   * the inviter, and every progress notice carries a count below the threshold.
   */
  lemma {:induction false} LadderGrant(inviter: UserId, start: int, q: nat, threshold: int)
    ensures Grant(inviter) in Ladder(inviter, start, q, threshold) <==> q > 0 && start + q >= threshold
    ensures forall a :: a in Ladder(inviter, start, q, threshold) ==>
              (a.Grant? && a.inviter == inviter) || (a.Notify? && a.inviter == inviter && a.count < threshold && a.threshold == threshold)
  {
    if q > 0 {
      LadderGrant(inviter, start, q - 1, threshold);
    }
  }

  /**
   * From an empty action list: a Grant names the sender, and the sender's final
   * count in this group is at least the threshold.
   */
  lemma {:induction false} GrantMeetsThreshold(counts: Counts, g: GroupId, threshold: int, sender: Option<UserId>, bot: UserId, members: seq<UserId>, x: UserId)
    requires Grant(x) in Batch(BatchState(counts, []), g, threshold, sender, bot, members).actions
    ensures sender == Some(x)
    ensures CountIn(Batch(BatchState(counts, []), g, threshold, sender, bot, members).counts, g, x) >= threshold
  {
    var st := BatchState(counts, []);
    var r := Batch(st, g, threshold, sender, bot, members);
    VerdictsMembers(r.actions, Grant(x));
    assert Verdicts([]) == [];
    if sender.None? {
      BatchVerdictsNoSender(st, g, threshold, bot, members);
      assert false;
    }
    var s := sender.value;
    BatchVerdicts(counts, g, threshold, s, bot, members);
    BatchCounts(st, g, threshold, sender, bot, members);
    var q := Qualifying(members, s, bot);
    LadderGrant(s, CountIn(counts, g, s), q, threshold);
  }
}
