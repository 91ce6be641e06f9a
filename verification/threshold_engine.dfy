/**
  The warn-threshold engine and the nickname-lock enforcement decision.

  A threshold fires when the new warning count is exactly equal (`===`) to
  its count; there is no memory of earlier firings, so passing over a value
  never fires it and coming back to it fires it again.  Each fired threshold
  asks for one moderation action and posts one notice.
 */
module ThresholdEngine {
  import opened Text
  import opened Effects
  import opened Settings

  predicate KnownAction(action: Option<string>) {
    action == Some("timeout") || action == Some("kick") || action == Some("ban")
  }

  /** The threshold matches `count` and names an action the engine knows. */
  predicate Fires(t: Threshold, count: int) {
    SameNumber(Some(count), t.count) && KnownAction(t.action)
  }

  /** How many thresholds of the list fire at `count`, duplicates included. */
  function FiringCount(ts: seq<Threshold>, count: int): nat {
    if ts == [] then 0 else (if Fires(ts[0], count) then 1 else 0) + FiringCount(ts[1..], count)
  }

  /** `time*60000`; a `NaN` time gives a `NaN` duration. */
  function TimeoutMs(time: Option<int>): (ms: Option<int>)
    ensures time.Some? <==> ms.Some?
    ensures time.Some? ==> ms.value / 60000 == time.value && ms.value % 60000 == 0
  {
    match time
    case None => None
    case Some(m) => Some(m * 60000)
  }

  /** The action and notice of one matching threshold; any action other than
      timeout, kick or ban does nothing. */
  function Fire(t: Threshold, member: UserId): (effs: seq<Effect>)
    ensures KnownAction(t.action) ==> |effs| == 2 && effs[0].IsModeration() && effs[0].user == member
    ensures KnownAction(t.action) ==> effs[1].ThresholdNotice? && effs[1].user == member
    ensures t.action == Some("timeout") ==> effs[0] == Timeout(member, TimeoutMs(t.time)) && effs[1].action == TimedOutFor(t.time)
    ensures t.action == Some("kick") ==> effs[0] == Kick(member, "Warn threshold") && effs[1].action == WasKicked
    ensures t.action == Some("ban") ==> effs[0] == Ban(member) && effs[1].action == WasBanned
    ensures !KnownAction(t.action) ==> effs == []
    ensures CountNotices(effs) == if KnownAction(t.action) then 1 else 0
  {
    if t.action == Some("timeout") then [Timeout(member, TimeoutMs(t.time)), ThresholdNotice(member, TimedOutFor(t.time))]
    else if t.action == Some("kick") then [Kick(member, "Warn threshold"), ThresholdNotice(member, WasKicked)]
    else if t.action == Some("ban") then [Ban(member), ThresholdNotice(member, WasBanned)]
    else []
  }

  /** Walks the list in order and fires every threshold whose count equals
      `count`. */
  function FireAll(ts: seq<Threshold>, member: UserId, count: int): (effs: seq<Effect>)
    ensures |effs| == 2 * FiringCount(ts, count)
    ensures CountNotices(effs) == FiringCount(ts, count)
    ensures (forall i :: 0 <= i < |ts| ==> !SameNumber(Some(count), ts[i].count)) ==> effs == []
    ensures forall e :: e in effs ==> (e.IsModeration() || e.ThresholdNotice?) && e.user == member
  {
    if ts == [] then []
    else
      var here := if SameNumber(Some(count), ts[0].count) then Fire(ts[0], member) else [];
      var rest := FireAll(ts[1..], member, count);
      CountNoticesAppend(here, rest);
      here + rest
  }

  datatype Checked = Checked(registry: Registry, effects: seq<Effect>)

  /** `checkWarnThresholds(member, warnCount, message)`: looks the guild up
      (which may create its record) and fires its thresholds.  It never
      changes the ledger, and it never changes any threshold list. */
  function CheckWarnThresholds(reg: Registry, g: GuildId, member: UserId, count: int): (r: Checked)
    ensures r.registry == GetGuildSettings(reg, g).registry
    ensures g in reg ==> r.registry == reg
    ensures GetGuildSettings(reg, g).settings.warnThresholds.None? ==> r.effects == []
    ensures GetGuildSettings(reg, g).settings.warnThresholds.Some? ==>
      r.effects == FireAll(GetGuildSettings(reg, g).settings.warnThresholds.value, member, count)
    ensures GetGuildSettings(reg, g).settings.warnThresholds.Some? ==>
      CountNotices(r.effects) == FiringCount(GetGuildSettings(reg, g).settings.warnThresholds.value, count)
    ensures forall e :: e in r.effects ==> (e.IsModeration() || e.ThresholdNotice?) && e.user == member
  {
    var l := GetGuildSettings(reg, g);
    match l.settings.warnThresholds
    case None => Checked(l.registry, [])
    case Some(ts) => Checked(l.registry, FireAll(ts, member, count))
  }

  /** A list of one threshold fires it exactly when its count is `===` the
      new warning count. */
  lemma FireAllOne(t: Threshold, member: UserId, count: int)
    ensures FireAll([t], member, count) == if SameNumber(Some(count), t.count) then Fire(t, member) else []
  {
    assert [t][1..] == [];
  }

  /** The list is walked in order: the effects of a longer list are those of
      its first part followed by those of the rest. */
  lemma {:induction false} FireAllAppend(a: seq<Threshold>, b: seq<Threshold>, member: UserId, count: int)
    ensures FireAll(a + b, member, count) == FireAll(a, member, count) + FireAll(b, member, count)
  {
    if a == [] {
      assert a + b == b;
    } else {
      assert (a + b)[0] == a[0] && (a + b)[1..] == a[1..] + b;
      FireAllAppend(a[1..], b, member, count);
      var here := if SameNumber(Some(count), a[0].count) then Fire(a[0], member) else [];
      var x, y := FireAll(a[1..], member, count), FireAll(b, member, count);
      assert FireAll(a + b, member, count) == here + (x + y);
      assert FireAll(a, member, count) == here + x;
      AppendAssoc(here, x, y);
    }
  }

  /** A threshold is skipped when the count jumps over it. */
  lemma {:induction false} NoFireWithoutEquality(ts: seq<Threshold>, member: UserId, count: int)
    requires forall t :: t in ts ==> t.count != Some(count)
    ensures FireAll(ts, member, count) == []
  {
  }

  /** Duplicate thresholds fire once each. */
  lemma {:induction false} DuplicatesFireTwice(t: Threshold, member: UserId, count: int)
    requires Fires(t, count)
    ensures CountNotices(FireAll([t, t], member, count)) == 2
  {
    assert [t, t][1..] == [t];
    assert [t][1..] == [];
  }

  /** A timeout threshold at 3 warnings with 10 minutes fires exactly one
      10-minute timeout and one notice at 3, and nothing at 2 or 4. */
  lemma TimeoutAtThree(member: UserId)
    ensures var ts := [Threshold(Some(3), Some("timeout"), Some(10))];
      && FireAll(ts, member, 3) == [Timeout(member, Some(600000)), ThresholdNotice(member, TimedOutFor(Some(10)))]
      && FireAll(ts, member, 2) == []
      && FireAll(ts, member, 4) == []
  {
  }

  // ------------------------------------------------------ nickname locks

  /** The GuildMemberUpdate decision: the nickname to restore, if any.  A reset
      happens only for a member with a non-empty lock whose nickname actually
      changed. */
  function NickLockReset(locks: Option<map<UserId, string>>, member: UserId, oldNick: Option<string>, newNick: Option<string>): (r: Option<string>)
    ensures r.Some? <==> locks.Some? && member in locks.value && locks.value[member] != [] && oldNick != newNick
    ensures r.Some? ==> r.value == locks.value[member]
  {
    if locks.None? || member !in locks.value || locks.value[member] == [] then None
    else if oldNick != newNick then Some(locks.value[member])
    else None
  }

  /** The member-update handler: looks the guild up (which may create its
      record) and asks for the nickname reset when one is due. */
  function OnMemberUpdate(reg: Registry, g: GuildId, member: UserId, oldNick: Option<string>, newNick: Option<string>): (r: Checked)
    ensures r.registry == GetGuildSettings(reg, g).registry
    ensures |r.effects| <= 1
    ensures forall i :: 0 <= i < |r.effects| ==> r.effects[i].SetNickname? && r.effects[i].user == member
    ensures var reset := NickLockReset(GetGuildSettings(reg, g).settings.nickLocks, member, oldNick, newNick);
      && (r.effects != [] <==> reset.Some?)
      && (reset.Some? ==> r.effects == [SetNickname(member, reset.value)])
  {
    var l := GetGuildSettings(reg, g);
    match NickLockReset(l.settings.nickLocks, member, oldNick, newNick)
    case None => Checked(l.registry, [])
    case Some(nick) => Checked(l.registry, [SetNickname(member, nick)])
  }

  /** After `,nicklock` with a non-empty name, any change of that member's
      nickname is reverted to the locked name; after `,nickunlock` no change
      of it is reverted. */
  lemma LockThenChange(s: GuildSettings, member: UserId, name: string, oldNick: Option<string>, newNick: Option<string>)
    requires name != [] && oldNick != newNick
    ensures NickLockReset(LockNick(s, member, name).nickLocks, member, oldNick, newNick) == Some(name)
    ensures NickLockReset(UnlockNick(LockNick(s, member, name), member).nickLocks, member, oldNick, newNick) == None
  {
  }

  /** An update that leaves the nickname as it was asks for nothing. */
  lemma ResetIsStable(locks: Option<map<UserId, string>>, member: UserId, nick: Option<string>)
    ensures NickLockReset(locks, member, nick, nick) == None
  {
  }

  /** The chain of updates after a locked member's nickname is changed to
      `changed`: the change is reverted to the lock; the platform reports the
      revert as an update from `changed` to the lock, which asks for the same
      reset once more (unless `changed` already was the lock); that second
      reset leaves the nickname as it was, and an update with no change asks
      for nothing.  So the enforcement settles after at most two resets,
      provided the platform reports a nickname set to its current value as an
      update with no change, if at all. */
  lemma ResetSettles(locks: Option<map<UserId, string>>, member: UserId, before: Option<string>, changed: Option<string>)
    requires locks.Some? && member in locks.value && locks.value[member] != []
    requires before != changed
    ensures var lock := Some(locks.value[member]);
      && NickLockReset(locks, member, before, changed) == Some(locks.value[member])
      && NickLockReset(locks, member, changed, lock) == (if changed == lock then None else Some(locks.value[member]))
      && NickLockReset(locks, member, lock, lock) == None
  {
  }
}
