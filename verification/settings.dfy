/**
  The per-guild settings registry: at most one record per guild, created with
  defaults on first access.  The nickname-lock map and the warn-threshold
  list are not part of the defaults; they appear the first time a command
  uses them.  Also holds the gate in front of the guild log channel.
 */
module Settings {
  import opened Text
  import opened Effects

  /** One warn threshold.  `count` and `time` come from `parseInt` and may be
      `NaN` (`None`); `action` is whatever token was given, possibly none. */
  datatype Threshold = Threshold(count: Option<int>, action: Option<string>, time: Option<int>)

  datatype GuildSettings = GuildSettings(
    logChannelId: Option<ChannelId>,
    ticketChannelId: Option<ChannelId>,
    applyChannelId: Option<ChannelId>,
    applicationsOpen: bool,
    nickLocks: Option<map<UserId, string>>,
    warnThresholds: Option<seq<Threshold>>)

  type Registry = map<GuildId, GuildSettings>

  /** The record a guild gets the first time it is looked up. */
  const Defaults := GuildSettings(None, None, None, false, None, None)

  /** JavaScript truthiness of an optional string: present and non-empty. */
  predicate Truthy(o: Option<string>) {
    o.Some? && o.value != []
  }

  /** JavaScript `===` on two numbers that may be `NaN`. */
  predicate SameNumber(a: Option<int>, b: Option<int>) {
    a.Some? && b.Some? && a.value == b.value
  }

  /** Every guild other than `g` keeps exactly its record (or its absence). */
  ghost predicate OtherGuildsUnchanged(reg: Registry, reg': Registry, g: GuildId) {
    forall h :: h != g ==> (h in reg <==> h in reg') && (h in reg ==> reg'[h] == reg[h])
  }

  // ------------------------------------------------------- get-or-create

  datatype Lookup = Lookup(settings: GuildSettings, registry: Registry)

  /** `getGuildSettings`: the stored record, or a defaults record inserted
      for a guild not seen before. */
  function GetGuildSettings(reg: Registry, g: GuildId): (l: Lookup)
    ensures g in reg ==> l.settings == reg[g] && l.registry == reg
    ensures g !in reg ==> l.settings == Defaults && l.registry.Keys == reg.Keys + {g}
    ensures g in l.registry && l.registry[g] == l.settings
    ensures OtherGuildsUnchanged(reg, l.registry, g)
  {
    if g in reg then Lookup(reg[g], reg) else Lookup(Defaults, reg[g := Defaults])
  }

  /** A guild seen for the first time gets no channels, closed applications,
      and neither a nickname-lock map nor a threshold list. */
  lemma NewGuildDefaults(reg: Registry, g: GuildId)
    requires g !in reg
    ensures var s := GetGuildSettings(reg, g).settings;
      && s.logChannelId.None? && s.ticketChannelId.None? && s.applyChannelId.None?
      && !s.applicationsOpen && s.nickLocks.None? && s.warnThresholds.None?
  {
  }

  lemma GetGuildSettingsIdempotent(reg: Registry, g: GuildId)
    ensures GetGuildSettings(GetGuildSettings(reg, g).registry, g) == GetGuildSettings(reg, g)
  {
  }

  // ------------------------------------------------------- nickname locks

  /** `,nicklock`: records `name` as the locked nickname of `user`, creating
      the lock map if needed; every other field and lock is kept. */
  function LockNick(s: GuildSettings, user: UserId, name: string): (s': GuildSettings)
    ensures s'.nickLocks.Some? && user in s'.nickLocks.value && s'.nickLocks.value[user] == name
    ensures forall v :: v != user ==>
      (s.nickLocks.Some? && v in s.nickLocks.value <==> v in s'.nickLocks.value)
    ensures forall v :: v != user && s.nickLocks.Some? && v in s.nickLocks.value ==>
      s'.nickLocks.value[v] == s.nickLocks.value[v]
    ensures s'.(nickLocks := s.nickLocks) == s
  {
    var locks := if s.nickLocks.Some? then s.nickLocks.value else map[];
    s.(nickLocks := Some(locks[user := name]))
  }

  /** `,nickunlock`: drops the lock of `user` if there is a lock map; without
      one nothing changes (no map is created). */
  function UnlockNick(s: GuildSettings, user: UserId): (s': GuildSettings)
    ensures s.nickLocks.None? ==> s' == s
    ensures s.nickLocks.Some? ==> s'.nickLocks.Some? && s'.nickLocks.value.Keys == s.nickLocks.value.Keys - {user}
    ensures s.nickLocks.Some? ==> forall v :: v in s'.nickLocks.value ==> s'.nickLocks.value[v] == s.nickLocks.value[v]
    ensures s'.(nickLocks := s.nickLocks) == s
  {
    if s.nickLocks.Some? then s.(nickLocks := Some(s.nickLocks.value - {user})) else s
  }

  // ------------------------------------------------------- warn thresholds

  /** `,warnthreshold add`: appends the threshold, creating the list if needed. */
  function AddThreshold(s: GuildSettings, t: Threshold): (s': GuildSettings)
    ensures s'.warnThresholds.Some? && |s'.warnThresholds.value| > 0
    ensures s'.warnThresholds.value[|s'.warnThresholds.value| - 1] == t
    ensures s.warnThresholds.Some? ==>
      (&& |s'.warnThresholds.value| == |s.warnThresholds.value| + 1
       && s'.warnThresholds.value[..|s.warnThresholds.value|] == s.warnThresholds.value)
    ensures s.warnThresholds.None? ==> s'.warnThresholds.value == [t]
    ensures s'.(warnThresholds := s.warnThresholds) == s
  {
    var ts := if s.warnThresholds.Some? then s.warnThresholds.value else [];
    s.(warnThresholds := Some(ts + [t]))
  }

  /** `filter(t => t.count !== count)`: keeps, in order, every threshold whose
      count is not `===` to `count`. */
  function DropCount(ts: seq<Threshold>, count: Option<int>): (r: seq<Threshold>)
    ensures |r| <= |ts|
  {
    if ts == [] then []
    else if SameNumber(ts[0].count, count) then DropCount(ts[1..], count)
    else [ts[0]] + DropCount(ts[1..], count)
  }

  /** A threshold survives the filter exactly when its count differs from
      the removed one; a `NaN` count (which equals nothing) removes nothing. */
  lemma {:induction false} DropCountKeeps(ts: seq<Threshold>, count: Option<int>)
    ensures forall t :: t in DropCount(ts, count) <==> t in ts && !SameNumber(t.count, count)
    ensures count.None? ==> DropCount(ts, count) == ts
  {
    if ts != [] {
      DropCountKeeps(ts[1..], count);
      assert ts == [ts[0]] + ts[1..];
    }
  }

  /** Removal keeps the survivors in their original relative order. */
  lemma {:induction false} DropCountAppend(a: seq<Threshold>, b: seq<Threshold>, count: Option<int>)
    ensures DropCount(a + b, count) == DropCount(a, count) + DropCount(b, count)
  {
    if a == [] {
      assert a + b == b;
    } else {
      var ab := a + b;
      assert ab[0] == a[0] && ab[1..] == a[1..] + b;
      var x, y := DropCount(a[1..], count), DropCount(b, count);
      DropCountAppend(a[1..], b, count);
      assert DropCount(ab[1..], count) == x + y;
      if SameNumber(a[0].count, count) {
        assert DropCount(ab, count) == DropCount(ab[1..], count);
        assert DropCount(a, count) == x;
      } else {
        assert DropCount(ab, count) == [a[0]] + (x + y);
        assert DropCount(a, count) == [a[0]] + x;
        assert [a[0]] + (x + y) == ([a[0]] + x) + y;
      }
    }
  }

  /** `,warnthreshold remove`: filters the list if there is one. */
  function RemoveThresholds(s: GuildSettings, count: Option<int>): (s': GuildSettings)
    ensures s.warnThresholds.None? ==> s' == s
    ensures s.warnThresholds.Some? ==> s'.warnThresholds == Some(DropCount(s.warnThresholds.value, count))
    ensures s'.(warnThresholds := s.warnThresholds) == s
  {
    if s.warnThresholds.Some? then s.(warnThresholds := Some(DropCount(s.warnThresholds.value, count))) else s
  }

  /** The `count→action` pairs `,warnthreshold list` shows, in list order. */
  function ThresholdEntries(s: GuildSettings): (es: seq<(Option<int>, Option<string>)>)
    ensures s.warnThresholds.None? ==> es == []
    ensures s.warnThresholds.Some? ==>
      (&& |es| == |s.warnThresholds.value|
       && forall i :: 0 <= i < |es| ==> es[i] == (s.warnThresholds.value[i].count, s.warnThresholds.value[i].action))
  {
    var ts := if s.warnThresholds.Some? then s.warnThresholds.value else [];
    seq(|ts|, i requires 0 <= i < |ts| => (ts[i].count, ts[i].action))
  }

  // ---------------------------------------------------------- log channel

  datatype Logged = Logged(registry: Registry, effects: seq<Effect>)

  /** `logToGuild`: sends one line to the guild's log channel only when a
      guild is given, its settings name a log channel, and the guild's channel
      cache (`channels`, id to "is text based") holds that channel as a text
      channel.  The settings lookup may create the guild's record. */
  function LogToGuild(reg: Registry, guild: Option<GuildId>, channels: map<ChannelId, bool>, entry: LogEntry): (r: Logged)
    ensures guild.None? ==> r == Logged(reg, [])
    ensures guild.Some? ==> r.registry == GetGuildSettings(reg, guild.value).registry
    ensures r.effects != [] <==>
      && guild.Some?
      && var s := GetGuildSettings(reg, guild.value).settings;
      && Truthy(s.logChannelId) && s.logChannelId.value in channels && channels[s.logChannelId.value]
    ensures r.effects != [] ==> r.effects == [LogLine(GetGuildSettings(reg, guild.value).settings.logChannelId.value, entry)]
  {
    if guild.None? then Logged(reg, [])
    else
      var l := GetGuildSettings(reg, guild.value);
      var id := l.settings.logChannelId;
      if !Truthy(id) then Logged(l.registry, [])
      else if id.value !in channels || !channels[id.value] then Logged(l.registry, [])
      else Logged(l.registry, [LogLine(id.value, entry)])
  }
}
