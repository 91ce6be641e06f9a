/**
  The message handler: the AFK bookkeeping every message goes through, the
  owner-only commands, the autoresponder pipeline for messages without the
  "," prefix, and the prefix-command dispatcher with one handler per command.

  A handler is a pure step from the bot's in-memory state and one message to
  a new state and the effects it asks for.  Whether a platform call succeeds
  is the message's `platformOk` flag; where the handler catches a failure the
  model gives the failure reply, and a failed best-effort direct message is
  not distinguished from a delivered one.
 */
module Bot {
  import opened Text
  import opened Effects
  import opened Warnings
  import opened Settings
  import opened ThresholdEngine
  import opened Autoresponders
  import opened Parsers

  /** The user id of the bot owner. */
  const BotOwnerId := "1172433512364769342"

  datatype AfkEntry = AfkEntry(reason: string, since: int)

  datatype BotState = BotState(
    ledger: Ledger,
    registry: Registry,
    rules: seq<DynamicRule>,
    afk: map<UserId, AfkEntry>)

  datatype Member = Member(id: UserId, nickname: Option<string>, username: string)

  datatype Channel = Channel(id: ChannelId, isText: bool)

  /** One incoming message with the parts of the platform's view of it the
      handler reads.  `channels` is the guild's channel cache (id to "is text
      based"), `now` is `Date.now()`. */
  datatype Message = Message(
    content: string,
    author: Member,
    authorIsBot: bool,
    guild: Option<GuildId>,
    perms: set<Permission>,
    mentionedMembers: seq<Member>,
    mentionedUsers: seq<Member>,
    mentionedChannels: seq<Channel>,
    channel: Channel,
    channels: map<ChannelId, bool>,
    platformOk: bool,
    now: int)

  datatype Step = Step(state: BotState, effects: seq<Effect>)

  /** No effect is an autoresponder's answer. */
  predicate NoAutoresponse(effs: seq<Effect>) {
    forall e :: e in effs ==> !e.IsAutoresponse()
  }

  /** What every command handler keeps to: it never answers as an
      autoresponder would, it touches no other guild's settings, and each of
      the three datasets it changes is saved. */
  ghost predicate Confined(st: BotState, r: Step, g: GuildId) {
    && NoAutoresponse(r.effects)
    && OtherGuildsUnchanged(st.registry, r.state.registry, g)
    && (r.state.registry != st.registry ==> Persist(SettingsFile) in r.effects)
    && (r.state.rules != st.rules ==> Persist(AutorespondersFile) in r.effects)
    && (r.state.ledger != st.ledger ==> Persist(WarningsFile) in r.effects)
  }

  // ---------------------------------------------------------------- helpers

  function First<T>(xs: seq<T>): (r: Option<T>)
    ensures r.Some? <==> |xs| > 0
    ensures r.Some? ==> r.value == xs[0]
  {
    if |xs| > 0 then Some(xs[0]) else None
  }

  /** `args.slice(n)`. */
  function Drop(args: seq<string>, n: nat): (r: seq<string>)
    ensures n <= |args| ==> r == args[n..]
    ensures n > |args| ==> r == []
  {
    if n <= |args| then args[n..] else []
  }

  /** `text || fallback`. */
  function OrDefault(text: string, fallback: string): (r: string)
    ensures text != [] ==> r == text
    ensures text == [] ==> r == fallback
  {
    if text == [] then fallback else text
  }

  /** `parseInt(x)` where `x` may be `undefined`. */
  function ParseArg(a: Option<string>): (r: Option<int>)
    ensures a.None? ==> r.None?
    ensures a.Some? ==> r == ParseInt(a.value, true)
  {
    match a
    case None => None
    case Some(x) => ParseInt(x, true)
  }

  function Reply(r: Reply): Effect {
    SendReply(r)
  }

  function SettingsOf(st: BotState, g: GuildId): GuildSettings
    requires g in st.registry
  {
    st.registry[g]
  }

  /** Replaces the settings record of `g`. */
  function WithSettings(st: BotState, g: GuildId, s: GuildSettings): (st': BotState)
    ensures st'.registry == st.registry[g := s]
    ensures st'.ledger == st.ledger && st'.rules == st.rules && st'.afk == st.afk
  {
    st.(registry := st.registry[g := s])
  }

  /** The log line a handler sends through `logToGuild` for a guild whose
      record exists (so the lookup creates nothing). */
  function LogLines(st: BotState, msg: Message, g: GuildId, entry: LogEntry): (effs: seq<Effect>)
    requires g in st.registry
    ensures |effs| <= 1
    ensures forall e :: e in effs ==> e.LogLine?
    ensures effs != [] <==>
      var id := st.registry[g].logChannelId;
      Truthy(id) && id.value in msg.channels && msg.channels[id.value]
    ensures effs != [] ==> effs == [LogLine(st.registry[g].logChannelId.value, entry)]
  {
    LogToGuild(st.registry, Some(g), msg.channels, entry).effects
  }

  /** Stores a new settings record for `g`, saves the settings and confirms
      the command. */
  function SaveSettings(st: BotState, g: GuildId, s: GuildSettings, command: string): (r: Step)
    requires g in st.registry
    ensures Confined(st, r, g)
    ensures r.state == WithSettings(st, g, s) && r.effects == [Persist(SettingsFile), Reply(Done(command))]
  {
    Step(WithSettings(st, g, s), [Persist(SettingsFile), Reply(Done(command))])
  }

  /** A missing permission stops a command with a reply naming it. */
  function Denied(st: BotState, p: Permission): Step {
    Step(st, [Reply(MissingPermission(p))])
  }

  // ------------------------------------------------ AFK before everything

  /** The AFK line of a user who is away: name, reason and whole minutes away
      (`Math.floor`, which Dafny's `/` is for a positive divisor). */
  function AfkLine(afk: map<UserId, AfkEntry>, u: Member, now: int): (string, string, int)
    requires u.id in afk
  {
    (u.username, afk[u.id].reason, (now - afk[u.id].since) / 60000)
  }

  /** The AFK line of each mentioned user who is away, in mention order. */
  function AfkLines(afk: map<UserId, AfkEntry>, users: seq<Member>, now: int): (lines: seq<(string, string, int)>)
    ensures |lines| <= |users|
    ensures lines == [] <==> forall u :: u in users ==> u.id !in afk
    ensures forall u :: u in users && u.id in afk ==> AfkLine(afk, u, now) in lines
    ensures forall l :: l in lines ==> exists u :: u in users && u.id in afk && l == AfkLine(afk, u, now)
  {
    if users == [] then []
    else
      var rest := AfkLines(afk, users[1..], now);
      var u := users[0];
      assert forall v :: v in users ==> v == u || v in users[1..];
      if u.id in afk then [AfkLine(afk, u, now)] + rest
      else rest
  }

  /** One mentioned user gives their line exactly when they are away. */
  lemma AfkLinesOne(afk: map<UserId, AfkEntry>, u: Member, now: int)
    ensures AfkLines(afk, [u], now) == if u.id in afk then [AfkLine(afk, u, now)] else []
  {
    assert [u][1..] == [];
  }

  /** The lines follow the order of the mentions. */
  lemma {:induction false} AfkLinesAppend(a: seq<Member>, b: seq<Member>, afk: map<UserId, AfkEntry>, now: int)
    ensures AfkLines(afk, a + b, now) == AfkLines(afk, a, now) + AfkLines(afk, b, now)
  {
    if a != [] {
      assert (a + b)[0] == a[0] && (a + b)[1..] == a[1..] + b;
      AfkLinesAppend(a[1..], b, afk, now);
      if a[0].id in afk {
        AppendAssoc([AfkLine(afk, a[0], now)], AfkLines(afk, a[1..], now), AfkLines(afk, b, now));
      }
    } else {
      assert a + b == b;
    }
  }

  /** The greeting (when the author was away) followed by the notice listing
      `lines` (when there are any). */
  function AfkEffects(wasAfk: bool, lines: seq<(string, string, int)>): (effs: seq<Effect>)
    ensures wasAfk <==> |effs| > 0 && effs[0] == Reply(WelcomeBack)
    ensures NoAutoresponse(effs)
    ensures |effs| <= 2
    ensures Reply(AfkNotice(lines)) in effs <==> lines != []
    ensures forall e :: e in effs && e != Reply(WelcomeBack) ==> e == Reply(AfkNotice(lines))
  {
    (if wasAfk then [Reply(WelcomeBack)] else []) + (if lines == [] then [] else [Reply(AfkNotice(lines))])
  }

  /** Removes the author's AFK status (greeting them back if they had one),
      then lists the mentioned users who are still away. */
  function AfkPrelude(st: BotState, msg: Message): (r: Step)
    ensures msg.author.id !in r.state.afk
    ensures r.state.afk == st.afk - {msg.author.id}
    ensures r.state.ledger == st.ledger && r.state.registry == st.registry && r.state.rules == st.rules
    ensures msg.author.id in st.afk <==> |r.effects| > 0 && r.effects[0] == Reply(WelcomeBack)
    ensures NoAutoresponse(r.effects)
    ensures |r.effects| <= 2
    ensures var lines := AfkLines(st.afk - {msg.author.id}, msg.mentionedUsers, msg.now);
      && (Reply(AfkNotice(lines)) in r.effects <==> lines != [])
      && forall e :: e in r.effects && e != Reply(WelcomeBack) ==> e == Reply(AfkNotice(lines))
  {
    var afk := st.afk - {msg.author.id};
    Step(st.(afk := afk), AfkEffects(msg.author.id in st.afk, AfkLines(afk, msg.mentionedUsers, msg.now)))
  }

  // ------------------------------------------------ settings commands

  /** `,nicklock @user`: locks the member's current nickname, or their user
      name when they have none.  No permission is checked. */
  function NickLockCommand(st: BotState, msg: Message, g: GuildId): (r: Step)
    requires g in st.registry
    ensures Confined(st, r, g)
    ensures msg.mentionedMembers == [] ==> r == Step(st, [Reply(Usage("nicklock"))])
    ensures msg.mentionedMembers != [] ==>
      var t := msg.mentionedMembers[0];
      && r.state == WithSettings(st, g, LockNick(SettingsOf(st, g), t.id, if Truthy(t.nickname) then t.nickname.value else t.username))
      && r.effects == [Persist(SettingsFile), Reply(Done("nicklock"))]
  {
    match First(msg.mentionedMembers)
    case None => Step(st, [Reply(Usage("nicklock"))])
    case Some(t) =>
      var name := if Truthy(t.nickname) then t.nickname.value else t.username;
      SaveSettings(st, g, LockNick(SettingsOf(st, g), t.id, name), "nicklock")
  }

  /** `,nickunlock @user`.  No permission is checked. */
  function NickUnlockCommand(st: BotState, msg: Message, g: GuildId): (r: Step)
    requires g in st.registry
    ensures Confined(st, r, g)
    ensures msg.mentionedMembers == [] ==> r == Step(st, [Reply(Usage("nickunlock"))])
    ensures msg.mentionedMembers != [] ==>
      && r.state == WithSettings(st, g, UnlockNick(SettingsOf(st, g), msg.mentionedMembers[0].id))
      && r.effects == [Persist(SettingsFile), Reply(Done("nickunlock"))]
  {
    match First(msg.mentionedMembers)
    case None => Step(st, [Reply(Usage("nickunlock"))])
    case Some(t) =>
      SaveSettings(st, g, UnlockNick(SettingsOf(st, g), t.id), "nickunlock")
  }

  /** The threshold `,warnthreshold add <count> <action> [time]` builds: both
      numbers read with `parseInt` without a radix, the time defaulting to
      "0" when absent. */
  function ThresholdOf(args: seq<string>): (t: Threshold)
    ensures t.count == ParseArg(Arg(args, 1))
    ensures t.action == Arg(args, 2)
    ensures |args| <= 3 ==> t.time == Some(0)
    ensures |args| > 3 && args[3] != [] ==> t.time == ParseInt(args[3], true)
  {
    var time := if |args| > 3 && args[3] != [] then args[3] else "0";
    assert ParseInt("0", true) == Some(0) by {
      assert AllDigits("0");
      assert DecimalValue("0") == 0;
    }
    Threshold(ParseArg(Arg(args, 1)), Arg(args, 2), ParseInt(time, true))
  }

  /** `,warnthreshold add/remove/list`.  No permission is checked. */
  function WarnThresholdCommand(st: BotState, g: GuildId, args: seq<string>): (r: Step)
    requires g in st.registry
    ensures Confined(st, r, g)
    ensures Arg(args, 0) == Some("add") ==>
      r == Step(WithSettings(st, g, AddThreshold(SettingsOf(st, g), ThresholdOf(args))), [Persist(SettingsFile), Reply(Done("warnthreshold add"))])
    ensures Arg(args, 0) == Some("remove") ==>
      r == Step(WithSettings(st, g, RemoveThresholds(SettingsOf(st, g), ParseArg(Arg(args, 1)))), [Persist(SettingsFile), Reply(Done("warnthreshold remove"))])
    ensures Arg(args, 0) == Some("list") ==> r == Step(st, [Reply(ThresholdList(ThresholdEntries(SettingsOf(st, g))))])
    ensures Arg(args, 0) !in {Some("add"), Some("remove"), Some("list")} ==> r == Step(st, [Reply(Usage("warnthreshold"))])
  {
    var s := SettingsOf(st, g);
    var sub := Arg(args, 0);
    if sub == Some("add") then
      SaveSettings(st, g, AddThreshold(s, ThresholdOf(args)), "warnthreshold add")
    else if sub == Some("remove") then
      SaveSettings(st, g, RemoveThresholds(s, ParseArg(Arg(args, 1))), "warnthreshold remove")
    else if sub == Some("list") then
      Step(st, [Reply(ThresholdList(ThresholdEntries(s)))])
    else
      Step(st, [Reply(Usage("warnthreshold"))])
  }

  /** `,log_channel`, `,apply_channel`: Manage Server, a mentioned channel,
      then the id is stored. */
  function ChannelSetting(st: BotState, msg: Message, g: GuildId, command: string, apply: bool): (r: Step)
    requires g in st.registry
    ensures Confined(st, r, g)
    ensures ManageGuild !in msg.perms ==> r == Denied(st, ManageGuild)
    ensures ManageGuild in msg.perms && msg.mentionedChannels == [] ==> r == Step(st, [Reply(Usage(command))])
    ensures ManageGuild in msg.perms && msg.mentionedChannels != [] ==>
      var id := msg.mentionedChannels[0].id;
      && r.effects == [Persist(SettingsFile), Reply(Done(command))]
      && r.state == WithSettings(st, g, if apply then SettingsOf(st, g).(applyChannelId := Some(id)) else SettingsOf(st, g).(logChannelId := Some(id)))
  {
    if ManageGuild !in msg.perms then Denied(st, ManageGuild)
    else match First(msg.mentionedChannels)
      case None => Step(st, [Reply(Usage(command))])
      case Some(ch) =>
        var s := SettingsOf(st, g);
        var s' := if apply then s.(applyChannelId := Some(ch.id)) else s.(logChannelId := Some(ch.id));
        SaveSettings(st, g, s', command)
  }

  /** `,ticket_channel #channel`: stores the id of a text channel and posts the
      ticket panel there.  The post is not guarded, so when it fails the
      handler stops after the save and never confirms. */
  function TicketChannelCommand(st: BotState, msg: Message, g: GuildId): (r: Step)
    requires g in st.registry
    ensures Confined(st, r, g)
    ensures ManageGuild !in msg.perms ==> r == Denied(st, ManageGuild)
    ensures ManageGuild in msg.perms && msg.mentionedChannels == [] ==> r == Step(st, [Reply(Usage("ticket_channel"))])
    ensures ManageGuild in msg.perms && msg.mentionedChannels != [] && !msg.mentionedChannels[0].isText ==>
      r == Step(st, [Reply(NotTextChannel("ticket_channel"))])
    ensures ManageGuild in msg.perms && msg.mentionedChannels != [] && msg.mentionedChannels[0].isText ==>
      var id := msg.mentionedChannels[0].id;
      && r.state == WithSettings(st, g, SettingsOf(st, g).(ticketChannelId := Some(id)))
      && r.effects == if msg.platformOk then [Persist(SettingsFile), PostPanel(id, TicketPanel), Reply(Done("ticket_channel"))]
                      else [Persist(SettingsFile)]
  {
    if ManageGuild !in msg.perms then Denied(st, ManageGuild)
    else match First(msg.mentionedChannels)
      case None => Step(st, [Reply(Usage("ticket_channel"))])
      case Some(ch) =>
        if !ch.isText then Step(st, [Reply(NotTextChannel("ticket_channel"))])
        else
          var s := SettingsOf(st, g);
          var st' := WithSettings(st, g, s.(ticketChannelId := Some(ch.id)));
          if msg.platformOk then Step(st', [Persist(SettingsFile), PostPanel(ch.id, TicketPanel), Reply(Done("ticket_channel"))])
          else Step(st', [Persist(SettingsFile)])
  }

  /** `,apply_open` / `,apply_close`: sets the flag and saves; opening posts
      the application panel when the stored channel is a cached text
      channel.  That post is not guarded, so when it fails the handler stops
      after the save and never confirms. */
  function ApplicationsCommand(st: BotState, msg: Message, g: GuildId, open: bool): (r: Step)
    requires g in st.registry
    ensures Confined(st, r, g)
    ensures ManageGuild !in msg.perms ==> r == Denied(st, ManageGuild)
    ensures ManageGuild in msg.perms ==>
      && r.state == WithSettings(st, g, SettingsOf(st, g).(applicationsOpen := open))
      && |r.effects| >= 1 && r.effects[0] == Persist(SettingsFile)
      && (!open ==> r.effects == [Persist(SettingsFile), Reply(ApplicationsClosed)])
      && (open && !Truthy(SettingsOf(st, g).applyChannelId) ==> r.effects == [Persist(SettingsFile), Reply(ApplicationsOpenNoChannel)])
      && (open && Truthy(SettingsOf(st, g).applyChannelId) ==>
            var id := SettingsOf(st, g).applyChannelId.value;
            && (!(id in msg.channels && msg.channels[id]) ==> r.effects == [Persist(SettingsFile), Reply(ApplicationsOpened)])
            && (id in msg.channels && msg.channels[id] && msg.platformOk ==>
                  r.effects == [Persist(SettingsFile), PostPanel(id, ApplicationPanel), Reply(ApplicationsOpened)])
            && (id in msg.channels && msg.channels[id] && !msg.platformOk ==> r.effects == [Persist(SettingsFile)]))
      && (forall e :: e in r.effects && e.PostPanel? ==>
            open && msg.platformOk && e == PostPanel(SettingsOf(st, g).applyChannelId.value, ApplicationPanel)
            && SettingsOf(st, g).applyChannelId.value in msg.channels && msg.channels[SettingsOf(st, g).applyChannelId.value])
  {
    if ManageGuild !in msg.perms then Denied(st, ManageGuild)
    else
      var s := SettingsOf(st, g);
      var st' := WithSettings(st, g, s.(applicationsOpen := open));
      if !open then Step(st', [Persist(SettingsFile), Reply(ApplicationsClosed)])
      else if !Truthy(s.applyChannelId) then Step(st', [Persist(SettingsFile), Reply(ApplicationsOpenNoChannel)])
      else
        var id := s.applyChannelId.value;
        if !(id in msg.channels && msg.channels[id]) then Step(st', [Persist(SettingsFile), Reply(ApplicationsOpened)])
        else if msg.platformOk then Step(st', [Persist(SettingsFile), PostPanel(id, ApplicationPanel), Reply(ApplicationsOpened)])
        else Step(st', [Persist(SettingsFile)])
  }

  /** `,debug_apply`: the stored apply channel (when set) and the open flag. */
  function DebugApplyCommand(st: BotState, g: GuildId): (r: Step)
    requires g in st.registry
    ensures r.state == st
    ensures r.effects == [Reply(ApplyDebug(if Truthy(SettingsOf(st, g).applyChannelId) then SettingsOf(st, g).applyChannelId else None,
                                           SettingsOf(st, g).applicationsOpen))]
  {
    var s := SettingsOf(st, g);
    Step(st, [Reply(ApplyDebug(if Truthy(s.applyChannelId) then s.applyChannelId else None, s.applicationsOpen))])
  }

  /** `,ticket`: posts the ticket panel to the stored ticket channel, or to
      the current channel when none is stored. */
  function TicketCommand(st: BotState, msg: Message, g: GuildId): (r: Step)
    requires g in st.registry
    ensures r.state == st && |r.effects| <= 1
    ensures !Truthy(SettingsOf(st, g).ticketChannelId) ==>
      r.effects == if !msg.channel.isText then [Reply(TicketChannelInvalid)]
                   else if msg.platformOk then [PostPanel(msg.channel.id, TicketPanel)] else []
    ensures Truthy(SettingsOf(st, g).ticketChannelId) ==>
      var id := SettingsOf(st, g).ticketChannelId.value;
      r.effects == if !(id in msg.channels && msg.channels[id]) then [Reply(TicketChannelInvalid)]
                   else if msg.platformOk then [PostPanel(id, TicketPanel)] else []
  {
    var s := SettingsOf(st, g);
    var target := if Truthy(s.ticketChannelId) then
        (if s.ticketChannelId.value in msg.channels then Some(Channel(s.ticketChannelId.value, msg.channels[s.ticketChannelId.value])) else None)
      else Some(msg.channel);
    match target
    case Some(ch) =>
      if !ch.isText then Step(st, [Reply(TicketChannelInvalid)])
      else if msg.platformOk then Step(st, [PostPanel(ch.id, TicketPanel)])
      else Step(st, [])
    case None => Step(st, [Reply(TicketChannelInvalid)])
  }

  // ------------------------------------------------ the warning commands

  /** `,warn remove @user [n]`: the amount must be positive; the ledger entry
      drops by it (not below zero) and records it; the result is saved and
      reported to the member and in the channel. */
  function WarnRemoveCommand(st: BotState, msg: Message, g: GuildId, t: Member, args: seq<string>): (r: Step)
    ensures Confined(st, r, g)
    ensures RemoveAmount(args) == 0 ==> r == Step(st, [Reply(Usage("warn remove"))])
    ensures RemoveAmount(args) > 0 ==>
      var n := RemoveAmount(args);
      var ledger := WarnRemove(st.ledger, g, t.id, msg.author.id, n, msg.now);
      var total := ledger[WarnKey(g, t.id)].count;
      && r.state == st.(ledger := ledger)
      && r.effects == [Persist(WarningsFile), DirectMessage(t.id, WarnsReducedNote(n, total)), Reply(WarnsRemoved(n, total))]
  {
    var n := RemoveAmount(args);
    if n == 0 then Step(st, [Reply(Usage("warn remove"))])
    else
      var ledger := WarnRemove(st.ledger, g, t.id, msg.author.id, n, msg.now);
      var total := ledger[WarnKey(g, t.id)].count;
      Step(st.(ledger := ledger), [Persist(WarningsFile), DirectMessage(t.id, WarnsReducedNote(n, total)), Reply(WarnsRemoved(n, total))])
  }

  /** The reason of `,warn`: every argument (the mention included), or a
      default. */
  function WarnReason(args: seq<string>): string {
    OrDefault(Join(args), "No reason provided.")
  }

  /** `,warn @user [reason]` as the source is written: the increment is saved,
      then the call to `checkWarnThresholds`, a name the module never imports,
      throws, so nothing after the save happens. */
  function WarnAddAsWritten(st: BotState, msg: Message, g: GuildId, t: Member, args: seq<string>): (r: Step)
    ensures r.state == st.(ledger := WarnAdd(st.ledger, g, t.id, msg.author.id, WarnReason(args), msg.now))
    ensures r.effects == [Persist(WarningsFile)]
  {
    Step(st.(ledger := WarnAdd(st.ledger, g, t.id, msg.author.id, WarnReason(args), msg.now)), [Persist(WarningsFile)])
  }

  /** `,warn @user [reason]` as intended: the increment is saved, the guild's
      thresholds are checked against the new count, then the member is told
      and the channel gets the new total. */
  function WarnAddCommand(st: BotState, msg: Message, g: GuildId, t: Member, args: seq<string>): (r: Step)
    requires g in st.registry
    ensures Confined(st, r, g)
    ensures var ledger := WarnAdd(st.ledger, g, t.id, msg.author.id, WarnReason(args), msg.now);
      var total := ledger[WarnKey(g, t.id)].count;
      && r.state == st.(ledger := ledger)
      && r.effects == [Persist(WarningsFile)] + CheckWarnThresholds(st.registry, g, t.id, total).effects
                      + [DirectMessage(t.id, WarnedNote(WarnReason(args), total)), Reply(Warned(total))]
  {
    var reason := WarnReason(args);
    var ledger := WarnAdd(st.ledger, g, t.id, msg.author.id, reason, msg.now);
    var total := ledger[WarnKey(g, t.id)].count;
    var fired := CheckWarnThresholds(st.registry, g, t.id, total);
    Step(st.(ledger := ledger), [Persist(WarningsFile)] + fired.effects + [DirectMessage(t.id, WarnedNote(reason, total)), Reply(Warned(total))])
  }

  /** `,warn`: Timeout Members, a mentioned member, then remove or add. */
  function WarnCommand(st: BotState, msg: Message, g: GuildId, args: seq<string>): (r: Step)
    requires g in st.registry
    ensures Confined(st, r, g)
    ensures ModerateMembers !in msg.perms ==> r == Denied(st, ModerateMembers)
    ensures ModerateMembers in msg.perms && msg.mentionedMembers == [] ==> r == Step(st, [Reply(Usage("warn"))])
    ensures ModerateMembers in msg.perms && msg.mentionedMembers != [] ==>
      r == if Arg(args, 0) == Some("remove") then WarnRemoveCommand(st, msg, g, msg.mentionedMembers[0], args)
           else WarnAddCommand(st, msg, g, msg.mentionedMembers[0], args)
  {
    if ModerateMembers !in msg.perms then Denied(st, ModerateMembers)
    else match First(msg.mentionedMembers)
      case None => Step(st, [Reply(Usage("warn"))])
      case Some(t) =>
        if Arg(args, 0) == Some("remove") then WarnRemoveCommand(st, msg, g, t, args)
        else WarnAddCommand(st, msg, g, t, args)
  }

  /** `,warnings [@user]`: reads the count of the mentioned member or of the
      author.  The lookup creates a zero record when there is none, and that
      record is not saved. */
  function WarningsCommand(st: BotState, msg: Message, g: GuildId): (r: Step)
    ensures NoAutoresponse(r.effects)
    ensures var u := if msg.mentionedMembers != [] then msg.mentionedMembers[0].id else msg.author.id;
      var a := GetWarningData(st.ledger, g, u);
      && r.state == st.(ledger := a.ledger)
      && r.effects == [Reply(if a.record.count == 0 then NoWarnings(u) else WarnCount(u, a.record.count))]
  {
    var u := if msg.mentionedMembers != [] then msg.mentionedMembers[0].id else msg.author.id;
    var a := GetWarningData(st.ledger, g, u);
    Step(st.(ledger := a.ledger), [Reply(if a.record.count == 0 then NoWarnings(u) else WarnCount(u, a.record.count))])
  }

  /** `,clearwarns @user`. */
  function ClearWarnsCommand(st: BotState, msg: Message, g: GuildId): (r: Step)
    ensures Confined(st, r, g)
    ensures ModerateMembers !in msg.perms ==> r == Denied(st, ModerateMembers)
    ensures ModerateMembers in msg.perms && msg.mentionedMembers == [] ==> r == Step(st, [Reply(Usage("clearwarns"))])
    ensures ModerateMembers in msg.perms && msg.mentionedMembers != [] ==>
      var t := msg.mentionedMembers[0];
      && r.state == st.(ledger := ClearWarns(st.ledger, g, t.id, msg.author.id, msg.now))
      && r.effects == [Persist(WarningsFile), DirectMessage(t.id, WarnsClearedNote), Reply(Done("clearwarns"))]
  {
    if ModerateMembers !in msg.perms then Denied(st, ModerateMembers)
    else match First(msg.mentionedMembers)
      case None => Step(st, [Reply(Usage("clearwarns"))])
      case Some(t) =>
        Step(st.(ledger := ClearWarns(st.ledger, g, t.id, msg.author.id, msg.now)),
             [Persist(WarningsFile), DirectMessage(t.id, WarnsClearedNote), Reply(Done("clearwarns"))])
  }

  // ------------------------------------------------ autoresponder commands

  /** The reply of `,autoresponder list`: every rule's trigger and response,
      in list order, or the "none set" reply. */
  function ListReply(rules: seq<DynamicRule>): (e: Effect)
    ensures rules == [] ==> e == Reply(NoAutoresponders)
    ensures rules != [] ==>
      && e.SendReply? && e.reply.AutoresponderList? && |e.reply.rules| == |rules|
      && forall i :: 0 <= i < |rules| ==> e.reply.rules[i] == (rules[i].trigger, rules[i].response)
  {
    if rules == [] then Reply(NoAutoresponders)
    else Reply(AutoresponderList(seq(|rules|, i requires 0 <= i < |rules| => (rules[i].trigger, rules[i].response))))
  }

  /** The sub-command word of `,autoresponder`, lowercased ("" when absent). */
  function SubCommand(args: seq<string>): string {
    Lower(if |args| > 0 then args[0] else "")
  }

  /** `,autoresponder add/remove/list`: Manage Messages, then the sub-command
      (lowercased). */
  function AutoresponderCommand(st: BotState, msg: Message, args: seq<string>): (r: Step)
    ensures NoAutoresponse(r.effects)
    ensures ManageMessages !in msg.perms ==> r == Denied(st, ManageMessages)
    ensures r.state.ledger == st.ledger && r.state.registry == st.registry && r.state.afk == st.afk
    ensures r.state.rules != st.rules ==> Persist(AutorespondersFile) in r.effects
    ensures Normalised(st.rules) ==> Normalised(r.state.rules)
    ensures ManageMessages in msg.perms && Arg(args, 0).Some? && Lower(args[0]) == "add" && |args| >= 3 && args[1] != [] && Join(args[2..]) != [] ==>
      r == Step(st.(rules := AddRule(st.rules, args[1], Join(args[2..]))), [Persist(AutorespondersFile), Reply(Done("autoresponder add"))])
    ensures ManageMessages in msg.perms && Arg(args, 0).Some? && Lower(args[0]) == "remove" && |args| >= 2 && args[1] != [] ==>
      r == match RemoveRule(st.rules, args[1])
           case None => Step(st, [Reply(NoSuchAutoresponder)])
           case Some(rules) => Step(st.(rules := rules), [Persist(AutorespondersFile), Reply(Done("autoresponder remove"))])
    ensures ManageMessages in msg.perms && SubCommand(args) == "add" && !(|args| >= 3 && args[1] != [] && Join(args[2..]) != []) ==>
      r == Step(st, [Reply(Usage("autoresponder add"))])
    ensures ManageMessages in msg.perms && SubCommand(args) == "remove" && (|args| < 2 || args[1] == []) ==>
      r == Step(st, [Reply(Usage("autoresponder remove"))])
    ensures ManageMessages in msg.perms && SubCommand(args) == "list" ==> r == Step(st, [ListReply(st.rules)])
    ensures ManageMessages in msg.perms && SubCommand(args) != "add" && SubCommand(args) != "remove" && SubCommand(args) != "list" ==>
      r == Step(st, [Reply(Usage("autoresponder"))])
  {
    if ManageMessages !in msg.perms then Denied(st, ManageMessages)
    else
      var sub := SubCommand(args);
      var rest := Drop(args, 1);
      if sub == "add" then
        var response := Join(Drop(rest, 1));
        match First(rest)
        case None => Step(st, [Reply(Usage("autoresponder add"))])
        case Some(trigger) =>
          if trigger == [] || response == [] then Step(st, [Reply(Usage("autoresponder add"))])
          else Step(st.(rules := AddRule(st.rules, trigger, response)), [Persist(AutorespondersFile), Reply(Done("autoresponder add"))])
      else if sub == "remove" then
        match First(rest)
        case None => Step(st, [Reply(Usage("autoresponder remove"))])
        case Some(trigger) =>
          if trigger == [] then Step(st, [Reply(Usage("autoresponder remove"))])
          else match RemoveRule(st.rules, trigger)
          case None => Step(st, [Reply(NoSuchAutoresponder)])
          case Some(rules) => Step(st.(rules := rules), [Persist(AutorespondersFile), Reply(Done("autoresponder remove"))])
      else if sub == "list" then Step(st, [ListReply(st.rules)])
      else Step(st, [Reply(Usage("autoresponder"))])
  }

  // ------------------------------------------------ moderation commands

  /** `,afk [reason]`: records the author as away since now. */
  function AfkCommand(st: BotState, msg: Message, args: seq<string>): (r: Step)
    ensures msg.author.id in r.state.afk && r.state.afk[msg.author.id] == AfkEntry(OrDefault(Join(args), "AFK"), msg.now)
    ensures r.state == st.(afk := st.afk[msg.author.id := AfkEntry(OrDefault(Join(args), "AFK"), msg.now)])
    ensures r.effects == [Reply(NowAfk(OrDefault(Join(args), "AFK")))]
  {
    var reason := OrDefault(Join(args), "AFK");
    Step(st.(afk := st.afk[msg.author.id := AfkEntry(reason, msg.now)]), [Reply(NowAfk(reason))])
  }

  /** What `,kick` does to the mentioned member `t`: tell them the reason,
      then kick them and log it, or report the failure. */
  function KickEffects(t: UserId, reason: string, ok: bool, log: seq<Effect>): (effs: seq<Effect>)
    requires forall e :: e in log ==> e.LogLine?
    ensures NoAutoresponse(effs)
    ensures |effs| >= 2 && effs[0] == DirectMessage(t, KickedNote(reason))
    ensures Kick(t, reason) in effs <==> ok
    ensures effs[|effs| - 1] == Reply(if ok then Done("kick") else Failed("kick"))
    ensures ok ==> |effs| >= 3 && effs[1] == Kick(t, reason) && effs[2..|effs| - 1] == log
    ensures forall e :: e in effs && e.Kick? ==> ok && e == Kick(t, reason)
    ensures forall e :: e in effs && e.LogLine? ==> ok && e in log
  {
    var dm := DirectMessage(t, KickedNote(reason));
    if ok then [dm, Kick(t, reason)] + log + [Reply(Done("kick"))]
    else [dm, Reply(Failed("kick"))]
  }

  /** `,kick @user [reason]`. */
  function KickCommand(st: BotState, msg: Message, g: GuildId, args: seq<string>): (r: Step)
    requires g in st.registry
    ensures Confined(st, r, g)
    ensures r.state == st
    ensures KickMembers !in msg.perms ==> r == Denied(st, KickMembers)
    ensures KickMembers in msg.perms && msg.mentionedMembers == [] ==> r.effects == [Reply(Usage("kick"))]
    ensures KickMembers in msg.perms && msg.mentionedMembers != [] ==>
      var t := msg.mentionedMembers[0].id;
      var reason := OrDefault(Join(Drop(args, 1)), "No reason provided.");
      && |r.effects| >= 2 && r.effects[0] == DirectMessage(t, KickedNote(reason))
      && (Kick(t, reason) in r.effects <==> msg.platformOk)
      && r.effects[|r.effects| - 1] == Reply(if msg.platformOk then Done("kick") else Failed("kick"))
      && (msg.platformOk ==> |r.effects| >= 3 && r.effects[2..|r.effects| - 1] == LogLines(st, msg, g, KickLogged(t, reason)))
    ensures forall e :: e in r.effects && e.Kick? ==>
      && KickMembers in msg.perms && msg.mentionedMembers != [] && msg.platformOk
      && e == Kick(msg.mentionedMembers[0].id, OrDefault(Join(Drop(args, 1)), "No reason provided."))
    ensures forall e :: e in r.effects && e.LogLine? ==>
      && KickMembers in msg.perms && msg.mentionedMembers != [] && msg.platformOk
      && e in LogLines(st, msg, g, KickLogged(msg.mentionedMembers[0].id, OrDefault(Join(Drop(args, 1)), "No reason provided.")))
  {
    if KickMembers !in msg.perms then Denied(st, KickMembers)
    else
      var reason := OrDefault(Join(Drop(args, 1)), "No reason provided.");
      match First(msg.mentionedMembers)
      case None => Step(st, [Reply(Usage("kick"))])
      case Some(t) => Step(st, KickEffects(t.id, reason, msg.platformOk, LogLines(st, msg, g, KickLogged(t.id, reason))))
  }

  /** What `,damage` does to the mentioned member `t` for `ms` milliseconds:
      tell them, then time them out, confirm and log it, or report the
      failure. */
  function DamageEffects(t: UserId, ms: nat, ok: bool, log: seq<Effect>): (effs: seq<Effect>)
    requires forall e :: e in log ==> e.LogLine?
    ensures NoAutoresponse(effs)
    ensures |effs| >= 2 && effs[0] == DirectMessage(t, TimedOutNote(RoundMinutes(ms)))
    ensures Timeout(t, Some(ms)) in effs <==> ok
    ensures ok ==> |effs| >= 3 && effs[2] == Reply(TimedOut(t, RoundMinutes(ms)))
    ensures !ok ==> effs[1..] == [Reply(Failed("damage"))]
    ensures ok ==> effs[3..] == log
    ensures forall e :: e in effs && e.Timeout? ==> ok && e == Timeout(t, Some(ms))
    ensures forall e :: e in effs && e.LogLine? ==> ok && e in log
  {
    var mins := RoundMinutes(ms);
    var dm := DirectMessage(t, TimedOutNote(mins));
    if ok then [dm, Timeout(t, Some(ms)), Reply(TimedOut(t, mins))] + log
    else [dm, Reply(Failed("damage"))]
  }

  /** `,damage @user [time]`: times the member out for the parsed duration,
      ten minutes by default. */
  function DamageCommand(st: BotState, msg: Message, g: GuildId, args: seq<string>): (r: Step)
    requires g in st.registry
    ensures Confined(st, r, g)
    ensures r.state == st
    ensures ModerateMembers !in msg.perms ==> r == Denied(st, ModerateMembers)
    ensures ModerateMembers in msg.perms && msg.mentionedMembers == [] ==> r.effects == [Reply(Usage("damage"))]
    ensures ModerateMembers in msg.perms && msg.mentionedMembers != [] ==>
      var t := msg.mentionedMembers[0].id;
      var minutes := RoundMinutes(DamageMs(args));
      && |r.effects| >= 2 && r.effects[0] == DirectMessage(t, TimedOutNote(minutes))
      && (Timeout(t, Some(DamageMs(args))) in r.effects <==> msg.platformOk)
      && (msg.platformOk ==> |r.effects| >= 3 && r.effects[2] == Reply(TimedOut(t, minutes)))
      && (!msg.platformOk ==> r.effects[1..] == [Reply(Failed("damage"))])
      && (msg.platformOk ==> r.effects[3..] == LogLines(st, msg, g, TimeoutLogged(t, minutes)))
    ensures forall e :: e in r.effects && e.Timeout? ==>
      && ModerateMembers in msg.perms && msg.mentionedMembers != [] && msg.platformOk
      && e == Timeout(msg.mentionedMembers[0].id, Some(DamageMs(args)))
    ensures forall e :: e in r.effects && e.LogLine? ==>
      && ModerateMembers in msg.perms && msg.mentionedMembers != [] && msg.platformOk
      && e in LogLines(st, msg, g, TimeoutLogged(msg.mentionedMembers[0].id, RoundMinutes(DamageMs(args))))
  {
    if ModerateMembers !in msg.perms then Denied(st, ModerateMembers)
    else match First(msg.mentionedMembers)
      case None => Step(st, [Reply(Usage("damage"))])
      case Some(t) =>
        var ms := DamageMs(args);
        Step(st, DamageEffects(t.id, ms, msg.platformOk, LogLines(st, msg, g, TimeoutLogged(t.id, RoundMinutes(ms)))))
  }

  /** `,dm @user <text>`: Administrator only. */
  function DmCommand(st: BotState, msg: Message, args: seq<string>): (r: Step)
    ensures NoAutoresponse(r.effects)
    ensures r.state == st
    ensures Administrator !in msg.perms ==> r == Denied(st, Administrator)
    ensures Administrator in msg.perms && (msg.mentionedUsers == [] || Join(Drop(args, 1)) == []) ==>
      r.effects == [Reply(Usage("dm"))]
    ensures Administrator in msg.perms && msg.mentionedUsers != [] && Join(Drop(args, 1)) != [] ==>
      r.effects == if msg.platformOk
        then [DirectMessage(msg.mentionedUsers[0].id, RelayedText(Join(Drop(args, 1)))), Reply(Done("dm"))]
        else [Reply(Failed("dm"))]
    ensures forall e :: e in r.effects && e.DirectMessage? ==>
      Administrator in msg.perms && msg.mentionedUsers != [] && Join(Drop(args, 1)) != [] && msg.platformOk
  {
    if Administrator !in msg.perms then Denied(st, Administrator)
    else match First(msg.mentionedUsers)
      case None => Step(st, [Reply(Usage("dm"))])
      case Some(t) =>
        var text := Join(Drop(args, 1));
        if text == [] then Step(st, [Reply(Usage("dm"))])
        else if msg.platformOk then Step(st, [DirectMessage(t.id, RelayedText(text)), Reply(Done("dm"))])
        else Step(st, [Reply(Failed("dm"))])
  }

  /** What `,heal` does to the mentioned member `t`: tell them, then lift
      the timeout, confirm and log it, or report the failure. */
  function HealEffects(t: UserId, ok: bool, log: seq<Effect>): (effs: seq<Effect>)
    requires forall e :: e in log ==> e.LogLine?
    ensures NoAutoresponse(effs)
    ensures |effs| >= 2 && effs[0] == DirectMessage(t, HealedNote)
    ensures ClearTimeout(t) in effs <==> ok
    ensures ok ==> |effs| >= 3 && effs[2] == Reply(Done("heal"))
    ensures !ok ==> effs[1..] == [Reply(Failed("heal"))]
    ensures ok ==> effs[3..] == log
    ensures forall e :: e in effs && e.ClearTimeout? ==> ok && e.user == t
    ensures forall e :: e in effs && e.LogLine? ==> ok && e in log
  {
    var dm := DirectMessage(t, HealedNote);
    if ok then [dm, ClearTimeout(t), Reply(Done("heal"))] + log
    else [dm, Reply(Failed("heal"))]
  }

  /** `,heal @user`: removes a timeout. */
  function HealCommand(st: BotState, msg: Message, g: GuildId): (r: Step)
    requires g in st.registry
    ensures Confined(st, r, g)
    ensures r.state == st
    ensures ModerateMembers !in msg.perms ==> r == Denied(st, ModerateMembers)
    ensures ModerateMembers in msg.perms && msg.mentionedMembers == [] ==> r.effects == [Reply(Usage("heal"))]
    ensures ModerateMembers in msg.perms && msg.mentionedMembers != [] ==>
      var t := msg.mentionedMembers[0].id;
      && |r.effects| >= 2 && r.effects[0] == DirectMessage(t, HealedNote)
      && (ClearTimeout(t) in r.effects <==> msg.platformOk)
      && (msg.platformOk ==> |r.effects| >= 3 && r.effects[2] == Reply(Done("heal")))
      && (!msg.platformOk ==> r.effects[1..] == [Reply(Failed("heal"))])
      && (msg.platformOk ==> r.effects[3..] == LogLines(st, msg, g, HealLogged(t)))
    ensures forall e :: e in r.effects && e.ClearTimeout? ==>
      ModerateMembers in msg.perms && msg.mentionedMembers != [] && msg.platformOk && e.user == msg.mentionedMembers[0].id
    ensures forall e :: e in r.effects && e.LogLine? ==>
      && ModerateMembers in msg.perms && msg.mentionedMembers != [] && msg.platformOk
      && e in LogLines(st, msg, g, HealLogged(msg.mentionedMembers[0].id))
  {
    if ModerateMembers !in msg.perms then Denied(st, ModerateMembers)
    else match First(msg.mentionedMembers)
      case None => Step(st, [Reply(Usage("heal"))])
      case Some(t) => Step(st, HealEffects(t.id, msg.platformOk, LogLines(st, msg, g, HealLogged(t.id))))
  }

  /** `,role add|remove ...`: Manage Roles and a valid sub-command; resolving
      the member and the role by name is left to the platform. */
  function RoleCommand(st: BotState, msg: Message, args: seq<string>): (r: Step)
    ensures NoAutoresponse(r.effects)
    ensures r.state == st
    ensures ManageRoles !in msg.perms ==> r == Denied(st, ManageRoles)
    ensures ManageRoles in msg.perms ==>
      (r.effects == [Delegated("role")] <==> Lower(if |args| > 0 then args[0] else "") in {"add", "remove"})
  {
    if ManageRoles !in msg.perms then Denied(st, ManageRoles)
    else
      var action := Lower(if |args| > 0 then args[0] else "");
      if action == "add" || action == "remove" then Step(st, [Delegated("role")])
      else Step(st, [Reply(Usage("role"))])
  }

  /** The channel a channel command acts on: the first mentioned one, or the
      one the message was sent in. */
  function TargetChannel(msg: Message): Channel {
    if msg.mentionedChannels != [] then msg.mentionedChannels[0] else msg.channel
  }

  /** The amount argument of `,slowmode`: the first argument, or the second
      when a channel is mentioned. */
  function SlowmodeAmount(msg: Message, args: seq<string>): Option<string> {
    Arg(args, if msg.mentionedChannels != [] then 1 else 0)
  }

  /** What `,slowmode` does once the permission is granted, for the target
      channel, the amount argument and the platform outcome. */
  function SlowmodeEffects(target: Channel, amount: Option<string>, ok: bool): (effs: seq<Effect>)
    ensures !target.isText ==> effs == [Reply(NotTextChannel("slowmode"))]
    ensures target.isText && amount.None? ==> effs == [Reply(Usage("slowmode"))]
    ensures target.isText && amount.Some? ==>
      var seconds := SlowmodeSeconds(amount.value);
      && (seconds.None? ==> effs == [Reply(OutOfRange("slowmode"))])
      && (seconds.Some? && ok ==>
            effs == [SetSlowmode(target.id, seconds.value), Reply(if seconds.value == 0 then SlowmodeOff else SlowmodeSet(seconds.value))])
      && (seconds.Some? && !ok ==> effs == [Reply(Failed("slowmode"))])
    ensures forall e :: e in effs && e.SetSlowmode? ==>
      && target.isText && ok && amount.Some? && SlowmodeSeconds(amount.value) == Some(e.seconds)
      && e.channel == target.id && 0 <= e.seconds <= MaxSlowmode
  {
    if !target.isText then [Reply(NotTextChannel("slowmode"))]
    else
      match amount
      case None => [Reply(Usage("slowmode"))]
      case Some(a) =>
        match SlowmodeSeconds(a)
        case None => [Reply(OutOfRange("slowmode"))]
        case Some(seconds) =>
          if ok then [SetSlowmode(target.id, seconds), Reply(if seconds == 0 then SlowmodeOff else SlowmodeSet(seconds))]
          else [Reply(Failed("slowmode"))]
  }

  /** `,slowmode [#channel] <seconds|off>`. */
  function SlowmodeCommand(st: BotState, msg: Message, args: seq<string>): (r: Step)
    ensures NoAutoresponse(r.effects)
    ensures r.state == st
    ensures ManageChannels !in msg.perms ==> r == Denied(st, ManageChannels)
    ensures ManageChannels in msg.perms && !TargetChannel(msg).isText ==> r.effects == [Reply(NotTextChannel("slowmode"))]
    ensures ManageChannels in msg.perms && TargetChannel(msg).isText && SlowmodeAmount(msg, args).None? ==>
      r.effects == [Reply(Usage("slowmode"))]
    ensures ManageChannels in msg.perms && TargetChannel(msg).isText && SlowmodeAmount(msg, args).Some? ==>
      var seconds := SlowmodeSeconds(SlowmodeAmount(msg, args).value);
      && (seconds.None? ==> r.effects == [Reply(OutOfRange("slowmode"))])
      && (seconds.Some? && msg.platformOk ==>
            r.effects == [SetSlowmode(TargetChannel(msg).id, seconds.value),
                          Reply(if seconds.value == 0 then SlowmodeOff else SlowmodeSet(seconds.value))])
      && (seconds.Some? && !msg.platformOk ==> r.effects == [Reply(Failed("slowmode"))])
    ensures forall e :: e in r.effects && e.SetSlowmode? ==>
      && ManageChannels in msg.perms && TargetChannel(msg).isText && msg.platformOk
      && SlowmodeAmount(msg, args).Some? && SlowmodeSeconds(SlowmodeAmount(msg, args).value) == Some(e.seconds)
      && e.channel == TargetChannel(msg).id
      && 0 <= e.seconds <= MaxSlowmode
  {
    if ManageChannels !in msg.perms then Denied(st, ManageChannels)
    else Step(st, SlowmodeEffects(TargetChannel(msg), SlowmodeAmount(msg, args), msg.platformOk))
  }

  /** The lock reason: the words after the mentioned channel (all words when
      the target is the current channel), or "Channel locked". */
  function LockReason(msg: Message, args: seq<string>): string {
    OrDefault(Join(Drop(args, if TargetChannel(msg).id == msg.channel.id then 0 else 1)), "Channel locked")
  }

  /** The moderation-log entry of `,lock` (with its reason) or `,unlock`,
      naming the target channel. */
  function LockEntry(msg: Message, args: seq<string>, lock: bool): LogEntry {
    if lock then LockLogged(TargetChannel(msg).id, LockReason(msg, args)) else UnlockLogged(TargetChannel(msg).id)
  }

  /** What `,lock` (when `lock`) or `,unlock` does to the target channel
      once the permission is granted. */
  function LockEffects(target: Channel, reason: string, lock: bool, ok: bool, log: seq<Effect>): (effs: seq<Effect>)
    requires forall e :: e in log ==> e.LogLine?
    ensures NoAutoresponse(effs)
    ensures !target.isText ==> effs == [Reply(NotTextChannel(if lock then "lock" else "unlock"))]
    ensures target.isText && !ok ==> effs == [Reply(Failed(if lock then "lock" else "unlock"))]
    ensures target.isText && ok ==>
      && |effs| >= 2
      && effs[0] == (if lock then LockChannel(target.id, reason) else UnlockChannel(target.id))
      && effs[1] == Reply(Done(if lock then "lock" else "unlock"))
      && effs[2..] == log
    ensures forall e :: e in effs && (e.LockChannel? || e.UnlockChannel?) ==>
      && target.isText && ok && e.channel == target.id
      && (e.LockChannel? <==> lock)
      && (e.LockChannel? ==> e.reason == reason)
    ensures forall e :: e in effs && e.LogLine? ==> target.isText && ok && e in log
  {
    var name := if lock then "lock" else "unlock";
    if !target.isText then [Reply(NotTextChannel(name))]
    else if !ok then [Reply(Failed(name))]
    else if lock then [LockChannel(target.id, reason), Reply(Done(name))] + log
    else [UnlockChannel(target.id), Reply(Done(name))] + log
  }

  /** `,lock [#channel] [reason]` and `,unlock [#channel]`. */
  function LockCommand(st: BotState, msg: Message, g: GuildId, args: seq<string>, lock: bool): (r: Step)
    requires g in st.registry
    ensures Confined(st, r, g)
    ensures r.state == st
    ensures ManageChannels !in msg.perms ==> r == Denied(st, ManageChannels)
    ensures ManageChannels in msg.perms && !TargetChannel(msg).isText ==>
      r.effects == [Reply(NotTextChannel(if lock then "lock" else "unlock"))]
    ensures ManageChannels in msg.perms && TargetChannel(msg).isText && !msg.platformOk ==>
      r.effects == [Reply(Failed(if lock then "lock" else "unlock"))]
    ensures ManageChannels in msg.perms && TargetChannel(msg).isText && msg.platformOk ==>
      && |r.effects| >= 2
      && r.effects[0] == (if lock then LockChannel(TargetChannel(msg).id, LockReason(msg, args)) else UnlockChannel(TargetChannel(msg).id))
      && r.effects[1] == Reply(Done(if lock then "lock" else "unlock"))
      && r.effects[2..] == LogLines(st, msg, g, LockEntry(msg, args, lock))
    ensures forall e :: e in r.effects && (e.LockChannel? || e.UnlockChannel?) ==>
      && ManageChannels in msg.perms && TargetChannel(msg).isText && msg.platformOk
      && e.channel == TargetChannel(msg).id
      && (e.LockChannel? <==> lock)
      && (e.LockChannel? ==> e.reason == LockReason(msg, args))
    ensures forall e :: e in r.effects && e.LogLine? ==>
      && ManageChannels in msg.perms && TargetChannel(msg).isText && msg.platformOk
      && e in LogLines(st, msg, g, LockEntry(msg, args, lock))
  {
    if ManageChannels !in msg.perms then Denied(st, ManageChannels)
    else
      var target := TargetChannel(msg);
      var reason := LockReason(msg, args);
      var log := LogLines(st, msg, g, LockEntry(msg, args, lock));
      Step(st, LockEffects(target, reason, lock, msg.platformOk, log))
  }

  /** What `,clear` does with an accepted amount (or none): delete that many
      messages plus the command itself, or show the usage or the failure. */
  function ClearEffects(amount: Option<int>, ok: bool): (effs: seq<Effect>)
    requires amount.Some? ==> 1 <= amount.value <= 100
    ensures amount.None? ==> effs == [Reply(Usage("clear"))]
    ensures amount.Some? ==>
      effs == if ok then [BulkDelete(amount.value + 1), ClearedNotice(amount.value)] else [Reply(Failed("clear"))]
    ensures forall e :: e in effs && e.BulkDelete? ==> ok && amount.Some? && e.count == amount.value + 1 && 2 <= e.count <= 101
    ensures NoAutoresponse(effs)
  {
    match amount
    case None => [Reply(Usage("clear"))]
    case Some(a) => if ok then [BulkDelete(a + 1), ClearedNotice(a)] else [Reply(Failed("clear"))]
  }

  /** `,clear <amount>`: deletes the amount plus the command message itself. */
  function ClearCommand(st: BotState, msg: Message, args: seq<string>): (r: Step)
    ensures NoAutoresponse(r.effects)
    ensures r.state == st
    ensures ManageMessages !in msg.perms ==> r == Denied(st, ManageMessages)
    ensures ManageMessages in msg.perms && ClearAmount(Arg(args, 0)).None? ==> r.effects == [Reply(Usage("clear"))]
    ensures ManageMessages in msg.perms && ClearAmount(Arg(args, 0)).Some? ==>
      var amount := ClearAmount(Arg(args, 0)).value;
      r.effects == if msg.platformOk then [BulkDelete(amount + 1), ClearedNotice(amount)] else [Reply(Failed("clear"))]
    ensures forall e :: e in r.effects && e.BulkDelete? ==>
      && ManageMessages in msg.perms && msg.platformOk
      && ClearAmount(Arg(args, 0)).Some? && e.count == ClearAmount(Arg(args, 0)).value + 1
      && 2 <= e.count <= 101
  {
    if ManageMessages !in msg.perms then Denied(st, ManageMessages)
    else Step(st, ClearEffects(ClearAmount(Arg(args, 0)), msg.platformOk))
  }

  /** `,nick @user <nickname>`. */
  function NickCommand(st: BotState, msg: Message, args: seq<string>): (r: Step)
    ensures NoAutoresponse(r.effects)
    ensures r.state == st
    ensures ManageNicknames !in msg.perms ==> r == Denied(st, ManageNicknames)
    ensures ManageNicknames in msg.perms && (msg.mentionedMembers == [] || Join(Drop(args, 1)) == []) ==>
      r.effects == [Reply(Usage("nick"))]
    ensures ManageNicknames in msg.perms && msg.mentionedMembers != [] && Join(Drop(args, 1)) != [] ==>
      r.effects == if msg.platformOk
        then [SetNickname(msg.mentionedMembers[0].id, Join(Drop(args, 1))), Reply(Done("nick"))]
        else [Reply(Failed("nick"))]
    ensures forall e :: e in r.effects && e.SetNickname? ==>
      && ManageNicknames in msg.perms && msg.mentionedMembers != [] && msg.platformOk
      && e == SetNickname(msg.mentionedMembers[0].id, Join(Drop(args, 1)))
      && Join(Drop(args, 1)) != []
  {
    if ManageNicknames !in msg.perms then Denied(st, ManageNicknames)
    else match First(msg.mentionedMembers)
      case None => Step(st, [Reply(Usage("nick"))])
      case Some(t) =>
        var nick := Join(Drop(args, 1));
        if nick == [] then Step(st, [Reply(Usage("nick"))])
        else if msg.platformOk then Step(st, [SetNickname(t.id, nick), Reply(Done("nick"))])
        else Step(st, [Reply(Failed("nick"))])
  }

  // ------------------------------------------------------------ dispatch

  /** The commands that read or change the guild's settings record. */
  const SettingsCommands: set<string> := {
    "nicklock", "nickunlock", "warnthreshold", "log_channel", "ticket_channel", "apply_channel",
    "apply_open", "apply_close", "debug_apply", "ticket"}

  /** The commands that change the warning ledger, the autoresponder list or
      the AFK map. */
  const RecordCommands: set<string> := {"warn", "warnings", "clearwarns", "autoresponder", "afk"}

  /** The commands that only act on the platform. */
  const ModerationCommands: set<string> := {
    "boosterrole", "kick", "damage", "dm", "heal", "role", "ban", "slowmode", "lock", "unlock", "clear", "nick"}

  /** The names the dispatcher recognises. */
  const CommandNames: set<string> := SettingsCommands + RecordCommands + ModerationCommands

  function SettingsDispatch(st: BotState, msg: Message, g: GuildId, c: Command): (r: Step)
    requires g in st.registry && c.name in SettingsCommands
    ensures Confined(st, r, g)
    ensures r.state.ledger == st.ledger && r.state.rules == st.rules && r.state.afk == st.afk
    ensures c.name == "nicklock" ==> r == NickLockCommand(st, msg, g)
    ensures c.name == "nickunlock" ==> r == NickUnlockCommand(st, msg, g)
    ensures c.name == "warnthreshold" ==> r == WarnThresholdCommand(st, g, c.args)
    ensures c.name == "log_channel" ==> r == ChannelSetting(st, msg, g, "log_channel", false)
    ensures c.name == "ticket_channel" ==> r == TicketChannelCommand(st, msg, g)
    ensures c.name == "apply_channel" ==> r == ChannelSetting(st, msg, g, "apply_channel", true)
    ensures c.name == "apply_open" ==> r == ApplicationsCommand(st, msg, g, true)
    ensures c.name == "apply_close" ==> r == ApplicationsCommand(st, msg, g, false)
    ensures c.name == "debug_apply" ==> r == DebugApplyCommand(st, g)
    ensures c.name == "ticket" ==> r == TicketCommand(st, msg, g)
  {
    match c.name
    case "nicklock" => NickLockCommand(st, msg, g)
    case "nickunlock" => NickUnlockCommand(st, msg, g)
    case "warnthreshold" => WarnThresholdCommand(st, g, c.args)
    case "log_channel" => ChannelSetting(st, msg, g, "log_channel", false)
    case "ticket_channel" => TicketChannelCommand(st, msg, g)
    case "apply_channel" => ChannelSetting(st, msg, g, "apply_channel", true)
    case "apply_open" => ApplicationsCommand(st, msg, g, true)
    case "apply_close" => ApplicationsCommand(st, msg, g, false)
    case "debug_apply" => DebugApplyCommand(st, g)
    case _ => TicketCommand(st, msg, g)
  }

  function RecordDispatch(st: BotState, msg: Message, g: GuildId, c: Command): (r: Step)
    requires g in st.registry && c.name in RecordCommands
    ensures NoAutoresponse(r.effects) && r.state.registry == st.registry
    ensures r.state.rules != st.rules ==> c.name == "autoresponder" && Persist(AutorespondersFile) in r.effects
    ensures r.state.ledger != st.ledger ==> Persist(WarningsFile) in r.effects || c.name == "warnings"
    ensures r.state.afk != st.afk ==> c.name == "afk"
    ensures c.name == "warn" ==> r == WarnCommand(st, msg, g, c.args)
    ensures c.name == "warnings" ==> r == WarningsCommand(st, msg, g)
    ensures c.name == "clearwarns" ==> r == ClearWarnsCommand(st, msg, g)
    ensures c.name == "autoresponder" ==> r == AutoresponderCommand(st, msg, c.args)
    ensures c.name == "afk" ==> r == AfkCommand(st, msg, c.args)
  {
    match c.name
    case "warn" => WarnCommand(st, msg, g, c.args)
    case "warnings" => WarningsCommand(st, msg, g)
    case "clearwarns" => ClearWarnsCommand(st, msg, g)
    case "autoresponder" => AutoresponderCommand(st, msg, c.args)
    case _ => AfkCommand(st, msg, c.args)
  }

  function ModerationDispatch(st: BotState, msg: Message, g: GuildId, c: Command): (r: Step)
    requires g in st.registry && c.name in ModerationCommands
    ensures r.state == st && NoAutoresponse(r.effects)
    ensures c.name == "ban" ==> r.effects == []
    ensures c.name == "boosterrole" ==> r.effects == [Delegated("boosterrole")]
    ensures c.name == "kick" ==> r == KickCommand(st, msg, g, c.args)
    ensures c.name == "damage" ==> r == DamageCommand(st, msg, g, c.args)
    ensures c.name == "dm" ==> r == DmCommand(st, msg, c.args)
    ensures c.name == "heal" ==> r == HealCommand(st, msg, g)
    ensures c.name == "role" ==> r == RoleCommand(st, msg, c.args)
    ensures c.name == "slowmode" ==> r == SlowmodeCommand(st, msg, c.args)
    ensures c.name == "lock" ==> r == LockCommand(st, msg, g, c.args, true)
    ensures c.name == "unlock" ==> r == LockCommand(st, msg, g, c.args, false)
    ensures c.name == "clear" ==> r == ClearCommand(st, msg, c.args)
    ensures c.name == "nick" ==> r == NickCommand(st, msg, c.args)
  {
    match c.name
    case "boosterrole" => Step(st, [Delegated("boosterrole")])
    case "kick" => KickCommand(st, msg, g, c.args)
    case "damage" => DamageCommand(st, msg, g, c.args)
    case "dm" => DmCommand(st, msg, c.args)
    case "heal" => HealCommand(st, msg, g)
    case "role" => RoleCommand(st, msg, c.args)
    case "ban" => Step(st, [])
    case "slowmode" => SlowmodeCommand(st, msg, c.args)
    case "lock" => LockCommand(st, msg, g, c.args, true)
    case "unlock" => LockCommand(st, msg, g, c.args, false)
    case "clear" => ClearCommand(st, msg, c.args)
    case _ => NickCommand(st, msg, c.args)
  }

  /** Runs the handler named by the command.  `,ban` calls a function that is
      not defined anywhere, so it fails before doing anything; an unknown name
      falls through every handler and does nothing, because the "unknown
      command" reply is guarded by a flag that is already set. */
  function Dispatch(st: BotState, msg: Message, g: GuildId, c: Command): (r: Step)
    requires g in st.registry
    ensures c.name !in CommandNames ==> r == Step(st, [])
    ensures c.name == "ban" ==> r == Step(st, [])
    ensures NoAutoresponse(r.effects)
    ensures OtherGuildsUnchanged(st.registry, r.state.registry, g)
    ensures r.state.registry != st.registry ==> Persist(SettingsFile) in r.effects
    ensures r.state.rules != st.rules ==> c.name == "autoresponder" && Persist(AutorespondersFile) in r.effects
    ensures r.state.ledger != st.ledger ==> Persist(WarningsFile) in r.effects || c.name == "warnings"
    ensures r.state.afk != st.afk ==> c.name == "afk"
  {
    if c.name in SettingsCommands then SettingsDispatch(st, msg, g, c)
    else if c.name in RecordCommands then RecordDispatch(st, msg, g, c)
    else if c.name in ModerationCommands then ModerationDispatch(st, msg, g, c)
    else Step(st, [])
  }

  /** No record name is a settings name. */
  lemma RecordNotSettings()
    ensures SettingsCommands !! RecordCommands
  {
  }

  /** No moderation name is a settings or record name. */
  lemma ModerationNotOther()
    ensures SettingsCommands !! ModerationCommands && RecordCommands !! ModerationCommands
  {
  }

  /** The settings names go to the settings dispatcher. */
  lemma DispatchSettings(st: BotState, msg: Message, g: GuildId, c: Command)
    requires g in st.registry && c.name in SettingsCommands
    ensures Dispatch(st, msg, g, c) == SettingsDispatch(st, msg, g, c)
  {
  }

  /** The record names go to the record dispatcher. */
  lemma DispatchRecord(st: BotState, msg: Message, g: GuildId, c: Command)
    requires g in st.registry && c.name in RecordCommands
    ensures Dispatch(st, msg, g, c) == RecordDispatch(st, msg, g, c)
  {
    RecordNotSettings();
  }

  /** The moderation names go to the moderation dispatcher. */
  lemma DispatchModeration(st: BotState, msg: Message, g: GuildId, c: Command)
    requires g in st.registry && c.name in ModerationCommands
    ensures Dispatch(st, msg, g, c) == ModerationDispatch(st, msg, g, c)
  {
    ModerationNotOther();
  }

  /** A message with the "," prefix: nothing outside a guild or without a
      command word; otherwise the guild's settings record is looked up (and
      created, unsaved, when missing) and the command is dispatched. */
  function OnCommand(st: BotState, msg: Message): (r: Step)
    requires msg.content != []
    ensures msg.guild.None? || Tokenise(msg.content).None? ==> r == Step(st, [])
    ensures msg.guild.Some? && Tokenise(msg.content).Some? ==>
      var g := msg.guild.value;
      r == Dispatch(st.(registry := GetGuildSettings(st.registry, g).registry), msg, g, Tokenise(msg.content).value)
    ensures NoAutoresponse(r.effects)
    ensures r.state.afk != st.afk ==> Tokenise(msg.content).Some? && Tokenise(msg.content).value.name == "afk"
    ensures r.state.rules != st.rules ==> Persist(AutorespondersFile) in r.effects
    ensures msg.guild.Some? ==> OtherGuildsUnchanged(st.registry, r.state.registry, msg.guild.value)
    ensures msg.guild.None? ==> r.state.registry == st.registry
  {
    if msg.guild.None? then Step(st, [])
    else match Tokenise(msg.content)
      case None => Step(st, [])
      case Some(c) =>
        var g := msg.guild.value;
        var l := GetGuildSettings(st.registry, g);
        Dispatch(st.(registry := l.registry), msg, g, c)
  }

  /** The owner-only commands, recognised on the lowercased text. */
  predicate OwnerCommand(msg: Message) {
    msg.author.id == BotOwnerId && (StartsWith(Lower(msg.content), ".owner") || StartsWith(Lower(msg.content), ".transcscript"))
  }

  /** A message starting with "," is never an owner command. */
  lemma PrefixedIsNotOwner(msg: Message)
    ensures StartsWith(msg.content, ",") ==> !OwnerCommand(msg)
  {
    if !StartsWith(msg.content, ",") { return; }
    var low := Lower(msg.content);
    assert low[0] == ',';
  }

  /** The whole `MessageCreate` handler. */
  function OnMessage(st: BotState, statics: seq<StaticRule>, msg: Message): (r: Step)
    ensures msg.content == [] || msg.authorIsBot ==> r == Step(st, [])
    ensures msg.content != [] && !msg.authorIsBot ==>
      var pre := AfkPrelude(st, msg).effects;
      |r.effects| >= |pre| && r.effects[..|pre|] == pre
    ensures msg.content != [] && !msg.authorIsBot && OwnerCommand(msg) ==>
      var pre := AfkPrelude(st, msg);
      r == Step(pre.state, pre.effects + [if StartsWith(Lower(msg.content), ".owner") then Reply(OwnerPanel) else TranscriptReport])
    ensures msg.content != [] && !msg.authorIsBot && !OwnerCommand(msg) && !StartsWith(msg.content, ",") ==>
      r == Step(AfkPrelude(st, msg).state, AfkPrelude(st, msg).effects + Autorespond(statics, st.rules, msg.content))
    ensures msg.content != [] && !msg.authorIsBot && StartsWith(msg.content, ",") ==>
      var pre := AfkPrelude(st, msg);
      r == Step(OnCommand(pre.state, msg).state, pre.effects + OnCommand(pre.state, msg).effects)
  {
    if msg.content == [] || msg.authorIsBot then Step(st, [])
    else
      var pre := AfkPrelude(st, msg);
      var content := Lower(msg.content);
      PrefixedIsNotOwner(msg);
      if msg.author.id == BotOwnerId && StartsWith(content, ".owner") then
        Step(pre.state, pre.effects + [Reply(OwnerPanel)])
      else if msg.author.id == BotOwnerId && StartsWith(content, ".transcscript") then
        Step(pre.state, pre.effects + [TranscriptReport])
      else if !StartsWith(msg.content, ",") then
        Step(pre.state, pre.effects + Autorespond(statics, pre.state.rules, msg.content))
      else
        var c := OnCommand(pre.state, msg);
        Step(c.state, pre.effects + c.effects)
  }

  // ------------------------------------------------------------ properties

  /** A message with the "," prefix never reaches the autoresponders. */
  lemma PrefixedMessageIsNotAutoresponded(st: BotState, statics: seq<StaticRule>, msg: Message)
    requires StartsWith(msg.content, ",")
    ensures NoAutoresponse(OnMessage(st, statics, msg).effects)
  {
    if msg.content != [] && !msg.authorIsBot {
      var pre := AfkPrelude(st, msg);
      var c := OnCommand(pre.state, msg);
      assert OnMessage(st, statics, msg).effects == pre.effects + c.effects;
    }
  }

  /** A prefixed message whose command word and arguments tokenise to `c`
      runs the handler `c` names, after the AFK bookkeeping. */
  lemma TokenisedCommandIsDispatched(st: BotState, statics: seq<StaticRule>, msg: Message, c: Command)
    requires StartsWith(msg.content, ",") && !msg.authorIsBot && msg.guild.Some?
    requires Tokenise(msg.content) == Some(c)
    ensures var pre := AfkPrelude(st, msg);
      var g := msg.guild.value;
      var d := Dispatch(pre.state.(registry := GetGuildSettings(pre.state.registry, g).registry), msg, g, c);
      OnMessage(st, statics, msg) == Step(d.state, pre.effects + d.effects)
  {
  }

  /** An unrecognised command name, or `,ban`, answers nothing beyond the AFK
      bookkeeping; the only state change is the (unsaved) settings record the
      dispatcher's lookup creates. */
  lemma UnknownCommandIsSilent(st: BotState, statics: seq<StaticRule>, msg: Message, c: Command)
    requires msg.content != [] && !msg.authorIsBot
    requires StartsWith(msg.content, ",") && msg.guild.Some? && Tokenise(msg.content) == Some(c)
    requires c.name !in CommandNames || c.name == "ban"
    ensures var pre := AfkPrelude(st, msg);
      OnMessage(st, statics, msg) == Step(pre.state.(registry := GetGuildSettings(pre.state.registry, msg.guild.value).registry), pre.effects)
  {
    var pre := AfkPrelude(st, msg);
    assert pre.effects + [] == pre.effects;
  }

  /** Going AFK ends with the author's next message: they are greeted back
      first, and unless that message is itself a command they are no longer
      away. */
  lemma AfkEndsOnNextMessage(st: BotState, statics: seq<StaticRule>, msg: Message, args: seq<string>, next: Message)
    requires next.author.id == msg.author.id && next.content != [] && !next.authorIsBot
    ensures var st' := AfkCommand(st, msg, args).state;
      var r := OnMessage(st', statics, next);
      && |r.effects| > 0 && r.effects[0] == Reply(WelcomeBack)
      && (!StartsWith(next.content, ",") ==> next.author.id !in r.state.afk)
  {
    var st' := AfkCommand(st, msg, args).state;
    var pre := AfkPrelude(st', next);
    assert |pre.effects| > 0 && pre.effects[0] == Reply(WelcomeBack);
  }

  /** The warning defect: as written no threshold ever fires from `,warn`,
      while the intended handler fires each matching threshold once. */
  lemma WarnFiresThresholdsOnlyWhenFixed(st: BotState, msg: Message, g: GuildId, t: Member, args: seq<string>, ts: seq<Threshold>)
    requires g in st.registry && st.registry[g].warnThresholds == Some(ts)
    ensures CountNotices(WarnAddAsWritten(st, msg, g, t, args).effects) == 0
    ensures var total := WarnAdd(st.ledger, g, t.id, msg.author.id, WarnReason(args), msg.now)[WarnKey(g, t.id)].count;
      CountNotices(WarnAddCommand(st, msg, g, t, args).effects) == FiringCount(ts, total)
  {
    var total := WarnAdd(st.ledger, g, t.id, msg.author.id, WarnReason(args), msg.now)[WarnKey(g, t.id)].count;
    var fired := CheckWarnThresholds(st.registry, g, t.id, total).effects;
    var tail := [DirectMessage(t.id, WarnedNote(WarnReason(args), total)), Reply(Warned(total))];
    CountNoticesAppend([Persist(WarningsFile)], fired);
    CountNoticesAppend([Persist(WarningsFile)] + fired, tail);
    assert CountNotices(tail) == 0 by {
      assert tail[1..][1..] == [];
    }
  }

  /** A concrete case: a ban threshold at one warning, and a member with no
      warnings.  The first `,warn` bans them only in the intended handler. */
  lemma FirstWarnBanExample(st: BotState, msg: Message, g: GuildId, t: Member, args: seq<string>)
    requires g in st.registry && st.registry[g].warnThresholds == Some([Threshold(Some(1), Some("ban"), Some(0))])
    requires WarnKey(g, t.id) !in st.ledger
    ensures Ban(t.id) !in WarnAddAsWritten(st, msg, g, t, args).effects
    ensures Ban(t.id) in WarnAddCommand(st, msg, g, t, args).effects
  {
    var ts := [Threshold(Some(1), Some("ban"), Some(0))];
    assert ts[1..] == [];
    assert FireAll(ts, t.id, 1) == [Ban(t.id), ThresholdNotice(t.id, WasBanned)];
    var r := WarnAddCommand(st, msg, g, t, args);
    assert r.effects[1] == Ban(t.id);
  }
}
