/**
  The vocabulary of externally visible effects a handler asks the chat
  platform for.  Every platform call (reply, reaction, direct message,
  timeout, kick, ban, nickname change, channel change, file save) becomes one
  value here; whether the platform then succeeds is outside the model.
 */
module Effects {
  import opened Text

  type UserId = string
  type GuildId = string
  type ChannelId = string

  /** The member permission flags the commands check. */
  datatype Permission =
    | KickMembers
    | ModerateMembers
    | Administrator
    | ManageRoles
    | ManageGuild
    | ManageMessages
    | ManageChannels
    | ManageNicknames

  /** The JSON files the bot rewrites. */
  datatype Dataset = WarningsFile | SettingsFile | AutorespondersFile

  datatype Panel = TicketPanel | ApplicationPanel

  /** What a fired warn threshold did, as named in its notice. */
  datatype ThresholdAction = TimedOutFor(minutes: Option<int>) | WasKicked | WasBanned

  /** Lines written to a guild's log channel. */
  datatype LogEntry =
    | KickLogged(user: UserId, reason: string)
    | TimeoutLogged(user: UserId, minutes: int)
    | HealLogged(user: UserId)
    | LockLogged(channel: ChannelId, reason: string)
    | UnlockLogged(channel: ChannelId)

  /** Best-effort direct messages to the affected user. */
  datatype Notification =
    | KickedNote(reason: string)
    | TimedOutNote(minutes: int)
    | HealedNote
    | WarnedNote(reason: string, total: int)
    | WarnsReducedNote(removed: int, total: int)
    | WarnsClearedNote
    | RelayedText(text: string)

  /** The replies a handler posts to the invoking message. */
  datatype Reply =
    | Usage(command: string)
    | OutOfRange(command: string)
    | MissingPermission(perm: Permission)
    | Done(command: string)
    | Failed(command: string)
    | WelcomeBack
    | AfkNotice(away: seq<(string, string, int)>)
    | NowAfk(reason: string)
    | EasterEgg
    | Autoreply(text: string)
    | ThresholdList(thresholds: seq<(Option<int>, Option<string>)>)
    | AutoresponderList(rules: seq<(string, string)>)
    | NoAutoresponders
    | NoSuchAutoresponder
    | Warned(total: int)
    | WarnsRemoved(requested: int, total: int)
    | WarnCount(user: UserId, total: int)
    | NoWarnings(user: UserId)
    | NotTextChannel(command: string)
    | SlowmodeOff
    | SlowmodeSet(seconds: int)
    | TimedOut(user: UserId, minutes: int)
    | ApplicationsOpenNoChannel
    | ApplicationsOpened
    | ApplicationsClosed
    | ApplyDebug(applyChannel: Option<string>, open: bool)
    | TicketChannelInvalid
    | BoostersOnly
    | OwnerPanel

  datatype Effect =
    | SendReply(reply: Reply)
    | React(emoji: string)
    | DirectMessage(user: UserId, note: Notification)
    | Timeout(user: UserId, ms: Option<int>)
    | ClearTimeout(user: UserId)
    | Kick(user: UserId, reason: string)
    | Ban(user: UserId)
    | ThresholdNotice(user: UserId, action: ThresholdAction)
    | LogLine(channel: ChannelId, entry: LogEntry)
    | SetNickname(user: UserId, nick: string)
    | SetSlowmode(channel: ChannelId, seconds: int)
    | LockChannel(channel: ChannelId, reason: string)
    | UnlockChannel(channel: ChannelId)
    | BulkDelete(count: int)
    | ClearedNotice(amount: int)
    | PostPanel(channel: ChannelId, panel: Panel)
    | Persist(dataset: Dataset)
    | Delegated(command: string)
    | TranscriptReport
  {
    /** The effect answers a message as an autoresponder would. */
    predicate IsAutoresponse() {
      || React?
      || (SendReply? && (reply.EasterEgg? || reply.Autoreply?))
    }

    /** The effect is a moderation action on a member. */
    predicate IsModeration() {
      Timeout? || Kick? || Ban?
    }
  }

  function CountNotices(effs: seq<Effect>): (n: nat)
    ensures n <= |effs|
  {
    if effs == [] then 0
    else (if effs[0].ThresholdNotice? then 1 else 0) + CountNotices(effs[1..])
  }

  lemma {:induction false} CountNoticesAppend(a: seq<Effect>, b: seq<Effect>)
    ensures CountNotices(a + b) == CountNotices(a) + CountNotices(b)
  {
    if a != [] {
      assert (a + b)[1..] == a[1..] + b;
      CountNoticesAppend(a[1..], b);
    } else {
      assert a + b == b;
    }
  }
}
