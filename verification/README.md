# A verified model of the KozzyX moderation bot's core

The bot is a Discord moderation bot. Its core is made of these parts:

- a per-guild warning ledger;
- a warn-threshold engine that times out, kicks or bans a member when their warning count reaches a configured number;
- a per-guild settings registry, including nickname locks that the bot enforces;
- an autoresponder pipeline for messages without a prefix, with a fixed static list, a user-managed dynamic list and an easter egg;
- a dispatcher for `,`-prefixed commands;
- small parsers for durations, timeouts, slowmode values, clear amounts and channel names;
- JSON persistence of the three datasets.

Every handler is modelled as a pure step. It takes the bot's in-memory state (the ledger, the settings registry, the dynamic autoresponders and the AFK map) and one message. It returns the new state and the list of effects it asks the platform for: replies, reactions, direct messages, timeouts, kicks, bans, channel edits, log lines and file saves ("persist").

Modules, one file each:

| module | file | what it holds |
|---|---|---|
| `Text` | `text.dfy` | JavaScript string helpers: `trim` with the ECMAScript white-space set, `toLowerCase`, `includes`, `split(/\s+/)`, `join(" ")`, and `parseInt` (decimal, or with the `0x` prefix when no radix is given; `NaN` is `None`) |
| `Effects` | `effects.dfy` | ids, permissions, and the vocabulary of effects and replies |
| `Warnings` | `warnings.dfy` | the `guild-user` key, `getWarningData`, and the add, remove and clear updates |
| `Settings` | `settings.dfy` | `getGuildSettings` and its defaults, nickname locks, the threshold list, `logToGuild` |
| `ThresholdEngine` | `threshold_engine.dfy` | `checkWarnThresholds` and the nickname-lock enforcement on member updates |
| `Autoresponders` | `autoresponders.dfy` | `isEmojiResponse`, trigger matching, the response pipeline, rule add and remove, normalisation on load |
| `Parsers` | `parsers.dfy` | command tokenising, `parseDurationToMs`, the `/remind` check, the `,damage`, `,slowmode` and `,clear` argument rules, the ticket channel-name sanitiser |
| `Persistence` | `persistence.dfy` | the three files as values, with the load fallbacks and the save/load round trips |
| `Bot` | `bot.dfy` | the `MessageCreate` handler: AFK bookkeeping, owner commands, autoresponders, and one function per prefix command |

A handler that touches the settings, the rules or the ledger satisfies `Bot.Confined`. This means:

- it never answers as an autoresponder would;
- it leaves every other guild's settings unchanged;
- it emits a `Persist` of every dataset it changes.

One exception is `,warnings`. Its lookup creates a zero record that is never saved, and the model keeps that behaviour.

Three behaviours of the code worth noting:

- An unknown command name gets no reply. The "Unknown command." line at bot.js:1561 is guarded by `handled`, which is always set to `true` at line 797 or earlier.
- `,warn remove` never re-checks the thresholds. Only `,warn` add calls `checkWarnThresholds`, at line 1108.
- `,nicklock`, `,nickunlock` and `,warnthreshold` check no permission.

## Model

| member | source | states |
|---|---|---|
| Warnings.SplitWarnKey | src/src/warnings.js:4-6 | the `guild-user` key that `WarnKey` builds can be split back into guild and user whenever the guild id has no dash |
| Warnings.WarnKeyInjective | src/src/warnings.js:4-6 | different numeric (guild, user) pairs never share a `WarnKey` ledger key |
| Warnings.GetWarningData | src/src/warnings.js:8-17 | an existing record is returned unchanged; a missing one is created as count 0 with empty history, stored, and nothing else in the ledger changes |
| Warnings.GetWarningDataIdempotent | src/src/warnings.js:8-17 | a second lookup of the same key finds what the first one stored and changes nothing |
| Warnings.WarnAdd | src/src/bot.js:1096-1105 | the member's count rises by exactly one; the history gains one "add" entry at its end; other keys are untouched |
| Warnings.FirstDigitsArg | src/src/bot.js:1067 | finds the first argument made only of digits, or reports that there is none |
| Warnings.RemoveAmount | src/src/bot.js:1067-1072 | the amount to remove is 1 when no argument is all digits; otherwise it is the decimal value of the first all-digit argument, which is 0 (and so rejected) exactly when that argument is all zeros |
| Warnings.WarnRemove | src/src/bot.js:1074-1081 | the count drops by the amount but never below zero; the history gains one "remove" entry; other keys are untouched |
| Warnings.ClearWarns | src/src/bot.js:1145-1151 | the count becomes zero, the history gains one "clear" entry, other keys are untouched |
| Warnings.CommandsKeepNonNegative | src/src/bot.js:1074-1151 | add, remove and clear all keep every count in the ledger non-negative |
| Warnings.AddThenRemoveOnFresh | src/src/bot.js:1074-1105 | for a member with no record, a warning followed by a removal of one brings the count back to zero, and a removal alone leaves it at zero |
| Warnings.HistoryAppendOnly | src/src/bot.js:1074-1151 | each ledger command keeps the old history as a prefix and adds exactly one entry |
| Settings.GetGuildSettings | src/src/storage.js:58-70 | a stored record is returned as is; a missing one is created with the defaults and stored; no other guild changes |
| Settings.NewGuildDefaults | src/src/storage.js:61-66 | a new guild has no log, ticket or apply channel, closed applications, no nickname locks and no thresholds |
| Settings.GetGuildSettingsIdempotent | src/src/storage.js:58-70 | looking a guild up twice gives the same result as looking it up once |
| Settings.LockNick | src/src/bot.js:757-758 | the member's lock becomes the given name; other members' locks and every other setting are unchanged |
| Settings.UnlockNick | src/src/bot.js:766 | removes exactly the member's lock, when a lock table exists |
| Settings.AddThreshold | src/src/bot.js:778-779 | the threshold is appended at the end of the list, which is created when absent; other settings are unchanged |
| Settings.DropCountKeeps | src/src/bot.js:786 | `DropCount`, the `filter` on the threshold list, keeps a threshold exactly when its count is not strictly equal to the given one; a NaN count removes nothing |
| Settings.DropCountAppend | src/src/bot.js:786 | filtering distributes over concatenation, so it preserves the relative order of the kept thresholds |
| Settings.RemoveThresholds | src/src/bot.js:785-786 | applies the filter when a list exists and changes nothing else |
| Settings.ThresholdEntries | src/src/bot.js:791 | lists the (count, action) pairs in order, or nothing when no list exists |
| Settings.LogToGuild | src/src/storage.js:100-111 | a log line goes out exactly when there is a guild and its log channel is set, cached and text-based, and only to that channel |
| ThresholdEngine.TimeoutMs | src/src/postLogin.js:24 | the timeout is the configured minutes in milliseconds, and absent when the time is not a number |
| ThresholdEngine.Fire | src/src/postLogin.js:22-35 | "timeout" times the member out for the configured minutes in milliseconds; "kick" kicks them with the reason "Warn threshold"; "ban" bans them; each is followed by the matching notice, and an unknown action produces nothing |
| ThresholdEngine.FireAll | src/src/postLogin.js:21-36 | emits two effects, one of them a notice, for each threshold whose count equals the warning count and whose action is known; no matching threshold means no effect; every effect is a moderation action or notice on the warned member |
| ThresholdEngine.FireAllOne | src/src/postLogin.js:21-22 | a single threshold fires exactly when its count strictly equals the warning count, with the effects of `Fire` |
| ThresholdEngine.FireAllAppend | src/src/postLogin.js:21-36 | thresholds are handled in list order: the effects of a concatenated list are those of the first part followed by those of the second |
| ThresholdEngine.CheckWarnThresholds | src/src/postLogin.js:18-37 | no threshold list means no effect; otherwise the effects are exactly those of the guild's list fired in order against the warning count, and every effect targets the warned member |
| ThresholdEngine.NoFireWithoutEquality | src/src/postLogin.js:22 | thresholds fire only on exact equality, so a count that passes a threshold without equalling it does nothing |
| ThresholdEngine.DuplicatesFireTwice | src/src/postLogin.js:21-36 | two identical matching thresholds produce two notices |
| ThresholdEngine.TimeoutAtThree | src/src/postLogin.js:21-25 | "3 timeout 10" fires at exactly 3 warnings, with 600000 ms, and not at 2 or 4 |
| ThresholdEngine.NickLockReset | src/src/postLogin.js:40-47 | the nickname is reset exactly when the member has a non-empty lock and the nickname changed, and it is reset to the locked name |
| ThresholdEngine.OnMemberUpdate | src/src/postLogin.js:40-47 | a member update asks for a nickname change exactly when `NickLockReset` gives one, and then for exactly one change: that member's nickname set to the locked name |
| ThresholdEngine.LockThenChange | src/src/bot.js:754-769 | after `,nicklock` a nickname change is undone to the locked name; after `,nickunlock` it is not |
| ThresholdEngine.ResetIsStable | src/src/postLogin.js:44 | an update that leaves the nickname as it was asks for no reset |
| ThresholdEngine.ResetSettles | src/src/postLogin.js:40-47 | after a locked member's nickname changes, the first update asks for the lock, the update caused by that reset asks for it once more only when the changed name was not the lock, and a further update that changes nothing asks for nothing |
| Autoresponders.ParseEmoji | src/src/bot.js:48 | a text accepted as `<:name:id>` or `<a:name:id>` renders back to exactly that text |
| Autoresponders.ParseRenderedEmoji | src/src/bot.js:48 | every well-formed custom emoji is recognised, with the same animation flag, name and id |
| Autoresponders.TakeNameStops | src/src/bot.js:48 | the name scan stops exactly at the first character outside `[A-Za-z0-9_]` |
| Autoresponders.IsEmojiResponse | src/src/bot.js:44-60 | empty text is never an emoji; a true answer means the trimmed text is non-empty without white space; one code point or a custom emoji is accepted; anything else is refused |
| Autoresponders.SingleCodePointIsEmoji | src/src/bot.js:51-55 | any single non-space character is treated as an emoji |
| Autoresponders.PlainWordIsNotEmoji | src/src/bot.js:40-42 | a word such as "ok" of two or more characters that does not start with `<` is sent as text, not as a reaction |
| Autoresponders.PaddedCustomEmoji | src/src/bot.js:45-48 | a custom emoji surrounded by spaces is still recognised |
| Autoresponders.MatchesIsInclusion | src/src/bot.js:719-723 | `Matches`, the three-way trigger test (equal, trimmed equal, or contained, after lowercasing), holds exactly when the lowercased message contains the lowercased trigger |
| Autoresponders.FirstMatch | src/src/bot.js:718-725 | picks the first dynamic rule in list order whose trigger matches, or none when none matches |
| Autoresponders.Respond | src/src/bot.js:726-738 | a blank response does nothing; an emoji response is a reaction; any other response is a reply with the trimmed text |
| Autoresponders.DynamicResponse | src/src/bot.js:718-740 | only the first matching rule answers, with at most one effect |
| Autoresponders.SubstringMatch | src/src/bot.js:723 | a trigger also fires inside a longer word ("hi" in "hiiii") |
| Autoresponders.FirstStatic | src/src/bot.js:709-716 | a static reply is found exactly when some static pattern matches, and the reply is the first matching one's |
| Autoresponders.RuleResponse | src/src/bot.js:709-740 | a matching static rule answers and ends the search; otherwise the dynamic rules are consulted |
| Autoresponders.Autorespond | src/src/bot.js:702-743 | the easter egg comes first exactly when the lowercased text is "six seven" or "67"; at most one rule answers after it; every effect is an autoresponse |
| Autoresponders.StaticShadowsDynamic | src/src/bot.js:709-716 | when a static pattern matches, the dynamic rules make no difference |
| Autoresponders.AddRule | src/src/bot.js:1309-1312 | appends one rule with the lowercased trigger and the given response, keeping every earlier rule and the lowercase invariant |
| Autoresponders.FindTrigger | src/src/bot.js:1325 | finds the first rule whose trigger is exactly the given one, or reports that none has it |
| Autoresponders.RemoveRule | src/src/bot.js:1324-1333 | fails exactly when no rule has the lowercased trigger; otherwise removes one such rule and keeps the rest |
| Autoresponders.Normalise | src/src/storage.js:6-22 | the loaded list holds only lower-case, non-empty triggers, is no longer than the file, and the load is complete exactly when no entry is malformed |
| Autoresponders.NormaliseOne | src/src/storage.js:11-17 | one entry is kept exactly when its trigger is a non-empty string; the kept rule has its trigger lowercased and a missing response read as "" |
| Autoresponders.NormaliseAppend | src/src/storage.js:11-17 | entries are read in file order: the rules of a well-formed prefix come first, followed by those of the rest |
| Autoresponders.NormaliseStops | src/src/storage.js:7-21 | a malformed entry ends the load: rules read before it are kept, nothing after it is read, and the load is reported as failed |
| Autoresponders.NormaliseExport | src/src/storage.js:6-34 | writing a normalised rule list out with `Export` (one entry per rule) and loading it back gives the same list |
| Parsers.Arg | src/src/bot.js:773-777 | `args[i]` is defined exactly for indices inside the list |
| Parsers.Tokenise | src/src/bot.js:747-749 | no command exactly when the text after the prefix is blank; otherwise the name is non-empty and lowercased and every argument is a non-empty word |
| Parsers.TokeniseJoin | src/src/bot.js:747-748 | a typed line `,name arg1 arg2 ...` tokenises back to the lowercased name and the same arguments |
| Parsers.WordsOfJoin | src/src/bot.js:747 | splitting words joined by single spaces gives the words back |
| Parsers.MatchDuration | src/src/bot.js:401-402 | accepts digits alone (minutes) or digits followed by one unit letter s, m, h or d in either case, and nothing else |
| Parsers.ParseDurationToMs | src/src/bot.js:399-410 | the value in milliseconds is the number times the unit's length; text that does not match gives no value |
| Parsers.DurationRoundTrip | src/src/bot.js:399-410 | a printed number with a unit letter, or without one, parses back to the number times the unit's length |
| Parsers.RemindDelay | src/src/bot.js:416-420 | `/remind` accepts a delay exactly when it parses to a positive number of milliseconds |
| Parsers.RemindZero | src/src/bot.js:418 | a zero duration such as "0m" is rejected, and every positive one is accepted |
| Parsers.FirstNonMention | src/src/bot.js:906 | finds the first argument that is not a mention, or reports that all are mentions |
| Parsers.DamageMs | src/src/bot.js:906-918 | the first argument that is not a mention is read as a duration; with no such argument, or one that does not parse, the timeout is ten minutes |
| Parsers.RoundMinutes | src/src/bot.js:924 | the minutes shown are the timeout rounded to the nearest minute |
| Parsers.RoundMinutesUnique | src/src/bot.js:924 | that rounding is the only whole number within half a minute of the timeout |
| Parsers.SlowmodeSeconds | src/src/bot.js:1384-1392 | "off" or "0" turns slowmode off; anything else must parse as an integer from 0 to 21600 |
| Parsers.SlowmodeDigits | src/src/bot.js:1384-1392 | a string of digits is accepted exactly when its value is at most 21600 |
| Parsers.ClearAmount | src/src/bot.js:1459-1462 | the amount is accepted exactly when it parses as an integer from 1 to 100 |
| Parsers.Sanitise | src/src/bot.js:1682 | every character of the result is a letter, a digit or a dash; for text inside the Basic Multilingual Plane the result has the same length and keeps each letter or digit in place while every other character becomes a dash |
| Parsers.ChannelName | src/src/bot.js:1681-1684 | the name is the first min(90, length) characters of the sanitised, lowercased input; so it is at most 90 characters of lower-case letters, digits or dashes, non-empty for non-empty input, and for text inside the Basic Multilingual Plane character i is the lowercased input character or a dash; `TicketChannelName` applies it to the ticket kind, a dash and the user name (bot.js:1681), and for Basic Multilingual Plane text with a kind under 90 characters its name opens with the sanitised, lowercased kind followed by a dash |
| Parsers.ChannelNameKeepsClean | src/src/bot.js:1681-1684 | a name that is already clean and short enough is left unchanged |
| Parsers.ChannelNameIdempotent | src/src/bot.js:1681-1684 | sanitising a channel name twice changes nothing more |
| Parsers.AstralTakesTwoDashes | src/src/bot.js:1682 | a character outside the Basic Multilingual Plane becomes two dashes, one for each UTF-16 unit |
| Text.TrimIsSlice | src/src/bot.js:45 | the trimmed text is a contiguous slice of the input |
| Text.TrimOfNoSpace | src/src/bot.js:45 | text without white space is left unchanged by trimming |
| Text.LowerIsLower | src/src/bot.js:597 | lowercasing leaves no upper-case letter |
| Text.IncludesIffOccurs | src/src/bot.js:723 | `includes` holds exactly when the needle occurs at some position |
| Text.DecimalRoundTrip | src/src/bot.js:1068 | the decimal reading of a printed number is that number |
| Text.ParseInt | src/src/bot.js:775-777 | a string of digits parses to its decimal value, and the empty string gives NaN |
| Text.ParseIntSkipsSpace | src/src/bot.js:775-777 | leading white space is skipped |
| Text.ParseIntMinus | src/src/bot.js:775-777 | a leading "-" negates the number that follows, and NaN stays NaN |
| Text.ParseIntPlus | src/src/bot.js:775-777 | a leading "+" changes nothing |
| Text.ParseIntDecimalPrefix | src/src/bot.js:1068 | the longest digit prefix is read and the rest ignored, so "12abc" is 12 |
| Text.ParseIntNoDigits | src/src/bot.js:1459 | text starting with something other than white space, a sign or a digit is NaN |
| Text.ParseIntHex | src/src/bot.js:775-777 | without a radix, "0x" or "0X" followed by hexadecimal digits reads as a hexadecimal number; with radix 10 the same text reads as 0 |
| Text.ParseIntHexExample | src/src/bot.js:775-777 | "0x1A" is 26 without a radix and 0 with radix 10 |
| Persistence.LoadWarnings | src/src/storage.js:36-47 | a readable object replaces the ledger and is not rewritten; the literal `null` gives an empty ledger; an unreadable file keeps memory and is rewritten |
| Persistence.LoadSettings | src/src/storage.js:72-88 | a readable object replaces the registry; only a missing file is rewritten; a corrupt file is logged and kept |
| Persistence.LoadAutoresponders | src/src/storage.js:6-22 | a readable list is normalised and rewritten exactly when some entry was malformed; a non-list empties memory; an unreadable file keeps memory and is rewritten |
| Persistence.WarningsRoundTrip | src/src/storage.js:36-56 | saving the ledger with `SaveMap` (the file holds the map after a successful write and is unchanged after a failed one) and loading it back gives the same ledger |
| Persistence.SettingsRoundTrip | src/src/storage.js:72-97 | saving the registry with `SaveMap` and loading it back gives the same registry; the source differs only for a NaN threshold field, which JSON turns into `null` (see Left out) |
| Persistence.AutorespondersRoundTrip | src/src/storage.js:6-34 | saving a normalised rule list with `SaveRules` (the file holds the exported list after a successful write) and loading it back gives the same list, with no rewrite |
| Persistence.LoadKeepsNormalised | src/src/storage.js:6-22 | in every case, loading leaves the rule list with lower-case, non-empty triggers |
| Bot.LogLines | src/src/storage.js:100-111 | for a guild whose record exists, the handlers' `logToGuild` call gives exactly one log line with the given entry to the stored log channel when that channel is set, cached and text-based, and nothing otherwise |
| Bot.AfkPrelude | src/src/bot.js:599-625 | the author stops being AFK; "welcome back" is the first effect exactly when they were AFK; the only other effect is one notice holding `AfkLines` of the mentioned users over the AFK map without the author, sent exactly when that list is non-empty; only the AFK map changes |
| Bot.AfkLines | src/src/bot.js:608-618 | there are no lines exactly when no mentioned user is away; every away mentioned user has their line (name, reason, whole minutes away), and every line is such a user's |
| Bot.AfkLinesOne | src/src/bot.js:610-616 | one mentioned user gives their line exactly when they are away |
| Bot.AfkLinesAppend | src/src/bot.js:610-616 | the lines follow the order of the mentions: the lines of two lists of mentions are the lines of the first followed by those of the second |
| Bot.AfkEffects | src/src/bot.js:599-625 | the greeting is first exactly when the author was away; the only other effect is the notice of the given lines, present exactly when there are lines |
| Bot.NickLockCommand | src/src/bot.js:754-761 | locks the nickname, or the user name when there is no nickname, then saves; without a mention it only shows the usage |
| Bot.NickUnlockCommand | src/src/bot.js:763-769 | removes the lock and saves; without a mention it only shows the usage |
| Bot.ThresholdOf | src/src/bot.js:775-777 | count and time are read with radix-less `parseInt`; a missing time is 0 |
| Bot.WarnThresholdCommand | src/src/bot.js:772-795 | add and remove change only this guild's list and save; list changes nothing; any other sub-command shows the usage |
| Bot.ChannelSetting | src/src/bot.js:1168-1180 | needs Manage Server and a mentioned channel, then stores that channel's id and saves |
| Bot.TicketChannelCommand | src/src/bot.js:1184-1235 | needs Manage Server and a mentioned text channel, then stores it and saves; the ticket panel is posted there and confirmed when the post works, and when it fails nothing follows the save |
| Bot.ApplicationsCommand | src/src/bot.js:1255-1290 | needs Manage Server, then sets the open flag and saves first; closing replies "closed"; opening with no stored apply channel says so; when the stored channel is not a cached text channel it just replies "opened"; otherwise the panel is posted there and "opened" follows, unless the post fails, when nothing follows the save |
| Bot.DebugApplyCommand | src/src/bot.js:1503-1511 | reports the stored apply channel and the open flag and changes nothing |
| Bot.TicketCommand | src/src/bot.js:1515-1559 | posts one panel, to the stored ticket channel or else the current one, or reports an invalid channel; a failed post leaves no effect; nothing is stored |
| Bot.WarnRemoveCommand | src/src/bot.js:1065-1094 | a zero amount only shows the usage; otherwise the ledger drops, is saved, and the member and channel are told the new total |
| Bot.WarnAddAsWritten | src/src/bot.js:1096-1108 | as written, `,warn` saves the increment, with the reason `WarnReason` (the arguments joined, or "No reason provided."), and stops there |
| Bot.WarnAddCommand | src/src/bot.js:1096-1121 | as intended, `,warn` saves the increment, fires the thresholds matching the new total, then sends the DM and the reply |
| Bot.WarnCommand | src/src/bot.js:1055-1122 | needs Timeout Members and a mentioned member; "remove" as the first argument removes, anything else adds through the corrected `WarnAddCommand` (see Findings), so the dispatch chain above it models the intended add |
| Bot.WarningsCommand | src/src/bot.js:1125-1134 | reports the count of the mentioned member or else the author; the zero record the lookup creates is not saved |
| Bot.ClearWarnsCommand | src/src/bot.js:1137-1164 | needs Timeout Members and a mentioned member, then zeroes the count, saves and tells the member |
| Bot.AutoresponderCommand | src/src/bot.js:1294-1357 | needs Manage Messages; add with a trigger and a response appends the rule, saves and confirms, and without them shows the add usage; remove of a present trigger removes it and saves, of an unknown one changes nothing, and without a trigger shows the remove usage; list changes nothing and lists every trigger and response in order, or says none are set; any other sub-command shows the usage; triggers stay lower-case |
| Bot.AfkCommand | src/src/bot.js:856-860 | the author becomes AFK from now, with the reason or "AFK" |
| Bot.KickCommand | src/src/bot.js:864-892 | needs Kick Members and a mentioned member, else the usage; the member is first told the reason ("No reason provided." by default); the kick of that member with that reason happens exactly when the platform call works, and is followed by the guild's moderation-log line for it (`LogLines`) before the last reply; the last reply says done or failed; a log line appears only after a successful kick |
| Bot.KickEffects | src/src/bot.js:876-891 | the member is told the reason first; the kick with that reason happens exactly when the platform call works, and then exactly the given log lines sit between the kick and the done reply; the last effect is the done or failed reply; a log line appears only on success; no effect is an autoresponse |
| Bot.DamageCommand | src/src/bot.js:896-938 | needs Timeout Members and a mentioned member, else the usage; the member is first told the rounded minutes; the timeout of that member for exactly the parsed duration happens exactly when the platform call works, followed by the "timed out" reply and then exactly the guild's moderation-log line for it (`LogLines`); otherwise only the failure reply follows; a log line appears only after a successful timeout |
| Bot.DamageEffects | src/src/bot.js:920-937 | the member is told the rounded minutes first; the timeout for exactly the given milliseconds happens exactly when the platform call works, followed by the "timed out" reply and then exactly the given log lines; otherwise only the failure reply follows and no log line appears |
| Bot.DmCommand | src/src/bot.js:941-961 | needs Administrator; without a mentioned user, or with nothing after the first argument, it shows the usage; otherwise every argument after the first, joined by spaces, is relayed to the first mentioned user and confirmed when the platform call works, and only the failure reply is sent when it does not |
| Bot.HealCommand | src/src/bot.js:965-992 | needs Timeout Members and a mentioned member, else the usage; the member is first told, then their timeout is lifted and confirmed exactly when the platform call works, followed by exactly the guild's moderation-log line for it (`LogLines`); otherwise only the failure reply follows; a log line appears only after a lifted timeout |
| Bot.HealEffects | src/src/bot.js:975-991 | the member is told first; the timeout is lifted exactly when the platform call works, followed by the done reply and then exactly the given log lines; otherwise only the failure reply follows and no log line appears |
| Bot.RoleCommand | src/src/bot.js:996-1051 | with Manage Roles, the role change goes ahead exactly when the sub-command is add or remove |
| Bot.SlowmodeCommand | src/src/bot.js:1367-1404 | needs Manage Channels and a text target (`TargetChannel`: the mentioned or current channel); no amount (`SlowmodeAmount`: the first argument, or the second when a channel is mentioned) shows the usage, an amount `SlowmodeSeconds` rejects is out of range; otherwise exactly that many seconds are set on the target and the reply says off or set, or the failure reply is sent |
| Bot.SlowmodeEffects | src/src/bot.js:1372-1403 | a non-text target is refused, a missing amount shows the usage, an amount outside 0 to 21600 is out of range; otherwise exactly the parsed seconds are set on the target, or the failure reply is sent |
| Bot.LockCommand | src/src/bot.js:1407-1451 | needs Manage Channels and a text target (the mentioned or current channel); `,lock` locks it with `LockReason` (the arguments after the channel, all of them when the target is the current channel, or "Channel locked") and `,unlock` unlocks it, each confirmed and then followed by exactly the guild's moderation-log line for it (`LockEntry`, through `LogLines`), when the platform call works; otherwise only the failure reply is sent; a log line appears only after a successful change |
| Bot.LockEffects | src/src/bot.js:1412-1450 | a non-text target is refused; a failed call gives only the failure reply; otherwise the target is locked with the reason (or unlocked), the command confirmed, and exactly the given log lines follow; a log line appears only on success |
| Bot.ClearCommand | src/src/bot.js:1454-1474 | needs Manage Messages; an amount that `ClearAmount` rejects shows the usage; otherwise the amount plus the command itself is deleted (2 to 101 messages) and a notice sent, or the failure reply |
| Bot.ClearEffects | src/src/bot.js:1459-1473 | no accepted amount shows the usage; otherwise the amount plus the command itself (2 to 101 messages) is deleted and a notice sent when the platform call works, or only the failure reply is sent |
| Bot.NickCommand | src/src/bot.js:1477-1499 | needs Manage Nicknames; without a mentioned member, or with nothing after the first argument, it shows the usage; otherwise the first mentioned member's nickname is set to every argument after the first, joined by spaces, and confirmed, or the failure reply is sent |
| Bot.SettingsDispatch | src/src/bot.js:754-1559 | each settings name runs its own handler (nicklock, nickunlock, warnthreshold, log_channel, ticket_channel, apply_channel, apply_open, apply_close, debug_apply, ticket); they touch only this guild's record, save what they change, and leave the ledger, rules and AFK map alone |
| Bot.RecordDispatch | src/src/bot.js:856-1357 | each record name runs its own handler (warn, warnings, clearwarns, autoresponder, afk); only `,autoresponder` changes the rules, only `,afk` the AFK map, and a ledger change is saved except for the lookup of `,warnings` |
| Bot.ModerationDispatch | src/src/bot.js:798-1499 | each moderation name runs its own handler (kick, damage, dm, heal, role, slowmode, lock, unlock, clear, nick; boosterrole is delegated); none changes stored state; `,ban` has no effect at all |
| Bot.Dispatch | src/src/bot.js:754-1561 | an unknown name does nothing; no command answers as an autoresponder; only this guild's settings change, and each changed dataset is saved |
| Bot.DispatchSettings | src/src/bot.js:754-1559 | a settings name is handled by the settings dispatcher |
| Bot.DispatchRecord | src/src/bot.js:856-1357 | a record name is handled by the record dispatcher |
| Bot.DispatchModeration | src/src/bot.js:798-1499 | a moderation name is handled by the moderation dispatcher |
| Bot.OnCommand | src/src/bot.js:745-751 | outside a guild, or without a command word, nothing happens; otherwise the guild's record is looked up and the named handler runs |
| Bot.PrefixedIsNotOwner | src/src/bot.js:627-640 | a message starting with "," is never an owner command |
| Bot.OnMessage | src/src/bot.js:591-750 | bots and empty messages are ignored; the AFK effects always come first; from the owner, text starting `.owner` or `.transcscript` (in any case) gets only the owner panel or the transcript report and never reaches the autoresponders or the commands; other unprefixed text goes to the autoresponders; prefixed text goes to the command handler |
| Bot.PrefixedMessageIsNotAutoresponded | src/src/bot.js:702 | a "," message never gets an autoresponse |
| Bot.TokenisedCommandIsDispatched | src/src/bot.js:745-751 | a prefixed guild message runs the handler its command word names, after the AFK effects |
| Bot.UnknownCommandIsSilent | src/src/bot.js:1561 | an unknown command or `,ban` produces only the AFK effects |
| Bot.AfkEndsOnNextMessage | src/src/bot.js:599-606 | after `,afk`, the author's next message starts with "welcome back", and unless it is a command they are no longer AFK |
| Bot.WarnFiresThresholdsOnlyWhenFixed | src/src/bot.js:1108 | as written, `,warn` never fires a threshold; as intended it fires exactly the matching ones |
| Bot.FirstWarnBanExample | src/src/bot.js:1108 | with a ban threshold at one warning, a member's first `,warn` bans them only in the intended handler |

## Left out

- The booster-role command (bot.js:798-852) is modelled only as a delegated effect. Its role creation, editing and deletion are platform calls on roles the model does not represent.
- `,role` resolves the member and the role by name through the platform. The model keeps the permission and sub-command checks and leaves the rest to a delegated effect.
- The owner commands `.owner` and `.transcscript` (bot.js:627-700) are modelled as one effect each. They list guilds and build transcripts through the platform.
- The button and interaction handlers, the ticket and application workflow (bot.js:1565 onward) and the slash commands are not modelled. The exceptions are the channel-name sanitiser (bot.js:1681-1684) and the `/remind` duration check (bot.js:413-420).
- Embed text, colours, random emojis and reply wording are not modelled. Replies are abstract values.
- Platform failures are one `platformOk` flag per message, and a failed call leaves no effect. A failed direct message is not told apart from a delivered one, because the source ignores those failures. Replies to the command are assumed to be delivered.
- Timers, randomness, clocks and concurrency are not modelled. `Date.now()` is the message's `now` field, and `setTimeout` for `/remind` is out of scope.
- Text.Lower: lowercases only ASCII letters. JavaScript's `toLowerCase` also folds non-ASCII letters.
- Text.ParseInt: the value is an exact integer. The source returns a double, which is rounded beyond 2^53.
- Parsers.DamageMs: durations are exact integers. The source computes them in double precision, which only differs beyond 2^53 ms.
- ThresholdEngine.TimeoutMs: a non-numeric time gives no duration at all. In the source the duration is `NaN`, which postLogin.js:24 passes to the platform, ignoring any error.
- Static autoresponders are an opaque list of predicate-and-reply pairs. The three regular expressions in staticAutoresponders.js:3-7 are not spelled out.
- Channels are compared by id. "Text-based" is a flag carried with each channel.
- Persistence.SettingsRoundTrip: a threshold count or time that is not a number is kept as NaN. `JSON.stringify` (storage.js:93) writes it as `null`, so after a restart the source lists it as `null`, and a `null` time gives a zero-length timeout where NaN gave none. Both still never equal a warning count.
- ThresholdEngine.ResetSettles: assumes the platform reports a nickname set to its current value as an update with no change, if at all. Without that, nothing shows the enforcement stops.
- Bot.WarnCommand: routes an add to the corrected `WarnAddCommand`, so `RecordDispatch`, `Dispatch`, `OnCommand` and `OnMessage` model the intended `,warn`, not the throw at bot.js:1108. `WarnAddAsWritten` alone models the code as written (see Findings).
- `,ban` calls `handleTextBanCommand` (bot.js:1363), which is defined nowhere in the repository. The model gives it no effect, and does not guess at an intended ban behaviour.
- Saves are fire-and-forget effects. Whether a write succeeds is a parameter of `Persistence.SaveMap` and `Persistence.SaveRules`.

## Findings

| source | as written | input that shows it | evidently intended | confidence | as-written member | corrected member |
|---|---|---|---|---|---|---|
| src/src/bot.js:1108 | `checkWarnThresholds` is defined in postLogin.js but never imported into bot.js, so the call throws after the save. No threshold fires, and the warned member gets no DM and the channel no reply. | a guild with the threshold "1 ban", and a first `,warn @member` | the matching thresholds fire, then the DM and the reply are sent | not executed | Bot.WarnAddAsWritten (shown by Bot.WarnFiresThresholdsOnlyWhenFixed and Bot.FirstWarnBanExample) | Bot.WarnAddCommand |
