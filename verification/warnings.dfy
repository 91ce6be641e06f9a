/**
  The warning ledger: one record per (guild, user) pair, keyed by the string
  `guildId-userId`, holding a warning count and an append-only audit history.
  Records are created lazily on first access and never deleted.
 */
module Warnings {
  import opened Text
  import opened Effects

  datatype WarnEvent =
    | Added(actor: UserId, reason: string, at: int)
    | Removed(actor: UserId, count: int, at: int)
    | Cleared(actor: UserId, at: int)

  datatype WarningRecord = WarningRecord(count: int, history: seq<WarnEvent>)

  type Ledger = map<string, WarningRecord>

  /** The record a key that was never seen starts with. */
  const Fresh := WarningRecord(0, [])

  /** What an access to `key` finds: the stored record, or the fresh one it
      would create. */
  function Current(m: Ledger, key: string): WarningRecord {
    if key in m then m[key] else Fresh
  }

  /** No recorded count is negative. */
  ghost predicate NonNegative(m: Ledger) {
    forall k :: k in m ==> m[k].count >= 0
  }

  /** Every key other than `key` is present in both maps with the same record,
      or absent from both. */
  ghost predicate OthersUnchanged(m: Ledger, m': Ledger, key: string) {
    forall k :: k != key ==> (k in m <==> k in m') && (k in m ==> m'[k] == m[k])
  }

  // ------------------------------------------------------------- keys

  function WarnKey(g: GuildId, u: UserId): string {
    g + "-" + u
  }

  /** Recovers the (guild, user) pair from a key by cutting at the first dash. */
  function SplitKey(k: string): (p: (string, string))
    ensures |p.0| <= |k|
  {
    if k == [] then ([], [])
    else if k[0] == '-' then ([], k[1..])
    else
      var rest := SplitKey(k[1..]);
      ([k[0]] + rest.0, rest.1)
  }

  /** For a guild id without a dash (a numeric snowflake, for one), the key
      decodes back to the pair it was built from. */
  lemma {:induction false} SplitWarnKey(g: GuildId, u: UserId)
    requires forall i :: 0 <= i < |g| ==> g[i] != '-'
    ensures SplitKey(WarnKey(g, u)) == (g, u)
  {
    if g == [] {
      assert WarnKey(g, u) == ['-'] + u;
    } else {
      var k := WarnKey(g, u);
      assert k[0] == g[0] && k[1..] == WarnKey(g[1..], u);
      SplitWarnKey(g[1..], u);
      assert [g[0]] + g[1..] == g;
    }
  }

  /** Distinct pairs of digit-only ids never share a key. */
  lemma WarnKeyInjective(g1: GuildId, u1: UserId, g2: GuildId, u2: UserId)
    requires AllDigits(g1) && AllDigits(u1) && AllDigits(g2) && AllDigits(u2)
    requires (g1, u1) != (g2, u2)
    ensures WarnKey(g1, u1) != WarnKey(g2, u2)
  {
    SplitWarnKey(g1, u1);
    SplitWarnKey(g2, u2);
  }

  // ------------------------------------------------------- get-or-create

  datatype Access = Access(record: WarningRecord, ledger: Ledger)

  /** `getWarningData`: returns the stored record for the pair, inserting a
      zero-count record with empty history when there is none. */
  function GetWarningData(m: Ledger, g: GuildId, u: UserId): (a: Access)
    ensures WarnKey(g, u) in m ==> a.record == m[WarnKey(g, u)] && a.ledger == m
    ensures WarnKey(g, u) !in m ==> a.record == WarningRecord(0, []) && a.ledger.Keys == m.Keys + {WarnKey(g, u)}
    ensures WarnKey(g, u) in a.ledger && a.ledger[WarnKey(g, u)] == a.record
    ensures OthersUnchanged(m, a.ledger, WarnKey(g, u))
  {
    var key := WarnKey(g, u);
    if key in m then Access(m[key], m) else Access(Fresh, m[key := Fresh])
  }

  lemma GetWarningDataIdempotent(m: Ledger, g: GuildId, u: UserId)
    ensures GetWarningData(GetWarningData(m, g, u).ledger, g, u) == GetWarningData(m, g, u)
  {
  }

  // ------------------------------------------------------------ commands

  /** `,warn @user reason`: one more warning and one `add` event. */
  function WarnAdd(m: Ledger, g: GuildId, u: UserId, actor: UserId, reason: string, at: int): (m': Ledger)
    ensures WarnKey(g, u) in m'
    ensures m'[WarnKey(g, u)].count == Current(m, WarnKey(g, u)).count + 1
    ensures m'[WarnKey(g, u)].history == Current(m, WarnKey(g, u)).history + [Added(actor, reason, at)]
    ensures OthersUnchanged(m, m', WarnKey(g, u))
  {
    var a := GetWarningData(m, g, u);
    a.ledger[WarnKey(g, u) := WarningRecord(a.record.count + 1, a.record.history + [Added(actor, reason, at)])]
  }

  function Max0(x: int): int {
    if x < 0 then 0 else x
  }

  /** `,warn remove @user n`: the count drops by `n` but never below zero, and
      the event records the requested `n`, not the amount actually removed. */
  function WarnRemove(m: Ledger, g: GuildId, u: UserId, actor: UserId, n: int, at: int): (m': Ledger)
    ensures WarnKey(g, u) in m'
    ensures m'[WarnKey(g, u)].count >= 0
    ensures Current(m, WarnKey(g, u)).count >= n ==> m'[WarnKey(g, u)].count == Current(m, WarnKey(g, u)).count - n
    ensures Current(m, WarnKey(g, u)).count < n ==> m'[WarnKey(g, u)].count == 0
    ensures m'[WarnKey(g, u)].history == Current(m, WarnKey(g, u)).history + [Removed(actor, n, at)]
    ensures OthersUnchanged(m, m', WarnKey(g, u))
  {
    var a := GetWarningData(m, g, u);
    a.ledger[WarnKey(g, u) := WarningRecord(Max0(a.record.count - n), a.record.history + [Removed(actor, n, at)])]
  }

  /** `,clearwarns @user`: the count becomes zero whatever it was, earlier
      history is kept and one `clear` event is appended. */
  function ClearWarns(m: Ledger, g: GuildId, u: UserId, actor: UserId, at: int): (m': Ledger)
    ensures WarnKey(g, u) in m'
    ensures m'[WarnKey(g, u)].count == 0
    ensures m'[WarnKey(g, u)].history == Current(m, WarnKey(g, u)).history + [Cleared(actor, at)]
    ensures OthersUnchanged(m, m', WarnKey(g, u))
  {
    var a := GetWarningData(m, g, u);
    a.ledger[WarnKey(g, u) := WarningRecord(0, a.record.history + [Cleared(actor, at)])]
  }

  /** Index of the first argument made only of digits, if any. */
  function FirstDigitsArg(args: seq<string>): (r: Option<nat>)
    ensures r.Some? ==> r.value < |args| && AllDigits(args[r.value])
    ensures r.Some? ==> forall j :: 0 <= j < r.value ==> !AllDigits(args[j])
    ensures r.None? ==> forall j :: 0 <= j < |args| ==> !AllDigits(args[j])
  {
    if args == [] then None
    else if AllDigits(args[0]) then Some(0)
    else match FirstDigitsArg(args[1..])
      case None => None
      case Some(i) => Some(i + 1)
  }

  /** The amount `,warn remove` asks for: the first all-digit argument, read
      with `parseInt(_, 10)`, or 1 when there is none. */
  function RemoveAmount(args: seq<string>): (n: nat)
    ensures FirstDigitsArg(args).None? ==> n == 1
    ensures FirstDigitsArg(args).Some? ==> n == DecimalValue(args[FirstDigitsArg(args).value])
    ensures FirstDigitsArg(args).Some? ==>
      (n == 0 <==> forall i :: 0 <= i < |args[FirstDigitsArg(args).value]| ==> args[FirstDigitsArg(args).value][i] == '0')
  {
    match FirstDigitsArg(args)
    case None => 1
    case Some(i) =>
      assert i == FirstDigitsArg(args).value;
      DecimalValueZero(args[i]);
      var v := ParseInt(args[i], false).value;
      assert v == DecimalValue(args[i]);
      v
  }

  // -------------------------------------------------------------- lemmas

  /** All three commands keep every count non-negative. */
  lemma CommandsKeepNonNegative(m: Ledger, g: GuildId, u: UserId, actor: UserId, reason: string, n: int, at: int)
    requires NonNegative(m)
    ensures NonNegative(WarnAdd(m, g, u, actor, reason, at))
    ensures NonNegative(WarnRemove(m, g, u, actor, n, at))
    ensures NonNegative(ClearWarns(m, g, u, actor, at))
  {
    var key := WarnKey(g, u);
    assert Current(m, key).count >= 0;
  }

  /** Adding one warning to a new pair and removing one leaves it at zero;
      removing from a new pair also leaves it at zero, never below. */
  lemma AddThenRemoveOnFresh(m: Ledger, g: GuildId, u: UserId, actor: UserId, reason: string, at: int)
    requires WarnKey(g, u) !in m
    ensures WarnRemove(WarnAdd(m, g, u, actor, reason, at), g, u, actor, 1, at)[WarnKey(g, u)].count == 0
    ensures WarnRemove(m, g, u, actor, 1, at)[WarnKey(g, u)].count == 0
  {
  }

  /** The history only grows: each command keeps the old events as a prefix
      and appends exactly one. */
  lemma HistoryAppendOnly(m: Ledger, g: GuildId, u: UserId, actor: UserId, reason: string, n: int, at: int)
    requires WarnKey(g, u) in m
    ensures var h := m[WarnKey(g, u)].history;
      && WarnAdd(m, g, u, actor, reason, at)[WarnKey(g, u)].history[..|h|] == h
      && WarnRemove(m, g, u, actor, n, at)[WarnKey(g, u)].history[..|h|] == h
      && ClearWarns(m, g, u, actor, at)[WarnKey(g, u)].history[..|h|] == h
      && |WarnAdd(m, g, u, actor, reason, at)[WarnKey(g, u)].history| == |h| + 1
      && |WarnRemove(m, g, u, actor, n, at)[WarnKey(g, u)].history| == |h| + 1
      && |ClearWarns(m, g, u, actor, at)[WarnKey(g, u)].history| == |h| + 1
  {
  }
}
