/**
  The small pure parsers and validators of the prefix commands: the command
  tokeniser, the duration grammar shared by `/remind` and `,damage`, the
  slowmode and clear amounts, minute rounding, and the ticket channel-name
  sanitiser.
 */
module Parsers {
  import opened Text

  // ------------------------------------------------------------ arguments

  /** `args[i]`: `undefined` (`None`) past the end of the list. */
  function Arg(args: seq<string>, i: nat): (r: Option<string>)
    ensures r.Some? <==> i < |args|
    ensures r.Some? ==> r.value == args[i]
  {
    if i < |args| then Some(args[i]) else None
  }

  datatype Command = Command(name: string, args: seq<string>)

  /** `raw.slice(1).trim().split(/\s+/)`, then the first token lowercased is
      the command; `None` when that token is empty (a blank command). */
  function Tokenise(raw: string): (r: Option<Command>)
    requires |raw| > 0
    ensures r.None? <==> Trim(raw[1..]) == []
    ensures r.Some? ==> r.value.name != [] && IsLower(r.value.name)
    ensures r.Some? ==> forall k :: 0 <= k < |r.value.args| ==> r.value.args[k] != [] && NoSpace(r.value.args[k])
  {
    var ws := SplitWords(raw[1..]);
    if ws[0] == [] then
      assert ws != [[]] ==> Trim(raw[1..]) != [];
      WordsOfNonBlankAll(raw[1..]);
      None
    else
      LowerIsLower(ws[0]);
      WordsOfNonBlankAll(raw[1..]);
      Some(Command(Lower(ws[0]), ws[1..]))
  }

  lemma WordsOfNonBlankAll(s: string)
    ensures Trim(s) != [] ==> SplitWords(s) == Words(Trim(s)) && SplitWords(s)[0] != []
    ensures Trim(s) != [] ==> forall k :: 0 <= k < |SplitWords(s)| ==> SplitWords(s)[k] != [] && NoSpace(SplitWords(s)[k])
  {
    if Trim(s) != [] {
      WordsOfNonBlank(Trim(s));
    }
  }

  /** A command line written as single-spaced words is read back as those
      words: the name lowercased and the arguments verbatim. */
  lemma TokeniseJoin(name: string, args: seq<string>)
    requires name != [] && NoSpace(name)
    requires forall k :: 0 <= k < |args| ==> args[k] != [] && NoSpace(args[k])
    ensures Tokenise("," + Join([name] + args)) == Some(Command(Lower(name), args))
  {
    var ws := [name] + args;
    var line := "," + Join(ws);
    assert line[1..] == Join(ws);
    JoinWords(ws);
    WordsOfNonBlankAll(Join(ws));
  }

  /** `Words` undoes `Join` on words without whitespace, and such a line is
      already trimmed. */
  lemma JoinWords(ws: seq<string>)
    requires |ws| > 0
    requires forall k :: 0 <= k < |ws| ==> ws[k] != [] && NoSpace(ws[k])
    ensures Trim(Join(ws)) == Join(ws) && Join(ws) != []
    ensures Words(Join(ws)) == ws
  {
    JoinEnds(ws);
    TrimOfEnds(Join(ws));
    WordsOfJoin(ws);
  }

  lemma {:induction false} WordsOfJoin(ws: seq<string>)
    requires |ws| > 0
    requires forall k :: 0 <= k < |ws| ==> ws[k] != [] && NoSpace(ws[k])
    ensures Words(Join(ws)) == ws
    decreases |ws|
  {
    if |ws| == 1 {
      WordsOfLone(ws[0]);
    } else {
      WordsOfJoin(ws[1..]);
      WordsOfJoinStep(ws);
    }
  }

  lemma WordsOfJoinStep(ws: seq<string>)
    requires |ws| > 1 && ws[0] != [] && NoSpace(ws[0])
    requires Words(Join(ws[1..])) == ws[1..]
    ensures Words(Join(ws)) == ws
  {
    var rest := Join(ws[1..]);
    var j := Join(ws);
    assert j == ws[0] + " " + rest;
    WordsCons(ws[0], rest);
    assert Words(j) == [ws[0]] + ws[1..];
    assert ws == [ws[0]] + ws[1..];
  }

  lemma WordsOfLone(w: string)
    requires w != [] && NoSpace(w)
    ensures Words(w) == [w]
  {
    WordsOfWord(w, []);
    assert w + [] == w;
  }

  lemma WordsCons(w: string, rest: string)
    requires w != [] && NoSpace(w)
    ensures Words(w + " " + rest) == [w] + Words(rest)
  {
    assert w + " " + rest == w + (" " + rest);
    WordsOfWord(w, " " + rest);
    WordsAfterSpace(rest);
  }

  /** A joined list of non-empty words starts and ends with a non-space. */
  lemma {:induction false} JoinEnds(ws: seq<string>)
    requires |ws| > 0
    requires forall k :: 0 <= k < |ws| ==> ws[k] != [] && NoSpace(ws[k])
    ensures |Join(ws)| > 0 && Join(ws)[0] == ws[0][0] && !IsSpace(Join(ws)[|Join(ws)| - 1])
    decreases |ws|
  {
    if |ws| > 1 {
      JoinEnds(ws[1..]);
      var rest := Join(ws[1..]);
      assert Join(ws) == ws[0] + " " + rest;
    }
  }

  /** A string whose first and last characters are not spaces is its own trim. */
  lemma TrimOfEnds(s: string)
    requires |s| > 0 && !IsSpace(s[0]) && !IsSpace(s[|s| - 1])
    ensures Trim(s) == s
  {
    assert TrimStart(s) == s;
  }

  /** Reading the first word off `w + tail`, when `tail` is empty or starts
      with a space. */
  lemma WordsOfWord(w: string, tail: string)
    requires w != [] && NoSpace(w)
    requires tail == [] || IsSpace(tail[0])
    ensures Words(w + tail) == [w] + Words(tail)
  {
    var s := w + tail;
    assert TrimStart(s) == s;
    TakeWordOf(w, tail);
    assert s[|w|..] == tail;
  }

  lemma {:induction false} TakeWordOf(w: string, tail: string)
    requires NoSpace(w)
    requires tail == [] || IsSpace(tail[0])
    ensures TakeWord(w + tail) == w
    decreases |w|
  {
    if w == [] {
      assert w + tail == tail;
    } else {
      assert (w + tail)[1..] == w[1..] + tail;
      TakeWordOf(w[1..], tail);
      assert [w[0]] + w[1..] == w;
    }
  }

  /** One leading space makes no difference to the words. */
  lemma WordsAfterSpace(rest: string)
    ensures Words(" " + rest) == Words(rest)
  {
    TrimStartDrops(' ', rest);
    assert " " + rest == [' '] + rest;
  }

  // -------------------------------------------------------------- durations

  datatype TimeUnit = Seconds | Minutes | Hours | Days

  function UnitMs(u: TimeUnit): nat {
    match u
    case Seconds => 1000
    case Minutes => 60 * 1000
    case Hours => 60 * 60 * 1000
    case Days => 24 * 60 * 60 * 1000
  }

  /** The unit letter, in either case. */
  function UnitOf(c: char): Option<TimeUnit> {
    if c == 's' || c == 'S' then Some(Seconds)
    else if c == 'm' || c == 'M' then Some(Minutes)
    else if c == 'h' || c == 'H' then Some(Hours)
    else if c == 'd' || c == 'D' then Some(Days)
    else None
  }

  function UnitLetter(u: TimeUnit): (c: char)
    ensures UnitOf(c) == Some(u)
  {
    match u
    case Seconds => 's'
    case Minutes => 'm'
    case Hours => 'h'
    case Days => 'd'
  }

  /** `/^(\d+)(s|m|h|d)?$/i`: a run of digits and an optional unit letter,
      minutes when the letter is missing.  The number is read with
      `parseInt(_, 10)`. */
  function MatchDuration(s: string): (r: Option<(nat, TimeUnit)>)
    ensures AllDigits(s) ==> r == Some((DecimalValue(s), Minutes))
    ensures |s| > 0 && AllDigits(s[..|s| - 1]) && UnitOf(s[|s| - 1]).Some? ==>
      r == Some((DecimalValue(s[..|s| - 1]), UnitOf(s[|s| - 1]).value))
    ensures r.Some? ==> AllDigits(s) || (|s| > 0 && AllDigits(s[..|s| - 1]) && UnitOf(s[|s| - 1]).Some?)
  {
    if AllDigits(s) then Some((DecimalValue(s), Minutes))
    else if |s| > 1 && AllDigits(s[..|s| - 1]) then
      match UnitOf(s[|s| - 1])
      case Some(u) => Some((DecimalValue(s[..|s| - 1]), u))
      case None => None
    else None
  }

  /** `parseDurationToMs`: the duration in milliseconds, `None` (`null`) for
      the empty string or text outside the grammar. */
  function ParseDurationToMs(s: string): (r: Option<nat>)
    ensures s == [] ==> r.None?
    ensures r.Some? <==> MatchDuration(s).Some?
    ensures r.Some? ==> r.value == MatchDuration(s).value.0 * UnitMs(MatchDuration(s).value.1)
  {
    if s == [] then None
    else match MatchDuration(s)
      case None => None
      case Some((v, u)) => Some(v * UnitMs(u))
  }

  /** Rendering an amount with a unit letter and parsing it back gives the
      amount in that unit; without a letter the unit is minutes. */
  lemma DurationRoundTrip(n: nat, u: TimeUnit)
    ensures ParseDurationToMs(DecimalText(n) + [UnitLetter(u)]) == Some(n * UnitMs(u))
    ensures ParseDurationToMs(DecimalText(n)) == Some(n * UnitMs(Minutes))
  {
    var d := DecimalText(n);
    var s := d + [UnitLetter(u)];
    DecimalRoundTrip(n);
    assert s[..|s| - 1] == d;
    assert !IsDigit(s[|s| - 1]);
    assert !AllDigits(s);
  }

  /** `/remind` accepts a time only when it parses to a positive duration,
      that is, when it is in the grammar and its digits are not all zeros. */
  function RemindDelay(s: string): (r: Option<nat>)
    ensures r.Some? ==> r.value > 0 && r == ParseDurationToMs(s)
    ensures r.None? <==> ParseDurationToMs(s).None? || ParseDurationToMs(s).value == 0
  {
    match ParseDurationToMs(s)
    case None => None
    case Some(ms) => if ms <= 0 then None else Some(ms)
  }

  /** A duration is rejected by `/remind` for being zero exactly when its digits
      are all zeros. */
  lemma RemindZero(n: nat, u: TimeUnit)
    ensures RemindDelay(DecimalText(n) + [UnitLetter(u)]).None? <==> n == 0
  {
    DurationRoundTrip(n, u);
  }

  /** The default `,damage` timeout: ten minutes. */
  const DefaultDamageMs: nat := 10 * 60 * 1000

  /** Index of the first argument that does not start with `<@`. */
  function FirstNonMention(args: seq<string>): (r: Option<nat>)
    ensures r.Some? ==> r.value < |args| && !StartsWith(args[r.value], "<@")
    ensures r.Some? ==> forall j :: 0 <= j < r.value ==> StartsWith(args[j], "<@")
    ensures r.None? ==> forall j :: 0 <= j < |args| ==> StartsWith(args[j], "<@")
  {
    if args == [] then None
    else if !StartsWith(args[0], "<@") then Some(0)
    else match FirstNonMention(args[1..])
      case None => None
      case Some(i) => Some(i + 1)
  }

  /** The `,damage` duration: the first argument that is not a mention, read
      with the duration grammar; ten minutes when there is no such argument or
      it is outside the grammar. */
  function DamageMs(args: seq<string>): (ms: nat)
    ensures FirstNonMention(args).None? ==> ms == DefaultDamageMs
    ensures FirstNonMention(args).Some? ==>
      ms == match ParseDurationToMs(args[FirstNonMention(args).value])
            case Some(d) => d
            case None => DefaultDamageMs
  {
    match FirstNonMention(args)
    case None => DefaultDamageMs
    case Some(i) =>
      var t := args[i];
      if t == [] then DefaultDamageMs
      else match MatchDuration(t)
        case None => DefaultDamageMs
        case Some((v, u)) => v * UnitMs(u)
  }

  /** `Math.round(ms / 60000)` for a non-negative duration: the nearest whole
      minute, halves rounded up. */
  function RoundMinutes(ms: nat): (m: nat)
    ensures m * 60000 - 30000 <= ms < m * 60000 + 30000
  {
    (ms + 30000) / 60000
  }

  /** The rounded minute count is the only one within half a minute. */
  lemma RoundMinutesUnique(ms: nat, m: nat)
    requires m * 60000 - 30000 <= ms < m * 60000 + 30000
    ensures RoundMinutes(ms) == m
  {
    var r := RoundMinutes(ms);
    assert (r - m) * 60000 < 60000 && (m - r) * 60000 < 60000;
  }

  // ------------------------------------------------------ slowmode, clear

  const MaxSlowmode := 21600

  /** The `,slowmode` amount: "off" in any letter case or "0" is 0; anything
      else is read with `parseInt(_, 10)` and must lie in 0..21600. */
  function SlowmodeSeconds(amount: string): (r: Option<int>)
    ensures r.Some? ==> 0 <= r.value <= MaxSlowmode
    ensures Lower(amount) == "off" || amount == "0" ==> r == Some(0)
    ensures Lower(amount) != "off" && amount != "0" ==>
      (r.Some? <==> ParseInt(amount, false).Some? && 0 <= ParseInt(amount, false).value <= MaxSlowmode)
    ensures r.Some? && Lower(amount) != "off" && amount != "0" ==> r == ParseInt(amount, false)
  {
    if Lower(amount) == "off" || amount == "0" then Some(0)
    else match ParseInt(amount, false)
      case None => None
      case Some(v) => if v < 0 || v > MaxSlowmode then None else Some(v)
  }

  /** Whole decimal numbers are accepted exactly up to six hours. */
  lemma SlowmodeDigits(amount: string)
    requires AllDigits(amount)
    ensures SlowmodeSeconds(amount).Some? <==> DecimalValue(amount) <= MaxSlowmode
  {
    assert Lower(amount) != "off" by {
      assert Lower(amount)[0] == LowerChar(amount[0]);
    }
    if amount == "0" {
      assert DecimalValue(amount) == 0;
    }
  }

  /** The `,clear` amount: `parseInt(args[0], 10)` in 1..100. */
  function ClearAmount(arg: Option<string>): (r: Option<int>)
    ensures r.Some? ==> 1 <= r.value <= 100
    ensures arg.None? ==> r.None?
    ensures arg.Some? ==> (r.Some? <==> ParseInt(arg.value, false).Some? && 1 <= ParseInt(arg.value, false).value <= 100)
    ensures r.Some? ==> r == ParseInt(arg.value, false)
  {
    match arg
    case None => None
    case Some(a) =>
      match ParseInt(a, false)
      case None => None
      case Some(v) => if v < 1 || v > 100 then None else Some(v)
  }

  // ------------------------------------------------------- channel names

  /** `[a-z0-9\-]` with the `i` flag. */
  predicate NameSafe(c: char) {
    'a' <= c <= 'z' || 'A' <= c <= 'Z' || '0' <= c <= '9' || c == '-'
  }

  /** What the replacement makes of one code point: a safe character stays, any
      other becomes "-", and one outside the Basic Multilingual Plane, being
      two UTF-16 units to a regular expression without the `u` flag, becomes
      "--". */
  function SanitiseChar(c: char): (r: string)
    ensures |r| == 1 || |r| == 2
    ensures NameSafe(c) ==> r == [c]
  {
    if NameSafe(c) then [c]
    else if c as int >= 0x10000 then "--"
    else "-"
  }

  /** A code point a UTF-16 string holds in one unit. */
  predicate InBmp(c: char) {
    c as int < 0x10000
  }

  /** The replacement: for text within the Basic Multilingual Plane each safe
      character stays in its place and every other one becomes "-". */
  function Sanitise(s: string): (r: string)
    ensures |r| >= |s|
    ensures forall i :: 0 <= i < |r| ==> NameSafe(r[i])
    ensures (forall i :: 0 <= i < |s| ==> InBmp(s[i])) ==>
      |r| == |s| && forall i :: 0 <= i < |s| ==> r[i] == (if NameSafe(s[i]) then s[i] else '-')
  {
    if s == [] then []
    else
      var rest := Sanitise(s[1..]);
      assert forall i :: 1 <= i < |s| ==> s[1..][i - 1] == s[i];
      SanitiseChar(s[0]) + rest
  }

  function Min(a: int, b: int): int {
    if a <= b then a else b
  }

  /** `name.replace(/[^a-z0-9\-]/gi, "-").toLowerCase().slice(0, 90)`: the
      first 90 characters of the lowercased, sanitised name. */
  function ChannelName(name: string): (r: string)
    ensures |r| <= 90
    ensures |name| > 0 ==> |r| > 0
    ensures forall i :: 0 <= i < |r| ==> ('a' <= r[i] <= 'z' || '0' <= r[i] <= '9' || r[i] == '-')
    ensures |r| == Min(90, |Lower(Sanitise(name))|) && r == Lower(Sanitise(name))[..|r|]
    ensures (forall i :: 0 <= i < |name| ==> InBmp(name[i])) ==>
      |r| == Min(90, |name|) && forall i :: 0 <= i < |r| ==> r[i] == LowerChar(if NameSafe(name[i]) then name[i] else '-')
  {
    var l := Lower(Sanitise(name));
    if |l| <= 90 then l else l[..90]
  }

  /** The channel name of a ticket: the kind, a dash and the user name. For
      text inside the Basic Multilingual Plane and a kind shorter than the
      limit, the name opens with the sanitised, lowercased kind and a dash. */
  function TicketChannelName(base: string, username: string): (r: string)
    ensures |r| <= 90
    ensures (forall i :: 0 <= i < |base| ==> InBmp(base[i])) && (forall i :: 0 <= i < |username| ==> InBmp(username[i])) && |base| < 90 ==>
      && |r| > |base| && r[|base|] == '-'
      && forall i :: 0 <= i < |base| ==> r[i] == LowerChar(if NameSafe(base[i]) then base[i] else '-')
  {
    var name := base + "-" + username;
    assert forall i :: 0 <= i < |base| ==> name[i] == base[i];
    assert name[|base|] == '-';
    assert forall i :: |base| < i < |name| ==> name[i] == username[i - |base| - 1];
    ChannelName(name)
  }

  /** Characters a sanitised name may hold. */
  predicate CleanChar(c: char) {
    'a' <= c <= 'z' || '0' <= c <= '9' || c == '-'
  }

  /** A name that is already lowercase, safe and at most 90 long is kept as it
      is; in particular sanitising is idempotent. */
  lemma {:induction false} ChannelNameKeepsClean(name: string)
    requires |name| <= 90 && forall i :: 0 <= i < |name| ==> CleanChar(name[i])
    ensures ChannelName(name) == name
  {
    SanitiseSafe(name);
    assert forall i :: 0 <= i < |name| ==> LowerChar(name[i]) == name[i];
  }

  lemma {:induction false} SanitiseSafe(s: string)
    requires forall i :: 0 <= i < |s| ==> NameSafe(s[i])
    ensures Sanitise(s) == s
  {
    if s != [] {
      SanitiseSafe(s[1..]);
      assert [s[0]] + s[1..] == s;
    }
  }

  lemma ChannelNameIdempotent(name: string)
    ensures ChannelName(ChannelName(name)) == ChannelName(name)
  {
    ChannelNameKeepsClean(ChannelName(name));
  }

  /** A code point outside the Basic Multilingual Plane takes two dashes. */
  lemma AstralTakesTwoDashes(c: char)
    requires c as int >= 0x10000
    ensures ChannelName([c]) == "--"
  {
    assert Sanitise([c]) == "--" + Sanitise([]);
  }
}
