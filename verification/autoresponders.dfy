/**
  Automatic replies to messages that are not prefix commands: the fixed
  easter egg, the static pattern rules, and the global list of dynamic
  trigger rules, plus the commands and the load step that maintain that list.

  Static rules are opaque: each is a predicate over the raw message text and a
  reply; the regular expressions behind them are not modelled.
 */
module Autoresponders {
  import opened Text
  import opened Effects

  // ------------------------------------------------------ custom emojis

  /** A platform custom emoji token `<:name:id>` or `<a:name:id>`. */
  datatype CustomEmoji = CustomEmoji(animated: bool, name: string, id: string)

  predicate NameChar(c: char) {
    'a' <= c <= 'z' || 'A' <= c <= 'Z' || IsDigit(c) || c == '_'
  }

  predicate ValidEmoji(e: CustomEmoji) {
    && |e.name| > 0
    && (forall i :: 0 <= i < |e.name| ==> NameChar(e.name[i]))
    && AllDigits(e.id)
  }

  /** The text between the angle brackets of a rendered emoji. */
  function EmojiInner(e: CustomEmoji): string {
    (if e.animated then "a:" else ":") + e.name + ":" + e.id
  }

  function RenderEmoji(e: CustomEmoji): string {
    "<" + EmojiInner(e) + ">"
  }

  /** The longest prefix of name characters. */
  function TakeName(s: string): (p: string)
    ensures |p| <= |s| && p == s[..|p|]
    ensures forall i :: 0 <= i < |p| ==> NameChar(p[i])
    ensures |p| < |s| ==> !NameChar(s[|p|])
  {
    if |s| > 0 && NameChar(s[0]) then [s[0]] + TakeName(s[1..]) else []
  }

  /** Splits `name:id` where the name is a run of name characters and the id
      a run of digits. */
  function ParseNameId(body: string): (r: Option<(string, string)>)
    ensures r.Some? ==> ValidEmoji(CustomEmoji(false, r.value.0, r.value.1)) && body == r.value.0 + ":" + r.value.1
  {
    var name := TakeName(body);
    if |name| == 0 || |name| == |body| || body[|name|] != ':' then None
    else
      var id := body[|name| + 1..];
      if !AllDigits(id) then None
      else
        assert body == name + ":" + id;
        Some((name, id))
  }

  /** The part between the angle brackets: an optional `a`, then `:name:id`. */
  function ParseInner(inner: string): (r: Option<CustomEmoji>)
    ensures r.Some? ==> ValidEmoji(r.value) && EmojiInner(r.value) == inner
  {
    var animated := |inner| > 0 && inner[0] == 'a';
    var rest := if animated then inner[1..] else inner;
    if |rest| == 0 || rest[0] != ':' then None
    else match ParseNameId(rest[1..])
      case None => None
      case Some(p) =>
        var e := CustomEmoji(animated, p.0, p.1);
        InnerShape(inner, animated, p.0, p.1);
        Some(e)
  }

  lemma InnerShape(inner: string, animated: bool, name: string, id: string)
    requires |inner| > 0 && (animated <==> inner[0] == 'a')
    requires var rest := if animated then inner[1..] else inner;
      |rest| > 0 && rest[0] == ':' && rest[1..] == name + ":" + id
    ensures EmojiInner(CustomEmoji(animated, name, id)) == inner
  {
    if animated {
      assert inner == "a:" + (name + ":" + id);
    } else {
      assert inner == ":" + (name + ":" + id);
    }
  }

  /** Recognises `/^<a?:[a-zA-Z0-9_]+:\d+>$/`: whatever it accepts is exactly
      the rendering of a valid custom emoji. */
  function ParseEmoji(t: string): (r: Option<CustomEmoji>)
    ensures r.Some? ==> ValidEmoji(r.value) && RenderEmoji(r.value) == t
  {
    if |t| < 2 || t[0] != '<' || t[|t| - 1] != '>' then None
    else
      assert t == "<" + t[1..|t| - 1] + ">";
      ParseInner(t[1..|t| - 1])
  }

  /** Every valid custom emoji is recognised from its rendering. */
  lemma ParseRenderedEmoji(e: CustomEmoji)
    requires ValidEmoji(e)
    ensures ParseEmoji(RenderEmoji(e)) == Some(e)
  {
    var t := RenderEmoji(e);
    var inner := EmojiInner(e);
    assert t[1..|t| - 1] == inner;
    ParseInnerOf(e);
  }

  lemma ParseInnerOf(e: CustomEmoji)
    requires ValidEmoji(e)
    ensures ParseInner(EmojiInner(e)) == Some(e)
  {
    var inner := EmojiInner(e);
    var body := e.name + ":" + e.id;
    if e.animated {
      assert inner == "a:" + body;
      assert inner[1..][1..] == body;
    } else {
      assert inner == ":" + body;
      assert inner[1..] == body;
    }
    ParseNameIdOf(e.name, e.id);
  }

  lemma ParseNameIdOf(name: string, id: string)
    requires ValidEmoji(CustomEmoji(false, name, id))
    ensures ParseNameId(name + ":" + id) == Some((name, id))
  {
    var body := name + ":" + id;
    assert body == name + (":" + id);
    TakeNameStops(name, ":" + id);
    assert body[|name|] == ':';
    assert body[|name| + 1..] == id;
  }

  lemma {:induction false} TakeNameStops(name: string, tail: string)
    requires forall i :: 0 <= i < |name| ==> NameChar(name[i])
    requires |tail| > 0 && !NameChar(tail[0])
    ensures TakeName(name + tail) == name
  {
    if name != [] {
      assert (name + tail)[1..] == name[1..] + tail;
      TakeNameStops(name[1..], tail);
    } else {
      assert name + tail == tail;
    }
  }

  /** The rendering of a valid emoji contains no whitespace. */
  lemma RenderedEmojiHasNoSpace(e: CustomEmoji)
    requires ValidEmoji(e)
    ensures NoSpace(RenderEmoji(e))
  {
    var t := RenderEmoji(e);
    forall i | 0 <= i < |t|
      ensures !IsSpace(t[i])
    {
      assert NameChar(t[i]) || t[i] in {'<', '>', ':'};
    }
  }

  // ------------------------------------------------------- emoji responses

  /** `isEmojiResponse`: a response is sent as a reaction when, after trimming,
      it is a custom emoji token or a single code point. */
  function IsEmojiResponse(s: string): (r: bool)
    ensures s == [] ==> !r
    ensures r ==> Trim(s) != [] && NoSpace(Trim(s))
    ensures s != [] && |Trim(s)| == 1 ==> r
    ensures s != [] && ParseEmoji(Trim(s)).Some? ==> r
    ensures |Trim(s)| != 1 && ParseEmoji(Trim(s)).None? ==> !r
  {
    if s == [] then false
    else
      var t := Trim(s);
      match ParseEmoji(t)
      case Some(e) =>
        RenderedEmojiHasNoSpace(e);
        true
      case None => NoSpace(t) && |t| == 1
  }

  /** Any single non-space code point counts as an emoji. */
  lemma SingleCodePointIsEmoji(c: char)
    requires !IsSpace(c)
    ensures IsEmojiResponse([c])
  {
    var s := [c];
    assert NoSpace(s);
    TrimOfNoSpace(s);
    assert |Trim(s)| == 1;
  }

  /** A word of two or more characters that does not start with `<` is sent as
      text, not as a reaction. */
  lemma PlainWordIsNotEmoji(w: string)
    requires NoSpace(w) && |w| >= 2 && w[0] != '<'
    ensures !IsEmojiResponse(w)
  {
    TrimOfNoSpace(w);
  }

  /** A custom emoji token surrounded by spaces is a reaction. */
  lemma PaddedCustomEmoji(e: CustomEmoji)
    requires ValidEmoji(e)
    ensures IsEmojiResponse(" " + RenderEmoji(e) + " ")
  {
    var t := RenderEmoji(e);
    RenderedEmojiHasNoSpace(e);
    TrimPadded(t);
    ParseRenderedEmoji(e);
  }

  // -------------------------------------------------------- dynamic rules

  datatype DynamicRule = DynamicRule(trigger: string, response: string)

  /** The triggers of a stored list are all non-empty and lowercase. */
  predicate Normalised(rules: seq<DynamicRule>) {
    forall i :: 0 <= i < |rules| ==> rules[i].trigger != [] && IsLower(rules[i].trigger)
  }

  /** The three-way test of the dynamic matcher. */
  predicate Matches(trigger: string, raw: string) {
    var t := Lower(trigger);
    var content := Lower(raw);
    content == t || Trim(raw) == t || Includes(content, t)
  }

  /** Because lowercasing is character-wise and idempotent, the three-way test
      is just "the lowercased trigger occurs in the lowercased message". */
  lemma MatchesIsInclusion(trigger: string, raw: string)
    ensures Matches(trigger, raw) <==> Includes(Lower(raw), Lower(trigger))
  {
    var t := Lower(trigger);
    var content := Lower(raw);
    IncludesIffOccurs(content, t);
    LowerIsLower(trigger);
    if content == t {
      assert OccursAt(content, t, 0);
    }
    if Trim(raw) == t {
      TrimmedOccursLowered(raw, t);
    }
  }

  /** A trimmed message that is already lowercase occurs in the lowercased
      message. */
  lemma TrimmedOccursLowered(raw: string, t: string)
    requires Trim(raw) == t && IsLower(t)
    ensures exists i :: OccursAt(Lower(raw), t, i)
  {
    var i := |raw| - |TrimStart(raw)|;
    TrimIsSlice(raw);
    LowerOccurs(raw, t, i);
  }

  /** Index of the first element of `xs` that satisfies `p`. */
  function FirstWhere<T>(xs: seq<T>, p: T -> bool): (r: Option<nat>)
    ensures r.Some? ==> r.value < |xs| && p(xs[r.value])
    ensures r.Some? ==> forall j :: 0 <= j < r.value ==> !p(xs[j])
    ensures r.None? ==> forall j :: 0 <= j < |xs| ==> !p(xs[j])
  {
    if xs == [] then None
    else if p(xs[0]) then Some(0)
    else match FirstWhere(xs[1..], p)
      case None => None
      case Some(i) => Some(i + 1)
  }

  /** Index of the first rule that matches the message. */
  function FirstMatch(rules: seq<DynamicRule>, raw: string): (r: Option<nat>)
    ensures r.Some? ==> r.value < |rules| && Matches(rules[r.value].trigger, raw)
    ensures r.Some? ==> forall j :: 0 <= j < r.value ==> !Matches(rules[j].trigger, raw)
    ensures r.None? ==> forall j :: 0 <= j < |rules| ==> !Matches(rules[j].trigger, raw)
  {
    FirstWhere(rules, (rule: DynamicRule) => Matches(rule.trigger, raw))
  }

  /** What a matched rule does: nothing for a blank response, a reaction for
      an emoji-like one, a text reply otherwise. */
  function Respond(response: string): (effs: seq<Effect>)
    ensures effs == [] <==> Trim(response) == []
    ensures |effs| <= 1
    ensures effs != [] && IsEmojiResponse(Trim(response)) ==> effs == [React(Trim(response))]
    ensures effs != [] && !IsEmojiResponse(Trim(response)) ==> effs == [SendReply(Autoreply(Trim(response)))]
    ensures forall e :: e in effs ==> e.IsAutoresponse() && e != SendReply(EasterEgg)
  {
    var resp := Trim(response);
    if resp == [] then []
    else if IsEmojiResponse(resp) then [React(resp)]
    else [SendReply(Autoreply(resp))]
  }

  /** The dynamic loop: the first matching rule answers, and the rules after
      it are never looked at. */
  function DynamicResponse(rules: seq<DynamicRule>, raw: string): (effs: seq<Effect>)
    ensures FirstMatch(rules, raw).None? ==> effs == []
    ensures FirstMatch(rules, raw).Some? ==> effs == Respond(rules[FirstMatch(rules, raw).value].response)
    ensures |effs| <= 1
    ensures forall e :: e in effs ==> e.IsAutoresponse() && e != SendReply(EasterEgg)
  {
    match FirstMatch(rules, raw)
    case None => []
    case Some(i) => Respond(rules[i].response)
  }

  /** A short trigger matches inside longer words. */
  lemma SubstringMatch()
    ensures Matches("hi", "hiiii")
  {
    assert Lower("hi") == "hi";
    assert Lower("hiiii") == "hiiii";
    assert StartsWith("hiiii", "hi");
  }

  // --------------------------------------------------------- the pipeline

  datatype StaticRule = StaticRule(test: string -> bool, reply: string)

  /** The reply of the first static rule whose test accepts the message. */
  function FirstStatic(statics: seq<StaticRule>, raw: string): (r: Option<string>)
    ensures r.Some? <==> exists i :: 0 <= i < |statics| && statics[i].test(raw)
    ensures r.Some? ==> exists i :: (&& 0 <= i < |statics| && statics[i].test(raw) && statics[i].reply == r.value
                                     && forall j :: 0 <= j < i ==> !statics[j].test(raw))
  {
    if statics == [] then None
    else if statics[0].test(raw) then Some(statics[0].reply)
    else
      var r := FirstStatic(statics[1..], raw);
      assert forall i :: 1 <= i < |statics| ==> statics[1..][i - 1] == statics[i];
      if r.Some? then
        var k :| 0 <= k < |statics| - 1 && statics[1..][k].test(raw) && statics[1..][k].reply == r.value
          && forall j :: 0 <= j < k ==> !statics[1..][j].test(raw);
        assert statics[k + 1].test(raw) && forall j :: 0 <= j < k + 1 ==> !statics[j].test(raw);
        r
      else r
  }

  predicate IsEasterEgg(raw: string) {
    Lower(raw) == "six seven" || Lower(raw) == "67"
  }

  /** The answer after the easter egg: the first static rule that matches, or
      else the dynamic list. */
  function RuleResponse(statics: seq<StaticRule>, rules: seq<DynamicRule>, raw: string): (effs: seq<Effect>)
    ensures |effs| <= 1
    ensures forall e :: e in effs ==> e.IsAutoresponse() && e != SendReply(EasterEgg)
    ensures FirstStatic(statics, raw).Some? ==> effs == [SendReply(Autoreply(FirstStatic(statics, raw).value))]
    ensures FirstStatic(statics, raw).None? ==> effs == DynamicResponse(rules, raw)
  {
    match FirstStatic(statics, raw)
    case Some(reply) => [SendReply(Autoreply(reply))]
    case None => DynamicResponse(rules, raw)
  }

  /** The autoresponder part of the message handler, for a message that does
      not start with ",": the easter egg does not stop the pipeline, the first
      static rule that matches stops it, and only then is the dynamic list
      consulted. */
  function Autorespond(statics: seq<StaticRule>, rules: seq<DynamicRule>, raw: string): (effs: seq<Effect>)
    ensures |effs| <= 2
    ensures forall e :: e in effs ==> e.IsAutoresponse()
    ensures IsEasterEgg(raw) <==> |effs| > 0 && effs[0] == SendReply(EasterEgg)
    ensures effs == (if IsEasterEgg(raw) then [SendReply(EasterEgg)] else []) + RuleResponse(statics, rules, raw)
  {
    var egg := if IsEasterEgg(raw) then [SendReply(EasterEgg)] else [];
    var rest := RuleResponse(statics, rules, raw);
    assert rest != [] ==> rest[0] in rest && rest[0] != SendReply(EasterEgg);
    assert !IsEasterEgg(raw) ==> egg + rest == rest;
    egg + rest
  }

  /** Once a static rule matches, the dynamic list makes no difference. */
  lemma StaticShadowsDynamic(statics: seq<StaticRule>, rules1: seq<DynamicRule>, rules2: seq<DynamicRule>, raw: string)
    requires exists i :: 0 <= i < |statics| && statics[i].test(raw)
    ensures Autorespond(statics, rules1, raw) == Autorespond(statics, rules2, raw)
  {
  }

  // ------------------------------------------------------- list commands

  /** `,autoresponder add`: appends the rule with its trigger lowercased;
      duplicates are allowed. */
  function AddRule(rules: seq<DynamicRule>, trigger: string, response: string): (rules': seq<DynamicRule>)
    ensures |rules'| == |rules| + 1 && rules'[..|rules|] == rules
    ensures rules'[|rules|].response == response && IsLower(rules'[|rules|].trigger)
    ensures Lower(rules'[|rules|].trigger) == Lower(trigger)
    ensures Normalised(rules) && trigger != [] ==> Normalised(rules')
  {
    LowerIsLower(trigger);
    rules + [DynamicRule(Lower(trigger), response)]
  }

  /** Index of the first rule whose stored trigger is exactly `trigger`. */
  function FindTrigger(rules: seq<DynamicRule>, trigger: string): (r: Option<nat>)
    ensures r.Some? ==> r.value < |rules| && rules[r.value].trigger == trigger
    ensures r.Some? ==> forall j :: 0 <= j < r.value ==> rules[j].trigger != trigger
    ensures r.None? ==> forall j :: 0 <= j < |rules| ==> rules[j].trigger != trigger
  {
    if rules == [] then None
    else if rules[0].trigger == trigger then Some(0)
    else match FindTrigger(rules[1..], trigger)
      case None => None
      case Some(i) => Some(i + 1)
  }

  /** `,autoresponder remove`: deletes only the first rule whose trigger equals
      the lowercased argument; `None` (the list is unchanged) when there is none. */
  function RemoveRule(rules: seq<DynamicRule>, trigger: string): (r: Option<seq<DynamicRule>>)
    ensures r.None? <==> forall j :: 0 <= j < |rules| ==> rules[j].trigger != Lower(trigger)
    ensures r.Some? ==> |r.value| == |rules| - 1
    ensures r.Some? ==> exists i :: (&& 0 <= i < |rules| && rules[i].trigger == Lower(trigger)
                                     && (forall j :: 0 <= j < i ==> rules[j].trigger != Lower(trigger))
                                     && r.value == rules[..i] + rules[i + 1..])
    ensures r.Some? && Normalised(rules) ==> Normalised(r.value)
  {
    match FindTrigger(rules, Lower(trigger))
    case None => None
    case Some(i) =>
      var rest := rules[..i] + rules[i + 1..];
      assert forall j :: 0 <= j < |rest| ==> rest[j] == if j < i then rules[j] else rules[j + 1];
      Some(rest)
  }

  // ---------------------------------------------------- loading the list

  /** One element of the parsed file: an object with optional string fields,
      or something whose `trigger` cannot be read or lowercased (null, a
      number trigger, ...), which throws. */
  datatype RawEntry = RawEntry(trigger: Option<string>, response: Option<string>) | Malformed

  datatype Normalisation = Normalisation(rules: seq<DynamicRule>, complete: bool)

  /** The loop of `loadDynamicAutoresponders`: keeps the entries with a
      non-empty trigger, in file order, lowercasing the trigger and defaulting a
      missing response to "".  The loop stops at the first malformed entry,
      keeping what it already pushed (`complete` is then false). */
  function Normalise(es: seq<RawEntry>): (n: Normalisation)
    ensures Normalised(n.rules)
    ensures |n.rules| <= |es|
    ensures n.complete <==> forall i :: 0 <= i < |es| ==> es[i].RawEntry?
  {
    if es == [] then Normalisation([], true)
    else match es[0]
      case Malformed => Normalisation([], false)
      case RawEntry(t, resp) =>
        var rest := Normalise(es[1..]);
        assert forall i :: 1 <= i < |es| ==> es[1..][i - 1] == es[i];
        if t.Some? && t.value != [] then
          LowerIsLower(t.value);
          Normalisation([DynamicRule(Lower(t.value), if resp.Some? then resp.value else "")] + rest.rules, rest.complete)
        else rest
  }

  /** One well-formed entry is kept exactly when its trigger is a non-empty
      string; the kept rule has the trigger lowercased and a missing response
      read as "". */
  lemma NormaliseOne(t: Option<string>, resp: Option<string>)
    ensures Normalise([RawEntry(t, resp)]).complete
    ensures t.Some? && t.value != [] ==>
      Normalise([RawEntry(t, resp)]).rules == [DynamicRule(Lower(t.value), if resp.Some? then resp.value else "")]
    ensures !(t.Some? && t.value != []) ==> Normalise([RawEntry(t, resp)]).rules == []
  {
    assert [RawEntry(t, resp)][1..] == [];
  }

  /** The file is read in order: the rules from a well-formed prefix come
      first, followed by those of the rest. */
  lemma {:induction false} NormaliseAppend(a: seq<RawEntry>, b: seq<RawEntry>)
    requires forall i :: 0 <= i < |a| ==> a[i].RawEntry?
    ensures Normalise(a + b) == Normalisation(Normalise(a).rules + Normalise(b).rules, Normalise(b).complete)
  {
    if a == [] {
      assert a + b == b;
    } else {
      var ab := a + b;
      assert ab[0] == a[0] && ab[1..] == a[1..] + b;
      NormaliseAppend(a[1..], b);
      var x, y := Normalise(a[1..]).rules, Normalise(b).rules;
      var t, resp := a[0].trigger, a[0].response;
      if t.Some? && t.value != [] {
        var k := DynamicRule(Lower(t.value), if resp.Some? then resp.value else "");
        assert Normalise(ab).rules == [k] + (x + y);
        assert Normalise(a).rules == [k] + x;
        assert [k] + (x + y) == ([k] + x) + y;
      }
    }
  }

  /** Loading stops at the first malformed entry: the rules read before it are
      kept, nothing after it is read, and the load counts as failed. */
  lemma NormaliseStops(a: seq<RawEntry>, b: seq<RawEntry>)
    requires forall i :: 0 <= i < |a| ==> a[i].RawEntry?
    ensures Normalise(a + [Malformed] + b) == Normalisation(Normalise(a).rules, false)
  {
    NormaliseAppend(a, [Malformed] + b);
    assert a + [Malformed] + b == a + ([Malformed] + b);
    assert Normalise([Malformed] + b).rules == [];
  }

  /** How the list is written out: one entry per rule. */
  function Export(rules: seq<DynamicRule>): (es: seq<RawEntry>)
    ensures |es| == |rules|
  {
    seq(|rules|, i requires 0 <= i < |rules| => RawEntry(Some(rules[i].trigger), Some(rules[i].response)))
  }

  /** Saving a normalised list and loading it back gives the same list. */
  lemma {:induction false} NormaliseExport(rules: seq<DynamicRule>)
    requires Normalised(rules)
    ensures Normalise(Export(rules)) == Normalisation(rules, true)
  {
    if rules != [] {
      assert Export(rules)[1..] == Export(rules[1..]);
      NormaliseExport(rules[1..]);
      assert rules == [rules[0]] + rules[1..];
    }
  }
}
