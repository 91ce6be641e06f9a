/**
  String and number primitives shared by the whole model, stated the way the
  JavaScript runtime behaves: `trim`, the `\s` character class, `toLowerCase`,
  `includes`, `split(/\s+/)`, `join(" ")` and `parseInt`.

  A string is a sequence of Unicode code points (`seq<char>`), which is what
  `Array.from` counts.  `undefined`/`NaN` results are `None`.
 */
module Text {

  datatype Option<+T> = None | Some(value: T)

  /** The ECMAScript WhiteSpace and LineTerminator code points: what `trim`
      removes and what `\s` matches. */
  predicate IsSpace(c: char) {
    || c == '\t' || c == '\n' || c == '\U{000B}' || c == '\U{000C}' || c == '\r' || c == ' '
    || c == '\U{00A0}' || c == '\U{1680}' || ('\U{2000}' <= c <= '\U{200A}')
    || c == '\U{2028}' || c == '\U{2029}' || c == '\U{202F}' || c == '\U{205F}' || c == '\U{3000}'
    || c == '\U{FEFF}'
  }

  predicate NoSpace(s: string) {
    forall i :: 0 <= i < |s| ==> !IsSpace(s[i])
  }

  predicate IsDigit(c: char) {
    '0' <= c <= '9'
  }

  /** `/^\d+$/` */
  predicate AllDigits(s: string) {
    |s| > 0 && forall i :: 0 <= i < |s| ==> IsDigit(s[i])
  }

  predicate StartsWith(s: string, prefix: string) {
    |prefix| <= |s| && s[..|prefix|] == prefix
  }

  // ---------------------------------------------------------------- trim

  /** Leading whitespace removed: the result is a suffix of `s`, starts with a
      non-space (or is empty), and everything dropped was whitespace. */
  function TrimStart(s: string): (r: string)
    ensures |r| <= |s| && r == s[|s| - |r|..]
    ensures |r| > 0 ==> !IsSpace(r[0])
    ensures forall i :: 0 <= i < |s| - |r| ==> IsSpace(s[i])
  {
    if |s| > 0 && IsSpace(s[0]) then
      var r := TrimStart(s[1..]);
      assert s[1..][|s| - 1 - |r|..] == s[|s| - |r|..];
      r
    else s
  }

  /** Trailing whitespace removed: the result is a prefix of `s`, ends with a
      non-space (or is empty), and everything dropped was whitespace. */
  function TrimEnd(s: string): (r: string)
    ensures |r| <= |s| && r == s[..|r|]
    ensures |r| > 0 ==> !IsSpace(r[|r| - 1])
    ensures forall i :: |r| <= i < |s| ==> IsSpace(s[i])
  {
    if |s| > 0 && IsSpace(s[|s| - 1]) then
      var r := TrimEnd(s[..|s| - 1]);
      assert s[..|s| - 1][..|r|] == s[..|r|];
      r
    else s
  }

  /** `String.prototype.trim`: no whitespace at either end. */
  function Trim(s: string): (r: string)
    ensures |r| <= |s|
    ensures |r| > 0 ==> !IsSpace(r[0]) && !IsSpace(r[|r| - 1])
  {
    TrimEnd(TrimStart(s))
  }

  /** Concatenation is associative. */
  lemma AppendAssoc<T>(a: seq<T>, b: seq<T>, c: seq<T>)
    ensures a + (b + c) == (a + b) + c
  {
  }

  /** Dropping the first part of a concatenation leaves the second. */
  lemma DropPrefix<T>(a: seq<T>, b: seq<T>)
    ensures (a + b)[|a|..] == b
  {
  }

  /** Taking a prefix of a suffix is taking a middle slice. */
  lemma SliceOfSuffix<T>(s: seq<T>, k: int, n: int)
    requires 0 <= k <= |s| && 0 <= n <= |s| - k
    ensures s[k..][..n] == s[k..k + n]
  {
  }

  /** The trimmed string is the slice of `s` that starts after the leading
      whitespace. */
  lemma TrimIsSlice(s: string)
    ensures OccursAt(s, Trim(s), |s| - |TrimStart(s)|)
  {
    var t := TrimStart(s);
    var r := TrimEnd(t);
    assert Trim(s) == r;
    PrefixOfSuffixOccurs(s, t, r);
  }

  /** A prefix of a suffix of `s` occurs in `s` where the suffix starts. */
  lemma PrefixOfSuffixOccurs(s: string, t: string, r: string)
    requires |t| <= |s| && t == s[|s| - |t|..]
    requires |r| <= |t| && r == t[..|r|]
    ensures OccursAt(s, r, |s| - |t|)
  {
    SliceOfSuffix(s, |s| - |t|, |r|);
  }

  lemma {:induction false} TrimOfNoSpace(s: string)
    requires NoSpace(s)
    ensures Trim(s) == s
  {
    if |s| > 0 {
      assert !IsSpace(s[0]) && !IsSpace(s[|s| - 1]);
    }
  }

  /** Padding a word without whitespace by one space on each side is undone
      by trimming. */
  lemma TrimPadded(w: string)
    requires NoSpace(w)
    ensures Trim(" " + w + " ") == w
  {
    if w == [] {
      TrimPaddedEmpty(w);
    } else {
      TrimPaddedWord(w);
    }
  }

  lemma TrimPaddedEmpty(w: string)
    requires w == []
    ensures Trim(" " + w + " ") == w
  {
    assert " " + w + " " == [' '] + [' '];
    TrimStartDrops(' ', [' ']);
    TrimStartDrops(' ', []);
    assert [' '] == [' '] + [];
  }

  lemma TrimPaddedWord(w: string)
    requires NoSpace(w) && w != []
    ensures Trim(" " + w + " ") == w
  {
    TrimStartDrops(' ', w + " ");
    assert " " + w + " " == [' '] + (w + " ");
    assert TrimStart(w + " ") == w + " ";
    TrimEndDrops(w, ' ');
    TrimOfNoSpace(w);
  }

  lemma TrimStartDrops(c: char, w: string)
    requires IsSpace(c)
    ensures TrimStart([c] + w) == TrimStart(w)
  {
    assert ([c] + w)[1..] == w;
  }

  lemma TrimEndDrops(w: string, c: char)
    requires IsSpace(c)
    ensures TrimEnd(w + [c]) == TrimEnd(w)
  {
    assert (w + [c])[..|w|] == w;
  }

  // ----------------------------------------------------------- lowercase

  /** `toLowerCase` on one character; only the ASCII letters are mapped. */
  function LowerChar(c: char): char {
    if 'A' <= c <= 'Z' then (c as int + 32) as char else c
  }

  function Lower(s: string): (r: string)
    ensures |r| == |s|
    ensures forall i :: 0 <= i < |s| ==> r[i] == LowerChar(s[i])
  {
    seq(|s|, i requires 0 <= i < |s| => LowerChar(s[i]))
  }

  predicate IsLower(s: string) {
    Lower(s) == s
  }

  lemma LowerIsLower(s: string)
    ensures IsLower(Lower(s))
  {
    assert forall i :: 0 <= i < |s| ==> LowerChar(LowerChar(s[i])) == LowerChar(s[i]);
  }

  /** Lowercasing works character by character, so it commutes with slicing. */
  lemma LowerSlice(s: string, i: int, j: int)
    requires 0 <= i <= j <= |s|
    ensures Lower(s[i..j]) == Lower(s)[i..j]
  {
  }

  /** An occurrence of an already lowercase string survives lowercasing the
      text around it. */
  lemma LowerOccurs(s: string, t: string, i: int)
    requires OccursAt(s, t, i) && IsLower(t)
    ensures OccursAt(Lower(s), t, i)
  {
    LowerSlice(s, i, i + |t|);
    assert Lower(s)[i..i + |t|] == Lower(t);
  }

  // ------------------------------------------------------------ includes

  /** `needle` occurs in `hay` at position `i`. */
  predicate OccursAt(hay: string, needle: string, i: int) {
    0 <= i && i + |needle| <= |hay| && hay[i..i + |needle|] == needle
  }

  /** `hay.includes(needle)`. */
  function Includes(hay: string, needle: string): bool
    decreases |hay|
  {
    StartsWith(hay, needle) || (|hay| > 0 && Includes(hay[1..], needle))
  }

  /** `Includes` holds exactly when `needle` occurs somewhere in `hay`. */
  lemma {:induction false} IncludesIffOccurs(hay: string, needle: string)
    ensures Includes(hay, needle) <==> exists i :: OccursAt(hay, needle, i)
    decreases |hay|
  {
    if StartsWith(hay, needle) {
      assert OccursAt(hay, needle, 0);
    } else if |hay| > 0 {
      IncludesIffOccurs(hay[1..], needle);
      if exists i :: OccursAt(hay, needle, i) {
        var i :| OccursAt(hay, needle, i);
        assert |needle| <= |hay| ==> hay[..|needle|] == hay[0..0 + |needle|];
        assert i > 0;
        assert hay[1..][i - 1..i - 1 + |needle|] == hay[i..i + |needle|];
        assert OccursAt(hay[1..], needle, i - 1);
      }
      if exists i :: OccursAt(hay[1..], needle, i) {
        var i :| OccursAt(hay[1..], needle, i);
        assert hay[1..][i..i + |needle|] == hay[i + 1..i + 1 + |needle|];
        assert OccursAt(hay, needle, i + 1);
      }
    }
  }

  // ------------------------------------------------------ split and join

  /** The longest prefix of `s` without whitespace. */
  function TakeWord(s: string): (w: string)
    ensures |w| <= |s| && w == s[..|w|] && NoSpace(w)
    ensures |w| < |s| ==> IsSpace(s[|w|])
  {
    if |s| == 0 || IsSpace(s[0]) then [] else [s[0]] + TakeWord(s[1..])
  }

  /** The maximal runs of non-whitespace characters of `s`, in order. */
  function Words(s: string): (ws: seq<string>)
    ensures forall k :: 0 <= k < |ws| ==> |ws[k]| > 0 && NoSpace(ws[k])
    decreases |s|
  {
    var t := TrimStart(s);
    if t == [] then []
    else
      var w := TakeWord(t);
      [w] + Words(t[|w|..])
  }

  /** `s.trim().split(/\s+/)`: a blank string splits into one empty token,
      anything else into its words. */
  function SplitWords(s: string): (ws: seq<string>)
    ensures |ws| > 0
    ensures Trim(s) == [] <==> ws == [[]]
  {
    var t := Trim(s);
    if t == [] then [[]]
    else
      WordsOfNonBlank(t);
      Words(t)
  }

  lemma WordsOfNonBlank(t: string)
    requires |t| > 0 && !IsSpace(t[0])
    ensures |Words(t)| > 0 && Words(t)[0] != []
  {
  }

  /** `xs.join(" ")`. */
  function Join(xs: seq<string>): (r: string)
    ensures xs == [] ==> r == []
    ensures |xs| == 1 ==> r == xs[0]
    ensures |xs| > 1 ==> |r| >= |xs| - 1
  {
    if |xs| == 0 then []
    else if |xs| == 1 then xs[0]
    else xs[0] + " " + Join(xs[1..])
  }

  // ------------------------------------------------------------- numbers

  function DigitValue(c: char): nat
    requires IsDigit(c)
  {
    c as int - '0' as int
  }

  function DigitChar(d: nat): (c: char)
    requires d < 10
    ensures IsDigit(c) && DigitValue(c) == d
  {
    ('0' as int + d) as char
  }

  /** The decimal value of a run of digits (the empty run is 0). */
  function DecimalValue(s: string): nat
    requires forall i :: 0 <= i < |s| ==> IsDigit(s[i])
  {
    if |s| == 0 then 0 else DecimalValue(s[..|s| - 1]) * 10 + DigitValue(s[|s| - 1])
  }

  /** The canonical decimal rendering of a natural number. */
  function DecimalText(n: nat): (s: string)
    ensures AllDigits(s)
  {
    if n < 10 then [DigitChar(n)] else DecimalText(n / 10) + [DigitChar(n % 10)]
  }

  lemma {:induction false} DecimalRoundTrip(n: nat)
    ensures DecimalValue(DecimalText(n)) == n
  {
    if n >= 10 {
      var s := DecimalText(n);
      assert s[..|s| - 1] == DecimalText(n / 10);
      DecimalRoundTrip(n / 10);
    }
  }

  /** A run consisting only of zeros has value 0, and only such a run. */
  lemma {:induction false} DecimalValueZero(s: string)
    requires forall i :: 0 <= i < |s| ==> IsDigit(s[i])
    ensures DecimalValue(s) == 0 <==> forall i :: 0 <= i < |s| ==> s[i] == '0'
  {
    if |s| > 0 {
      DecimalValueZero(s[..|s| - 1]);
      assert forall i :: 0 <= i < |s| - 1 ==> s[..|s| - 1][i] == s[i];
    }
  }

  predicate IsHexDigit(c: char) {
    IsDigit(c) || 'a' <= c <= 'f' || 'A' <= c <= 'F'
  }

  function HexDigitValue(c: char): nat
    requires IsHexDigit(c)
  {
    if IsDigit(c) then DigitValue(c)
    else if 'a' <= c <= 'f' then c as int - 'a' as int + 10
    else c as int - 'A' as int + 10
  }

  /** The longest prefix of `s` made of digits of the given radix. */
  function DigitPrefix(s: string, hex: bool): (p: string)
    ensures |p| <= |s| && p == s[..|p|]
    ensures forall i :: 0 <= i < |p| ==> if hex then IsHexDigit(p[i]) else IsDigit(p[i])
    ensures |p| < |s| ==> !(if hex then IsHexDigit(s[|p|]) else IsDigit(s[|p|]))
  {
    if |s| > 0 && (if hex then IsHexDigit(s[0]) else IsDigit(s[0])) then [s[0]] + DigitPrefix(s[1..], hex)
    else []
  }

  function HexValue(s: string): nat
    requires forall i :: 0 <= i < |s| ==> IsHexDigit(s[i])
  {
    if |s| == 0 then 0 else HexValue(s[..|s| - 1]) * 16 + HexDigitValue(s[|s| - 1])
  }

  /** The text after one leading sign, if there is one. */
  function Unsigned(t: string): (u: string)
    ensures |t| > 0 && (t[0] == '-' || t[0] == '+') ==> u == t[1..]
    ensures !(|t| > 0 && (t[0] == '-' || t[0] == '+')) ==> u == t
  {
    if |t| > 0 && (t[0] == '-' || t[0] == '+') then t[1..] else t
  }

  /** In the radix-less form, "0x" or "0X" selects hexadecimal. */
  predicate HexForm(u: string, autoRadix: bool) {
    autoRadix && |u| >= 2 && u[0] == '0' && (u[1] == 'x' || u[1] == 'X')
  }

  /** The magnitude read from the unsigned text: the value of its longest
      digit prefix, or `NaN` when that prefix is empty. */
  function ReadDigits(u: string, autoRadix: bool): (r: Option<nat>)
    ensures var hex := HexForm(u, autoRadix);
      var digits := DigitPrefix(if hex then u[2..] else u, hex);
      && (r.None? <==> digits == [])
      && (r.Some? ==> r.value == if hex then HexValue(digits) else DecimalValue(digits))
  {
    var hex := HexForm(u, autoRadix);
    var digits := DigitPrefix(if hex then u[2..] else u, hex);
    if digits == [] then None
    else Some(if hex then HexValue(digits) else DecimalValue(digits))
  }

  /** The magnitude with the sign the text starts with. */
  function Signed(t: string, v: nat): int {
    var m: int := v;
    if |t| > 0 && t[0] == '-' then -m else m
  }

  /** `parseInt` of a text that no longer starts with whitespace. */
  function ParseTrimmed(t: string, autoRadix: bool): Option<int> {
    match ReadDigits(Unsigned(t), autoRadix)
    case None => None
    case Some(v) => Some(Signed(t, v))
  }

  /** `parseInt(s, 10)` when `autoRadix` is false, `parseInt(s)` when it is
      true (a `0x`/`0X` prefix then switches to hexadecimal).  Leading
      whitespace and one sign are accepted, then the longest digit prefix is
      read; no digit at all is `NaN`.  Doubles are not modelled: the value is
      exact. */
  function ParseInt(s: string, autoRadix: bool): (r: Option<int>)
    ensures AllDigits(s) ==> r == Some(DecimalValue(s))
    ensures s == [] ==> r == None
  {
    AllDigitsParse(s, autoRadix);
    ParseTrimmed(TrimStart(s), autoRadix)
  }

  lemma AllDigitsParse(s: string, autoRadix: bool)
    ensures AllDigits(s) ==> TrimStart(s) == s && Unsigned(s) == s && ReadDigits(s, autoRadix) == Some(DecimalValue(s))
  {
    if AllDigits(s) {
      assert !IsSpace(s[0]);
      assert !HexForm(s, autoRadix);
      DigitPrefixAll(s);
    }
  }

  /** The digit prefix of `p + rest` is `p` when `p` is made of digits of the
      radix and `rest` does not start with one. */
  lemma {:induction false} DigitPrefixOf(p: string, rest: string, hex: bool)
    requires forall i :: 0 <= i < |p| ==> if hex then IsHexDigit(p[i]) else IsDigit(p[i])
    requires rest == [] || !(if hex then IsHexDigit(rest[0]) else IsDigit(rest[0]))
    ensures DigitPrefix(p + rest, hex) == p
  {
    if p == [] {
      assert p + rest == rest;
    } else {
      assert (p + rest)[0] == p[0] && (p + rest)[1..] == p[1..] + rest;
      DigitPrefixOf(p[1..], rest, hex);
      assert [p[0]] + p[1..] == p;
    }
  }

  /** Leading whitespace is skipped. */
  lemma ParseIntSkipsSpace(s: string, autoRadix: bool)
    ensures ParseInt(s, autoRadix) == ParseInt(TrimStart(s), autoRadix)
  {
    TrimStartNoSpace(TrimStart(s));
  }

  /** A text that does not start with whitespace is its own `TrimStart`. */
  lemma TrimStartNoSpace(t: string)
    requires t == [] || !IsSpace(t[0])
    ensures TrimStart(t) == t
  {
  }

  /** A leading "-" negates the number read after it; after the sign no
      whitespace is skipped. */
  lemma ParseIntMinus(s: string, autoRadix: bool)
    requires s == [] || (!IsSpace(s[0]) && s[0] != '-' && s[0] != '+')
    ensures ParseInt("-" + s, autoRadix) == if ParseInt(s, autoRadix).Some? then Some(-ParseInt(s, autoRadix).value) else None
  {
    TrimStartNoSpace(s);
    TrimStartNoSpace("-" + s);
    TrimmedMinus(s, autoRadix);
  }

  /** A leading "+" changes nothing. */
  lemma ParseIntPlus(s: string, autoRadix: bool)
    requires s == [] || (!IsSpace(s[0]) && s[0] != '-' && s[0] != '+')
    ensures ParseInt("+" + s, autoRadix) == ParseInt(s, autoRadix)
  {
    TrimStartNoSpace(s);
    TrimStartNoSpace("+" + s);
    TrimmedPlus(s, autoRadix);
  }

  lemma TrimmedMinus(s: string, autoRadix: bool)
    requires s == [] || (s[0] != '-' && s[0] != '+')
    ensures ParseTrimmed("-" + s, autoRadix) == if ParseTrimmed(s, autoRadix).Some? then Some(-ParseTrimmed(s, autoRadix).value) else None
  {
    assert Unsigned(s) == s && Unsigned("-" + s) == s;
  }

  lemma TrimmedPlus(s: string, autoRadix: bool)
    requires s == [] || (s[0] != '-' && s[0] != '+')
    ensures ParseTrimmed("+" + s, autoRadix) == ParseTrimmed(s, autoRadix)
  {
    assert Unsigned(s) == s && Unsigned("+" + s) == s;
  }

  /** The longest decimal prefix is read and the rest ignored: "12abc" is 12.
      In the radix-less form the same holds unless the text starts "0x". */
  lemma ParseIntDecimalPrefix(d: string, rest: string, autoRadix: bool)
    requires AllDigits(d)
    requires rest == [] || (!IsDigit(rest[0]) && rest[0] != 'x' && rest[0] != 'X')
    ensures ParseInt(d + rest, autoRadix) == Some(DecimalValue(d))
  {
    var u := d + rest;
    assert u[0] == d[0] && !IsSpace(u[0]);
    TrimStartNoSpace(u);
    assert Unsigned(u) == u;
    assert |u| >= 2 ==> u[1] == (if |d| >= 2 then d[1] else rest[0]);
    assert !HexForm(u, autoRadix);
    DigitPrefixOf(d, rest, false);
    assert ReadDigits(u, autoRadix) == Some(DecimalValue(d));
  }

  /** A text whose first character is neither whitespace, a sign nor a digit
      is `NaN`, as is the empty text: "abc" is `NaN`. */
  lemma ParseIntNoDigits(s: string, autoRadix: bool)
    requires s == [] || (!IsSpace(s[0]) && s[0] != '-' && s[0] != '+' && !IsDigit(s[0]))
    ensures ParseInt(s, autoRadix) == None
  {
    TrimStartNoSpace(s);
    assert Unsigned(s) == s;
    assert !HexForm(s, autoRadix);
    assert s != [] ==> DigitPrefix(s, false) == [];
  }

  /** In the radix-less form "0x" (or "0X") switches to hexadecimal: "0x1A"
      is 26; with radix 10 the same text is read as 0. */
  lemma ParseIntHex(x: char, h: string, rest: string)
    requires x == 'x' || x == 'X'
    requires |h| > 0 && forall i :: 0 <= i < |h| ==> IsHexDigit(h[i])
    requires rest == [] || !IsHexDigit(rest[0])
    ensures ParseInt(['0', x] + h + rest, true) == Some(HexValue(h))
    ensures ParseInt(['0', x] + h + rest, false) == Some(0)
  {
    var u := ['0', x] + h + rest;
    assert u[0] == '0' && u[1] == x;
    TrimStartNoSpace(u);
    assert ParseInt(u, true) == ParseTrimmed(u, true);
    assert ParseInt(u, false) == ParseTrimmed(u, false);
    assert Unsigned(u) == u;
    AppendAssoc(['0', x], h, rest);
    DropPrefix(['0', x], h + rest);
    ReadHex(u, h, rest);
    ReadZeroX(u);
  }

  lemma ReadHex(u: string, h: string, rest: string)
    requires |u| >= 2 && u[0] == '0' && (u[1] == 'x' || u[1] == 'X') && u[2..] == h + rest
    requires |h| > 0 && forall i :: 0 <= i < |h| ==> IsHexDigit(h[i])
    requires rest == [] || !IsHexDigit(rest[0])
    ensures ReadDigits(u, true) == Some(HexValue(h))
  {
    assert HexForm(u, true);
    DigitPrefixOf(h, rest, true);
    assert DigitPrefix(u[2..], true) == h;
  }

  lemma ReadZeroX(u: string)
    requires |u| >= 2 && u[0] == '0' && (u[1] == 'x' || u[1] == 'X')
    ensures ReadDigits(u, false) == Some(0)
  {
    assert !HexForm(u, false);
    DigitPrefixOf("0", u[1..], false);
    assert "0" + u[1..] == u;
    assert DecimalValue("0") == 0;
  }

  /** "0x1A" reads as 26 in the radix-less form. */
  lemma ParseIntHexExample()
    ensures ParseInt("0x1A", true) == Some(26)
    ensures ParseInt("0x1A", false) == Some(0)
  {
    ParseIntHex('x', "1A", []);
    assert ['0', 'x'] + "1A" + [] == "0x1A";
    assert HexValue("1A") == HexValue("1") * 16 + 10;
  }

  lemma {:induction false} DigitPrefixAll(s: string)
    requires forall i :: 0 <= i < |s| ==> IsDigit(s[i])
    ensures DigitPrefix(s, false) == s
  {
    if |s| > 0 {
      DigitPrefixAll(s[1..]);
    }
  }
}
