/**
 JSON text, as far as a reference key needs it: strings with every escape of
 section 7 of RFC 8259, and values that are skipped. Characters are Unicode
 scalar values.
 */
module JsonText {
  import opened Wrappers

  const QUOTE: char := '"'
  const BACKSLASH: char := '\\'

  predicate IsControl(c: char) {
    (c as int) < 0x20
  }

  /** The characters a JSON string cannot hold as they are. */
  predicate NeedsEscape(c: char) {
    c == QUOTE || c == BACKSLASH || IsControl(c)
  }

  function HexDigit(c: char): Option<int> {
    if '0' <= c <= '9' then Some((c as int) - ('0' as int))
    else if 'a' <= c <= 'f' then Some((c as int) - ('a' as int) + 10)
    else if 'A' <= c <= 'F' then Some((c as int) - ('A' as int) + 10)
    else None
  }

  /** Four hexadecimal digits at the start of `s`. */
  function Hex4(s: string): (u: Option<int>)
    ensures u.Some? ==> |s| >= 4 && 0 <= u.value <= 0xFFFF
  {
    if |s| < 4 then None
    else
      var (a, b, c, d) := (HexDigit(s[0]), HexDigit(s[1]), HexDigit(s[2]), HexDigit(s[3]));
      if a.None? || b.None? || c.None? || d.None? then None
      else Some(((a.value * 16 + b.value) * 16 + c.value) * 16 + d.value)
  }

  predicate IsHigh(u: int) {
    0xD800 <= u <= 0xDBFF
  }

  predicate IsLow(u: int) {
    0xDC00 <= u <= 0xDFFF
  }

  function PairValue(high: int, low: int): int {
    0x10000 + (high - 0xD800) * 0x400 + (low - 0xDC00)
  }

  function Short(c: char): Option<char> {
    match c
    case '"' => Some('"')
    case '\\' => Some('\\')
    case '/' => Some('/')
    case 'b' => Some(8 as char)
    case 'f' => Some(12 as char)
    case 'n' => Some(10 as char)
    case 'r' => Some(13 as char)
    case 't' => Some(9 as char)
    case _ => None
  }

  /** The character an escape stands for, and how long the escape is. A lone surrogate stands for nothing. */
  function Escaped(s: string): (e: Option<(char, int)>)
    ensures e.Some? ==> 2 <= e.value.1 <= |s|
  {
    if |s| < 2 || s[0] != BACKSLASH then None
    else if s[1] != 'u' then
      var c := Short(s[1]);
      if c.Some? then Some((c.value, 2)) else None
    else
      var u := Hex4(s[2..]);
      if u.None? || IsLow(u.value) then None
      else if !IsHigh(u.value) then Some((u.value as char, 6))
      else if |s| < 12 || s[6] != BACKSLASH || s[7] != 'u' then None
      else
        var v := Hex4(s[8..]);
        if v.None? || !IsLow(v.value) then None else Some((PairValue(u.value, v.value) as char, 12))
  }

  /** The next character of a string body. */
  function Next(s: string): (e: Option<(char, int)>)
    ensures e.Some? ==> 1 <= e.value.1 <= |s|
  {
    if s == "" || s[0] == QUOTE || IsControl(s[0]) then None
    else if s[0] == BACKSLASH then Escaped(s)
    else Some((s[0], 1))
  }

  /** Decode a string body up to its closing quote; the rest comes after the quote. */
  function Unescape(s: string): (r: Option<(string, string)>)
    ensures r.Some? ==> |r.value.1| < |s|
    decreases |s|
  {
    if s == "" then None
    else if s[0] == QUOTE then Some(("", s[1..]))
    else
      var c := Next(s);
      if c.None? then None
      else
        var tail := Unescape(s[c.value.1..]);
        if tail.None? then None else Some(([c.value.0] + tail.value.0, tail.value.1))
  }

  // --- what may be written for a character ------------------------------------

  /** The spellings section 7 of RFC 8259 allows for a character. */
  predicate Spelling(c: char, p: string) {
    || (p == [c] && !NeedsEscape(c))
    || (|p| == 2 && p[0] == BACKSLASH && p[1] != 'u' && Short(p[1]) == Some(c))
    || (|p| == 6 && p[..2] == "\\u" && Hex4(p[2..]) == Some(c as int))
    || (|p| == 12 && p[..2] == "\\u" && p[6..8] == "\\u" && Hex4(p[2..]).Some? && Hex4(p[8..]).Some?
        && IsHigh(Hex4(p[2..]).value) && IsLow(Hex4(p[8..]).value)
        && PairValue(Hex4(p[2..]).value, Hex4(p[8..]).value) == c as int)
  }

  /** Spelled with an escape only where one is needed. */
  predicate MinimalSpelling(c: char, p: string) {
    Spelling(c, p) && (!NeedsEscape(c) ==> p == [c])
  }

  function Concat(pieces: seq<string>): string {
    if pieces == [] then "" else pieces[0] + Concat(pieces[1..])
  }

  ghost predicate Spells(t: string, pieces: seq<string>) {
    |pieces| == |t| && forall i :: 0 <= i < |t| ==> Spelling(t[i], pieces[i])
  }

  ghost predicate SpellsMinimally(t: string, pieces: seq<string>) {
    |pieces| == |t| && forall i :: 0 <= i < |t| ==> MinimalSpelling(t[i], pieces[i])
  }

  lemma Hex4Prefix(p: string, rest: string)
    requires |p| >= 4
    ensures Hex4(p + rest) == Hex4(p)
  {
  }

  lemma SpellingIsNext(c: char, p: string, rest: string)
    requires Spelling(c, p)
    ensures Next(p + rest) == Some((c, |p|))
  {
    var s := p + rest;
    if |p| == 6 {
      assert s[2..] == p[2..] + rest && s[0] == p[..2][0] && s[1] == p[..2][1];
      Hex4Prefix(p[2..], rest);
    } else if |p| == 12 {
      assert s[2..] == p[2..] + rest && s[0] == p[..2][0] && s[1] == p[..2][1];
      assert s[8..] == p[8..] + rest && s[6] == p[6..8][0] && s[7] == p[6..8][1];
      Hex4Prefix(p[2..], rest);
      Hex4Prefix(p[8..], rest);
    }
  }

  lemma NextIsSpelling(s: string)
    requires Next(s).Some?
    ensures Spelling(Next(s).value.0, s[..Next(s).value.1])
  {
    var (c, k) := Next(s).value;
    var p := s[..k];
    if k == 6 {
      assert s[2..] == p[2..] + s[6..] && p[..2] == "\\u";
      Hex4Prefix(p[2..], s[6..]);
    } else if k == 12 {
      assert s[2..] == p[2..] + s[12..] && p[..2] == "\\u";
      assert s[8..] == p[8..] + s[12..] && p[6..8] == "\\u";
      Hex4Prefix(p[2..], s[12..]);
      Hex4Prefix(p[8..], s[12..]);
    }
  }

  /** Decoding undoes every legal spelling of every string. */
  lemma {:induction false} DecodesEverySpelling(t: string, pieces: seq<string>, rest: string)
    requires Spells(t, pieces)
    ensures Unescape(Concat(pieces) + [QUOTE] + rest) == Some((t, rest))
    decreases |t|
  {
    var s := Concat(pieces) + [QUOTE] + rest;
    if t == "" {
      assert s == [QUOTE] + rest;
    } else {
      var p, tail := pieces[0], Concat(pieces[1..]) + [QUOTE] + rest;
      assert Spelling(t[0], p);
      assert s == p + tail;
      SpellingIsNext(t[0], p, tail);
      assert s[|p|..] == tail;
      DecodesEverySpelling(t[1..], pieces[1..], rest);
      assert [t[0]] + t[1..] == t;
    }
  }

  lemma OneMoreSpelled(c: char, p: string, t: string, tail: seq<string>, rest: string)
    requires Spelling(c, p) && Spells(t, tail)
    ensures Spells([c] + t, [p] + tail)
    ensures Concat([p] + tail) + [QUOTE] + rest == p + (Concat(tail) + [QUOTE] + rest)
  {
    assert ([p] + tail)[1..] == tail;
  }

  /** Whatever decodes is a legal spelling of what it decodes to, closed by the quote. */
  lemma {:induction false} OnlySpellingsDecode(s: string) returns (pieces: seq<string>)
    requires Unescape(s).Some?
    ensures Spells(Unescape(s).value.0, pieces)
    ensures s == Concat(pieces) + [QUOTE] + Unescape(s).value.1
    decreases |s|
  {
    if s[0] == QUOTE {
      pieces := [];
      assert s == [QUOTE] + s[1..];
    } else {
      var (c, k) := Next(s).value;
      NextIsSpelling(s);
      var tail := OnlySpellingsDecode(s[k..]);
      OneMoreSpelled(c, s[..k], Unescape(s[k..]).value.0, tail, Unescape(s[k..]).value.1);
      pieces := [s[..k]] + tail;
      assert s == s[..k] + s[k..];
    }
  }

  /** A string without characters to escape has one minimal spelling: itself. */
  lemma {:induction false} PlainIsItself(t: string, pieces: seq<string>)
    requires SpellsMinimally(t, pieces) && forall i :: 0 <= i < |t| ==> !NeedsEscape(t[i])
    ensures Concat(pieces) == t
  {
    if t != "" {
      assert MinimalSpelling(t[0], pieces[0]);
      PlainIsItself(t[1..], pieces[1..]);
      assert t == [t[0]] + t[1..];
    }
  }

  function HexChar(d: int): char
    requires 0 <= d < 16
  {
    if d < 10 then (d + ('0' as int)) as char else (d - 10 + ('a' as int)) as char
  }

  function EncodeChar(c: char): string {
    if c == QUOTE then "\\\""
    else if c == BACKSLASH then "\\\\"
    else if IsControl(c) then ['\\', 'u', '0', '0', HexChar(c as int / 16), HexChar(c as int % 16)]
    else [c]
  }

  /** A printer that escapes only what it must. */
  function Encode(t: string): seq<string> {
    if t == "" then [] else [EncodeChar(t[0])] + Encode(t[1..])
  }

  lemma EncodeCharIsMinimal(c: char)
    ensures MinimalSpelling(c, EncodeChar(c))
  {
    if IsControl(c) {
      var p := EncodeChar(c);
      assert p[..2] == "\\u" && p[2..] == ['0', '0', HexChar(c as int / 16), HexChar(c as int % 16)];
    }
  }

  /** Encode, then decode: every string comes back. */
  lemma {:induction false} EncodeRoundTrip(t: string, rest: string)
    ensures SpellsMinimally(t, Encode(t))
    ensures Unescape(Concat(Encode(t)) + [QUOTE] + rest) == Some((t, rest))
  {
    EncodesMinimally(t);
    DecodesEverySpelling(t, Encode(t), rest);
  }

  lemma {:induction false} EncodesMinimally(t: string)
    ensures SpellsMinimally(t, Encode(t))
  {
    if t != "" {
      EncodeCharIsMinimal(t[0]);
      EncodesMinimally(t[1..]);
    }
  }

  // --- values that are only skipped --------------------------------------------

  predicate IsWhitespace(c: char) {
    c == ' ' || c == '\t' || c == '\n' || c == '\r'
  }

  function SkipWs(s: string): (r: string)
    ensures |r| <= |s|
    ensures r == "" || !IsWhitespace(r[0])
  {
    if s != "" && IsWhitespace(s[0]) then SkipWs(s[1..]) else s
  }

  function SkipDigits(s: string): (r: string)
    ensures |r| <= |s|
  {
    if s != "" && '0' <= s[0] <= '9' then SkipDigits(s[1..]) else s
  }

  /** At least one digit. */
  function SomeDigits(s: string): (r: Option<string>)
    ensures r.Some? ==> |r.value| < |s|
  {
    if s != "" && '0' <= s[0] <= '9' then Some(SkipDigits(s[1..])) else None
  }

  function SkipExponent(s: string): (r: Option<string>)
    ensures r.Some? ==> |r.value| <= |s|
  {
    if s == "" || (s[0] != 'e' && s[0] != 'E') then Some(s)
    else if |s| > 1 && (s[1] == '+' || s[1] == '-') then SomeDigits(s[2..])
    else SomeDigits(s[1..])
  }

  function SkipNumber(s: string): (r: Option<string>)
    ensures r.Some? ==> |r.value| < |s|
  {
    var body := if s != "" && s[0] == '-' then s[1..] else s;
    var whole := if body != "" && body[0] == '0' then Some(body[1..]) else SomeDigits(body);
    if whole.None? then None
    // A leading zero takes no further digit.
    else if body[0] == '0' && whole.value != "" && '0' <= whole.value[0] <= '9' then None
    else if whole.value != "" && whole.value[0] == '.' then
      var fraction := SomeDigits(whole.value[1..]);
      if fraction.None? then None else SkipExponent(fraction.value)
    else SkipExponent(whole.value)
  }

  function Expect(s: string, word: string): (r: Option<string>)
    requires word != ""
    ensures r.Some? ==> |r.value| < |s|
  {
    if |s| >= |word| && s[..|word|] == word then Some(s[|word|..]) else None
  }

  /** The body of a skipped string: escapes are checked for shape, surrogates are not paired. */
  function SkipString(s: string): (r: Option<string>)
    ensures r.Some? ==> |r.value| < |s|
    decreases |s|
  {
    if s == "" || IsControl(s[0]) then None
    else if s[0] == QUOTE then Some(s[1..])
    else if s[0] != BACKSLASH then SkipString(s[1..])
    else if |s| < 2 then None
    else if s[1] == 'u' then if Hex4(s[2..]).Some? then SkipString(s[6..]) else None
    else if Short(s[1]).Some? then SkipString(s[2..])
    else None
  }

  /** The rest of the text after one value. */
  function SkipValue(text: string): (r: Option<string>)
    ensures r.Some? ==> |r.value| < |text|
    decreases |text|, 1
  {
    var s := SkipWs(text);
    if s == "" then None
    else if s[0] == '{' then SkipMembers(s[1..], true)
    else if s[0] == '[' then SkipElements(s[1..], true)
    else if s[0] == QUOTE then SkipString(s[1..])
    else if s[0] == 'n' then Expect(s, "null")
    else if s[0] == 't' then Expect(s, "true")
    else if s[0] == 'f' then Expect(s, "false")
    else SkipNumber(s)
  }

  function SkipMembers(text: string, first: bool): (r: Option<string>)
    ensures r.Some? ==> |r.value| < |text|
    decreases |text|, 0
  {
    var s := SkipWs(text);
    if s != "" && s[0] == '}' then Some(s[1..])
    else
      var k := if first then s else SkipWs(AfterComma(s));
      if k == "" || k[0] != QUOTE then None
      else
        var colon := SkipString(k[1..]);
        if colon.None? then None
        else
          var c := SkipWs(colon.value);
          if c == "" || c[0] != ':' then None
          else
            var rest := SkipValue(c[1..]);
            if rest.None? then None else SkipMembers(rest.value, false)
  }

  function SkipElements(text: string, first: bool): (r: Option<string>)
    ensures r.Some? ==> |r.value| < |text|
    decreases |text|, 2
  {
    var s := SkipWs(text);
    if s != "" && s[0] == ']' then Some(s[1..])
    else if !first && (s == "" || s[0] != ',') then None
    else
      var rest := SkipValue(if first then s else s[1..]);
      if rest.None? then None else SkipElements(rest.value, false)
  }

  /** What follows a comma, or nothing when there is none. */
  function AfterComma(s: string): (r: string)
    ensures |r| <= |s|
  {
    if s != "" && s[0] == ',' then s[1..] else ""
  }
}
