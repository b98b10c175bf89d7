/**
 When the substring gate is exact, for keys of any layout: a match is lost only
 where the name is spelled with an escape JSON does not require, so never in a
 key without a backslash.
 */
module PlainKeys {
  import opened Wrappers
  import opened JsonText
  import opened KeyMatcher

  /** What is left of a text once some of its front has been read. */
  predicate Tail(r: string, s: string) {
    r == s || (s != "" && Tail(r, s[1..]))
  }

  lemma {:induction false} TailTrans(a: string, b: string, c: string)
    requires Tail(a, b) && Tail(b, c)
    ensures Tail(a, c)
    decreases |c|
  {
    if b != c {
      TailTrans(a, b, c[1..]);
    }
  }

  lemma {:induction false} TailSlice(s: string, k: nat)
    requires k <= |s|
    ensures Tail(s[k..], s)
  {
    if k > 0 {
      TailSlice(s[1..], k - 1);
    }
  }

  lemma {:induction false} TailKeeps(r: string, s: string, needle: string)
    requires Tail(r, s)
    ensures Contains(r, needle) ==> Contains(s, needle)
    decreases |s|
  {
    if r != s {
      TailKeeps(r, s[1..], needle);
      if Contains(s[1..], needle) {
        var i: int :| OccursAt(s[1..], needle, i);
        assert OccursAt(s, needle, i + 1);
      }
    }
  }

  /** One more character read. */
  lemma TailStep(r: string, s: string)
    requires s != "" && Tail(r, s[1..])
    ensures Tail(r, s)
  {
  }

  lemma {:induction false} SkipWsTail(s: string)
    ensures Tail(SkipWs(s), s)
  {
    if s != "" && IsWhitespace(s[0]) {
      SkipWsTail(s[1..]);
    }
  }

  lemma {:induction false} SkipDigitsTail(s: string)
    ensures Tail(SkipDigits(s), s)
  {
    if s != "" && '0' <= s[0] <= '9' {
      SkipDigitsTail(s[1..]);
    }
  }

  lemma SomeDigitsTail(s: string)
    ensures SomeDigits(s).Some? ==> Tail(SomeDigits(s).value, s)
  {
    if s != "" {
      SkipDigitsTail(s[1..]);
    }
  }

  lemma SkipExponentTail(s: string)
    ensures SkipExponent(s).Some? ==> Tail(SkipExponent(s).value, s)
  {
    if s != "" && (s[0] == 'e' || s[0] == 'E') {
      SomeDigitsTail(s[1..]);
      if |s| > 1 && (s[1] == '+' || s[1] == '-') {
        SomeDigitsTail(s[2..]);
        assert s[1..][1..] == s[2..];
        if SomeDigits(s[2..]).Some? { TailStep(SomeDigits(s[2..]).value, s[1..]); }
      }
    }
  }

  lemma SkipNumberTail(s: string)
    ensures SkipNumber(s).Some? ==> Tail(SkipNumber(s).value, s)
  {
    if SkipNumber(s).Some? {
      var body := if s != "" && s[0] == '-' then s[1..] else s;
      assert Tail(body, s);
      SomeDigitsTail(body);
      var whole := (if body != "" && body[0] == '0' then Some(body[1..]) else SomeDigits(body)).value;
      assert Tail(whole, body);
      TailTrans(whole, body, s);
      var last := if whole != "" && whole[0] == '.' then SomeDigits(whole[1..]).value else whole;
      if whole != "" && whole[0] == '.' {
        SomeDigitsTail(whole[1..]);
        TailStep(last, whole);
        TailTrans(last, whole, s);
      }
      SkipExponentTail(last);
      TailTrans(SkipNumber(s).value, last, s);
    }
  }

  lemma {:induction false} SkipStringTail(s: string)
    ensures SkipString(s).Some? ==> Tail(SkipString(s).value, s)
    decreases |s|
  {
    if SkipString(s).Some? && s[0] != QUOTE {
      var k := if s[0] != BACKSLASH then 1 else if s[1] == 'u' then 6 else 2;
      SkipStringTail(s[k..]);
      TailSlice(s, k);
      TailTrans(SkipString(s).value, s[k..], s);
    }
  }

  lemma {:induction false} UnescapeTail(s: string)
    ensures Unescape(s).Some? ==> Tail(Unescape(s).value.1, s)
    decreases |s|
  {
    if Unescape(s).Some? && s[0] != QUOTE {
      var k := Next(s).value.1;
      UnescapeTail(s[k..]);
      TailSlice(s, k);
      TailTrans(Unescape(s).value.1, s[k..], s);
    }
  }

  /** Read one more character of a tail. */
  lemma TailNext(r: string, s: string)
    requires Tail(r, s) && r != ""
    ensures Tail(r[1..], s)
  {
    assert Tail(r[1..], r);
    TailTrans(r[1..], r, s);
  }

  /** Skip whitespace in a tail. */
  lemma TailWs(r: string, s: string)
    requires Tail(r, s)
    ensures Tail(SkipWs(r), s)
  {
    SkipWsTail(r);
    TailTrans(SkipWs(r), r, s);
  }

  lemma {:induction false} SkipValueTail(text: string)
    ensures SkipValue(text).Some? ==> Tail(SkipValue(text).value, text)
    decreases |text|, 1
  {
    if SkipValue(text).Some? {
      var s, r := SkipWs(text), SkipValue(text).value;
      SkipWsTail(text);
      TailNext(s, text);
      if s[0] == '{' {
        SkipMembersTail(s[1..], true);
        TailTrans(r, s[1..], text);
      } else if s[0] == '[' {
        SkipElementsTail(s[1..], true);
        TailTrans(r, s[1..], text);
      } else if s[0] == QUOTE {
        SkipStringTail(s[1..]);
        TailTrans(r, s[1..], text);
      } else if s[0] == 'n' || s[0] == 't' || s[0] == 'f' {
        TailSlice(s, |s| - |r|);
        TailTrans(r, s, text);
      } else {
        SkipNumberTail(s);
        TailTrans(r, s, text);
      }
    }
  }

  /** What one member of an object leaves to read. */
  lemma MemberStart(s: string, first: bool, text: string)
    requires Tail(s, text)
    requires var k := if first then s else SkipWs(AfterComma(s)); k != "" && k[0] == QUOTE
    ensures Tail((if first then s else SkipWs(AfterComma(s)))[1..], text)
  {
    if first {
      TailNext(s, text);
    } else {
      TailNext(s, text);
      TailWs(s[1..], text);
      TailNext(SkipWs(s[1..]), text);
    }
  }

  lemma {:induction false} SkipMembersTail(text: string, first: bool)
    ensures SkipMembers(text, first).Some? ==> Tail(SkipMembers(text, first).value, text)
    decreases |text|, 0
  {
    if SkipMembers(text, first).Some? {
      var s, r := SkipWs(text), SkipMembers(text, first).value;
      SkipWsTail(text);
      if s != "" && s[0] == '}' {
        TailNext(s, text);
      } else {
        var k := if first then s else SkipWs(AfterComma(s));
        MemberStart(s, first, text);
        SkipStringTail(k[1..]);
        var colon := SkipString(k[1..]).value;
        TailTrans(colon, k[1..], text);
        TailWs(colon, text);
        var c := SkipWs(colon);
        TailNext(c, text);
        SkipValueTail(c[1..]);
        var rest := SkipValue(c[1..]).value;
        TailTrans(rest, c[1..], text);
        SkipMembersTail(rest, false);
        TailTrans(r, rest, text);
      }
    }
  }

  lemma {:induction false} SkipElementsTail(text: string, first: bool)
    ensures SkipElements(text, first).Some? ==> Tail(SkipElements(text, first).value, text)
    decreases |text|, 2
  {
    if SkipElements(text, first).Some? {
      var s, r := SkipWs(text), SkipElements(text, first).value;
      SkipWsTail(text);
      if s != "" && s[0] == ']' {
        TailNext(s, text);
      } else {
        var from := if first then s else s[1..];
        if !first { TailNext(s, text); }
        SkipValueTail(from);
        var rest := SkipValue(from).value;
        TailTrans(rest, from, text);
        SkipElementsTail(rest, false);
        TailTrans(r, rest, text);
      }
    }
  }

  // --- where the name stands in a key ---------------------------------------------

  /** Some spelling of `t` stands in the text. */
  ghost predicate HoldsSpelling(text: string, t: string) {
    exists pieces :: SpelledIn(text, t, pieces)
  }

  ghost predicate SpelledIn(text: string, t: string, pieces: seq<string>) {
    Spells(t, pieces) && Contains(text, Concat(pieces))
  }

  lemma HoldsInTail(r: string, s: string, t: string)
    requires Tail(r, s) && HoldsSpelling(r, t)
    ensures HoldsSpelling(s, t)
  {
    var pieces :| SpelledIn(r, t, pieces);
    TailKeeps(r, s, Concat(pieces));
    assert SpelledIn(s, t, pieces);
  }

  /** A string decoded out of a text stands in it as it is spelled there. */
  lemma DecodedStands(body: string, text: string)
    requires Tail(body, text) && Unescape(body).Some?
    ensures HoldsSpelling(text, Unescape(body).value.0) && Tail(Unescape(body).value.1, text)
  {
    var pieces := OnlySpellingsDecode(body);
    assert OccursAt(body, Concat(pieces), 0);
    assert SpelledIn(body, Unescape(body).value.0, pieces);
    HoldsInTail(body, text, Unescape(body).value.0);
    UnescapeTail(body);
    TailTrans(Unescape(body).value.1, body, text);
  }

  lemma {:induction false} ConstFieldsStand(text: string, first: bool, n: Option<string>)
    requires ConstFields(text, first, n).Some?
    ensures n.Some? ==> ConstFields(text, first, n).value.0 == n.value
    ensures n.None? ==> HoldsSpelling(text, ConstFields(text, first, n).value.0)
    decreases |text|
  {
    var s := SkipWs(text);
    SkipWsTail(text);
    if s == "" || s[0] != '}' {
      var v := ConstFields(text, first, n).value.0;
      var k := if first then s else SkipWs(AfterComma(s));
      MemberStart(s, first, text);
      DecodedStands(k[1..], text);
      var name := Unescape(k[1..]).value;
      TailWs(name.1, text);
      var c := SkipWs(name.1);
      TailNext(c, text);
      if name.0 == "n" {
        TailWs(c[1..], text);
        var q := SkipWs(c[1..]);
        TailNext(q, text);
        DecodedStands(q[1..], text);
        var value := Unescape(q[1..]).value;
        ConstFieldsStand(value.1, false, Some(value.0));
      } else {
        SkipValueTail(c[1..]);
        var rest := SkipValue(c[1..]).value;
        TailTrans(rest, c[1..], text);
        ConstFieldsStand(rest, false, n);
        if n.None? { HoldsInTail(rest, text, v); }
      }
    }
  }

  lemma ConstPayloadStands(text: string)
    requires ConstPayload(text).Some?
    ensures HoldsSpelling(text, ConstPayload(text).value.0)
  {
    var s, v := SkipWs(text), ConstPayload(text).value.0;
    SkipWsTail(text);
    TailNext(s, text);
    if s[0] == '{' {
      ConstFieldsStand(s[1..], true, None);
      HoldsInTail(s[1..], text, v);
    } else {
      TailWs(s[1..], text);
      TailNext(SkipWs(s[1..]), text);
      DecodedStands(SkipWs(s[1..])[1..], text);
    }
  }

  /** Whatever its layout, a constant's key holds its identifier, spelled one way or another. */
  lemma ParsedNameStands(key: string)
    requires ParseRefIdent(key).Some? && ParseRefIdent(key).value.Const?
    ensures HoldsSpelling(key, ParseRefIdent(key).value.n)
  {
    var s := SkipWs(key);
    SkipWsTail(key);
    TailNext(s, key);
    TailWs(s[1..], key);
    var q := SkipWs(s[1..]);
    TailNext(q, key);
    DecodedStands(q[1..], key);
    var rest := Unescape(q[1..]).value.1;
    TailWs(rest, key);
    TailNext(SkipWs(rest), key);
    ConstPayloadStands(SkipWs(rest)[1..]);
    HoldsInTail(SkipWs(rest)[1..], key, ParseRefIdent(key).value.n);
  }

  // --- when the gate is exact -----------------------------------------------------

  /** The text spells `t` somewhere with an escape JSON does not require. */
  ghost predicate SpelledNeedlessly(text: string, t: string) {
    exists pieces :: SpelledIn(text, t, pieces) && !SpellsMinimally(t, pieces)
  }

  /**
   For every name and every text, whatever its layout: the gate loses a match only
   where the name is spelled with an escape JSON does not require, and never one
   of a name that needs an escape.
   */
  lemma LostOnlyWhenNeedless(name: string, key: string)
    ensures Matches(name, key) ==> IsKeyOf(name, key)
    ensures IsKeyOf(name, key) && !Matches(name, key) ==>
              !NameNeedsEscape(name) && !Contains(key, name) && SpelledNeedlessly(key, name)
  {
    if IsKeyOf(name, key) && !Matches(name, key) {
      ParsedNameStands(key);
      var pieces :| SpelledIn(key, name, pieces);
      if SpellsMinimally(name, pieces) { PlainIsItself(name, pieces); }
    }
  }

  /** Where the value of the first `n` field starts, from its opening quote on. */
  function ConstText(text: string, first: bool): (r: Option<string>)
    ensures r.Some? ==> r.value != "" && r.value[0] == QUOTE
    decreases |text|
  {
    var s := SkipWs(text);
    var k := if first then s else SkipWs(AfterComma(s));
    if k == "" || k[0] != QUOTE || Unescape(k[1..]).None? then None
    else
      var name := Unescape(k[1..]).value;
      var c := SkipWs(name.1);
      if c == "" || c[0] != ':' then None
      else if name.0 == "n" then
        var v := SkipWs(c[1..]);
        if v == "" || v[0] != QUOTE then None else Some(v)
      else
        var rest := SkipValue(c[1..]);
        if rest.None? then None else ConstText(rest.value, false)
  }

  /** Where the identifier of a key stands, from its opening quote on. */
  function IdentText(key: string): (r: Option<string>)
    ensures r.Some? ==> r.value != "" && r.value[0] == QUOTE
  {
    var s := SkipWs(key);
    var q := if s == "" then "" else SkipWs(s[1..]);
    if q == "" || Unescape(q[1..]).None? then None
    else
      var c := SkipWs(Unescape(q[1..]).value.1);
      var p := if c == "" then "" else SkipWs(c[1..]);
      if p == "" then None
      else if p[0] == '{' then ConstText(p[1..], true)
      else
        var v := SkipWs(p[1..]);
        if v == "" || v[0] != QUOTE then None else Some(v)
  }

  /** From its quote on, the text decodes to `t`, and it is the end of `whole`. */
  ghost predicate Opens(v: string, whole: string, t: string) {
    && v != "" && v[0] == QUOTE && Tail(v, whole)
    && Unescape(v[1..]).Some? && Unescape(v[1..]).value.0 == t
  }

  lemma {:induction false} ConstTextOpens(text: string, first: bool)
    requires ConstFields(text, first, None).Some?
    ensures ConstText(text, first).Some?
    ensures Opens(ConstText(text, first).value, text, ConstFields(text, first, None).value.0)
    decreases |text|
  {
    var s := SkipWs(text);
    SkipWsTail(text);
    var k := if first then s else SkipWs(AfterComma(s));
    MemberStart(s, first, text);
    UnescapeTail(k[1..]);
    var name := Unescape(k[1..]).value;
    TailTrans(name.1, k[1..], text);
    TailWs(name.1, text);
    var c := SkipWs(name.1);
    TailNext(c, text);
    if name.0 == "n" {
      TailWs(c[1..], text);
      var value := Unescape(SkipWs(c[1..])[1..]).value;
      ConstFieldsStand(value.1, false, Some(value.0));
    } else {
      SkipValueTail(c[1..]);
      var rest := SkipValue(c[1..]).value;
      TailTrans(rest, c[1..], text);
      ConstTextOpens(rest, false);
      TailTrans(ConstText(rest, false).value, rest, text);
    }
  }

  lemma PayloadOpens(p: string, key: string)
    requires Tail(p, key) && p != "" && SkipWs(p) == p && ConstPayload(p).Some?
    ensures p[0] == '{' ==> ConstText(p[1..], true).Some?
                            && Opens(ConstText(p[1..], true).value, key, ConstPayload(p).value.0)
    ensures p[0] != '{' ==> Opens(SkipWs(p[1..]), key, ConstPayload(p).value.0)
  {
    TailNext(p, key);
    if p[0] == '{' {
      ConstTextOpens(p[1..], true);
      TailTrans(ConstText(p[1..], true).value, p[1..], key);
    } else {
      TailWs(p[1..], key);
    }
  }

  /** What a constant's key holds there is its identifier. */
  lemma IdentTextOpens(key: string)
    requires ParseRefIdent(key).Some? && ParseRefIdent(key).value.Const?
    ensures IdentText(key).Some? && Opens(IdentText(key).value, key, ParseRefIdent(key).value.n)
  {
    var s := SkipWs(key);
    SkipWsTail(key);
    TailNext(s, key);
    TailWs(s[1..], key);
    var q := SkipWs(s[1..]);
    TailNext(q, key);
    UnescapeTail(q[1..]);
    var rest := Unescape(q[1..]).value.1;
    TailTrans(rest, q[1..], key);
    TailWs(rest, key);
    var c := SkipWs(rest);
    TailNext(c, key);
    TailWs(c[1..], key);
    SkippedTwice(c[1..]);
    PayloadOpens(SkipWs(c[1..]), key);
  }

  lemma SkippedTwice(s: string)
    ensures SkipWs(SkipWs(s)) == SkipWs(s) && ConstPayload(SkipWs(s)) == ConstPayload(s)
  {
  }

  // --- where a key is lost ----------------------------------------------------------

  /** A key taken apart around its identifier: what is before its quotes, between them as it is spelled, and after them. */
  datatype Around = Around(front: string, spelled: string, back: string)

  function Apart(key: string): (a: Around)
    requires IdentText(key).Some? && |IdentText(key).value| <= |key| && Unescape(IdentText(key).value[1..]).Some?
  {
    var v := IdentText(key).value;
    var back := Unescape(v[1..]).value.1;
    Around(key[..|key| - |v|], v[1..|v| - |back| - 1], back)
  }

  lemma {:induction false} TailIsEnd(r: string, s: string)
    requires Tail(r, s)
    ensures |r| <= |s| && s[|s| - |r|..] == r
  {
    if r != s { TailIsEnd(r, s[1..]); }
  }

  lemma ApartIsWhole(name: string, key: string)
    requires IsKeyOf(name, key)
    ensures IdentText(key).Some? && |IdentText(key).value| <= |key| && Unescape(IdentText(key).value[1..]).Some?
    ensures key == Apart(key).front + [QUOTE] + (Apart(key).spelled + [QUOTE] + Apart(key).back)
    ensures exists pieces :: Spells(name, pieces) && Apart(key).spelled == Concat(pieces)
  {
    IdentTextOpens(key);
    var v := IdentText(key).value;
    TailIsEnd(v, key);
    var pieces := OnlySpellingsDecode(v[1..]);
    EndApart(key, v, Concat(pieces), Unescape(v[1..]).value.1);
  }

  lemma EndApart(key: string, v: string, spelled: string, back: string)
    requires |v| <= |key| && key[|key| - |v|..] == v
    requires v != "" && v[0] == QUOTE && v[1..] == spelled + [QUOTE] + back
    ensures v[1..|v| - |back| - 1] == spelled
    ensures key == key[..|key| - |v|] + [QUOTE] + (spelled + [QUOTE] + back)
  {
    assert v == [QUOTE] + v[1..];
    assert v[1..|v| - |back| - 1] == v[1..][..|spelled|];
    assert key == key[..|key| - |v|] + v;
  }

  /** Text without a quote stands in a text exactly when it stands on one side of a quote there. */
  lemma StandsOnOneSide(a: string, b: string, needle: string)
    requires QUOTE !in needle
    ensures Contains(a + [QUOTE] + b, needle) <==> Contains(a, needle) || Contains(b, needle)
  {
    var whole := a + [QUOTE] + b;
    if Contains(a, needle) {
      var i: int :| OccursAt(a, needle, i);
      assert whole[i..i + |needle|] == a[i..i + |needle|];
      assert OccursAt(whole, needle, i);
    }
    if Contains(b, needle) {
      var i: int :| OccursAt(b, needle, i);
      assert whole[|a| + 1 + i..|a| + 1 + i + |needle|] == b[i..i + |needle|];
      assert OccursAt(whole, needle, |a| + 1 + i);
    }
    if Contains(whole, needle) {
      var i: int :| OccursAt(whole, needle, i);
      SideOf(a, b, needle, i);
    }
  }

  lemma AcrossTheQuote(a: string, b: string, needle: string, i: int)
    requires OccursAt(a + [QUOTE] + b, needle, i) && i <= |a| < i + |needle|
    ensures QUOTE in needle
  {
    assert needle[|a| - i] == (a + [QUOTE] + b)[|a|];
  }

  lemma SideOf(a: string, b: string, needle: string, i: int)
    requires QUOTE !in needle && OccursAt(a + [QUOTE] + b, needle, i)
    ensures Contains(a, needle) || Contains(b, needle)
  {
    var whole := a + [QUOTE] + b;
    if i + |needle| <= |a| {
      assert a[i..i + |needle|] == whole[i..i + |needle|];
      assert OccursAt(a, needle, i);
    } else if i > |a| {
      assert b[i - |a| - 1..i - |a| - 1 + |needle|] == whole[i..i + |needle|];
      assert OccursAt(b, needle, i - |a| - 1);
    } else {
      AcrossTheQuote(a, b, needle, i);
    }
  }

  /**
   A key of the name is lost exactly when the name needs no escape and stands
   nowhere in the key: not in the identifier as it is spelled there, nor before
   or after it.
   */
  lemma LostExactly(name: string, key: string)
    requires IsKeyOf(name, key)
    ensures IdentText(key).Some? && |IdentText(key).value| <= |key| && Unescape(IdentText(key).value[1..]).Some?
    ensures key == Apart(key).front + [QUOTE] + (Apart(key).spelled + [QUOTE] + Apart(key).back)
    ensures !Matches(name, key) <==>
            && !NameNeedsEscape(name)
            && !Contains(Apart(key).spelled, name) && !Contains(Apart(key).front, name) && !Contains(Apart(key).back, name)
    ensures Apart(key).spelled == name ==> Matches(name, key)
  {
    ApartIsWhole(name, key);
    var a := Apart(key);
    if !NameNeedsEscape(name) {
      assert QUOTE !in name;
      StandsOnOneSide(a.front, a.spelled + [QUOTE] + a.back, name);
      StandsOnOneSide(a.spelled, a.back, name);
    }
    if a.spelled == name { assert OccursAt(a.spelled, name, 0); }
  }

  lemma {:induction false} PiecesStand(pieces: seq<string>, i: nat)
    requires i < |pieces|
    ensures forall c :: c in pieces[i] ==> c in Concat(pieces)
  {
    if i > 0 { PiecesStand(pieces[1..], i - 1); }
  }

  lemma ContainedCharacters(text: string, needle: string, c: char)
    requires Contains(text, needle) && c in needle
    ensures c in text
  {
    var i: int :| OccursAt(text, needle, i);
    assert c in text[i..i + |needle|];
  }

  /** So a key without a backslash is matched exactly: the gate changes nothing. */
  lemma PlainKeysMatchExactly(name: string, key: string)
    requires BACKSLASH !in key
    ensures Matches(name, key) <==> IsKeyOf(name, key)
  {
    LostOnlyWhenNeedless(name, key);
    if SpelledNeedlessly(key, name) {
      var pieces :| SpelledIn(key, name, pieces) && !SpellsMinimally(name, pieces);
      var i :| 0 <= i < |name| && !MinimalSpelling(name[i], pieces[i]);
      assert Spelling(name[i], pieces[i]);
      EscapesShow(name[i], pieces[i]);
      PiecesStand(pieces, i);
      ContainedCharacters(key, Concat(pieces), BACKSLASH);
    }
  }

  lemma EscapesShow(c: char, p: string)
    requires Spelling(c, p) && p != [c]
    ensures BACKSLASH in p
  {
    if |p| == 6 || |p| == 12 { assert p[0] == p[..2][0]; }
  }
}
