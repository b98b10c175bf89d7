/**
 Keys as the compressing printer writes them: no whitespace, members in a fixed
 order, and only the escapes JSON requires.
 */
module CompressedKeys {
  import opened Wrappers
  import opened JsonText
  import opened KeyMatcher
  import opened PlainKeys

  function Cons(c: char, s: string): (r: string)
    ensures |r| == |s| + 1 && r[0] == c && r[1..] == s
  {
    [c] + s
  }

  /** A string value, given the spellings of its characters, before `rest`. */
  function Quoted(pieces: seq<string>, rest: string): (r: string)
    ensures r != "" && r[0] == QUOTE
  {
    Cons(QUOTE, Concat(pieces) + Cons(QUOTE, rest))
  }

  /** A member with a one-letter name and a string value, before `rest`. */
  function Member(c: char, pieces: seq<string>, rest: string): (r: string)
    ensures r != "" && r[0] == QUOTE
  {
    Cons(QUOTE, Cons(c, Cons(QUOTE, Cons(':', Quoted(pieces, rest)))))
  }

  function Tagged(tag: char, payload: string): (r: string) {
    Cons('{', Cons(QUOTE, Cons(tag, Cons(QUOTE, Cons(':', payload)))))
  }

  /** `{"c":{"m":…,"n":…}}` */
  function ConstKey(definingModule: seq<string>, ident: seq<string>): string {
    Tagged('c', Cons('{', Member('m', definingModule, Cons(',', Member('n', ident, "}}")))))
  }

  /** `{"f":{…,…}}`: the two members of a local variable's payload, in either order. */
  function FvarKey(a: char, first: seq<string>, b: char, second: seq<string>): string {
    Tagged('f', Cons('{', Member(a, first, Cons(',', Member(b, second, "}}")))))
  }

  lemma {:induction false} SkipsEverySpelling(t: string, pieces: seq<string>, rest: string)
    requires Spells(t, pieces)
    ensures SkipString(Concat(pieces) + [QUOTE] + rest) == Some(rest)
    decreases |t|
  {
    var s := Concat(pieces) + [QUOTE] + rest;
    if t == "" {
      assert s == [QUOTE] + rest;
    } else {
      var p, tail := pieces[0], Concat(pieces[1..]) + [QUOTE] + rest;
      assert Spelling(t[0], p);
      assert s == p + tail;
      SkipsEverySpelling(t[1..], pieces[1..], rest);
      SkipsSpelling(t[0], p, tail);
    }
  }

  lemma SkipsSpelling(c: char, p: string, tail: string)
    requires Spelling(c, p)
    ensures SkipString(p + tail) == SkipString(tail)
  {
    var s := p + tail;
    if |p| == 6 {
      assert s[0] == p[..2][0] && s[1] == p[..2][1] && s[2..] == p[2..] + tail && s[6..] == tail;
      Hex4Prefix(p[2..], tail);
    } else if |p| == 12 {
      assert s[0] == p[..2][0] && s[1] == p[..2][1] && s[2..] == p[2..] + tail;
      Hex4Prefix(p[2..], tail);
      var u := s[6..];
      assert u[0] == p[6..8][0] && u[1] == p[6..8][1] && u[2..] == p[8..] + tail && u[6..] == tail;
      Hex4Prefix(p[8..], tail);
    } else {
      assert s[|p|..] == tail;
    }
  }

  lemma ReadQuoted(t: string, pieces: seq<string>, rest: string)
    requires Spells(t, pieces)
    ensures Unescape(Quoted(pieces, rest)[1..]) == Some((t, rest))
    ensures SkipValue(Quoted(pieces, rest)) == Some(rest)
  {
    var q := Quoted(pieces, rest);
    assert q[1..] == Concat(pieces) + [QUOTE] + rest;
    DecodesEverySpelling(t, pieces, rest);
    SkipsEverySpelling(t, pieces, rest);
    assert SkipWs(q) == q;
  }

  /** A one-letter name, read as a string body. */
  lemma OneLetter(c: char, rest: string)
    requires !NeedsEscape(c)
    ensures Unescape(Cons(c, Cons(QUOTE, rest))) == Some(([c], rest))
  {
    DecodesEverySpelling([c], [[c]], rest);
    assert Concat([[c]]) == [c];
    assert Cons(c, Cons(QUOTE, rest)) == [c] + [QUOTE] + rest;
  }

  lemma FvarFieldStep(text: string, first: bool, s: string, c: string, rest: string)
    requires s != "" && s[0] == QUOTE && if first then text == s else text == Cons(',', s)
    requires Unescape(s[1..]).Some? && Unescape(s[1..]).value.1 == c
    requires c != "" && c[0] == ':' && SkipValue(c[1..]) == Some(rest)
    ensures FvarFields(text, first) == FvarFields(rest, false)
  {
    assert SkipWs(text) == text && SkipWs(s) == s && SkipWs(c) == c;
  }

  lemma FvarField(text: string, first: bool, c: char, t: string, pieces: seq<string>, rest: string)
    requires Spells(t, pieces) && !NeedsEscape(c)
    requires if first then text == Member(c, pieces, rest) else text == Cons(',', Member(c, pieces, rest))
    ensures FvarFields(text, first) == FvarFields(rest, false)
  {
    var after := Cons(':', Quoted(pieces, rest));
    OneLetter(c, after);
    ReadQuoted(t, pieces, rest);
    FvarFieldStep(text, first, Member(c, pieces, rest), after, rest);
  }

  lemma ParseTagged(tag: char, payload: string)
    requires !NeedsEscape(tag)
    ensures ParseRefIdent(Tagged(tag, payload)) ==
            if tag == 'c' then
              (if ConstPayload(payload).Some? && Closes(ConstPayload(payload).value.1)
               then Some(Const(ConstPayload(payload).value.0)) else None)
            else if tag == 'f' then
              (if FvarPayload(payload).Some? && Closes(FvarPayload(payload).value) then Some(Fvar) else None)
            else None
  {
    var key := Tagged(tag, payload);
    var after := Cons(':', payload);
    var q := Cons(QUOTE, Cons(tag, Cons(QUOTE, after)));
    assert SkipWs(key) == key && SkipWs(q) == q && SkipWs(after) == after;
    OneLetter(tag, after);
    assert [tag][0] == tag && "c"[0] == 'c' && "f"[0] == 'f';
  }

  lemma OneBraceCloses()
    ensures Closes("}") && FvarFields("}}", false) == Some("}")
  {
    assert SkipWs("}") == "}" && SkipWs("}}") == "}}" && "}}"[1..] == "}";
  }

  /** A local variable's key parses as such. */
  lemma FvarKeyParses(a: char, t: string, first: seq<string>, b: char, u: string, second: seq<string>)
    requires Spells(t, first) && Spells(u, second) && !NeedsEscape(a) && !NeedsEscape(b)
    ensures ParseRefIdent(FvarKey(a, first, b, second)) == Some(Fvar)
  {
    var tail := Cons(',', Member(b, second, "}}"));
    var members := Member(a, first, tail);
    FvarField(members, true, a, t, first, tail);
    FvarField(tail, false, b, u, second, "}}");
    OneBraceCloses();
    ParseTagged('f', Cons('{', members));
    assert SkipWs(Cons('{', members)) == Cons('{', members);
  }

  lemma ConstFieldStep(text: string, first: bool, s: string, c: string, rest: string)
    requires s != "" && s[0] == QUOTE && if first then text == s else text == Cons(',', s)
    requires Unescape(s[1..]).Some? && Unescape(s[1..]).value.0 != "n" && Unescape(s[1..]).value.1 == c
    requires c != "" && c[0] == ':' && SkipValue(c[1..]) == Some(rest)
    ensures ConstFields(text, first, None) == ConstFields(rest, false, None)
  {
    assert SkipWs(text) == text && SkipWs(s) == s && SkipWs(c) == c;
  }

  lemma ModuleMember(t: string, pieces: seq<string>, rest: string)
    requires Spells(t, pieces)
    ensures ConstFields(Member('m', pieces, rest), true, None) == ConstFields(rest, false, None)
  {
    var after := Cons(':', Quoted(pieces, rest));
    OneLetter('m', after);
    ReadQuoted(t, pieces, rest);
    assert ['m'][0] != "n"[0];
    ConstFieldStep(Member('m', pieces, rest), true, Member('m', pieces, rest), after, rest);
  }

  lemma IdentStep(text: string, s: string, c: string, t: string, rest: string)
    requires s != "" && s[0] == QUOTE && text == Cons(',', s)
    requires Unescape(s[1..]) == Some(("n", c))
    requires c != "" && c[0] == ':' && c[1..] != "" && c[1..][0] == QUOTE && Unescape(c[1..][1..]) == Some((t, rest))
    ensures ConstFields(text, false, None) == ConstFields(rest, false, Some(t))
  {
    assert SkipWs(text) == text && SkipWs(s) == s && SkipWs(c) == c && SkipWs(c[1..]) == c[1..];
  }

  /** The `n` member closes a constant. */
  lemma IdentMember(t: string, pieces: seq<string>)
    requires Spells(t, pieces)
    ensures ConstFields(Cons(',', Member('n', pieces, "}}")), false, None) == Some((t, "}"))
  {
    var after := Cons(':', Quoted(pieces, "}}"));
    OneLetter('n', after);
    ReadQuoted(t, pieces, "}}");
    assert ['n'] == "n";
    IdentStep(Cons(',', Member('n', pieces, "}}")), Member('n', pieces, "}}"), after, t, "}}");
    assert SkipWs("}}") == "}}" && "}}"[1..] == "}";
  }

  /** A constant's key parses to its identifier, however the strings in it are spelled. */
  lemma ConstKeyParses(m: string, definingModule: seq<string>, n: string, ident: seq<string>)
    requires Spells(m, definingModule) && Spells(n, ident)
    ensures ParseRefIdent(ConstKey(definingModule, ident)) == Some(Const(n))
  {
    var tail := Cons(',', Member('n', ident, "}}"));
    var members := Member('m', definingModule, tail);
    ModuleMember(m, definingModule, tail);
    IdentMember(n, ident);
    OneBraceCloses();
    ParseTagged('c', Cons('{', members));
    assert SkipWs(Cons('{', members)) == Cons('{', members);
  }

  lemma TailCons(r: string, c: char, s: string)
    requires Tail(r, s)
    ensures Tail(r, Cons(c, s))
  {
  }

  lemma TailQuoted(r: string, pieces: seq<string>, rest: string)
    requires Tail(r, rest)
    ensures Tail(r, Quoted(pieces, rest))
  {
    var body := Concat(pieces) + Cons(QUOTE, rest);
    TailCons(r, QUOTE, rest);
    TailSlice(body, |Concat(pieces)|);
    assert body[|Concat(pieces)|..] == Cons(QUOTE, rest);
    TailTrans(r, Cons(QUOTE, rest), body);
    TailCons(r, QUOTE, body);
  }

  lemma TailNamed(r: string, c: char, value: string)
    requires Tail(r, value)
    ensures Tail(r, Cons(QUOTE, Cons(c, Cons(QUOTE, Cons(':', value)))))
  {
    TailCons(r, ':', value);
    TailCons(r, QUOTE, Cons(':', value));
    TailCons(r, c, Cons(QUOTE, Cons(':', value)));
    TailCons(r, QUOTE, Cons(c, Cons(QUOTE, Cons(':', value))));
  }

  /** A constant's key holds its identifier as it is spelled. */
  lemma IdentStands(definingModule: seq<string>, ident: seq<string>)
    ensures Contains(ConstKey(definingModule, ident), Concat(ident))
  {
    var body := Concat(ident) + Cons(QUOTE, "}}");
    assert OccursAt(body, Concat(ident), 0);
    TailCons(body, QUOTE, body);
    TailNamed(body, 'n', Quoted(ident, "}}"));
    var members := Cons(',', Member('n', ident, "}}"));
    TailCons(body, ',', Member('n', ident, "}}"));
    TailQuoted(body, definingModule, members);
    TailNamed(body, 'm', Quoted(definingModule, members));
    TailCons(body, '{', Member('m', definingModule, members));
    TailNamed(body, 'c', Cons('{', Member('m', definingModule, members)));
    TailCons(body, '{', Tagged('c', Cons('{', Member('m', definingModule, members)))[1..]);
    TailKeeps(body, ConstKey(definingModule, ident), Concat(ident));
  }

  /**
   For every name and every compressed key with minimal escapes, the key matches
   exactly when it is a constant's and its identifier is the name. So the gate
   changes nothing: it is off for the names that need an escape, and any other
   name stands in its key as it is.
   */
  lemma MinimalKeysMatchExactly(name: string, m: string, definingModule: seq<string>, n: string, ident: seq<string>)
    requires SpellsMinimally(m, definingModule) && SpellsMinimally(n, ident)
    ensures Matches(name, ConstKey(definingModule, ident)) <==> n == name
  {
    ConstKeyParses(m, definingModule, n, ident);
    if !NameNeedsEscape(name) && n == name {
      PlainIsItself(n, ident);
      IdentStands(definingModule, ident);
    }
  }

  lemma FvarKeysNeverMatch(name: string, a: char, t: string, first: seq<string>, b: char, u: string,
                           second: seq<string>)
    requires Spells(t, first) && Spells(u, second) && !NeedsEscape(a) && !NeedsEscape(b)
    ensures !Matches(name, FvarKey(a, first, b, second))
  {
    FvarKeyParses(a, t, first, b, u, second);
  }

  /** Writing a name down makes it longer exactly when some character of it must be escaped. */
  lemma {:induction false} EncodingGrows(name: string)
    ensures |Concat(Encode(name))| >= |name|
    ensures NameNeedsEscape(name) <==> |Concat(Encode(name))| > |name|
  {
    if name != "" {
      EncodingGrows(name[1..]);
      assert Encode(name)[0] == EncodeChar(name[0]) && Encode(name)[1..] == Encode(name[1..]);
      assert |EncodeChar(name[0])| > 1 <==> NeedsEscape(name[0]);
      if NameNeedsEscape(name[1..]) {
        var i :| 0 <= i < |name[1..]| && NeedsEscape(name[1..][i]);
        assert NeedsEscape(name[i + 1]);
      }
      if NameNeedsEscape(name) && !NeedsEscape(name[0]) {
        var i :| 0 <= i < |name| && NeedsEscape(name[i]);
        assert NeedsEscape(name[1..][i - 1]);
      }
    }
  }

  /** The gate is off exactly for the names that are not written as they are. */
  lemma GateIsOffExactly(name: string)
    ensures NameNeedsEscape(name) <==> Concat(Encode(name)) != name
  {
    EncodingGrows(name);
    EncodesMinimally(name);
    if !NameNeedsEscape(name) {
      PlainIsItself(name, Encode(name));
    }
  }

  /** A key that spells a plain letter as an escape is a key of that name, and the gate loses it. */
  lemma NeedlessEscapeLosesMatch()
    ensures var key := ConstKey(["M"], ["\\u0041"]);
            IsKeyOf("A", key) && !Matches("A", key)
  {
    var key := ConstKey(["M"], ["\\u0041"]);
    assert "\\u0041"[..2] == "\\u" && "\\u0041"[2..] == "0041";
    ConstKeyParses("M", ["M"], "A", ["\\u0041"]);
    NoLetterA();
    ContainsLetter(key, 'A');
  }

  /** The module's string stands in the key as it is spelled, too. */
  lemma ModuleStands(definingModule: seq<string>, ident: seq<string>)
    ensures Contains(ConstKey(definingModule, ident), Concat(definingModule))
  {
    var members := Cons(',', Member('n', ident, "}}"));
    var body := Concat(definingModule) + Cons(QUOTE, members);
    assert OccursAt(body, Concat(definingModule), 0);
    TailCons(body, QUOTE, body);
    TailNamed(body, 'm', Quoted(definingModule, members));
    TailCons(body, '{', Member('m', definingModule, members));
    TailNamed(body, 'c', Cons('{', Member('m', definingModule, members)));
    TailCons(body, '{', Tagged('c', Cons('{', Member('m', definingModule, members)))[1..]);
    TailKeeps(body, ConstKey(definingModule, ident), Concat(definingModule));
  }

  /** The same identifier spelled the same way, in a module of that name: the gate finds the name there, and the key matches. */
  lemma ModuleSavesMatch()
    ensures Matches("A", ConstKey(["A"], ["\\u0041"]))
  {
    assert "\\u0041"[..2] == "\\u" && "\\u0041"[2..] == "0041";
    ConstKeyParses("A", ["A"], "A", ["\\u0041"]);
    ModuleStands(["A"], ["\\u0041"]);
    assert Concat(["A"]) == "A";
  }

  lemma ContainsLetter(text: string, c: char)
    ensures Contains(text, [c]) ==> c in text
  {
    if Contains(text, [c]) {
      var i: int :| OccursAt(text, [c], i);
      assert text[i..i + 1][0] == c;
    }
  }

  lemma ConsLacks(x: char, c: char, s: string)
    requires x != c && x !in s
    ensures x !in Cons(c, s)
  {
  }

  lemma MemberLacks(x: char, c: char, pieces: seq<string>, rest: string)
    requires x != c && x != QUOTE && x != ':' && x !in Concat(pieces) && x !in rest
    ensures x !in Member(c, pieces, rest)
  {
    ConsLacks(x, QUOTE, rest);
    var body := Concat(pieces) + Cons(QUOTE, rest);
    ConsLacks(x, QUOTE, body);
    ConsLacks(x, ':', Quoted(pieces, rest));
    ConsLacks(x, QUOTE, Cons(':', Quoted(pieces, rest)));
    ConsLacks(x, c, Cons(QUOTE, Cons(':', Quoted(pieces, rest))));
    ConsLacks(x, QUOTE, Cons(c, Cons(QUOTE, Cons(':', Quoted(pieces, rest)))));
  }

  lemma NoLetterA()
    ensures 'A' !in ConstKey(["M"], ["\\u0041"])
  {
    assert Concat(["M"]) == "M" && Concat(["\\u0041"]) == "\\u0041";
    var ident := Member('n', ["\\u0041"], "}}");
    MemberLacks('A', 'n', ["\\u0041"], "}}");
    ConsLacks('A', ',', ident);
    var members := Member('m', ["M"], Cons(',', ident));
    MemberLacks('A', 'm', ["M"], Cons(',', ident));
    ConsLacks('A', '{', members);
    ConsLacks('A', ':', Cons('{', members));
    ConsLacks('A', QUOTE, Cons(':', Cons('{', members)));
    ConsLacks('A', 'c', Cons(QUOTE, Cons(':', Cons('{', members))));
    ConsLacks('A', QUOTE, Cons('c', Cons(QUOTE, Cons(':', Cons('{', members)))));
    ConsLacks('A', '{', Cons(QUOTE, Cons('c', Cons(QUOTE, Cons(':', Cons('{', members))))));
  }
}
