/**
 From text to the tree of values the document reader starts from: what is built
 is what skipping accepts, and every tree is read back from its text.
 */
module JsonTree {
  import opened Wrappers
  import opened Decimals
  import opened JsonText
  import opened IleanDoc
  import opened IleanLoad
  import C = CompressedKeys

  // --- reading -------------------------------------------------------------------

  /** A number: its digits when it is nothing else. */
  function NumberOf(lexeme: string): Json {
    var v := Value(lexeme);
    if v.Some? then Natural(v.value) else OtherNumber
  }

  /** One value and the rest of the text, by the rules by which values are skipped. */
  function ReadValue(text: string): (r: Option<(Json, string)>)
    ensures r.Some? ==> |r.value.1| < |text|
    decreases |text|, 1
  {
    var s := SkipWs(text);
    if s == "" then None
    else if s[0] == '{' then
      var r := ReadMembers(s[1..], true);
      if r.None? then None
      else Some((if r.value.0.Some? then Obj(r.value.0.value) else Undecodable, r.value.1))
    else if s[0] == '[' then
      var r := ReadElements(s[1..], true);
      if r.None? then None else Some((Arr(r.value.0), r.value.1))
    else if s[0] == QUOTE then
      var end := SkipString(s[1..]);
      if end.None? then None
      else Some((if Unescape(s[1..]).Some? then Str(Unescape(s[1..]).value.0) else Undecodable, end.value))
    else if s[0] == 'n' then Tagged(Null, Expect(s, "null"))
    else if s[0] == 't' then Tagged(Bool(true), Expect(s, "true"))
    else if s[0] == 'f' then Tagged(Bool(false), Expect(s, "false"))
    else
      var end := SkipNumber(s);
      if end.None? then None else Some((NumberOf(s[..|s| - |end.value|]), end.value))
  }

  function Tagged(j: Json, rest: Option<string>): Option<(Json, string)> {
    if rest.None? then None else Some((j, rest.value))
  }

  /** The members of an object, or `None` for them when a key has no decoding. */
  function ReadMembers(text: string, first: bool): (r: Option<(Option<seq<Member>>, string)>)
    ensures r.Some? ==> |r.value.1| < |text|
    decreases |text|, 0
  {
    var s := SkipWs(text);
    if s != "" && s[0] == '}' then Some((Some([]), s[1..]))
    else
      var k := if first then s else SkipWs(AfterComma(s));
      if k == "" || k[0] != QUOTE then None
      else
        var colon := SkipString(k[1..]);
        if colon.None? then None
        else
          var c := SkipWs(colon.value);
          if c == "" || c[0] != ':' then None
          else
            var v := ReadValue(c[1..]);
            if v.None? then None
            else
              var more := ReadMembers(v.value.1, false);
              if more.None? then None
              else Some((WithMember(Unescape(k[1..]), v.value.0, more.value.0), more.value.1))
  }

  function WithMember(key: Option<(string, string)>, value: Json, more: Option<seq<Member>>): Option<seq<Member>> {
    if key.None? || more.None? then None else Some([Member(key.value.0, value)] + more.value)
  }

  function ReadElements(text: string, first: bool): (r: Option<(seq<Json>, string)>)
    ensures r.Some? ==> |r.value.1| < |text|
    decreases |text|, 2
  {
    var s := SkipWs(text);
    if s != "" && s[0] == ']' then Some(([], s[1..]))
    else if !first && (s == "" || s[0] != ',') then None
    else
      var v := ReadValue(if first then s else s[1..]);
      if v.None? then None
      else
        var more := ReadElements(v.value.1, false);
        if more.None? then None else Some(([v.value.0] + more.value.0, more.value.1))
  }

  /** The whole text as the loader is given it. */
  function Parse(text: string): Text {
    var r := ReadValue(text);
    if r.None? then Text(Broken, false) else Text(r.value.0, SkipWs(r.value.1) != "")
  }

  // --- what is built is what skipping accepts --------------------------------------

  /** Reading gives a tree that is JSON all through exactly when skipping succeeds, and both stop at one place. */
  lemma {:induction false} ReadIsSkip(text: string)
    ensures ReadValue(text).Some? <==> SkipValue(text).Some?
    ensures ReadValue(text).Some? ==>
              SkipValue(text) == Some(ReadValue(text).value.1) && WellFormed(ReadValue(text).value.0)
    decreases |text|, 1
  {
    var s := SkipWs(text);
    if s != "" && s[0] == '{' {
      MembersAreSkipped(s[1..], true);
    } else if s != "" && s[0] == '[' {
      ElementsAreSkipped(s[1..], true);
    }
  }

  lemma {:induction false} MembersAreSkipped(text: string, first: bool)
    ensures ReadMembers(text, first).Some? <==> SkipMembers(text, first).Some?
    ensures ReadMembers(text, first).Some? ==> SkipMembers(text, first) == Some(ReadMembers(text, first).value.1)
    ensures ReadMembers(text, first).Some? && ReadMembers(text, first).value.0.Some? ==>
              WellFormed(Obj(ReadMembers(text, first).value.0.value))
    decreases |text|, 0
  {
    var s := SkipWs(text);
    if s == "" || s[0] != '}' {
      var k := if first then s else SkipWs(AfterComma(s));
      if k != "" && k[0] == QUOTE && SkipString(k[1..]).Some? {
        var c := SkipWs(SkipString(k[1..]).value);
        if c != "" && c[0] == ':' {
          ReadIsSkip(c[1..]);
          if ReadValue(c[1..]).Some? { MembersAreSkipped(ReadValue(c[1..]).value.1, false); }
        }
      }
    }
  }

  lemma {:induction false} ElementsAreSkipped(text: string, first: bool)
    ensures ReadElements(text, first).Some? <==> SkipElements(text, first).Some?
    ensures ReadElements(text, first).Some? ==>
              SkipElements(text, first) == Some(ReadElements(text, first).value.1)
              && WellFormed(Arr(ReadElements(text, first).value.0))
    decreases |text|, 2
  {
    var s := SkipWs(text);
    if (s == "" || s[0] != ']') && (first || (s != "" && s[0] == ',')) {
      var from := if first then s else s[1..];
      ReadIsSkip(from);
      if ReadValue(from).Some? { ElementsAreSkipped(ReadValue(from).value.1, false); }
    }
  }

  // --- writing ---------------------------------------------------------------------

  /** A tree that can be written: nothing broken, and no number but the naturals. */
  predicate Printable(j: Json) {
    match j
    case Natural(n) => n >= 0
    case Arr(items) => forall i :: 0 <= i < |items| ==> Printable(items[i])
    case Obj(ms) => forall i :: 0 <= i < |ms| ==> Printable(ms[i].value)
    case OtherNumber => false
    case Undecodable => false
    case Broken => false
    case _ => true
  }

  /** The compressed text of a value, before `rest`. */
  function Print(j: Json, rest: string): string
    requires Printable(j)
    decreases j
  {
    match j
    case Null => "null" + rest
    case Bool(b) => (if b then "true" else "false") + rest
    case Natural(n) => Decimal(n) + rest
    case Str(t) => C.Quoted(Encode(t), rest)
    case Arr(items) => C.Cons('[', PrintElements(items, true, rest))
    case Obj(ms) => C.Cons('{', PrintMembers(ms, true, rest))
  }

  function AfterFirst(first: bool, text: string): string {
    if first then text else C.Cons(',', text)
  }

  function PrintElements(items: seq<Json>, first: bool, rest: string): string
    requires forall i :: 0 <= i < |items| ==> Printable(items[i])
    decreases items
  {
    if items == [] then C.Cons(']', rest)
    else AfterFirst(first, Print(items[0], PrintElements(items[1..], false, rest)))
  }

  function PrintMembers(ms: seq<Member>, first: bool, rest: string): string
    requires forall i :: 0 <= i < |ms| ==> Printable(ms[i].value)
    decreases ms
  {
    if ms == [] then C.Cons('}', rest)
    else
      AfterFirst(first, C.Quoted(Encode(ms[0].key), C.Cons(':', Print(ms[0].value, PrintMembers(ms[1..], false, rest)))))
  }

  // --- reading back what was written --------------------------------------------------

  /** The text ends, or goes on with what can follow a value. */
  predicate Delimits(rest: string) {
    rest == "" || rest[0] == ',' || rest[0] == ']' || rest[0] == '}'
  }

  lemma {:induction false} DigitsSkipped(digits: string, rest: string)
    requires forall i :: 0 <= i < |digits| ==> IsDigit(digits[i])
    requires Delimits(rest)
    ensures SkipDigits(digits + rest) == rest
  {
    if digits == "" {
      assert digits + rest == rest;
    } else {
      DigitsSkipped(digits[1..], rest);
      assert (digits + rest)[1..] == digits[1..] + rest;
    }
  }

  lemma {:induction false} NoLeadingZero(n: nat)
    ensures n > 0 ==> Decimal(n)[0] != '0'
  {
    if n >= 10 {
      NoLeadingZero(n / 10);
    }
  }

  lemma WholeNumberSkipped(d: string, rest: string)
    requires d != "" && Delimits(rest) && (d[0] != '0' || d == "0")
    requires forall i :: 0 <= i < |d| ==> IsDigit(d[i])
    ensures SkipNumber(d + rest) == Some(rest)
  {
    DigitsSkipped(d[1..], rest);
    assert (d + rest)[1..] == d[1..] + rest && (d + rest)[0] == d[0];
  }

  lemma DigitsRead(d: string, rest: string, n: nat)
    requires d != "" && IsDigit(d[0]) && Value(d) == Some(n) && SkipNumber(d + rest) == Some(rest)
    ensures ReadValue(d + rest) == Some((Natural(n), rest))
  {
    var s := d + rest;
    assert s[0] == d[0];
    assert SkipWs(s) == s;
    assert s[..|s| - |rest|] == d;
  }

  lemma NumberBack(n: nat, rest: string)
    requires Delimits(rest)
    ensures ReadValue(Decimal(n) + rest) == Some((Natural(n), rest))
  {
    DecimalIsDigits(n);
    NoLeadingZero(n);
    ValueOfDecimal(n);
    assert n == 0 ==> Decimal(n) == "0";
    WholeNumberSkipped(Decimal(n), rest);
    DigitsRead(Decimal(n), rest, n);
  }

  lemma StringBack(t: string, rest: string)
    ensures SkipString(C.Quoted(Encode(t), rest)[1..]) == Some(rest)
    ensures Unescape(C.Quoted(Encode(t), rest)[1..]) == Some((t, rest))
    ensures SkipWs(C.Quoted(Encode(t), rest)) == C.Quoted(Encode(t), rest)
  {
    EncodesMinimally(t);
    C.ReadQuoted(t, Encode(t), rest);
    assert SkipWs(C.Quoted(Encode(t), rest)) == C.Quoted(Encode(t), rest);
  }

  /** No value starts like whitespace or like the end of a list. */
  lemma Starts(j: Json, rest: string)
    requires Printable(j)
    ensures Print(j, rest) != "" && !IsWhitespace(Print(j, rest)[0]) && Print(j, rest)[0] !in {',', ']', '}'}
  {
    if j.Natural? {
      DecimalIsDigits(j.n);
      assert IsDigit(Decimal(j.n)[0]);
    }
  }

  lemma WordBack(word: string, rest: string)
    requires word != ""
    ensures Expect(word + rest, word) == Some(rest)
  {
  }

  /** Every tree is read back from its text. */
  lemma {:induction false} ReadBack(j: Json, rest: string)
    requires Printable(j) && Delimits(rest)
    ensures ReadValue(Print(j, rest)) == Some((j, rest))
    decreases j
  {
    match j
    case Null => WordBack("null", rest);
    case Bool(b) => WordBack(if b then "true" else "false", rest);
    case Natural(n) => NumberBack(n, rest);
    case Str(t) => StringBack(t, rest);
    case Arr(items) => ElementsBack(items, true, rest);
    case Obj(ms) => MembersBack(ms, true, rest);
  }

  lemma ElementBack(text: string, first: bool, item: Json, tail: string, items: seq<Json>, rest: string)
    requires text == AfterFirst(first, tail) && tail != "" && !IsWhitespace(tail[0]) && tail[0] !in {',', ']', '}'}
    requires ReadValue(tail).Some? && ReadValue(tail).value.0 == item
    requires ReadElements(ReadValue(tail).value.1, false) == Some((items, rest))
    ensures ReadElements(text, first) == Some(([item] + items, rest))
  {
    assert SkipWs(text) == text;
  }

  lemma {:induction false} ElementsBack(items: seq<Json>, first: bool, rest: string)
    requires forall i :: 0 <= i < |items| ==> Printable(items[i])
    ensures ReadElements(PrintElements(items, first, rest), first) == Some((items, rest))
    ensures Delimits(PrintElements(items, false, rest))
    decreases items
  {
    if items == [] {
      assert SkipWs(C.Cons(']', rest)) == C.Cons(']', rest);
    } else {
      var more := PrintElements(items[1..], false, rest);
      ElementsBack(items[1..], false, rest);
      Starts(items[0], more);
      ReadBack(items[0], more);
      ElementBack(PrintElements(items, first, rest), first, items[0], Print(items[0], more), items[1..], rest);
      assert [items[0]] + items[1..] == items;
    }
  }

  lemma MemberBack(text: string, first: bool, m: Member, quoted: string, value: string, ms: seq<Member>, rest: string)
    requires text == AfterFirst(first, quoted) && quoted == C.Quoted(Encode(m.key), C.Cons(':', value))
    requires ReadValue(value).Some? && ReadValue(value).value.0 == m.value
    requires ReadMembers(ReadValue(value).value.1, false) == Some((Some(ms), rest))
    ensures ReadMembers(text, first) == Some((Some([m] + ms), rest))
  {
    StringBack(m.key, C.Cons(':', value));
    assert SkipWs(text) == text;
    assert SkipWs(C.Cons(':', value)) == C.Cons(':', value);
    assert AfterComma(text) == if first then "" else quoted;
  }

  lemma MembersDelimit(ms: seq<Member>, rest: string)
    requires forall i :: 0 <= i < |ms| ==> Printable(ms[i].value)
    ensures Delimits(PrintMembers(ms, false, rest))
  {
  }

  lemma {:induction false} MembersBack(ms: seq<Member>, first: bool, rest: string)
    requires forall i :: 0 <= i < |ms| ==> Printable(ms[i].value)
    ensures ReadMembers(PrintMembers(ms, first, rest), first) == Some((Some(ms), rest))
    decreases ms
  {
    if ms == [] {
      assert SkipWs(C.Cons('}', rest)) == C.Cons('}', rest);
    } else {
      var (m, tail) := (ms[0], ms[1..]);
      var more := PrintMembers(tail, false, rest);
      var value := Print(m.value, more);
      MembersDelimit(tail, rest);
      MembersBack(tail, false, rest);
      ReadBack(m.value, more);
      MemberBack(PrintMembers(ms, first, rest), first, m, C.Quoted(Encode(m.key), C.Cons(':', value)), value, tail, rest);
      assert [m] + tail == ms;
    }
  }

  /** So the loader is given the tree that was written, and nothing after it. */
  lemma ParsePrint(j: Json)
    requires Printable(j)
    ensures Parse(Print(j, "")) == Text(j, false)
  {
    ReadBack(j, "");
  }

  // --- loading text --------------------------------------------------------------------

  /** One JSON value and nothing after it. */
  predicate IsJson(text: string) {
    SkipValue(text).Some? && SkipWs(SkipValue(text).value) == ""
  }

  /** Whatever is not that is rejected as bad, whoever asks. */
  lemma NotJsonIsBad(text: string, matches: Matcher)
    requires !IsJson(text)
    ensures Load(Some(Parse(text)), matches) == Err(BadJson)
  {
    ReadIsSkip(text);
  }

  /** An index as it is written, its fields in the order Lean writes them or any other. */
  function Fields(name: string, references: Json): seq<Member> {
    [Member("version", Natural(SUPPORTED_VERSION)), Member("module", Str(name)), Member("references", references)]
  }

  lemma FieldValues(m: Member, f: Field)
    requires DocField(m.key) == f
    ensures Values([m], DocField, f) == [m.value] && forall g :: g != f ==> Values([m], DocField, g) == []
  {
    assert [m][..0] == [];
  }

  lemma FieldsProject(name: string, references: Json, matches: Matcher)
    ensures Projected(Obj(Fields(name, references)), matches)
            == var hits := FilteredHits(references, matches);
               if hits.None? then None else Some(ModuleReferences(name, Some(SUPPORTED_VERSION), hits.value))
  {
    var ms := Fields(name, references);
    assert ms == [ms[0]] + [ms[1]] + [ms[2]];
    FieldValues(ms[0], Version);
    FieldValues(ms[1], Module);
    FieldValues(ms[2], References);
    forall f ensures Values(ms, DocField, f)
                     == Values([ms[0]], DocField, f) + Values([ms[1]], DocField, f) + Values([ms[2]], DocField, f) {
      ValuesAppend([ms[0]], [ms[1]], DocField, f);
      ValuesAppend([ms[0]] + [ms[1]], [ms[2]], DocField, f);
    }
  }

  /** An index that is written is loaded, in any order of its fields, exactly when its references can be read, and with the hits they give. */
  lemma WrittenIsLoaded(name: string, references: Json, ms: seq<Member>, matches: Matcher)
    requires Printable(Obj(ms)) && multiset(ms) == multiset(Fields(name, references))
    ensures var hits := FilteredHits(references, matches);
            Load(Some(Parse(Print(Obj(ms), ""))), matches)
            == if hits.None? then Err(BadJson) else Ok(ModuleReferences(name, Some(SUPPORTED_VERSION), hits.value))
  {
    ParsePrint(Obj(ms));
    FieldsProject(name, references, matches);
    OrderDoesNotMatter(ms, Fields(name, references), matches);
    var t := Text(Obj(ms), false);
    if FilteredHits(references, matches).None? {
      VersionStands(name, references, ms);
    }
  }

  /** A probe of such an index finds the supported version or nothing. */
  lemma VersionStands(name: string, references: Json, ms: seq<Member>)
    requires multiset(ms) == multiset(Fields(name, references))
    ensures ProbeVersion(Text(Obj(ms), false)) in {None, Some(SUPPORTED_VERSION)}
  {
    ValuesIgnoreOrder(ms, Fields(name, references), DocField, Version);
    var all := Fields(name, references);
    assert all == [all[0]] + [all[1]] + [all[2]];
    FieldValues(all[0], Version);
    FieldValues(all[1], Module);
    FieldValues(all[2], References);
    ValuesAppend([all[0]], [all[1]], DocField, Version);
    ValuesAppend([all[0]] + [all[1]], [all[2]], DocField, Version);
    assert Values(all, DocField, Version) == [Natural(SUPPORTED_VERSION)];
    SameSize(Values(ms, DocField, Version), [Natural(SUPPORTED_VERSION)]);
    OnlyValue([Natural(SUPPORTED_VERSION)], Values(ms, DocField, Version));
  }
}
