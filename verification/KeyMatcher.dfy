/**
 Testing one `references` key against the queried name. A key is itself JSON
 text, a tagged `RefIdent`; parsing it is the exact test, and a substring gate
 stands in front of it.
 */
module KeyMatcher {
  import opened Wrappers
  import opened JsonText

  datatype RefIdent = Const(n: string) | Fvar

  /** The fields of a constant: `n` once, a string; any other field is skipped. */
  function ConstFields(text: string, first: bool, n: Option<string>): (r: Option<(string, string)>)
    ensures r.Some? ==> |r.value.1| < |text|
    decreases |text|
  {
    var s := SkipWs(text);
    if s != "" && s[0] == '}' then if n.Some? then Some((n.value, s[1..])) else None
    else
      var k := if first then s else SkipWs(AfterComma(s));
      if k == "" || k[0] != QUOTE then None
      else
        var name := Unescape(k[1..]);
        if name.None? then None
        else
          var c := SkipWs(name.value.1);
          if c == "" || c[0] != ':' then None
          else if name.value.0 == "n" then
            var v := SkipWs(c[1..]);
            if n.Some? || v == "" || v[0] != QUOTE then None
            else
              var value := Unescape(v[1..]);
              if value.None? then None else ConstFields(value.value.1, false, Some(value.value.0))
          else
            var rest := SkipValue(c[1..]);
            if rest.None? then None else ConstFields(rest.value, false, n)
  }

  /** The positional form of a constant: an array holding its one field. */
  function ConstArray(text: string): (r: Option<(string, string)>)
    ensures r.Some? ==> |r.value.1| < |text|
  {
    var s := SkipWs(text);
    if s == "" || s[0] != QUOTE then None
    else
      var value := Unescape(s[1..]);
      if value.None? then None
      else
        var close := SkipWs(value.value.1);
        if close != "" && close[0] == ']' then Some((value.value.0, close[1..])) else None
  }

  /** The fields of a local variable: names are read, values are skipped. */
  function FvarFields(text: string, first: bool): (r: Option<string>)
    ensures r.Some? ==> |r.value| < |text|
    decreases |text|
  {
    var s := SkipWs(text);
    if s != "" && s[0] == '}' then Some(s[1..])
    else
      var k := if first then s else SkipWs(AfterComma(s));
      if k == "" || k[0] != QUOTE then None
      else
        var name := Unescape(k[1..]);
        if name.None? then None
        else
          var c := SkipWs(name.value.1);
          if c == "" || c[0] != ':' then None
          else
            var rest := SkipValue(c[1..]);
            if rest.None? then None else FvarFields(rest.value, false)
  }

  /** The payload of a local variable must be an object or an empty array. */
  function FvarPayload(text: string): (r: Option<string>)
    ensures r.Some? ==> |r.value| < |text|
  {
    var s := SkipWs(text);
    if s == "" then None
    else if s[0] == '{' then FvarFields(s[1..], true)
    else if s[0] == '[' then
      var close := SkipWs(s[1..]);
      if close != "" && close[0] == ']' then Some(close[1..]) else None
    else None
  }

  function ConstPayload(text: string): (r: Option<(string, string)>)
    ensures r.Some? ==> |r.value.1| < |text|
  {
    var s := SkipWs(text);
    if s == "" then None
    else if s[0] == '{' then ConstFields(s[1..], true, None)
    else if s[0] == '[' then ConstArray(s[1..])
    else None
  }

  /** What closes the tag: one brace, and nothing else after it. */
  predicate Closes(text: string) {
    var s := SkipWs(text);
    s != "" && s[0] == '}' && SkipWs(s[1..]) == ""
  }

  function ParseRefIdent(key: string): Option<RefIdent> {
    var s := SkipWs(key);
    if s == "" || s[0] != '{' then None
    else
      var q := SkipWs(s[1..]);
      if q == "" || q[0] != QUOTE then None
      else
        var tag := Unescape(q[1..]);
        if tag.None? then None
        else
          var c := SkipWs(tag.value.1);
          if c == "" || c[0] != ':' then None
          else if tag.value.0 == "c" then
            var n := ConstPayload(c[1..]);
            if n.Some? && Closes(n.value.1) then Some(Const(n.value.0)) else None
          else if tag.value.0 == "f" then
            var rest := FvarPayload(c[1..]);
            if rest.Some? && Closes(rest.value) then Some(Fvar) else None
          else None
  }

  ghost predicate Contains(text: string, needle: string) {
    exists i: int :: OccursAt(text, needle, i)
  }

  predicate OccursAt(text: string, needle: string, i: int) {
    0 <= i <= |text| - |needle| && text[i..i + |needle|] == needle
  }

  predicate NameNeedsEscape(name: string) {
    exists i :: 0 <= i < |name| && NeedsEscape(name[i])
  }

  /** The exact test. */
  predicate IsKeyOf(name: string, key: string) {
    ParseRefIdent(key) == Some(Const(name))
  }

  /** The test as it is run: the gate first, when the name is its own encoding. */
  ghost predicate Matches(name: string, key: string) {
    if !NameNeedsEscape(name) && !Contains(key, name) then false
    else
      match ParseRefIdent(key)
      case Some(Const(n)) => n == name
      case _ => false
  }
}
