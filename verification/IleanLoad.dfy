/**
 Loading one `.ilean` file: the streaming parse, the version gate after it, and
 the probe that decides what a failed parse means.
 */
module IleanLoad {
  import opened Wrappers
  import opened IleanDoc

  datatype IleanError = UnsupportedVersion(found: int) | BadJson | Unreadable

  /** The cold path: nothing but `version`, from an object or by position. */
  ghost function ProbeVersion(t: Text): Option<int> {
    if t.trailing then None
    else if t.root.Obj? then
      var vs := Values(t.root.members, DocField, Version);
      if |vs| != 1 || !AllButVersionWellFormed(t.root.members) then None else ReadNatural(vs[0], U64_MAX)
    else if t.root.Arr? && |t.root.items| == 1 then ReadNatural(t.root.items[0], U64_MAX)
    else None
  }

  ghost predicate AllButVersionWellFormed(ms: seq<Member>) {
    forall i :: 0 <= i < |ms| && DocField(ms[i].key) != Version ==> WellFormed(ms[i].value)
  }

  /** The parse of a whole text, which rejects anything after the document. */
  ghost function Parsed(t: Text, matches: Matcher): Option<ModuleReferences> {
    if t.trailing then None else Projected(t.root, matches)
  }

  ghost function Load(t: Option<Text>, matches: Matcher): Result<ModuleReferences, IleanError> {
    if t.None? then Err(Unreadable)
    else
      var doc := Parsed(t.value, matches);
      if doc.None? then Err(Classified(t.value))
      else if doc.value.version == Some(SUPPORTED_VERSION) then Ok(doc.value)
      else if doc.value.version.Some? then Err(UnsupportedVersion(doc.value.version.value))
      else Err(BadJson)
  }

  /** Why a text that could not be parsed was rejected. */
  ghost function Classified(t: Text): IleanError {
    var v := ProbeVersion(t);
    if v.Some? && v.value != SUPPORTED_VERSION then UnsupportedVersion(v.value) else BadJson
  }

  method Probe(t: Text) returns (version: Option<int>)
    ensures version == ProbeVersion(t)
  {
    if t.trailing {
      return None;
    }
    if t.root.Arr? && |t.root.items| == 1 {
      return ReadNatural(t.root.items[0], U64_MAX);
    }
    if !t.root.Obj? {
      return None;
    }
    var ms := t.root.members;
    version := None;
    for i := 0 to |ms|
      invariant Values(ms[..i], DocField, Version) == if version.Some? then [Natural(version.value)] else []
      invariant version.Some? ==> 0 <= version.value <= U64_MAX
      invariant AllButVersionWellFormed(ms[..i])
    {
      ValuesStep(ms, i, DocField, Version);
      ProbeStep(ms, i);
      if DocField(ms[i].key) == Version {
        if version.Some? {
          SecondStays(ms, i, DocField, Version);
          return None;
        }
        version := ReadNatural(ms[i].value, U64_MAX);
        if version.None? {
          FirstStays(ms, i, DocField, Version);
          return None;
        }
      } else if !WellFormed(ms[i].value) {
        return None;
      }
    }
    assert ms[..|ms|] == ms;
  }

  lemma ProbeStep(ms: seq<Member>, i: nat)
    requires i < |ms| && AllButVersionWellFormed(ms[..i])
    ensures DocField(ms[i].key) == Version || WellFormed(ms[i].value) ==> AllButVersionWellFormed(ms[..i + 1])
  {
    assert forall k :: 0 <= k < i ==> ms[..i + 1][k] == ms[..i][k];
  }

  /** Read, parse and gate one file; `t` is `None` when it cannot be read. */
  method LoadReferences(t: Option<Text>, matches: Matcher) returns (r: Result<ModuleReferences, IleanError>)
    ensures r == Load(t, matches)
  {
    if t.None? {
      return Err(Unreadable);
    }
    var parsed: Result<ModuleReferences, ParseError> := Err(NotAMap);
    if !t.value.trailing {
      parsed := ParseDocument(t.value.root, matches);
    }
    if parsed.Err? {
      var v := Probe(t.value);
      return Err(if v.Some? && v.value != SUPPORTED_VERSION then UnsupportedVersion(v.value) else BadJson);
    }
    match parsed.value.version
    case None => return Err(BadJson);
    case Some(v) => return if v == SUPPORTED_VERSION then Ok(parsed.value) else Err(UnsupportedVersion(v));
  }

  // --- what reading a value establishes -------------------------------------------

  lemma FilteredHitsAreWellFormed(j: Json, matches: Matcher)
    requires FilteredHits(j, matches).Some?
    ensures WellFormed(j)
  {
    forall i | 0 <= i < |j.members| ensures WellFormed(j.members[i].value) {
      if matches(j.members[i].key) {
        KeptMember(j.members, matches, i);
        ReadEntryIsJson(j.members[i].value);
      }
    }
  }

  /** A document that parses is JSON all through, so the probe reads its version. */
  lemma ParsedMeansProbed(t: Text, matches: Matcher)
    requires Parsed(t, matches).Some?
    ensures ProbeVersion(t) == Parsed(t, matches).value.version
  {
    var ms := t.root.members;
    FilteredHitsAreWellFormed(Values(ms, DocField, References)[0], matches);
    forall i | 0 <= i < |ms| && DocField(ms[i].key) != Version ensures WellFormed(ms[i].value) {
      ValuesHold(ms, DocField, i);
    }
  }

  /**
   Exactly the texts with one well-typed version other than 5 are reported as
   unsupported, with that version, whether or not the rest has a shape this
   reader knows. The name asked about plays no part.
   */
  lemma UnsupportedExactly(t: Text, matches: Matcher, v: int)
    ensures Load(Some(t), matches) == Err(UnsupportedVersion(v)) <==> ProbeVersion(t) == Some(v) && v != SUPPORTED_VERSION
  {
    if Parsed(t, matches).Some? {
      ParsedMeansProbed(t, matches);
    }
  }

  /** Success is the filtered parse of a version 5 document, and nothing else succeeds. */
  lemma LoadsExactly(t: Text, matches: Matcher, doc: ModuleReferences)
    ensures Load(Some(t), matches) == Ok(doc) <==> Parsed(t, matches) == Some(doc) && ProbeVersion(t) == Some(SUPPORTED_VERSION)
  {
    if Parsed(t, matches).Some? {
      ParsedMeansProbed(t, matches);
    }
  }

  // --- the order of fields ----------------------------------------------------------

  function Bag(f: Field, m: Member, of: string -> Field): multiset<Json> {
    if of(m.key) == f then multiset{m.value} else multiset{}
  }

  lemma {:induction false} ValuesWithout(ms: seq<Member>, i: nat, of: string -> Field, f: Field)
    requires i < |ms|
    ensures multiset(Values(ms, of, f)) == multiset(Values(ms[..i] + ms[i + 1..], of, f)) + Bag(f, ms[i], of)
  {
    ValuesSplit(ms, i, of, f);
    ValuesAppend(ms[..i], ms[i + 1..], of, f);
  }

  lemma TakeOne(ms: seq<Member>, i: nat)
    requires i < |ms|
    ensures multiset(ms) == multiset{ms[i]} + multiset(ms[..i] + ms[i + 1..])
  {
    assert ms == ms[..i] + [ms[i]] + ms[i + 1..];
  }

  lemma Cancel(m: Member, x: multiset<Member>, y: multiset<Member>)
    requires multiset{m} + x == multiset{m} + y
    ensures x == y
  {
    assert x == (multiset{m} + x) - multiset{m};
    assert y == (multiset{m} + y) - multiset{m};
  }

  /** Two permutations, each without its copy of the first member. */
  lemma Peel(a: seq<Member>, b: seq<Member>) returns (j: nat)
    requires multiset(a) == multiset(b) && a != []
    ensures j < |b| && b[j] == a[0]
    ensures multiset(a[..0] + a[1..]) == multiset(b[..j] + b[j + 1..])
  {
    assert a[0] in multiset(b);
    j :| 0 <= j < |b| && b[j] == a[0];
    TakeOne(a, 0);
    TakeOne(b, j);
    Cancel(a[0], multiset(a[..0] + a[1..]), multiset(b[..j] + b[j + 1..]));
  }

  lemma NothingPermutesToNothing(b: seq<Member>)
    requires multiset(b) == multiset{}
    ensures b == []
  {
    assert |multiset(b)| == |b|;
  }

  /** The values of a field are the same bag in any order of the members. */
  lemma {:induction false} ValuesIgnoreOrder(a: seq<Member>, b: seq<Member>, of: string -> Field, f: Field)
    requires multiset(a) == multiset(b)
    ensures multiset(Values(a, of, f)) == multiset(Values(b, of, f))
    decreases |a|
  {
    if a == [] {
      NothingPermutesToNothing(b);
    } else {
      var j := Peel(a, b);
      ValuesIgnoreOrder(a[..0] + a[1..], b[..j] + b[j + 1..], of, f);
      ValuesWithout(a, 0, of, f);
      ValuesWithout(b, j, of, f);
    }
  }

  lemma OnlyValue(a: seq<Json>, b: seq<Json>)
    requires multiset(a) == multiset(b) && |a| <= 1
    ensures a == b
  {
    assert |multiset(a)| == |a| && |multiset(b)| == |b|;
    if |a| == 1 {
      assert a[0] in multiset(b) && a == [a[0]] && b == [b[0]];
    }
  }

  lemma SameSize(a: seq<Json>, b: seq<Json>)
    requires multiset(a) == multiset(b)
    ensures |a| == |b| && (|a| <= 1 ==> a == b)
  {
    assert |multiset(a)| == |a| && |multiset(b)| == |b|;
    if |a| <= 1 { OnlyValue(a, b); }
  }

  lemma SameMembersWellFormed(a: seq<Member>, b: seq<Member>, of: string -> Field)
    requires multiset(a) == multiset(b) && OthersWellFormed(a, of)
    ensures OthersWellFormed(b, of)
  {
    forall i | 0 <= i < |b| && of(b[i].key) == Other ensures WellFormed(b[i].value) {
      assert b[i] in multiset(a);
      var k :| 0 <= k < |a| && a[k] == b[i];
    }
  }

  /** Where `version`, `module`, `references` and unknown fields stand makes no difference. */
  lemma OrderDoesNotMatter(a: seq<Member>, b: seq<Member>, matches: Matcher)
    requires multiset(a) == multiset(b)
    ensures Projected(Obj(a), matches) == Projected(Obj(b), matches)
  {
    ValuesIgnoreOrder(a, b, DocField, Module);
    ValuesIgnoreOrder(a, b, DocField, Version);
    ValuesIgnoreOrder(a, b, DocField, References);
    SameSize(Values(a, DocField, Module), Values(b, DocField, Module));
    SameSize(Values(a, DocField, Version), Values(b, DocField, Version));
    SameSize(Values(a, DocField, References), Values(b, DocField, References));
    if OthersWellFormed(a, DocField) { SameMembersWellFormed(a, b, DocField); }
    if OthersWellFormed(b, DocField) { SameMembersWellFormed(b, a, DocField); }
  }

  /** A known field that stands twice rejects the document, whatever its values. */
  lemma DuplicatesAreRejected(ms: seq<Member>, i: nat, j: nat, matches: Matcher)
    requires i < j < |ms| && DocField(ms[i].key) == DocField(ms[j].key) != Other
    ensures Projected(Obj(ms), matches).None?
  {
    var f := DocField(ms[i].key);
    ValuesHold(ms[..j], DocField, i);
    assert ms[..j][i] == ms[i];
    SecondStays(ms, j, DocField, f);
    assert f != Definition && f != Usages;
  }
}
