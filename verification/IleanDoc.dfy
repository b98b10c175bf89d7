/**
 Reading one `.ilean` document. The reader streams over the document once and
 keeps only what was asked for; here it is proved to answer what a reader would
 that holds the whole document as a tree, filters its entries by key and then
 reads the ones it kept. A reader that reads every entry first and filters
 afterwards is stricter, and `ReadAllAgreesExactly` says by how much.
 */
module IleanDoc {
  import opened Wrappers

  const SUPPORTED_VERSION := 5

  /**
   A JSON value as a deserializer meets it. `Undecodable` is a string with an
   escape that stands for no character, or an object with such a string for a
   key: it can be skipped and not read. `Broken` is text that is not JSON:
   reading or skipping it fails.
   */
  datatype Json =
    | Null
    | Bool(b: bool)
    | Natural(n: int)
    | OtherNumber
    | Str(s: string)
    | Undecodable
    | Arr(items: seq<Json>)
    | Obj(members: seq<Member>)
    | Broken

  datatype Member = Member(key: string, value: Json)

  /** A whole text: one value, and possibly more after it. */
  datatype Text = Text(root: Json, trailing: bool)

  datatype Location = Location(startLine: int, startColumn: int, endLine: int, endColumn: int)
  datatype RefKind = Def | Ref
  datatype Hit = Hit(kind: RefKind, location: Location)
  datatype RefInfo = RefInfo(definition: Option<Location>, usages: seq<Location>)
  datatype ModuleReferences = ModuleReferences(name: string, version: Option<int>, hits: seq<Hit>)

  type Matcher = string -> bool

  /** Text that is JSON all through, which is what skipping a value checks. */
  predicate WellFormed(j: Json) {
    match j
    case Arr(items) => forall i :: 0 <= i < |items| ==> WellFormed(items[i])
    case Obj(ms) => forall i :: 0 <= i < |ms| ==> WellFormed(ms[i].value)
    case Broken => false
    case _ => true
  }

  function ReadNatural(j: Json, max: int): Option<int> {
    if j.Natural? && 0 <= j.n <= max then Some(j.n) else None
  }

  /** Four 32-bit numbers, then at most one more element of any shape. */
  function ReadLocation(j: Json): Option<Location> {
    if !j.Arr? || |j.items| < 4 || |j.items| > 5 then None
    else
      var (a, b, c, d) := (ReadNatural(j.items[0], U32_MAX), ReadNatural(j.items[1], U32_MAX),
                           ReadNatural(j.items[2], U32_MAX), ReadNatural(j.items[3], U32_MAX));
      if a.None? || b.None? || c.None? || d.None? || (|j.items| == 5 && !WellFormed(j.items[4])) then None
      else Some(Location(a.value, b.value, c.value, d.value))
  }

  function ReadDefinition(j: Json): Option<Option<Location>> {
    if j.Null? then Some(None)
    else
      var l := ReadLocation(j);
      if l.Some? then Some(l) else None
  }

  function ReadLocations(items: seq<Json>): Option<seq<Location>> {
    if items == [] then Some([])
    else
      var (init, last) := (ReadLocations(items[..|items| - 1]), ReadLocation(items[|items| - 1]));
      if init.None? || last.None? then None else Some(init.value + [last.value])
  }

  function ReadUsages(j: Json): Option<seq<Location>> {
    if j.Arr? then ReadLocations(j.items) else None
  }

  /** The fields of a document and of an entry, resolved from their names. */
  datatype Field = Module | Version | References | Definition | Usages | Other

  function DocField(key: string): Field {
    match key
    case "module" => Module
    case "version" => Version
    case "references" => References
    case _ => Other
  }

  function InfoField(key: string): Field {
    match key
    case "definition" => Definition
    case "usages" => Usages
    case _ => Other
  }

  /** The values of one field, in the order they stand. */
  function Values(ms: seq<Member>, of: string -> Field, f: Field): seq<Json> {
    if ms == [] then []
    else
      var last := ms[|ms| - 1];
      Values(ms[..|ms| - 1], of, f) + if of(last.key) == f then [last.value] else []
  }

  /** Other fields are skipped, so they must at least be JSON. */
  ghost predicate OthersWellFormed(ms: seq<Member>, of: string -> Field) {
    forall i :: 0 <= i < |ms| && of(ms[i].key) == Other ==> WellFormed(ms[i].value)
  }

  /** Definition and usages, each at most once and both optional; or the same two by position. */
  ghost function ReadRefInfo(j: Json): Option<RefInfo> {
    if j.Obj? then
      var (ds, us) := (Values(j.members, InfoField, Definition), Values(j.members, InfoField, Usages));
      if |ds| > 1 || |us| > 1 || !OthersWellFormed(j.members, InfoField) then None
      else RefInfoOf(if ds == [] then Null else ds[0], if us == [] then Arr([]) else us[0])
    else if j.Arr? && |j.items| <= 2 then
      RefInfoOf(if |j.items| > 0 then j.items[0] else Null, if |j.items| > 1 then j.items[1] else Arr([]))
    else None
  }

  function RefInfoOf(definition: Json, usages: Json): Option<RefInfo> {
    var (d, u) := (ReadDefinition(definition), ReadUsages(usages));
    if d.None? || u.None? then None else Some(RefInfo(d.value, u.value))
  }

  function UsageHits(usages: seq<Location>): seq<Hit> {
    seq(|usages|, i requires 0 <= i < |usages| => Hit(Ref, usages[i]))
  }

  function InfoHits(info: RefInfo): seq<Hit> {
    (if info.definition.Some? then [Hit(Def, info.definition.value)] else []) + UsageHits(info.usages)
  }

  // --- parse everything, then filter --------------------------------------------

  function Kept(ms: seq<Member>, matches: Matcher): seq<Member> {
    if ms == [] then []
    else Kept(ms[..|ms| - 1], matches) + if matches(ms[|ms| - 1].key) then [ms[|ms| - 1]] else []
  }

  ghost predicate AllInfos(ms: seq<Member>) {
    forall i :: 0 <= i < |ms| ==> ReadRefInfo(ms[i].value).Some?
  }

  ghost function HitsOf(ms: seq<Member>): seq<Hit>
    requires AllInfos(ms)
  {
    if ms == [] then [] else HitsOf(ms[..|ms| - 1]) + InfoHits(ReadRefInfo(ms[|ms| - 1].value).value)
  }

  ghost predicate UnmatchedWellFormed(ms: seq<Member>, matches: Matcher) {
    forall i :: 0 <= i < |ms| && !matches(ms[i].key) ==> WellFormed(ms[i].value)
  }

  /** The hits of a references map: filter its entries by key, then read the ones kept. */
  ghost function FilteredHits(j: Json, matches: Matcher): Option<seq<Hit>> {
    if j.Obj? && UnmatchedWellFormed(j.members, matches) && AllInfos(Kept(j.members, matches)) then
      Some(HitsOf(Kept(j.members, matches)))
    else None
  }

  /** The hits of a references map when every entry is read first and the keys are looked at afterwards. */
  ghost function ReadAllHits(j: Json, matches: Matcher): Option<seq<Hit>> {
    if j.Obj? && AllInfos(j.members) then
      KeptInfos(j.members, matches);
      Some(HitsOf(Kept(j.members, matches)))
    else None
  }

  lemma {:induction false} KeptInfos(ms: seq<Member>, matches: Matcher)
    requires AllInfos(ms)
    ensures AllInfos(Kept(ms, matches))
  {
    if ms != [] {
      assert forall i :: 0 <= i < |ms| - 1 ==> ms[..|ms| - 1][i] == ms[i];
      KeptInfos(ms[..|ms| - 1], matches);
    }
  }

  lemma {:induction false} ValuesHold(ms: seq<Member>, of: string -> Field, i: nat)
    requires i < |ms|
    ensures ms[i].value in Values(ms, of, of(ms[i].key))
  {
    if i < |ms| - 1 { ValuesHold(ms[..|ms| - 1], of, i); }
  }

  lemma ReadLocationIsJson(j: Json)
    ensures ReadLocation(j).Some? ==> WellFormed(j)
  {
  }

  lemma {:induction false} ReadLocationsAreJson(items: seq<Json>)
    requires ReadLocations(items).Some?
    ensures forall i :: 0 <= i < |items| ==> WellFormed(items[i])
  {
    if items != [] {
      ReadLocationsAreJson(items[..|items| - 1]);
      ReadLocationIsJson(items[|items| - 1]);
      assert items == items[..|items| - 1] + [items[|items| - 1]];
    }
  }

  lemma RefInfoPartsAreJson(definition: Json, usages: Json)
    ensures RefInfoOf(definition, usages).Some? ==> WellFormed(definition) && WellFormed(usages)
  {
    ReadLocationIsJson(definition);
    if usages.Arr? && ReadLocations(usages.items).Some? { ReadLocationsAreJson(usages.items); }
  }

  /** An entry that can be read can be skipped. */
  lemma ReadEntryIsJson(j: Json)
    requires ReadRefInfo(j).Some?
    ensures WellFormed(j)
  {
    if j.Obj? {
      var (ds, us) := (Values(j.members, InfoField, Definition), Values(j.members, InfoField, Usages));
      RefInfoPartsAreJson(if ds == [] then Null else ds[0], if us == [] then Arr([]) else us[0]);
      forall i | 0 <= i < |j.members| ensures WellFormed(j.members[i].value) {
        ValuesHold(j.members, InfoField, i);
      }
    } else {
      RefInfoPartsAreJson(if |j.items| > 0 then j.items[0] else Null, if |j.items| > 1 then j.items[1] else Arr([]));
    }
  }

  /**
   The two readers differ exactly on the maps that only the filtering one
   accepts: those with an entry nobody asked for that cannot be read.
   */
  lemma ReadAllAgreesExactly(j: Json, matches: Matcher)
    ensures ReadAllHits(j, matches).Some? ==> FilteredHits(j, matches) == ReadAllHits(j, matches)
    ensures FilteredHits(j, matches) == ReadAllHits(j, matches) <==>
            (FilteredHits(j, matches).Some? ==>
              forall i :: 0 <= i < |j.members| && !matches(j.members[i].key) ==> ReadRefInfo(j.members[i].value).Some?)
  {
    if j.Obj? {
      var ms := j.members;
      if AllInfos(ms) {
        KeptInfos(ms, matches);
        forall i | 0 <= i < |ms| ensures WellFormed(ms[i].value) { ReadEntryIsJson(ms[i].value); }
      }
      if FilteredHits(j, matches).Some? {
        forall i | 0 <= i < |ms| && matches(ms[i].key) ensures ReadRefInfo(ms[i].value).Some? { KeptMember(ms, matches, i); }
      }
    }
  }

  ghost function Projected(j: Json, matches: Matcher): Option<ModuleReferences> {
    if !j.Obj? || !OthersWellFormed(j.members, DocField) then None
    else
      Assembled(Values(j.members, DocField, Module), Values(j.members, DocField, Version),
                Values(j.members, DocField, References), matches)
  }

  /** The document, given all the values of each known field. */
  ghost function Assembled(m: seq<Json>, v: seq<Json>, r: seq<Json>, matches: Matcher): Option<ModuleReferences> {
    if |m| != 1 || !m[0].Str? || |v| > 1 || |r| != 1 then None
    else if |v| == 1 && ReadNatural(v[0], U64_MAX).None? then None
    else
      var hits := FilteredHits(r[0], matches);
      if hits.None? then None
      else Some(ModuleReferences(m[0].s, if v == [] then None else ReadNatural(v[0], U64_MAX), hits.value))
  }

  // --- the streaming reader ------------------------------------------------------

  lemma {:induction false} ValuesAppend(a: seq<Member>, b: seq<Member>, of: string -> Field, f: Field)
    ensures Values(a + b, of, f) == Values(a, of, f) + Values(b, of, f)
  {
    if b == [] {
      assert a + b == a;
    } else {
      ValuesAppend(a, b[..|b| - 1], of, f);
      assert (a + b)[..|a + b| - 1] == a + b[..|b| - 1];
    }
  }

  lemma ValuesSplit(ms: seq<Member>, i: nat, of: string -> Field, f: Field)
    requires i < |ms|
    ensures Values(ms, of, f)
         == Values(ms[..i], of, f) + (if of(ms[i].key) == f then [ms[i].value] else []) + Values(ms[i + 1..], of, f)
  {
    assert ms == ms[..i] + ([ms[i]] + ms[i + 1..]);
    ValuesAppend(ms[..i], [ms[i]] + ms[i + 1..], of, f);
    ValuesAppend([ms[i]], ms[i + 1..], of, f);
    assert [ms[i]][..0] == [];
  }

  lemma ValuesStep(ms: seq<Member>, i: nat, of: string -> Field, f: Field)
    requires i < |ms|
    ensures Values(ms[..i + 1], of, f) == Values(ms[..i], of, f) + if of(ms[i].key) == f then [ms[i].value] else []
  {
    assert ms[..i + 1][..i] == ms[..i];
  }

  lemma OthersStep(ms: seq<Member>, i: nat, of: string -> Field)
    requires i < |ms| && OthersWellFormed(ms[..i], of) && (of(ms[i].key) != Other || WellFormed(ms[i].value))
    ensures OthersWellFormed(ms[..i + 1], of)
  {
    assert forall k :: 0 <= k < i ==> ms[..i + 1][k] == ms[..i][k];
  }

  /** The second value of a field is there to stay. */
  lemma SecondStays(ms: seq<Member>, i: nat, of: string -> Field, f: Field)
    requires i < |ms| && of(ms[i].key) == f && Values(ms[..i], of, f) != []
    ensures |Values(ms, of, f)| > 1
  {
    ValuesSplit(ms, i, of, f);
  }

  /** So is the first. */
  lemma FirstStays(ms: seq<Member>, i: nat, of: string -> Field, f: Field)
    requires i < |ms| && of(ms[i].key) == f && Values(ms[..i], of, f) == []
    ensures Values(ms, of, f) != [] && Values(ms, of, f)[0] == ms[i].value
  {
    ValuesSplit(ms, i, of, f);
  }

  lemma {:induction false} KeptMember(ms: seq<Member>, matches: Matcher, i: nat)
    requires i < |ms| && matches(ms[i].key)
    ensures ms[i] in Kept(ms, matches)
  {
    if i < |ms| - 1 {
      KeptMember(ms[..|ms| - 1], matches, i);
    }
  }

  lemma KeptStep(ms: seq<Member>, matches: Matcher, i: nat)
    requires i < |ms|
    ensures Kept(ms[..i + 1], matches) == Kept(ms[..i], matches) + if matches(ms[i].key) then [ms[i]] else []
  {
    assert ms[..i + 1][..i] == ms[..i];
  }

  lemma HitsStep(kept: seq<Member>, m: Member)
    requires AllInfos(kept) && ReadRefInfo(m.value).Some?
    ensures AllInfos(kept + [m]) && HitsOf(kept + [m]) == HitsOf(kept) + InfoHits(ReadRefInfo(m.value).value)
  {
    assert (kept + [m])[..|kept|] == kept;
  }

  ghost predicate EntriesSoFar(ms: seq<Member>, matches: Matcher, found: seq<Hit>) {
    && UnmatchedWellFormed(ms, matches) && AllInfos(Kept(ms, matches))
    && found == HitsOf(Kept(ms, matches))
  }

  lemma UnmatchedStep(ms: seq<Member>, i: nat, matches: Matcher)
    requires i < |ms| && UnmatchedWellFormed(ms[..i], matches) && (matches(ms[i].key) || WellFormed(ms[i].value))
    ensures UnmatchedWellFormed(ms[..i + 1], matches)
  {
    assert forall k :: 0 <= k < i ==> ms[..i + 1][k] == ms[..i][k];
  }

  lemma EntryKept(ms: seq<Member>, i: nat, matches: Matcher, found: seq<Hit>, info: Option<RefInfo>)
    requires i < |ms| && matches(ms[i].key) && EntriesSoFar(ms[..i], matches, found) && info == ReadRefInfo(ms[i].value)
    ensures info.Some? ==> EntriesSoFar(ms[..i + 1], matches, found + InfoHits(info.value))
    ensures info.None? ==> FilteredHits(Obj(ms), matches).None?
  {
    if info.Some? {
      KeptStep(ms, matches, i);
      UnmatchedStep(ms, i, matches);
      HitsStep(Kept(ms[..i], matches), ms[i]);
    } else {
      KeptMember(ms, matches, i);
    }
  }

  lemma EntrySkipped(ms: seq<Member>, i: nat, matches: Matcher, found: seq<Hit>)
    requires i < |ms| && !matches(ms[i].key) && EntriesSoFar(ms[..i], matches, found)
    ensures WellFormed(ms[i].value) ==> EntriesSoFar(ms[..i + 1], matches, found)
    ensures !WellFormed(ms[i].value) ==> FilteredHits(Obj(ms), matches).None?
  {
    if WellFormed(ms[i].value) {
      KeptStep(ms, matches, i);
      assert Kept(ms[..i + 1], matches) == Kept(ms[..i], matches);
      UnmatchedStep(ms, i, matches);
    }
  }

  /** Read one entry at a time: keep what matches, skip the rest. */
  method CollectEntries(j: Json, matches: Matcher) returns (hits: Option<seq<Hit>>)
    ensures hits == FilteredHits(j, matches)
  {
    if !j.Obj? {
      return None;
    }
    var (ms, found) := (j.members, []);
    for i := 0 to |ms|
      invariant EntriesSoFar(ms[..i], matches, found)
    {
      if matches(ms[i].key) {
        var info := ReadInfo(ms[i].value);
        EntryKept(ms, i, matches, found, info);
        if info.None? {
          return None;
        }
        ghost var were := found;
        if info.value.definition.Some? {
          found := found + [Hit(Def, info.value.definition.value)];
        }
        found := found + UsageHits(info.value.usages);
        assert found == were + InfoHits(info.value);
      } else {
        EntrySkipped(ms, i, matches, found);
        if !WellFormed(ms[i].value) {
          return None;
        }
      }
    }
    assert ms[..|ms|] == ms;
    hits := Some(found);
  }

  ghost predicate InfoSoFar(ms: seq<Member>, definition: Option<Json>, usages: Option<Json>) {
    && Values(ms, InfoField, Definition) == (if definition.Some? then [definition.value] else [])
    && Values(ms, InfoField, Usages) == (if usages.Some? then [usages.value] else [])
    && OthersWellFormed(ms, InfoField)
  }

  lemma InfoStep(ms: seq<Member>, i: nat, definition: Option<Json>, usages: Option<Json>)
    requires i < |ms| && InfoSoFar(ms[..i], definition, usages)
    ensures InfoField(ms[i].key) == Definition && definition.None? ==> InfoSoFar(ms[..i + 1], Some(ms[i].value), usages)
    ensures InfoField(ms[i].key) == Usages && usages.None? ==> InfoSoFar(ms[..i + 1], definition, Some(ms[i].value))
    ensures InfoField(ms[i].key) == Other && WellFormed(ms[i].value) ==> InfoSoFar(ms[..i + 1], definition, usages)
    ensures InfoField(ms[i].key) == Definition && definition.Some? ==> ReadRefInfo(Obj(ms)).None?
    ensures InfoField(ms[i].key) == Usages && usages.Some? ==> ReadRefInfo(Obj(ms)).None?
    ensures InfoField(ms[i].key) == Other && !WellFormed(ms[i].value) ==> ReadRefInfo(Obj(ms)).None?
  {
    ValuesStep(ms, i, InfoField, Definition);
    ValuesStep(ms, i, InfoField, Usages);
    if InfoField(ms[i].key) != Other || WellFormed(ms[i].value) { OthersStep(ms, i, InfoField); }
    if InfoField(ms[i].key) == Definition && definition.Some? { SecondStays(ms, i, InfoField, Definition); }
    if InfoField(ms[i].key) == Usages && usages.Some? { SecondStays(ms, i, InfoField, Usages); }
  }

  /** One entry's value, by name or by position. */
  method ReadInfo(j: Json) returns (info: Option<RefInfo>)
    ensures info == ReadRefInfo(j)
  {
    if j.Arr? {
      if |j.items| > 2 {
        return None;
      }
      return RefInfoOf(if |j.items| > 0 then j.items[0] else Null, if |j.items| > 1 then j.items[1] else Arr([]));
    }
    if !j.Obj? {
      return None;
    }
    var ms := j.members;
    var definition: Option<Json> := None;
    var usages: Option<Json> := None;
    for i := 0 to |ms|
      invariant InfoSoFar(ms[..i], definition, usages)
    {
      InfoStep(ms, i, definition, usages);
      if InfoField(ms[i].key) == Definition {
        if definition.Some? { return None; }
        definition := Some(ms[i].value);
      } else if InfoField(ms[i].key) == Usages {
        if usages.Some? { return None; }
        usages := Some(ms[i].value);
      } else if !WellFormed(ms[i].value) {
        return None;
      }
    }
    assert ms[..|ms|] == ms;
    info := RefInfoOf(if definition.Some? then definition.value else Null, if usages.Some? then usages.value else Arr([]));
  }

  datatype ParseError = NotAMap | Duplicate(field: Field) | Missing(field: Field) | BadValue(field: Field)

  /** What the reader has once it has read `ms`; `read` is the references map it took the hits from. */
  ghost predicate DocSoFar(ms: seq<Member>, name: Option<string>, version: Option<int>, hits: Option<seq<Hit>>,
                           read: Json, matches: Matcher) {
    && Values(ms, DocField, Module) == (if name.Some? then [Str(name.value)] else [])
    && Values(ms, DocField, Version) == (if version.Some? then [Natural(version.value)] else [])
    && (version.Some? ==> 0 <= version.value <= U64_MAX)
    && Values(ms, DocField, References) == (if hits.Some? then [read] else [])
    && (hits.Some? ==> FilteredHits(read, matches) == hits)
    && OthersWellFormed(ms, DocField)
  }

  /** The values of a field once one more member has been read. */
  function Grown(values: seq<Json>, m: Member, f: Field): seq<Json> {
    if DocField(m.key) == f then values + [m.value] else values
  }

  lemma DocValues(ms: seq<Member>, i: nat)
    requires i < |ms|
    ensures Values(ms[..i + 1], DocField, Module) == Grown(Values(ms[..i], DocField, Module), ms[i], Module)
    ensures Values(ms[..i + 1], DocField, Version) == Grown(Values(ms[..i], DocField, Version), ms[i], Version)
    ensures Values(ms[..i + 1], DocField, References) == Grown(Values(ms[..i], DocField, References), ms[i], References)
  {
    ValuesStep(ms, i, DocField, Module);
    ValuesStep(ms, i, DocField, Version);
    ValuesStep(ms, i, DocField, References);
  }

  lemma TakeModule(ms: seq<Member>, i: nat, name: Option<string>, version: Option<int>, hits: Option<seq<Hit>>,
                   read: Json, matches: Matcher)
    requires i < |ms| && DocSoFar(ms[..i], name, version, hits, read, matches)
    requires DocField(ms[i].key) == Module && name.None? && ms[i].value.Str?
    ensures DocSoFar(ms[..i + 1], Some(ms[i].value.s), version, hits, read, matches)
  {
    DocValues(ms, i);
    OthersStep(ms, i, DocField);
  }

  lemma TakeVersion(ms: seq<Member>, i: nat, name: Option<string>, version: Option<int>, hits: Option<seq<Hit>>,
                    read: Json, matches: Matcher)
    requires i < |ms| && DocSoFar(ms[..i], name, version, hits, read, matches)
    requires DocField(ms[i].key) == Version && version.None? && ReadNatural(ms[i].value, U64_MAX).Some?
    ensures DocSoFar(ms[..i + 1], name, ReadNatural(ms[i].value, U64_MAX), hits, read, matches)
  {
    DocValues(ms, i);
    OthersStep(ms, i, DocField);
  }

  lemma TakeReferences(ms: seq<Member>, i: nat, name: Option<string>, version: Option<int>, hits: Option<seq<Hit>>,
                       read: Json, matches: Matcher)
    requires i < |ms| && DocSoFar(ms[..i], name, version, hits, read, matches)
    requires DocField(ms[i].key) == References && hits.None? && FilteredHits(ms[i].value, matches).Some?
    ensures DocSoFar(ms[..i + 1], name, version, FilteredHits(ms[i].value, matches), ms[i].value, matches)
  {
    DocValues(ms, i);
    OthersStep(ms, i, DocField);
  }

  lemma TakeOther(ms: seq<Member>, i: nat, name: Option<string>, version: Option<int>, hits: Option<seq<Hit>>,
                  read: Json, matches: Matcher)
    requires i < |ms| && DocSoFar(ms[..i], name, version, hits, read, matches)
    requires DocField(ms[i].key) == Other && WellFormed(ms[i].value)
    ensures DocSoFar(ms[..i + 1], name, version, hits, read, matches)
  {
    DocValues(ms, i);
    OthersStep(ms, i, DocField);
  }

  lemma RejectDuplicate(ms: seq<Member>, i: nat, f: Field, matches: Matcher)
    requires i < |ms| && DocField(ms[i].key) == f && f != Other && Values(ms[..i], DocField, f) != []
    ensures Projected(Obj(ms), matches).None? && |Values(ms, DocField, f)| > 1
  {
    SecondStays(ms, i, DocField, f);
  }

  lemma RejectValue(ms: seq<Member>, i: nat, f: Field, matches: Matcher)
    requires i < |ms| && DocField(ms[i].key) == f && Values(ms[..i], DocField, f) == []
    requires match f
             case Module => !ms[i].value.Str?
             case Version => ReadNatural(ms[i].value, U64_MAX).None?
             case References => FilteredHits(ms[i].value, matches).None?
             case _ => false
    ensures Projected(Obj(ms), matches).None?
  {
    FirstStays(ms, i, DocField, f);
  }

  lemma Finish(ms: seq<Member>, name: Option<string>, version: Option<int>, hits: Option<seq<Hit>>, read: Json,
               matches: Matcher)
    requires DocSoFar(ms, name, version, hits, read, matches)
    ensures Projected(Obj(ms), matches) ==
            if name.Some? && hits.Some? then Some(ModuleReferences(name.value, version, hits.value)) else None
  {
  }

  /** One pass over the top-level fields, in whatever order they come. */
  method ParseDocument(j: Json, matches: Matcher) returns (r: Result<ModuleReferences, ParseError>)
    ensures Projected(j, matches) == if r.Ok? then Some(r.value) else None
    ensures r.Err? && r.error.Duplicate? ==>
              j.Obj? && r.error.field != Other && |Values(j.members, DocField, r.error.field)| > 1
    ensures r.Err? && r.error.Missing? ==>
              j.Obj? && r.error.field in {Module, References} && Values(j.members, DocField, r.error.field) == []
  {
    if !j.Obj? {
      return Err(NotAMap);
    }
    var ms := j.members;
    var name: Option<string> := None;
    var version: Option<int> := None;
    var hits: Option<seq<Hit>> := None;
    ghost var read: Json := Null;
    for i := 0 to |ms|
      invariant DocSoFar(ms[..i], name, version, hits, read, matches)
    {
      var (field, value) := (DocField(ms[i].key), ms[i].value);
      if field == Module {
        if name.Some? {
          RejectDuplicate(ms, i, field, matches);
          return Err(Duplicate(field));
        }
        if !value.Str? {
          RejectValue(ms, i, field, matches);
          return Err(BadValue(field));
        }
        TakeModule(ms, i, name, version, hits, read, matches);
        name := Some(value.s);
      } else if field == Version {
        if version.Some? {
          RejectDuplicate(ms, i, field, matches);
          return Err(Duplicate(field));
        }
        if ReadNatural(value, U64_MAX).None? {
          RejectValue(ms, i, field, matches);
          return Err(BadValue(field));
        }
        TakeVersion(ms, i, name, version, hits, read, matches);
        version := ReadNatural(value, U64_MAX);
      } else if field == References {
        if hits.Some? {
          RejectDuplicate(ms, i, field, matches);
          return Err(Duplicate(field));
        }
        var collected := CollectEntries(value, matches);
        if collected.None? {
          RejectValue(ms, i, field, matches);
          return Err(BadValue(field));
        }
        TakeReferences(ms, i, name, version, hits, read, matches);
        hits, read := collected, value;
      } else {
        if !WellFormed(value) {
          return Err(BadValue(field));
        }
        TakeOther(ms, i, name, version, hits, read, matches);
      }
    }
    assert ms[..|ms|] == ms;
    Finish(ms, name, version, hits, read, matches);
    if name.None? {
      return Err(Missing(Module));
    }
    if hits.None? {
      return Err(Missing(References));
    }
    r := Ok(ModuleReferences(name.value, version, hits.value));
  }
}
