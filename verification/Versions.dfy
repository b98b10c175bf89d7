/**
 Lean version strings, their order, and the supported version suggested for a
 pin outside the supported window.
 */
module Versions {
  import opened Wrappers
  import opened Decimals
  import opened ModulePaths

  /** `rcFlag` is 0 for a release candidate and 1 for a release. */
  datatype Key = Key(major: int, minor: int, patch: int, rcFlag: int, rcNum: int)

  /** Rust's `u32::from_str`: an optional plus sign, then digits. */
  function ParseU32(text: string): Option<int> {
    var digits := if text != "" && text[0] == '+' then text[1..] else text;
    if digits == "" then None
    else
      var v := Value(digits);
      if v.Some? && v.value <= U32_MAX then v else None
  }

  /** The text before and after the first `-rc`. */
  function SplitRc(s: string): Option<(string, string)> {
    if |s| < 3 then None
    else if s[0] == '-' && s[1] == 'r' && s[2] == 'c' then Some(("", s[3..]))
    else
      var rest := SplitRc(s[1..]);
      if rest.None? then None else Some(([s[0]] + rest.value.0, rest.value.1))
  }

  function ParseCore(core: string): Option<(int, int, int)> {
    var parts := Split(core);
    if |parts| != 3 then None
    else
      var (a, b, c) := (ParseU32(parts[0]), ParseU32(parts[1]), ParseU32(parts[2]));
      if a.None? || b.None? || c.None? then None else Some((a.value, b.value, c.value))
  }

  function VersionKey(s: string): Option<Key> {
    var split := SplitRc(s);
    if split.Some? then
      var rc := ParseU32(split.value.1);
      var core := ParseCore(split.value.0);
      if rc.None? || core.None? then None else Some(Key(core.value.0, core.value.1, core.value.2, 0, rc.value))
    else
      var core := ParseCore(s);
      if core.None? then None else Some(Key(core.value.0, core.value.1, core.value.2, 1, 0))
  }

  function Scalar(k: Key): nat
    requires k.major >= 0 && k.minor >= 0 && k.patch >= 0 && k.rcFlag >= 0 && k.rcNum >= 0
  {
    SatAdd(SatAdd(SatAdd(SatAdd(
      SatMul(k.major, 1_000_000_000_000),
      SatMul(k.minor, 1_000_000_000)),
      SatMul(k.patch, 1_000_000)),
      SatMul(k.rcFlag, 1_000)),
      k.rcNum)
  }

  /** The order of versions: field by field, a candidate before its release. */
  predicate Less(a: Key, b: Key) {
    if a.major != b.major then a.major < b.major
    else if a.minor != b.minor then a.minor < b.minor
    else if a.patch != b.patch then a.patch < b.patch
    else if a.rcFlag != b.rcFlag then a.rcFlag < b.rcFlag
    else a.rcNum < b.rcNum
  }

  /** What `VersionKey` can return. */
  predicate IsKey(k: Key) {
    && 0 <= k.major <= U32_MAX && 0 <= k.minor <= U32_MAX && 0 <= k.patch <= U32_MAX && 0 <= k.rcNum <= U32_MAX
    && (k.rcFlag == 0 || (k.rcFlag == 1 && k.rcNum == 0))
  }

  /** Every field below a bound. */
  predicate Below(k: Key, bound: int) {
    IsKey(k) && k.major < bound && k.minor < bound && k.patch < bound && k.rcNum < bound
  }

  function AbsDiff(a: nat, b: nat): nat {
    if a >= b then a - b else b - a
  }

  /** Strictly nearer to the pin, or as near and newer. */
  predicate Nearer(pin: nat, a: nat, b: nat) {
    AbsDiff(a, pin) < AbsDiff(b, pin) || (AbsDiff(a, pin) == AbsDiff(b, pin) && a > b)
  }

  datatype Entry = Entry(name: string, scalar: nat)

  /** The first of the nearest, as `min_by` scans for it. */
  function MinBy(pin: nat, es: seq<Entry>): Entry
    requires es != []
  {
    if |es| == 1 then es[0]
    else
      var best := MinBy(pin, es[..|es| - 1]);
      if Nearer(pin, es[|es| - 1].scalar, best.scalar) then es[|es| - 1] else best
  }

  /** The table: each toolchain lists its version strings, the first being canonical. */
  type Table = seq<seq<string>>

  function Firsts(table: Table): seq<string> {
    if table == [] then []
    else Firsts(table[..|table| - 1]) + if table[|table| - 1] == [] then [] else [table[|table| - 1][0]]
  }

  /** The canonical versions that are numbered releases. */
  function Numbered(names: seq<string>): (es: seq<Entry>)
    ensures forall i :: 0 <= i < |es| ==> es[i].name in names && VersionKey(es[i].name).Some?
  {
    if names == [] then []
    else
      var (init, last) := (Numbered(names[..|names| - 1]), names[|names| - 1]);
      KeysAreKeys(last);
      if VersionKey(last).Some? then init + [Entry(last, Scalar(VersionKey(last).value))] else init
  }

  function Floor(table: Table): string {
    if table == [] || table[0] == [] then "" else table[0][0]
  }

  function Head(table: Table): string {
    if table == [] || table[|table| - 1] == [] then "" else table[|table| - 1][0]
  }

  /** The supported version suggested for a pin. */
  function Nearest(table: Table, pin: Key): string
    requires IsKey(pin)
  {
    var es := Numbered(Firsts(table));
    if es == [] then Floor(table) else MinBy(Scalar(pin), es).name
  }

  lemma {:induction false} KeysAreKeys(s: string)
    ensures VersionKey(s).Some? ==> IsKey(VersionKey(s).value)
  {
    var split := SplitRc(s);
    if split.Some? {
      CoresAreNatural(split.value.0);
      ParsedIsNatural(split.value.1);
    } else {
      CoresAreNatural(s);
    }
  }

  lemma CoresAreNatural(core: string)
    ensures var c := ParseCore(core);
            c.Some? ==> 0 <= c.value.0 <= U32_MAX && 0 <= c.value.1 <= U32_MAX && 0 <= c.value.2 <= U32_MAX
  {
    var parts := Split(core);
    if |parts| == 3 {
      ParsedIsNatural(parts[0]);
      ParsedIsNatural(parts[1]);
      ParsedIsNatural(parts[2]);
    }
  }

  lemma ParsedIsNatural(text: string)
    ensures ParseU32(text).Some? ==> 0 <= ParseU32(text).value <= U32_MAX
  {
    ValueIsNatural(if text != "" && text[0] == '+' then text[1..] else text);
  }

  lemma {:induction false} ValueIsNatural(s: string)
    ensures Value(s).Some? ==> Value(s).value >= 0
  {
    if s != "" {
      ValueIsNatural(s[..|s| - 1]);
    }
  }

  // --- text ------------------------------------------------------------------------------

  function CoreText(k: Key): string
    requires IsKey(k)
  {
    Decimal(k.major) + "." + (Decimal(k.minor) + "." + Decimal(k.patch))
  }

  /** How a version is written. */
  function Render(k: Key): string
    requires IsKey(k)
  {
    if k.rcFlag == 1 then CoreText(k) else CoreText(k) + ("-rc" + Decimal(k.rcNum))
  }

  predicate NoDash(s: string) {
    forall i :: 0 <= i < |s| ==> s[i] != '-'
  }

  lemma DecimalParses(n: nat)
    requires n <= U32_MAX
    ensures ParseU32(Decimal(n)) == Some(n) && !HasDot(Decimal(n)) && NoDash(Decimal(n))
  {
    DecimalIsDigits(n);
    ValueOfDecimal(n);
    assert IsDigit(Decimal(n)[0]);
  }

  lemma {:induction false} SplitRcAt(core: string, rc: string)
    requires NoDash(core)
    ensures SplitRc(core + ("-rc" + rc)) == Some((core, rc))
  {
    var t := core + ("-rc" + rc);
    if core == "" {
      assert t == "-rc" + rc && t[3..] == rc;
    } else {
      assert forall i :: 0 <= i < |core| - 1 ==> core[1..][i] == core[i + 1];
      SplitRcAt(core[1..], rc);
      assert t[1..] == core[1..] + ("-rc" + rc) && t[0] == core[0];
      assert [core[0]] + core[1..] == core;
    }
  }

  lemma {:induction false} NoDashNoRc(s: string)
    requires NoDash(s)
    ensures SplitRc(s).None?
  {
    if |s| >= 3 {
      assert forall i :: 0 <= i < |s| - 1 ==> s[1..][i] == s[i + 1];
      NoDashNoRc(s[1..]);
    }
  }

  lemma CoreSplits(a: string, b: string, c: string)
    requires !HasDot(a) && !HasDot(b) && !HasDot(c)
    ensures Split(a + "." + (b + "." + c)) == [a, b, c]
  {
    SplitAtDot(a, b + "." + c);
    SplitAtDot(b, c);
    SplitPlain(c);
  }

  lemma CoreParses(k: Key)
    requires IsKey(k)
    ensures ParseCore(CoreText(k)) == Some((k.major, k.minor, k.patch)) && NoDash(CoreText(k))
  {
    DecimalParses(k.major);
    DecimalParses(k.minor);
    DecimalParses(k.patch);
    CoreSplits(Decimal(k.major), Decimal(k.minor), Decimal(k.patch));
  }

  /** Every key is read back from how it is written. */
  lemma KeyRoundTrip(k: Key)
    requires IsKey(k)
    ensures VersionKey(Render(k)) == Some(k)
  {
    CoreParses(k);
    if k.rcFlag == 1 {
      NoDashNoRc(CoreText(k));
    } else {
      SplitRcAt(CoreText(k), Decimal(k.rcNum));
      DecimalParses(k.rcNum);
    }
  }

  // --- the scalar against the order ------------------------------------------------------

  /** Below 1000 in every field, nothing saturates. */
  lemma ScalarIsExact(k: Key)
    requires Below(k, 1000)
    ensures Scalar(k) == k.major * 1_000_000_000_000 + k.minor * 1_000_000_000 + k.patch * 1_000_000 + k.rcFlag * 1_000 + k.rcNum
  {
  }

  /** Below 1000 in every field, the scalar orders versions strictly as they are ordered. */
  lemma ScalarKeepsOrder(a: Key, b: Key)
    requires Below(a, 1000) && Below(b, 1000)
    ensures Less(a, b) <==> Scalar(a) < Scalar(b)
    ensures a == b <==> Scalar(a) == Scalar(b)
  {
    ScalarIsExact(a);
    ScalarIsExact(b);
  }

  /** The scalar keeps the order strict for every pair of versions below a bound. */
  ghost predicate KeepsOrderBelow(bound: int) {
    forall a, b :: Below(a, bound) && Below(b, bound) && Less(a, b) ==> Scalar(a) < Scalar(b)
  }

  /** And 1000 is the exact bound: one more, and a candidate ties with its release. */
  lemma OrderKeptExactly(bound: int)
    ensures KeepsOrderBelow(bound) <==> bound <= 1000
  {
    if bound <= 1000 {
      forall a, b | Below(a, bound) && Below(b, bound) && Less(a, b) ensures Scalar(a) < Scalar(b) {
        ScalarKeepsOrder(a, b);
      }
    } else {
      var (candidate, release) := (Key(0, 0, 0, 0, 1000), Key(0, 0, 0, 1, 0));
      assert Below(candidate, bound) && Below(release, bound) && Less(candidate, release);
      assert Scalar(candidate) == 1000 && Scalar(release) == 1000;
    }
  }

  // --- the suggestion ----------------------------------------------------------------------

  /** The suggestion is at minimum distance, and of those the newest. */
  lemma {:induction false} MinByIsNearest(pin: nat, es: seq<Entry>)
    requires es != []
    ensures MinBy(pin, es) in es
    ensures forall i :: 0 <= i < |es| ==> !Nearer(pin, es[i].scalar, MinBy(pin, es).scalar)
  {
    if |es| > 1 {
      var init := es[..|es| - 1];
      MinByIsNearest(pin, init);
      assert forall i :: 0 <= i < |init| ==> es[i] == init[i];
    }
  }

  function ScalarOf(name: string): nat
    requires VersionKey(name).Some?
  {
    KeysAreKeys(name);
    Scalar(VersionKey(name).value)
  }

  lemma {:induction false} NumberedFinds(names: seq<string>, i: nat) returns (j: nat)
    requires i < |names| && VersionKey(names[i]).Some?
    ensures j < |Numbered(names)| && Numbered(names)[j] == Entry(names[i], ScalarOf(names[i]))
  {
    KeysAreKeys(names[i]);
    if i == |names| - 1 {
      j := |Numbered(names)| - 1;
    } else {
      assert names[..|names| - 1][i] == names[i];
      j := NumberedFinds(names[..|names| - 1], i);
    }
  }

  /** A table whose canonical versions ascend, with every field below 1000. */
  ghost predicate Ascending(table: Table) {
    && table != []
    && (forall i :: 0 <= i < |table| ==>
          table[i] != [] && VersionKey(table[i][0]).Some? && Below(VersionKey(table[i][0]).value, 1000))
    && (forall i, j :: 0 <= i < j < |table| ==> Less(VersionKey(table[i][0]).value, VersionKey(table[j][0]).value))
  }

  lemma FirstsStep(table: Table, row: seq<string>)
    requires row != []
    ensures Firsts(table + [row]) == Firsts(table) + [row[0]]
  {
    assert (table + [row])[..|table|] == table;
  }

  lemma NumberedStep(names: seq<string>, name: string)
    requires VersionKey(name).Some?
    ensures Numbered(names + [name]) == Numbered(names) + [Entry(name, ScalarOf(name))]
  {
    assert (names + [name])[..|names|] == names;
  }

  /** In an ascending table every canonical version takes part, in the order of the table. */
  ghost predicate Listed(table: Table, es: seq<Entry>) {
    && |es| == |table|
    && forall i :: 0 <= i < |table| ==>
         table[i] != [] && VersionKey(table[i][0]).Some? && es[i] == Entry(table[i][0], ScalarOf(table[i][0]))
  }

  lemma {:induction false} AscendingIsListed(table: Table)
    requires forall i :: 0 <= i < |table| ==> table[i] != [] && VersionKey(table[i][0]).Some?
    ensures Listed(table, Numbered(Firsts(table)))
  {
    if table != [] {
      var (init, row) := (table[..|table| - 1], table[|table| - 1]);
      AscendingIsListed(init);
      assert table == init + [row];
      FirstsStep(init, row);
      NumberedStep(Firsts(init), row[0]);
    }
  }

  /** A pin above a table version lies above it on the number line, however large the pin's fields. */
  lemma AboveIsAbove(pin: Key, k: Key)
    requires IsKey(pin) && Below(k, 1000) && Less(k, pin)
    ensures Scalar(k) < Scalar(pin)
  {
    ScalarIsExact(k);
  }

  /** Against an ascending table, a pin above all of it is pointed at the head. */
  lemma AboveAllGetsHead(table: Table, pin: Key)
    requires Ascending(table) && IsKey(pin)
    requires forall i :: 0 <= i < |table| ==> Less(VersionKey(table[i][0]).value, pin)
    ensures Nearest(table, pin) == Head(table)
  {
    AscendingIsListed(table);
    var es, last := Numbered(Firsts(table)), |table| - 1;
    MinByIsNearest(Scalar(pin), es);
    forall i | 0 <= i < |table| ensures es[i].scalar < Scalar(pin) && (i < last ==> es[i].scalar < es[last].scalar) {
      AboveIsAbove(pin, VersionKey(table[i][0]).value);
      if i < last { ScalarKeepsOrder(VersionKey(table[i][0]).value, VersionKey(table[last][0]).value); }
    }
  }

  /** In an ascending table the scalars ascend, so its canonical names differ. */
  lemma AscendingScalars(table: Table, i: nat, j: nat)
    requires Ascending(table) && i < j < |table|
    ensures ScalarOf(table[i][0]) < ScalarOf(table[j][0])
    ensures table[i][0] != table[j][0]
  {
    ScalarKeepsOrder(VersionKey(table[i][0]).value, VersionKey(table[j][0]).value);
  }

  /** Among entries that ascend, the lowest is chosen exactly strictly below the middle of the lowest two. */
  lemma LowestWinsExactly(pin: nat, es: seq<Entry>)
    requires es != [] && forall i, j :: 0 <= i < j < |es| ==> es[i].scalar < es[j].scalar
    ensures MinBy(pin, es).scalar == es[0].scalar <==> |es| == 1 || 2 * pin < es[0].scalar + es[1].scalar
  {
    MinByIsNearest(pin, es);
    var best := MinBy(pin, es);
    var i :| 0 <= i < |es| && es[i] == best;
    assert !Nearer(pin, es[0].scalar, best.scalar);
    if |es| > 1 {
      assert !Nearer(pin, es[1].scalar, best.scalar);
      assert i > 0 ==> es[1].scalar <= best.scalar;
    }
  }

  lemma ListedAscend(table: Table, es: seq<Entry>)
    requires Ascending(table) && Listed(table, es)
    ensures forall i, j :: 0 <= i < j < |es| ==> es[i].scalar < es[j].scalar && es[i].name != es[j].name
  {
    forall i, j | 0 <= i < j < |es| ensures es[i].scalar < es[j].scalar && es[i].name != es[j].name {
      AscendingScalars(table, i, j);
    }
  }

  lemma LowestNamedExactly(pin: nat, es: seq<Entry>)
    requires es != []
    requires forall i, j :: 0 <= i < j < |es| ==> es[i].scalar < es[j].scalar && es[i].name != es[j].name
    ensures MinBy(pin, es).name == es[0].name <==> |es| == 1 || 2 * pin < es[0].scalar + es[1].scalar
  {
    MinByIsNearest(pin, es);
    var i :| 0 <= i < |es| && es[i] == MinBy(pin, es);
    LowestWinsExactly(pin, es);
  }

  /**
   Against an ascending table a pin is pointed at the floor exactly when it lies
   strictly below the middle of the two lowest entries: a tie goes to the newer.
   */
  lemma FloorExactly(table: Table, pin: Key)
    requires Ascending(table) && IsKey(pin)
    ensures Nearest(table, pin) == Floor(table) <==>
            |table| == 1 || 2 * Scalar(pin) < ScalarOf(table[0][0]) + ScalarOf(table[1][0])
  {
    var es := Numbered(Firsts(table));
    AscendingIsListed(table);
    ListedAscend(table, es);
    LowestNamedExactly(Scalar(pin), es);
  }

  /** So a pin below all of it, its fields below 1000, is pointed at the floor. */
  lemma BelowAllGetsFloor(table: Table, pin: Key)
    requires Ascending(table) && Below(pin, 1000)
    requires forall i :: 0 <= i < |table| ==> Less(pin, VersionKey(table[i][0]).value)
    ensures Nearest(table, pin) == Floor(table)
  {
    FloorExactly(table, pin);
    ScalarKeepsOrder(pin, VersionKey(table[0][0]).value);
    if |table| > 1 { AscendingScalars(table, 0, 1); }
  }

  /** For any table and pin: the suggestion is a table entry, none is nearer, and none as near is newer. */
  lemma NearestIsNearest(table: Table, pin: Key, i: nat)
    requires IsKey(pin) && i < |Firsts(table)| && VersionKey(Firsts(table)[i]).Some?
    ensures Nearest(table, pin) in Firsts(table) && VersionKey(Nearest(table, pin)).Some?
    ensures !Nearer(Scalar(pin), ScalarOf(Firsts(table)[i]), ScalarOf(Nearest(table, pin)))
  {
    var (names, es) := (Firsts(table), Numbered(Firsts(table)));
    var j := NumberedFinds(names, i);
    MinByIsNearest(Scalar(pin), es);
    ScalarsBelong(names);
  }

  lemma {:induction false} ScalarsBelong(names: seq<string>)
    ensures forall i :: 0 <= i < |Numbered(names)| ==> Numbered(names)[i].scalar == ScalarOf(Numbered(names)[i].name)
  {
    if names != [] {
      ScalarsBelong(names[..|names| - 1]);
    }
  }

  /** The minor release `1.minor.0`, as it is written. */
  lemma MinorRelease(minor: nat)
    requires minor < 10
    ensures VersionKey("1." + (Decimal(minor) + ".0")) == Some(Key(1, minor, 0, 1, 0))
  {
    KeyRoundTrip(Key(1, minor, 0, 1, 0));
    assert Decimal(1) == "1" && Decimal(0) == "0";
    assert Render(Key(1, minor, 0, 1, 0)) == "1." + (Decimal(minor) + ".0");
  }

  function LowMinors(): Table {
    [["1.1.0"], ["1.2.0"]]
  }

  lemma LowMinorsAscend()
    ensures VersionKey("1.1.0") == Some(Key(1, 1, 0, 1, 0)) && VersionKey("1.2.0") == Some(Key(1, 2, 0, 1, 0))
    ensures Ascending(LowMinors())
  {
    MinorRelease(1);
    MinorRelease(2);
    assert "1.1.0" == "1." + (Decimal(1) + ".0");
    assert "1.2.0" == "1." + (Decimal(2) + ".0");
  }

  lemma LowMinorsFirsts()
    ensures Firsts(LowMinors()) == ["1.1.0", "1.2.0"]
  {
    FirstsStep([], ["1.1.0"]);
    FirstsStep([["1.1.0"]], ["1.2.0"]);
    assert [["1.1.0"]] + [["1.2.0"]] == LowMinors() && [] + [["1.1.0"]] == [["1.1.0"]];
  }

  lemma PatchLeavesFloor(table: Table)
    requires Ascending(table) && |table| == 2
    requires VersionKey(table[0][0]) == Some(Key(1, 1, 0, 1, 0)) && VersionKey(table[1][0]) == Some(Key(1, 2, 0, 1, 0))
    ensures Nearest(table, Key(1, 0, 2000, 1, 0)) != Floor(table)
  {
    FloorExactly(table, Key(1, 0, 2000, 1, 0));
  }

  /** The pin 1.0.2000 is below both 1.1.0 and 1.2.0, and is pointed at 1.2.0. */
  lemma LargeFieldLeavesFloor()
    ensures var (table, pin) := (LowMinors(), Key(1, 0, 2000, 1, 0));
            && Ascending(table) && IsKey(pin)
            && (forall i :: 0 <= i < |table| ==> Less(pin, VersionKey(table[i][0]).value))
            && Floor(table) == "1.1.0" && Nearest(table, pin) == "1.2.0"
  {
    LowMinorsAscend();
    LowMinorsFirsts();
    PatchLeavesFloor(LowMinors());
    NearestIsNearest(LowMinors(), Key(1, 0, 2000, 1, 0), 0);
  }
}
