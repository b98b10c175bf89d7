/**
 A narrowed scan against the full one: exactly when reading only the indices of
 the wanted files finds what reading them all and filtering finds. It does when
 no file is asked for twice and every index with hits records the module its
 path names.
 */
module NarrowedScan {
  import opened Wrappers
  import opened IleanDoc
  import opened ModulePaths
  import opened IleanScan

  ghost predicate NoDuplicates<T(!new)>(s: seq<T>) {
    forall i, j :: 0 <= i < j < |s| ==> s[i] != s[j]
  }

  /** An index that is read gives hits. */
  ghost predicate HasHits(root: Path, tree: Tree, p: Path) {
    Contribution(root, tree.docs(p)) != []
  }

  /** The index lies below the build directory where the module it records belongs. */
  ghost predicate InPlace(root: Path, tree: Tree, p: Path)
    requires tree.docs(p).Some?
  {
    |p| > |root + BUILD_LIB| && ModuleToIndex(root, tree.docs(p).value.name) == p
  }

  /** The walk meets each file once, and what has hits is in place. */
  ghost predicate TreeOk(root: Path, tree: Tree) {
    NoDuplicates(tree.walk) && forall p :: p in tree.walk && HasHits(root, tree, p) ==> InPlace(root, tree, p)
  }

  /** No component is empty. */
  ghost predicate NamesOk(root: Path, files: seq<FilePath>) {
    && (forall k, i :: 0 <= k < |files| && 0 <= i < |files[k].parts| && files[k].parts[i].Normal? ==>
          files[k].parts[i].name != "")
    && (forall i :: 0 <= i < |root| ==> root[i] != "")
  }

  /** No two paths name one file. */
  ghost predicate FilesDiffer(root: Path, files: seq<FilePath>) {
    forall i, j :: 0 <= i < j < |files| ==> Absolute(root, files[i]) != Absolute(root, files[j])
  }

  ghost predicate IsWanted(root: Path, files: seq<FilePath>, p: Path) {
    exists k :: 0 <= k < |files| && Absolute(root, files[k]) == Normals(p)
  }

  ghost function Wanted(root: Path, files: seq<FilePath>): Reference -> bool {
    (r: Reference) => IsWanted(root, files, r.file)
  }

  function Filtered(keep: Reference -> bool, refs: seq<Reference>): seq<Reference> {
    if refs == [] then []
    else Filtered(keep, refs[..|refs| - 1]) + if keep(refs[|refs| - 1]) then [refs[|refs| - 1]] else []
  }

  // --- one index, one file -----------------------------------------------------------

  /** A path under `prefix` whose last component gets an extension. */
  function Spelled(prefix: Path, pieces: seq<string>, ext: string): Path
    requires pieces != []
  {
    prefix + pieces[..|pieces| - 1] + [pieces[|pieces| - 1] + "." + ext]
  }

  lemma SpelledTellsApart(prefix: Path, a: seq<string>, b: seq<string>, ext: string)
    requires a != [] && b != [] && Spelled(prefix, a, ext) == Spelled(prefix, b, ext)
    ensures a == b
  {
    var (p, q) := (Spelled(prefix, a, ext), Spelled(prefix, b, ext));
    assert |p| == |prefix| + |a| && |q| == |prefix| + |b|;
    var n := |a| - 1;
    assert p[|prefix|..][..n] == a[..n] && q[|prefix|..][..n] == b[..n];
    var (x, y) := (p[|p| - 1], q[|q| - 1]);
    assert x[..|x| - |ext| - 1] == a[n] && y[..|y| - |ext| - 1] == b[n];
    assert a == a[..n] + [a[n]] && b == b[..n] + [b[n]];
  }

  /** An invertible path, as the pieces of the module it spells. */
  function PiecesOf(parts: seq<Part>): seq<string>
    requires Invertible(parts)
  {
    Names(parts[..|parts| - 1]) + [Stem(parts[|parts| - 1].name)]
  }

  lemma PiecesSpell(root: Path, parts: seq<Part>)
    requires Invertible(parts)
    ensures root + Names(parts) == Spelled(root, PiecesOf(parts), "lean")
    ensures WithExtension(root + BUILD_LIB + Names(parts), "ilean") == Spelled(root + BUILD_LIB, PiecesOf(parts), "ilean")
  {
    var (dirs, last, pieces) := (Names(parts[..|parts| - 1]), parts[|parts| - 1].name, PiecesOf(parts));
    NoDots();
    ExtensionSplits(last, "lean");
    assert pieces[..|pieces| - 1] == dirs;
    assert Names(parts) == dirs + [last];
    var p := root + BUILD_LIB + Names(parts);
    assert p[..|p| - 1] == root + BUILD_LIB + dirs && p[|p| - 1] == last;
  }

  /** An index that is chosen is spelled by the same pieces as the file it is chosen for. */
  lemma ChosenSpelling(root: Path, tree: Tree, f: FilePath) returns (pieces: seq<string>)
    requires IndexFor(root, tree, f).Some?
    ensures pieces != []
    ensures Absolute(root, f) == Normals(Spelled(root, pieces, "lean"))
    ensures IndexFor(root, tree, f).value == Spelled(root + BUILD_LIB, pieces, "ilean")
  {
    var parts := Relative(root, f).value;
    pieces := PiecesOf(parts);
    PiecesSpell(root, parts);
    AbsoluteOfRelative(root, f);
  }

  lemma ModuleSpelling(root: Path, name: string)
    requires Components(name) != []
    ensures ModuleToSource(root, name) == Spelled(root, Components(name), "lean")
    ensures ModuleToIndex(root, name) == Spelled(root + BUILD_LIB, Components(name), "ilean")
  {
    var ps := Components(name);
    NonEmptyHasNoDots(Split(name));
    var (init, last) := (ps[..|ps| - 1], ps[|ps| - 1]);
    assert root + ps == root + init + [last] && root + BUILD_LIB + ps == root + BUILD_LIB + init + [last];
    NoDots();
    PlainWithExtension(root + init, last, "lean");
    PlainWithExtension(root + BUILD_LIB + init, last, "ilean");
  }

  lemma NamelessIndex(root: Path, name: string)
    ensures Components(name) == [] ==> |ModuleToIndex(root, name)| == |root + BUILD_LIB|
  {
  }

  /** The index chosen for a file is a given index exactly when that index's module lives in the file. */
  lemma ChosenExactly(root: Path, tree: Tree, f: FilePath, p: Path)
    requires NamesOk(root, [f]) && IndexFor(root, tree, f).Some?
    requires tree.docs(p).Some? && InPlace(root, tree, p)
    ensures IndexFor(root, tree, f).value == p
            <==> Absolute(root, f) == Normals(ModuleToSource(root, tree.docs(p).value.name))
  {
    assert [f][0] == f;
    var pieces := ChosenSpelling(root, tree, f);
    var name := tree.docs(p).value.name;
    NamelessIndex(root, name);
    ModuleSpelling(root, name);
    if IndexFor(root, tree, f).value == p {
      SpelledTellsApart(root + BUILD_LIB, pieces, Components(name), "ilean");
    }
    if Absolute(root, f) == Normals(ModuleToSource(root, name)) {
      NormalsTellApart(Spelled(root, pieces, "lean"), ModuleToSource(root, name));
      SpelledTellsApart(root, pieces, Components(name), "lean");
    }
  }

  lemma NormalsTellApart(p: Path, q: Path)
    requires Normals(p) == Normals(q)
    ensures p == q
  {
    assert |Normals(p)| == |p| && |Normals(q)| == |q|;
    forall i | 0 <= i < |p| ensures p[i] == q[i] {
      assert Normals(p)[i] == Normals(q)[i];
    }
  }

  // --- the whole scan ----------------------------------------------------------------

  ghost predicate OneByOne(choose: FilePath -> Option<Path>, files: seq<FilePath>, indices: seq<Path>) {
    |indices| == |files| && forall k :: 0 <= k < |files| ==> choose(files[k]) == Some(indices[k])
  }

  lemma {:induction false} ChosenOneByOne(choose: FilePath -> Option<Path>, files: seq<FilePath>)
    requires AllChosen(choose, files).Some?
    ensures OneByOne(choose, files, AllChosen(choose, files).value)
  {
    if files != [] {
      var init := files[..|files| - 1];
      ChosenOneByOne(choose, init);
      assert forall k :: 0 <= k < |init| ==> files[k] == init[k];
    }
  }

  /** The indices of the walk that are read when the scan is narrowed, in the order of the walk. */
  ghost function Picked(walk: seq<Path>, indices: seq<Path>): seq<Path> {
    if walk == [] then []
    else Picked(walk[..|walk| - 1], indices) + if walk[|walk| - 1] in indices then [walk[|walk| - 1]] else []
  }

  lemma {:induction false} PickedMembers(walk: seq<Path>, indices: seq<Path>)
    ensures forall p :: p in Picked(walk, indices) <==> p in walk && p in indices
    ensures NoDuplicates(walk) ==> NoDuplicates(Picked(walk, indices))
  {
    if walk != [] {
      var init := walk[..|walk| - 1];
      PickedMembers(init, indices);
      assert walk == init + [walk[|walk| - 1]];
      var picked := Picked(init, indices);
      if NoDuplicates(walk) {
        assert walk[|walk| - 1] !in init;
        assert forall i :: 0 <= i < |picked| ==> picked[i] in picked;
      }
    }
  }

  lemma NamesOkOne(root: Path, files: seq<FilePath>, k: nat)
    requires NamesOk(root, files) && k < |files|
    ensures NamesOk(root, [files[k]])
  {
    assert [files[k]][0] == files[k];
  }

  /** An index in place is read exactly when its module lives in a wanted file. */
  lemma ReadExactlyWanted(root: Path, tree: Tree, files: seq<FilePath>, p: Path)
    requires NamesOk(root, files) && IndicesFor(root, tree, files).Some?
    requires tree.docs(p).Some? && InPlace(root, tree, p)
    ensures p in IndicesFor(root, tree, files).value
            <==> IsWanted(root, files, ModuleToSource(root, tree.docs(p).value.name))
  {
    ChosenOneByOne(Chooser(root, tree), files);
    var indices := IndicesFor(root, tree, files).value;
    forall k | 0 <= k < |files|
      ensures indices[k] == p <==> Absolute(root, files[k]) == Normals(ModuleToSource(root, tree.docs(p).value.name))
    {
      NamesOkOne(root, files, k);
      ChosenExactly(root, tree, files[k], p);
    }
  }

  lemma {:induction false} FilteredAppend(keep: Reference -> bool, a: seq<Reference>, b: seq<Reference>)
    ensures Filtered(keep, a + b) == Filtered(keep, a) + Filtered(keep, b)
  {
    if b == [] {
      assert a + b == a;
    } else {
      FilteredAppend(keep, a, b[..|b| - 1]);
      assert (a + b)[..|a + b| - 1] == a + b[..|b| - 1];
    }
  }

  /** Hits that are kept or dropped together. */
  lemma {:induction false} FilteredTogether(keep: Reference -> bool, refs: seq<Reference>, all: bool)
    requires forall i :: 0 <= i < |refs| ==> keep(refs[i]) == all
    ensures Filtered(keep, refs) == if all then refs else []
  {
    if refs != [] {
      FilteredTogether(keep, refs[..|refs| - 1], all);
      assert refs == refs[..|refs| - 1] + [refs[|refs| - 1]];
    }
  }

  ghost predicate FilterPicks(keep: Reference -> bool, each: Path -> seq<Reference>, indices: seq<Path>,
                              walk: seq<Path>) {
    Filtered(keep, InTurn(each, walk)) == InTurn(each, Picked(walk, indices))
  }

  /** Filtering keeps all that one index contributes, or nothing, as the index is picked or not. */
  ghost predicate Selects(keep: Reference -> bool, each: Path -> seq<Reference>, indices: seq<Path>, p: Path) {
    Filtered(keep, each(p)) == if p in indices then each(p) else []
  }

  lemma PickStep(walk: seq<Path>, indices: seq<Path>, p: Path)
    ensures Picked(walk + [p], indices) == Picked(walk, indices) + if p in indices then [p] else []
  {
    assert (walk + [p])[..|walk|] == walk;
  }

  /** Filtering the hits of one more index is picking that index or not. */
  lemma FilterOne(root: Path, tree: Tree, files: seq<FilePath>, indices: seq<Path>, p: Path)
    requires tree.docs(p).Some? ==> (p in indices <==> IsWanted(root, files, ModuleToSource(root, tree.docs(p).value.name)))
    ensures Selects(Wanted(root, files), Contributions(root, tree), indices, p)
  {
    FilteredTogether(Wanted(root, files), Contribution(root, tree.docs(p)), p in indices);
  }

  lemma FilterPicksOneMore(keep: Reference -> bool, each: Path -> seq<Reference>, indices: seq<Path>, walk: seq<Path>,
                           p: Path)
    requires FilterPicks(keep, each, indices, walk)
    requires Selects(keep, each, indices, p)
    ensures FilterPicks(keep, each, indices, walk + [p])
  {
    InTurnSnoc(each, walk, p);
    FilteredAppend(keep, InTurn(each, walk), each(p));
    PickStep(walk, indices, p);
    if p in indices {
      InTurnSnoc(each, Picked(walk, indices), p);
    } else {
      assert Picked(walk + [p], indices) == Picked(walk, indices);
    }
  }

  /** A property of lists that holds of the empty list and survives one more element holds of every list. */
  lemma {:induction false} SnocInduction(q: seq<Path> -> bool, walk: seq<Path>)
    requires q([]) && forall w, p :: q(w) && p in walk ==> q(w + [p])
    ensures q(walk)
    decreases |walk|
  {
    if walk != [] {
      var (init, last) := (walk[..|walk| - 1], walk[|walk| - 1]);
      assert walk == init + [last];
      SnocInduction(q, init);
    }
  }

  /** Filtering the full scan is collecting from the picked indices. */
  lemma FilterIsPick(keep: Reference -> bool, each: Path -> seq<Reference>, indices: seq<Path>, walk: seq<Path>)
    requires forall p :: p in walk ==> Selects(keep, each, indices, p)
    ensures FilterPicks(keep, each, indices, walk)
  {
    var q := w => FilterPicks(keep, each, indices, w);
    NothingPicks(keep, each, indices);
    forall w, p | q(w) && p in walk ensures q(w + [p]) {
      FilterPicksOneMore(keep, each, indices, w, p);
    }
    SnocInduction(q, walk);
  }

  lemma NothingPicks(keep: Reference -> bool, each: Path -> seq<Reference>, indices: seq<Path>)
    ensures FilterPicks(keep, each, indices, [])
  {
  }

  lemma InTurnSnoc(each: Path -> seq<Reference>, indices: seq<Path>, p: Path)
    ensures InTurn(each, indices + [p]) == InTurn(each, indices) + each(p)
  {
    assert (indices + [p])[..|indices|] == indices;
  }

  lemma {:induction false} InTurnAppend(each: Path -> seq<Reference>, a: seq<Path>, b: seq<Path>)
    ensures InTurn(each, a + b) == InTurn(each, a) + InTurn(each, b)
    decreases |b|
  {
    if b == [] {
      assert a + b == a;
    } else {
      var (init, last) := (b[..|b| - 1], b[|b| - 1]);
      InTurnAppend(each, a, init);
      InTurnSnoc(each, a + init, last);
      assert a + b == a + init + [last];
    }
  }

  lemma InTurnWithout(each: Path -> seq<Reference>, a: seq<Path>, p: Path, b: seq<Path>)
    ensures multiset(InTurn(each, a + [p] + b)) == multiset(InTurn(each, a + b)) + multiset(each(p))
  {
    InTurnAppend(each, a + [p], b);
    InTurnAppend(each, a, b);
    InTurnSnoc(each, a, p);
  }

  lemma HasMember(b: seq<Path>)
    requires b != []
    ensures exists p :: p in b
  {
    assert b[0] in b;
  }

  ghost predicate SameSet(a: seq<Path>, b: seq<Path>) {
    (forall p :: p in a ==> p in b) && (forall p :: p in b ==> p in a)
  }

  /** Two listings of the same indices collect the same hits, each as often. */
  lemma {:induction false} OrderOfIndices(each: Path -> seq<Reference>, a: seq<Path>, b: seq<Path>)
    requires NoDuplicates(a) && NoDuplicates(b) && SameSet(a, b)
    ensures multiset(InTurn(each, a)) == multiset(InTurn(each, b))
    decreases |a|
  {
    if a == [] {
      if b != [] { HasMember(b); }
    } else {
      var (init, p) := (a[..|a| - 1], a[|a| - 1]);
      assert p in b;
      var j :| 0 <= j < |b| && b[j] == p;
      RestOf(b, j);
      InitOf(a);
      SameRest(a, b, j);
      OrderOfIndices(each, init, b[..j] + b[j + 1..]);
      OneMoreInOrder(each, init, p, b[..j], b[j + 1..]);
      assert a == init + [p] && b == b[..j] + [p] + b[j + 1..];
    }
  }

  lemma OneMoreInOrder(each: Path -> seq<Reference>, init: seq<Path>, p: Path, left: seq<Path>, right: seq<Path>)
    requires multiset(InTurn(each, init)) == multiset(InTurn(each, left + right))
    ensures multiset(InTurn(each, init + [p])) == multiset(InTurn(each, left + [p] + right))
  {
    InTurnWithout(each, left, p, right);
    InTurnSnoc(each, init, p);
  }

  lemma RestOf(b: seq<Path>, j: nat)
    requires j < |b| && NoDuplicates(b)
    ensures NoDuplicates(b[..j] + b[j + 1..])
    ensures forall p :: p in b[..j] + b[j + 1..] <==> p in b && p != b[j]
  {
    var rest := b[..j] + b[j + 1..];
    forall p | p in b && p != b[j] ensures p in rest {
      var k :| 0 <= k < |b| && b[k] == p;
      assert p == if k < j then rest[k] else rest[k - 1];
    }
    forall p | p in rest ensures p in b && p != b[j] {
      var k :| 0 <= k < |rest| && rest[k] == p;
      assert p == if k < j then b[k] else b[k + 1];
    }
  }

  lemma InitOf(a: seq<Path>)
    requires a != [] && NoDuplicates(a)
    ensures NoDuplicates(a[..|a| - 1])
    ensures forall p :: p in a[..|a| - 1] <==> p in a && p != a[|a| - 1]
  {
    assert a == a[..|a| - 1] + [a[|a| - 1]];
  }

  lemma SameRest(a: seq<Path>, b: seq<Path>, j: nat)
    requires a != [] && NoDuplicates(a) && NoDuplicates(b) && SameSet(a, b)
    requires j < |b| && b[j] == a[|a| - 1]
    ensures SameSet(a[..|a| - 1], b[..j] + b[j + 1..])
  {
    var (init, rest, last) := (a[..|a| - 1], b[..j] + b[j + 1..], b[j]);
    RestOf(b, j);
    InitOf(a);
    assert forall p :: p in init <==> p in a && p != last;
    assert forall p :: p in rest <==> p in b && p != last;
    forall p | p in init ensures p in rest { assert p in a; }
    forall p | p in rest ensures p in init { assert p in b; }
  }

  /** Two files have one index exactly when they are one file. */
  lemma OneIndexOneFile(root: Path, tree: Tree, f: FilePath, g: FilePath)
    requires IndexFor(root, tree, f).Some? && IndexFor(root, tree, g).Some?
    ensures IndexFor(root, tree, f) == IndexFor(root, tree, g) <==> Absolute(root, f) == Absolute(root, g)
  {
    var a := ChosenSpelling(root, tree, f);
    var b := ChosenSpelling(root, tree, g);
    if IndexFor(root, tree, f) == IndexFor(root, tree, g) {
      SpelledTellsApart(root + BUILD_LIB, a, b, "ilean");
    }
  }

  /** The first time each index is listed. */
  function Once(indices: seq<Path>): seq<Path> {
    if indices == [] then []
    else
      var (init, last) := (indices[..|indices| - 1], indices[|indices| - 1]);
      Once(init) + if last in init then [] else [last]
  }

  /** Every later time. */
  function Again(indices: seq<Path>): seq<Path> {
    if indices == [] then []
    else
      var (init, last) := (indices[..|indices| - 1], indices[|indices| - 1]);
      Again(init) + if last in init then [last] else []
  }

  lemma {:induction false} OnceMembers(indices: seq<Path>)
    ensures NoDuplicates(Once(indices)) && SameSet(indices, Once(indices))
  {
    if indices != [] {
      var (init, last) := (indices[..|indices| - 1], indices[|indices| - 1]);
      OnceMembers(init);
      assert indices == init + [last];
    }
  }

  /** Hits that are added to a whole and to one of its two parts. */
  lemma AddedAlike(whole: seq<Reference>, left: seq<Reference>, right: seq<Reference>, more: seq<Reference>)
    requires multiset(whole) == multiset(left) + multiset(right)
    ensures multiset(whole + more) == multiset(left + more) + multiset(right)
    ensures multiset(whole + more) == multiset(left) + multiset(right + more)
  {
  }

  lemma {:induction false} OnceAndAgain(each: Path -> seq<Reference>, indices: seq<Path>)
    ensures multiset(InTurn(each, indices)) == multiset(InTurn(each, Once(indices))) + multiset(InTurn(each, Again(indices)))
  {
    if indices != [] {
      var (init, last) := (indices[..|indices| - 1], indices[|indices| - 1]);
      OnceAndAgain(each, init);
      AddedAlike(InTurn(each, init), InTurn(each, Once(init)), InTurn(each, Again(init)), each(last));
      if last in init {
        InTurnSnoc(each, Again(init), last);
        assert Once(indices) == Once(init);
      } else {
        InTurnSnoc(each, Once(init), last);
        assert Again(indices) == Again(init);
      }
    }
  }

  /** No index that is listed again contributes anything. */
  ghost predicate AgainEmpty(each: Path -> seq<Reference>, indices: seq<Path>) {
    forall i, j :: 0 <= i < j < |indices| && indices[i] == indices[j] ==> each(indices[j]) == []
  }

  lemma {:induction false} AgainGivesNothing(each: Path -> seq<Reference>, indices: seq<Path>)
    ensures InTurn(each, Again(indices)) == [] <==> AgainEmpty(each, indices)
  {
    if indices != [] {
      var (init, last) := (indices[..|indices| - 1], indices[|indices| - 1]);
      AgainGivesNothing(each, init);
      InTurnSnoc(each, Again(init), last);
      AgainEmptySnoc(each, init, last);
      assert indices == init + [last] && Again(init) + [] == Again(init);
    }
  }

  lemma AgainEmptySnoc(each: Path -> seq<Reference>, init: seq<Path>, last: Path)
    ensures AgainEmpty(each, init + [last]) <==> AgainEmpty(each, init) && (last in init ==> each(last) == [])
  {
    var all := init + [last];
    if AgainEmpty(each, all) {
      forall i, j | 0 <= i < j < |init| && init[i] == init[j] ensures each(init[j]) == [] {
        assert all[i] == init[i] && all[j] == init[j];
      }
      if last in init {
        var i :| 0 <= i < |init| && init[i] == last;
        assert all[i] == all[|init|];
      }
    }
  }

  // --- narrowed against filtered, whatever the tree ----------------------------------

  function Where(ps: seq<Path>, q: Path -> bool): seq<Path> {
    if ps == [] then []
    else Where(ps[..|ps| - 1], q) + if q(ps[|ps| - 1]) then [ps[|ps| - 1]] else []
  }

  function Not(q: Path -> bool): Path -> bool {
    p => !q(p)
  }

  function In(ps: seq<Path>): Path -> bool {
    p => p in ps
  }

  lemma {:induction false} WhereMembers(ps: seq<Path>, q: Path -> bool)
    ensures forall p :: p in Where(ps, q) <==> p in ps && q(p)
    ensures NoDuplicates(ps) ==> NoDuplicates(Where(ps, q))
  {
    if ps != [] {
      var (init, last) := (ps[..|ps| - 1], ps[|ps| - 1]);
      WhereMembers(init, q);
      assert ps == init + [last];
      var chosen := Where(init, q);
      if NoDuplicates(ps) {
        assert last !in init;
        assert forall i :: 0 <= i < |chosen| ==> chosen[i] in chosen;
      }
    }
  }

  lemma {:induction false} WhereSplits(each: Path -> seq<Reference>, ps: seq<Path>, q: Path -> bool)
    ensures multiset(InTurn(each, ps)) == multiset(InTurn(each, Where(ps, q))) + multiset(InTurn(each, Where(ps, Not(q))))
  {
    if ps != [] {
      var (init, last) := (ps[..|ps| - 1], ps[|ps| - 1]);
      WhereSplits(each, init, q);
      AddedAlike(InTurn(each, init), InTurn(each, Where(init, q)), InTurn(each, Where(init, Not(q))), each(last));
      if q(last) {
        InTurnSnoc(each, Where(init, q), last);
        assert Where(ps, Not(q)) == Where(init, Not(q));
      } else {
        InTurnSnoc(each, Where(init, Not(q)), last);
        assert Where(ps, q) == Where(init, q);
      }
    }
  }

  ghost predicate AllAre(refs: seq<Reference>, keep: Reference -> bool, kept: bool) {
    forall i :: 0 <= i < |refs| ==> keep(refs[i]) == kept
  }

  lemma {:induction false} InTurnAllAre(each: Path -> seq<Reference>, ps: seq<Path>, keep: Reference -> bool, kept: bool)
    requires forall p :: p in ps ==> AllAre(each(p), keep, kept)
    ensures AllAre(InTurn(each, ps), keep, kept)
  {
    if ps != [] {
      var (init, last) := (ps[..|ps| - 1], ps[|ps| - 1]);
      assert ps == init + [last];
      InTurnAllAre(each, init, keep, kept);
    }
  }

  lemma {:induction false} InTurnNothing(each: Path -> seq<Reference>, ps: seq<Path>)
    ensures InTurn(each, ps) == [] <==> forall p :: p in ps ==> each(p) == []
  {
    if ps != [] {
      var (init, last) := (ps[..|ps| - 1], ps[|ps| - 1]);
      assert ps == init + [last] && last in ps;
      InTurnNothing(each, init);
    }
  }

  /** Dropped hits cannot make up for kept ones. */
  lemma DroppedAreNone(dropped: seq<Reference>, more: seq<Reference>, kept: seq<Reference>, keep: Reference -> bool)
    requires AllAre(dropped, keep, false) && AllAre(kept, keep, true)
    ensures multiset(dropped) + multiset(more) == multiset(kept) <==> dropped == [] && multiset(more) == multiset(kept)
  {
    forall x | x in multiset(kept) ensures keep(x) {
      assert x in kept;
    }
    assert dropped != [] ==> !keep(dropped[0]) && dropped[0] in multiset(dropped) + multiset(more);
    assert multiset(dropped) + multiset(more) == multiset(kept) ==> dropped == [];
    assert multiset([]) + multiset(more) == multiset(more);
  }

  /** The index records a module whose source is wanted. */
  ghost function Wants(root: Path, tree: Tree, files: seq<FilePath>): Path -> bool {
    p => tree.docs(p).Some? && IsWanted(root, files, ModuleToSource(root, tree.docs(p).value.name))
  }

  /** The indices of the walk whose modules are wanted and that a narrowed scan does not read. */
  ghost function Missed(root: Path, tree: Tree, files: seq<FilePath>, indices: seq<Path>): seq<Path> {
    Where(Where(tree.walk, Wants(root, tree, files)), Not(In(indices)))
  }

  lemma WantsDecides(root: Path, tree: Tree, files: seq<FilePath>, p: Path)
    ensures AllAre(Contributions(root, tree)(p), Wanted(root, files), Wants(root, tree, files)(p))
  {
    var refs := Contribution(root, tree.docs(p));
    forall i | 0 <= i < |refs| ensures Wanted(root, files)(refs[i]) == Wants(root, tree, files)(p) {
      assert refs[i].file == ModuleToSource(root, tree.docs(p).value.name);
    }
  }

  /** The filtered full scan collects from the indices whose modules are wanted. */
  lemma FilteredIsWanted(root: Path, tree: Tree, files: seq<FilePath>)
    requires NoDuplicates(tree.walk)
    ensures multiset(Filtered(Wanted(root, files), Collected(root, tree, tree.walk)))
            == multiset(InTurn(Contributions(root, tree), Where(tree.walk, Wants(root, tree, files))))
  {
    var wanted := Where(tree.walk, Wants(root, tree, files));
    WhereMembers(tree.walk, Wants(root, tree, files));
    forall p | p in tree.walk ensures Selects(Wanted(root, files), Contributions(root, tree), wanted, p) {
      FilterOne(root, tree, files, wanted, p);
    }
    FilterIsPick(Wanted(root, files), Contributions(root, tree), wanted, tree.walk);
    PickedMembers(tree.walk, wanted);
    OrderOfIndices(Contributions(root, tree), Picked(tree.walk, wanted), wanted);
  }

  /** What two listings have in common cancels out. */
  lemma CommonCancels(once: multiset<Reference>, again: multiset<Reference>, wanted: multiset<Reference>,
                      common: multiset<Reference>, strange: multiset<Reference>, missed: multiset<Reference>)
    requires once == common + strange && wanted == common + missed
    ensures once + again == wanted <==> strange + again == missed
  {
    if once + again == wanted {
      assert (common + (strange + again)) - common == strange + again;
      assert (common + missed) - common == missed;
    }
  }

  /** What is listed in both, collected alike. */
  lemma CommonAlike(each: Path -> seq<Reference>, once: seq<Path>, wanted: seq<Path>, indices: seq<Path>)
    requires NoDuplicates(once) && NoDuplicates(wanted) && SameSet(indices, once)
    ensures multiset(InTurn(each, Where(once, In(wanted)))) == multiset(InTurn(each, Where(wanted, In(indices))))
  {
    WhereMembers(once, In(wanted));
    WhereMembers(wanted, In(indices));
    OrderOfIndices(each, Where(once, In(wanted)), Where(wanted, In(indices)));
  }

  /** What the indices outside the wanted ones collect is dropped, and nothing exactly when none of them has hits. */
  lemma StrangersDropped(each: Path -> seq<Reference>, keep: Reference -> bool, once: seq<Path>, wanted: seq<Path>,
                         indices: seq<Path>)
    requires SameSet(indices, once)
    requires forall p :: p in indices && p !in wanted ==> AllAre(each(p), keep, false)
    ensures AllAre(InTurn(each, Where(once, Not(In(wanted)))), keep, false)
    ensures InTurn(each, Where(once, Not(In(wanted)))) == [] <==> forall p :: p in indices && p !in wanted ==> each(p) == []
  {
    WhereMembers(once, Not(In(wanted)));
    InTurnAllAre(each, Where(once, Not(In(wanted))), keep, false);
    InTurnNothing(each, Where(once, Not(In(wanted))));
  }

  /** Two listings, one with repeats, compared by what stands in only one of them. */
  lemma ComparedByRest(each: Path -> seq<Reference>, keep: Reference -> bool, indices: seq<Path>, wanted: seq<Path>)
    requires NoDuplicates(wanted)
    requires forall p :: p in wanted ==> AllAre(each(p), keep, true)
    requires forall p :: p in indices && p !in wanted ==> AllAre(each(p), keep, false)
    ensures multiset(InTurn(each, indices)) == multiset(InTurn(each, wanted)) <==>
            && (forall p :: p in indices && p !in wanted ==> each(p) == [])
            && multiset(InTurn(each, Again(indices))) == multiset(InTurn(each, Where(wanted, Not(In(indices)))))
  {
    var once := Once(indices);
    OnceMembers(indices);
    OnceAndAgain(each, indices);
    WhereSplits(each, once, In(wanted));
    WhereSplits(each, wanted, In(indices));
    CommonAlike(each, once, wanted, indices);
    var strange, missed := InTurn(each, Where(once, Not(In(wanted)))), InTurn(each, Where(wanted, Not(In(indices))));
    CommonCancels(multiset(InTurn(each, once)), multiset(InTurn(each, Again(indices))), multiset(InTurn(each, wanted)),
                  multiset(InTurn(each, Where(once, In(wanted)))), multiset(strange), multiset(missed));
    StrangersDropped(each, keep, once, wanted, indices);
    WhereMembers(wanted, Not(In(indices)));
    InTurnAllAre(each, Where(wanted, Not(In(indices))), keep, true);
    DroppedAreNone(strange, InTurn(each, Again(indices)), missed, keep);
  }

  /** Every index that is read and has hits records a wanted module. */
  ghost predicate NoStrangers(root: Path, tree: Tree, files: seq<FilePath>, indices: seq<Path>) {
    forall p :: p in indices && HasHits(root, tree, p) ==> Wants(root, tree, files)(p)
  }

  /**
   Whatever modules the indices record: a query for some files collects, hit for
   hit, what the full walk collects once it is filtered to those files, exactly
   when no index read has hits from elsewhere and the hits of files named again
   are those of the wanted indices that were missed.
   */
  lemma NarrowedInGeneral(root: Path, tree: Tree, files: seq<FilePath>, indices: seq<Path>)
    requires NoDuplicates(tree.walk) && IndicesFor(root, tree, files) == Some(indices)
    ensures multiset(Collected(root, tree, indices))
            == multiset(Filtered(Wanted(root, files), Collected(root, tree, tree.walk)))
            <==>
            && NoStrangers(root, tree, files, indices)
            && multiset(Collected(root, tree, Again(indices))) == multiset(Collected(root, tree, Missed(root, tree, files, indices)))
  {
    var (each, wants) := (Contributions(root, tree), Wants(root, tree, files));
    var wanted := Where(tree.walk, wants);
    ChosenOneByOne(Chooser(root, tree), files);
    assert forall p :: p in indices ==> p in tree.walk;
    FilteredIsWanted(root, tree, files);
    WhereMembers(tree.walk, wants);
    forall p ensures AllAre(each(p), Wanted(root, files), wants(p)) {
      WantsDecides(root, tree, files, p);
    }
    ComparedByRest(each, Wanted(root, files), indices, wanted);
  }

  /** Every file that is asked for twice has an index with no hits. */
  ghost predicate AskedAgainEmpty(root: Path, tree: Tree, files: seq<FilePath>, indices: seq<Path>)
    requires |indices| == |files|
  {
    forall i, j :: 0 <= i < j < |files| && Absolute(root, files[i]) == Absolute(root, files[j]) ==>
      Contribution(root, tree.docs(indices[j])) == []
  }

  lemma AskedAgain(root: Path, tree: Tree, files: seq<FilePath>, indices: seq<Path>)
    requires OneByOne(Chooser(root, tree), files, indices)
    ensures AgainEmpty(Contributions(root, tree), indices) <==> AskedAgainEmpty(root, tree, files, indices)
  {
    forall i, j | 0 <= i < j < |files|
      ensures indices[i] == indices[j] <==> Absolute(root, files[i]) == Absolute(root, files[j])
    {
      OneIndexOneFile(root, tree, files[i], files[j]);
    }
  }

  lemma IndicesLine(root: Path, tree: Tree, files: seq<FilePath>)
    requires IndicesFor(root, tree, files).Some?
    ensures OneByOne(Chooser(root, tree), files, IndicesFor(root, tree, files).value)
    ensures |IndicesFor(root, tree, files).value| == |files|
  {
    ChosenOneByOne(Chooser(root, tree), files);
  }

  /** An index with hits is read exactly when its module is wanted. */
  ghost predicate RightlyRead(root: Path, tree: Tree, files: seq<FilePath>, indices: seq<Path>, p: Path) {
    HasHits(root, tree, p) ==> (p in indices <==> Wants(root, tree, files)(p))
  }

  ghost predicate AllRightlyRead(root: Path, tree: Tree, files: seq<FilePath>, indices: seq<Path>) {
    forall p :: p in tree.walk ==> RightlyRead(root, tree, files, indices, p)
  }

  /** Where nothing with hits is missed, nothing missed has hits. */
  lemma MissedHaveNone(root: Path, tree: Tree, files: seq<FilePath>, indices: seq<Path>)
    requires forall p :: p in indices ==> p in tree.walk
    ensures AllRightlyRead(root, tree, files, indices) <==>
            NoStrangers(root, tree, files, indices) && Collected(root, tree, Missed(root, tree, files, indices)) == []
  {
    var wants := Wants(root, tree, files);
    WhereMembers(tree.walk, wants);
    WhereMembers(Where(tree.walk, wants), Not(In(indices)));
    InTurnNothing(Contributions(root, tree), Missed(root, tree, files, indices));
    if NoStrangers(root, tree, files, indices) && Collected(root, tree, Missed(root, tree, files, indices)) == [] {
      forall p | p in tree.walk ensures RightlyRead(root, tree, files, indices, p) {
        assert Contributions(root, tree)(p) == Contribution(root, tree.docs(p));
      }
    }
    if AllRightlyRead(root, tree, files, indices) {
      forall p | p in Missed(root, tree, files, indices) ensures Contributions(root, tree)(p) == [] {
        assert RightlyRead(root, tree, files, indices, p);
      }
    }
  }

  /** For files that all differ the two agree exactly when every index with hits is read as it should be. */
  lemma NarrowedOfDifferent(root: Path, tree: Tree, files: seq<FilePath>, indices: seq<Path>)
    requires NoDuplicates(tree.walk) && IndicesFor(root, tree, files) == Some(indices) && FilesDiffer(root, files)
    ensures multiset(Collected(root, tree, indices))
            == multiset(Filtered(Wanted(root, files), Collected(root, tree, tree.walk)))
            <==> AllRightlyRead(root, tree, files, indices)
  {
    IndicesLine(root, tree, files);
    assert forall p :: p in indices ==> p in tree.walk;
    NarrowedInGeneral(root, tree, files, indices);
    AskedAgain(root, tree, files, indices);
    AgainGivesNothing(Contributions(root, tree), indices);
    MissedHaveNone(root, tree, files, indices);
    assert multiset(Collected(root, tree, Missed(root, tree, files, indices))) == multiset{} <==>
           Collected(root, tree, Missed(root, tree, files, indices)) == [] by {
      MultisetOfNone(Collected(root, tree, Missed(root, tree, files, indices)));
    }
  }

  lemma MultisetOfNone(refs: seq<Reference>)
    ensures multiset(refs) == multiset{} <==> refs == []
  {
    if refs != [] { assert refs[0] in multiset(refs); }
  }

  /**
   Where every index with hits is read as it should be, the two agree exactly
   when every file named more than once has no hits: an index is read again for
   each time its file is named.
   */
  lemma NarrowedExactly(root: Path, tree: Tree, files: seq<FilePath>, indices: seq<Path>)
    requires NoDuplicates(tree.walk) && IndicesFor(root, tree, files) == Some(indices) && |indices| == |files|
    requires AllRightlyRead(root, tree, files, indices)
    ensures multiset(Collected(root, tree, indices))
            == multiset(Filtered(Wanted(root, files), Collected(root, tree, tree.walk)))
            <==> AskedAgainEmpty(root, tree, files, indices)
  {
    IndicesLine(root, tree, files);
    assert forall p :: p in indices ==> p in tree.walk;
    NarrowedInGeneral(root, tree, files, indices);
    MissedHaveNone(root, tree, files, indices);
    AgainGivesNothing(Contributions(root, tree), indices);
    AskedAgain(root, tree, files, indices);
    MultisetOfNone(Collected(root, tree, Again(indices)));
  }

  /** Indices in place are rightly read. */
  lemma InPlaceRightlyRead(root: Path, tree: Tree, files: seq<FilePath>, indices: seq<Path>)
    requires TreeOk(root, tree) && NamesOk(root, files) && IndicesFor(root, tree, files) == Some(indices)
    ensures AllRightlyRead(root, tree, files, indices)
  {
    forall p | p in tree.walk ensures RightlyRead(root, tree, files, indices, p) {
      if HasHits(root, tree, p) { ReadExactlyWanted(root, tree, files, p); }
    }
  }

  /** So narrowing never loses or invents a hit for files that all differ, when whatever has hits is in place. */
  lemma NarrowedIsFiltered(root: Path, tree: Tree, files: seq<FilePath>)
    requires TreeOk(root, tree) && NamesOk(root, files) && FilesDiffer(root, files) && IndicesFor(root, tree, files).Some?
    ensures multiset(Collected(root, tree, IndicesFor(root, tree, files).value))
         == multiset(Filtered(Wanted(root, files), Collected(root, tree, tree.walk)))
  {
    var indices := IndicesFor(root, tree, files).value;
    InPlaceRightlyRead(root, tree, files, indices);
    NarrowedOfDifferent(root, tree, files, indices);
  }

  /** When one file cannot be turned into an index, every index is read. */
  lemma OneUninvertibleReadsAll(root: Path, tree: Tree, files: seq<FilePath>, i: nat)
    requires i < |files| && IndexFor(root, tree, files[i]).None?
    ensures IndicesRead(root, tree, Some(files)) == tree.walk
  {
    OneFailsAll(Chooser(root, tree), files, i);
  }

  /** The index chosen for a file is that of the one well-named module whose source the file is. */
  lemma ChosenModuleIsUnique(root: Path, tree: Tree, f: FilePath) returns (name: string)
    requires IndexFor(root, tree, f).Some? && NamesOk(root, [f])
    ensures WellNamed(name) && Normals(ModuleToSource(root, name)) == Absolute(root, f)
    ensures ModuleToIndex(root, name) == IndexFor(root, tree, f).value
    ensures forall other :: WellNamed(other) && ModuleToSource(root, other) == ModuleToSource(root, name) ==> other == name
  {
    name := ChosenModule(root, tree, f);
    forall other | WellNamed(other) && ModuleToSource(root, other) == ModuleToSource(root, name) ensures other == name {
      SourceTellsApart(root, other, name);
    }
  }

  /** The module an invertible path spells. */
  function ModuleOf(parts: seq<Part>): string
    requires Invertible(parts)
  {
    Join(PiecesOf(parts))
  }

  /** It is mapped back to that path, and to the index chosen for it. */
  lemma PathSpellsModule(root: Path, parts: seq<Part>)
    requires Invertible(parts) && forall i :: 0 <= i < |parts| ==> parts[i].name != ""
    ensures WellNamed(ModuleOf(parts))
    ensures ModuleToSource(root, ModuleOf(parts)) == root + Names(parts)
    ensures ModuleToIndex(root, ModuleOf(parts)) == WithExtension(root + BUILD_LIB + Names(parts), "ilean")
  {
    var pieces := PiecesOf(parts);
    NoDots();
    ExtensionSplits(parts[|parts| - 1].name, "lean");
    forall i | 0 <= i < |pieces| ensures !HasDot(pieces[i]) && pieces[i] != "" {
      if i < |parts| - 1 { assert pieces[i] == parts[i].name; }
    }
    SplitJoin(pieces);
    NonEmptyKeepsAll(pieces);
    ModuleSpelling(root, ModuleOf(parts));
    PiecesSpell(root, parts);
  }

  lemma ChosenModule(root: Path, tree: Tree, f: FilePath) returns (name: string)
    requires IndexFor(root, tree, f).Some? && NamesOk(root, [f])
    ensures WellNamed(name) && Normals(ModuleToSource(root, name)) == Absolute(root, f)
    ensures ModuleToIndex(root, name) == IndexFor(root, tree, f).value
  {
    assert [f][0] == f;
    var parts := Relative(root, f).value;
    PartsAreNamed(root, f);
    name := ModuleOf(parts);
    PathSpellsModule(root, parts);
    AbsoluteOfRelative(root, f);
  }

  lemma PartsAreNamed(root: Path, f: FilePath)
    requires NamesOk(root, [f]) && Relative(root, f).Some?
    ensures forall i :: 0 <= i < |Relative(root, f).value| && Relative(root, f).value[i].Normal? ==>
              Relative(root, f).value[i].name != ""
  {
    assert [f][0] == f;
    var (parts, a) := (Relative(root, f).value, Absolute(root, f));
    forall i | 0 <= i < |parts| && parts[i].Normal? ensures parts[i].name != "" {
      assert parts[i] == a[|root| + i];
      if f.absolute { assert parts[i] == f.parts[|root| + i]; } else { assert parts[i] == f.parts[i]; }
    }
  }

  lemma AbsoluteOfRelative(root: Path, f: FilePath)
    requires Relative(root, f).Some? && forall i :: 0 <= i < |Relative(root, f).value| ==> Relative(root, f).value[i].Normal?
    ensures Absolute(root, f) == Normals(root + Names(Relative(root, f).value))
  {
    var parts := Relative(root, f).value;
    assert Absolute(root, f) == Absolute(root, f)[..|root|] + parts;
    assert Normals(root + Names(parts)) == Normals(root) + parts;
  }

  lemma SourceTellsApart(root: Path, a: string, b: string)
    requires WellNamed(a) && WellNamed(b) && ModuleToSource(root, a) == ModuleToSource(root, b)
    ensures a == b
  {
    NonEmptyKeepsAll(Split(a));
    NonEmptyKeepsAll(Split(b));
    ModuleSpelling(root, a);
    ModuleSpelling(root, b);
    SpelledTellsApart(root, Split(a), Split(b), "lean");
    JoinSplit(a);
    JoinSplit(b);
  }

  /** Two module names have one source exactly when they differ in empty pieces alone, whatever the names and the root. */
  lemma SourceSameExactly(root: Path, a: string, b: string)
    ensures ModuleToSource(root, a) == ModuleToSource(root, b) <==> NonEmpty(Split(a)) == NonEmpty(Split(b))
  {
    if Components(a) != [] { ModuleSpelling(root, a); }
    if Components(b) != [] { ModuleSpelling(root, b); }
    if Components(a) != [] && Components(b) != [] && ModuleToSource(root, a) == ModuleToSource(root, b) {
      SpelledTellsApart(root, Components(a), Components(b), "lean");
    }
  }

  /** So a name with an empty piece shares its source with the well-formed name that lacks it. */
  lemma EmptyPiecesVanish(root: Path, name: string)
    requires !WellNamed(name) && Components(name) != []
    ensures var other := Join(Components(name));
            WellNamed(other) && other != name && ModuleToSource(root, other) == ModuleToSource(root, name)
  {
    var other := Join(Components(name));
    NonEmptyHasNoDots(Split(name));
    SplitJoin(Components(name));
    NonEmptyKeepsAll(Components(name));
    SourceSameExactly(root, other, name);
  }
}
