/**
 A project-wide reference query: which indices are read, and what is collected
 from them. Reading only the indices of the requested files is proved to lose
 and add nothing over reading the whole build tree and filtering.
 */
module IleanScan {
  import opened Wrappers
  import opened IleanDoc
  import opened ModulePaths

  /** A component of a path a caller names. */
  datatype Part = Normal(name: string) | ParentDir

  datatype FilePath = FilePath(absolute: bool, parts: seq<Part>)

  function Normals(p: Path): seq<Part> {
    seq(|p|, i requires 0 <= i < |p| => Normal(p[i]))
  }

  function Absolute(root: Path, f: FilePath): seq<Part> {
    if f.absolute then f.parts else Normals(root) + f.parts
  }

  /** What follows the project root, when the file is under it. */
  function Relative(root: Path, f: FilePath): Option<seq<Part>> {
    var a := Absolute(root, f);
    if |a| >= |root| && a[..|root|] == Normals(root) then Some(a[|root|..]) else None
  }

  /** A Lean source whose path spells a module: no dot but the one before `lean`. */
  predicate Invertible(parts: seq<Part>) {
    && parts != []
    && (forall i :: 0 <= i < |parts| ==> parts[i].Normal?)
    && (forall i :: 0 <= i < |parts| - 1 ==> !HasDot(parts[i].name))
    && Extension(parts[|parts| - 1].name) == Some("lean") && !HasDot(Stem(parts[|parts| - 1].name))
  }

  function Names(parts: seq<Part>): seq<string>
    requires forall i :: 0 <= i < |parts| ==> parts[i].Normal?
  {
    seq(|parts|, i requires 0 <= i < |parts| => parts[i].name)
  }

  /** A build tree: the index files a walk meets, in its order, and what loading each gives. */
  datatype Tree = Tree(walk: seq<Path>, docs: Path -> Option<ModuleReferences>)

  function IndexFor(root: Path, tree: Tree, f: FilePath): Option<Path> {
    match Relative(root, f)
    case None => None
    case Some(parts) =>
      if !Invertible(parts) then None
      else
        var index := WithExtension(root + BUILD_LIB + Names(parts), "ilean");
        if index in tree.walk then Some(index) else None
  }

  function Chooser(root: Path, tree: Tree): FilePath -> Option<Path> {
    f => IndexFor(root, tree, f)
  }

  /** All the choices, or none when one of them fails. */
  function AllChosen(choose: FilePath -> Option<Path>, files: seq<FilePath>): Option<seq<Path>> {
    if files == [] then Some([])
    else
      var (init, last) := (AllChosen(choose, files[..|files| - 1]), choose(files[|files| - 1]));
      if init.None? || last.None? then None else Some(init.value + [last.value])
  }

  function IndicesFor(root: Path, tree: Tree, files: seq<FilePath>): Option<seq<Path>> {
    AllChosen(Chooser(root, tree), files)
  }

  datatype Reference = Reference(file: Path, kind: RefKind, location: Location)

  /** What one index contributes: its hits, placed in the source of the module it records. */
  function Contribution(root: Path, doc: Option<ModuleReferences>): seq<Reference> {
    if doc.None? then []
    else
      var file := ModuleToSource(root, doc.value.name);
      seq(|doc.value.hits|, i requires 0 <= i < |doc.value.hits| =>
        Reference(file, doc.value.hits[i].kind, doc.value.hits[i].location))
  }

  /** What each index of a tree contributes. */
  function Contributions(root: Path, tree: Tree): Path -> seq<Reference> {
    p => Contribution(root, tree.docs(p))
  }

  /** What a list of indices contributes, one after the other. */
  function InTurn(each: Path -> seq<Reference>, indices: seq<Path>): seq<Reference> {
    if indices == [] then [] else InTurn(each, indices[..|indices| - 1]) + each(indices[|indices| - 1])
  }

  function Collected(root: Path, tree: Tree, indices: seq<Path>): seq<Reference> {
    InTurn(Contributions(root, tree), indices)
  }

  function Scanned(tree: Tree, indices: seq<Path>): nat {
    if indices == [] then 0
    else Scanned(tree, indices[..|indices| - 1]) + if tree.docs(indices[|indices| - 1]).Some? then 1 else 0
  }

  class ReferenceScan {
    var references: seq<Reference>
    var modulesScanned: nat
    var modulesSkipped: nat
    var contributing: seq<(Path, Path)>

    constructor ()
      ensures references == [] && modulesScanned == 0 && modulesSkipped == 0 && contributing == []
    {
      references, modulesScanned, modulesSkipped, contributing := [], 0, 0, [];
    }

    method Visit(root: Path, index: Path, doc: Option<ModuleReferences>)
      modifies this
      ensures references == old(references) + Contribution(root, doc)
      ensures modulesScanned == old(modulesScanned) + if doc.Some? then 1 else 0
      ensures modulesSkipped == old(modulesSkipped) + if doc.None? then 1 else 0
      ensures contributing == old(contributing)
                + if Contribution(root, doc) == [] then [] else [(ModuleToSource(root, doc.value.name), index)]
    {
      if doc.None? {
        modulesSkipped := modulesSkipped + 1;
        return;
      }
      modulesScanned := modulesScanned + 1;
      var hits := doc.value.hits;
      if hits == [] {
        return;
      }
      var source := ModuleToSource(root, doc.value.name);
      for i := 0 to |hits|
        invariant references == old(references) + Contribution(root, doc)[..i]
        invariant modulesScanned == old(modulesScanned) + 1 && modulesSkipped == old(modulesSkipped)
        invariant contributing == old(contributing)
      {
        references := references + [Reference(source, hits[i].kind, hits[i].location)];
      }
      assert Contribution(root, doc)[..|hits|] == Contribution(root, doc);
      contributing := contributing + [(source, index)];
    }

    method VisitAll(root: Path, tree: Tree, indices: seq<Path>)
      modifies this
      ensures references == old(references) + Collected(root, tree, indices)
      ensures modulesScanned == old(modulesScanned) + Scanned(tree, indices)
      ensures modulesScanned + modulesSkipped == old(modulesScanned) + old(modulesSkipped) + |indices|
    {
      for i := 0 to |indices|
        invariant references == old(references) + Collected(root, tree, indices[..i])
        invariant modulesScanned == old(modulesScanned) + Scanned(tree, indices[..i])
        invariant modulesScanned + modulesSkipped == old(modulesScanned) + old(modulesSkipped) + i
      {
        assert indices[..i + 1][..i] == indices[..i];
        Visit(root, indices[i], tree.docs(indices[i]));
      }
      assert indices[..|indices|] == indices;
    }
  }

  /** The paths of the wanted indices, collected file by file until one cannot be inverted. */
  method CollectIndices(root: Path, tree: Tree, files: seq<FilePath>) returns (indices: Option<seq<Path>>)
    ensures indices == IndicesFor(root, tree, files)
  {
    var found := [];
    for i := 0 to |files|
      invariant IndicesFor(root, tree, files[..i]) == Some(found)
    {
      assert files[..i + 1][..i] == files[..i];
      var index := IndexFor(root, tree, files[i]);
      if index.None? {
        OneFailsAll(Chooser(root, tree), files, i);
        return None;
      }
      found := found + [index.value];
    }
    assert files[..|files|] == files;
    indices := Some(found);
  }

  lemma {:induction false} OneFailsAll(choose: FilePath -> Option<Path>, files: seq<FilePath>, i: nat)
    requires i < |files| && choose(files[i]).None?
    ensures AllChosen(choose, files).None?
  {
    if i < |files| - 1 {
      OneFailsAll(choose, files[..|files| - 1], i);
    }
  }

  datatype ReferenceIndex = NotBuilt | Present(references: seq<Reference>, modulesScanned: nat, modulesSkipped: nat)

  /** The indices a query reads: those of the wanted files when every one can be inverted, the whole tree otherwise. */
  function IndicesRead(root: Path, tree: Tree, files: Option<seq<FilePath>>): seq<Path> {
    if files.Some? && IndicesFor(root, tree, files.value).Some? then IndicesFor(root, tree, files.value).value
    else tree.walk
  }

  /** The query; `tree` is `None` when the project was never built. */
  method ReferencesTo(root: Path, tree: Option<Tree>, files: Option<seq<FilePath>>) returns (r: ReferenceIndex)
    ensures tree.None? ==> r == NotBuilt
    ensures tree.Some? ==>
              var indices := IndicesRead(root, tree.value, files);
              r.Present? && r.references == Collected(root, tree.value, indices)
              && r.modulesScanned == Scanned(tree.value, indices) && r.modulesScanned + r.modulesSkipped == |indices|
  {
    if tree.None? {
      return NotBuilt;
    }
    var scan := new ReferenceScan();
    var wanted: Option<seq<Path>> := None;
    if files.Some? {
      wanted := CollectIndices(root, tree.value, files.value);
    }
    if wanted.Some? {
      scan.VisitAll(root, tree.value, wanted.value);
    } else {
      scan.VisitAll(root, tree.value, tree.value.walk);
    }
    r := Present(scan.references, scan.modulesScanned, scan.modulesSkipped);
  }

  // --- extensions --------------------------------------------------------------------

  lemma ExtensionSplits(name: string, ext: string)
    requires Extension(name) == Some(ext) && !HasDot(ext)
    ensures name == Stem(name) + "." + ext && Stem(name) != ""
  {
    UpToLastDotSplits(name);
  }

  lemma {:induction false} UpToLastDotSplits(s: string)
    requires HasDot(s)
    ensures |UpToLastDot(s)| < |s| && s[|UpToLastDot(s)|] == '.' && s[..|UpToLastDot(s)|] == UpToLastDot(s)
  {
    if s[|s| - 1] != '.' {
      var i :| 0 <= i < |s| && s[i] == '.';
      assert s[..|s| - 1][i] == '.';
      UpToLastDotSplits(s[..|s| - 1]);
    }
  }
}
