/**
 Project metadata as a function of the files it is built from, and the stamp
 that stands for those files. SHA-256, the TOML parser, UTF-8 decoding and the
 two lakefile patterns are fixed functions of file contents.
 */
module LakeMeta {
  import opened Wrappers

  type Bytes = seq<int>
  type Path = string

  /** A directory entry with what `stat` tells about it. `bytes` is `None` for a file that cannot be read. */
  datatype Node =
    | File(bytes: Option<Bytes>, len: int, mtime: int)
    | Dir(len: int, mtime: int)

  type Files = map<string, Node>

  datatype Lakefile = Lakefile(package: string, library: Option<string>)

  datatype Parsers = Parsers(
    utf8: Bytes -> Option<string>,
    toml: string -> Option<Lakefile>,
    leanPackage: string -> Option<string>,
    leanLibrary: string -> Option<string>,
    trim: string -> string,
    sha256: Bytes -> string,
    dirName: Path -> Option<string>)

  datatype BadProject = NoRoot | NoLakefile | UnreadableLakefile | MalformedLakefile | NoPackageName | UnreadableManifest

  datatype Meta = Meta(
    root: Path,
    toolchain: string,
    package: string,
    library: string,
    umbrella: Option<string>,
    manifestHash: string)

  const LAKEFILE_TOML := "lakefile.toml"
  const LAKEFILE_LEAN := "lakefile.lean"
  const LEAN_TOOLCHAIN := "lean-toolchain"
  const LAKE_MANIFEST := "lake-manifest.json"

  function NodeAt(files: Files, name: string): Option<Node> {
    if name in files then Some(files[name]) else None
  }

  predicate IsFile(node: Option<Node>) {
    node.Some? && node.value.File?
  }

  function BytesOf(node: Option<Node>): Option<Bytes> {
    if IsFile(node) then node.value.bytes else None
  }

  function Text(p: Parsers, node: Option<Node>): Option<string> {
    var bytes := BytesOf(node);
    if bytes.Some? then p.utf8(bytes.value) else None
  }

  /** The directory name stands in for a missing package name. */
  function Underscored(name: string): string {
    if name == "" then "" else [if name[0] == '-' then '_' else name[0]] + Underscored(name[1..])
  }

  function AsciiUpper(c: char): char {
    if 'a' <= c <= 'z' then ((c as int) - 32) as char else c
  }

  /** Each piece between underscores gets a capital, and the underscores go. */
  function PascalCase(snake: string, atStart: bool): string {
    if snake == "" then ""
    else if snake[0] == '_' then PascalCase(snake[1..], true)
    else [if atStart then AsciiUpper(snake[0]) else snake[0]] + PascalCase(snake[1..], false)
  }

  function ParseToml(p: Parsers, node: Option<Node>): Result<Lakefile, BadProject> {
    match Text(p, node)
    case None => Err(UnreadableLakefile)
    case Some(text) => match p.toml(text) case None => Err(MalformedLakefile) case Some(l) => Ok(l)
  }

  function ParseLean(p: Parsers, root: Path, node: Option<Node>): Result<Lakefile, BadProject> {
    match Text(p, node)
    case None => Err(UnreadableLakefile)
    case Some(text) =>
      match p.leanPackage(text)
      case Some(package) => Ok(Lakefile(package, p.leanLibrary(text)))
      case None =>
        match p.dirName(root)
        case None => Err(NoPackageName)
        case Some(name) => Ok(Lakefile(Underscored(name), p.leanLibrary(text)))
  }

  /** A TOML lakefile wins, even over a Lean one that would parse when it does not. */
  function ParseLakefile(p: Parsers, root: Path, toml: Option<Node>, lean: Option<Node>): Result<Lakefile, BadProject> {
    if IsFile(toml) then ParseToml(p, toml)
    else if IsFile(lean) then ParseLean(p, root, lean)
    else Err(NoLakefile)
  }

  function Toolchain(p: Parsers, node: Option<Node>): string {
    match Text(p, node) case None => "unknown" case Some(text) => p.trim(text)
  }

  function LibraryOf(l: Lakefile): string {
    match l.library case Some(name) => name case None => PascalCase(l.package, true)
  }

  function UmbrellaFile(library: string): string {
    library + ".lean"
  }

  function Build(p: Parsers, root: Path, files: Files): Result<Meta, BadProject> {
    match ParseLakefile(p, root, NodeAt(files, LAKEFILE_TOML), NodeAt(files, LAKEFILE_LEAN))
    case Err(e) => Err(e)
    case Ok(parsed) =>
      match BytesOf(NodeAt(files, LAKE_MANIFEST))
      case None => Err(UnreadableManifest)
      case Some(bytes) =>
        var library := LibraryOf(parsed);
        Ok(Meta(root, Toolchain(p, NodeAt(files, LEAN_TOOLCHAIN)), parsed.package, library,
                if IsFile(NodeAt(files, UmbrellaFile(library))) then Some(library) else None,
                p.sha256(bytes)))
  }

  type Stat = Option<(int, int)>

  function StatOf(node: Option<Node>): Stat {
    if node.Some? then Some((node.value.len, node.value.mtime)) else None
  }

  datatype Stamp = Stamp(toml: Stat, lean: Stat, toolchain: Stat, manifest: Stat, umbrella: Stat)

  /** Five stats; which file is the fifth depends on the value being stamped. */
  function InputStamp(files: Files, meta: Meta): Stamp {
    Stamp(StatOf(NodeAt(files, LAKEFILE_TOML)),
          StatOf(NodeAt(files, LAKEFILE_LEAN)),
          StatOf(NodeAt(files, LEAN_TOOLCHAIN)),
          StatOf(NodeAt(files, LAKE_MANIFEST)),
          StatOf(NodeAt(files, UmbrellaFile(meta.library))))
  }

  /** What the stamp relies on: a file whose length and mtime have not changed has not changed. */
  ghost predicate StatsTell(a: Files, b: Files) {
    forall name :: StatOf(NodeAt(a, name)) == StatOf(NodeAt(b, name)) ==> NodeAt(a, name) == NodeAt(b, name)
  }

  /**
   An equal stamp means an equal build, although the stamp was taken with the
   library name of the old build: equal lakefiles give the new build that name.
   */
  lemma StampDeterminesBuild(p: Parsers, root: Path, a: Files, b: Files)
    requires StatsTell(a, b)
    requires Build(p, root, a).Ok? && InputStamp(a, Build(p, root, a).value) == InputStamp(b, Build(p, root, a).value)
    ensures Build(p, root, b) == Build(p, root, a)
  {
    var m := Build(p, root, a).value;
    assert NodeAt(a, LAKEFILE_TOML) == NodeAt(b, LAKEFILE_TOML) && NodeAt(a, LAKEFILE_LEAN) == NodeAt(b, LAKEFILE_LEAN);
    assert NodeAt(a, LEAN_TOOLCHAIN) == NodeAt(b, LEAN_TOOLCHAIN) && NodeAt(a, LAKE_MANIFEST) == NodeAt(b, LAKE_MANIFEST);
    assert NodeAt(a, UmbrellaFile(m.library)) == NodeAt(b, UmbrellaFile(m.library));
  }

  /** A build that succeeded read a lakefile and a manifest, so its stamp is not that of an empty directory. */
  lemma BuiltStampIsNotEmpty(p: Parsers, root: Path, files: Files)
    requires Build(p, root, files).Ok?
    ensures InputStamp(files, Build(p, root, files).value) != InputStamp(map[], Build(p, root, files).value)
  {
  }
}
