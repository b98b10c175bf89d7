/**
 Module names and the paths made from them: the source a module is built from,
 the index a build leaves for it, and the way back from a source to its index.
 */
module ModulePaths {
  import opened Wrappers

  /** An absolute path, as its components. */
  type Path = seq<string>

  const BUILD_LIB: Path := [".lake", "build", "lib", "lean"]

  predicate HasDot(s: string) {
    exists i :: 0 <= i < |s| && s[i] == '.'
  }

  /** Everything up to the last dot; the whole name when it has none. */
  function UpToLastDot(s: string): string {
    if s == "" then ""
    else if s[|s| - 1] == '.' then s[..|s| - 1]
    else
      var init := UpToLastDot(s[..|s| - 1]);
      if HasDot(s[..|s| - 1]) then init else s
  }

  /** A file name without its extension. A leading dot starts no extension. */
  function Stem(name: string): string {
    if !HasDot(name) || UpToLastDot(name) == "" then name else UpToLastDot(name)
  }

  function Extension(name: string): Option<string> {
    if Stem(name) == name then None else Some(name[if |Stem(name)| < |name| then |Stem(name)| + 1 else |name|..])
  }

  /** Replace the extension of the last component. */
  function WithExtension(p: Path, ext: string): Path {
    if p == [] then p else p[..|p| - 1] + [Stem(p[|p| - 1]) + "." + ext]
  }

  /** The pieces of a module name between dots. */
  function Split(s: string): (pieces: seq<string>)
    ensures |pieces| >= 1
    ensures forall i :: 0 <= i < |pieces| ==> !HasDot(pieces[i])
  {
    if s == "" then [""]
    else
      var rest := Split(s[1..]);
      if s[0] == '.' then [""] + rest
      else
        HasDotCons(s[0], rest[0]);
        [[s[0]] + rest[0]] + rest[1..]
  }

  lemma HasDotCons(c: char, s: string)
    ensures HasDot([c] + s) <==> c == '.' || HasDot(s)
  {
    var t := [c] + s;
    if HasDot(s) {
      var i :| 0 <= i < |s| && s[i] == '.';
      assert t[i + 1] == '.';
    }
    if HasDot(t) && c != '.' {
      var i :| 0 <= i < |t| && t[i] == '.';
      assert s[i - 1] == '.';
    }
    if c == '.' { assert t[0] == '.'; }
  }

  function Join(pieces: seq<string>): string
    requires pieces != []
  {
    if |pieces| == 1 then pieces[0] else pieces[0] + "." + Join(pieces[1..])
  }

  function NonEmpty(pieces: seq<string>): seq<string> {
    if pieces == [] then []
    else (if pieces[0] == "" then [] else [pieces[0]]) + NonEmpty(pieces[1..])
  }

  /** Joining the pieces onto a path: an empty piece adds nothing. */
  function Components(name: string): seq<string> {
    NonEmpty(Split(name))
  }

  function ModuleToSource(root: Path, name: string): Path {
    WithExtension(root + Components(name), "lean")
  }

  function ModuleToIndex(root: Path, name: string): Path {
    WithExtension(root + BUILD_LIB + Components(name), "ilean")
  }

  // --- names and pieces ----------------------------------------------------------

  /** A module name that Lean can have: no piece of it is empty. */
  predicate WellNamed(name: string) {
    forall i :: 0 <= i < |Split(name)| ==> Split(name)[i] != ""
  }

  lemma {:induction false} SplitPlain(s: string)
    requires !HasDot(s)
    ensures Split(s) == [s]
  {
    if s != "" {
      assert s == [s[0]] + s[1..];
      HasDotCons(s[0], s[1..]);
      assert s[0] != '.';
      SplitPlain(s[1..]);
    }
  }

  lemma {:induction false} SplitAtDot(s: string, rest: string)
    requires !HasDot(s)
    ensures Split(s + "." + rest) == [s] + Split(rest)
  {
    var t := s + "." + rest;
    if s == "" {
      assert t[1..] == rest;
    } else {
      assert s == [s[0]] + s[1..];
      HasDotCons(s[0], s[1..]);
      SplitAtDot(s[1..], rest);
      assert t[1..] == s[1..] + "." + rest && t[0] == s[0] && s[0] != '.';
    }
  }

  /** Pieces without dots, joined and split again, come back. */
  lemma {:induction false} SplitJoin(pieces: seq<string>)
    requires pieces != [] && forall i :: 0 <= i < |pieces| ==> !HasDot(pieces[i])
    ensures Split(Join(pieces)) == pieces
  {
    if |pieces| == 1 {
      SplitPlain(pieces[0]);
    } else {
      SplitJoin(pieces[1..]);
      SplitAtDot(pieces[0], Join(pieces[1..]));
    }
  }

  /** Split, then joined: the name comes back. */
  lemma {:induction false} JoinSplit(s: string)
    ensures Join(Split(s)) == s
  {
    if s != "" {
      var rest := Split(s[1..]);
      JoinSplit(s[1..]);
      if s[0] == '.' {
        assert ([""] + rest)[1..] == rest;
      } else {
        assert s == [s[0]] + s[1..];
        assert ([[s[0]] + rest[0]] + rest[1..])[1..] == rest[1..];
      }
    }
  }

  lemma {:induction false} NonEmptyKeepsAll(pieces: seq<string>)
    requires forall i :: 0 <= i < |pieces| ==> pieces[i] != ""
    ensures NonEmpty(pieces) == pieces
  {
    if pieces != [] {
      NonEmptyKeepsAll(pieces[1..]);
    }
  }

  lemma {:induction false} NonEmptyHasNoDots(pieces: seq<string>)
    requires forall i :: 0 <= i < |pieces| ==> !HasDot(pieces[i])
    ensures forall i :: 0 <= i < |NonEmpty(pieces)| ==> !HasDot(NonEmpty(pieces)[i]) && NonEmpty(pieces)[i] != ""
  {
    if pieces != [] {
      NonEmptyHasNoDots(pieces[1..]);
    }
  }

  // --- extensions ------------------------------------------------------------------

  lemma {:induction false} LastDotOf(s: string, ext: string)
    requires !HasDot(ext)
    ensures UpToLastDot(s + "." + ext) == s && HasDot(s + "." + ext)
  {
    var t := s + "." + ext;
    assert t[|s|] == '.';
    if ext == "" {
      assert t[..|t| - 1] == s;
    } else {
      var short := ext[..|ext| - 1];
      assert t[..|t| - 1] == s + "." + short;
      forall i | 0 <= i < |short| ensures short[i] != '.' { assert short[i] == ext[i]; }
      LastDotOf(s, short);
      assert t[|t| - 1] == ext[|ext| - 1] && ext[|ext| - 1] != '.';
    }
  }

  lemma NoDots()
    ensures !HasDot("lean") && !HasDot("ilean") && !HasDot("")
  {
  }

  /** The extension of a plain name replaced, and read back. */
  lemma PlainWithExtension(p: Path, name: string, ext: string)
    requires !HasDot(name) && name != "" && !HasDot(ext)
    ensures WithExtension(p + [name], ext) == p + [name + "." + ext]
    ensures Stem(name + "." + ext) == name && Extension(name + "." + ext) == Some(ext)
  {
    LastDotOf(name, ext);
    var s := name + "." + ext;
    assert s[|name| + 1..] == ext;
    assert (p + [name])[..|p|] == p;
  }
}
