/**
 Built `.olean` artifacts on disk and the stamp the actor watches: the newest
 modification time among the artifacts a list of imports resolves to.
 */
module Artifacts {
  import opened Wrappers

  /** One built artifact. `mtime` is `None` when the platform will not report it. */
  datatype Olean = Olean(content: nat, mtime: Option<nat>)

  /** The artifacts under one root, by module name. */
  type Tree = map<string, Olean>

  /** The artifact roots in probing order, the project's own tree first. */
  type Disk = seq<Tree>

  /** A list of imported module names; its fingerprint is taken to be injective. */
  type Profile = seq<string>

  /** The first root holding `m` wins. */
  function Resolve(disk: Disk, m: string): Option<Olean> {
    if disk == [] then None
    else if m in disk[0] then Some(disk[0][m])
    else Resolve(disk[1..], m)
  }

  /** What an import of `p` puts into an environment. */
  function Content(disk: Disk, p: Profile): seq<Option<nat>> {
    seq(|p|, i requires 0 <= i < |p| =>
      match Resolve(disk, p[i])
      case None => None
      case Some(o) => Some(o.content))
  }

  function MtimeOf(disk: Disk, m: string): Option<nat> {
    match Resolve(disk, m)
    case None => None
    case Some(o) => o.mtime
  }

  /** `t` is the newest modification time among the artifacts of `p`. */
  ghost predicate IsNewest(disk: Disk, p: Profile, t: Option<nat>) {
    match t
    case None => forall i :: 0 <= i < |p| ==> MtimeOf(disk, p[i]).None?
    case Some(n) =>
      && (exists i :: 0 <= i < |p| && MtimeOf(disk, p[i]) == Some(n))
      && (forall i :: 0 <= i < |p| && MtimeOf(disk, p[i]).Some? ==> MtimeOf(disk, p[i]).value <= n)
  }

  function Newer(a: Option<nat>, b: Option<nat>): Option<nat> {
    if a.None? then b
    else if b.None? then a
    else if a.value >= b.value then a else b
  }

  function Stamp(disk: Disk, p: Profile): (t: Option<nat>)
    ensures IsNewest(disk, p, t)
  {
    if p == [] then None
    else
      var rest := Stamp(disk, p[..|p| - 1]);
      var last := MtimeOf(disk, p[|p| - 1]);
      assert forall i :: 0 <= i < |p| - 1 ==> p[..|p| - 1][i] == p[i];
      Newer(rest, last)
  }

  /** The actor's stat pass: one probe per module per root until the first root that has it. */
  method ImportArtifactStamp(disk: Disk, modules: Profile) returns (newest: Option<nat>)
    ensures newest == Stamp(disk, modules)
    ensures IsNewest(disk, modules, newest)
  {
    newest := None;
    for i := 0 to |modules|
      invariant newest == Stamp(disk, modules[..i])
    {
      assert modules[..i + 1][..i] == modules[..i];
      var name := modules[i];
      var before := newest;
      var r := 0;
      while r < |disk|
        invariant 0 <= r <= |disk|
        invariant newest == before
        invariant Resolve(disk, name) == Resolve(disk[r..], name)
      {
        if name in disk[r] {
          var modified := disk[r][name].mtime;
          if modified.Some? {
            newest := Some(match newest
              case None => modified.value
              case Some(current) => if modified.value >= current then modified.value else current);
          }
          assert MtimeOf(disk, name) == modified;
          break;
        }
        r := r + 1;
      }
      assert newest == Newer(before, MtimeOf(disk, name));
    }
    assert modules[..|modules|] == modules;
  }

  /**
   The environment premise on one profile between two instants: either nothing
   about it moved, or both stamps are present, the later is no older, and it is
   strictly newer when the artifacts differ.
   */
  ghost predicate Ticks(before: Disk, after: Disk, p: Profile) {
    || (Content(before, p) == Content(after, p) && Stamp(before, p) == Stamp(after, p))
    || (&& Stamp(before, p).Some? && Stamp(after, p).Some?
        && Stamp(before, p).value <= Stamp(after, p).value
        && (Content(before, p) != Content(after, p) ==> Stamp(before, p).value < Stamp(after, p).value))
  }

  ghost predicate Advances(before: Disk, after: Disk, used: iset<Profile>) {
    forall p :: p in used ==> Ticks(before, after, p)
  }

  /** `after` is `before` with some artifacts rewritten later than everything in `before`. */
  ghost predicate Rebuilt(before: Disk, after: Disk) {
    && |before| == |after|
    && (forall r :: 0 <= r < |before| ==> before[r].Keys == after[r].Keys)
    && (forall r, m :: 0 <= r < |before| && m in before[r] ==>
      before[r][m].mtime.Some? && after[r][m].mtime.Some?)
    && (forall r, m :: 0 <= r < |before| && m in before[r] ==>
      after[r][m] == before[r][m] || LaterThanAll(before, after[r][m].mtime.value))
  }

  ghost predicate LaterThanAll(disk: Disk, t: nat) {
    forall r, m :: 0 <= r < |disk| && m in disk[r] && disk[r][m].mtime.Some? ==> disk[r][m].mtime.value < t
  }

  /** Where an artifact resolves is not changed by rewriting artifacts in place. */
  lemma {:induction false} ResolveRoot(before: Disk, after: Disk, m: string) returns (r: int)
    requires |before| == |after|
    requires forall i :: 0 <= i < |before| ==> before[i].Keys == after[i].Keys
    ensures r == -1 ==> Resolve(before, m).None? && Resolve(after, m).None?
    ensures r != -1 ==> 0 <= r < |before| && m in before[r]
                        && Resolve(before, m) == Some(before[r][m]) && Resolve(after, m) == Some(after[r][m])
  {
    if before == [] {
      r := -1;
    } else if m in before[0] {
      r := 0;
    } else {
      r := ResolveRoot(before[1..], after[1..], m);
      if r != -1 { r := r + 1; }
    }
  }

  /** Some artifact the profile imports was rewritten, with other contents or only with a later time. */
  ghost predicate Rewritten(before: Disk, after: Disk, p: Profile) {
    exists i :: 0 <= i < |p| && Resolve(after, p[i]) != Resolve(before, p[i])
  }

  /**
   A build that rewrites artifacts on an advancing clock satisfies the premise
   for every profile: the stamp never falls, and it rises exactly when an
   imported artifact was rewritten.
   */
  lemma RebuildTicks(before: Disk, after: Disk, p: Profile)
    requires Rebuilt(before, after)
    ensures Ticks(before, after, p)
    ensures Rewritten(before, after, p) <==>
            Stamp(before, p).Some? && Stamp(after, p).Some? && Stamp(before, p).value < Stamp(after, p).value
  {
    forall i | 0 <= i < |p|
      ensures MtimeOf(before, p[i]).Some? == MtimeOf(after, p[i]).Some?
      ensures Resolve(after, p[i]) == Resolve(before, p[i])
              || (MtimeOf(after, p[i]).Some? && LaterThanAll(before, MtimeOf(after, p[i]).value))
    {
      var r := ResolveRoot(before, after, p[i]);
    }
    if i :| 0 <= i < |p| && Resolve(after, p[i]) != Resolve(before, p[i]) {
      var r := ResolveRoot(before, after, p[i]);
      var s, t := Stamp(before, p), Stamp(after, p);
      var j :| 0 <= j < |p| && MtimeOf(before, p[j]) == s;
      var q := ResolveRoot(before, after, p[j]);
      assert s.value < MtimeOf(after, p[i]).value <= t.value;
    } else {
      assert Content(before, p) == Content(after, p);
      assert forall i :: 0 <= i < |p| ==> MtimeOf(before, p[i]) == MtimeOf(after, p[i]);
      NewestIsUnique(before, after, p);
    }
  }

  lemma NewestIsUnique(before: Disk, after: Disk, p: Profile)
    requires forall i :: 0 <= i < |p| ==> MtimeOf(before, p[i]) == MtimeOf(after, p[i])
    ensures Stamp(before, p) == Stamp(after, p)
  {
    var s, t := Stamp(before, p), Stamp(after, p);
    if s.Some? {
      var i :| 0 <= i < |p| && MtimeOf(before, p[i]) == s;
      assert MtimeOf(after, p[i]) == s;
      var j :| 0 <= j < |p| && MtimeOf(after, p[j]) == t;
      assert MtimeOf(before, p[j]) == t;
    }
  }

  /** The premise composes over time. */
  lemma TicksCompose(d0: Disk, d1: Disk, d2: Disk, p: Profile)
    requires Ticks(d0, d1, p) && Ticks(d1, d2, p)
    ensures Ticks(d0, d2, p)
  {
  }
}
