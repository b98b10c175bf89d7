/**
 The metadata memo: a bounded cache revalidated by stamp on every lookup. Over
 any run of file edits and lookups it answers what a fresh build would answer.
 */
module MetaMemo {
  import opened Wrappers
  import opened Lru
  import opened LakeMeta

  datatype Cached = Cached(stamp: Stamp, meta: Meta)

  type Cache = Recency<Path, Cached>

  /** The projects on disk, by canonical root. */
  type World = map<Path, Files>

  function FilesAt(w: World, root: Path): Files {
    if root in w then w[root] else map[]
  }

  /** What a build from scratch would answer. */
  function Fresh(p: Parsers, w: World, root: Path): Result<Meta, BadProject> {
    if root in w then Build(p, root, w[root]) else Err(NoRoot)
  }

  predicate Valid(w: World, root: Path, cached: Option<Cached>) {
    cached.Some? && InputStamp(FilesAt(w, root), cached.value.meta) == cached.value.stamp
  }

  /** The lookup. The stamp of a new entry is taken from `late`, the disk as it is once the build has read its files. */
  function Lookup(p: Parsers, cap: Positive, cache: Cache, w: World, late: World, root: Path)
    : (Cache, Result<Meta, BadProject>)
  {
    var touched, cached := Touch(cache, root), Get(cache, root);
    if Valid(w, root, cached) then (touched, Ok(cached.value.meta))
    else
      match Fresh(p, w, root)
      case Err(e) => (touched, Err(e))
      case Ok(m) => (Put(touched, cap, root, Cached(InputStamp(FilesAt(late, root), m), m)), Ok(m))
  }

  class MetaCache {
    const cap: Positive
    var cache: Cache

    constructor (cap: Positive)
      ensures this.cap == cap && cache == []
    {
      this.cap, cache := cap, [];
    }

    method Meta(p: Parsers, w: World, late: World, root: Path) returns (meta: Result<LakeMeta.Meta, BadProject>)
      modifies this
      ensures (cache, meta) == Lookup(p, cap, old(cache), w, late, root)
    {
      var cached := Get(cache, root);
      cache := Touch(cache, root);
      if cached.Some? && InputStamp(FilesAt(w, root), cached.value.meta) == cached.value.stamp {
        return Ok(cached.value.meta);
      }
      meta := Fresh(p, w, root);
      if meta.Ok? {
        cache := Put(cache, cap, root, Cached(InputStamp(FilesAt(late, root), meta.value), meta.value));
      }
    }
  }

  // --- whole runs --------------------------------------------------------------

  datatype Event = Edit(world: World) | Ask(root: Path)

  datatype Sys = Sys(world: World, cache: Cache)

  function Step(p: Parsers, cap: Positive, s: Sys, e: Event): Sys {
    match e
    case Edit(w) => s.(world := w)
    case Ask(root) => s.(cache := Lookup(p, cap, s.cache, s.world, s.world, root).0)
  }

  function Run(p: Parsers, cap: Positive, w: World, events: seq<Event>): Sys {
    if events == [] then Sys(w, [])
    else Step(p, cap, Run(p, cap, w, events[..|events| - 1]), events[|events| - 1])
  }

  /** The disk was `w` at some time during the run. */
  predicate Was(w: World, start: World, events: seq<Event>) {
    w == start || Edit(w) in events
  }

  /** Stats tell files apart over the whole run. */
  ghost predicate StatsTellAlways(start: World, events: seq<Event>) {
    forall a, b, root ::
      Was(a, start, events) && Was(b, start, events) ==> StatsTell(FilesAt(a, root), FilesAt(b, root))
  }

  /** An entry is what some disk of the run built, with that disk's stamp. */
  predicate BuiltFrom(p: Parsers, w: World, e: Entry<Path, Cached>) {
    && Fresh(p, w, e.key) == Ok(e.value.meta)
    && e.value.stamp == InputStamp(FilesAt(w, e.key), e.value.meta)
  }

  ghost predicate HasOrigin(p: Parsers, start: World, events: seq<Event>, e: Entry<Path, Cached>) {
    exists w :: Was(w, start, events) && BuiltFrom(p, w, e)
  }

  ghost predicate CacheOk(p: Parsers, cap: Positive, start: World, events: seq<Event>, cache: Cache) {
    && Distinct(cache) && |cache| <= cap
    && forall e :: e in cache ==> HasOrigin(p, start, events, e)
  }

  lemma OriginLasts(p: Parsers, start: World, events: seq<Event>, more: seq<Event>, e: Entry<Path, Cached>)
    requires HasOrigin(p, start, events, e) && forall x :: x in events ==> x in more
    ensures HasOrigin(p, start, more, e)
  {
    var w :| Was(w, start, events) && BuiltFrom(p, w, e);
    assert Was(w, start, more);
  }

  lemma AskKeepsCache(p: Parsers, cap: Positive, start: World, events: seq<Event>, cache: Cache, w: World, root: Path)
    requires CacheOk(p, cap, start, events, cache) && Was(w, start, events)
    ensures CacheOk(p, cap, start, events, Lookup(p, cap, cache, w, w, root).0)
  {
    TouchFacts(cache, cap, root);
    var touched := Touch(cache, root);
    var built := Fresh(p, w, root);
    if !Valid(w, root, Get(cache, root)) && built.Ok? {
      var v := Cached(InputStamp(FilesAt(w, root), built.value), built.value);
      PutFacts(touched, cap, root, v);
      RestMembers(touched, cap, root);
      assert BuiltFrom(p, w, Entry(root, v));
    }
  }

  lemma RestMembers(cache: Cache, cap: Positive, root: Path)
    requires Distinct(cache) && |cache| <= cap
    ensures forall e :: e in Rest(cache, cap, root) ==> e in cache
  {
    RestFacts(cache, cap, root);
  }

  lemma {:induction false} RunKeepsCache(p: Parsers, cap: Positive, start: World, events: seq<Event>)
    ensures CacheOk(p, cap, start, events, Run(p, cap, start, events).cache)
    ensures Was(Run(p, cap, start, events).world, start, events)
  {
    if events != [] {
      var (before, last) := (events[..|events| - 1], events[|events| - 1]);
      RunKeepsCache(p, cap, start, before);
      var s := Run(p, cap, start, before);
      assert events == before + [last];
      forall e | e in s.cache ensures HasOrigin(p, start, events, e) {
        OriginLasts(p, start, before, events, e);
      }
      if last.Ask? {
        AskKeepsCache(p, cap, start, events, s.cache, s.world, last.root);
      }
    }
  }

  /**
   Whatever was edited and asked before, a lookup answers exactly what a fresh
   build answers: the value, or the error. Equal stats must mean equal files,
   and the build and its stamp must see one disk.
   */
  lemma EveryLookupIsFresh(p: Parsers, cap: Positive, start: World, events: seq<Event>, root: Path)
    requires StatsTellAlways(start, events)
    ensures var s := Run(p, cap, start, events);
            Lookup(p, cap, s.cache, s.world, s.world, root).1 == Fresh(p, s.world, root)
    ensures |Run(p, cap, start, events).cache| <= cap
  {
    RunKeepsCache(p, cap, start, events);
    var s := Run(p, cap, start, events);
    var cached := Get(s.cache, root);
    if Valid(s.world, root, cached) {
      GetIsMembership(s.cache, root, cached.value);
      var w :| Was(w, start, events) && BuiltFrom(p, w, Entry(root, cached.value));
      if root in s.world {
        StampDeterminesBuild(p, root, w[root], s.world[root]);
      } else {
        BuiltStampIsNotEmpty(p, root, w[root]);
      }
    }
  }

  /**
   When an edit lands between the build and its stamp, the next lookup is fresh
   exactly when that edit does not change the outcome.
   */
  lemma LateStampHidesEdit(p: Parsers, cap: Positive, cache: Cache, w: World, late: World, root: Path)
    requires Distinct(cache) && |cache| <= cap && !Valid(w, root, Get(cache, root)) && Fresh(p, w, root).Ok?
    ensures var after := Lookup(p, cap, cache, w, late, root).0;
            Lookup(p, cap, after, late, late, root).1 == Fresh(p, late, root) <==> Fresh(p, late, root) == Fresh(p, w, root)
  {
    TouchFacts(cache, cap, root);
    var m := Fresh(p, w, root).value;
    PutFacts(Touch(cache, root), cap, root, Cached(InputStamp(FilesAt(late, root), m), m));
  }
}
