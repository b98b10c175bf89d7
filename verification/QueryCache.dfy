/**
 The module-query cache: bounded, keyed on path, content hash and question, with
 no expiry. A hit is the worker's last answer to the same question about the
 same bytes, whatever calls ran in between or at the same time.
 */
module QueryCache {
  import opened Wrappers
  import opened Lru

  type Path = string
  type Hash = seq<int>

  /** The upstream enumeration is open: `Unmodelled` is any variant this build does not know. */
  datatype Query =
    | Diagnostics
    | TypeAt(line: int, column: int)
    | GoalAt(line: int, column: int)
    | References(name: string)
    | Unmodelled(variant: int, payload: string)

  datatype QueryKey =
    | DiagnosticsKey
    | TypeAtKey(line: int, column: int)
    | GoalAtKey(line: int, column: int)
    | ReferencesKey(name: string)

  function FromQuery(q: Query): Option<QueryKey> {
    match q
    case Diagnostics => Some(DiagnosticsKey)
    case TypeAt(l, c) => Some(TypeAtKey(l, c))
    case GoalAt(l, c) => Some(GoalAtKey(l, c))
    case References(n) => Some(ReferencesKey(n))
    case Unmodelled(_, _) => None
  }

  /** A batch: what is asked, and how many bytes the answer may take. */
  datatype Batch = Batch(selectors: seq<string>, budgets: seq<int>)

  /** Serialisation of a batch. It may fail; what it writes tells batches apart. */
  type Encoder = Batch -> Option<string>

  ghost predicate TellsApart(encode: Encoder) {
    forall a, b :: encode(a).Some? && encode(a) == encode(b) ==> a == b
  }

  datatype CacheKey<+Q> = CacheKey(path: Path, hash: Hash, query: Q)

  datatype Outcome = Outcome(text: string)

  datatype CacheStatus = Hit | Miss | Bypassed
  datatype Timings = Timings(elaborateMicros: int, queryMicros: int)
  const ZERO_TIMINGS := Timings(0, 0)
  datatype Facts = Facts(cacheStatus: CacheStatus, timings: Timings, bytes: int)

  datatype BatchOutcome =
    | BatchOk(facts: Facts, items: seq<string>)
    | MissingImports(facts: Facts, imports: seq<string>)
    | HeaderParseFailed(facts: Facts, message: string)
    | Unsupported
    | UnknownOutcome(payload: string)

  function MarkBatchCacheHit(o: BatchOutcome): BatchOutcome {
    if o.BatchOk? || o.MissingImports? || o.HeaderParseFailed? then
      o.(facts := o.facts.(cacheStatus := Hit, timings := ZERO_TIMINGS))
    else o
  }

  /** Equal but for the cache status and the timings. */
  predicate SameAnswer(a: BatchOutcome, b: BatchOutcome) {
    match (a, b)
    case (BatchOk(f, x), BatchOk(g, y)) => f.bytes == g.bytes && x == y
    case (MissingImports(f, x), MissingImports(g, y)) => f.bytes == g.bytes && x == y
    case (HeaderParseFailed(f, x), HeaderParseFailed(g, y)) => f.bytes == g.bytes && x == y
    case _ => a == b
  }

  datatype Caches = Caches(
    single: Recency<CacheKey<QueryKey>, Outcome>,
    batch: Recency<CacheKey<string>, BatchOutcome>)

  function GetSingle(c: Caches, path: Path, hash: Hash, q: Query): (Caches, Option<Outcome>) {
    match FromQuery(q)
    case None => (c, None)
    case Some(k) =>
      var key := CacheKey(path, hash, k);
      (c.(single := Touch(c.single, key)), Get(c.single, key))
  }

  function InsertSingle(c: Caches, cap: Positive, path: Path, hash: Hash, q: Query, v: Outcome): Caches {
    match FromQuery(q)
    case None => c
    case Some(k) => c.(single := Put(c.single, cap, CacheKey(path, hash, k), v))
  }

  function GetBatch(c: Caches, encode: Encoder, path: Path, hash: Hash, b: Batch): (Caches, Option<BatchOutcome>) {
    match encode(b)
    case None => (c, None)
    case Some(k) =>
      var key := CacheKey(path, hash, k);
      var found := Get(c.batch, key);
      (c.(batch := Touch(c.batch, key)), if found.Some? then Some(MarkBatchCacheHit(found.value)) else None)
  }

  function InsertBatch(c: Caches, cap: Positive, encode: Encoder, path: Path, hash: Hash, b: Batch,
                       v: BatchOutcome): Caches {
    match encode(b)
    case None => c
    case Some(k) => c.(batch := Put(c.batch, cap, CacheKey(path, hash, k), v))
  }

  /** What a caller of the broker gets: an answer, and whether the worker gave it just now. */
  datatype Served<+V> = Served(value: V, freshlyProcessed: bool)

  class ModuleQueryCache {
    const cap: Positive
    var single: Recency<CacheKey<QueryKey>, Outcome>
    var batch: Recency<CacheKey<string>, BatchOutcome>

    function State(): Caches
      reads this
    {
      Caches(single, batch)
    }

    constructor (cap: Positive)
      ensures this.cap == cap && State() == Caches([], [])
    {
      this.cap := cap;
      single, batch := [], [];
    }

    method Lookup(path: Path, hash: Hash, k: QueryKey) returns (found: Option<Outcome>)
      modifies this`single
      ensures found == Get(old(single), CacheKey(path, hash, k))
      ensures single == Touch(old(single), CacheKey(path, hash, k))
    {
      var key := CacheKey(path, hash, k);
      found := Get(single, key);
      single := Touch(single, key);
    }

    method Insert(path: Path, hash: Hash, k: QueryKey, v: Outcome)
      modifies this`single
      ensures single == Put(old(single), cap, CacheKey(path, hash, k), v)
    {
      single := Put(single, cap, CacheKey(path, hash, k), v);
    }

    method LookupBatch(path: Path, hash: Hash, k: string) returns (found: Option<BatchOutcome>)
      modifies this`batch
      ensures var was := Get(old(batch), CacheKey(path, hash, k));
              found == if was.Some? then Some(MarkBatchCacheHit(was.value)) else None
      ensures batch == Touch(old(batch), CacheKey(path, hash, k))
    {
      var key := CacheKey(path, hash, k);
      found := Get(batch, key);
      batch := Touch(batch, key);
      if found.Some? {
        found := Some(MarkBatchCacheHit(found.value));
      }
    }

    method InsertBatchEntry(path: Path, hash: Hash, k: string, v: BatchOutcome)
      modifies this`batch
      ensures batch == Put(old(batch), cap, CacheKey(path, hash, k), v)
    {
      batch := Put(batch, cap, CacheKey(path, hash, k), v);
    }

    /** A call that runs alone: `worker` is what the worker would answer, or its failure. */
    method ProcessCachedModuleQuery<E>(path: Path, hash: Hash, q: Query, worker: Result<Outcome, E>)
      returns (r: Result<Served<Outcome>, E>)
      modifies this`single
      ensures var (looked, hit) := GetSingle(old(State()), path, hash, q);
              if hit.Some? then State() == looked && r == Ok(Served(hit.value, false))
              else if worker.Err? then State() == looked && r == Err(worker.error)
              else State() == InsertSingle(looked, cap, path, hash, q, worker.value) && r == Ok(Served(worker.value, true))
    {
      var key := FromQuery(q);
      if key.Some? {
        var hit := Lookup(path, hash, key.value);
        if hit.Some? {
          return Ok(Served(hit.value, false));
        }
      }
      if worker.Err? {
        return Err(worker.error);
      }
      if key.Some? {
        Insert(path, hash, key.value, worker.value);
      }
      r := Ok(Served(worker.value, true));
    }

    method ProcessCachedModuleQueryBatch<E>(encode: Encoder, path: Path, hash: Hash, b: Batch,
                                            worker: Result<BatchOutcome, E>)
      returns (r: Result<Served<BatchOutcome>, E>)
      modifies this`batch
      ensures var (looked, hit) := GetBatch(old(State()), encode, path, hash, b);
              if hit.Some? then State() == looked && r == Ok(Served(hit.value, false))
              else if worker.Err? then State() == looked && r == Err(worker.error)
              else State() == InsertBatch(looked, cap, encode, path, hash, b, worker.value)
                   && r == Ok(Served(worker.value, true))
    {
      var key := encode(b);
      if key.Some? {
        var hit := LookupBatch(path, hash, key.value);
        if hit.Some? {
          return Ok(Served(hit.value, false));
        }
      }
      if worker.Err? {
        return Err(worker.error);
      }
      if key.Some? {
        InsertBatchEntry(path, hash, key.value, worker.value);
      }
      r := Ok(Served(worker.value, true));
    }
  }

  // --- whole runs --------------------------------------------------------------

  /** The cache's half of a call: the probe when it starts, the insert when the worker has answered. */
  datatype Event =
    | Ask(path: Path, hash: Hash, query: Query)
    | Answer(path: Path, hash: Hash, query: Query, value: Outcome)
    | AskBatch(path: Path, hash: Hash, batch: Batch)
    | AnswerBatch(path: Path, hash: Hash, batch: Batch, outcome: BatchOutcome)

  function Step(cap: Positive, encode: Encoder, c: Caches, e: Event): Caches {
    match e
    case Ask(p, h, q) => GetSingle(c, p, h, q).0
    case Answer(p, h, q, v) => InsertSingle(c, cap, p, h, q, v)
    case AskBatch(p, h, b) => GetBatch(c, encode, p, h, b).0
    case AnswerBatch(p, h, b, v) => InsertBatch(c, cap, encode, p, h, b, v)
  }

  function Run(cap: Positive, encode: Encoder, events: seq<Event>): Caches {
    if events == [] then Caches([], [])
    else Step(cap, encode, Run(cap, encode, events[..|events| - 1]), events[|events| - 1])
  }

  /** The worker's last answer to exactly this question. */
  function LastAnswer(events: seq<Event>, path: Path, hash: Hash, q: Query): Option<Outcome> {
    if events == [] then None
    else
      var (before, e) := (events[..|events| - 1], events[|events| - 1]);
      if e.Answer? && e.path == path && e.hash == hash && e.query == q then Some(e.value)
      else LastAnswer(before, path, hash, q)
  }

  function LastBatchAnswer(events: seq<Event>, path: Path, hash: Hash, b: Batch): Option<BatchOutcome> {
    if events == [] then None
    else
      var (before, e) := (events[..|events| - 1], events[|events| - 1]);
      if e.AnswerBatch? && e.path == path && e.hash == hash && e.batch == b then Some(e.outcome)
      else LastBatchAnswer(before, path, hash, b)
  }

  /** Different modelled queries never share a key, and only unmodelled ones have none. */
  lemma KeysTellApart(a: Query, b: Query)
    ensures FromQuery(a).None? <==> a.Unmodelled?
    ensures FromQuery(a).Some? && FromQuery(a) == FromQuery(b) ==> a == b
  {
  }

  /** A hit is marked as such and shows no time spent; nothing else of it changes. */
  lemma MarkKeepsAnswer(o: BatchOutcome)
    ensures SameAnswer(MarkBatchCacheHit(o), o)
    ensures o.BatchOk? || o.MissingImports? || o.HeaderParseFailed? ==>
              MarkBatchCacheHit(o).facts.cacheStatus == Hit && MarkBatchCacheHit(o).facts.timings == ZERO_TIMINGS
    ensures o.Unsupported? || o.UnknownOutcome? ==> MarkBatchCacheHit(o) == o
  {
  }

  ghost predicate Sized(cap: Positive, c: Caches) {
    && Distinct(c.single) && |c.single| <= cap
    && Distinct(c.batch) && |c.batch| <= cap
  }

  lemma StepKeepsSize(cap: Positive, encode: Encoder, c: Caches, e: Event)
    requires Sized(cap, c)
    ensures Sized(cap, Step(cap, encode, c, e))
  {
    match e
    case Ask(p, h, q) => if FromQuery(q).Some? { TouchFacts(c.single, cap, CacheKey(p, h, FromQuery(q).value)); }
    case Answer(p, h, q, v) => if FromQuery(q).Some? { PutFacts(c.single, cap, CacheKey(p, h, FromQuery(q).value), v); }
    case AskBatch(p, h, b) => if encode(b).Some? { TouchFacts(c.batch, cap, CacheKey(p, h, encode(b).value)); }
    case AnswerBatch(p, h, b, v) => if encode(b).Some? { PutFacts(c.batch, cap, CacheKey(p, h, encode(b).value), v); }
  }

  /** Neither map outgrows its capacity. */
  lemma {:induction false} EveryRunIsBounded(cap: Positive, encode: Encoder, events: seq<Event>)
    ensures Sized(cap, Run(cap, encode, events))
  {
    if events != [] {
      EveryRunIsBounded(cap, encode, events[..|events| - 1]);
      StepKeepsSize(cap, encode, Run(cap, encode, events[..|events| - 1]), events[|events| - 1]);
    }
  }

  /** An entry after a refresh or an insert was there before, or is the one inserted. */
  lemma TouchOnlyMoves<K, V>(s: Recency<K, V>, cap: Positive, k: K, other: K)
    requires Distinct(s) && |s| <= cap
    ensures Get(Touch(s, k), other) == Get(s, other)
  {
    TouchFacts(s, cap, k);
    SameMembersSameGet(Touch(s, k), s, other);
  }

  lemma PutOnlyAdds<K, V>(s: Recency<K, V>, cap: Positive, k: K, v: V, other: K)
    requires Distinct(s) && |s| <= cap
    ensures other == k ==> Get(Put(s, cap, k, v), other) == Some(v)
    ensures other != k && Get(Put(s, cap, k, v), other).Some? ==> Get(Put(s, cap, k, v), other) == Get(s, other)
  {
    PutFacts(s, cap, k, v);
    RestFacts(s, cap, k);
    var after := Put(s, cap, k, v);
    if other != k && Get(after, other).Some? {
      GetIsMembership(after, other, Get(after, other).value);
      GetIsMembership(s, other, Get(after, other).value);
    }
  }

  /**
   A hit for a single query is the worker's last answer to that very question
   about those very bytes, whichever calls interleaved.
   */
  lemma {:induction false} HitIsLastAnswer(cap: Positive, encode: Encoder, events: seq<Event>, path: Path, hash: Hash,
                                           q: Query)
    ensures var hit := GetSingle(Run(cap, encode, events), path, hash, q).1;
            hit.Some? ==> hit == LastAnswer(events, path, hash, q)
  {
    if events != [] && FromQuery(q).Some? {
      var (before, e) := (events[..|events| - 1], events[|events| - 1]);
      var (s, key) := (Run(cap, encode, before), CacheKey(path, hash, FromQuery(q).value));
      HitIsLastAnswer(cap, encode, before, path, hash, q);
      EveryRunIsBounded(cap, encode, before);
      if (e.Ask? || e.Answer?) && FromQuery(e.query).Some? {
        KeysTellApart(e.query, q);
        var other := CacheKey(e.path, e.hash, FromQuery(e.query).value);
        if e.Ask? { TouchOnlyMoves(s.single, cap, other, key); } else { PutOnlyAdds(s.single, cap, other, e.value, key); }
      }
    }
  }

  /** A batch hit is the worker's last answer to that batch under those budgets, marked as a hit. */
  lemma {:induction false} BatchHitIsLastAnswer(cap: Positive, encode: Encoder, events: seq<Event>, path: Path,
                                                hash: Hash, b: Batch)
    requires TellsApart(encode)
    ensures var hit := GetBatch(Run(cap, encode, events), encode, path, hash, b).1;
            hit.Some? ==> LastBatchAnswer(events, path, hash, b).Some?
                          && hit.value == MarkBatchCacheHit(LastBatchAnswer(events, path, hash, b).value)
                          && SameAnswer(hit.value, LastBatchAnswer(events, path, hash, b).value)
  {
    if events != [] && encode(b).Some? {
      var (before, e) := (events[..|events| - 1], events[|events| - 1]);
      var (s, key) := (Run(cap, encode, before), CacheKey(path, hash, encode(b).value));
      BatchHitIsLastAnswer(cap, encode, before, path, hash, b);
      EveryRunIsBounded(cap, encode, before);
      if (e.AskBatch? || e.AnswerBatch?) && encode(e.batch).Some? {
        var other := CacheKey(e.path, e.hash, encode(e.batch).value);
        if e.AskBatch? { TouchOnlyMoves(s.batch, cap, other, key); } else { PutOnlyAdds(s.batch, cap, other, e.outcome, key); }
      }
      var last := LastBatchAnswer(events, path, hash, b);
      if last.Some? { MarkKeepsAnswer(last.value); }
    }
  }

  // --- queries without a key ------------------------------------------------------

  /** The event carries a key. */
  predicate HasKey(encode: Encoder, e: Event) {
    match e
    case Ask(_, _, q) => FromQuery(q).Some?
    case Answer(_, _, q, _) => FromQuery(q).Some?
    case AskBatch(_, _, b) => encode(b).Some?
    case AnswerBatch(_, _, b, _) => encode(b).Some?
  }

  /** The run without the events that carry no key. */
  function Keyed(encode: Encoder, events: seq<Event>): seq<Event> {
    if events == [] then []
    else
      var e := events[|events| - 1];
      Keyed(encode, events[..|events| - 1]) + if HasKey(encode, e) then [e] else []
  }

  lemma {:induction false} KeyedRunsAlike(cap: Positive, encode: Encoder, events: seq<Event>)
    ensures Run(cap, encode, events) == Run(cap, encode, Keyed(encode, events))
  {
    if events != [] {
      var (before, e) := (events[..|events| - 1], events[|events| - 1]);
      KeyedRunsAlike(cap, encode, before);
      if HasKey(encode, e) {
        var keyed := Keyed(encode, events);
        assert keyed[..|keyed| - 1] == Keyed(encode, before) && keyed[|keyed| - 1] == e;
      } else {
        assert Keyed(encode, events) == Keyed(encode, before);
      }
    }
  }

  /**
   Two runs that differ only in calls without a key, put in or left out anywhere,
   leave the same caches, and so answer every later probe alike.
   */
  lemma UnkeyableLeaveNoTrace(cap: Positive, encode: Encoder, xs: seq<Event>, ys: seq<Event>)
    requires Keyed(encode, xs) == Keyed(encode, ys)
    ensures Run(cap, encode, xs) == Run(cap, encode, ys)
    ensures forall p, h, q :: GetSingle(Run(cap, encode, xs), p, h, q).1 == GetSingle(Run(cap, encode, ys), p, h, q).1
    ensures forall p, h, b :: GetBatch(Run(cap, encode, xs), encode, p, h, b).1 == GetBatch(Run(cap, encode, ys), encode, p, h, b).1
  {
    KeyedRunsAlike(cap, encode, xs);
    KeyedRunsAlike(cap, encode, ys);
  }

  // --- imports that are rebuilt ---------------------------------------------------

  /** The build state of everything a file imports. */
  type Imports = seq<int>

  /** What the worker answers to a question about some bytes when its imports are in a given state. */
  type Worker = (Path, Hash, Query, Imports) -> Outcome

  /** The imports are rebuilt, or the cache's half of a call happens; an answer is from a worker run at moment `ran`. */
  datatype Turn = Rebuild(imports: Imports) | Cached(event: Event, ran: nat)

  function ImportsAfter(start: Imports, turns: seq<Turn>): Imports {
    if turns == [] then start
    else
      var last := turns[|turns| - 1];
      if last.Rebuild? then last.imports else ImportsAfter(start, turns[..|turns| - 1])
  }

  function EventsOf(turns: seq<Turn>): seq<Event> {
    if turns == [] then []
    else
      var last := turns[|turns| - 1];
      EventsOf(turns[..|turns| - 1]) + if last.Cached? then [last.event] else []
  }

  /** The worker's answer at moment `ran` of a run. */
  function AnswerAt(worker: Worker, start: Imports, turns: seq<Turn>, ran: nat, path: Path, hash: Hash, q: Query): Outcome
    requires ran <= |turns|
  {
    worker(path, hash, q, ImportsAfter(start, turns[..ran]))
  }

  /** Every answer is what the worker gave at some moment before it was stored. */
  ghost predicate Honest(worker: Worker, start: Imports, turns: seq<Turn>) {
    forall i :: 0 <= i < |turns| && turns[i].Cached? && turns[i].event.Answer? ==>
      && turns[i].ran <= i
      && turns[i].event.value
         == AnswerAt(worker, start, turns, turns[i].ran, turns[i].event.path, turns[i].event.hash, turns[i].event.query)
  }

  /** When the worker ran for its last answer to exactly this question. */
  function LastRan(turns: seq<Turn>, path: Path, hash: Hash, q: Query): Option<nat> {
    if turns == [] then None
    else
      var (before, t) := (turns[..|turns| - 1], turns[|turns| - 1]);
      if t.Cached? && t.event.Answer? && t.event.path == path && t.event.hash == hash && t.event.query == q
      then Some(t.ran) else LastRan(before, path, hash, q)
  }

  lemma {:induction false} LastAnswerRan(worker: Worker, start: Imports, turns: seq<Turn>, path: Path, hash: Hash, q: Query)
    requires Honest(worker, start, turns)
    ensures LastAnswer(EventsOf(turns), path, hash, q).Some? <==> LastRan(turns, path, hash, q).Some?
    ensures var ran := LastRan(turns, path, hash, q);
            ran.Some? ==>
              && ran.value <= |turns|
              && LastAnswer(EventsOf(turns), path, hash, q) == Some(AnswerAt(worker, start, turns, ran.value, path, hash, q))
  {
    if turns != [] {
      var (before, t) := (turns[..|turns| - 1], turns[|turns| - 1]);
      forall r | 0 <= r <= |before| ensures before[..r] == turns[..r] {
      }
      LastAnswerRan(worker, start, before, path, hash, q);
      var events := EventsOf(turns);
      if t.Cached? {
        assert events[..|events| - 1] == EventsOf(before) && events[|events| - 1] == t.event;
      } else {
        assert events == EventsOf(before);
      }
    }
  }

  /**
   A hit is what the worker would answer now exactly when its answer under the
   imports as they were when it last ran for this question is its answer under
   the imports as they are: the key holds the file's bytes and not its imports.
   */
  lemma HitIsCurrentExactly(cap: Positive, encode: Encoder, worker: Worker, start: Imports, turns: seq<Turn>,
                            path: Path, hash: Hash, q: Query)
    requires Honest(worker, start, turns)
    requires GetSingle(Run(cap, encode, EventsOf(turns)), path, hash, q).1.Some?
    ensures var (hit, ran) := (GetSingle(Run(cap, encode, EventsOf(turns)), path, hash, q).1, LastRan(turns, path, hash, q));
            && ran.Some? && ran.value <= |turns|
            && (hit.value == worker(path, hash, q, ImportsAfter(start, turns)) <==>
                worker(path, hash, q, ImportsAfter(start, turns[..ran.value]))
                == worker(path, hash, q, ImportsAfter(start, turns)))
  {
    HitIsLastAnswer(cap, encode, EventsOf(turns), path, hash, q);
    LastAnswerRan(worker, start, turns, path, hash, q);
  }

  // --- the same calls on any worker ------------------------------------------------

  /** No answer is stored before the worker ran for it. */
  ghost predicate Timed(turns: seq<Turn>) {
    forall i :: 0 <= i < |turns| && turns[i].Cached? && turns[i].event.Answer? ==> turns[i].ran <= i
  }

  /** A turn as a given worker would have it. */
  function ToldTurn(worker: Worker, start: Imports, before: seq<Turn>, t: Turn): Turn {
    if t.Cached? && t.event.Answer? && t.ran <= |before| then
      t.(event := t.event.(value := AnswerAt(worker, start, before, t.ran, t.event.path, t.event.hash, t.event.query)))
    else t
  }

  /** The same calls and rebuilds, with the answers of a given worker. */
  function Told(worker: Worker, start: Imports, turns: seq<Turn>): seq<Turn> {
    if turns == [] then []
    else
      var (before, t) := (turns[..|turns| - 1], turns[|turns| - 1]);
      Told(worker, start, before) + [ToldTurn(worker, start, before, t)]
  }

  lemma {:induction false} ToldKeepsShape(worker: Worker, start: Imports, turns: seq<Turn>, path: Path, hash: Hash, q: Query)
    ensures |Told(worker, start, turns)| == |turns|
    ensures forall k :: 0 <= k <= |turns| ==> Told(worker, start, turns)[..k] == Told(worker, start, turns[..k])
    ensures ImportsAfter(start, Told(worker, start, turns)) == ImportsAfter(start, turns)
    ensures LastRan(Told(worker, start, turns), path, hash, q) == LastRan(turns, path, hash, q)
  {
    if turns != [] {
      var (before, told) := (turns[..|turns| - 1], Told(worker, start, turns));
      ToldKeepsShape(worker, start, before, path, hash, q);
      assert told[..|told| - 1] == Told(worker, start, before);
      forall k | 0 <= k <= |turns| ensures told[..k] == Told(worker, start, turns[..k]) {
        if k < |turns| {
          assert before[..k] == turns[..k];
          assert told[..k] == told[..|told| - 1][..k];
        } else {
          assert turns[..k] == turns && told[..k] == told;
        }
      }
    }
  }

  lemma ToldImports(worker: Worker, start: Imports, turns: seq<Turn>, k: nat)
    requires k <= |turns|
    ensures |Told(worker, start, turns)| == |turns|
    ensures ImportsAfter(start, Told(worker, start, turns)[..k]) == ImportsAfter(start, turns[..k])
  {
    ToldKeepsShape(worker, start, turns, "", [], Diagnostics);
    ToldKeepsShape(worker, start, turns[..k], "", [], Diagnostics);
  }

  lemma {:induction false} ToldTurnAt(worker: Worker, start: Imports, turns: seq<Turn>, i: nat)
    requires i < |turns|
    ensures |Told(worker, start, turns)| == |turns|
    ensures Told(worker, start, turns)[i] == ToldTurn(worker, start, turns[..i], turns[i])
  {
    ToldKeepsShape(worker, start, turns, "", [], Diagnostics);
    var upTo := turns[..i + 1];
    assert upTo[..|upTo| - 1] == turns[..i];
    assert Told(worker, start, turns)[..i + 1] == Told(worker, start, upTo);
    assert Told(worker, start, turns)[..i + 1][i] == Told(worker, start, turns)[i];
    ToldKeepsShape(worker, start, turns[..i], "", [], Diagnostics);
  }

  lemma ToldIsHonest(worker: Worker, start: Imports, turns: seq<Turn>)
    requires Timed(turns)
    ensures Honest(worker, start, Told(worker, start, turns))
  {
    var told := Told(worker, start, turns);
    ToldKeepsShape(worker, start, turns, "", [], Diagnostics);
    forall i | 0 <= i < |told| && told[i].Cached? && told[i].event.Answer?
      ensures told[i].ran <= i
      ensures told[i].event.value
           == AnswerAt(worker, start, told, told[i].ran, told[i].event.path, told[i].event.hash, told[i].event.query)
    {
      ToldTurnAt(worker, start, turns, i);
      assert turns[..i][..turns[i].ran] == turns[..turns[i].ran];
      ToldImports(worker, start, turns, turns[i].ran);
    }
  }

  lemma EventsStep(cap: Positive, encode: Encoder, before: seq<Turn>, t: Turn)
    ensures Run(cap, encode, EventsOf(before + [t]))
            == if t.Cached? then Step(cap, encode, Run(cap, encode, EventsOf(before)), t.event)
               else Run(cap, encode, EventsOf(before))
  {
    var (turns, events) := (before + [t], EventsOf(before + [t]));
    assert turns[..|turns| - 1] == before;
    if t.Cached? {
      assert events[..|events| - 1] == EventsOf(before);
    } else {
      assert events == EventsOf(before);
    }
  }

  /** One event of the same question in two caches that hold the same keys. */
  lemma StepSameKeys(cap: Positive, encode: Encoder, c: Caches, d: Caches, e: Event, v: Outcome)
    requires SameKeys(c.single, d.single)
    ensures SameKeys(Step(cap, encode, c, if e.Answer? then e.(value := v) else e).single, Step(cap, encode, d, e).single)
  {
    match e
    case Ask(p, h, q) => if FromQuery(q).Some? { SameKeysTouch(c.single, d.single, CacheKey(p, h, FromQuery(q).value)); }
    case Answer(p, h, q, w) =>
      if FromQuery(q).Some? { SameKeysPut(c.single, d.single, cap, CacheKey(p, h, FromQuery(q).value), v, w); }
    case _ =>
  }

  /** Which questions have an answer in the cache does not depend on the worker. */
  lemma {:induction false} ToldSameKeys(cap: Positive, encode: Encoder, worker: Worker, start: Imports, turns: seq<Turn>)
    ensures SameKeys(Run(cap, encode, EventsOf(Told(worker, start, turns))).single, Run(cap, encode, EventsOf(turns)).single)
  {
    if turns != [] {
      var (before, t) := (turns[..|turns| - 1], turns[|turns| - 1]);
      var told := ToldTurn(worker, start, before, t);
      ToldSameKeys(cap, encode, worker, start, before);
      assert turns == before + [t];
      EventsStep(cap, encode, before, t);
      EventsStep(cap, encode, Told(worker, start, before), told);
      if t.Cached? {
        StepSameKeys(cap, encode, Run(cap, encode, EventsOf(Told(worker, start, before))), Run(cap, encode, EventsOf(before)),
                     t.event, if t.event.Answer? then told.event.value else Outcome(""));
      }
    }
  }

  /** What the cache answers to a question after a run. */
  function HitAfter(cap: Positive, encode: Encoder, turns: seq<Turn>, path: Path, hash: Hash, q: Query): Option<Outcome> {
    GetSingle(Run(cap, encode, EventsOf(turns)), path, hash, q).1
  }

  /** Whatever the worker, the hit is what it would answer now. */
  ghost predicate AlwaysCurrent(cap: Positive, encode: Encoder, start: Imports, turns: seq<Turn>, path: Path, hash: Hash,
                                q: Query) {
    forall worker: Worker ::
      HitAfter(cap, encode, Told(worker, start, turns), path, hash, q)
      == Some(worker(path, hash, q, ImportsAfter(start, turns)))
  }

  lemma ToldHit(cap: Positive, encode: Encoder, worker: Worker, start: Imports, turns: seq<Turn>, path: Path, hash: Hash,
                q: Query)
    requires Timed(turns) && HitAfter(cap, encode, turns, path, hash, q).Some?
    ensures LastRan(turns, path, hash, q).Some? && LastRan(turns, path, hash, q).value <= |turns|
    ensures HitAfter(cap, encode, Told(worker, start, turns), path, hash, q)
            == Some(worker(path, hash, q, ImportsAfter(start, turns[..LastRan(turns, path, hash, q).value])))
  {
    var told := Told(worker, start, turns);
    ToldKeepsShape(worker, start, turns, path, hash, q);
    ToldIsHonest(worker, start, turns);
    ToldSameKeys(cap, encode, worker, start, turns);
    SameKeysTouch(Run(cap, encode, EventsOf(told)).single, Run(cap, encode, EventsOf(turns)).single,
                  CacheKey(path, hash, FromQuery(q).value));
    HitIsLastAnswer(cap, encode, EventsOf(told), path, hash, q);
    LastAnswerRan(worker, start, told, path, hash, q);
    ToldImports(worker, start, turns, LastRan(turns, path, hash, q).value);
  }

  /**
   The same calls and rebuilds on any worker: a hit is sure to be current exactly
   when the imports are again as they were when the worker last ran for it.
   */
  lemma SurelyCurrentExactly(cap: Positive, encode: Encoder, start: Imports, turns: seq<Turn>, path: Path, hash: Hash,
                             q: Query)
    requires Timed(turns) && HitAfter(cap, encode, turns, path, hash, q).Some?
    ensures LastRan(turns, path, hash, q).Some? && LastRan(turns, path, hash, q).value <= |turns|
    ensures AlwaysCurrent(cap, encode, start, turns, path, hash, q) <==>
            ImportsAfter(start, turns[..LastRan(turns, path, hash, q).value]) == ImportsAfter(start, turns)
  {
    var now := ImportsAfter(start, turns);
    var telling: Worker := (p, h, k, imports) => Outcome(if imports == now then "now" else "then");
    ToldHit(cap, encode, telling, start, turns, path, hash, q);
    if ImportsAfter(start, turns[..LastRan(turns, path, hash, q).value]) == now {
      forall worker: Worker
        ensures HitAfter(cap, encode, Told(worker, start, turns), path, hash, q) == Some(worker(path, hash, q, now))
      {
        ToldHit(cap, encode, worker, start, turns, path, hash, q);
      }
    } else {
      assert HitAfter(cap, encode, Told(telling, start, turns), path, hash, q) == Some(Outcome("then"));
      assert telling(path, hash, q, now) == Outcome("now") && "now"[0] != "then"[0];
    }
  }
}
