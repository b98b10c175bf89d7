/**
 Layering of configuration files: a deep merge of TOML values, the later layer on
 top. A value is looked up by its path of keys.
 */
module ConfigMerge {
  import opened Wrappers
  import opened Lru

  datatype Toml = Scalar(text: string) | Table(entries: seq<Member>)

  type Member = Entry<string, Toml>

  /** Two tables merge key by key; anything else is replaced wholesale. */
  function Merge(base: Toml, overlay: Toml): Toml
    decreases overlay, if overlay.Table? then |overlay.entries| + 1 else 0
  {
    if base.Table? && overlay.Table? then Table(MergeFirst(base.entries, overlay, |overlay.entries|)) else overlay
  }

  /** The base once the first `n` entries of the overlay are on it. */
  function MergeFirst(base: seq<Member>, overlay: Toml, n: nat): seq<Member>
    requires overlay.Table? && n <= |overlay.entries|
    decreases overlay, n
  {
    if n == 0 then base
    else
      var (below, e) := (MergeFirst(base, overlay, n - 1), overlay.entries[n - 1]);
      var i := Find(below, e.key);
      if i < |below| then below[i := Entry(e.key, Merge(below[i].value, e.value))] else below + [e]
  }

  /** One entry at a time, each into its slot. */
  method MergeToml(base: Toml, overlay: Toml) returns (merged: Toml)
    ensures merged == Merge(base, overlay)
    decreases overlay
  {
    if !base.Table? || !overlay.Table? {
      return overlay;
    }
    var slots := base.entries;
    for n := 0 to |overlay.entries|
      invariant slots == MergeFirst(base.entries, overlay, n)
    {
      var e := overlay.entries[n];
      var i := Find(slots, e.key);
      if i < |slots| {
        var value := MergeToml(slots[i].value, e.value);
        slots := slots[i := Entry(e.key, value)];
      } else {
        slots := slots + [e];
      }
    }
    merged := Table(slots);
  }

  /** Home first, then the nearest local file; a file that is missing or malformed adds nothing. */
  method Load(home: Option<Toml>, local: Option<Toml>) returns (merged: Toml)
    ensures merged == Layered(home, local)
  {
    merged := Table([]);
    if home.Some? {
      merged := MergeToml(merged, home.value);
    }
    if local.Some? {
      merged := MergeToml(merged, local.value);
    }
  }

  function Layered(home: Option<Toml>, local: Option<Toml>): Toml {
    var first := if home.Some? then Merge(Table([]), home.value) else Table([]);
    if local.Some? then Merge(first, local.value) else first
  }

  // --- what stands at a path --------------------------------------------------------------

  /** No table holds a key twice. */
  ghost predicate Proper(t: Toml) {
    t.Table? ==>
      && Distinct(t.entries)
      && (forall i :: 0 <= i < |t.entries| ==> Proper(t.entries[i].value))
  }

  datatype Sight = Leaf(text: string) | Inner | CutOff | Absent

  /** What a walk along a path meets: a value, a table, a value too early, or a missing key. */
  function Look(t: Toml, path: seq<string>): Sight
    decreases |path|
  {
    if t.Scalar? then if path == [] then Leaf(t.text) else CutOff
    else if path == [] then Inner
    else
      var next := Get(t.entries, path[0]);
      if next.None? then Absent else Look(next.value, path[1..])
  }

  function LeafAt(t: Toml, path: seq<string>): Option<string> {
    var s := Look(t, path);
    if s.Leaf? then Some(s.text) else None
  }

  lemma {:induction false} GetIs(ms: seq<Member>, i: nat)
    requires i < |ms| && Distinct(ms)
    ensures Find(ms, ms[i].key) == i
  {
  }

  /** The first position of a key is told by the keys alone. */
  lemma FindIs(ms: seq<Member>, k: string, i: nat)
    requires i <= |ms| && (i < |ms| ==> ms[i].key == k) && forall j :: 0 <= j < i ==> ms[j].key != k
    ensures Find(ms, k) == i
  {
  }

  lemma FindUpdated(ms: seq<Member>, i: nat, v: Toml, k: string)
    requires i < |ms|
    ensures Find(ms[i := Entry(ms[i].key, v)], k) == Find(ms, k)
  {
    var updated := ms[i := Entry(ms[i].key, v)];
    assert forall j :: 0 <= j < |ms| ==> updated[j].key == ms[j].key;
    FindIs(updated, k, Find(ms, k));
  }

  lemma FindAppended(ms: seq<Member>, e: Member, k: string)
    requires Find(ms, e.key) == |ms|
    ensures Find(ms + [e], k) == if k == e.key then |ms| else if Find(ms, k) < |ms| then Find(ms, k) else |ms| + 1
  {
    var all := ms + [e];
    assert forall j :: 0 <= j < |ms| ==> all[j].key == ms[j].key;
    FindIs(all, k, if k == e.key then |ms| else if Find(ms, k) < |ms| then Find(ms, k) else |ms| + 1);
  }

  /** The entries after one more entry of an overlay. */
  function Put(below: seq<Member>, e: Member, merged: Toml): seq<Member> {
    var i := Find(below, e.key);
    if i < |below| then below[i := Entry(e.key, merged)] else below + [e]
  }

  lemma PutGet(below: seq<Member>, e: Member, merged: Toml, k: string)
    ensures Get(Put(below, e, merged), k) ==
            if k != e.key then Get(below, k) else if Get(below, k).Some? then Some(merged) else Some(e.value)
  {
    var i := Find(below, e.key);
    if i < |below| {
      FindUpdated(below, i, merged, k);
    } else {
      FindAppended(below, e, k);
    }
  }

  /** What the first `n` entries of an overlay make of a key. */
  lemma {:induction false} MergedKey(base: seq<Member>, overlay: Toml, n: nat, k: string)
    requires overlay.Table? && n <= |overlay.entries| && Distinct(overlay.entries)
    ensures var i := Find(overlay.entries, k);
            Get(MergeFirst(base, overlay, n), k) ==
            if i >= n then Get(base, k)
            else Some(if Get(base, k).Some? then Merge(Get(base, k).value, overlay.entries[i].value) else overlay.entries[i].value)
    decreases n
  {
    if n > 0 {
      var (below, e) := (MergeFirst(base, overlay, n - 1), overlay.entries[n - 1]);
      MergedKey(base, overlay, n - 1, k);
      MergedKey(base, overlay, n - 1, e.key);
      GetIs(overlay.entries, n - 1);
      var i := Find(below, e.key);
      PutGet(below, e, if i < |below| then Merge(below[i].value, e.value) else e.value, k);
    }
  }

  /**
   The overlay law, for every path: a value of the overlay wins; a path the
   overlay ends in a table or cuts short has no value; any other path keeps the
   value it has below.
   */
  lemma {:induction false} OverlayLaw(base: Toml, overlay: Toml, path: seq<string>)
    requires Proper(overlay)
    ensures LeafAt(Merge(base, overlay), path) ==
            match Look(overlay, path)
            case Leaf(text) => Some(text)
            case Inner => None
            case CutOff => None
            case Absent => LeafAt(base, path)
    decreases |path|
  {
    if base.Table? && overlay.Table? && path != [] {
      MergedKey(base.entries, overlay, |overlay.entries|, path[0]);
      var (b, o) := (Get(base.entries, path[0]), Get(overlay.entries, path[0]));
      if b.Some? && o.Some? {
        OverlayLaw(b.value, o.value, path[1..]);
      }
    }
  }

  /** Home under local, path by path: a local value wins, a path local says nothing about keeps home's value. */
  lemma LayersExactly(home: Option<Toml>, local: Option<Toml>, path: seq<string>)
    requires (home.Some? ==> Proper(home.value)) && (local.Some? ==> Proper(local.value))
    requires path != []
    ensures LeafAt(Layered(home, local), path) ==
            if local.Some? && !Look(local.value, path).Absent? then LeafAt(local.value, path)
            else if home.Some? then LeafAt(home.value, path)
            else None
  {
    assert LeafAt(Table([]), path) == None;
    if home.Some? { OverlayLaw(Table([]), home.value, path); }
    if local.Some? { OverlayLaw(if home.Some? then Merge(Table([]), home.value) else Table([]), local.value, path); }
  }

  // --- the same layer twice ---------------------------------------------------------------

  /** Every entry already stands in its slot as the overlay would leave it. */
  ghost predicate Settled(ms: seq<Member>, overlay: Toml, n: nat)
    requires overlay.Table? && n <= |overlay.entries|
  {
    forall i :: 0 <= i < n ==>
      var e := overlay.entries[i];
      Find(ms, e.key) < |ms| && Merge(ms[Find(ms, e.key)].value, e.value) == ms[Find(ms, e.key)].value
  }

  lemma {:induction false} SettledStays(ms: seq<Member>, overlay: Toml, n: nat)
    requires overlay.Table? && n <= |overlay.entries| && Settled(ms, overlay, n)
    ensures MergeFirst(ms, overlay, n) == ms
    decreases n
  {
    if n > 0 {
      SettledStays(ms, overlay, n - 1);
      var e := overlay.entries[n - 1];
      var i := Find(ms, e.key);
      assert ms[i := Entry(e.key, ms[i].value)] == ms;
    }
  }

  /** A layer applied twice is a layer applied once. */
  lemma {:induction false} MergeIsIdempotent(base: Toml, overlay: Toml)
    requires Proper(overlay)
    ensures Merge(Merge(base, overlay), overlay) == Merge(base, overlay)
    decreases overlay
  {
    if overlay.Table? {
      var n := |overlay.entries|;
      var ms := if base.Table? then MergeFirst(base.entries, overlay, n) else overlay.entries;
      forall i | 0 <= i < n
        ensures var e := overlay.entries[i];
                Find(ms, e.key) < |ms| && Merge(ms[Find(ms, e.key)].value, e.value) == ms[Find(ms, e.key)].value
      {
        var e := overlay.entries[i];
        GetIs(overlay.entries, i);
        if base.Table? {
          MergedKey(base.entries, overlay, n, e.key);
          if Get(base.entries, e.key).Some? {
            MergeIsIdempotent(Get(base.entries, e.key).value, e.value);
          } else {
            MergeWithItself(e.value);
          }
        } else {
          MergeWithItself(e.value);
        }
      }
      SettledStays(ms, overlay, n);
    }
  }

  lemma {:induction false} MergeWithItself(t: Toml)
    requires Proper(t)
    ensures Merge(t, t) == t
    decreases t, 0
  {
    if t.Table? {
      forall i | 0 <= i < |t.entries|
        ensures var e := t.entries[i];
                Find(t.entries, e.key) < |t.entries|
                && Merge(t.entries[Find(t.entries, e.key)].value, e.value) == t.entries[Find(t.entries, e.key)].value
      {
        GetIs(t.entries, i);
        MergeWithItself(t.entries[i].value);
      }
      SettledStays(t.entries, t, |t.entries|);
    }
  }

  // --- proper tables stay proper ----------------------------------------------------------

  ghost predicate AllProper(ms: seq<Member>) {
    Distinct(ms) && forall i :: 0 <= i < |ms| ==> Proper(ms[i].value)
  }

  lemma PutProper(below: seq<Member>, e: Member, merged: Toml)
    requires AllProper(below) && Proper(e.value) && (Find(below, e.key) < |below| ==> Proper(merged))
    ensures AllProper(Put(below, e, merged))
  {
  }

  lemma {:induction false} MergeFirstProper(base: seq<Member>, overlay: Toml, n: nat)
    requires AllProper(base) && overlay.Table? && Proper(overlay) && n <= |overlay.entries|
    ensures AllProper(MergeFirst(base, overlay, n))
    decreases overlay, n
  {
    if n > 0 {
      MergeFirstProper(base, overlay, n - 1);
      var (below, e) := (MergeFirst(base, overlay, n - 1), overlay.entries[n - 1]);
      var i := Find(below, e.key);
      if i < |below| {
        if below[i].value.Table? && e.value.Table? {
          MergeFirstProper(below[i].value.entries, e.value, |e.value.entries|);
        }
        PutProper(below, e, Merge(below[i].value, e.value));
      }
    }
  }

  /** No merge of proper tables holds a key twice, at any depth. */
  lemma MergeKeepsProper(base: Toml, overlay: Toml)
    requires Proper(base) && Proper(overlay)
    ensures Proper(Merge(base, overlay))
  {
    if base.Table? && overlay.Table? {
      MergeFirstProper(base.entries, overlay, |overlay.entries|);
    }
  }

  lemma {:induction false} FirstOntoNothing(t: Toml, n: nat)
    requires t.Table? && Distinct(t.entries) && n <= |t.entries|
    ensures MergeFirst([], t, n) == t.entries[..n]
    decreases n
  {
    if n > 0 {
      FirstOntoNothing(t, n - 1);
      FindIs(t.entries[..n - 1], t.entries[n - 1].key, n - 1);
      assert t.entries[..n - 1] + [t.entries[n - 1]] == t.entries[..n];
    }
  }

  lemma OntoNothing(t: Toml)
    requires Proper(t)
    ensures Merge(Table([]), t) == t
  {
    if t.Table? { FirstOntoNothing(t, |t.entries|); }
  }

  /**
   What is loaded is proper, and is a fixed point: put in place of the home file,
   under the same local file, it loads as itself.
   */
  lemma LoadedIsStable(home: Option<Toml>, local: Option<Toml>)
    requires (home.Some? ==> Proper(home.value)) && (local.Some? ==> Proper(local.value))
    ensures Proper(Layered(home, local))
    ensures Layered(Some(Layered(home, local)), local) == Layered(home, local)
  {
    var first := if home.Some? then Merge(Table([]), home.value) else Table([]);
    if home.Some? { MergeKeepsProper(Table([]), home.value); }
    if local.Some? {
      MergeKeepsProper(first, local.value);
      MergeIsIdempotent(first, local.value);
    }
    OntoNothing(Layered(home, local));
  }
}
