/**
 The recency lists of the server: the child's session pool, the actor's shadow
 of it, the broker's registry and both query caches. The least recently used
 entry is at the front, the most recently used at the back.
 */
module Lru {
  import opened Wrappers

  datatype Entry<+K, +V> = Entry(key: K, value: V)

  type Recency<+K, +V> = seq<Entry<K, V>>

  /** Position of `k`, or the length when it is absent. */
  function Find<K(==), V>(s: Recency<K, V>, k: K): (i: nat)
    ensures i <= |s|
    ensures i < |s| ==> s[i].key == k
    ensures forall j :: 0 <= j < i ==> s[j].key != k
  {
    if s == [] || s[0].key == k then 0 else 1 + Find(s[1..], k)
  }

  predicate Has<K(==), V>(s: Recency<K, V>, k: K) {
    Find(s, k) < |s|
  }

  function Get<K(==), V>(s: Recency<K, V>, k: K): Option<V> {
    var i := Find(s, k);
    if i < |s| then Some(s[i].value) else None
  }

  function Without<K(==), V>(s: Recency<K, V>, k: K): Recency<K, V> {
    var i := Find(s, k);
    if i < |s| then s[..i] + s[i + 1..] else s
  }

  /** The `n` most recently used entries. */
  function Newest<K, V>(s: Recency<K, V>, n: nat): Recency<K, V> {
    if |s| > n then s[|s| - n..] else s
  }

  /** What is left of `s` once room has been made for an entry for `k`. */
  function Rest<K(==), V>(s: Recency<K, V>, cap: nat, k: K): Recency<K, V>
    requires cap >= 1
  {
    if Has(s, k) then Without(s, k) else Newest(s, cap - 1)
  }

  /** Insert or refresh `k`, evicting from the front when the list is full. */
  function Put<K(==), V>(s: Recency<K, V>, cap: nat, k: K, v: V): Recency<K, V>
    requires cap >= 1
  {
    Rest(s, cap, k) + [Entry(k, v)]
  }

  /** A lookup that refreshes the entry it finds. */
  function Touch<K(==), V>(s: Recency<K, V>, k: K): Recency<K, V> {
    match Get(s, k)
    case None => s
    case Some(v) => Without(s, k) + [Entry(k, v)]
  }

  ghost predicate Distinct<K, V>(s: Recency<K, V>) {
    forall i, j :: 0 <= i < j < |s| ==> s[i].key != s[j].key
  }

  /** `a` runs along the most recent entries of `b`: the same keys in the same order, values related by `rel`. */
  ghost predicate Mirrors<K(!new), V(!new), W(!new)>(a: Recency<K, V>, b: Recency<K, W>, rel: (V, W) -> bool) {
    && |a| <= |b|
    && (forall i :: 0 <= i < |a| ==> a[i].key == b[|b| - |a| + i].key)
    && (forall i :: 0 <= i < |a| ==> rel(a[i].value, b[|b| - |a| + i].value))
  }

  lemma GetIsMembership<K, V>(s: Recency<K, V>, k: K, v: V)
    requires Distinct(s)
    ensures Get(s, k) == Some(v) <==> Entry(k, v) in s
  {
    if Entry(k, v) in s {
      var i :| 0 <= i < |s| && s[i] == Entry(k, v);
      assert Find(s, k) == i;
    }
  }

  lemma HasIsMembership<K, V>(s: Recency<K, V>, k: K)
    ensures Has(s, k) <==> exists e :: e in s && e.key == k
  {
    if Has(s, k) {
      assert s[Find(s, k)] in s;
    }
  }

  lemma FindAt<K, V>(s: Recency<K, V>, i: nat)
    requires Distinct(s) && i < |s|
    ensures Find(s, s[i].key) == i
  {
  }

  /** Taking out position `i` of a list without duplicates. */
  lemma DropFacts<K, V>(s: Recency<K, V>, i: nat)
    requires Distinct(s) && i < |s|
    ensures Distinct(s[..i] + s[i + 1..])
    ensures forall e :: e in s[..i] + s[i + 1..] <==> e in s && e.key != s[i].key
  {
    var r := s[..i] + s[i + 1..];
    forall e | e in r ensures e in s && e.key != s[i].key {
      var j :| 0 <= j < |r| && r[j] == e;
      assert e == if j < i then s[j] else s[j + 1];
    }
    forall e | e in s && e.key != s[i].key ensures e in r {
      var j :| 0 <= j < |s| && s[j] == e;
      assert e == if j < i then r[j] else r[j - 1];
    }
  }

  lemma RestFacts<K, V>(s: Recency<K, V>, cap: nat, k: K)
    requires cap >= 1 && Distinct(s) && |s| <= cap
    ensures Distinct(Rest(s, cap, k)) && |Rest(s, cap, k)| <= cap - 1
    ensures forall e :: e in Rest(s, cap, k) ==> e in s && e.key != k
    ensures Has(s, k) ==> forall e :: e in s && e.key != k ==> e in Rest(s, cap, k)
  {
    if Has(s, k) {
      DropFacts(s, Find(s, k));
    }
  }

  /** `Put` keeps the list duplicate free and within capacity, and stores what it was given. */
  lemma PutFacts<K, V>(s: Recency<K, V>, cap: nat, k: K, v: V)
    requires cap >= 1 && Distinct(s) && |s| <= cap
    ensures Distinct(Put(s, cap, k, v)) && |Put(s, cap, k, v)| <= cap
    ensures Get(Put(s, cap, k, v), k) == Some(v)
    ensures forall e :: e in Put(s, cap, k, v) <==> e == Entry(k, v) || e in Rest(s, cap, k)
  {
    RestFacts(s, cap, k);
    var r := Rest(s, cap, k);
    var p := Put(s, cap, k, v);
    forall i, j | 0 <= i < j < |p| ensures p[i].key != p[j].key {
      assert p[i] == r[i] && p[i] in r;
    }
    assert p[|p| - 1] == Entry(k, v);
    GetIsMembership(p, k, v);
  }

  lemma TouchFacts<K, V>(s: Recency<K, V>, cap: nat, k: K)
    requires cap >= 1 && Distinct(s) && |s| <= cap
    ensures Distinct(Touch(s, k)) && |Touch(s, k)| <= cap
    ensures forall e :: e in Touch(s, k) <==> e in s
    ensures forall j :: Get(Touch(s, k), j) == Get(s, j)
  {
    match Get(s, k)
    case None =>
    case Some(v) =>
      assert Touch(s, k) == Put(s, cap, k, v);
      PutFacts(s, cap, k, v);
      RestFacts(s, cap, k);
      assert Entry(k, v) in s by { GetIsMembership(s, k, v); }
      forall e | e in s ensures e in Touch(s, k) {
        if e.key == k { GetIsMembership(s, k, e.value); }
      }
      forall j ensures Get(Touch(s, k), j) == Get(s, j) {
        SameMembersSameGet(Touch(s, k), s, j);
      }
  }

  lemma SameMembersSameGet<K, V>(s: Recency<K, V>, t: Recency<K, V>, k: K)
    requires Distinct(s) && Distinct(t)
    requires forall e :: e in s <==> e in t
    ensures Get(s, k) == Get(t, k)
  {
    if Get(s, k).Some? { GetIsMembership(s, k, Get(s, k).value); GetIsMembership(t, k, Get(s, k).value); }
    if Get(t, k).Some? { GetIsMembership(t, k, Get(t, k).value); GetIsMembership(s, k, Get(t, k).value); }
  }

  lemma WithoutAt<K, V>(s: Recency<K, V>, k: K, i: nat)
    requires i < |s| && Find(s, k) == i
    ensures Without(s, k) == s[..i] + s[i + 1..]
  {
  }

  lemma RestOfHeld<K(!new), V(!new), W(!new)>(
      pool: Recency<K, V>, seen: Recency<K, W>, rel: (V, W) -> bool, k: K, i: nat, j: nat)
    requires Mirrors(pool, seen, rel) && i < |pool| && j == |seen| - |pool| + i
    requires Find(pool, k) == i && Find(seen, k) == j
    ensures Mirrors(Without(pool, k), Without(seen, k), rel)
  {
    WithoutAt(pool, k, i);
    WithoutAt(seen, k, j);
    MirrorSkip(pool, seen, rel, i);
  }

  lemma RestOfSeen<K(!new), V(!new), W(!new)>(
      pool: Recency<K, V>, seen: Recency<K, W>, rel: (V, W) -> bool, k: K, j: nat)
    requires Mirrors(pool, seen, rel) && Find(seen, k) == j && j < |seen| - |pool|
    ensures Mirrors(pool, Without(seen, k), rel)
  {
    WithoutAt(seen, k, j);
    MirrorDropAbove(pool, seen, rel, j);
  }

  /**
   Two recency lists of one capacity that see the same keys stay aligned: if
   `pool` mirrors the recent end of `seen`, it still does after both made room
   for `k`, whichever of the two held it and whichever had to evict.
   */
  lemma RestKeepsMirror<K(!new), V(!new), W(!new)>(
      pool: Recency<K, V>, seen: Recency<K, W>, rel: (V, W) -> bool, cap: nat, k: K)
    requires cap >= 1 && |seen| <= cap
    requires Distinct(pool) && Distinct(seen)
    requires Mirrors(pool, seen, rel)
    ensures Mirrors(Rest(pool, cap, k), Rest(seen, cap, k), rel)
  {
    if Has(pool, k) {
      MirrorFind(pool, seen, rel, Find(pool, k));
      RestOfHeld(pool, seen, rel, k, Find(pool, k), Find(seen, k));
    } else if Has(seen, k) {
      MirrorFindAbove(pool, seen, rel, k);
      RestOfSeen(pool, seen, rel, k, Find(seen, k));
    } else {
      MirrorNewest(pool, seen, rel, cap - 1);
    }
  }

  lemma MirrorFind<K(!new), V(!new), W(!new)>(a: Recency<K, V>, b: Recency<K, W>, rel: (V, W) -> bool, i: nat)
    requires Mirrors(a, b, rel) && Distinct(b) && i < |a|
    ensures Find(b, a[i].key) == |b| - |a| + i
  {
    FindAt(b, |b| - |a| + i);
  }

  lemma MirrorFindAbove<K(!new), V(!new), W(!new)>(a: Recency<K, V>, b: Recency<K, W>, rel: (V, W) -> bool, k: K)
    requires Mirrors(a, b, rel) && !Has(a, k) && Has(b, k)
    ensures Find(b, k) < |b| - |a|
  {
    forall y | |b| - |a| <= y < |b| ensures b[y].key != k {
      assert a[y - (|b| - |a|)].key == b[y].key;
    }
  }

  lemma MirrorSkip<K(!new), V(!new), W(!new)>(a: Recency<K, V>, b: Recency<K, W>, rel: (V, W) -> bool, i: nat)
    requires Mirrors(a, b, rel) && i < |a|
    ensures Mirrors(a[..i] + a[i + 1..], b[..|b| - |a| + i] + b[|b| - |a| + i + 1..], rel)
  {
  }

  lemma MirrorDropAbove<K(!new), V(!new), W(!new)>(a: Recency<K, V>, b: Recency<K, W>, rel: (V, W) -> bool, j: nat)
    requires Mirrors(a, b, rel) && j < |b| - |a|
    ensures Mirrors(a, b[..j] + b[j + 1..], rel)
  {
  }

  lemma MirrorNewest<K(!new), V(!new), W(!new)>(a: Recency<K, V>, b: Recency<K, W>, rel: (V, W) -> bool, n: nat)
    requires Mirrors(a, b, rel)
    ensures Mirrors(Newest(a, n), Newest(b, n), rel)
  {
    var (x, y) := (Newest(a, n), Newest(b, n));
    forall i | 0 <= i < |x| ensures x[i].key == y[|y| - |x| + i].key && rel(x[i].value, y[|y| - |x| + i].value) {
      assert x[i] == a[|a| - |x| + i] && y[|y| - |x| + i] == b[|b| - |x| + i];
    }
  }

  lemma MirrorPush<K(!new), V(!new), W(!new)>(
      a: Recency<K, V>, b: Recency<K, W>, rel: (V, W) -> bool, k: K, v: V, w: W)
    requires Mirrors(a, b, rel) && rel(v, w)
    ensures Mirrors(a + [Entry(k, v)], b + [Entry(k, w)], rel)
  {
  }

  /** A list that mirrors a duplicate-free list is duplicate free. */
  lemma MirrorDistinct<K(!new), V(!new), W(!new)>(a: Recency<K, V>, b: Recency<K, W>, rel: (V, W) -> bool)
    requires Mirrors(a, b, rel) && Distinct(b)
    ensures Distinct(a)
  {
    forall i, j | 0 <= i < j < |a| ensures a[i].key != a[j].key {
      assert b[|b| - |a| + i].key != b[|b| - |a| + j].key;
    }
  }

  /** What a mirrored entry corresponds to is found by key. */
  lemma MirrorGet<K(!new), V(!new), W(!new)>(a: Recency<K, V>, b: Recency<K, W>, rel: (V, W) -> bool, k: K)
    requires Mirrors(a, b, rel) && Distinct(b) && Has(a, k)
    ensures Has(b, k) && rel(Get(a, k).value, Get(b, k).value)
  {
    var i := Find(a, k);
    assert Find(b, k) == |b| - |a| + i;
  }

  /** `k` was used and after it exactly the keys of `since`: they stand behind it, or have pushed it out. */
  ghost predicate UsedBefore<K(!new), V(!new)>(s: Recency<K, V>, cap: nat, k: K, since: set<K>) {
    if |since| < cap then StandsBefore(s, k, since) else !Has(s, k)
  }

  ghost predicate StandsBefore<K(!new), V(!new)>(s: Recency<K, V>, k: K, since: set<K>) {
    && |s| > |since|
    && s[|s| - 1 - |since|].key == k
    && KeySet(s[|s| - |since|..]) == since
  }

  ghost function KeySet<K(!new), V(!new)>(s: Recency<K, V>): set<K> {
    set e | e in s :: e.key
  }

  lemma KeySetSnoc<K(!new), V(!new)>(t: Recency<K, V>, e: Entry<K, V>)
    ensures KeySet(t + [e]) == KeySet(t) + {e.key}
  {
    assert forall x :: x in t + [e] <==> x in t || x == e;
    forall k ensures k in KeySet(t + [e]) <==> k in KeySet(t) + {e.key} {
      if k == e.key { assert e in t + [e]; }
    }
  }

  lemma KeySetDrop<K(!new), V(!new)>(t: Recency<K, V>, i: nat)
    requires Distinct(t) && i < |t|
    ensures KeySet(t[..i] + t[i + 1..]) == KeySet(t) - {t[i].key}
  {
    DropFacts(t, i);
  }

  lemma KeySetHas<K(!new), V(!new)>(s: Recency<K, V>, n: nat, k: K)
    requires n <= |s| && !Has(s, k)
    ensures k !in KeySet(s[n..])
  {
    HasIsMembership(s, k);
    assert forall e :: e in s[n..] ==> e in s;
  }

  lemma AbsentFromPut<K, V>(s: Recency<K, V>, cap: nat, k: K, u: K, v: V)
    requires cap >= 1 && Distinct(s) && |s| <= cap && !Has(s, k) && u != k
    ensures !Has(Put(s, cap, u, v), k)
  {
    PutFacts(s, cap, u, v);
    RestFacts(s, cap, u);
    HasIsMembership(s, k);
    HasIsMembership(Put(s, cap, u, v), k);
  }

  /** A new entry at the back, with `n` old ones pushed out. */
  lemma AddedBehind<K(!new), V(!new)>(s: Recency<K, V>, n: nat, k: K, since: set<K>, u: K, v: V)
    requires StandsBefore(s, k, since) && u != k && !Has(s, u)
    requires n < |s| - |since|
    ensures StandsBefore(s[n..] + [Entry(u, v)], k, since + {u})
  {
    var p := s[n..] + [Entry(u, v)];
    KeySetHas(s, |s| - |since|, u);
    KeySetSnoc(s[|s| - |since|..], Entry(u, v));
    assert |since + {u}| == |since| + 1;
    assert p[|p| - 1 - |since|..] == s[|s| - |since|..] + [Entry(u, v)];
  }

  lemma TailOfDropped<T>(s: seq<T>, n: nat, i: nat)
    requires n <= i < |s|
    ensures (s[..i] + s[i + 1..])[n..] == s[n..][..i - n] + s[n..][i - n + 1..]
    ensures s[n..][i - n] == s[i]
    ensures n > 0 ==> (s[..i] + s[i + 1..])[n - 1] == s[n - 1]
  {
  }

  lemma TailDistinct<K, V>(s: Recency<K, V>, n: nat)
    requires Distinct(s) && n <= |s|
    ensures Distinct(s[n..])
  {
  }

  lemma CountLess<K>(since: set<K>, u: K)
    ensures |since - {u}| == if u in since then |since| - 1 else |since|
    ensures |since + {u}| == if u in since then |since| else |since| + 1
  {
    assert u !in since ==> since - {u} == since;
    assert u in since ==> since + {u} == since;
  }

  lemma DropTailKeys<K(!new), V(!new)>(s: Recency<K, V>, n: nat, i: nat)
    requires Distinct(s) && n <= i < |s|
    ensures s[i].key in KeySet(s[n..])
    ensures KeySet((s[..i] + s[i + 1..])[n..]) == KeySet(s[n..]) - {s[i].key}
  {
    TailOfDropped(s, n, i);
    TailDistinct(s, n);
    KeySetDrop(s[n..], i - n);
    assert s[n..][i - n] in s[n..];
  }

  lemma DropTail<K(!new), V(!new)>(s: Recency<K, V>, i: nat, k: K, since: set<K>)
    requires Distinct(s) && StandsBefore(s, k, since)
    requires |s| - |since| <= i < |s|
    ensures StandsBefore(s[..i] + s[i + 1..], k, since - {s[i].key})
  {
    var (n, rest, r) := (|s| - |since|, since - {s[i].key}, s[..i] + s[i + 1..]);
    DropTailKeys(s, n, i);
    CountLess(since, s[i].key);
    assert |r| == |s| - 1 && |r| - |rest| == n;
    assert r[n - 1] == s[n - 1];
    assert KeySet(r[|r| - |rest|..]) == rest;
  }

  lemma DropAhead<K(!new), V(!new)>(s: Recency<K, V>, i: nat, k: K, since: set<K>)
    requires StandsBefore(s, k, since)
    requires i < |s| - 1 - |since|
    ensures StandsBefore(s[..i] + s[i + 1..], k, since)
  {
    var r := s[..i] + s[i + 1..];
    assert r[|r| - |since|..] == s[|s| - |since|..];
  }

  /** Moving an entry to the back puts it behind `k` and nothing else. */
  lemma MovedBehind<K(!new), V(!new)>(s: Recency<K, V>, i: nat, k: K, since: set<K>, u: K, v: V)
    requires Distinct(s) && StandsBefore(s, k, since) && u != k
    requires i < |s| && s[i].key == u
    ensures StandsBefore(s[..i] + s[i + 1..] + [Entry(u, v)], k, since + {u})
  {
    var r := s[..i] + s[i + 1..];
    DroppedIsGone(s, i);
    assert r[0..] == r;
    if i < |s| - 1 - |since| {
      DropAhead(s, i, k, since);
      AddedBehind(r, 0, k, since, u, v);
    } else {
      DropTail(s, i, k, since);
      AddedBehind(r, 0, k, since - {u}, u, v);
      assert since - {u} + {u} == since + {u};
    }
  }

  lemma DroppedIsGone<K(!new), V(!new)>(s: Recency<K, V>, i: nat)
    requires Distinct(s) && i < |s|
    ensures !Has(s[..i] + s[i + 1..], s[i].key)
  {
    DropFacts(s, i);
    HasIsMembership(s[..i] + s[i + 1..], s[i].key);
  }

  /** A new entry in a list with `k` still held. */
  lemma AddedOnce<K(!new), V(!new)>(s: Recency<K, V>, cap: nat, k: K, since: set<K>, u: K, v: V)
    requires Distinct(s) && |s| <= cap && u != k && !Has(s, u)
    requires |since| < cap && StandsBefore(s, k, since)
    ensures UsedBefore(Newest(s, cap - 1) + [Entry(u, v)], cap, k, since + {u})
  {
    var n := if |s| < cap then 0 else 1;
    assert Newest(s, cap - 1) == s[n..];
    KeySetHas(s, |s| - |since|, u);
    CountLess(since, u);
    if n < |s| - |since| {
      AddedBehind(s, n, k, since, u, v);
    } else {
      HasIsMembership(s[1..] + [Entry(u, v)], k);
    }
  }

  /** One more use: `k` stays exactly while fewer than `cap` other keys were used since. */
  lemma UseOnce<K(!new), V(!new)>(s: Recency<K, V>, cap: nat, k: K, since: set<K>, u: K, v: V)
    requires cap >= 1 && Distinct(s) && |s| <= cap && u != k
    requires UsedBefore(s, cap, k, since)
    ensures UsedBefore(Put(s, cap, u, v), cap, k, since + {u})
  {
    CountLess(since, u);
    if |since| >= cap {
      AbsentFromPut(s, cap, k, u, v);
    } else if Has(s, u) {
      MovedBehind(s, Find(s, u), k, since, u, v);
    } else {
      AddedOnce(s, cap, k, since, u, v);
    }
  }

  lemma UsedBeforeSaysHeld<K(!new), V(!new)>(s: Recency<K, V>, cap: nat, k: K, since: set<K>)
    requires UsedBefore(s, cap, k, since)
    ensures Has(s, k) <==> |since| < cap
  {
    if |since| < cap {
      HasIsMembership(s, k);
      assert s[|s| - 1 - |since|] in s;
    }
  }

  lemma PutUses<K(!new), V(!new)>(s: Recency<K, V>, cap: nat, k: K, v: V)
    requires cap >= 1
    ensures UsedBefore(Put(s, cap, k, v), cap, k, {})
  {
  }

  lemma PutKeepsOthers<K(!new), V(!new)>(s: Recency<K, V>, cap: nat, k: K, v: V, j: K)
    requires cap >= 1 && Distinct(s) && |s| <= cap && j != k
    ensures Get(Put(s, cap, k, v), j) == Get(s, j) || Get(Put(s, cap, k, v), j).None?
  {
    var p := Put(s, cap, k, v);
    PutFacts(s, cap, k, v);
    RestFacts(s, cap, k);
    if Get(p, j).Some? {
      GetIsMembership(p, j, Get(p, j).value);
      GetIsMembership(s, j, Get(p, j).value);
    }
  }

  /** The same keys in the same order, whatever they hold. */
  ghost predicate SameKeys<K, V>(s: Recency<K, V>, t: Recency<K, V>) {
    |s| == |t| && forall i :: 0 <= i < |s| ==> s[i].key == t[i].key
  }

  lemma SameKeysFind<K, V>(s: Recency<K, V>, t: Recency<K, V>, k: K)
    requires SameKeys(s, t)
    ensures Find(s, k) == Find(t, k)
  {
    var i := Find(s, k);
    assert i < |s| ==> t[i].key == k;
    forall j | 0 <= j < i ensures t[j].key != k { assert s[j].key != k; }
  }

  lemma SameKeysWithout<K, V>(s: Recency<K, V>, t: Recency<K, V>, k: K)
    requires SameKeys(s, t)
    ensures SameKeys(Without(s, k), Without(t, k))
  {
    SameKeysFind(s, t, k);
    var (i, r, u) := (Find(s, k), Without(s, k), Without(t, k));
    if i < |s| {
      forall x | 0 <= x < |r| ensures r[x].key == u[x].key {
        assert if x < i then r[x] == s[x] && u[x] == t[x] else r[x] == s[x + 1] && u[x] == t[x + 1];
      }
    }
  }

  lemma SameKeysPut<K, V>(s: Recency<K, V>, t: Recency<K, V>, cap: nat, k: K, v: V, w: V)
    requires cap >= 1 && SameKeys(s, t)
    ensures SameKeys(Put(s, cap, k, v), Put(t, cap, k, w))
  {
    SameKeysFind(s, t, k);
    SameKeysWithout(s, t, k);
    assert SameKeys(Rest(s, cap, k), Rest(t, cap, k));
  }

  lemma SameKeysTouch<K, V>(s: Recency<K, V>, t: Recency<K, V>, k: K)
    requires SameKeys(s, t)
    ensures SameKeys(Touch(s, k), Touch(t, k)) && Get(s, k).Some? == Get(t, k).Some?
  {
    SameKeysFind(s, t, k);
    SameKeysWithout(s, t, k);
  }
}
