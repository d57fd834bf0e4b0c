/** ResponseCache: a TTL cache with oldest-first eviction, against an unbounded record of what was stored.
    The iteration order of a Go map is unspecified, so every loop over the entries takes the order as a
    parameter and its contract holds for all orders. */
module ResponseCache {
  import opened Options

  datatype Kind = ContainerList | NetworkList | NetworkInspect | ContainerInspect | Untyped

  datatype Entry<V> = Entry(kind: Kind, data: V, timestamp: int, ttl: int)

  type Entries<V> = map<string, Entry<V>>

  /** The typed accessors prefix the key of the inspect kinds. */
  function KeyFor(kind: Kind, id: string): string {
    match kind
    case NetworkInspect => "network_inspect:" + id
    case ContainerInspect => "container_inspect:" + id
    case _ => id
  }

  predicate Live<V>(e: Entry<V>, now: int) { now - e.timestamp <= e.ttl }

  /** GetOrCompute takes any kind; the typed accessors only their own. */
  predicate Fits(kind: Kind, want: Kind) { want == Untyped || kind == want }

  function Lookup<V>(entries: Entries<V>, key: string, want: Kind, now: int): Option<V> {
    if key in entries && Live(entries[key], now) && Fits(entries[key].kind, want)
    then Some(entries[key].data)
    else None
  }

  function Unexpired<V>(entries: Entries<V>, now: int): Entries<V> {
    map k | k in entries && Live(entries[k], now) :: entries[k]
  }

  /** The two kinds of inspections never share a key, and within a kind a key has one identifier. */
  lemma KeysApart(a: string, b: string, kind: Kind)
    ensures KeyFor(NetworkInspect, a) != KeyFor(ContainerInspect, b)
    ensures KeyFor(kind, a) == KeyFor(kind, b) <==> a == b
  {
    var n, c := "network_inspect:", "container_inspect:";
    assert (n + a)[0] == 'n' && (c + b)[0] == 'c';
    assert (n + a)[|n|..] == a && (n + b)[|n|..] == b && (c + a)[|c|..] == a && (c + b)[|c|..] == b;
  }

  // The unbounded record.

  datatype Op<V> = Stored(key: string, entry: Entry<V>) | Invalidated(key: string) | Cleared

  /** The latest store of the key that has not been invalidated since. */
  ghost function Latest<V>(log: seq<Op<V>>, key: string): Option<Entry<V>> {
    if log == [] then None
    else match log[|log| - 1]
      case Stored(k, e) => if k == key then Some(e) else Latest(log[..|log| - 1], key)
      case Invalidated(k) => if k == key then None else Latest(log[..|log| - 1], key)
      case Cleared => None
  }

  ghost predicate Refines<V>(entries: Entries<V>, log: seq<Op<V>>) {
    forall k :: k in entries ==> Latest(log, k) == Some(entries[k])
  }

  ghost predicate Named<V>(log: seq<Op<V>>) {
    forall i :: 0 <= i < |log| && log[i].Stored? ==> log[i].key != ""
  }

  // Eviction.

  predicate Ordering<V>(entries: Entries<V>, order: seq<string>) {
    && (forall k :: k in order ==> k in entries)
    && (forall k :: k in entries ==> k in order)
  }

  /** The key evictOldest ends on after visiting the keys in this order; "" means none yet. */
  function Chosen<V>(entries: Entries<V>, order: seq<string>): (key: string)
    requires forall k :: k in order ==> k in entries
    ensures key == "" || key in order
  {
    if order == [] then ""
    else
      var n := |order| - 1;
      var c := Chosen(entries, order[..n]);
      if c == "" || entries[order[n]].timestamp < entries[c].timestamp then order[n] else c
  }

  function Evict<V>(entries: Entries<V>, order: seq<string>): Entries<V>
    requires Ordering(entries, order)
  {
    var c := Chosen(entries, order);
    if c == "" then entries else entries - {c}
  }

  ghost predicate Oldest<V>(entries: Entries<V>, key: string) {
    key in entries && forall k :: k in entries ==> entries[key].timestamp <= entries[k].timestamp
  }

  lemma {:induction false} ChosenBeats<V>(entries: Entries<V>, order: seq<string>, oldest: string)
    requires forall k :: k in order ==> k in entries
    requires Oldest(entries, oldest) && oldest != "" && oldest in order
    ensures var c := Chosen(entries, order); c != "" && Oldest(entries, c)
  {
    var n := |order| - 1;
    assert order == order[..n] + [order[n]];
    if oldest in order[..n] {
      ChosenBeats(entries, order[..n], oldest);
    }
  }

  lemma {:induction false} Listed(keys: set<string>) returns (order: seq<string>)
    ensures forall k :: k in order <==> k in keys
  {
    if keys == {} {
      order := [];
    } else {
      var k :| k in keys;
      var rest := Listed(keys - {k});
      order := rest + [k];
    }
  }

  lemma {:induction false} SomeOldest<V>(entries: Entries<V>, keys: set<string>) returns (key: string)
    requires keys != {} && keys <= entries.Keys
    ensures key in keys && forall k :: k in keys ==> entries[key].timestamp <= entries[k].timestamp
  {
    key :| key in keys;
    if keys != {key} {
      var other := SomeOldest(entries, keys - {key});
      if entries[other].timestamp < entries[key].timestamp {
        key := other;
      }
    }
  }

  /** An order under which the scan ends on the empty key. */
  lemma EmptyLast<V>(entries: Entries<V>) returns (order: seq<string>)
    requires forall key :: Oldest(entries, key) ==> key == ""
    ensures Ordering(entries, order) && Chosen(entries, order) == ""
  {
    if entries.Keys == {} {
      return [];
    }
    var key := SomeOldest(entries, entries.Keys);
    assert Oldest(entries, key) && key == "";
    var others := Listed(entries.Keys - {""});
    order := others + [""];
    assert order[..|order| - 1] == others;
    var c := Chosen(entries, others);
    if c != "" && entries[c].timestamp <= entries[""].timestamp {
      assert Oldest(entries, c);
    }
  }

  /** evictOldest removes an entry of minimal timestamp under every iteration order exactly when some
      entry of minimal timestamp has a non-empty key: the scan takes the empty key for "none yet". */
  lemma EvictsOldestExactly<V>(entries: Entries<V>)
    ensures (forall order :: Ordering(entries, order) ==>
                               var c := Chosen(entries, order); c != "" && Oldest(entries, c))
            <==> exists key :: key != "" && Oldest(entries, key)
  {
    if key :| key != "" && Oldest(entries, key) {
      forall order | Ordering(entries, order)
        ensures var c := Chosen(entries, order); c != "" && Oldest(entries, c)
      {
        ChosenBeats(entries, order, key);
      }
    } else {
      var order := EmptyLast(entries);
      assert Ordering(entries, order) && Chosen(entries, order) == "";
    }
  }

  /** A store of a new key into a full cache exceeds the bound exactly when the scan ends on the empty key; and some
      iteration order makes it do so exactly when no entry of minimal timestamp has a non-empty key. */
  lemma OverflowsExactly<V>(entries: Entries<V>, maxEntries: int, key: string, e: Entry<V>)
    requires |entries| == Limit(maxEntries) && key !in entries
    ensures forall order :: Ordering(entries, order) ==>
                              (Overflows(entries, maxEntries, order, key, e) <==> Chosen(entries, order) == "")
    ensures (exists order :: Ordering(entries, order) && Overflows(entries, maxEntries, order, key, e))
            <==> forall k :: Oldest(entries, k) ==> k == ""
  {
    forall order | Ordering(entries, order)
      ensures Overflows(entries, maxEntries, order, key, e) <==> Chosen(entries, order) == ""
      ensures forall k :: Oldest(entries, k) && k != "" ==> Chosen(entries, order) != ""
    {
      SetSize(entries, maxEntries, order, key, e);
      forall k | Oldest(entries, k) && k != "" ensures Chosen(entries, order) != "" {
        ChosenBeats(entries, order, k);
      }
    }
    if forall k :: Oldest(entries, k) ==> k == "" {
      var order := EmptyLast(entries);
      assert Overflows(entries, maxEntries, order, key, e);
    }
  }

  /** How many entries a store leaves. Room below the bound is never overrun. */
  lemma SetSize<V>(entries: Entries<V>, maxEntries: int, order: seq<string>, key: string, e: Entry<V>)
    requires Ordering(entries, order)
    ensures |entries| <= Limit(maxEntries) ==>
              (Overflows(entries, maxEntries, order, key, e) <==>
                && |entries| == Limit(maxEntries) && key !in entries
                && Chosen(entries, order) == "")
  {
    var kept := Kept(entries, maxEntries, order);
    Grows(kept, key, e);
    var c := Chosen(entries, order);
    if c != "" {
      Dropped(entries, c);
    }
  }

  /** Eviction turns a hit into a miss or changes nothing: no lookup ever gains or changes a value. */
  lemma EvictOnlyMisses<V>(entries: Entries<V>, order: seq<string>, key: string, want: Kind, now: int)
    requires Ordering(entries, order)
    ensures Lookup(Evict(entries, order), key, want, now) in {None, Lookup(entries, key, want, now)}
  {
  }

  /** cleanupExpired at `now` is invisible to every lookup at every later time. */
  lemma CleanupInvisible<V>(entries: Entries<V>, key: string, want: Kind, now: int, later: int)
    requires now <= later
    ensures Lookup(Unexpired(entries, now), key, want, later) == Lookup(entries, key, want, later)
  {
  }

  /** For instance, a full cache of one entry does not evict it if its key is empty. */
  lemma EmptyKeyOverflows<V>(e: Entry<V>, f: Entry<V>, order: seq<string>)
    requires Ordering(map["" := e], order)
    ensures |Evict(map["" := e], order)["a" := f]| == 2
  {
    var entries := map["" := e];
    assert Evict(entries, order) == entries;
    assert entries["a" := f].Keys == {"", "a"};
  }

  /** What is left when a store has made room. */
  function Kept<V>(entries: Entries<V>, maxEntries: int, order: seq<string>): Entries<V>
    requires Ordering(entries, order)
  {
    if |entries| >= maxEntries then Evict(entries, order) else entries
  }

  ghost predicate Overflows<V>(entries: Entries<V>, maxEntries: int, order: seq<string>, key: string, e: Entry<V>)
    requires Ordering(entries, order)
  {
    |Kept(entries, maxEntries, order)[key := e]| > Limit(maxEntries)
  }

  function Limit(maxEntries: int): nat { if maxEntries < 1 then 1 else maxEntries }

  ghost predicate Bounded<V>(entries: Entries<V>, log: seq<Op<V>>, maxEntries: int) {
    Named(log) ==> "" !in entries && |entries| <= Limit(maxEntries)
  }

  /** A store into a cache with room for it. */
  lemma StoreKeeps<V>(entries: Entries<V>, log: seq<Op<V>>, maxEntries: int, key: string, e: Entry<V>)
    requires Refines(entries, log)
    requires Named(log) ==> "" !in entries && |entries| < Limit(maxEntries)
    ensures Refines(entries[key := e], log + [Stored(key, e)])
    ensures Bounded(entries[key := e], log + [Stored(key, e)], maxEntries)
  {
    var next := log + [Stored(key, e)];
    LatestGrows(log, Stored(key, e));
    Grows(entries, key, e);
    if Named(next) {
      assert next[|log|].key != "";
      NamedBefore(log, Stored(key, e));
    }
  }

  lemma NamedBefore<V>(log: seq<Op<V>>, op: Op<V>)
    requires Named(log + [op])
    ensures Named(log)
  {
    forall i | 0 <= i < |log| && log[i].Stored? ensures log[i].key != "" {
      assert (log + [op])[i] == log[i];
    }
  }

  lemma InvalidateKeeps<V>(entries: Entries<V>, log: seq<Op<V>>, maxEntries: int, key: string)
    requires Refines(entries, log) && Bounded(entries, log, maxEntries)
    ensures Refines(entries - {key}, log + [Invalidated(key)])
    ensures Bounded(entries - {key}, log + [Invalidated(key)], maxEntries)
  {
    LatestGrows(log, Invalidated(key));
    Shrinks(entries, entries - {key});
    if Named(log + [Invalidated(key)]) {
      NamedBefore(log, Invalidated(key));
    }
  }

  // How long a value stays.

  /** What the calls on a cache do to its entries. */
  datatype Change<V> =
    | Put(key: string, entry: Entry<V>, order: seq<string>)
    | Remove(key: string)
    | RemoveAll
    | Clean(at: int)

  ghost predicate Possible<V>(entries: Entries<V>, change: Change<V>) {
    change.Put? ==> Ordering(entries, change.order)
  }

  ghost function Changed<V>(entries: Entries<V>, maxEntries: int, change: Change<V>): Entries<V>
    requires Possible(entries, change)
  {
    match change
    case Put(key, e, order) => Kept(entries, maxEntries, order)[key := e]
    case Remove(key) => entries - {key}
    case RemoveAll => map[]
    case Clean(at) => Unexpired(entries, at)
  }

  ghost predicate Through<V>(entries: Entries<V>, maxEntries: int, changes: seq<Change<V>>, after: Entries<V>)
    decreases |changes|
  {
    if changes == [] then entries == after
    else Possible(entries, changes[0])
         && Through(Changed(entries, maxEntries, changes[0]), maxEntries, changes[1..], after)
  }

  /** The change stores this key again, removes it, or evicts it. */
  ghost predicate Touches<V>(entries: Entries<V>, maxEntries: int, change: Change<V>, key: string)
    requires Possible(entries, change)
  {
    match change
    case Put(k, e, order) => k == key || (|entries| >= maxEntries && Chosen(entries, order) == key && key != "")
    case Remove(k) => k == key
    case RemoveAll => true
    case Clean(_) => false
  }

  ghost predicate LeftAlone<V>(entries: Entries<V>, maxEntries: int, changes: seq<Change<V>>, key: string, now: int)
    decreases |changes|
  {
    changes != [] ==>
      && Possible(entries, changes[0]) && !Touches(entries, maxEntries, changes[0], key)
      && (changes[0].Clean? ==> changes[0].at <= now)
      && LeftAlone(Changed(entries, maxEntries, changes[0]), maxEntries, changes[1..], key, now)
  }

  /** A stored value stays: as long as its key is not stored again, removed or evicted, it is found, by its own kind or
      without one, exactly until its time to live has passed, whatever cleanups ran before. */
  lemma {:induction false} StaysExactly<V>(
      entries: Entries<V>, maxEntries: int, changes: seq<Change<V>>, after: Entries<V>, key: string, e: Entry<V>,
      want: Kind, now: int)
    requires key in entries && entries[key] == e
    requires Through(entries, maxEntries, changes, after) && LeftAlone(entries, maxEntries, changes, key, now)
    ensures Lookup(after, key, want, now)
            == if now <= e.timestamp + e.ttl && (want == e.kind || want == Untyped) then Some(e.data) else None
    decreases |changes|
  {
    if changes != [] {
      var next := Changed(entries, maxEntries, changes[0]);
      if key in next {
        StaysExactly(next, maxEntries, changes[1..], after, key, e, want, now);
      } else {
        assert changes[0].Clean? && now > e.timestamp + e.ttl;
        GoneStaysGone(next, maxEntries, changes[1..], after, key, now);
      }
    }
  }

  lemma {:induction false} GoneStaysGone<V>(
      entries: Entries<V>, maxEntries: int, changes: seq<Change<V>>, after: Entries<V>, key: string, now: int)
    requires key !in entries
    requires Through(entries, maxEntries, changes, after) && LeftAlone(entries, maxEntries, changes, key, now)
    ensures key !in after
    decreases |changes|
  {
    if changes != [] {
      GoneStaysGone(Changed(entries, maxEntries, changes[0]), maxEntries, changes[1..], after, key, now);
    }
  }

  class ResponseCache<V(==)> {
    const defaultTTL: int
    const maxEntries: int
    var entries: Entries<V>
    var hits: nat
    var misses: nat
    var evictions: nat
    ghost var log: seq<Op<V>>

    /** Everything cached is the latest of its key; the size is bounded if no empty key was ever stored. */
    ghost predicate Valid()
      reads this
    {
      Refines(entries, log) && Bounded(entries, log, maxEntries)
    }

    constructor (ttl: int, max: int)
      ensures Valid() && entries == map[] && log == [] && defaultTTL == ttl && maxEntries == max
    {
      defaultTTL, maxEntries := ttl, max;
      entries, hits, misses, evictions, log := map[], 0, 0, 0, [];
    }

    /** A hit is the value of the latest store of the key not invalidated since, of the kind asked for and
        no older than its TTL. A miss means the cache no longer holds such an entry. */
    method Get(want: Kind, id: string, now: int) returns (r: Option<V>)
      requires Valid() && want != Untyped
      modifies `hits, `misses
      ensures Valid() && hits + misses == old(hits + misses) + 1 && hits == old(hits) + (if r.Some? then 1 else 0)
      ensures r.Some? <==>
                && KeyFor(want, id) in entries && entries[KeyFor(want, id)].kind == want
                && now <= entries[KeyFor(want, id)].timestamp + entries[KeyFor(want, id)].ttl
      ensures r == Lookup(entries, KeyFor(want, id), want, now)
      ensures r.Some? ==> var e := Latest(log, KeyFor(want, id));
                          && e.Some? && e.value.data == r.value && e.value.kind == want
                          && now - e.value.timestamp <= e.value.ttl
    {
      var key := KeyFor(want, id);
      if key !in entries {
        misses := misses + 1;
        return None;
      }
      var entry := entries[key];
      if now - entry.timestamp > entry.ttl {
        misses := misses + 1;
        return None;
      }
      if entry.kind != want {
        misses := misses + 1;
        return None;
      }
      hits := hits + 1;
      return Some(entry.data);
    }

    /** The size stays within the bound, but for a new key when the scan of a full cache ends on the empty key. */
    method Set(kind: Kind, id: string, data: V, ttl: int, now: int, order: seq<string>)
      requires Valid() && Ordering(entries, order)
      modifies this
      ensures Valid()
      ensures var e := Entry(kind, data, now, if ttl == 0 then defaultTTL else ttl);
              && log == old(log) + [Stored(KeyFor(kind, id), e)] && Latest(log, KeyFor(kind, id)) == Some(e)
              && entries == Kept(old(entries), maxEntries, order)[KeyFor(kind, id) := e]
      ensures old(|entries| <= Limit(maxEntries)) ==>
                (|entries| > Limit(maxEntries) <==>
                  && |old(entries)| == Limit(maxEntries) && KeyFor(kind, id) !in old(entries)
                  && Chosen(old(entries), order) == "")
      ensures hits == old(hits) && misses == old(misses)
    {
      var key := KeyFor(kind, id);
      var e := Entry(kind, data, now, if ttl == 0 then defaultTTL else ttl);
      SetSize(entries, maxEntries, order, key, e);
      if |entries| >= maxEntries {
        EvictOldest(order);
      }
      StoreKeeps(entries, log, maxEntries, key, e);
      entries := entries[key := e];
      log := log + [Stored(key, e)];
    }

    /** The first critical section of GetOrCompute. */
    method Peek(key: string, now: int) returns (r: Option<V>)
      requires Valid()
      modifies `hits
      ensures Valid() && r == Lookup(entries, key, Untyped, now)
      ensures hits == old(hits) + if r.Some? then 1 else 0
      ensures r.Some? ==> Latest(log, key).Some? && r.value == Latest(log, key).value.data
    {
      if key in entries && now - entries[key].timestamp <= entries[key].ttl {
        hits := hits + 1;
        return Some(entries[key].data);
      }
      return None;
    }

    /** `computed` is what compute returns, None its error; the value is stored at `done`. The lock is free while
        compute runs: the calls made meanwhile append `meanwhile` to the log and leave `left` in the cache. Whatever
        they do, a value computed is stored, and is the latest. */
    method GetOrCompute(
      key: string, computed: Option<V>, ttl: int, now: int, done: int,
      left: Entries<V>, ghost meanwhile: seq<Op<V>>, order: seq<string>) returns (r: Option<V>)
      requires Valid()
      requires Refines(left, log + meanwhile) && Bounded(left, log + meanwhile, maxEntries) && Ordering(left, order)
      modifies this
      ensures Valid() && hits + misses == old(hits + misses) + 1
      ensures old(Lookup(entries, key, Untyped, now)).Some? ==>
                && unchanged(`entries) && unchanged(`log)
                && r == old(Lookup(entries, key, Untyped, now)) && r.value == Latest(log, key).value.data
      ensures old(Lookup(entries, key, Untyped, now)).None? ==>
                && r == computed
                && (computed.None? ==> entries == left && log == old(log) + meanwhile)
                && (computed.Some? ==>
                      var e := Entry(Untyped, computed.value, done, if ttl == 0 then defaultTTL else ttl);
                      && entries == Kept(left, maxEntries, order)[key := e]
                      && log == old(log) + meanwhile + [Stored(key, e)]
                      && Latest(log, key) == Some(e))
    {
      r := Peek(key, now);
      if r.Some? {
        return;
      }
      misses := misses + 1;
      entries, log := left, log + meanwhile;
      if computed.None? {
        return None;
      }
      Set(Untyped, key, computed.value, ttl, done, order);
      return computed;
    }

    method Invalidate(key: string)
      requires Valid()
      modifies `entries, `log
      ensures Valid() && entries == old(entries) - {key} && log == old(log) + [Invalidated(key)]
    {
      InvalidateKeeps(entries, log, maxEntries, key);
      entries := entries - {key};
      log := log + [Invalidated(key)];
    }

    method InvalidateAll()
      requires Valid()
      modifies `entries, `log
      ensures Valid() && entries == map[] && log == old(log) + [Cleared]
    {
      entries := map[];
      log := log + [Cleared];
    }

    method EvictOldest(order: seq<string>)
      requires Valid() && Ordering(entries, order)
      modifies `entries, `evictions
      ensures Refines(entries, log) && entries == Evict(old(entries), order)
      ensures evictions == old(evictions) + |old(entries)| - |entries|
      ensures "" !in old(entries) && old(entries) != map[] ==> |entries| == |old(entries)| - 1
    {
      var oldestKey := "";
      var oldestTime := 0;
      for i := 0 to |order|
        invariant oldestKey == Chosen(entries, order[..i])
        invariant oldestKey != "" ==> oldestTime == entries[oldestKey].timestamp
      {
        assert order[..i + 1][..i] == order[..i];
        if oldestKey == "" || entries[order[i]].timestamp < oldestTime {
          oldestKey := order[i];
          oldestTime := entries[order[i]].timestamp;
        }
      }
      assert order[..|order|] == order;
      NamedIsChosen(entries, order);
      if oldestKey != "" {
        Dropped(entries, oldestKey);
        entries := entries - {oldestKey};
        evictions := evictions + 1;
      }
    }

    method CleanupExpired(now: int, order: seq<string>)
      requires Valid() && Ordering(entries, order)
      modifies `entries
      ensures Valid() && entries == Unexpired(old(entries), now)
    {
      var keysToDelete := ExpiredKeys(entries, now, order);
      Shrinks(entries, Unexpired(entries, now));
      entries := Delete(entries, keysToDelete);
      assert entries == Unexpired(old(entries), now);
    }

    static method ExpiredKeys(entries: Entries<V>, now: int, order: seq<string>) returns (expired: seq<string>)
      requires Ordering(entries, order)
      ensures forall k :: k in expired <==> k in entries && !Live(entries[k], now)
    {
      expired := [];
      for i := 0 to |order|
        invariant forall k :: k in expired <==> k in order[..i] && !Live(entries[k], now)
      {
        if now - entries[order[i]].timestamp > entries[order[i]].ttl {
          expired := expired + [order[i]];
        }
      }
    }

    static method Delete(entries: Entries<V>, keys: seq<string>) returns (rest: Entries<V>)
      ensures forall k :: k in rest <==> k in entries && k !in keys
      ensures forall k :: k in rest ==> rest[k] == entries[k]
    {
      rest := entries;
      for i := 0 to |keys|
        invariant forall k :: k in rest <==> k in entries && k !in keys[..i]
        invariant forall k :: k in rest ==> rest[k] == entries[k]
      {
        rest := rest - {keys[i]};
      }
    }
  }

  // Sizes.

  lemma Grows<V>(entries: Entries<V>, key: string, e: Entry<V>)
    ensures |entries[key := e]| == |entries| + if key in entries then 0 else 1
  {
    var next := entries[key := e];
    if key in entries {
      assert next.Keys == entries.Keys;
    } else {
      assert next.Keys == entries.Keys + {key};
    }
  }

  lemma Dropped<V>(entries: Entries<V>, key: string)
    requires key in entries
    ensures |entries - {key}| == |entries| - 1
  {
    assert (entries - {key}).Keys == entries.Keys - {key};
  }

  lemma {:induction false} Smaller(a: set<string>, b: set<string>)
    requires a <= b
    ensures |a| <= |b|
  {
    if a != {} {
      var x :| x in a;
      Smaller(a - {x}, b - {x});
    }
  }

  lemma Shrinks<V>(entries: Entries<V>, fewer: Entries<V>)
    requires fewer.Keys <= entries.Keys
    ensures |fewer| <= |entries|
  {
    Smaller(fewer.Keys, entries.Keys);
  }

  /** Without an empty key, some key is always chosen from a non-empty cache. */
  lemma {:induction false} NamedIsChosen<V>(entries: Entries<V>, order: seq<string>)
    requires Ordering(entries, order)
    ensures "" !in entries && entries != map[] ==> Chosen(entries, order) != ""
    ensures Chosen(entries, order) == "" ==> Evict(entries, order) == entries
  {
    if "" !in entries && entries != map[] {
      var key := SomeOldest(entries, entries.Keys);
      ChosenBeats(entries, order, key);
    }
  }

  lemma LatestGrows<V>(log: seq<Op<V>>, op: Op<V>)
    ensures forall key :: Latest(log + [op], key) ==
                          match op
                          case Stored(k, e) => if k == key then Some(e) else Latest(log, key)
                          case Invalidated(k) => if k == key then None else Latest(log, key)
                          case Cleared => None
  {
    assert (log + [op])[..|log|] == log;
  }
}
