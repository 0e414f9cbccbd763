/** The bounded local cache with expiry that the Redis client falls back on. */
module LocalCache {
  import opened Options
  import opened Graph

  datatype Entry = Entry(value: string, expires: int)

  type Cache = map<string, Entry>

  /** Size limit and the expiry used when none is given. */
  datatype Config = Config(maxSize: int, defaultTtl: int)

  /** A store may evict one key, whichever the map yields first. */
  datatype Event =
    | Store(key: string, value: string, ttl: int, at: int, evicted: Option<string>)
    | Delete(keys: set<string>)
    | Clean(at: int)

  datatype State = State(cache: Cache, clock: int)

  function EntryOf(cfg: Config, e: Event): (r: Entry)
    requires e.Store?
  {
    Entry(e.value, e.at + if e.ttl == 0 then cfg.defaultTtl else e.ttl)
  }

  predicate Enabled(cfg: Config, s: State, e: Event) {
    match e
    case Store(_, _, _, at, evicted) =>
      && s.clock <= at
      && (|s.cache| < cfg.maxSize || s.cache == map[] ==> evicted.None?)
      && (|s.cache| >= cfg.maxSize && s.cache != map[] ==> evicted.Some? && evicted.value in s.cache)
    case Delete(_) => true
    case Clean(at) => s.clock <= at
  }

  function Step(cfg: Config, s: State, e: Event): (t: State) {
    match e
    case Store(key, _, _, at, evicted) =>
      var kept := if evicted.Some? then s.cache - {evicted.value} else s.cache;
      State(kept[key := EntryOf(cfg, e)], at)
    case Delete(keys) => s.(cache := s.cache - keys)
    case Clean(at) => State(map k | k in s.cache && at <= s.cache[k].expires :: s.cache[k], at)
  }

  function Get(s: State, key: string, now: int): (r: Option<string>) {
    if key in s.cache && now <= s.cache[key].expires then Some(s.cache[key].value) else None
  }

  predicate Runs(cfg: Config, s: State, es: seq<Event>)
    decreases es
  {
    es == [] || (Enabled(cfg, s, es[0]) && Runs(cfg, Step(cfg, s, es[0]), es[1..]))
  }

  function After(cfg: Config, s: State, es: seq<Event>): (t: State)
    decreases es
  {
    if es == [] then s else After(cfg, Step(cfg, s, es[0]), es[1..])
  }

  // ----- the unbounded cache

  /** What a cache without limit and without cleaning would hold. */
  function Ideal(cfg: Config, m: Cache, es: seq<Event>): (r: Cache)
    decreases es
  {
    if es == [] then m else Ideal(cfg, IdealStep(cfg, m, es[0]), es[1..])
  }

  function IdealStep(cfg: Config, m: Cache, e: Event): (r: Cache) {
    match e
    case Store(key, _, _, _, _) => m[key := EntryOf(cfg, e)]
    case Delete(keys) => m - keys
    case Clean(_) => m
  }

  ghost predicate Within(c: Cache, m: Cache) {
    forall k :: k in c ==> k in m && c[k] == m[k]
  }

  function Bound(cfg: Config): (n: int) {
    if cfg.maxSize < 1 then 1 else cfg.maxSize
  }

  lemma SizeAfterStore(cfg: Config, c: Cache, evicted: Option<string>, key: string, entry: Entry)
    requires |c| <= Bound(cfg)
    requires |c| < cfg.maxSize || c == map[] ==> evicted.None?
    requires |c| >= cfg.maxSize && c != map[] ==> evicted.Some? && evicted.value in c
    ensures var kept := if evicted.Some? then c - {evicted.value} else c;
            |kept[key := entry]| <= Bound(cfg)
  {
    var kept := if evicted.Some? then c - {evicted.value} else c;
    assert kept[key := entry].Keys == kept.Keys + {key};
    assert |kept.Keys + {key}| <= |kept.Keys| + 1;
    if evicted.Some? {
      assert kept.Keys == c.Keys - {evicted.value};
    }
  }

  lemma SizeShrinks(c: Cache, d: Cache)
    requires d.Keys <= c.Keys
    ensures |d| <= |c|
  {
    SubsetSize(d.Keys, c.Keys);
    assert |d.Keys| == |d| && |c.Keys| == |c|;
  }

  lemma {:induction false} BoundedSubmap(cfg: Config, s: State, m: Cache, es: seq<Event>)
    requires Runs(cfg, s, es) && Within(s.cache, m) && |s.cache| <= Bound(cfg)
    ensures Within(After(cfg, s, es).cache, Ideal(cfg, m, es)) && |After(cfg, s, es).cache| <= Bound(cfg)
    decreases es
  {
    if es != [] {
      var e := es[0];
      var t := Step(cfg, s, e);
      if e.Store? {
        SizeAfterStore(cfg, s.cache, e.evicted, e.key, EntryOf(cfg, e));
      } else {
        SizeShrinks(s.cache, t.cache);
      }
      BoundedSubmap(cfg, t, IdealStep(cfg, m, e), es[1..]);
    }
  }

  /** The last word on a key: stored at place `i`, and neither stored again nor deleted since. */
  ghost predicate LastStored(cfg: Config, es: seq<Event>, key: string, entry: Entry, i: int) {
    && 0 <= i < |es| && es[i].Store? && es[i].key == key && EntryOf(cfg, es[i]) == entry
    && forall j :: i < j < |es| ==>
         !(es[j].Store? && es[j].key == key) && !(es[j].Delete? && key in es[j].keys)
  }

  lemma {:induction false} IdealIsLast(cfg: Config, m: Cache, es: seq<Event>, key: string)
    requires key in Ideal(cfg, m, es)
    ensures (exists i :: LastStored(cfg, es, key, Ideal(cfg, m, es)[key], i)) ||
            (key in m && Ideal(cfg, m, es)[key] == m[key] &&
             forall j :: 0 <= j < |es| ==> !(es[j].Store? && es[j].key == key) && !(es[j].Delete? && key in es[j].keys))
    decreases es
  {
    if es != [] {
      var e, rest := es[0], es[1..];
      var m1 := IdealStep(cfg, m, e);
      IdealIsLast(cfg, m1, rest, key);
      var entry := Ideal(cfg, m, es)[key];
      assert forall j :: 1 <= j < |es| ==> es[j] == rest[j - 1];
      if exists i :: LastStored(cfg, rest, key, entry, i) {
        var i :| LastStored(cfg, rest, key, entry, i);
        assert LastStored(cfg, es, key, entry, i + 1);
      } else if e.Store? && e.key == key {
        assert LastStored(cfg, es, key, entry, 0);
      }
    }
  }

  /**
    * In every run with arbitrary evictions: the size stays within the limit (at least one entry), and a
    * hit is the value last stored for that key, not deleted since and not expired.
    */
  lemma HitIsLatest(cfg: Config, es: seq<Event>, key: string, now: int)
    requires Runs(cfg, State(map[], 0), es)
    ensures var s := After(cfg, State(map[], 0), es);
            && |s.cache| <= (if cfg.maxSize < 1 then 1 else cfg.maxSize)
            && (Get(s, key, now).Some? ==>
                  exists i :: && LastStored(cfg, es, key, s.cache[key], i)
                              && now <= es[i].at + (if es[i].ttl == 0 then cfg.defaultTtl else es[i].ttl)
                              && Get(s, key, now) == Some(es[i].value))
  {
    var start := State(map[], 0);
    BoundedSubmap(cfg, start, map[], es);
    var s := After(cfg, start, es);
    if Get(s, key, now).Some? {
      IdealIsLast(cfg, map[], es, key);
      var i :| LastStored(cfg, es, key, s.cache[key], i);
    }
  }

  // ----- what is lost, key by key

  predicate Stores(e: Event, key: string) {
    e.Store? && e.key == key
  }

  /** The event throws the key out to make room for another. */
  predicate Evicts(e: Event, key: string) {
    e.Store? && e.key != key && e.evicted == Some(key)
  }

  ghost predicate NotStored(es: seq<Event>, key: string, from: int) {
    forall j :: 0 <= j < |es| && from <= j ==> !Stores(es[j], key)
  }

  ghost predicate EvictedAt(es: seq<Event>, key: string, i: int) {
    0 <= i < |es| && Evicts(es[i], key) && NotStored(es, key, i + 1)
  }

  /** The key was thrown out and not stored since. */
  ghost predicate Evicted(es: seq<Event>, key: string) {
    exists i :: EvictedAt(es, key, i)
  }

  function GoneAfter(es: seq<Event>, key: string, gone: bool): (r: bool)
    decreases es
  {
    if es == [] then gone
    else GoneAfter(es[1..], key, !Stores(es[0], key) && (gone || Evicts(es[0], key)))
  }

  lemma NotStoredTail(es: seq<Event>, key: string, from: nat)
    requires es != []
    ensures NotStored(es[1..], key, from) <==> NotStored(es, key, from + 1)
  {
    assert forall j :: 1 <= j < |es| ==> es[j] == es[1..][j - 1];
    assert forall j :: 0 <= j < |es| - 1 ==> es[1..][j] == es[j + 1];
  }

  lemma EvictedTail(es: seq<Event>, key: string)
    requires es != []
    ensures Evicted(es, key) <==> Evicted(es[1..], key) || EvictedAt(es, key, 0)
  {
    if Evicted(es[1..], key) {
      var i :| EvictedAt(es[1..], key, i);
      NotStoredTail(es, key, i + 1);
      assert EvictedAt(es, key, i + 1);
    }
    if Evicted(es, key) {
      var i :| EvictedAt(es, key, i);
      if i > 0 {
        NotStoredTail(es, key, i);
        assert EvictedAt(es[1..], key, i - 1);
      }
    }
  }

  lemma {:induction false} GoneMeansEvicted(es: seq<Event>, key: string, gone: bool)
    ensures GoneAfter(es, key, gone) <==> Evicted(es, key) || (gone && NotStored(es, key, 0))
    decreases es
  {
    if es != [] {
      var e := es[0];
      GoneMeansEvicted(es[1..], key, !Stores(e, key) && (gone || Evicts(e, key)));
      NotStoredTail(es, key, 0);
      EvictedTail(es, key);
      assert NotStored(es, key, 0) <==> !Stores(e, key) && NotStored(es, key, 1);
    }
  }

  /** For one key: gone, or as in the unbounded cache but for an expired entry. */
  ghost predicate Follows(s: State, m: Cache, key: string, gone: bool) {
    if gone then key !in s.cache
    else
      && (key in s.cache ==> key in m && s.cache[key] == m[key])
      && (key in m ==> key in s.cache || m[key].expires < s.clock)
  }

  lemma {:induction false} RunFollows(cfg: Config, s: State, m: Cache, es: seq<Event>, key: string, gone: bool)
    requires Runs(cfg, s, es) && Follows(s, m, key, gone)
    ensures Follows(After(cfg, s, es), Ideal(cfg, m, es), key, GoneAfter(es, key, gone))
    decreases es
  {
    if es != [] {
      var e := es[0];
      RunFollows(cfg, Step(cfg, s, e), IdealStep(cfg, m, e), es[1..], key,
                 !Stores(e, key) && (gone || Evicts(e, key)));
    }
  }

  /**
    * In every run the cache answers for a key exactly as the unbounded one does, unless the key was
    * thrown out since it was last stored: then it answers nothing.
    */
  lemma ExactUnlessEvicted(cfg: Config, es: seq<Event>, key: string, now: int)
    requires Runs(cfg, State(map[], 0), es) && After(cfg, State(map[], 0), es).clock <= now
    ensures Get(After(cfg, State(map[], 0), es), key, now) ==
            if Evicted(es, key) then None else Get(State(Ideal(cfg, map[], es), now), key, now)
  {
    RunFollows(cfg, State(map[], 0), map[], es, key, false);
    GoneMeansEvicted(es, key, false);
  }

  function KeySet(keys: seq<string>): (r: set<string>) {
    set k | k in keys
  }

  lemma KeySetSnoc(keys: seq<string>, key: string)
    ensures KeySet(keys + [key]) == KeySet(keys) + {key}
  {
  }

  class Fallback {
    const cfg: Config
    var localCache: Cache
    ghost var clock: int

    ghost function Now(): (s: State)
      reads this
    {
      State(localCache, clock)
    }

    constructor (cfg: Config)
      ensures this.cfg == cfg && Now() == State(map[], 0)
    {
      this.cfg := cfg;
      localCache, clock := map[], 0;
    }

    method Put(key: string, value: string, ttl: int, now: int) returns (evicted: Option<string>)
      requires clock <= now
      modifies this
      ensures Enabled(cfg, old(Now()), Store(key, value, ttl, now, evicted))
      ensures Now() == Step(cfg, old(Now()), Store(key, value, ttl, now, evicted))
      ensures evicted.Some? <==> |old(localCache)| >= cfg.maxSize && old(localCache) != map[]
      ensures key in localCache
      ensures localCache[key] == Entry(value, now + if ttl == 0 then cfg.defaultTtl else ttl)
      ensures forall k :: k != key ==> (k in localCache <==> k in old(localCache) && evicted != Some(k))
      ensures forall k :: k != key && k in localCache ==> localCache[k] == old(localCache)[k]
    {
      evicted := None;
      if |localCache| >= cfg.maxSize && localCache != map[] {
        assert localCache.Keys != {};
        var k :| k in localCache.Keys;
        evicted := Some(k);
        localCache := localCache - {k};
      }
      var expiresAt := now + ttl;
      if ttl == 0 {
        expiresAt := now + cfg.defaultTtl;
      }
      localCache := localCache[key := Entry(value, expiresAt)];
      clock := now;
    }

    method Lookup(key: string, now: int) returns (r: Option<string>)
      ensures r == Get(Now(), key, now)
      ensures r.Some? <==> key in localCache && now <= localCache[key].expires
      ensures r.Some? ==> r.value == localCache[key].value
    {
      if key !in localCache {
        return None;
      }
      var entry := localCache[key];
      if now > entry.expires {
        return None;
      }
      return Some(entry.value);
    }

    method Remove(keys: seq<string>)
      modifies this
      ensures Now() == Step(cfg, old(Now()), Delete(KeySet(keys)))
      ensures forall k :: k in localCache <==> k in old(localCache) && k !in keys
    {
      ghost var before := localCache;
      for i := 0 to |keys|
        invariant clock == old(clock) && localCache == before - KeySet(keys[..i])
      {
        assert keys[..i + 1] == keys[..i] + [keys[i]];
        KeySetSnoc(keys[..i], keys[i]);
        localCache := localCache - {keys[i]};
      }
      assert keys[..|keys|] == keys;
    }

    method CleanUp(now: int)
      requires clock <= now
      modifies this
      ensures Now() == Step(cfg, old(Now()), Clean(now))
      ensures forall k :: k in localCache <==> k in old(localCache) && now <= old(localCache)[k].expires
    {
      ghost var before := localCache;
      var todo := localCache.Keys;
      while todo != {}
        invariant todo <= localCache.Keys <= before.Keys && clock == old(clock)
        invariant forall k :: k in localCache ==> localCache[k] == before[k]
        invariant forall k :: k in before && k !in todo ==> (k in localCache <==> now <= before[k].expires)
        decreases todo
      {
        var k :| k in todo;
        todo := todo - {k};
        if now > localCache[k].expires {
          localCache := localCache - {k};
        }
      }
      clock := now;
      assert localCache == map k | k in before && now <= before[k].expires :: before[k];
    }
  }
}
