/** The kubectl session cache: an ordered dictionary of key -> (value, last access)
    with a size limit and a sliding time to live, and `get_tools`, its get-or-create
    client.

    Every `time.time()` is a parameter, one for each reading the code makes. */
module SessionCache {
  import opened Common
  import opened OrderedDict

  type Entries<K, V> = Dict<K, (V, real)>

  datatype Missing<K> = KeyError(key: K)

  predicate Expired<K, V>(e: (K, (V, real)), now: real, ttl: real) {
    now - e.1.1 >= ttl
  }

  // The scan of `clean_expired`: how many entries it meets before the first live one.
  function ExpiredPrefix<K, V>(d: Entries<K, V>, now: real, ttl: real): (n: nat)
    ensures n <= |d|
  {
    if d == [] || !Expired(d[0], now, ttl) then 0 else 1 + ExpiredPrefix(d[1..], now, ttl)
  }

  function Expire<K, V>(d: Entries<K, V>, now: real, ttl: real): Entries<K, V> {
    d[ExpiredPrefix(d, now, ttl)..]
  }

  function Touched<K(==), V>(d: Entries<K, V>, k: K, v: V, now: real): Entries<K, V> {
    Delete(d, k) + [(k, (v, now))]
  }

  // `__getitem__`, with its readings in order.
  function Lookup<K(==), V>(d: Entries<K, V>, ttl: real, k: K, scan: real, refresh: real)
    : (Entries<K, V>, Result<V, Missing<K>>)
  {
    var live := Expire(d, scan, ttl);
    if Has(live, k) then (Touched(live, k, Get(live, k).0, refresh), Ok(Get(live, k).0))
    else (live, Err(KeyError(k)))
  }

  // `__setitem__`: the entry is stamped before the scan that precedes the size test.
  function Store<K(==), V>(d: Entries<K, V>, ttl: real, maxSize: nat, k: K, v: V, stamp: real, scan: real)
    : Entries<K, V>
  {
    var live := Expire(Touched(d, k, v, stamp), scan, ttl);
    if |live| > maxSize then live[1..] else live
  }

  class SlidingLRUSessionCache<K(==), V> {
    const maxSize: nat
    const ttl: real
    var cache: Entries<K, V>

    ghost predicate Valid()
      reads this
    {
      Distinct(cache)
    }

    constructor (maxSize: nat, ttl: real)
      ensures Valid() && cache == []
      ensures this.maxSize == maxSize && this.ttl == ttl
    {
      this.maxSize := maxSize;
      this.ttl := ttl;
      cache := [];
    }

    method DelItem(k: K) returns (r: Result<(), Missing<K>>)
      requires Valid()
      modifies this
      ensures Valid()
      ensures r == if Has(old(cache), k) then Ok(()) else Err(KeyError(k))
      ensures cache == Delete(old(cache), k)
    {
      DeleteKeeps(cache, k);
      if !Has(cache, k) {
        DeleteAbsent(cache, k);
        return Err(KeyError(k));
      }
      cache := Delete(cache, k);
      return Ok(());
    }

    method CleanExpired(now: real)
      requires Valid()
      modifies this
      ensures Valid()
      ensures cache == Expire(old(cache), now, ttl)
    {
      var toDels: seq<K> := [];
      var i := 0;
      while i < |cache|
        invariant 0 <= i <= |cache| && |toDels| == i
        invariant forall j :: 0 <= j < i ==> toDels[j] == cache[j].0
        invariant ExpiredPrefix(cache, now, ttl) == i + ExpiredPrefix(cache[i..], now, ttl)
      {
        if Expired(cache[i], now, ttl) {
          toDels := toDels + [cache[i].0];
          assert cache[i..][1..] == cache[i + 1..];
        } else {
          break;
        }
        i := i + 1;
      }
      assert i == ExpiredPrefix(cache, now, ttl);
      i := 0;
      while i < |toDels|
        invariant 0 <= i <= |toDels| <= |old(cache)|
        invariant Valid() && cache == old(cache)[i..]
      {
        assert cache[0] == old(cache)[i];
        var r := DelItem(toDels[i]);
        assert old(cache)[i..][1..] == old(cache)[i + 1..];
        i := i + 1;
      }
    }

    method Len(now: real) returns (n: nat)
      requires Valid()
      modifies this
      ensures Valid()
      ensures cache == Expire(old(cache), now, ttl) && n == |cache|
    {
      CleanExpired(now);
      n := |cache|;
    }

    method GetItem(k: K, scan: real, refresh: real) returns (r: Result<V, Missing<K>>)
      requires Valid()
      modifies this
      ensures Valid()
      ensures (cache, r) == Lookup(old(cache), ttl, k, scan, refresh)
    {
      CleanExpired(scan);
      if !Has(cache, k) {
        return Err(KeyError(k));
      }
      var (value, lastAccess) := Get(cache, k);
      ghost var live := cache;
      cache := MoveToEnd(cache, k);
      TouchIsDeleteThenAppend(live, k, (value, lastAccess));
      TouchIsDeleteThenAppend(live, k, (value, refresh));
      DeleteKeeps(live, k);
      PutKeeps(Delete(live, k), k, (value, refresh));
      cache := Put(cache, k, (value, refresh));
      return Ok(value);
    }

    method SetItem(k: K, v: V, stamp: real, scan: real)
      requires Valid()
      modifies this
      ensures Valid()
      ensures cache == Store(old(cache), ttl, maxSize, k, v, stamp, scan)
    {
      DeleteKeeps(cache, k);
      PutKeeps(Delete(cache, k), k, (v, stamp));
      if Has(cache, k) {
        TouchIsDeleteThenAppend(cache, k, (v, stamp));
        cache := MoveToEnd(cache, k);
      } else {
        DeleteAbsent(cache, k);
        PutKeeps(cache, k, (v, stamp));
      }
      cache := Put(cache, k, (v, stamp));
      assert cache == Touched(old(cache), k, v, stamp);
      var n := Len(scan);
      if n > maxSize {
        var toDel := cache[0].0;
        var r := DelItem(toDel);
      }
    }

    method GetOrDefault(k: K, default: Option<V>, scan: real, refresh: real) returns (r: Option<V>)
      requires Valid()
      modifies this
      ensures Valid()
      ensures cache == Lookup(old(cache), ttl, k, scan, refresh).0
      ensures r == match Lookup(old(cache), ttl, k, scan, refresh).1
                   case Ok(v) => Some(v)
                   case Err(_) => default
    {
      var found := GetItem(k, scan, refresh);
      match found
      case Ok(v) => return Some(v);
      case Err(_) => return default;
    }
  }

  // `get_tools`: the two cache calls it makes, with the readings of each.
  function GetOrCreate<K(==), V>(d: Entries<K, V>, ttl: real, maxSize: nat, k: K, created: V,
                                 scan: real, refresh: real, stamp: real, rescan: real)
    : (Entries<K, V>, V)
  {
    match Lookup(d, ttl, k, scan, refresh)
    case (live, Ok(tool)) => (live, tool)
    case (live, Err(_)) => (Store(live, ttl, maxSize, k, created, stamp, rescan), created)
  }

  // `created` is what `KubectlToolSet(session_id)` would build.
  method GetTools<K(==), V>(sessions: SlidingLRUSessionCache<K, V>, sessionId: K, created: V,
                            scan: real, refresh: real, stamp: real, rescan: real)
    returns (tool: V)
    requires sessions.Valid()
    modifies sessions
    ensures sessions.Valid()
    ensures (sessions.cache, tool)
         == GetOrCreate(old(sessions.cache), sessions.ttl, sessions.maxSize, sessionId, created,
                        scan, refresh, stamp, rescan)
  {
    var found := sessions.GetOrDefault(sessionId, None, scan, refresh);
    if found.Some? {
      return found.value;
    }
    sessions.SetItem(sessionId, created, stamp, rescan);
    return created;
  }
}
