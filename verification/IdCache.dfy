/** The cache of request ids by which AODV drops duplicates: aodv-id-cache.h and aodv-id-cache.cc. */
module IdCaches {
  import opened AodvTable

  // Times are simulation times; expire is the last moment at which the id counts as seen.
  datatype UniqueId = UniqueId(context: Address, id: nat, expire: int)

  predicate SameKey(u: UniqueId, addr: Address, id: nat) {
    u.context == addr && u.id == id
  }

  // The records that remove_if keeps, in order.
  function Unexpired(cache: seq<UniqueId>, now: int): seq<UniqueId> {
    if cache == [] then []
    else (if cache[0].expire < now then [] else [cache[0]]) + Unexpired(cache[1..], now)
  }

  ghost predicate UniqueKeys(cache: seq<UniqueId>) {
    forall i, j :: 0 <= i < j < |cache| ==> !SameKey(cache[i], cache[j].context, cache[j].id)
  }

  lemma {:induction false} UnexpiredMembers(cache: seq<UniqueId>, now: int)
    ensures forall u :: u in Unexpired(cache, now) <==> u in cache && u.expire >= now
    ensures UniqueKeys(cache) ==> UniqueKeys(Unexpired(cache, now))
  {
    if cache != [] {
      var rest := Unexpired(cache[1..], now);
      UnexpiredMembers(cache[1..], now);
      if UniqueKeys(cache) {
        forall j | 0 <= j < |rest|
          ensures !SameKey(cache[0], rest[j].context, rest[j].id)
        {
          assert rest[j] in cache[1..];
        }
      }
    }
  }

  // The key has a record among these that has not expired.
  ghost predicate Recorded(history: seq<UniqueId>, addr: Address, id: nat, now: int) {
    exists u :: u in history && SameKey(u, addr, id) && u.expire >= now
  }

  lemma RecordStays(history: seq<UniqueId>, u: UniqueId, now: int)
    ensures forall addr, id :: Recorded(history, addr, id, now) ==> Recorded(history + [u], addr, id, now)
    ensures now <= u.expire ==> Recorded(history + [u], u.context, u.id, now)
  {
    var more := history + [u];
    assert more[|history|] == u;
    assert forall v :: v in history ==> v in more;
  }

  class IdCache {
    var idCache: seq<UniqueId>
    var lifetime: int
    // One record for each earlier call of IsDuplicate that returned false, and the time of the latest call.
    ghost var history: seq<UniqueId>
    ghost var latest: int

    ghost predicate Valid()
      reads this
    {
      && UniqueKeys(idCache)
      && (forall u :: u in idCache ==> u in history)
      && (forall u :: u in history && u.expire >= latest ==> u in idCache)
    }

    // The key was last answered with false at some t0, and t0 plus the lifetime of that moment is not over.
    ghost predicate SeenBefore(addr: Address, id: nat, now: int)
      reads this
    {
      Recorded(history, addr, id, now)
    }

    constructor (lifetime: int, ghost now: int)
      ensures Valid() && history == [] && latest == now && this.lifetime == lifetime
    {
      this.idCache, this.lifetime, this.history, this.latest := [], lifetime, [], now;
    }

    method Purge(now: int)
      requires Valid() && latest <= now
      modifies this
      ensures Valid() && history == old(history) && lifetime == old(lifetime) && latest == now
      ensures forall u :: u in idCache <==> u in history && u in old(idCache) && u.expire >= now
      ensures idCache == Unexpired(old(idCache), now)
    {
      UnexpiredMembers(idCache, now);
      idCache := Unexpired(idCache, now);
      latest := now;
    }

    method IsDuplicate(addr: Address, id: nat, now: int) returns (dup: bool)
      requires Valid() && latest <= now
      modifies this
      ensures Valid() && lifetime == old(lifetime) && latest == now
      ensures dup <==> old(SeenBefore(addr, id, now))
      ensures history == if dup then old(history) else old(history) + [UniqueId(addr, id, old(lifetime) + now)]
    {
      Purge(now);
      for i := 0 to |idCache|
        invariant forall j :: 0 <= j < i ==> !SameKey(idCache[j], addr, id)
      {
        if idCache[i].context == addr && idCache[i].id == id {
          assert idCache[i] in idCache;
          return true;
        }
      }
      idCache := idCache + [UniqueId(addr, id, lifetime + now)];
      history := history + [UniqueId(addr, id, lifetime + now)];
      return false;
    }

    method GetSize(now: int) returns (n: nat)
      requires Valid() && latest <= now
      modifies this
      ensures Valid() && history == old(history) && lifetime == old(lifetime) && latest == now
      ensures n == |Unexpired(old(idCache), now)|
    {
      Purge(now);
      n := |idCache|;
    }

    method SetLifetime(lifetime: int)
      requires Valid()
      modifies this`lifetime
      ensures Valid() && this.lifetime == lifetime
    {
      this.lifetime := lifetime;
    }
  }
}
