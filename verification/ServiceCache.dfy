/** The cache that choosers share: service maps and client counts. */
module ServiceCache {
  import opened Options
  import opened ServiceChoice

  /** Personality stage, location and network together. */
  type Key = nat

  type Maps = map<(Service, Key), seq<Instance>>

  class ChooserCache {
    const maps: Maps  // the closest mapped instances, as the database has them
    var serviceMaps: Maps
    var clientCounts: Counts

    ghost predicate Valid()
      reads this
    {
      && (forall k <- maps, i <- maps[k] :: i.service == k.0)
      && (forall k <- serviceMaps :: k in maps && forall i <- serviceMaps[k] :: i in maps[k])
    }

    constructor (maps: Maps)
      requires forall k <- maps, i <- maps[k] :: i.service == k.0
      ensures Valid() && this.maps == maps && serviceMaps == map[] && clientCounts == map[]
    {
      this.maps, serviceMaps, clientCounts := maps, map[], map[];
    }

    function Offered(service: Service, key: Key): seq<Instance>
      reads this
    {
      if (service, key) in serviceMaps then serviceMaps[(service, key)] else []
    }

    method CacheServiceMaps(services: seq<Service>, key: Key)
      requires Valid()
      modifies `serviceMaps
      ensures Valid()
      ensures forall s <- services :: Offered(s, key) == MappedFor(old(serviceMaps), maps, s, key)
      ensures forall s <- services ::
                if (s, key) in old(serviceMaps) then (s, key) in serviceMaps && serviceMaps[(s, key)] == old(serviceMaps)[(s, key)]
                else if (s, key) in maps then (s, key) in serviceMaps && serviceMaps[(s, key)] == maps[(s, key)]
                else (s, key) !in serviceMaps
      ensures SameOffer(serviceMaps, old(serviceMaps), maps)
    {
      for n := 0 to |services|
        invariant forall k <- old(serviceMaps) :: k in serviceMaps && serviceMaps[k] == old(serviceMaps)[k]
        invariant forall k <- serviceMaps :: k in old(serviceMaps) || (k in maps && serviceMaps[k] == maps[k])
        invariant forall j :: 0 <= j < n && (services[j], key) in maps ==> (services[j], key) in serviceMaps
      {
        var k := (services[n], key);
        if k !in serviceMaps && k in maps {
          serviceMaps := serviceMaps[k := maps[k]];
        }
      }
    }

    /** The number of clients of an instance, asked from the database only once. */
    method ClientCount(i: Instance) returns (n: int)
      modifies `clientCounts
      ensures n == CountOf(old(clientCounts), i) && SameCounts(clientCounts, old(clientCounts))
      ensures n == if i in old(clientCounts) then old(clientCounts)[i] else i.clientCount
    {
      if i !in clientCounts {
        clientCounts := clientCounts[i := i.clientCount];
      }
      n := clientCounts[i];
    }

    method Allocate(i: Instance, footprint: int)
      modifies `clientCounts
      ensures forall j :: CountOf(clientCounts, j) == CountOf(old(clientCounts), j) + (if j == i then footprint else 0)
    {
      if i !in clientCounts {
        clientCounts := clientCounts[i := i.clientCount];
      }
      clientCounts := clientCounts[i := clientCounts[i] + footprint];
    }

    method Unallocate(i: Instance, footprint: int)
      modifies `clientCounts
      ensures forall j :: CountOf(clientCounts, j) == CountOf(old(clientCounts), j) - (if j == i then footprint else 0)
    {
      if i !in clientCounts {
        clientCounts := clientCounts[i := i.clientCount];
      }
      clientCounts := clientCounts[i := clientCounts[i] - footprint];
    }
  }

  /** What a service has to choose from: what the cache has, or what the maps say. */
  function MappedFor(cached: Maps, maps: Maps, service: Service, key: Key): seq<Instance> {
    if (service, key) in cached then cached[(service, key)]
    else if (service, key) in maps then maps[(service, key)]
    else []
  }

  /** Two states of the cache that offer the same, whatever is asked. */
  ghost predicate SameOffer(a: Maps, b: Maps, maps: Maps) {
    forall s, k :: MappedFor(a, maps, s, k) == MappedFor(b, maps, s, k)
  }
}
