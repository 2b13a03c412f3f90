/**
 * The coordinate lookup of `tasks/mapping.py`: `get_osm_coordinates`, which asks the Nominatim
 * search service with a bounded number of attempts and a doubling wait after each failed one,
 * and the loop of `generate_germany_map` that resolves every unique city through a coordinate cache.
 *
 * The HTTP service is a function from the request URL and the attempt number to a reply (its
 * status code and the list of places in its JSON body). Coordinates are opaque values of a type
 * parameter `C`; Python's truthiness test on them is a predicate parameter. Waits are recorded as
 * ghost values instead of being slept.
 */
module Mapping {
  import opened Options

  const DefaultCountry := "Germany"
  const DefaultRetries := 5
  const DefaultBackoffFactor := 1
  const SuccessStatus := 200
  const RateLimitStatus := 429

  /** A latitude/longitude pair: a place of the reply body, and what the caches hold. */
  datatype Point<C> = Point(lat: C, lon: C)

  datatype Reply<C> = Reply(status: int, places: seq<Point<C>>)

  /** The search service: its reply to attempt number `n` (from 0) of a request for a URL. */
  type Geocoder<C> = (string, nat) -> Reply<C>

  /** The result of `get_osm_coordinates`: a pair, or `(None, None)`. */
  datatype Lookup<C> = Found(point: Point<C>) | Failed

  /** A lookup's result with the number of requests it issued and the waits it made, in order. */
  datatype Attempted<C> = Attempted(result: Lookup<C>, requests: nat, sleeps: seq<int>)

  function SearchUrl(city: string, country: string): string
  {
    "https://nominatim.openstreetmap.org/search?q=" + city + "," + country + "&format=json&limit=1"
  }

  /** The test of line 25: status 200 and a non-empty JSON list. */
  predicate Succeeded<C>(reply: Reply<C>)
  {
    reply.status == SuccessStatus && |reply.places| > 0
  }

  /** The number of iterations of `range(retries)`. */
  function AttemptCount(retries: int): nat
  {
    if retries <= 0 then 0 else retries
  }

  function Pow2(n: nat): (p: nat)
    ensures p >= 1
  {
    if n == 0 then 1 else 2 * Pow2(n - 1)
  }

  /** The waits made after `n` failed attempts when the factor starts at `b` and doubles each time. */
  function Backoffs(b: int, n: nat): (s: seq<int>)
    ensures |s| == n
  {
    if n == 0 then [] else Backoffs(b, n - 1) + [b * Pow2(n - 1)]
  }

  function Total(s: seq<int>): int
  {
    if s == [] then 0 else Total(s[..|s| - 1]) + s[|s| - 1]
  }

  /** The first attempt in `from..n` whose reply succeeds. */
  function FirstSuccess<C>(geocoder: Geocoder<C>, url: string, from: nat, n: nat): (k: Option<nat>)
    ensures k.Some? ==> from <= k.value < n && Succeeded(geocoder(url, k.value))
    ensures k.Some? ==> forall j :: from <= j < k.value ==> !Succeeded(geocoder(url, j))
    ensures k.None? <==> forall j :: from <= j < n ==> !Succeeded(geocoder(url, j))
    decreases n - from
  {
    if from >= n then None
    else if Succeeded(geocoder(url, from)) then Some(from)
    else FirstSuccess(geocoder, url, from + 1, n)
  }

  /** What a lookup that reaches the service does. */
  function Geocode<C>(geocoder: Geocoder<C>, url: string, retries: int, backoffFactor: int): Attempted<C>
  {
    var n := AttemptCount(retries);
    match FirstSuccess(geocoder, url, 0, n)
    case Some(k) => Attempted(Found(geocoder(url, k).places[0]), k + 1, Backoffs(backoffFactor, k))
    case None => Attempted(Failed, n, Backoffs(backoffFactor, n))
  }

  /** The short-circuit of line 15: a non-empty cache that holds the city. */
  predicate CacheHit<C>(cache: Option<map<string, Point<C>>>, city: string)
  {
    cache.Some? && |cache.value| != 0 && city in cache.value
  }

  method GetOsmCoordinates<C>(city: string, country: string, cache: Option<map<string, Point<C>>>,
                              retries: int, backoffFactor: int, geocoder: Geocoder<C>)
    returns (r: Lookup<C>, ghost requests: nat, ghost sleeps: seq<int>)
    ensures CacheHit(cache, city) ==> r == Found(cache.value[city]) && requests == 0 && sleeps == []
    ensures !CacheHit(cache, city) ==> r == Geocode(geocoder, SearchUrl(city, country), retries, backoffFactor).result
    ensures !CacheHit(cache, city) ==>
            var a := Geocode(geocoder, SearchUrl(city, country), retries, backoffFactor);
            requests == a.requests && sleeps == a.sleeps
  {
    if cache.Some? && |cache.value| != 0 && city in cache.value {
      return Found(cache.value[city]), 0, [];
    }
    var url := SearchUrl(city, country);
    var n := AttemptCount(retries);
    var backoff := backoffFactor;
    requests, sleeps := 0, [];
    var attempt := 0;
    while attempt < n
      invariant 0 <= attempt <= n && requests == attempt
      invariant backoff == backoffFactor * Pow2(attempt)
      invariant sleeps == Backoffs(backoffFactor, attempt)
      invariant forall j :: 0 <= j < attempt ==> !Succeeded(geocoder(url, j))
    {
      var reply := geocoder(url, attempt);
      requests := requests + 1;
      if reply.status == SuccessStatus && |reply.places| > 0 {
        return Found(reply.places[0]), requests, sleeps;
      } else if reply.status == RateLimitStatus {
        sleeps := sleeps + [backoff];
        backoff := backoff * 2;
      } else {
        sleeps := sleeps + [backoff];
        backoff := backoff * 2;
      }
      assert backoff == backoffFactor * (2 * Pow2(attempt));
      attempt := attempt + 1;
    }
    r := Failed;
  }

  // ---------------------------------------------------------------------------------------
  // Properties of a lookup

  lemma {:induction false} BackoffsShape(b: int, n: nat)
    ensures forall i :: 0 <= i < n ==> Backoffs(b, n)[i] == b * Pow2(i)
  {
    if n > 0 {
      BackoffsShape(b, n - 1);
    }
  }

  /** Each wait is twice the one before it. */
  lemma BackoffsDouble(b: int, n: nat)
    ensures forall i :: 0 < i < n ==> Backoffs(b, n)[i] == 2 * Backoffs(b, n)[i - 1]
  {
  }

  /** The waits of `n` failed attempts add up to `b * (2^n - 1)`. */
  lemma {:induction false} BackoffsTotal(b: int, n: nat)
    ensures Total(Backoffs(b, n)) == b * (Pow2(n) - 1)
  {
    if n > 0 {
      BackoffsTotal(b, n - 1);
      var s := Backoffs(b, n);
      assert s[..|s| - 1] == Backoffs(b, n - 1);
      Distribute(b, Pow2(n - 1));
    }
  }

  lemma Distribute(b: int, p: int)
    ensures b * (p - 1) + b * p == b * (2 * p - 1)
  {
  }

  /**
   * At most `retries` requests, none when `retries <= 0`; one wait after every failed request,
   * including the last one, and none after the successful one.
   */
  lemma GeocodeBounded<C>(geocoder: Geocoder<C>, url: string, retries: int, backoffFactor: int)
    ensures var a := Geocode(geocoder, url, retries, backoffFactor);
            && (retries > 0 ==> a.requests <= retries)
            && |a.sleeps| == (if a.result.Found? then a.requests - 1 else a.requests)
            && (retries <= 0 ==> a == Attempted(Failed, 0, []))
  {
  }

  /**
   * The result is the first place of the first successful reply, in attempt order; the lookup
   * fails exactly when no attempt succeeds.
   */
  lemma GeocodeFirstSuccess<C>(geocoder: Geocoder<C>, url: string, retries: int, backoffFactor: int)
    ensures var a := Geocode(geocoder, url, retries, backoffFactor);
            && (a.result.Failed? <==> forall j: nat :: j < retries ==> !Succeeded(geocoder(url, j)))
            && (a.result.Found? ==>
                  && a.requests >= 1
                  && Succeeded(geocoder(url, a.requests - 1))
                  && a.result.point == geocoder(url, a.requests - 1).places[0]
                  && forall j :: 0 <= j < a.requests - 1 ==> !Succeeded(geocoder(url, j)))
  {
  }

  /** When every attempt fails the waits are `b, 2b, ..., 2^(retries-1) b`. */
  lemma GeocodeAllFail<C>(geocoder: Geocoder<C>, url: string, retries: int, backoffFactor: int)
    requires forall j: nat :: j < retries ==> !Succeeded(geocoder(url, j))
    ensures var a := Geocode(geocoder, url, retries, backoffFactor);
            && a.result == Failed
            && a.requests == |a.sleeps| == (if retries > 0 then retries else 0)
            && (forall i :: 0 <= i < |a.sleeps| ==> a.sleeps[i] == backoffFactor * Pow2(i))
            && Total(a.sleeps) == backoffFactor * (Pow2(a.requests) - 1)
  {
    var n := AttemptCount(retries);
    assert n == (if retries > 0 then retries else 0);
    assert forall j :: 0 <= j < n ==> !Succeeded(geocoder(url, j));
    assert Geocode(geocoder, url, retries, backoffFactor) == Attempted(Failed, n, Backoffs(backoffFactor, n));
    BackoffsShape(backoffFactor, n);
    BackoffsTotal(backoffFactor, n);
  }

  /** Two replies the lookup cannot tell apart: a 429 and any other failure count the same. */
  ghost predicate SameOutcome<C>(r1: Reply<C>, r2: Reply<C>)
  {
    Succeeded(r1) == Succeeded(r2) && (Succeeded(r1) ==> r1.places[0] == r2.places[0])
  }

  lemma {:induction false} FirstSuccessAgrees<C>(g1: Geocoder<C>, g2: Geocoder<C>, url: string, from: nat, n: nat)
    requires FirstSuccess(g1, url, from, n).Some?
    requires forall j :: from <= j <= FirstSuccess(g1, url, from, n).value ==> SameOutcome(g1(url, j), g2(url, j))
    ensures FirstSuccess(g2, url, from, n) == FirstSuccess(g1, url, from, n)
    decreases n - from
  {
  }

  /**
   * The lookup reads nothing of a reply beyond its success and first place, and no reply after
   * the last request it issued: services that agree on those give the same lookup.
   */
  lemma GeocodeIgnoresRest<C>(g1: Geocoder<C>, g2: Geocoder<C>, url: string, retries: int, backoffFactor: int)
    requires forall j :: 0 <= j < Geocode(g1, url, retries, backoffFactor).requests ==> SameOutcome(g1(url, j), g2(url, j))
    ensures Geocode(g2, url, retries, backoffFactor) == Geocode(g1, url, retries, backoffFactor)
  {
  }

  // ---------------------------------------------------------------------------------------
  // The city loop of generate_germany_map

  /** The test `if lat and lon` of line 94. */
  predicate Usable<C>(lookup: Lookup<C>, truthy: C -> bool)
  {
    lookup.Found? && truthy(lookup.point.lat) && truthy(lookup.point.lon)
  }

  /** The lookup the loop makes for an uncached city, with the default retries and factor. */
  function CityLookup<C>(geocoder: Geocoder<C>, city: string): Attempted<C>
  {
    Geocode(geocoder, SearchUrl(city, DefaultCountry), DefaultRetries, DefaultBackoffFactor)
  }

  /**
   * The loop's state: the coordinate cache, the coordinates found for the plotted cities, the
   * cities that were not cached, and (as ghost counters of the method) the one-second pauses
   * and the requests issued.
   */
  datatype Fill<C> = Fill(cache: map<string, Point<C>>, coords: map<string, Point<C>>,
                          uncached: seq<string>, pauses: nat, requests: nat)

  function ResolveCity<C>(st: Fill<C>, geocoder: Geocoder<C>, truthy: C -> bool, city: string): Fill<C>
  {
    if city in st.cache then
      st.(coords := st.coords[city := st.cache[city]])
    else
      var lookup := CityLookup(geocoder, city);
      var st1 := st.(uncached := st.uncached + [city], requests := st.requests + lookup.requests);
      if Usable(lookup.result, truthy) then
        var p := lookup.result.point;
        st1.(coords := st.coords[city := p], cache := st.cache[city := p], pauses := st.pauses + 1)
      else
        st1
  }

  function ResolveCities<C>(st: Fill<C>, geocoder: Geocoder<C>, truthy: C -> bool, cities: seq<string>): Fill<C>
    decreases |cities|
  {
    if cities == [] then st else ResolveCities(ResolveCity(st, geocoder, truthy, cities[0]), geocoder, truthy, cities[1..])
  }

  /**
   * Lines 79-102: resolve each unique city through the loaded cache or a lookup, then save the
   * cache once. `saves` records the content of each `save_cache`.
   */
  method FillCityCoordinates<C>(cities: seq<string>, loaded: map<string, Point<C>>, geocoder: Geocoder<C>,
                                truthy: C -> bool)
    returns (cache: map<string, Point<C>>, coords: map<string, Point<C>>, uncached: seq<string>,
             ghost pauses: nat, ghost requests: nat, ghost saves: seq<map<string, Point<C>>>)
    ensures var r := ResolveCities(Fill(loaded, map[], [], 0, 0), geocoder, truthy, cities);
            cache == r.cache && coords == r.coords && uncached == r.uncached
    ensures var r := ResolveCities(Fill(loaded, map[], [], 0, 0), geocoder, truthy, cities);
            pauses == r.pauses && requests == r.requests
    ensures saves == [cache]
  {
    ghost var st0 := Fill(loaded, map[], [], 0, 0);
    cache, coords, uncached, pauses, requests := loaded, map[], [], 0, 0;
    var i := 0;
    while i < |cities|
      invariant 0 <= i <= |cities|
      invariant ResolveCities(st0, geocoder, truthy, cities) ==
                ResolveCities(Fill(cache, coords, uncached, pauses, requests), geocoder, truthy, cities[i..])
    {
      var city := cities[i];
      assert cities[i..][0] == city && cities[i..][1..] == cities[i + 1..];
      ghost var before := Fill(cache, coords, uncached, pauses, requests);
      if city in cache {
        coords := coords[city := cache[city]];
      } else {
        uncached := uncached + [city];
        var lookup, n, waits := GetOsmCoordinates(city, DefaultCountry, Some(cache), DefaultRetries,
                                                  DefaultBackoffFactor, geocoder);
        requests := requests + n;
        if lookup.Found? && truthy(lookup.point.lat) && truthy(lookup.point.lon) {
          coords := coords[city := lookup.point];
          cache := cache[city := lookup.point];
          pauses := pauses + 1;
        }
      }
      assert Fill(cache, coords, uncached, pauses, requests) == ResolveCity(before, geocoder, truthy, city);
      i := i + 1;
    }
    saves := [cache];
  }

  // ---------------------------------------------------------------------------------------
  // Properties of the city loop

  /** Every coordinate found is the cache's entry for that city. */
  ghost predicate CoordsFromCache<C>(st: Fill<C>)
  {
    forall k :: k in st.coords ==> k in st.cache && st.coords[k] == st.cache[k]
  }

  lemma ResolveCityGrows<C>(st: Fill<C>, geocoder: Geocoder<C>, truthy: C -> bool, city: string)
    requires CoordsFromCache(st)
    ensures var r := ResolveCity(st, geocoder, truthy, city);
            && CoordsFromCache(r)
            && (forall k :: k in st.cache ==> k in r.cache && r.cache[k] == st.cache[k])
            && (forall k :: k in r.cache && k !in st.cache ==> k == city)
            && (city !in st.cache ==> (city in r.cache <==> Usable(CityLookup(geocoder, city).result, truthy)))
            && (forall k :: k in r.coords <==> k in st.coords || (k == city && city in r.cache))
            && r.pauses - st.pauses == |r.cache| - |st.cache|
  {
    if city !in st.cache {
      var lookup := CityLookup(geocoder, city);
      if Usable(lookup.result, truthy) {
        var p := lookup.result.point;
        assert ResolveCity(st, geocoder, truthy, city).cache == st.cache[city := p];
        assert |st.cache[city := p]| == |st.cache| + 1;
      } else {
        assert ResolveCity(st, geocoder, truthy, city).cache == st.cache;
      }
    }
  }

  /**
   * The cache only grows: no entry is changed or removed. A city not cached before is added
   * exactly when it is one of the cities and its lookup gave truthy coordinates, and then it holds
   * the looked-up point. The found coordinates are those of the cities now in the cache, and
   * there is one pause per newly cached city.
   */
  lemma {:induction false} ResolveCitiesGrows<C>(st: Fill<C>, geocoder: Geocoder<C>, truthy: C -> bool, cities: seq<string>)
    requires CoordsFromCache(st)
    ensures var r := ResolveCities(st, geocoder, truthy, cities);
            && CoordsFromCache(r)
            && (forall k :: k in st.cache ==> k in r.cache && r.cache[k] == st.cache[k])
            && (forall k :: k in r.cache && k !in st.cache ==>
                  k in cities && Usable(CityLookup(geocoder, k).result, truthy) &&
                  r.cache[k] == CityLookup(geocoder, k).result.point)
            && (forall k :: k in cities && k !in st.cache && Usable(CityLookup(geocoder, k).result, truthy) ==> k in r.cache)
            && (forall k :: k in r.coords <==> k in st.coords || (k in cities && k in r.cache))
            && r.pauses - st.pauses == |r.cache| - |st.cache|
    decreases |cities|
  {
    if cities != [] {
      var city := cities[0];
      var st1 := ResolveCity(st, geocoder, truthy, city);
      ResolveCityGrows(st, geocoder, truthy, city);
      ResolveCitiesGrows(st1, geocoder, truthy, cities[1..]);
      var r := ResolveCities(st1, geocoder, truthy, cities[1..]);
      assert r == ResolveCities(st, geocoder, truthy, cities);
      assert forall k :: k in cities <==> k == city || k in cities[1..];
      forall k | k in r.cache && k !in st.cache
        ensures k in cities && Usable(CityLookup(geocoder, k).result, truthy)
        ensures r.cache[k] == CityLookup(geocoder, k).result.point
      {
        if k in st1.cache {
          assert k == city;
        }
      }
    }
  }

  /** A city whose lookup fails (and was not cached) is in neither map afterwards. */
  lemma FailedCityAbsent<C>(loaded: map<string, Point<C>>, geocoder: Geocoder<C>, truthy: C -> bool,
                            cities: seq<string>, city: string)
    requires city !in loaded && !Usable(CityLookup(geocoder, city).result, truthy)
    ensures var r := ResolveCities(Fill(loaded, map[], [], 0, 0), geocoder, truthy, cities);
            city !in r.cache && city !in r.coords
  {
    ResolveCitiesGrows(Fill(loaded, map[], [], 0, 0), geocoder, truthy, cities);
  }

  /** One city is listed as uncached exactly when it is not in the cache, and it is the only key it may add. */
  lemma ResolveCityListed<C>(st: Fill<C>, geocoder: Geocoder<C>, truthy: C -> bool, city: string)
    ensures var r := ResolveCity(st, geocoder, truthy, city);
            && r.uncached == st.uncached + (if city in st.cache then [] else [city])
            && (forall k :: k != city ==> (k in r.cache <==> k in st.cache))
  {
  }

  /** A cached city costs nothing; an uncached one costs at most five requests and one pause. */
  lemma ResolveCityCost<C>(st: Fill<C>, geocoder: Geocoder<C>, truthy: C -> bool, city: string)
    ensures var r := ResolveCity(st, geocoder, truthy, city);
            && |r.uncached| - |st.uncached| == (if city in st.cache then 0 else 1)
            && r.requests - st.requests <= DefaultRetries * (|r.uncached| - |st.uncached|)
            && r.pauses - st.pauses <= |r.uncached| - |st.uncached|
  {
    GeocodeBounded(geocoder, SearchUrl(city, DefaultCountry), DefaultRetries, DefaultBackoffFactor);
  }

  /**
   * Requests and pauses happen only for uncached cities: at most five requests and one pause
   * each, so a run in which every city is cached issues no request and makes no pause.
   */
  lemma {:induction false} ResolveCitiesCost<C>(st: Fill<C>, geocoder: Geocoder<C>, truthy: C -> bool, cities: seq<string>)
    ensures var r := ResolveCities(st, geocoder, truthy, cities);
            && |st.uncached| <= |r.uncached|
            && r.requests - st.requests <= DefaultRetries * (|r.uncached| - |st.uncached|)
            && r.pauses - st.pauses <= |r.uncached| - |st.uncached|
    decreases |cities|
  {
    if cities != [] {
      var st1 := ResolveCity(st, geocoder, truthy, cities[0]);
      ResolveCityCost(st, geocoder, truthy, cities[0]);
      ResolveCitiesCost(st1, geocoder, truthy, cities[1..]);
    }
  }

  /** No city occurs twice, as in the output of `unique()`. */
  ghost predicate Distinct(cities: seq<string>)
  {
    forall i, j :: 0 <= i < j < |cities| ==> cities[i] != cities[j]
  }

  lemma DistinctTail(cities: seq<string>)
    requires Distinct(cities) && cities != []
    ensures Distinct(cities[1..]) && cities[0] !in cities[1..]
  {
  }

  /** Over distinct cities, the uncached list is the cities missing from the loaded cache, in order. */
  lemma {:induction false} ResolveCitiesUncached<C>(st: Fill<C>, geocoder: Geocoder<C>, truthy: C -> bool, cities: seq<string>)
    requires Distinct(cities)
    ensures ResolveCities(st, geocoder, truthy, cities).uncached == st.uncached + Uncached(st.cache, cities)
    decreases |cities|
  {
    if cities == [] {
      assert st.uncached + [] == st.uncached;
    } else {
      var city, rest := cities[0], cities[1..];
      var st1 := ResolveCity(st, geocoder, truthy, city);
      var listed := if city in st.cache then [] else [city];
      DistinctTail(cities);
      ResolveCityListed(st, geocoder, truthy, city);
      UncachedStep(st.cache, st1.cache, city, rest);
      assert cities == [city] + rest;
      ResolveCitiesUncached(st1, geocoder, truthy, rest);
      AppendListed(st.uncached, st1.uncached, listed, Uncached(st.cache, rest), Uncached(st.cache, cities),
                   ResolveCities(st1, geocoder, truthy, rest).uncached);
    }
  }

  lemma AppendListed(u0: seq<string>, u1: seq<string>, listed: seq<string>, tail: seq<string>, full: seq<string>, final: seq<string>)
    requires u1 == u0 + listed && full == listed + tail && final == u1 + tail
    ensures final == u0 + full
  {
  }

  /** Listing a city in front of others, after a step that may add only that city to the cache. */
  lemma UncachedStep<C>(c1: map<string, Point<C>>, c2: map<string, Point<C>>, city: string, rest: seq<string>)
    requires city !in rest
    requires forall k :: k != city ==> (k in c2 <==> k in c1)
    ensures Uncached(c2, rest) == Uncached(c1, rest)
    ensures Uncached(c1, [city] + rest) == (if city in c1 then [] else [city]) + Uncached(c1, rest)
  {
    UncachedSameMembership(c1, c2, rest);
    assert ([city] + rest)[1..] == rest;
  }

  /** The cities, in order, that are not keys of `cache`. */
  function Uncached<C>(cache: map<string, Point<C>>, cities: seq<string>): (u: seq<string>)
    ensures forall k :: k in u <==> k in cities && k !in cache
  {
    if cities == [] then []
    else (if cities[0] in cache then [] else [cities[0]]) + Uncached(cache, cities[1..])
  }

  lemma {:induction false} UncachedSameMembership<C>(c1: map<string, Point<C>>, c2: map<string, Point<C>>, cities: seq<string>)
    requires forall k :: k in cities ==> (k in c1 <==> k in c2)
    ensures Uncached(c2, cities) == Uncached(c1, cities)
    decreases |cities|
  {
    if cities != [] {
      assert cities[0] in cities;
      assert forall k :: k in cities[1..] ==> k in cities;
      UncachedSameMembership(c1, c2, cities[1..]);
    }
  }

  /** The whole loop, from the loaded cache: everything above, for `generate_germany_map`. */
  lemma CityLoop<C>(cities: seq<string>, loaded: map<string, Point<C>>, geocoder: Geocoder<C>, truthy: C -> bool)
    requires Distinct(cities)
    ensures var r := ResolveCities(Fill(loaded, map[], [], 0, 0), geocoder, truthy, cities);
            && (forall k :: k in loaded ==> k in r.cache && r.cache[k] == loaded[k])
            && (forall k :: k in r.coords <==> k in cities && k in r.cache)
            && (forall k :: k in r.coords ==> r.coords[k] == r.cache[k])
            && r.uncached == Uncached(loaded, cities)
            && r.pauses == |r.cache| - |loaded| <= |r.uncached|
            && r.requests <= DefaultRetries * |r.uncached|
  {
    var st0 := Fill(loaded, map[], [], 0, 0);
    ResolveCitiesGrows(st0, geocoder, truthy, cities);
    ResolveCitiesCost(st0, geocoder, truthy, cities);
    ResolveCitiesUncached(st0, geocoder, truthy, cities);
    assert [] + Uncached(loaded, cities) == Uncached(loaded, cities);
  }
}
