/** The cache of last vessel positions (ais_cache.py:30-82, 99-113, 184-209). */
module AisCache {
  import opened Common

  datatype Corridor = HormuzGulf | RedSeaSuez | EastMed

  datatype Box = Box(corridor: Corridor, south: real, west: real, north: real, east: real)

  /** The bounding boxes in the order in which they are tried. */
  const BOXES: seq<Box> :=
    [Box(HormuzGulf, 23.5, 52.0, 28.5, 58.5),
     Box(RedSeaSuez, 10.0, 39.0, 16.0, 46.0), Box(RedSeaSuez, 28.0, 30.0, 32.5, 35.5),
     Box(EastMed, 30.0, 18.0, 42.5, 37.0)]

  type Mmsi = nat

  /** `details` stands for the remaining values of a position report. */
  datatype Observation = Observation(mmsi: Mmsi, latitude: real, longitude: real, messageAt: int, receivedAt: int, details: nat)

  type Cache = map<Mmsi, Observation>

  // ---------------------------------------------------------------------------------------
  // Corridors
  // ---------------------------------------------------------------------------------------

  predicate Inside(b: Box, latitude: real, longitude: real) {
    b.south <= latitude <= b.north && b.west <= longitude <= b.east
  }

  method CorridorForPosition(latitude: real, longitude: real) returns (corridor: Option<Corridor>)
    ensures corridor.None? <==> forall i | 0 <= i < |BOXES| :: !Inside(BOXES[i], latitude, longitude)
    ensures corridor.Some? ==>
              exists i | 0 <= i < |BOXES| ::
                && BOXES[i].corridor == corridor.value && Inside(BOXES[i], latitude, longitude)
                && forall j | 0 <= j < i :: !Inside(BOXES[j], latitude, longitude)
  {
    for i := 0 to |BOXES|
      invariant forall j | 0 <= j < i :: !Inside(BOXES[j], latitude, longitude)
    {
      if Inside(BOXES[i], latitude, longitude) {
        return Some(BOXES[i].corridor);
      }
    }
    return None;
  }

  /** Only the Suez approaches lie in two boxes, and are counted with the Red Sea. */
  lemma BoxesOverlapOnlyAtSuez(i: nat, j: nat, latitude: real, longitude: real)
    requires i < j < |BOXES| && Inside(BOXES[i], latitude, longitude) && Inside(BOXES[j], latitude, longitude)
    ensures BOXES[i].corridor == RedSeaSuez && BOXES[j].corridor == EastMed && 30.0 <= latitude <= 32.5 && 30.0 <= longitude <= 35.5
  {
    assert i == 0 || i == 1 || i == 2;
  }

  // ---------------------------------------------------------------------------------------
  // Message times
  // ---------------------------------------------------------------------------------------

  const TOLERANCE: int := 5 * 60

  /** `parsed` is the time in the message's metadata, if there is a readable one. */
  function MessageTime(parsed: Option<int>, receivedAt: int): (time: int)
    ensures time <= receivedAt + TOLERANCE
    ensures parsed == Some(time) || (time == receivedAt && (parsed.Some? ==> receivedAt + TOLERANCE < parsed.value))
  {
    if parsed.None? || parsed.value > receivedAt + TOLERANCE then receivedAt else parsed.value
  }

  // ---------------------------------------------------------------------------------------
  // The cache
  // ---------------------------------------------------------------------------------------

  function Put(cache: Cache, o: Observation): Cache {
    if o.mmsi !in cache || cache[o.mmsi].messageAt <= o.messageAt then cache[o.mmsi := o] else cache
  }

  /** The cache after the first `n` observations have arrived in this order. */
  function CacheAfter(arrivals: seq<Observation>, n: nat): Cache
    requires n <= |arrivals|
  {
    if n == 0 then map[] else Put(CacheAfter(arrivals, n - 1), arrivals[n - 1])
  }

  class PositionCache {
    var rows: Cache

    method CacheObservation(o: Observation) returns (row: Observation)
      modifies this
      ensures rows == Put(old(rows), o)
      ensures o.mmsi in rows && row == rows[o.mmsi]
    {
      if o.mmsi !in rows {
        rows := rows[o.mmsi := o];
      } else if o.messageAt >= rows[o.mmsi].messageAt {
        rows := rows[o.mmsi := o];
      }
      row := rows[o.mmsi];
    }
  }

  /** The last to arrive of the vessel's observations with the greatest message time. */
  ghost predicate IsWinner(arrivals: seq<Observation>, n: nat, m: Mmsi, k: nat)
    requires n <= |arrivals|
  {
    && k < n && arrivals[k].mmsi == m
    && forall j | 0 <= j < n && arrivals[j].mmsi == m ::
         arrivals[j].messageAt < arrivals[k].messageAt || (arrivals[j].messageAt == arrivals[k].messageAt && j <= k)
  }

  predicate WasSeen(arrivals: seq<Observation>, n: nat, m: Mmsi)
    requires n <= |arrivals|
  {
    exists j | 0 <= j < n :: arrivals[j].mmsi == m
  }

  lemma {:induction false} CachedExactlyWhenSeen(arrivals: seq<Observation>, n: nat, m: Mmsi)
    requires n <= |arrivals|
    ensures m in CacheAfter(arrivals, n) <==> WasSeen(arrivals, n, m)
    ensures m in CacheAfter(arrivals, n) ==> CacheAfter(arrivals, n)[m].mmsi == m
  {
    if n > 0 {
      CachedExactlyWhenSeen(arrivals, n - 1, m);
    }
  }

  /** Per vessel the cache holds exactly the winner. */
  lemma {:induction false} CacheHoldsTheWinner(arrivals: seq<Observation>, n: nat, m: Mmsi) returns (k: nat)
    requires n <= |arrivals| && m in CacheAfter(arrivals, n)
    ensures IsWinner(arrivals, n, m, k) && arrivals[k] == CacheAfter(arrivals, n)[m]
  {
    var o := arrivals[n - 1];
    CachedExactlyWhenSeen(arrivals, n - 1, m);
    if m in CacheAfter(arrivals, n - 1) {
      k := CacheHoldsTheWinner(arrivals, n - 1, m);
      if o.mmsi == m && arrivals[k].messageAt <= o.messageAt {
        k := n - 1;
      }
    } else {
      k := n - 1;
    }
  }

  /** No two observations of a vessel have the same message time. */
  ghost predicate TimesDistinct(arrivals: seq<Observation>) {
    forall i, j | 0 <= i < j < |arrivals| && arrivals[i].mmsi == arrivals[j].mmsi :: arrivals[i].messageAt != arrivals[j].messageAt
  }

  /** A winner's message time is the greatest of its vessel's, wherever the observations are. */
  lemma WinnersAgree(arrivals: seq<Observation>, arrivals': seq<Observation>, m: Mmsi, k: nat, l: nat)
    requires multiset(arrivals) == multiset(arrivals') && TimesDistinct(arrivals)
    requires IsWinner(arrivals, |arrivals|, m, k) && IsWinner(arrivals', |arrivals'|, m, l)
    ensures arrivals[k] == arrivals'[l]
  {
    SameElements(arrivals, arrivals');
    assert arrivals[k] in arrivals' && arrivals'[l] in arrivals;
    var i :| 0 <= i < |arrivals| && arrivals[i] == arrivals'[l];
    var j :| 0 <= j < |arrivals'| && arrivals'[j] == arrivals[k];
    assert arrivals[i].messageAt == arrivals[k].messageAt;
  }

  lemma SeenPermutes(arrivals: seq<Observation>, arrivals': seq<Observation>, m: Mmsi)
    requires multiset(arrivals) == multiset(arrivals') && WasSeen(arrivals, |arrivals|, m)
    ensures WasSeen(arrivals', |arrivals'|, m)
  {
    SameElements(arrivals, arrivals');
    var j :| 0 <= j < |arrivals| && arrivals[j].mmsi == m;
    assert arrivals[j] in arrivals';
  }

  /** With distinct message times the order of arrival does not matter. */
  lemma OrderIsIrrelevant(arrivals: seq<Observation>, arrivals': seq<Observation>)
    requires multiset(arrivals) == multiset(arrivals') && TimesDistinct(arrivals)
    ensures CacheAfter(arrivals, |arrivals|) == CacheAfter(arrivals', |arrivals'|)
  {
    hide CacheAfter, TimesDistinct, IsWinner, WasSeen;
    var cache, cache' := CacheAfter(arrivals, |arrivals|), CacheAfter(arrivals', |arrivals'|);
    forall m ensures m in cache <==> m in cache' {
      CachedExactlyWhenSeen(arrivals, |arrivals|, m);
      CachedExactlyWhenSeen(arrivals', |arrivals'|, m);
      if m in cache {
        SeenPermutes(arrivals, arrivals', m);
      } else if m in cache' {
        SeenPermutes(arrivals', arrivals, m);
      }
    }
    forall m | m in cache ensures cache[m] == cache'[m] {
      var k := CacheHoldsTheWinner(arrivals, |arrivals|, m);
      var l := CacheHoldsTheWinner(arrivals', |arrivals'|, m);
      WinnersAgree(arrivals, arrivals', m, k, l);
    }
  }

  /** Two different observations of a vessel with one message time are told apart by arrival only. */
  lemma TiesGoToTheLastArrival(a: Observation, b: Observation)
    requires a.mmsi == b.mmsi && a.messageAt == b.messageAt
    ensures CacheAfter([a, b], 2) == map[a.mmsi := b] && CacheAfter([b, a], 2) == map[a.mmsi := a]
  {
    assert CacheAfter([a, b], 0) == map[] && CacheAfter([a, b], 1) == map[a.mmsi := a];
    assert CacheAfter([b, a], 0) == map[] && CacheAfter([b, a], 1) == map[b.mmsi := b];
  }

  /** A vessel's cached message time never goes back. */
  lemma {:induction false} CachedTimeNeverGoesBack(arrivals: seq<Observation>, m: nat, n: nat, vessel: Mmsi)
    requires m <= n <= |arrivals| && vessel in CacheAfter(arrivals, m)
    ensures vessel in CacheAfter(arrivals, n) && CacheAfter(arrivals, m)[vessel].messageAt <= CacheAfter(arrivals, n)[vessel].messageAt
  {
    if m < n {
      CachedTimeNeverGoesBack(arrivals, m, n - 1, vessel);
    }
  }
}
