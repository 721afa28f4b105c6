/**
 * The weather provider's cache: readings stay good for ten minutes, at most five hundred
 * locations are remembered. Proved to agree with the log of what was stored.
 */
module WeatherCache {
  import opened Base
  import opened BoundedMap

  const CACHE_TTL := 10 * 60 * SECOND
  const CACHE_MAX: nat := 500

  type Entries<Stamp> = map<string, Stamped<Stamp>>

  // ----- One step -----

  function Peek<Stamp>(m: Entries<Stamp>, key: string, now: int): Option<Stamp> {
    match Current(m, key, now, CACHE_TTL)
    case None => None
    case Some(e) => Some(e.value)
  }

  function AfterLookup<Stamp>(m: Entries<Stamp>, key: string, now: int): Entries<Stamp> {
    if key in m && Current(m, key, now, CACHE_TTL) == None then m - {key} else m
  }

  ghost function AfterStore<Stamp>(m: Entries<Stamp>, key: string, stamp: Stamp, now: int, victim: Option<string>)
    : Entries<Stamp>
  {
    Room(m, now, CACHE_TTL, CACHE_MAX, victim)[key := Stamped(stamp, now)]
  }

  // ----- Histories -----

  datatype Op<Stamp> =
    | Looked(key: string, now: int, hit: Option<Stamp>)
    | Stored(key: string, now: int, stamp: Stamp, victim: Option<string>)

  ghost function StateAfter<Stamp>(h: seq<Op<Stamp>>): Entries<Stamp> {
    if h == [] then map[]
    else
      var before := StateAfter(h[..|h| - 1]);
      match h[|h| - 1]
      case Looked(key, now, _) => AfterLookup(before, key, now)
      case Stored(key, now, stamp, victim) => AfterStore(before, key, stamp, now, victim)
  }

  ghost predicate ValidHistory<Stamp>(h: seq<Op<Stamp>>) {
    h == [] ||
    var before, op := h[..|h| - 1], h[|h| - 1];
    && ValidHistory(before)
    && (before == [] || before[|before| - 1].now <= op.now)
    && match op
       case Looked(key, now, hit) => hit == Peek(StateAfter(before), key, now)
       case Stored(key, now, _, victim) => MayEvict(StateAfter(before), now, CACHE_TTL, CACHE_MAX, victim)
  }

  class Cache<Stamp> {
    var cache: Entries<Stamp>
    /** With the lock poisoned nothing is found and nothing is kept. */
    var poisoned: bool
    ghost var history: seq<Op<Stamp>>

    ghost predicate Valid()
      reads this
    {
      ValidHistory(history) && cache == StateAfter(history)
    }

    ghost predicate NotBefore(now: int)
      reads this
    {
      history == [] || history[|history| - 1].now <= now
    }

    constructor ()
      ensures Valid() && history == [] && !poisoned
    {
      cache, poisoned, history := map[], false, [];
    }

    method Cached(key: string, now: int) returns (hit: Option<Stamp>)
      requires Valid() && NotBefore(now)
      modifies this
      ensures Valid() && poisoned == old(poisoned)
      ensures poisoned ==> hit == None && cache == old(cache) && history == old(history)
      ensures !poisoned ==> history == old(history) + [Looked(key, now, hit)]
    {
      if poisoned {
        return None;
      }
      hit := None;
      ghost var op := Looked(key, now, Peek(cache, key, now));
      HistoryGrows(history, op);
      if key in cache {
        if now - cache[key].at < CACHE_TTL {
          hit := Some(cache[key].value);
        } else {
          cache := cache - {key};
        }
      }
      history := history + [op];
    }

    method Store(key: string, stamp: Stamp, now: int) returns (ghost victim: Option<string>)
      requires Valid() && NotBefore(now)
      modifies this
      ensures Valid() && poisoned == old(poisoned)
      ensures poisoned ==> cache == old(cache) && history == old(history)
      ensures !poisoned ==> history == old(history) + [Stored(key, now, stamp, victim)]
    {
      victim := None;
      if poisoned {
        return;
      }
      var room, evicted := MakeRoom(cache, now, CACHE_TTL, CACHE_MAX);
      victim := evicted;
      HistoryGrows(history, Stored(key, now, stamp, victim));
      cache := room[key := Stamped(stamp, now)];
      history := history + [Stored(key, now, stamp, victim)];
    }
  }

  lemma HistoryGrows<Stamp>(h: seq<Op<Stamp>>, op: Op<Stamp>)
    requires ValidHistory(h) && (h == [] || h[|h| - 1].now <= op.now)
    requires op.Looked? ==> op.hit == Peek(StateAfter(h), op.key, op.now)
    requires op.Stored? ==> MayEvict(StateAfter(h), op.now, CACHE_TTL, CACHE_MAX, op.victim)
    ensures ValidHistory(h + [op])
    ensures StateAfter(h + [op]) ==
      if op.Looked? then AfterLookup(StateAfter(h), op.key, op.now)
      else AfterStore(StateAfter(h), op.key, op.stamp, op.now, op.victim)
  {
    assert (h + [op])[..|h|] == h;
  }

  // ----- What the log says -----

  /** The latest reading stored under a key, unless it was given up since. */
  ghost function Latest<Stamp>(h: seq<Op<Stamp>>, key: string): Option<Stamped<Stamp>> {
    if h == [] then None
    else
      var before, op := h[..|h| - 1], h[|h| - 1];
      if op.Stored? && op.key == key then Some(Stamped(op.stamp, op.now))
      else if op.Stored? && op.victim == Some(key) then None
      else Latest(before, key)
  }

  lemma {:induction false} MapAgreesWithLog<Stamp>(h: seq<Op<Stamp>>, key: string, now: int)
    requires ValidHistory(h) && (h == [] || h[|h| - 1].now <= now)
    ensures Current(StateAfter(h), key, now, CACHE_TTL) == Unexpired(Latest(h, key), now, CACHE_TTL)
  {
    if h != [] {
      var before, op := h[..|h| - 1], h[|h| - 1];
      MapAgreesWithLog(before, key, op.now);
      if op.Stored? {
        RoomIsUnobservable(StateAfter(before), op.now, CACHE_TTL, CACHE_MAX, op.victim, key);
      }
    }
  }

  lemma {:induction false} PrefixIsValid<Stamp>(h: seq<Op<Stamp>>, i: nat)
    requires ValidHistory(h) && i <= |h|
    ensures ValidHistory(h[..i])
    decreases |h|
  {
    if i < |h| {
      assert h[..|h| - 1][..i] == h[..i];
      PrefixIsValid(h[..|h| - 1], i);
    } else {
      assert h[..i] == h;
    }
  }

  /**
   * A lookup hits exactly when the latest reading stored under its key is younger than the TTL
   * and was not given up since; what it returns is that reading.
   */
  lemma HitsAreLatestStores<Stamp>(h: seq<Op<Stamp>>, i: nat)
    requires ValidHistory(h) && i < |h| && h[i].Looked?
    ensures var stored := Latest(h[..i], h[i].key);
      h[i].hit ==
        if stored.Some? && h[i].now - stored.value.at < 600_000_000_000 then Some(stored.value.value) else None
  {
    PrefixIsValid(h, i + 1);
    assert h[..i + 1][..i] == h[..i];
    MapAgreesWithLog(h[..i], h[i].key, h[i].now);
  }

  /** The reading `Latest` names was stored under that key, and nothing was stored under it since. */
  lemma {:induction false} LatestIsAStore<Stamp>(h: seq<Op<Stamp>>, key: string) returns (i: nat)
    requires Latest(h, key).Some?
    ensures i < |h| && h[i].Stored? && h[i].key == key
    ensures Latest(h, key).value == Stamped(h[i].stamp, h[i].now)
    ensures forall j :: i < j < |h| && h[j].Stored? ==> h[j].key != key && h[j].victim != Some(key)
  {
    var before, op := h[..|h| - 1], h[|h| - 1];
    if op.Stored? && op.key == key {
      i := |h| - 1;
    } else {
      i := LatestIsAStore(before, key);
      forall j | i < j < |h| && h[j].Stored? ensures h[j].key != key && h[j].victim != Some(key) {
        assert j < |before| ==> before[j] == h[j];
      }
    }
  }

  lemma {:induction false} CacheStaysBounded<Stamp>(h: seq<Op<Stamp>>)
    requires ValidHistory(h)
    ensures |StateAfter(h)| <= 500
  {
    if h != [] {
      var before, op := h[..|h| - 1], h[|h| - 1];
      var m := StateAfter(before);
      CacheStaysBounded(before);
      match op
      case Looked(key, now, _) =>
        SubsetIsSmaller(AfterLookup(m, key, now).Keys, m.Keys);
        assert |AfterLookup(m, key, now).Keys| == |AfterLookup(m, key, now)| && |m.Keys| == |m|;
      case Stored(key, now, stamp, victim) =>
        RoomThenInsert(m, now, CACHE_TTL, CACHE_MAX, victim, key, Stamped(stamp, now));
    }
  }

  /**
   * A store forgets a still-valid reading of another location only when the cache is full and
   * every one of its five hundred readings is valid, and then it is one of the oldest.
   */
  lemma StoreForgetsOnlyWhenFull<Stamp>(h: seq<Op<Stamp>>, key: string, stamp: Stamp, now: int,
      victim: Option<string>, other: string)
    requires ValidHistory(h + [Stored(key, now, stamp, victim)])
    requires other != key && Peek(StateAfter(h), other, now).Some?
    ensures var m, after := StateAfter(h), StateAfter(h + [Stored(key, now, stamp, victim)]);
      && (other !in after <==> victim == Some(other))
      && (other !in after ==>
        && |m| == 500
        && (forall k :: k in m ==> Peek(m, k, now).Some? && m[other].at <= m[k].at))
      && (other in after ==> after[other] == m[other])
  {
    var op := Stored(key, now, stamp, victim);
    assert (h + [op])[..|h|] == h;
    var m := StateAfter(h);
    CacheStaysBounded(h);
    OnlyFullMapsForget(m, now, CACHE_TTL, CACHE_MAX, victim, other);
    if victim == Some(other) {
      forall k | k in m ensures Peek(m, k, now).Some? { assert k in Purge(m, now, CACHE_TTL); }
    }
  }
}
