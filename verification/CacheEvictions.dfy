/** When the weather cache gives up a reading that is still valid, told from the log of stores alone. */
module CacheEvictions {
  import opened Base
  import opened BoundedMap
  import opened WeatherCache

  /** The latest reading stored under a key, whatever was given up since. */
  ghost function LastStored<Stamp>(h: seq<Op<Stamp>>, key: string): Option<Stamped<Stamp>> {
    if h == [] then None
    else
      var op := h[|h| - 1];
      if op.Stored? && op.key == key then Some(Stamped(op.stamp, op.now)) else LastStored(h[..|h| - 1], key)
  }

  ghost function Keys<Stamp>(h: seq<Op<Stamp>>): set<string> {
    set op | op in h && op.Stored? :: op.key
  }

  /** The locations whose latest reading is still valid at `now`. */
  ghost function ValidKeys<Stamp>(h: seq<Op<Stamp>>, now: int): set<string> {
    set k | k in Keys(h) && Unexpired(LastStored(h, k), now, CACHE_TTL).Some?
  }

  /** The locations something was stored for after a moment. */
  ghost function KeysSince<Stamp>(h: seq<Op<Stamp>>, after: int): set<string> {
    set op | op in h && op.Stored? && op.now > after :: op.key
  }

  ghost predicate Evicts<Stamp>(op: Op<Stamp>) {
    op.Stored? && op.victim.Some?
  }

  ghost predicate NoEvictions<Stamp>(h: seq<Op<Stamp>>) {
    forall i :: 0 <= i < |h| ==> !Evicts(h[i])
  }

  lemma StoreMayEvict<Stamp>(h: seq<Op<Stamp>>, i: nat)
    requires ValidHistory(h) && i < |h| && h[i].Stored?
    ensures ValidHistory(h[..i]) && (i > 0 ==> h[i - 1].now <= h[i].now)
    ensures |StateAfter(h[..i])| <= CACHE_MAX
    ensures MayEvict(StateAfter(h[..i]), h[i].now, CACHE_TTL, CACHE_MAX, h[i].victim)
  {
    PrefixIsValid(h, i);
    PrefixIsValid(h, i + 1);
    assert h[..i + 1][..i] == h[..i];
    CacheStaysBounded(h[..i]);
  }

  /** A store evicts exactly if the cache is full and every reading in it is still valid. */
  lemma EvictionIff<Stamp>(h: seq<Op<Stamp>>, i: nat)
    requires ValidHistory(h) && i < |h| && h[i].Stored?
    ensures var m := StateAfter(h[..i]);
      h[i].victim.Some? <==> |m| == 500 && AllUnexpired(m, h[i].now, CACHE_TTL)
  {
    StoreMayEvict(h, i);
    EvictsIff(StateAfter(h[..i]), h[i].now, CACHE_TTL, CACHE_MAX, h[i].victim);
  }

  // ----- Told from the log -----

  lemma {:induction false} LastStoredIsAStore<Stamp>(h: seq<Op<Stamp>>, key: string)
    requires LastStored(h, key).Some?
    ensures exists op :: op in h && op.Stored? && op.key == key && op.now == LastStored(h, key).value.at
  {
    var before, op := h[..|h| - 1], h[|h| - 1];
    assert h == before + [op];
    if op.Stored? && op.key == key {
      assert op in h;
    } else {
      LastStoredIsAStore(before, key);
      var d :| d in before && d.Stored? && d.key == key && d.now == LastStored(before, key).value.at;
      assert d in h;
    }
  }

  lemma {:induction false} NothingGivenUp<Stamp>(h: seq<Op<Stamp>>, key: string)
    requires NoEvictions(h)
    ensures Latest(h, key) == LastStored(h, key)
  {
    if h != [] {
      var before := h[..|h| - 1];
      forall i | 0 <= i < |before| ensures !Evicts(before[i]) {
        assert before[i] == h[i];
      }
      assert !Evicts(h[|h| - 1]);
      NothingGivenUp(before, key);
    }
  }

  lemma ValidMatchesMap<Stamp>(h: seq<Op<Stamp>>, now: int)
    requires ValidHistory(h) && NoEvictions(h) && (h == [] || h[|h| - 1].now <= now)
    ensures Purge(StateAfter(h), now, CACHE_TTL).Keys == ValidKeys(h, now)
  {
    var m := StateAfter(h);
    forall k ensures k in Purge(m, now, CACHE_TTL) <==> k in ValidKeys(h, now) {
      MapAgreesWithLog(h, k, now);
      NothingGivenUp(h, k);
      if LastStored(h, k).Some? {
        LastStoredIsAStore(h, k);
      }
    }
  }

  /** The first eviction comes exactly when five hundred locations have a valid latest reading. */
  lemma FirstEvictionIff<Stamp>(h: seq<Op<Stamp>>, i: nat)
    requires ValidHistory(h) && i < |h| && h[i].Stored? && NoEvictions(h[..i])
    ensures h[i].victim.Some? <==> |ValidKeys(h[..i], h[i].now)| >= 500
  {
    StoreMayEvict(h, i);
    var m := StateAfter(h[..i]);
    ValidMatchesMap(h[..i], h[i].now);
    EvictsIff(m, h[i].now, CACHE_TTL, CACHE_MAX, h[i].victim);
    assert |Purge(m, h[i].now, CACHE_TTL).Keys| == |Purge(m, h[i].now, CACHE_TTL)|;
  }

  lemma ValidWereStoredLately<Stamp>(h: seq<Op<Stamp>>, now: int)
    ensures ValidKeys(h, now) <= KeysSince(h, now - CACHE_TTL)
  {
    forall k | k in ValidKeys(h, now) ensures k in KeysSince(h, now - CACHE_TTL) {
      LastStoredIsAStore(h, k);
    }
  }

  ghost predicate FewKeys<Stamp>(h: seq<Op<Stamp>>) {
    forall i :: 0 <= i < |h| ==> |KeysSince(h[..i], h[i].now - 600_000_000_000)| < 500
  }

  lemma FewKeysAt<Stamp>(h: seq<Op<Stamp>>, i: nat)
    requires FewKeys(h) && i < |h|
    ensures |KeysSince(h[..i], h[i].now - CACHE_TTL)| < CACHE_MAX
  {
  }

  lemma NextEvictsNothing<Stamp>(h: seq<Op<Stamp>>, i: nat)
    requires ValidHistory(h) && i < |h| && NoEvictions(h[..i])
    requires |KeysSince(h[..i], h[i].now - CACHE_TTL)| < CACHE_MAX
    ensures !Evicts(h[i])
  {
    if h[i].Stored? {
      FirstEvictionIff(h, i);
      ValidWereStoredLately(h[..i], h[i].now);
      SubsetIsSmaller(ValidKeys(h[..i], h[i].now), KeysSince(h[..i], h[i].now - CACHE_TTL));
    }
  }

  lemma {:induction false} EachEvictsNothing<Stamp>(h: seq<Op<Stamp>>, i: nat)
    requires ValidHistory(h) && FewKeys(h) && i < |h|
    ensures !Evicts(h[i])
    decreases i
  {
    forall j: nat | j < i ensures !Evicts(h[..i][j]) {
      EachEvictsNothing(h, j);
    }
    FewKeysAt(h, i);
    NextEvictsNothing(h, i);
  }

  /**
   * With readings for fewer than five hundred locations stored in the ten minutes before every
   * call, none is given up: a lookup finds the latest reading stored, if it is valid.
   */
  lemma FewKeysForgetNothing<Stamp>(h: seq<Op<Stamp>>, i: nat)
    requires ValidHistory(h) && FewKeys(h) && i < |h|
    ensures !Evicts(h[i])
    ensures h[i].Looked? ==>
      var stored := Unexpired(LastStored(h[..i], h[i].key), h[i].now, CACHE_TTL);
      h[i].hit == if stored.None? then None else Some(stored.value.value)
  {
    EachEvictsNothing(h, i);
    if h[i].Looked? {
      forall j: nat | j < i ensures !Evicts(h[..i][j]) {
        EachEvictsNothing(h, j);
      }
      NothingGivenUp(h[..i], h[i].key);
      HitsAreLatestStores(h, i);
    }
  }

  // ----- A valid reading is lost to a location already there -----

  function Place(n: nat): (key: string)
    ensures |key| == n
  {
    seq(n, _ => 'x')
  }

  ghost predicate IsFilled<Stamp>(m: Entries<Stamp>, n: nat, stamp: Stamp) {
    && |m| == n
    && (forall k: nat :: Place(k) in m <==> k < n)
    && (forall key :: key in m ==> |key| < n && m[key] == Stamped(stamp, 0))
  }

  /** `m` is the cache after some run up to time 0. */
  ghost predicate Reached<Stamp(!new)>(m: Entries<Stamp>) {
    exists h: seq<Op<Stamp>> :: ReachedBy(h, m)
  }

  ghost predicate ReachedBy<Stamp>(h: seq<Op<Stamp>>, m: Entries<Stamp>) {
    ValidHistory(h) && (h == [] || h[|h| - 1].now == 0) && StateAfter(h) == m
  }

  lemma StoreJoins<Stamp(!new)>(m: Entries<Stamp>, key: string, stamp: Stamp)
    requires Reached(m) && |m| < CACHE_MAX
    ensures Reached(m[key := Stamped(stamp, 0)])
  {
    var h: seq<Op<Stamp>> :| ReachedBy(h, m);
    var op := Stored(key, 0, stamp, None);
    HistoryGrows(h, op);
    assert ReachedBy(h + [op], m[key := Stamped(stamp, 0)]);
  }

  lemma {:induction false} CacheFills<Stamp(!new)>(n: nat, stamp: Stamp) returns (m: Entries<Stamp>)
    requires n <= CACHE_MAX
    ensures IsFilled(m, n, stamp) && Reached(m)
  {
    if n == 0 {
      m := map[];
      assert ReachedBy([], m);
    } else {
      var before := CacheFills(n - 1, stamp);
      StoreJoins(before, Place(n - 1), stamp);
      m := before[Place(n - 1) := Stamped(stamp, 0)];
    }
  }

  /**
   * Five hundred locations have valid readings and one of them is stored again. The cache drops
   * another location's reading to make room it does not need, and is left with 499.
   */
  lemma ValidReadingIsLost<Stamp(!new)>(stamp: Stamp) returns (h: seq<Op<Stamp>>, op: Op<Stamp>, other: string)
    ensures ValidHistory(h + [op]) && op.Stored? && op.key in StateAfter(h) && other != op.key
    ensures Peek(StateAfter(h), other, op.now).Some? && other !in StateAfter(h + [op])
    ensures |StateAfter(h)| == 500 && |StateAfter(h + [op])| == 499
  {
    var m := CacheFills(CACHE_MAX, stamp);
    h :| ReachedBy(h, m);
    other := Place(1);
    op := Stored(Place(0), 0, stamp, Some(other));
    FilledMayEvict(m, stamp);
    HistoryGrows(h, op);
  }

  lemma FilledMayEvict<Stamp>(m: Entries<Stamp>, stamp: Stamp)
    requires IsFilled(m, CACHE_MAX, stamp)
    ensures Place(0) in m && Place(0) != Place(1) && Peek(m, Place(1), 0).Some?
    ensures MayEvict(m, 0, CACHE_TTL, CACHE_MAX, Some(Place(1)))
    ensures AfterStore(m, Place(0), stamp, 0, Some(Place(1))) == m - {Place(1)}
    ensures |m - {Place(1)}| == CACHE_MAX - 1
  {
    assert Place(0) in m && Place(1) in m && |Place(0)| == 0;
    assert Purge(m, 0, CACHE_TTL) == m;
    OneLess(m, Place(1));
    StoredAgain(m - {Place(1)}, Place(0), Stamped(stamp, 0));
  }

  lemma StoredAgain<K, V>(m: map<K, V>, k: K, v: V)
    requires k in m && m[k] == v
    ensures m[k := v] == m
  {
  }
}
