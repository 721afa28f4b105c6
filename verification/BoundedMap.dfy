/**
 * Maps of timestamped entries that are kept below a size: a full map first drops what has
 * expired and, only if that is not enough, one entry with the oldest timestamp.
 */
module BoundedMap {
  import opened Base

  datatype Stamped<+V> = Stamped(value: V, at: int)

  /** Time in nanoseconds. */
  const SECOND := 1_000_000_000

  function Purge<K, V>(m: map<K, Stamped<V>>, now: int, ttl: int): map<K, Stamped<V>> {
    map k | k in m && now - m[k].at < ttl :: m[k]
  }

  ghost predicate IsOldest<K, V>(m: map<K, Stamped<V>>, k: K) {
    k in m && forall j :: j in m ==> m[k].at <= m[j].at
  }

  /** The entry given up, if the map is full even of unexpired entries; ties may go either way. */
  ghost predicate MayEvict<K, V>(m: map<K, Stamped<V>>, now: int, ttl: int, cap: nat, victim: Option<K>) {
    if |m| >= cap && |Purge(m, now, ttl)| >= cap
    then victim.Some? && IsOldest(Purge(m, now, ttl), victim.value)
    else victim.None?
  }

  ghost function Room<K, V>(m: map<K, Stamped<V>>, now: int, ttl: int, cap: nat, victim: Option<K>)
    : map<K, Stamped<V>>
  {
    if |m| < cap then m
    else if victim.None? then Purge(m, now, ttl)
    else Purge(m, now, ttl) - {victim.value}
  }

  method Oldest<K(==), V>(m: map<K, Stamped<V>>) returns (k: K)
    requires m != map[]
    ensures IsOldest(m, k)
  {
    k :| k in m;
    var unseen := m.Keys - {k};
    while unseen != {}
      invariant unseen <= m.Keys
      invariant k in m && forall j :: j in m.Keys - unseen ==> m[k].at <= m[j].at
    {
      var j :| j in unseen;
      if m[j].at < m[k].at {
        k := j;
      }
      unseen := unseen - {j};
    }
  }

  method MakeRoom<K(==), V>(m: map<K, Stamped<V>>, now: int, ttl: int, cap: nat)
    returns (room: map<K, Stamped<V>>, victim: Option<K>)
    requires cap > 0
    ensures MayEvict(m, now, ttl, cap, victim)
    ensures room == Room(m, now, ttl, cap, victim)
  {
    room, victim := m, None;
    if |room| >= cap {
      room := Purge(room, now, ttl);
      if |room| >= cap {
        var oldest := Oldest(room);
        victim := Some(oldest);
        room := room - {oldest};
      }
    }
  }

  // ----- Sizes -----

  lemma PurgeIsSmaller<K, V>(m: map<K, Stamped<V>>, now: int, ttl: int)
    ensures Purge(m, now, ttl).Keys <= m.Keys
    ensures |Purge(m, now, ttl)| <= |m|
  {
    SubsetIsSmaller(Purge(m, now, ttl).Keys, m.Keys);
    assert |Purge(m, now, ttl).Keys| == |Purge(m, now, ttl)|;
  }

  lemma {:induction false} SubsetIsSmaller<T>(a: set<T>, b: set<T>)
    requires a <= b
    ensures |a| <= |b| && (|a| == |b| ==> a == b)
  {
    if a != {} {
      var x :| x in a;
      SubsetIsSmaller(a - {x}, b - {x});
    }
  }

  /** Making room leaves a place free, so the map never outgrows its cap. */
  lemma RoomThenInsert<K, V>(m: map<K, Stamped<V>>, now: int, ttl: int, cap: nat, victim: Option<K>,
      k: K, entry: Stamped<V>)
    requires cap > 0 && |m| <= cap && MayEvict(m, now, ttl, cap, victim)
    ensures |Room(m, now, ttl, cap, victim)[k := entry]| <= cap
  {
    RoomIsFree(m, now, ttl, cap, victim);
    OneMore(Room(m, now, ttl, cap, victim), k, entry);
  }

  lemma RoomIsFree<K, V>(m: map<K, Stamped<V>>, now: int, ttl: int, cap: nat, victim: Option<K>)
    requires cap > 0 && |m| <= cap && MayEvict(m, now, ttl, cap, victim)
    ensures |Room(m, now, ttl, cap, victim)| < cap
  {
    if |m| >= cap {
      PurgeIsSmaller(m, now, ttl);
      if victim.Some? {
        OneLess(Purge(m, now, ttl), victim.value);
      }
    }
  }

  lemma OneMore<K, V>(m: map<K, V>, k: K, v: V)
    ensures |m[k := v]| <= |m| + 1
  {
    assert m[k := v].Keys == m.Keys + {k};
    assert |m[k := v].Keys| == |m[k := v]| && |m.Keys| == |m|;
  }

  lemma OneLess<K, V>(m: map<K, V>, k: K)
    requires k in m
    ensures |m - {k}| == |m| - 1
  {
    assert (m - {k}).Keys == m.Keys - {k};
    assert |(m - {k}).Keys| == |m - {k}| && |m.Keys| == |m|;
  }

  ghost predicate AllUnexpired<K, V>(m: map<K, Stamped<V>>, now: int, ttl: int) {
    forall k :: k in m ==> now - m[k].at < ttl
  }

  /** Exactly a map that is full, and full of unexpired entries, gives one up. */
  lemma EvictsIff<K, V>(m: map<K, Stamped<V>>, now: int, ttl: int, cap: nat, victim: Option<K>)
    requires |m| <= cap && MayEvict(m, now, ttl, cap, victim)
    ensures victim.Some? <==> |Purge(m, now, ttl)| >= cap
    ensures victim.Some? <==> |m| == cap && AllUnexpired(m, now, ttl)
  {
    PurgeIsSmaller(m, now, ttl);
    SubsetIsSmaller(Purge(m, now, ttl).Keys, m.Keys);
    assert |Purge(m, now, ttl).Keys| == |Purge(m, now, ttl)| && |m.Keys| == |m|;
    if AllUnexpired(m, now, ttl) {
      assert Purge(m, now, ttl) == m;
    }
    if |Purge(m, now, ttl)| >= cap {
      assert forall k :: k in m ==> k in Purge(m, now, ttl);
    }
  }

  /** An unexpired entry is given up only by a map full of unexpired entries, and then it is an oldest one. */
  lemma OnlyFullMapsForget<K, V>(m: map<K, Stamped<V>>, now: int, ttl: int, cap: nat, victim: Option<K>, k: K)
    requires cap > 0 && |m| <= cap && MayEvict(m, now, ttl, cap, victim)
    requires k in m && now - m[k].at < ttl
    ensures k !in Room(m, now, ttl, cap, victim) <==> victim == Some(k)
    ensures victim == Some(k) ==>
      |m| == cap && Purge(m, now, ttl) == m && forall j :: j in m ==> m[k].at <= m[j].at
  {
    if victim == Some(k) {
      PurgeIsSmaller(m, now, ttl);
      SubsetIsSmaller(Purge(m, now, ttl).Keys, m.Keys);
      assert |Purge(m, now, ttl).Keys| == |Purge(m, now, ttl)| && |m.Keys| == |m|;
    }
  }

  // ----- What an observer at time `now` can tell -----

  /** The entry under `k`, if there is one and it has not expired. */
  function Current<K, V>(m: map<K, Stamped<V>>, k: K, now: int, ttl: int): Option<Stamped<V>> {
    if k in m then Unexpired(Some(m[k]), now, ttl) else None
  }

  function Unexpired<V>(e: Option<Stamped<V>>, now: int, ttl: int): Option<Stamped<V>> {
    if e.Some? && now - e.value.at < ttl then e else None
  }

  /** Making room changes what can be seen of the evicted key only. */
  lemma RoomIsUnobservable<K, V>(m: map<K, Stamped<V>>, now: int, ttl: int, cap: nat, victim: Option<K>, k: K)
    requires MayEvict(m, now, ttl, cap, victim)
    ensures Current(Room(m, now, ttl, cap, victim), k, now, ttl) ==
      if victim == Some(k) then None else Current(m, k, now, ttl)
  {
  }
}
