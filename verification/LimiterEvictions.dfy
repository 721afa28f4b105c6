/**
 * When the limiter gives up a running window, told from the calls alone, and how many calls get
 * through for a user who loses windows that way.
 */
module LimiterEvictions {
  import opened Base
  import opened BoundedMap
  import opened RateLimiter

  ghost function Users(h: seq<Call>): set<int> {
    set c | c in h :: c.user
  }

  /** The users whose own counter, fed their calls and nothing else, has a window running at `now`. */
  ghost function Running(h: seq<Call>, now: int): set<int> {
    set u | u in Users(h) && Unexpired(OwnCounter(h, u), now, RATE_WINDOW).Some?
  }

  /** The users who called after a moment. */
  ghost function CallersSince(h: seq<Call>, after: int): set<int> {
    set c | c in h && c.now > after :: c.user
  }

  ghost predicate NoEvictions(h: seq<Call>) {
    forall i :: 0 <= i < |h| ==> h[i].victim.None?
  }

  lemma CallMayEvict(h: seq<Call>, i: nat)
    requires ValidHistory(h) && i < |h|
    ensures ValidHistory(h[..i]) && LastNow(h[..i], h[i].now) <= h[i].now
    ensures |StateAfter(h[..i])| <= RATE_MAP_MAX
    ensures MayEvict(StateAfter(h[..i]), h[i].now, RATE_WINDOW, RATE_MAP_MAX, h[i].victim)
  {
    PrefixIsValid(h, i);
    PrefixIsValid(h, i + 1);
    assert h[..i + 1][..i] == h[..i];
    MapStaysBounded(h[..i]);
  }

  /** A call evicts exactly if the map is full and every window in it is still running. */
  lemma EvictionIff(h: seq<Call>, i: nat)
    requires ValidHistory(h) && i < |h|
    ensures var m := StateAfter(h[..i]);
      h[i].victim.Some? <==> |m| == 10_000 && AllUnexpired(m, h[i].now, RATE_WINDOW)
  {
    CallMayEvict(h, i);
    EvictsIff(StateAfter(h[..i]), h[i].now, RATE_WINDOW, RATE_MAP_MAX, h[i].victim);
  }

  // ----- Told from the calls -----

  /** A counter's window started at one of the user's own calls. */
  lemma {:induction false} WindowsStartAtCalls(h: seq<Call>, user: int)
    requires OwnCounter(h, user).Some?
    ensures exists c :: c in h && c.user == user && c.now == OwnCounter(h, user).value.at
  {
    var before, c := h[..|h| - 1], h[|h| - 1];
    assert h == before + [c];
    if OwnCounter(before, user).Some? {
      WindowsStartAtCalls(before, user);
      var d :| d in before && d.user == user && d.now == OwnCounter(before, user).value.at;
      assert d in h;
    }
    assert c in h;
  }

  lemma RunningMatchesMap(h: seq<Call>, now: int)
    requires ValidHistory(h) && NoEvictions(h) && (h == [] || h[|h| - 1].now <= now)
    ensures Purge(StateAfter(h), now, RATE_WINDOW).Keys == Running(h, now)
  {
    var m := StateAfter(h);
    forall u ensures u in Purge(m, now, RATE_WINDOW) <==> u in Running(h, now) {
      MapAgreesWithCounter(h, u, now);
      SparedCounter(h, u);
      if OwnCounter(h, u).Some? {
        WindowsStartAtCalls(h, u);
      }
    }
  }

  /** The first eviction comes exactly when ten thousand users have windows of their own running. */
  lemma FirstEvictionIff(h: seq<Call>, i: nat)
    requires ValidHistory(h) && i < |h| && NoEvictions(h[..i])
    ensures h[i].victim.Some? <==> |Running(h[..i], h[i].now)| >= 10_000
  {
    CallMayEvict(h, i);
    var m := StateAfter(h[..i]);
    RunningMatchesMap(h[..i], h[i].now);
    EvictsIff(m, h[i].now, RATE_WINDOW, RATE_MAP_MAX, h[i].victim);
    assert |Purge(m, h[i].now, RATE_WINDOW).Keys| == |Purge(m, h[i].now, RATE_WINDOW)|;
  }

  lemma RunningCalledLately(h: seq<Call>, now: int)
    ensures Running(h, now) <= CallersSince(h, now - RATE_WINDOW)
  {
    forall u | u in Running(h, now) ensures u in CallersSince(h, now - RATE_WINDOW) {
      WindowsStartAtCalls(h, u);
    }
  }

  ghost predicate FewCallers(h: seq<Call>) {
    forall i :: 0 <= i < |h| ==> |CallersSince(h[..i], h[i].now - 60_000_000_000)| < 10_000
  }

  lemma NextIsSpared(h: seq<Call>, i: nat)
    requires ValidHistory(h) && i < |h| && NoEvictions(h[..i])
    requires |CallersSince(h[..i], h[i].now - RATE_WINDOW)| < RATE_MAP_MAX
    ensures h[i].victim.None?
  {
    FirstEvictionIff(h, i);
    RunningCalledLately(h[..i], h[i].now);
    SubsetIsSmaller(Running(h[..i], h[i].now), CallersSince(h[..i], h[i].now - RATE_WINDOW));
  }

  lemma {:induction false} EachIsSpared(h: seq<Call>, i: nat)
    requires ValidHistory(h) && FewCallers(h) && i < |h|
    ensures h[i].victim.None?
    decreases i
  {
    forall j: nat | j < i ensures h[..i][j].victim.None? {
      EachIsSpared(h, j);
    }
    FewCallersAt(h, i);
    NextIsSpared(h, i);
  }

  /** With fewer than ten thousand callers in the sixty seconds before every call, nobody is evicted. */
  lemma FewCallersNoEvictions(h: seq<Call>)
    requires ValidHistory(h) && FewCallers(h)
    ensures NoEvictions(h)
  {
    forall i: nat | i < |h| ensures h[i].victim.None? {
      EachIsSpared(h, i);
    }
  }

  lemma FewCallersAt(h: seq<Call>, i: nat)
    requires FewCallers(h) && i < |h|
    ensures |CallersSince(h[..i], h[i].now - RATE_WINDOW)| < RATE_MAP_MAX
  {
  }

  /** Then every answer is that of an unbounded counter per user. */
  lemma FewCallersAreCountedApart(h: seq<Call>, i: nat)
    requires ValidHistory(h) && FewCallers(h) && i < |h|
    ensures h[i].admitted == Tick(OwnCounter(h[..i], h[i].user), h[i].now).1
  {
    FewCallersNoEvictions(h);
    BoundIsUnobservable(h, i);
  }

  // ----- A user who is in the map loses a running window -----

  /** User 0 has used up a window and users 1, ..., n - 1 have called once, all at one moment. */
  ghost predicate IsCrowd(m: map<int, Window>, n: nat) {
    && |m| == n
    && (forall u :: u in m <==> 0 <= u < n)
    && (forall u :: u in m ==> m[u] == Stamped(if u == 0 then RATE_LIMIT else 1, 0))
  }

  /** `m` is the map after some run up to time 0, in which user 0's own counter reached `own`. */
  ghost predicate Reached(m: map<int, Window>, own: Option<Window>) {
    exists h :: ReachedBy(h, m, own)
  }

  ghost predicate ReachedBy(h: seq<Call>, m: map<int, Window>, own: Option<Window>) {
    ValidHistory(h) && LastNow(h, 0) == 0 && StateAfter(h) == m && OwnCounter(h, 0) == own
  }

  /** The map after another call at the same moment, while there is room. */
  ghost function Joined(m: map<int, Window>, user: int): map<int, Window> {
    m[user := Tick(if user in m then Some(m[user]) else None, 0).0]
  }

  /** User 0's own counter after that call. */
  ghost function JoinedOwn(own: Option<Window>, user: int): Option<Window> {
    if user == 0 then Some(Tick(own, 0).0) else own
  }

  lemma CallJoins(m: map<int, Window>, own: Option<Window>, user: int)
    requires Reached(m, own) && |m| < RATE_MAP_MAX
    ensures Reached(Joined(m, user), JoinedOwn(own, user))
  {
    var h :| ReachedBy(h, m, own);
    var c := Call(user, 0, None, Tick(if user in m then Some(m[user]) else None, 0).1);
    assert (h + [c])[..|h|] == h;
    HistoryGrows(h, c);
    assert ReachedBy(h + [c], Joined(m, user), JoinedOwn(own, user));
  }

  /** Holds at the start, and of what a call with room to spare makes of anything it holds of. */
  ghost predicate Closed(p: (map<int, Window>, Option<Window>) -> bool) {
    p(map[], None) && forall m, own, user ::
      p(m, own) && |m| < RATE_MAP_MAX ==> p(Joined(m, user), JoinedOwn(own, user))
  }

  lemma OneMoreCall(p: (map<int, Window>, Option<Window>) -> bool, m: map<int, Window>, own: Option<Window>, user: int)
    requires Closed(p) && p(m, own) && |m| < RATE_MAP_MAX
    ensures p(Joined(m, user), JoinedOwn(own, user))
  {
  }

  lemma {:induction false} WindowUsedUp(p: (map<int, Window>, Option<Window>) -> bool, k: nat)
    requires Closed(p) && 0 < k <= RATE_LIMIT
    ensures p(map[0 := Stamped(k, 0)], Some(Stamped(k, 0)))
  {
    if k == 1 {
      OneMoreCall(p, map[], None, 0);
      assert Joined(map[], 0) == map[0 := Stamped(1, 0)];
    } else {
      WindowUsedUp(p, k - 1);
      var m := map[0 := Stamped(k - 1, 0)];
      OneMoreCall(p, m, Some(Stamped(k - 1, 0)), 0);
      assert Joined(m, 0) == map[0 := Stamped(k, 0)];
    }
  }

  lemma {:induction false} CrowdGathers(p: (map<int, Window>, Option<Window>) -> bool, n: nat)
    returns (m: map<int, Window>)
    requires Closed(p) && 0 < n <= RATE_MAP_MAX
    ensures IsCrowd(m, n) && p(m, Some(Stamped(RATE_LIMIT, 0)))
  {
    if n == 1 {
      WindowUsedUp(p, RATE_LIMIT);
      m := map[0 := Stamped(RATE_LIMIT, 0)];
    } else {
      var before := CrowdGathers(p, n - 1);
      m := Joined(before, n - 1);
      OneMoreCall(p, before, Some(Stamped(RATE_LIMIT, 0)), n - 1);
    }
  }

  lemma ReachedIsClosed()
    ensures Closed((m, own) => Reached(m, own))
  {
    assert ReachedBy([], map[], None);
    forall m, own, user | Reached(m, own) && |m| < RATE_MAP_MAX
      ensures Reached(Joined(m, user), JoinedOwn(own, user))
    {
      CallJoins(m, own, user);
    }
  }

  /**
   * A user whose window is full calls once more while ten thousand windows run. The map drops that
   * very window to make room for an entry it already has, and the call gets through.
   */
  lemma OwnWindowIsLost() returns (h: seq<Call>, c: Call)
    ensures ValidHistory(h + [c]) && c.user in StateAfter(h) && c.victim == Some(c.user)
    ensures |StateAfter(h + [c])| == |StateAfter(h)| == 10_000
    ensures c.admitted && !Tick(OwnCounter(h, c.user), c.now).1
  {
    ReachedIsClosed();
    var m := CrowdGathers((m, own) => Reached(m, own), RATE_MAP_MAX);
    h :| ReachedBy(h, m, Some(Stamped(RATE_LIMIT, 0)));
    c := Call(0, 0, Some(0), true);
    CrowdMayEvict(m);
    HistoryGrows(h, c);
  }

  lemma CrowdMayEvict(m: map<int, Window>)
    requires IsCrowd(m, RATE_MAP_MAX)
    ensures MayEvict(m, 0, RATE_WINDOW, RATE_MAP_MAX, Some(0)) && Admits(m, 0, 0, Some(0))
    ensures |AfterCall(m, 0, 0, Some(0))| == |m|
  {
    forall u ensures u in Purge(m, 0, RATE_WINDOW) <==> u in m {
      assert u in m ==> 0 - m[u].at < RATE_WINDOW;
    }
    assert Purge(m, 0, RATE_WINDOW) == m;
    var after := (m - {0})[0 := Stamped(1, 0)];
    assert after.Keys == m.Keys;
    assert |after.Keys| == |after| && |m.Keys| == |m|;
  }

  // ----- How many calls get through, evictions counted in -----

  /** How often a user's window was given up from time `lo` up to but not including `hi`. */
  ghost function Evictions(h: seq<Call>, user: int, lo: int, hi: int): nat {
    if h == [] then 0
    else
      var c := h[|h| - 1];
      Evictions(h[..|h| - 1], user, lo, hi) + (if c.victim == Some(user) && lo <= c.now < hi then 1 else 0)
  }

  /** Twenty calls at most get through in any stretch of sixty seconds, and ten more for every eviction in it. */
  lemma AdmittedInAnyStretch(h: seq<Call>, user: int, t: int)
    requires ValidHistory(h)
    ensures Admitted(h, user, t, t + 60_000_000_000) <= 20 + 10 * Evictions(h, user, t, t + 60_000_000_000)
  {
    StretchWithEvictions(h, user, t);
  }

  lemma {:induction false} StretchWithEvictions(h: seq<Call>, user: int, t: int)
    requires ValidHistory(h)
    ensures var hi := t + RATE_WINDOW;
      var n, w, e := Admitted(h, user, t, hi), Counter(h, user), Evictions(h, user, t, hi);
      && (LastNow(h, t - 1) < t ==> n == 0 && e == 0)
      && (w.None? && LastNow(h, t) < hi ==> n <= RATE_LIMIT + RATE_LIMIT * e)
      && (w.Some? ==>
        && w.value.value <= RATE_LIMIT && w.value.at <= LastNow(h, t)
        && (w.value.at < t && LastNow(h, t) < hi ==> n <= w.value.value && e == 0)
        && (t <= w.value.at < hi ==> n <= RATE_LIMIT + w.value.value + RATE_LIMIT * e))
      && n <= 2 * RATE_LIMIT + RATE_LIMIT * e
  {
    if h != [] {
      var last := |h| - 1;
      AnswersAreTheCounters(h, last);
      StretchWithEvictions(h[..last], user, t);
    }
  }

  /** A window's count never exceeds the calls admitted since it started, evictions or not. */
  lemma {:induction false} CountedWereAdmitted(h: seq<Call>, user: int, hi: int)
    requires ValidHistory(h) && LastNow(h, hi - 1) < hi
    ensures var w := Counter(h, user);
      w.Some? ==>
        && 1 <= w.value.value <= RATE_LIMIT && w.value.at <= LastNow(h, 0)
        && Admitted(h, user, w.value.at, hi) >= w.value.value
  {
    if h != [] {
      var last := |h| - 1;
      AnswersAreTheCounters(h, last);
      CountedWereAdmitted(h[..last], user, hi);
    }
  }

  /** Whoever is refused has had at least ten calls admitted within the last sixty seconds. */
  lemma RefusedAfterTen(h: seq<Call>, i: nat) returns (start: int)
    requires ValidHistory(h) && i < |h| && !h[i].admitted
    ensures start <= h[i].now < start + 60_000_000_000
    ensures Admitted(h[..i], h[i].user, start, h[i].now + 1) >= 10
  {
    AnswersAreTheCounters(h, i);
    PrefixIsValid(h, i);
    PrefixIsValid(h, i + 1);
    assert h[..i + 1][..i] == h[..i];
    CountedWereAdmitted(h[..i], h[i].user, h[i].now + 1);
    start := Counter(h[..i], h[i].user).value.at;
  }
}
