/**
 * The weather lookup limiter: at most ten calls per user in each sixty-second window, in a map
 * that tracks at most ten thousand users. Proved against a counter per user with no bound at all.
 */
module RateLimiter {
  import opened Base
  import opened BoundedMap

  const RATE_LIMIT: nat := 10
  const RATE_WINDOW := 60 * SECOND
  const RATE_MAP_MAX: nat := 10_000

  /** A window counts the calls admitted since it was started. */
  type Window = Stamped<nat>

  // ----- The simple counter -----

  /** One call against a user's own window: the window afterwards, and whether the call is admitted. */
  function Tick(w: Option<Window>, now: int): (Window, bool) {
    match Unexpired(w, now, RATE_WINDOW)
    case None => (Stamped(1, now), true)
    case Some(v) => if v.value >= RATE_LIMIT then (v, false) else (Stamped(v.value + 1, v.at), true)
  }

  // ----- The bounded map -----

  /** The map after a call, given which user (if any) was evicted to make room. */
  ghost function AfterCall(m: map<int, Window>, user: int, now: int, victim: Option<int>): map<int, Window> {
    var room := Room(m, now, RATE_WINDOW, RATE_MAP_MAX, victim);
    room[user := Tick(if user in room then Some(room[user]) else None, now).0]
  }

  ghost function Admits(m: map<int, Window>, user: int, now: int, victim: Option<int>): bool {
    var room := Room(m, now, RATE_WINDOW, RATE_MAP_MAX, victim);
    Tick(if user in room then Some(room[user]) else None, now).1
  }

  // ----- Histories -----

  datatype Call = Call(user: int, now: int, victim: Option<int>, admitted: bool)

  ghost function StateAfter(h: seq<Call>): map<int, Window> {
    if h == [] then map[]
    else
      var c := h[|h| - 1];
      AfterCall(StateAfter(h[..|h| - 1]), c.user, c.now, c.victim)
  }

  /** A run of the limiter: the clock never goes back and every answer is the one the map gave. */
  ghost predicate ValidHistory(h: seq<Call>) {
    h == [] ||
    var before, c := h[..|h| - 1], h[|h| - 1];
    && ValidHistory(before)
    && (before == [] || before[|before| - 1].now <= c.now)
    && MayEvict(StateAfter(before), c.now, RATE_WINDOW, RATE_MAP_MAX, c.victim)
    && c.admitted == Admits(StateAfter(before), c.user, c.now, c.victim)
  }

  class WeatherLimiter {
    var limits: map<int, Window>
    /** A lock poisoned by a panic elsewhere lets every call through. */
    var poisoned: bool
    ghost var history: seq<Call>

    ghost predicate Valid()
      reads this
    {
      ValidHistory(history) && limits == StateAfter(history)
    }

    constructor ()
      ensures Valid() && history == [] && !poisoned
    {
      limits, poisoned, history := map[], false, [];
    }

    method CheckRate(user: int, now: int) returns (admitted: bool, ghost victim: Option<int>)
      requires Valid()
      requires history == [] || history[|history| - 1].now <= now
      modifies this
      ensures Valid() && poisoned == old(poisoned)
      ensures poisoned ==> admitted && limits == old(limits) && history == old(history)
      ensures !poisoned ==> history == old(history) + [Call(user, now, victim, admitted)]
    {
      victim := None;
      if poisoned {
        return true, None;
      }
      var room, evicted := MakeRoom(limits, now, RATE_WINDOW, RATE_MAP_MAX);
      victim := evicted;
      var window;
      window, admitted := CountCall(if user in room then Some(room[user]) else None, now);
      ghost var call := Call(user, now, victim, admitted);
      HistoryGrows(history, call);
      limits := room[user := window];
      history := history + [call];
    }
  }

  /** Counts a call against an entry of the map, starting a window where there is none or it has run out. */
  method CountCall(entry: Option<Window>, now: int) returns (window: Window, admitted: bool)
    ensures (window, admitted) == Tick(entry, now)
  {
    window := if entry.Some? then entry.value else Stamped(0, now);
    if now - window.at >= RATE_WINDOW {
      window := Stamped(0, now);
    }
    if window.value >= RATE_LIMIT {
      return window, false;
    }
    return Stamped(window.value + 1, window.at), true;
  }

  lemma HistoryGrows(h: seq<Call>, c: Call)
    requires ValidHistory(h) && (h == [] || h[|h| - 1].now <= c.now)
    requires MayEvict(StateAfter(h), c.now, RATE_WINDOW, RATE_MAP_MAX, c.victim)
    requires c.admitted == Admits(StateAfter(h), c.user, c.now, c.victim)
    ensures ValidHistory(h + [c])
    ensures StateAfter(h + [c]) == AfterCall(StateAfter(h), c.user, c.now, c.victim)
  {
    assert (h + [c])[..|h|] == h;
  }

  // ----- The map never outgrows its bound -----

  lemma {:induction false} MapStaysBounded(h: seq<Call>)
    requires ValidHistory(h)
    ensures |StateAfter(h)| <= 10_000
  {
    if h != [] {
      var before, c := h[..|h| - 1], h[|h| - 1];
      MapStaysBounded(before);
      RoomThenInsert(StateAfter(before), c.now, RATE_WINDOW, RATE_MAP_MAX, c.victim, c.user, StateAfter(h)[c.user]);
      var room := Room(StateAfter(before), c.now, RATE_WINDOW, RATE_MAP_MAX, c.victim);
      assert StateAfter(h) == room[c.user := StateAfter(h)[c.user]];
    }
  }

  // ----- Every answer is the simple counter's, reset where the user was evicted -----

  /** The counter of one user alone, fed that user's own calls and wiped by that user's evictions. */
  ghost function Counter(h: seq<Call>, user: int): Option<Window> {
    if h == [] then None
    else
      var before, c := h[..|h| - 1], h[|h| - 1];
      var kept := if c.victim == Some(user) then None else Counter(before, user);
      if c.user == user then Some(Tick(kept, c.now).0) else kept
  }

  lemma {:induction false} MapAgreesWithCounter(h: seq<Call>, user: int, now: int)
    requires ValidHistory(h) && (h == [] || h[|h| - 1].now <= now)
    ensures Current(StateAfter(h), user, now, RATE_WINDOW) == Unexpired(Counter(h, user), now, RATE_WINDOW)
  {
    if h != [] {
      var before, c := h[..|h| - 1], h[|h| - 1];
      MapAgreesWithCounter(before, user, c.now);
      RoomIsUnobservable(StateAfter(before), c.now, RATE_WINDOW, RATE_MAP_MAX, c.victim, user);
    }
  }

  /** Call for call, over any run: the limiter answers as the user's own counter would. */
  lemma AnswersAreTheCounters(h: seq<Call>, i: nat)
    requires ValidHistory(h) && i < |h|
    ensures var c := h[i];
      c.admitted == Tick(if c.victim == Some(c.user) then None else Counter(h[..i], c.user), c.now).1
  {
    var c, before := h[i], h[..i];
    PrefixIsValid(h, i + 1);
    assert h[..i + 1][..i] == before;
    MapAgreesWithCounter(before, c.user, c.now);
    RoomIsUnobservable(StateAfter(before), c.now, RATE_WINDOW, RATE_MAP_MAX, c.victim, c.user);
  }

  lemma {:induction false} PrefixIsValid(h: seq<Call>, i: nat)
    requires ValidHistory(h) && i <= |h|
    ensures ValidHistory(h[..i])
    decreases |h|
  {
    if i < |h| {
      assert h[..|h| - 1][..i] == h[..i];
      PrefixIsValid(h[..|h| - 1], i);
    } else {
      assert h[..i] == h;
    }
  }

  ghost predicate NeverEvicted(h: seq<Call>, user: int) {
    forall i :: 0 <= i < |h| ==> h[i].victim != Some(user)
  }

  lemma StillNeverEvicted(h: seq<Call>, user: int)
    requires NeverEvicted(h, user) && h != []
    ensures NeverEvicted(h[..|h| - 1], user) && h[|h| - 1].victim != Some(user)
  {
  }

  /** The counter of a user with nothing but that user's own calls: no map, no eviction. */
  ghost function OwnCounter(h: seq<Call>, user: int): Option<Window> {
    if h == [] then None
    else
      var before, c := OwnCounter(h[..|h| - 1], user), h[|h| - 1];
      if c.user == user then Some(Tick(before, c.now).0) else before
  }

  lemma {:induction false} SparedCounter(h: seq<Call>, user: int)
    requires NeverEvicted(h, user)
    ensures Counter(h, user) == OwnCounter(h, user)
  {
    if h != [] {
      StillNeverEvicted(h, user);
      SparedCounter(h[..|h| - 1], user);
    }
  }

  /** Dropping expired windows cannot be observed: without evictions the bound might as well not exist. */
  lemma BoundIsUnobservable(h: seq<Call>, i: nat)
    requires ValidHistory(h) && i < |h| && NeverEvicted(h, h[i].user)
    ensures h[i].admitted == Tick(OwnCounter(h[..i], h[i].user), h[i].now).1
  {
    AnswersAreTheCounters(h, i);
    SparedCounter(h[..i], h[i].user);
  }

  // ----- How many calls get through -----

  /** Calls by `user` admitted from time `lo` up to but not including `hi`. */
  ghost function Admitted(h: seq<Call>, user: int, lo: int, hi: int): nat {
    if h == [] then 0
    else
      var c := h[|h| - 1];
      Admitted(h[..|h| - 1], user, lo, hi) + (if c.user == user && c.admitted && lo <= c.now < hi then 1 else 0)
  }

  ghost function LastNow(h: seq<Call>, otherwise: int): int {
    if h == [] then otherwise else h[|h| - 1].now
  }

  /** The window's count is the number of admissions since it started; all earlier calls are older. */
  lemma {:induction false} CountIsAdmissions(h: seq<Call>, user: int, hi: int)
    requires ValidHistory(h) && NeverEvicted(h, user) && LastNow(h, hi - 1) < hi
    ensures var w := OwnCounter(h, user);
      if w.None? then forall lo :: Admitted(h, user, lo, hi) == 0
      else
        && 1 <= w.value.value <= 10
        && w.value.at <= LastNow(h, 0)
        && Admitted(h, user, w.value.at, hi) == w.value.value
  {
    if h != [] {
      var before, c := h[..|h| - 1], h[|h| - 1];
      StillNeverEvicted(h, user);
      if c.user == user { BoundIsUnobservable(h, |h| - 1); }
      CountIsAdmissions(before, user, hi);
      var w := OwnCounter(before, user);
      if c.user == user && Unexpired(w, c.now, RATE_WINDOW) == None {
        NothingSinceExpiry(before, user, c.now, hi);
      }
    }
  }

  /** Once a user's window has expired, nothing of theirs was admitted at or after the present. */
  lemma {:induction false} NothingSinceExpiry(h: seq<Call>, user: int, now: int, hi: int)
    requires ValidHistory(h) && NeverEvicted(h, user) && LastNow(h, now) <= now
    requires Unexpired(OwnCounter(h, user), now, RATE_WINDOW) == None
    ensures Admitted(h, user, now, hi) == 0
  {
    if h != [] {
      var before, c := h[..|h| - 1], h[|h| - 1];
      StillNeverEvicted(h, user);
      if c.user != user || c.now < now {
        NothingSinceExpiry(before, user, now, hi);
      }
    }
  }

  /** In any half-open stretch of one window's length at most twenty calls get through. */
  lemma AtMostTwoWindowsFull(h: seq<Call>, user: int, t: int)
    requires ValidHistory(h) && NeverEvicted(h, user)
    ensures Admitted(h, user, t, t + 60_000_000_000) <= 20
  {
    StretchAgainstWindow(h, user, t);
  }

  /** A stretch meets the current window, and at most one window before it. */
  lemma {:induction false} StretchAgainstWindow(h: seq<Call>, user: int, t: int)
    requires ValidHistory(h) && NeverEvicted(h, user)
    ensures var n, w := Admitted(h, user, t, t + RATE_WINDOW), OwnCounter(h, user);
      && (LastNow(h, t - 1) < t ==> n == 0)
      && (w.None? ==> n == 0)
      && (w.Some? ==>
        && w.value.value <= RATE_LIMIT && w.value.at <= LastNow(h, t)
        && (w.value.at < t ==> n <= w.value.value)
        && (t <= w.value.at < t + RATE_WINDOW ==> n <= RATE_LIMIT + w.value.value)
        && n <= 2 * RATE_LIMIT)
  {
    if h != [] {
      StillNeverEvicted(h, user);
      if h[|h| - 1].user == user { BoundIsUnobservable(h, |h| - 1); }
      StretchAgainstWindow(h[..|h| - 1], user, t);
    }
  }

  /** A refusal means the user's current window has already let ten calls through. */
  lemma RefusedOnlyAfterTen(h: seq<Call>, i: nat) returns (start: int)
    requires ValidHistory(h) && i < |h| && NeverEvicted(h, h[i].user) && !h[i].admitted
    ensures start <= h[i].now < start + 60_000_000_000
    ensures Admitted(h[..i], h[i].user, start, h[i].now + 1) == 10
  {
    BoundIsUnobservable(h, i);
    PrefixIsValid(h, i);
    PrefixIsValid(h, i + 1);
    assert h[..i + 1][..i] == h[..i];
    CountIsAdmissions(h[..i], h[i].user, h[i].now + 1);
    start := OwnCounter(h[..i], h[i].user).value.at;
  }
}
