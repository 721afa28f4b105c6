/**
 * Several sweepers at once. Each fetches a batch, deletes an object, marks its row, and may be
 * stopped between any two of these operations; uploads and new deletion requests go on meanwhile.
 */
module SweeperProtocol {
  import opened Base
  import opened Sweeper

  /** `tried` holds the outcome of deleting the current key, once storage has answered. */
  datatype Phase = Idle | Working(batch: seq<string>, at: nat, tried: Option<bool>)

  datatype State = State(queue: Queue, storage: set<string>, everQueued: set<string>, workers: map<int, Phase>)

  datatype Action =
    | Upload(key: string)
    | Request(key: string)
    | Fetch(worker: int)
    | Delete(worker: int, failed: bool, removed: bool)
    | MarkRow(worker: int)
    | Stop(worker: int)

  const START := State([], {}, {}, map[])

  function PhaseOf(s: State, worker: int): Phase {
    if worker in s.workers then s.workers[worker] else Idle
  }

  predicate AtKey(p: Phase) {
    p.Working? && p.at < |p.batch|
  }

  /** Object keys carry a fresh UUID, so a key once queued is never uploaded again. */
  predicate Allowed(s: State, a: Action) {
    match a
    case Upload(key) => key !in s.everQueued
    case Fetch(w) => PhaseOf(s, w) == Idle
    case Delete(w, _, _) => AtKey(PhaseOf(s, w)) && PhaseOf(s, w).tried == None
    case MarkRow(w) => AtKey(PhaseOf(s, w)) && PhaseOf(s, w).tried.Some?
    case _ => true
  }

  function Begin(keys: seq<string>): Phase {
    if keys == [] then Idle else Working(keys, 0, None)
  }

  function Advance(p: Phase): Phase
    requires p.Working?
  {
    if p.at + 1 < |p.batch| then Working(p.batch, p.at + 1, None) else Idle
  }

  /** A failed deletion may still have removed the object before the error came back. */
  function Next(s: State, a: Action): State
    requires Allowed(s, a)
  {
    match a
    case Upload(key) => s.(storage := s.storage + {key})
    case Request(key) => s.(queue := Enqueue(s.queue, key), everQueued := s.everQueued + {key})
    case Fetch(w) => s.(workers := s.workers[w := Begin(Pending(s.queue))])
    case Delete(w, failed, removed) =>
      var p := PhaseOf(s, w);
      s.(storage := if failed && !removed then s.storage else s.storage - {p.batch[p.at]},
         workers := s.workers[w := p.(tried := Some(failed))])
    case MarkRow(w) =>
      var p := PhaseOf(s, w);
      s.(queue := Mark(s.queue, p.batch[p.at], p.tried.value), workers := s.workers[w := Advance(p)])
    case Stop(w) => s.(workers := s.workers[w := Idle])
  }

  ghost predicate ValidRun(s: State, run: seq<Action>)
    decreases |run|
  {
    run == [] || (Allowed(s, run[0]) && ValidRun(Next(s, run[0]), run[1..]))
  }

  ghost function After(s: State, run: seq<Action>): State
    requires ValidRun(s, run)
    decreases |run|
  {
    if run == [] then s else After(Next(s, run[0]), run[1..])
  }

  // ----- Crash safety -----

  /** The promise: a key once queued is still queued, or its object is gone. */
  ghost predicate NothingLost(s: State) {
    forall k :: k in s.everQueued ==> Queued(s.queue, k) || k !in s.storage
  }

  ghost predicate WorkersSound(s: State) {
    forall w :: w in s.workers && s.workers[w].Working? ==>
      var p := s.workers[w];
      && p.at < |p.batch|
      && (forall k :: k in p.batch ==> k in s.everQueued)
      && (p.tried == Some(false) ==> p.batch[p.at] !in s.storage)
  }

  ghost predicate Inv(s: State) {
    && NothingLost(s)
    && WorkersSound(s)
    && UniqueKeys(s.queue)
    && (forall k :: Queued(s.queue, k) ==> k in s.everQueued)
  }

  lemma {:induction false} EnqueueSpec(q: Queue, key: string, k: string)
    requires UniqueKeys(q)
    ensures UniqueKeys(Enqueue(q, key))
    ensures Attempts(Enqueue(q, key), k) == if k == key && !Queued(q, k) then Some(0) else Attempts(q, k)
  {
    if !Queued(q, key) {
      AppendSpec(q, key, k);
    }
  }

  lemma {:induction false} AppendSpec(q: Queue, key: string, k: string)
    requires UniqueKeys(q) && !Queued(q, key)
    ensures UniqueKeys(q + [Row(key, 0)])
    ensures Attempts(q + [Row(key, 0)], k) == if k == key then Some(0) else Attempts(q, k)
  {
    var grown := q + [Row(key, 0)];
    if q != [] {
      assert grown[1..] == q[1..] + [Row(key, 0)];
      AppendSpec(q[1..], key, k);
      AppendSpec(q[1..], key, q[0].key);
    }
  }

  lemma StepKeepsInv(s: State, a: Action)
    requires Inv(s) && Allowed(s, a)
    ensures Inv(Next(s, a))
  {
    match a
    case Upload(key) =>
    case Request(key) =>
      forall k
        ensures Attempts(Enqueue(s.queue, key), k) ==
          if k == key && !Queued(s.queue, k) then Some(0) else Attempts(s.queue, k)
      {
        EnqueueSpec(s.queue, key, k);
      }
      EnqueueSpec(s.queue, key, key);
    case Fetch(w) =>
      PendingSpec(s.queue);
    case Delete(w, failed, removed) =>
    case MarkRow(w) =>
      MarkKeepsInv(s, w);
    case Stop(w) =>
  }

  lemma MarkKeepsInv(s: State, w: int)
    requires Inv(s) && Allowed(s, MarkRow(w))
    ensures Inv(Next(s, MarkRow(w)))
  {
    var p, t := PhaseOf(s, w), Next(s, MarkRow(w));
    var key, failed := p.batch[p.at], p.tried.value;
    MarkKeepsUnique(s.queue, key, failed);
    forall k ensures Queued(t.queue, k) <==> Queued(s.queue, k) && (k == key ==> failed) {
      MarkSpec(s.queue, key, failed, k);
    }
  }

  /** From any interleaving, with sweepers stopped anywhere, no queued key is lost. */
  lemma {:induction false} CrashSafe(s: State, run: seq<Action>)
    requires Inv(s) && ValidRun(s, run)
    ensures Inv(After(s, run)) && NothingLost(After(s, run))
    decreases |run|
  {
    if run != [] {
      StepKeepsInv(s, run[0]);
      CrashSafe(Next(s, run[0]), run[1..]);
    }
  }

  lemma StartIsSound()
    ensures Inv(START)
  {
  }

  /** In particular from nothing: whatever was uploaded, queued, swept and stopped since. */
  lemma CrashSafeFromStart(run: seq<Action>)
    requires ValidRun(START, run)
    ensures NothingLost(After(START, run))
  {
    StartIsSound();
    CrashSafe(START, run);
  }

  /** An object nobody asked to delete is never removed. */
  lemma {:induction false} UnqueuedObjectsStay(s: State, run: seq<Action>, key: string)
    requires Inv(s) && ValidRun(s, run) && key in s.storage
    ensures key in After(s, run).storage || key in After(s, run).everQueued
    decreases |run|
  {
    if run != [] {
      StepKeepsInv(s, run[0]);
      if key in Next(s, run[0]).storage {
        UnqueuedObjectsStay(Next(s, run[0]), run[1..], key);
      } else {
        QueuedForGood(s, run, key);
      }
    }
  }

  lemma {:induction false} QueuedForGood(s: State, run: seq<Action>, key: string)
    requires ValidRun(s, run) && key in s.everQueued
    ensures key in After(s, run).everQueued
    decreases |run|
  {
    if run != [] {
      QueuedForGood(Next(s, run[0]), run[1..], key);
    }
  }

  /** Whatever the sweepers do, only a new request can add to the attempts that are left. */
  lemma SweepersOnlySpend(s: State, a: Action)
    requires Inv(s) && Allowed(s, a) && !a.Request?
    ensures Remaining(Next(s, a).queue) <= Remaining(s.queue)
  {
    if a.MarkRow? {
      var p := PhaseOf(s, a.worker);
      if Queued(s.queue, p.batch[p.at]) {
        MarkCosts(s.queue, p.batch[p.at], p.tried.value);
      } else {
        AbsentKeyCostsNothing(s.queue, p.batch[p.at], p.tried.value);
      }
    }
  }

  lemma {:induction false} EnqueueCosts(q: Queue, key: string)
    ensures Remaining(Enqueue(q, key)) <= Remaining(q) + MAX_ATTEMPTS
  {
    if !Queued(q, key) {
      AppendCosts(q, key);
    }
  }

  lemma {:induction false} AppendCosts(q: Queue, key: string)
    ensures Remaining(q + [Row(key, 0)]) == Remaining(q) + MAX_ATTEMPTS
  {
    var grown := q + [Row(key, 0)];
    if q != [] {
      assert grown[1..] == q[1..] + [Row(key, 0)];
      AppendCosts(q[1..], key);
    }
  }

  /** Marking a key that is still queued with attempts left. */
  ghost predicate Spends(s: State, a: Action)
    requires Allowed(s, a)
  {
    a.MarkRow? &&
    var p := PhaseOf(s, a.worker);
    Queued(s.queue, p.batch[p.at]) && Left(Attempts(s.queue, p.batch[p.at]).value) > 0
  }

  ghost function Spendings(s: State, run: seq<Action>): nat
    requires ValidRun(s, run)
    decreases |run|
  {
    if run == [] then 0 else (if Spends(s, run[0]) then 1 else 0) + Spendings(Next(s, run[0]), run[1..])
  }

  ghost function Requests(run: seq<Action>): nat {
    if run == [] then 0 else (if run[0].Request? then 1 else 0) + Requests(run[1..])
  }

  lemma StepSpends(s: State, a: Action)
    requires Inv(s) && Allowed(s, a)
    ensures Remaining(Next(s, a).queue) + (if Spends(s, a) then 1 else 0)
      <= Remaining(s.queue) + (if a.Request? then MAX_ATTEMPTS else 0)
  {
    if a.Request? {
      EnqueueCosts(s.queue, a.key);
    } else {
      SweepersOnlySpend(s, a);
      if Spends(s, a) {
        var p := PhaseOf(s, a.worker);
        MarkCosts(s.queue, p.batch[p.at], p.tried.value);
      }
    }
  }

  /**
   * Over any interleaving: marks on keys still queued with attempts left are paid for, one each, by
   * the attempts left at the start and the ten that every request brings.
   */
  lemma {:induction false} RunsSpend(s: State, run: seq<Action>)
    requires Inv(s) && ValidRun(s, run)
    ensures Spendings(s, run) + Remaining(After(s, run).queue) <= Remaining(s.queue) + 10 * Requests(run)
    decreases |run|
  {
    if run != [] {
      StepKeepsInv(s, run[0]);
      StepSpends(s, run[0]);
      RunsSpend(Next(s, run[0]), run[1..]);
    }
  }

  /**
   * Without further requests the offer runs out: workers get to mark keys that are queued with
   * attempts left no more often than attempts were left, and once that often nothing is on offer.
   */
  lemma OfferRunsOut(s: State, run: seq<Action>)
    requires Inv(s) && ValidRun(s, run) && Requests(run) == 0
    ensures Spendings(s, run) <= Remaining(s.queue)
    ensures Spendings(s, run) >= Remaining(s.queue) ==> Offerable(After(s, run).queue) == []
  {
    RunsSpend(s, run);
    NothingRemainsIffNothingOffered(After(s, run).queue);
  }

  /** Until then an idle worker's next pass makes such a mark, at its first key. */
  lemma NextPassSpends(s: State, worker: int, failed: bool, removed: bool)
    requires Inv(s) && PhaseOf(s, worker) == Idle && Offerable(s.queue) != []
    ensures Allowed(s, Fetch(worker))
    ensures var fetched := Next(s, Fetch(worker));
      && Allowed(fetched, Delete(worker, failed, removed))
      && Allowed(Next(fetched, Delete(worker, failed, removed)), MarkRow(worker))
      && Spends(Next(fetched, Delete(worker, failed, removed)), MarkRow(worker))
  {
    PendingSpec(s.queue);
    assert Pending(s.queue)[0] in Pending(s.queue);
  }

  // ----- One worker's pass is a run of this machine -----

  /** The operations of a pass over a batch, from its `i`-th key on. */
  function PassRun(worker: int, keys: seq<string>, i: nat, broken: set<string>): seq<Action>
    requires i <= |keys|
    decreases |keys| - i
  {
    if i == |keys| then []
    else [Delete(worker, keys[i] in broken, false), MarkRow(worker)] + PassRun(worker, keys, i + 1, broken)
  }

  /** The state a worker has brought about when it turns to its `i`-th key. */
  ghost predicate MidPass(s: State, t: State, worker: int, keys: seq<string>, i: nat, broken: set<string>)
    requires i <= |keys|
  {
    && t.queue == AfterMarks(s.queue, keys[..i], broken)
    && t.storage == Without(s.storage, Swept(keys[..i], broken))
    && t.everQueued == s.everQueued
    && PhaseOf(t, worker) == if i < |keys| then Working(keys, i, None) else Idle
  }

  lemma {:induction false} PassRunsThrough(s: State, t: State, worker: int, keys: seq<string>, i: nat,
      broken: set<string>)
    requires i <= |keys| && MidPass(s, t, worker, keys, i, broken)
    ensures ValidRun(t, PassRun(worker, keys, i, broken))
    ensures MidPass(s, After(t, PassRun(worker, keys, i, broken)), worker, keys, |keys|, broken)
    decreases |keys| - i
  {
    if i < |keys| {
      var run := PassRun(worker, keys, i, broken);
      assert keys[..i + 1][..i] == keys[..i];
      var deleted := Next(t, run[0]);
      assert run[1..][0] == run[1] && run[1..][1..] == PassRun(worker, keys, i + 1, broken);
      var marked := Next(deleted, run[1]);
      PassRunsThrough(s, marked, worker, keys, i + 1, broken);
    }
  }

  /** The worker's pass, taken alone, is the fetch followed by a delete and a mark for each key. */
  lemma PassIsARun(s: State, worker: int, broken: set<string>)
    requires PhaseOf(s, worker) == Idle
    ensures var run := [Fetch(worker)] + PassRun(worker, Pending(s.queue), 0, broken);
      && ValidRun(s, run)
      && After(s, run).queue == AfterPass(s.queue, broken)
      && After(s, run).storage == Without(s.storage, Swept(Pending(s.queue), broken))
      && PhaseOf(After(s, run), worker) == Idle
  {
    var keys := Pending(s.queue);
    var fetched := Next(s, Fetch(worker));
    var run := [Fetch(worker)] + PassRun(worker, keys, 0, broken);
    assert run[1..] == PassRun(worker, keys, 0, broken);
    assert keys[..0] == [] && keys[..|keys|] == keys;
    assert fetched.storage == Without(s.storage, []);
    PassRunsThrough(s, fetched, worker, keys, 0, broken);
  }
}
