/**
 * The media deletion queue, and one pass of the worker that drains it.
 */
module Sweeper {
  import opened Base

  const BATCH: nat := 50
  const MAX_ATTEMPTS: nat := 10

  // ----- The queue -----

  /** A queued object key and how often deleting it has failed. */
  datatype Row = Row(key: string, attempts: nat)

  /** Rows in the order they were queued. */
  type Queue = seq<Row>

  /** The attempt count recorded for a key, if the key is queued. */
  function Attempts(q: Queue, key: string): Option<nat> {
    if q == [] then None
    else if q[0].key == key then Some(q[0].attempts)
    else Attempts(q[1..], key)
  }

  predicate Queued(q: Queue, key: string) {
    Attempts(q, key).Some?
  }

  /** The database keeps object keys unique. */
  predicate UniqueKeys(q: Queue) {
    q == [] || (!Queued(q[1..], q[0].key) && UniqueKeys(q[1..]))
  }

  /** The keys still offered for deletion, oldest first. */
  function Offerable(q: Queue): seq<string> {
    if q == [] then []
    else (if q[0].attempts < MAX_ATTEMPTS then [q[0].key] else []) + Offerable(q[1..])
  }

  function Pending(q: Queue): (keys: seq<string>)
    ensures |keys| <= BATCH
  {
    var keys := Offerable(q);
    if |keys| <= BATCH then keys else keys[..BATCH]
  }

  function Enqueue(q: Queue, key: string): Queue {
    if Queued(q, key) then q else q + [Row(key, 0)]
  }

  function MarkDone(q: Queue, key: string): Queue {
    if q == [] then []
    else if q[0].key == key then MarkDone(q[1..], key)
    else [q[0]] + MarkDone(q[1..], key)
  }

  function MarkFailed(q: Queue, key: string): Queue {
    if q == [] then []
    else [if q[0].key == key then Row(key, q[0].attempts + 1) else q[0]] + MarkFailed(q[1..], key)
  }

  function Mark(q: Queue, key: string, failed: bool): Queue {
    if failed then MarkFailed(q, key) else MarkDone(q, key)
  }

  // ----- One pass -----

  /** The queue after marking each of `keys` in turn; the keys in `broken` cannot be deleted. */
  function AfterMarks(q: Queue, keys: seq<string>, broken: set<string>): Queue {
    if keys == [] then q
    else
      var n := |keys| - 1;
      Mark(AfterMarks(q, keys[..n], broken), keys[n], keys[n] in broken)
  }

  /** The keys of a batch that get deleted, in order. */
  function Swept(keys: seq<string>, broken: set<string>): seq<string> {
    if keys == [] then []
    else
      var n := |keys| - 1;
      Swept(keys[..n], broken) + (if keys[n] in broken then [] else [keys[n]])
  }

  function Without(storage: set<string>, keys: seq<string>): set<string> {
    set k | k in storage && k !in keys
  }

  class Worker {
    var queue: Queue
    var storage: set<string>

    /**
     * One pass. Deleting a key in `broken` fails; deleting an absent key counts as deleting it.
     * The queue itself stops answering at operation number `queueFails` of the pass, the fetch
     * being number 0.
     */
    method Sweep(broken: set<string>, queueFails: nat) returns (r: Result<nat, ()>)
      modifies this
      ensures var keys, q, s := Pending(old(queue)), old(queue), old(storage);
        if queueFails == 0 then r.Err? && queue == q && storage == s
        else if queueFails <= |keys| then
          && r.Err?
          && queue == AfterMarks(q, keys[..queueFails - 1], broken)
          && storage == Without(s, Swept(keys[..queueFails], broken))
        else
          && r == Ok(|Swept(keys, broken)|)
          && queue == AfterMarks(q, keys, broken)
          && storage == Without(s, Swept(keys, broken))
    {
      if queueFails == 0 {
        return Err(());
      }
      var pending := Pending(queue);
      assert storage == Without(old(storage), []);
      if pending == [] {
        return Ok(0);
      }
      var swept := 0;
      for i := 0 to |pending|
        invariant i < queueFails
        invariant queue == AfterMarks(old(queue), pending[..i], broken)
        invariant storage == Without(old(storage), Swept(pending[..i], broken))
        invariant swept == |Swept(pending[..i], broken)|
      {
        var key := pending[i];
        assert pending[..i + 1][..i] == pending[..i];
        if key !in broken {
          storage := storage - {key};
        }
        assert storage == Without(old(storage), Swept(pending[..i + 1], broken));
        if queueFails == i + 1 {
          return Err(());
        }
        if key in broken {
          queue := MarkFailed(queue, key);
        } else {
          queue := MarkDone(queue, key);
          swept := swept + 1;
        }
      }
      assert pending[..|pending|] == pending;
      return Ok(swept);
    }
  }

  // ----- Accounting -----

  lemma {:induction false} OfferableSpec(q: Queue)
    requires UniqueKeys(q)
    ensures NoRepeats(Offerable(q))
    ensures forall k :: k in Offerable(q) <==> Queued(q, k) && Attempts(q, k).value < 10
  {
    if q != [] {
      OfferableSpec(q[1..]);
    }
  }

  /** How many rows were queued before a key's. */
  function PlaceOf(q: Queue, key: string): nat
    requires Queued(q, key)
  {
    if q[0].key == key then 0 else 1 + PlaceOf(q[1..], key)
  }

  lemma {:induction false} OldestFirst(q: Queue, i: nat, j: nat)
    requires UniqueKeys(q) && i < j < |Offerable(q)|
    ensures var a, b := Offerable(q)[i], Offerable(q)[j];
      Queued(q, a) && Queued(q, b) && PlaceOf(q, a) < PlaceOf(q, b)
  {
    OfferableSpec(q);
    var rest := q[1..];
    OfferableSpec(rest);
    if q[0].attempts < MAX_ATTEMPTS {
      var b := Offerable(q)[j];
      assert b == Offerable(rest)[j - 1] && b in Offerable(rest);
      if i > 0 {
        OldestFirst(rest, i - 1, j - 1);
        assert Offerable(q)[i] == Offerable(rest)[i - 1] && Offerable(q)[i] in Offerable(rest);
      }
    } else {
      OldestFirst(rest, i, j);
      assert Offerable(rest)[i] in Offerable(rest) && Offerable(rest)[j] in Offerable(rest);
    }
  }

  /** A batch is the fifty oldest keys on offer, or all of them if there are fewer; each is offered once. */
  lemma PendingSpec(q: Queue)
    requires UniqueKeys(q)
    ensures NoRepeats(Pending(q))
    ensures forall k :: k in Pending(q) ==> Queued(q, k) && Attempts(q, k).value < 10
    ensures |Pending(q)| == if |Offerable(q)| <= 50 then |Offerable(q)| else 50
    ensures forall k, l :: k in Pending(q) && l in Offerable(q) && l !in Pending(q) ==>
      Queued(q, k) && Queued(q, l) && PlaceOf(q, k) < PlaceOf(q, l)
    ensures forall i, j :: 0 <= i < j < |Pending(q)| ==> PlaceOf(q, Pending(q)[i]) < PlaceOf(q, Pending(q)[j])
    ensures Pending(q) == [] <==> Offerable(q) == []
  {
    OfferableSpec(q);
    var all, batch := Offerable(q), Pending(q);
    assert batch == all[..|batch|];
    forall m | 0 <= m < |batch| ensures all[m] in batch {
      assert batch[m] == all[m];
    }
    forall k, l | k in batch && l in all && l !in batch
      ensures Queued(q, k) && Queued(q, l) && PlaceOf(q, k) < PlaceOf(q, l)
    {
      var i: nat :| i < |batch| && all[i] == k;
      var j: nat :| j < |all| && all[j] == l;
      OldestFirst(q, i, j);
    }
    forall i: nat, j: nat | i < j < |batch| ensures PlaceOf(q, batch[i]) < PlaceOf(q, batch[j]) {
      OldestFirst(q, i, j);
    }
  }

  /** What a failed or a finished deletion does to a recorded attempt count. */
  function Charged(attempts: Option<nat>, failed: bool): Option<nat> {
    if failed && attempts.Some? then Some(attempts.value + 1) else None
  }

  lemma {:induction false} MarkSpec(q: Queue, key: string, failed: bool, k: string)
    ensures Attempts(Mark(q, key, failed), k) == if k == key then Charged(Attempts(q, k), failed) else Attempts(q, k)
  {
    if q != [] {
      MarkSpec(q[1..], key, failed, k);
    }
  }

  lemma {:induction false} MarkKeepsUnique(q: Queue, key: string, failed: bool)
    requires UniqueKeys(q)
    ensures UniqueKeys(Mark(q, key, failed))
  {
    if q != [] {
      MarkKeepsUnique(q[1..], key, failed);
      MarkSpec(q[1..], key, failed, q[0].key);
    }
  }

  /** Each offered key is dealt with exactly once: dropped if deleted, one attempt dearer if not. */
  lemma {:induction false} PassAccounts(q: Queue, keys: seq<string>, broken: set<string>, k: string)
    requires UniqueKeys(q) && NoRepeats(keys)
    ensures UniqueKeys(AfterMarks(q, keys, broken))
    ensures Attempts(AfterMarks(q, keys, broken), k) ==
      if k in keys then Charged(Attempts(q, k), k in broken) else Attempts(q, k)
  {
    if keys != [] {
      var n := |keys| - 1;
      var front := keys[..n];
      assert keys == front + [keys[n]];
      assert forall i :: 0 <= i < n ==> front[i] == keys[i] != keys[n];
      PassAccounts(q, front, broken, k);
      MarkSpec(AfterMarks(q, front, broken), keys[n], keys[n] in broken, k);
      MarkKeepsUnique(AfterMarks(q, front, broken), keys[n], keys[n] in broken);
    }
  }

  /** What a pass reports as swept: the offered keys whose deletion worked, each once. */
  lemma {:induction false} SweptSpec(keys: seq<string>, broken: set<string>)
    requires NoRepeats(keys)
    ensures NoRepeats(Swept(keys, broken))
    ensures forall k :: k in Swept(keys, broken) <==> k in keys && k !in broken
  {
    if keys != [] {
      var n := |keys| - 1;
      assert keys == keys[..n] + [keys[n]];
      assert forall i :: 0 <= i < n ==> keys[..n][i] == keys[i] != keys[n];
      SweptSpec(keys[..n], broken);
    }
  }

  // ----- The queue drains -----

  function Left(attempts: nat): nat {
    if attempts < MAX_ATTEMPTS then MAX_ATTEMPTS - attempts else 0
  }

  /** Attempts left over all the keys still offered. */
  function Remaining(q: Queue): nat {
    if q == [] then 0 else Left(q[0].attempts) + Remaining(q[1..])
  }

  lemma {:induction false} NothingRemainsIffNothingOffered(q: Queue)
    ensures |Offerable(q)| <= Remaining(q) <= 10 * |Offerable(q)|
  {
    if q != [] {
      NothingRemainsIffNothingOffered(q[1..]);
    }
  }

  lemma {:induction false} AbsentKeyCostsNothing(q: Queue, key: string, failed: bool)
    requires !Queued(q, key)
    ensures Mark(q, key, failed) == q
  {
    if q != [] {
      AbsentKeyCostsNothing(q[1..], key, failed);
    }
  }

  /** Marking a key changes what is left of that key only, and lowers it if anything was left. */
  lemma {:induction false} MarkCosts(q: Queue, key: string, failed: bool)
    requires UniqueKeys(q) && Queued(q, key)
    ensures var before := Left(Attempts(q, key).value);
      Remaining(Mark(q, key, failed)) ==
        Remaining(q) - (if failed then (if before > 0 then 1 else 0) else before)
  {
    if q[0].key == key {
      AbsentKeyCostsNothing(q[1..], key, failed);
    } else {
      MarkCosts(q[1..], key, failed);
    }
  }

  /** Every key marked uses up at least one remaining attempt. */
  lemma {:induction false} PassCosts(q: Queue, keys: seq<string>, broken: set<string>)
    requires UniqueKeys(q) && NoRepeats(keys)
    requires forall k :: k in keys ==> Queued(q, k) && Attempts(q, k).value < MAX_ATTEMPTS
    ensures Remaining(AfterMarks(q, keys, broken)) + |keys| <= Remaining(q)
  {
    if keys != [] {
      var n := |keys| - 1;
      var front := keys[..n];
      assert forall i :: 0 <= i < n ==> front[i] == keys[i] != keys[n];
      PassCosts(q, front, broken);
      PassAccounts(q, front, broken, keys[n]);
      MarkCosts(AfterMarks(q, front, broken), keys[n], keys[n] in broken);
    }
  }

  /** The queue after one complete pass. */
  function AfterPass(q: Queue, broken: set<string>): Queue {
    AfterMarks(q, Pending(q), broken)
  }

  lemma AfterPassSpec(q: Queue, broken: set<string>, k: string)
    requires UniqueKeys(q)
    ensures UniqueKeys(AfterPass(q, broken))
    ensures Remaining(AfterPass(q, broken)) + |Pending(q)| <= Remaining(q)
    ensures Attempts(AfterPass(q, broken), k) ==
      if k in Pending(q) then Charged(Attempts(q, k), k in broken) else Attempts(q, k)
  {
    PendingSpec(q);
    PassCosts(q, Pending(q), broken);
    PassAccounts(q, Pending(q), broken, k);
  }

  /** The queue after a number of complete passes, nothing being queued meanwhile. */
  function AfterPasses(q: Queue, broken: seq<set<string>>): Queue
    decreases |broken|
  {
    if broken == [] then q else AfterPasses(AfterPass(q, broken[0]), broken[1..])
  }

  /** How many keys those passes offer to storage altogether. */
  function Offered(q: Queue, broken: seq<set<string>>): nat
    decreases |broken|
  {
    if broken == [] then 0 else |Pending(q)| + Offered(AfterPass(q, broken[0]), broken[1..])
  }

  /** However the deletions go, passes together offer no more keys than there were attempts left. */
  lemma {:induction false} PassesDrain(q: Queue, broken: seq<set<string>>)
    requires UniqueKeys(q)
    ensures UniqueKeys(AfterPasses(q, broken))
    ensures Offered(q, broken) + Remaining(AfterPasses(q, broken)) <= Remaining(q)
    decreases |broken|
  {
    if broken != [] {
      AfterPassSpec(q, broken[0], "");
      PassesDrain(AfterPass(q, broken[0]), broken[1..]);
    }
  }

  /** As many passes as attempts were left are enough to leave nothing to offer. */
  lemma {:induction false} EnoughPassesEmptyTheOffer(q: Queue, broken: seq<set<string>>)
    requires UniqueKeys(q) && |broken| >= Remaining(q)
    ensures Offerable(AfterPasses(q, broken)) == []
    decreases |broken|
  {
    NothingRemainsIffNothingOffered(q);
    if broken != [] {
      AfterPassSpec(q, broken[0], "");
      PendingSpec(q);
      NothingRemainsIffNothingOffered(AfterPass(q, broken[0]));
      if Remaining(AfterPass(q, broken[0])) <= |broken| - 1 {
        EnoughPassesEmptyTheOffer(AfterPass(q, broken[0]), broken[1..]);
      }
    }
  }

  /** A key whose deletion never fails keeps its attempt count for as long as it is queued. */
  lemma {:induction false} UnbrokenKeepsCount(q: Queue, broken: seq<set<string>>, key: string)
    requires UniqueKeys(q) && forall b :: b in broken ==> key !in b
    ensures Attempts(AfterPasses(q, broken), key) in {None, Attempts(q, key)}
    decreases |broken|
  {
    if broken != [] {
      assert broken[0] in broken;
      AfterPassSpec(q, broken[0], key);
      UnbrokenKeepsCount(AfterPass(q, broken[0]), broken[1..], key);
    }
  }

  /** Undeletable keys do not block the rest: every key that can be deleted leaves the queue. */
  lemma DeletableKeysLeave(q: Queue, broken: seq<set<string>>, key: string)
    requires UniqueKeys(q) && |broken| >= Remaining(q)
    requires key in Offerable(q) && forall b :: b in broken ==> key !in b
    ensures !Queued(AfterPasses(q, broken), key)
  {
    OfferableSpec(q);
    EnoughPassesEmptyTheOffer(q, broken);
    UnbrokenKeepsCount(q, broken, key);
    PassesDrain(q, broken);
    OfferableSpec(AfterPasses(q, broken));
    assert key !in Offerable(AfterPasses(q, broken));
  }
}
