/** Result types shared by every module, and facts about sequences that several of them need. */
module Base {

  datatype Option<+T> = None | Some(value: T)

  datatype Result<+T, +E> = Ok(value: T) | Err(error: E)

  // ----- Sequences without repetition -----

  ghost predicate NoRepeats<T>(s: seq<T>) {
    forall i, j :: 0 <= i < j < |s| ==> s[i] != s[j]
  }

  /** Two repetition-free sequences with the same elements are permutations of each other. */
  lemma {:induction false} SameElementsSameMultiset<T>(a: seq<T>, b: seq<T>)
    requires NoRepeats(a) && NoRepeats(b)
    requires forall x :: x in a <==> x in b
    ensures multiset(a) == multiset(b)
  {
    forall x: T ensures multiset(a)[x] == multiset(b)[x] {
      CountIsOne(a, x);
      CountIsOne(b, x);
    }
  }

  lemma {:induction false} CountIsOne<T>(s: seq<T>, x: T)
    requires NoRepeats(s)
    ensures multiset(s)[x] == if x in s then 1 else 0
  {
    if s == [] {
    } else {
      var front, last := s[..|s| - 1], s[|s| - 1];
      assert s == front + [last];
      assert forall i :: 0 <= i < |front| ==> front[i] == s[i] != last;
      CountIsOne(front, x);
    }
  }

  /** Pigeonhole: a repetition-free sequence drawn from a finite set is no longer than the set. */
  lemma {:induction false} NoRepeatsFits<T>(s: seq<T>, bound: set<T>)
    requires NoRepeats(s)
    requires forall x :: x in s ==> x in bound
    ensures |s| <= |bound|
  {
    if s == [] {
    } else {
      var front, last := s[..|s| - 1], s[|s| - 1];
      assert s == front + [last];
      assert forall i :: 0 <= i < |front| ==> front[i] == s[i] != last;
      NoRepeatsFits(front, bound - {last});
    }
  }

  function Reverse<T>(s: seq<T>): (r: seq<T>)
    ensures |r| == |s|
    ensures forall i :: 0 <= i < |s| ==> r[i] == s[|s| - 1 - i]
  {
    seq(|s|, (i: int) requires 0 <= i < |s| => s[|s| - 1 - i])
  }
}
