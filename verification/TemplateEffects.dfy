/**
 * What applying a template does to the jobs' programmes, row by row, and what saving a programme,
 * applying it to a job and saving that job gives.
 */
module TemplateEffects {
  import opened Base
  import opened Text
  import opened CallForwardItem
  import opened Forest
  import opened Templates
  import opened RoundTrip
  import opened ApplyTemplate
  import opened CallForwardService
  import opened TemplateRuns

  // ----- The rows applied are those of the programme -----

  lemma NameOfParsed(s: string)
    requires ParseItemType(s).Some?
    ensures ItemTypeName(ParseItemType(s).value) == s
  {
  }

  lemma AppliedItemIsRow(t: seq<TemplateItem>, n: nat, job: int, base: int, k: nat)
    requires k < |t| && Typed(t)
    ensures AppliedItem(t, n, job, base, k).job == job
    ensures RowOf(n + k, AppliedItem(t, n, job, base, k)) == Applied(t, NewIds(n, |t|), base)[k]
  {
    NameOfParsed(t[k].itemType);
  }

  ghost predicate AppliedAt(now: Items, t: seq<TemplateItem>, n: nat, job: int, base: int, j: nat)
    requires j < |t| && Typed(t)
  {
    n + j in now && now[n + j] == AppliedItem(t, n, job, base, j)
  }

  /** The first `k` items are in, with the ids from `n` up, and nothing else has changed. */
  ghost predicate RowsIn(kept: Items, t: seq<TemplateItem>, n: nat, job: int, base: int, k: nat, now: Items)
    requires k <= |t| && Typed(t)
  {
    && (forall x :: x < n || x >= n + k ==> SameAt(kept, now, x))
    && (forall j: nat :: j < k ==> AppliedAt(now, t, n, job, base, j))
  }

  lemma OneMoreIn(kept: Items, t: seq<TemplateItem>, n: nat, job: int, base: int, k: nat, now: Items)
    requires k < |t| && Typed(t) && RowsIn(kept, t, n, job, base, k, now)
    ensures RowsIn(kept, t, n, job, base, k + 1, now[n + k := AppliedItem(t, n, job, base, k)])
  {
    var next := now[n + k := AppliedItem(t, n, job, base, k)];
    forall x | x < n || x >= n + k + 1 ensures SameAt(kept, next, x) {
      assert SameAt(kept, now, x);
    }
    forall j: nat | j < k + 1 ensures AppliedAt(next, t, n, job, base, j) {
      assert j < k ==> AppliedAt(now, t, n, job, base, j);
    }
  }

  lemma {:induction false} RowsAreThere(kept: Items, t: seq<TemplateItem>, n: nat, job: int, base: int, k: nat)
    requires k <= |t| && Typed(t)
    ensures RowsIn(kept, t, n, job, base, k, AfterRows(kept, t, n, job, base, k))
  {
    if k > 0 {
      RowsAreThere(kept, t, n, job, base, k - 1);
      OneMoreIn(kept, t, n, job, base, k - 1, AfterRows(kept, t, n, job, base, k - 1));
    }
  }

  /** A programme's rows and its place for the next one, whatever order the rows come in. */
  lemma NextSortAgrees(items: Items, n: nat, job: int, rows: seq<ProgrammeRow>)
    requires forall r :: r in rows <==> IsRowOf(items, n, job, r)
    ensures NextSort(items, job, n) == NextSortOrder(rows)
  {
    match MaxSort(items, job, n)
    case None =>
    case Some(m) =>
      var x :| 0 <= x < n && x in items && items[x].job == job && items[x].sortOrder == m;
      assert IsRowOf(items, n, job, RowOf(x, items[x]));
  }

  /** A row of the job is one that was kept, or item `k` as it was written. */
  lemma RowAfterApply(kept: Items, t: seq<TemplateItem>, n: nat, job: int, base: int, now: Items, r: ProgrammeRow)
    requires Typed(t) && (forall x :: x in kept ==> x < n) && RowsIn(kept, t, n, job, base, |t|, now)
    ensures IsRowOf(now, n + |t|, job, r) <==>
      IsRowOf(kept, n, job, r) || r in Applied(t, NewIds(n, |t|), base)
  {
    var added := Applied(t, NewIds(n, |t|), base);
    if n <= r.id < n + |t| {
      var j: nat := r.id - n;
      assert AppliedAt(now, t, n, job, base, j);
      AppliedItemIsRow(t, n, job, base, j);
      assert added[j] in added;
    } else {
      assert SameAt(kept, now, r.id);
    }
    if r in added {
      var j: nat :| j < |added| && added[j] == r;
      assert AppliedAt(now, t, n, job, base, j);
      AppliedItemIsRow(t, n, job, base, j);
    }
  }

  lemma KeptRows(items: Items, n: nat, job: int, replace: bool, r: ProgrammeRow)
    ensures r in Kept(ProgrammeOf(items, n, job), replace) <==> IsRowOf(KeptItems(items, job, replace), n, job, r)
    ensures forall other :: other != job ==>
      (r in ProgrammeOf(items, n, other) <==> IsRowOf(KeptItems(items, job, replace), n, other, r))
  {
    ProgrammeIs(items, n, job);
    forall other | other != job
      ensures r in ProgrammeOf(items, n, other) <==> IsRowOf(KeptItems(items, job, replace), n, other, r)
    {
      ProgrammeIs(items, n, other);
    }
  }

  /** The items after a template that is not empty is applied, and where it put its rows. */
  lemma AfterApplyIs(items: Items, n: nat, job: int, t: seq<TemplateItem>, replace: bool) returns (base: int)
    requires Sound(items, n) && Typed(t) && t != []
    ensures base == NextSortOrder(Kept(ProgrammeOf(items, n, job), replace))
    ensures RowsIn(KeptItems(items, job, replace), t, n, job, base, |t|, AfterApply(items, n, job, t, replace))
  {
    var kept := KeptItems(items, job, replace);
    base := NextSort(kept, job, n);
    RowsAreThere(kept, t, n, job, base, |t|);
    forall r ensures r in Kept(ProgrammeOf(items, n, job), replace) <==> IsRowOf(kept, n, job, r) {
      KeptRows(items, n, job, replace, r);
    }
    NextSortAgrees(kept, n, job, Kept(ProgrammeOf(items, n, job), replace));
  }

  lemma OtherRowsStay(kept: Items, t: seq<TemplateItem>, n: nat, job: int, base: int, now: Items, other: int)
    requires Typed(t) && (forall x :: x in kept ==> x < n) && RowsIn(kept, t, n, job, base, |t|, now) && other != job
    ensures forall r :: IsRowOf(now, n + |t|, other, r) <==> IsRowOf(kept, n, other, r)
  {
    forall r ensures IsRowOf(now, n + |t|, other, r) <==> IsRowOf(kept, n, other, r) {
      if n <= r.id < n + |t| {
        assert AppliedAt(now, t, n, job, base, r.id - n);
        AppliedItemIsRow(t, n, job, base, r.id - n);
      } else {
        assert SameAt(kept, now, r.id);
      }
    }
  }

  ghost predicate SameRowsAs(a: seq<ProgrammeRow>, b: seq<ProgrammeRow>) {
    forall r :: r in a <==> r in b
  }

  /** The job's rows are what applying the template to its rows gives. */
  lemma ApplyIsOnTheRows(items: Items, n: nat, job: int, t: seq<TemplateItem>, replace: bool, after: Items, m: nat)
    requires Sound(items, n) && Typed(t) && after == AfterApply(items, n, job, t, replace) && m == n + |t|
    ensures SameRowsAs(ProgrammeOf(after, m, job), AppliedTo(ProgrammeOf(items, n, job), t, NewIds(n, |t|), replace))
  {
    if t != [] {
      var base := AfterApplyIs(items, n, job, t, replace);
      var rows := ProgrammeOf(items, n, job);
      ProgrammeIs(after, m, job);
      forall r ensures r in ProgrammeOf(after, m, job) <==> r in AppliedTo(rows, t, NewIds(n, |t|), replace) {
        KeptRows(items, n, job, replace, r);
        RowAfterApply(KeptItems(items, job, replace), t, n, job, base, after, r);
      }
    }
  }

  /** Every other job's programme is what it was. */
  lemma ApplySparesOtherJobs(items: Items, n: nat, job: int, t: seq<TemplateItem>, replace: bool, other: int)
    requires Sound(items, n) && Typed(t) && other != job
    ensures ProgrammeOf(AfterApply(items, n, job, t, replace), n + |t|, other) == ProgrammeOf(items, n, other)
  {
    if t != [] {
      var base := AfterApplyIs(items, n, job, t, replace);
      var after := AfterApply(items, n, job, t, replace);
      ProgrammeIs(items, n, other);
      ProgrammeIs(after, n + |t|, other);
      OtherRowsStay(KeptItems(items, job, replace), t, n, job, base, after, other);
      forall r ensures r in ProgrammeOf(after, n + |t|, other) <==> r in ProgrammeOf(items, n, other) {
        KeptRows(items, n, job, replace, r);
      }
      SortedListsAgree(ProgrammeOf(after, n + |t|, other), ProgrammeOf(items, n, other));
    }
  }

  // ----- Saving, applying, saving again -----

  lemma CaptureIgnoresOrder(rows: seq<ProgrammeRow>, others: seq<ProgrammeRow>)
    requires DistinctIds(rows) && DistinctIds(others) && !HasCycle(rows)
    requires forall r :: r in rows <==> r in others
    ensures CaptureOf(rows) == CaptureOf(others)
  {
    SameElementsSameMultiset(rows, others);
    ArrivalOrderIrrelevant(rows, others);
  }

  lemma NewIdsAreFresh(items: Items, n: nat, job: int, count: nat)
    requires Sound(items, n)
    ensures FreshFor(ProgrammeOf(items, n, job), NewIds(n, count))
  {
    ProgrammeSpec(items, n, job);
    forall r | r in ProgrammeOf(items, n, job) ensures r.parentId.Some? ==> r.parentId.value < n {
      assert LinkOk(items, r.id);
    }
  }

  lemma CapturedSize(rows: seq<ProgrammeRow>)
    requires DistinctIds(rows)
    ensures |CaptureOf(rows)| == |rows|
  {
    TreeOrderIsPermutation(rows);
  }

  /** What saving gives once the programme `rows` has been saved and written onto one with the rows `was`. */
  ghost function Resaved(was: seq<ProgrammeRow>, rows: seq<ProgrammeRow>, replace: bool): seq<TemplateItem>
    requires DistinctIds(was) && DistinctIds(rows)
  {
    if replace then CaptureOf(rows) else CaptureOf(was) + ShiftedAll(CaptureOf(rows), |was|)
  }

  ghost predicate CapturesAs(rows: seq<ProgrammeRow>, t: seq<TemplateItem>) {
    DistinctIds(rows) && CaptureOf(rows) == t
  }

  lemma AppliedRowsCapture(was: seq<ProgrammeRow>, rows: seq<ProgrammeRow>, t: seq<TemplateItem>, ids: seq<int>,
      replace: bool, now: seq<ProgrammeRow>)
    requires DistinctIds(was) && !HasCycle(was) && rows != [] && CapturesAs(rows, t) && Verdict(t).Ok?
    requires |was| + |rows| <= I32_MAX && |ids| == |rows| == |t| && FreshFor(was, ids)
    requires DistinctIds(now) && SameRowsAs(now, AppliedTo(was, t, ids, replace))
    ensures CapturesAs(now, Resaved(was, rows, replace))
  {
    if replace { ReplaceThenCapture(was, rows, ids); } else { ApplyThenCapture(was, rows, ids); }
    CaptureIgnoresOrder(AppliedTo(was, t, ids, replace), now);
  }

  /** Any programme can be appended to. */
  lemma TargetIsReady(items: Items, n: nat, target: int, count: nat)
    requires Sound(items, n) && Titled(items) && n <= I32_MAX
    ensures var was := ProgrammeOf(items, n, target);
      DistinctIds(was) && !HasCycle(was) && |was| <= n && FreshFor(was, NewIds(n, count))
  {
    SoundProgrammesCapture(items, n, target);
    ProgrammeSpec(items, n, target);
    NewIdsAreFresh(items, n, target, count);
  }

  lemma AppliedProgramme(items: Items, n: nat, target: int, rows: seq<ProgrammeRow>, t: seq<TemplateItem>,
      replace: bool, after: Items, m: nat)
    requires Sound(items, n) && Titled(items) && rows != [] && CapturesAs(rows, t) && |rows| == |t|
    requires Verdict(t).Ok? && Typed(t) && after == AfterApply(items, n, target, t, replace) && m == n + |t| <= I32_MAX
    ensures DistinctIds(ProgrammeOf(items, n, target))
    ensures CapturesAs(ProgrammeOf(after, m, target), Resaved(ProgrammeOf(items, n, target), rows, replace))
  {
    TargetIsReady(items, n, target, |t|);
    ApplyIsOnTheRows(items, n, target, t, replace, after, m);
    ProgrammeSpec(after, m, target);
    AppliedRowsCapture(ProgrammeOf(items, n, target), rows, t, NewIds(n, |t|), replace, ProgrammeOf(after, m, target));
  }

  lemma SaveThenApply(w: World, visible: set<int>, name: string, source: int, target: int, replace: bool)
    requires Saves(w, Save(visible, name, source)) && target in visible
    ensures var t := CaptureOf(ProgrammeOf(w.items, w.nextId, source));
      var stored := TemplateRuns.Next(w, Save(visible, name, source));
      && Typed(t)
      && TemplateRuns.Next(stored, TemplateRuns.Action.Apply(visible, |w.templates|, target, replace)) ==
         World(AfterApply(w.items, w.nextId, target, t, replace), w.nextId + |t|, w.templates + [t])
  {
    var t := CaptureOf(ProgrammeOf(w.items, w.nextId, source));
    GoodIsTyped(t);
    assert TemplateRuns.Next(w, Save(visible, name, source)) == w.(templates := w.templates + [t]);
  }

  lemma AppliedSaved(items: Items, n: nat, source: int, target: int, replace: bool, after: Items, m: nat)
    requires Sound(items, n) && Titled(items) && ProgrammeOf(items, n, source) != []
    requires DistinctIds(ProgrammeOf(items, n, source)) && Verdict(CaptureOf(ProgrammeOf(items, n, source))).Ok?
    requires var t := CaptureOf(ProgrammeOf(items, n, source));
      Typed(t) && after == AfterApply(items, n, target, t, replace) && m == n + |t| <= I32_MAX
    ensures DistinctIds(ProgrammeOf(items, n, target))
    ensures CapturesAs(ProgrammeOf(after, m, target),
      Resaved(ProgrammeOf(items, n, target), ProgrammeOf(items, n, source), replace))
  {
    var rows := ProgrammeOf(items, n, source);
    CapturedSize(rows);
    AppliedProgramme(items, n, target, rows, CaptureOf(rows), replace, after, m);
  }

  /**
   * Save one job's programme, write it onto another job or the same one, and save that: what was
   * saved comes back, behind the job's own items if it was not replaced.
   */
  lemma SaveApplySave(w: World, visible: set<int>, name: string, source: int, target: int, replace: bool, end: World)
    requires Sound(w.items, w.nextId) && Titled(w.items) && ProgrammeOf(w.items, w.nextId, source) != []
    requires Saves(w, Save(visible, name, source)) && target in visible
    requires end == TemplateRuns.Next(TemplateRuns.Next(w, Save(visible, name, source)),
      TemplateRuns.Action.Apply(visible, |w.templates|, target, replace))
    requires end.nextId <= I32_MAX
    ensures DistinctIds(ProgrammeOf(w.items, w.nextId, target))
    ensures CapturesAs(ProgrammeOf(end.items, end.nextId, target),
      Resaved(ProgrammeOf(w.items, w.nextId, target), ProgrammeOf(w.items, w.nextId, source), replace))
  {
    SaveThenApply(w, visible, name, source, target, replace);
    AppliedSaved(w.items, w.nextId, source, target, replace, end.items, end.nextId);
  }
}
