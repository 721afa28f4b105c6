/**
 * Runs in which programmes are also saved as templates and templates are written onto jobs. What
 * creating and updating keep true of programmes survives that too.
 */
module TemplateRuns {
  import opened Base
  import opened Text
  import opened CallForwardItem
  import opened Forest
  import opened Templates
  import opened RoundTrip
  import opened ApplyTemplate
  import Service = CallForwardService
  import opened CallForwardService

  // ----- Writing a template onto a job -----

  /** The ids the database hands out. */
  function NewIds(n: nat, count: nat): (ids: seq<int>)
    ensures |ids| == count && forall j :: 0 <= j < count ==> ids[j] == n + j
  {
    seq(count, j => n + j)
  }

  predicate Typed(t: seq<TemplateItem>) {
    forall i :: 0 <= i < |t| ==> ParseItemType(t[i].itemType).Some?
  }

  /** Row `k` as an item of the job. */
  function AppliedItem(t: seq<TemplateItem>, n: nat, job: int, base: int, k: nat): Item
    requires k < |t| && Typed(t)
  {
    var row := AppliedRow(t, NewIds(n, |t|), base, k);
    Item(job, row.title, ParseItemType(row.itemType).value, row.supplierTrade, row.sortOrder, row.parentId)
  }

  function AfterRows(kept: Items, t: seq<TemplateItem>, n: nat, job: int, base: int, k: nat): Items
    requires k <= |t| && Typed(t)
  {
    if k == 0 then kept
    else AfterRows(kept, t, n, job, base, k - 1)[n + (k - 1) := AppliedItem(t, n, job, base, k - 1)]
  }

  function KeptItems(items: Items, job: int, replace: bool): Items {
    if replace then map id | id in items && items[id].job != job :: items[id] else items
  }

  function AfterApply(items: Items, n: nat, job: int, t: seq<TemplateItem>, replace: bool): Items
    requires Typed(t)
  {
    if t == [] then items
    else
      var kept := KeptItems(items, job, replace);
      AfterRows(kept, t, n, job, NextSort(kept, job, n), |t|)
  }

  // ----- Templates that come from sound programmes -----

  /** Fit to be applied, and no header in it has a parent. */
  ghost predicate GoodTemplate(t: seq<TemplateItem>) {
    && Verdict(t).Ok?
    && forall i :: 0 <= i < |t| && t[i].localParentId.Some? ==> ParseItemType(t[i].itemType) != Some(Header)
  }

  lemma GoodIsTyped(t: seq<TemplateItem>)
    requires Verdict(t).Ok?
    ensures Typed(t) && forall i :: 0 <= i < |t| ==> !IsBlank(t[i].title)
  {
    VerdictFromSpec(t, 0);
    forall i: nat | i < |t| ensures ParseItemType(t[i].itemType).Some? && !IsBlank(t[i].title) {
      assert ItemFault(t, i).None?;
    }
  }

  lemma CapturedIsGood(items: Items, n: nat, job: int)
    requires Sound(items, n) && n <= I32_MAX
    ensures var rows := ProgrammeOf(items, n, job);
      DistinctIds(rows) && (Verdict(CaptureOf(rows)).Ok? ==> GoodTemplate(CaptureOf(rows)))
  {
    var rows := ProgrammeOf(items, n, job);
    ProgrammeSpec(items, n, job);
    TreeOrderIsPermutation(rows);
    var t, o := CaptureOf(rows), TreeOrder(rows);
    forall i: nat | i < |t| && t[i].localParentId.Some? ensures ParseItemType(t[i].itemType) != Some(Header) {
      CaptureSpec(rows, i);
      assert o[i] in rows;
      assert LinkOk(items, o[i].id);
    }
  }

  // ----- Applying keeps programmes sound -----

  lemma {:induction false} DbIdInRange(t: seq<TemplateItem>, ids: seq<int>, n: nat, local: int)
    requires |ids| == |t| && forall j :: 0 <= j < |t| ==> ids[j] == n + j
    ensures DbId(t, ids, local).Some? ==> n <= DbId(t, ids, local).value < n + |t|
  {
    if t != [] {
      var m := |t| - 1;
      DbIdInRange(t[..m], ids[..m], n, local);
    }
  }

  lemma ParentIsEarlier(t: seq<TemplateItem>, n: nat, job: int, base: int, k: nat)
    requires k < |t| && Typed(t) && GoodTemplate(t)
    ensures var item := AppliedItem(t, n, job, base, k);
      item.parentId.Some? ==> item.itemType != Header && n <= item.parentId.value < n + k
  {
    if t[k].localParentId.Some? {
      DbIdInRange(t[..k], NewIds(n, |t|)[..k], n, t[k].localParentId.value);
    }
  }

  lemma {:induction false} EndsWithout(items: Items, job: int, id: int, n: nat)
    requires (forall k :: k in items ==> LinkOk(items, k)) && id in items && items[id].job != job && Ends(items, id, n)
    ensures Ends(KeptItems(items, job, true), id, n)
    decreases n
  {
    if items[id].parentId.Some? {
      assert LinkOk(items, id);
      EndsWithout(items, job, items[id].parentId.value, n - 1);
    }
  }

  lemma KeptIsSound(items: Items, n: nat, job: int, replace: bool)
    requires Sound(items, n) && Titled(items)
    ensures Sound(KeptItems(items, job, replace), n) && Titled(KeptItems(items, job, replace))
  {
    var kept := KeptItems(items, job, replace);
    if replace {
      forall id | id in kept ensures LinkOk(kept, id) && exists m: nat :: Ends(kept, id, m) {
        assert LinkOk(items, id);
        var m: nat :| Ends(items, id, m);
        EndsWithout(items, job, id, m);
      }
    }
  }

  /** The rows applied so far are there, on the job, and everything stays sound. */
  ghost predicate AppliedSoFar(now: Items, n: nat, job: int, k: nat) {
    && Sound(now, n + k) && Titled(now)
    && forall id :: n <= id < n + k ==> id in now && now[id].job == job
  }

  lemma OneMoreRow(now: Items, t: seq<TemplateItem>, n: nat, job: int, base: int, k: nat)
    requires GoodTemplate(t) && Typed(t) && k < |t| && n > 0 && AppliedSoFar(now, n, job, k)
    ensures AppliedSoFar(now[n + k := AppliedItem(t, n, job, base, k)], n, job, k + 1)
  {
    ParentIsEarlier(t, n, job, base, k);
    GoodIsTyped(t);
    InsertKeepsSound(now, n + k, AppliedItem(t, n, job, base, k));
  }

  lemma {:induction false} RowsKeepSound(kept: Items, t: seq<TemplateItem>, n: nat, job: int, base: int, k: nat)
    requires GoodTemplate(t) && Typed(t) && k <= |t| && n > 0 && Sound(kept, n) && Titled(kept)
    ensures AppliedSoFar(AfterRows(kept, t, n, job, base, k), n, job, k)
  {
    if k > 0 {
      RowsKeepSound(kept, t, n, job, base, k - 1);
      OneMoreRow(AfterRows(kept, t, n, job, base, k - 1), t, n, job, base, k - 1);
    }
  }

  /** Applying a template captured from a sound programme leaves every programme sound, replaced or appended to. */
  lemma ApplyKeepsSound(items: Items, n: nat, job: int, t: seq<TemplateItem>, replace: bool)
    requires Sound(items, n) && Titled(items) && n > 0 && GoodTemplate(t) && Typed(t)
    ensures Sound(AfterApply(items, n, job, t, replace), n + |t|) && Titled(AfterApply(items, n, job, t, replace))
  {
    var kept := KeptItems(items, job, replace);
    KeptIsSound(items, n, job, replace);
    RowsKeepSound(kept, t, n, job, NextSort(kept, job, n), |t|);
  }

  // ----- Runs -----

  /** The items, the next id, and the stored templates. */
  datatype World = World(items: Items, nextId: nat, templates: seq<seq<TemplateItem>>)

  datatype Action =
    | Edit(edit: Service.Action)
    | Save(visible: set<int>, name: string, job: int)
    | Apply(visible: set<int>, template: nat, job: int, replace: bool)

  const NOTHING := World(map[], 1, [])

  ghost predicate Saves(w: World, a: Action)
    requires a.Save?
  {
    var rows := ProgrammeOf(w.items, w.nextId, a.job);
    !IsBlank(a.name) && a.job in a.visible && DistinctIds(rows) && Verdict(CaptureOf(rows)).Ok?
  }

  predicate Applies(w: World, a: Action)
    requires a.Apply?
  {
    a.job in a.visible && a.template < |w.templates| && Verdict(w.templates[a.template]).Ok?
  }

  ghost function Next(w: World, a: Action): World {
    match a
    case Edit(edit) =>
      var s := Service.Next(State(w.items, w.nextId), edit);
      World(s.items, s.nextId, w.templates)
    case Save(_, _, job) =>
      if Saves(w, a) then w.(templates := w.templates + [CaptureOf(ProgrammeOf(w.items, w.nextId, job))]) else w
    case Apply(_, template, job, replace) =>
      if Applies(w, a) then
        var t := w.templates[template];
        GoodIsTyped(t);
        World(AfterApply(w.items, w.nextId, job, t, replace), w.nextId + |t|, w.templates)
      else w
  }

  ghost function After(w: World, run: seq<Action>): World
    decreases |run|
  {
    if run == [] then w else After(Next(w, run[0]), run[1..])
  }

  ghost predicate Inv(w: World) {
    && Sound(w.items, w.nextId) && Titled(w.items) && w.nextId > 0
    && forall t :: t in w.templates ==> GoodTemplate(t)
  }

  lemma StepKeepsInv(w: World, a: Action)
    requires Inv(w) && Next(w, a).nextId <= I32_MAX
    ensures Inv(Next(w, a)) && w.nextId <= Next(w, a).nextId
  {
    match a
    case Edit(edit) => StepKeepsSound(State(w.items, w.nextId), edit);
    case Save(_, _, job) => CapturedIsGood(w.items, w.nextId, job);
    case Apply(_, template, job, replace) =>
      if Applies(w, a) {
        var t := w.templates[template];
        GoodIsTyped(t);
        ApplyKeepsSound(w.items, w.nextId, job, t, replace);
      }
  }

  lemma StepKeepsIds(w: World, a: Action)
    ensures w.nextId <= Next(w, a).nextId
  {
  }

  lemma {:induction false} RunKeepsIds(w: World, run: seq<Action>)
    ensures w.nextId <= After(w, run).nextId
    decreases |run|
  {
    if run != [] {
      StepKeepsIds(w, run[0]);
      RunKeepsIds(Next(w, run[0]), run[1..]);
    }
  }

  lemma {:induction false} RunsKeepInv(w: World, run: seq<Action>)
    requires Inv(w) && After(w, run).nextId <= I32_MAX
    ensures Inv(After(w, run))
    decreases |run|
  {
    if run != [] {
      RunKeepsIds(Next(w, run[0]), run[1..]);
      StepKeepsInv(w, run[0]);
      RunsKeepInv(Next(w, run[0]), run[1..]);
    }
  }

  /**
   * Saving a template never fails on a parent reference, after any run of creating, creating in
   * bulk, updating, saving templates and applying them, with and without replacing.
   */
  lemma EveryProgrammeStillCaptures(run: seq<Action>, job: int)
    requires After(NOTHING, run).nextId <= I32_MAX
    ensures var w := After(NOTHING, run); var rows := ProgrammeOf(w.items, w.nextId, job);
      && DistinctIds(rows) && !HasCycle(rows)
      && (if |rows| <= 2000 then Verdict(CaptureOf(rows)).Ok?
          else Verdict(CaptureOf(rows)) == Err(TooManyItems))
  {
    RunsKeepInv(NOTHING, run);
    var w := After(NOTHING, run);
    SoundProgrammesCapture(w.items, w.nextId, job);
  }
}
