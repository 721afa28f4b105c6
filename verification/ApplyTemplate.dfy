/** Writing a template onto a job that may already hold a programme. */
module ApplyTemplate {
  import opened Base
  import opened Forest
  import opened Templates
  import opened RoundTrip

  /** One past the largest sort order in use, or 0 on an empty job. */
  function NextSortOrder(rows: seq<ProgrammeRow>): (n: int)
    ensures forall r :: r in rows ==> r.sortOrder < n
    ensures if rows == [] then n == 0 else exists r :: r in rows && r.sortOrder == n - 1
  {
    if rows == [] then 0
    else
      var front, last := rows[..|rows| - 1], rows[|rows| - 1];
      assert rows == front + [last];
      if |rows| == 1 then last.sortOrder + 1
      else
        var m := NextSortOrder(front);
        if last.sortOrder >= m then last.sortOrder + 1 else m
  }

  /** Row `i` as it is inserted: only ids handed out before it can be its parent. */
  function AppliedRow(items: seq<TemplateItem>, ids: seq<int>, base: int, i: nat): ProgrammeRow
    requires |ids| == |items| && i < |items|
  {
    var item := items[i];
    ProgrammeRow(ids[i],
      if item.localParentId.None? then None else DbId(items[..i], ids[..i], item.localParentId.value),
      item.title, item.itemType, item.supplierTrade, base + item.sortOrder)
  }

  function Applied(items: seq<TemplateItem>, ids: seq<int>, base: int): (s: seq<ProgrammeRow>)
    requires |ids| == |items|
    ensures |s| == |items|
  {
    seq(|items|, (i: int) requires 0 <= i < |items| => AppliedRow(items, ids, base, i))
  }

  function Kept(existing: seq<ProgrammeRow>, replace: bool): seq<ProgrammeRow> {
    if replace then [] else existing
  }

  /** The job's rows after the template is applied. */
  function AppliedTo(existing: seq<ProgrammeRow>, items: seq<TemplateItem>, ids: seq<int>, replace: bool)
    : seq<ProgrammeRow>
    requires |ids| == |items|
  {
    if items == [] then existing
    else Kept(existing, replace) + Applied(items, ids, NextSortOrder(Kept(existing, replace)))
  }

  /** Item `j` is the last before `k` that goes by the local id `p`. */
  predicate LastNamed(items: seq<TemplateItem>, p: int, k: nat, j: nat) {
    j < k <= |items| && items[j].localId == p && forall i :: j < i < k ==> items[i].localId != p
  }

  /** Item `k`'s parent link is the new id of the item it names, if that came before it. */
  ghost predicate ParentWritten(parentId: Option<int>, items: seq<TemplateItem>, ids: seq<int>, k: nat)
    requires |ids| == |items| && k < |items|
  {
    match items[k].localParentId
    case None => parentId == None
    case Some(p) =>
      match parentId
      case None => forall j :: 0 <= j < k ==> items[j].localId != p
      case Some(id) => exists j: nat :: LastNamed(items, p, k, j) && ids[j] == id
  }

  /** What is written for item `k`: a new id, its own labels, a place after `base`, and its parent. */
  ghost predicate RowWritten(row: ProgrammeRow, items: seq<TemplateItem>, ids: seq<int>, base: int, k: nat)
    requires |ids| == |items| && k < |items|
  {
    var item := items[k];
    && row.id == ids[k] && row.sortOrder == base + item.sortOrder
    && row.title == item.title && row.itemType == item.itemType && row.supplierTrade == item.supplierTrade
    && ParentWritten(row.parentId, items, ids, k)
  }

  ghost predicate RowsWritten(rows: seq<ProgrammeRow>, items: seq<TemplateItem>, ids: seq<int>, base: int)
    requires |ids| == |items|
  {
    |rows| == |items| && forall k: nat :: k < |items| ==> RowWritten(rows[k], items, ids, base, k)
  }

  lemma {:induction false} DbIdIsLastNamed(items: seq<TemplateItem>, ids: seq<int>, k: nat, p: int)
    requires |ids| == |items| && k <= |items|
    ensures match DbId(items[..k], ids[..k], p)
      case None => forall j :: 0 <= j < k ==> items[j].localId != p
      case Some(id) => exists j: nat :: LastNamed(items, p, k, j) && ids[j] == id
  {
    if k > 0 {
      assert items[..k][..k - 1] == items[..k - 1] && ids[..k][..k - 1] == ids[..k - 1];
      if items[k - 1].localId == p {
        assert LastNamed(items, p, k, k - 1);
      } else {
        DbIdIsLastNamed(items, ids, k - 1, p);
        if j: nat :| LastNamed(items, p, k - 1, j) && DbId(items[..k - 1], ids[..k - 1], p) == Some(ids[j]) {
          assert LastNamed(items, p, k, j);
        }
      }
    }
  }

  lemma AppliedRowsAreWritten(items: seq<TemplateItem>, ids: seq<int>, base: int)
    requires |ids| == |items|
    ensures RowsWritten(Applied(items, ids, base), items, ids, base)
  {
    forall k: nat | k < |items| ensures RowWritten(Applied(items, ids, base)[k], items, ids, base, k) {
      assert Applied(items, ids, base)[k] == AppliedRow(items, ids, base, k);
      if items[k].localParentId.Some? { DbIdIsLastNamed(items, ids, k, items[k].localParentId.value); }
    }
  }

  /** Appending keeps what was there, replacing keeps none of it, and every item's row comes behind. */
  ghost predicate Written(rows: seq<ProgrammeRow>, existing: seq<ProgrammeRow>, items: seq<TemplateItem>,
      ids: seq<int>, replace: bool)
    requires |ids| == |items|
  {
    if items == [] then rows == existing
    else if replace then
      |rows| == |items| && RowsWritten(rows, items, ids, 0) && forall r :: r in rows ==> r.id in ids
    else
      && |rows| == |existing| + |items| && existing <= rows
      && RowsWritten(rows[|existing|..], items, ids, NextSortOrder(existing))
  }

  lemma AppliedIsWritten(existing: seq<ProgrammeRow>, items: seq<TemplateItem>, ids: seq<int>, replace: bool)
    requires |ids| == |items|
    ensures Written(AppliedTo(existing, items, ids, replace), existing, items, ids, replace)
  {
    var base := if replace then 0 else NextSortOrder(existing);
    var added := Applied(items, ids, base);
    AppliedRowsAreWritten(items, ids, base);
    if replace {
      assert [] + added == added;
      forall r | r in added ensures r.id in ids {
        var k: nat :| k < |added| && added[k] == r;
        assert RowWritten(added[k], items, ids, base, k);
      }
    } else {
      assert (existing + added)[|existing|..] == added;
    }
  }

  /**
   * The job's rows after the template is applied; `ids` are the ids the database hands out.
   * A template with no items leaves the job alone, even when asked to replace.
   */
  method Apply(existing: seq<ProgrammeRow>, items: seq<TemplateItem>, ids: seq<int>, replace: bool)
    returns (rows: seq<ProgrammeRow>, written: nat)
    requires |ids| == |items|
    ensures written == |items|
    ensures rows == AppliedTo(existing, items, ids, replace)
    ensures Written(rows, existing, items, ids, replace)
  {
    if items == [] {
      return existing, 0;
    }
    rows := Kept(existing, replace);
    ghost var kept := rows;
    var base := NextSortOrder(rows);
    var localToDb: map<int, int> := map[];
    for i := 0 to |items|
      invariant AppliedSoFar(kept, items, ids, base, i, localToDb, rows)
    {
      var item := items[i];
      var parent := None;
      if item.localParentId.Some? && item.localParentId.value in localToDb {
        parent := Some(localToDb[item.localParentId.value]);
      }
      OneMoreApplied(kept, items, ids, base, i, localToDb, rows, parent);
      rows := rows + [ProgrammeRow(ids[i], parent, item.title, item.itemType, item.supplierTrade,
        base + item.sortOrder)];
      localToDb := localToDb[item.localId := ids[i]];
    }
    assert Applied(items, ids, base)[..|items|] == Applied(items, ids, base);
    written := |items|;
    AppliedIsWritten(existing, items, ids, replace);
  }

  /** The first `i` items are written, and the map knows the id each local id got last. */
  ghost predicate AppliedSoFar(kept: seq<ProgrammeRow>, items: seq<TemplateItem>, ids: seq<int>, base: int, i: nat,
      localToDb: map<int, int>, rows: seq<ProgrammeRow>)
    requires |ids| == |items|
  {
    && i <= |items|
    && (forall p :: DbId(items[..i], ids[..i], p) == if p in localToDb then Some(localToDb[p]) else None)
    && rows == kept + Applied(items, ids, base)[..i]
  }

  lemma OneMoreApplied(kept: seq<ProgrammeRow>, items: seq<TemplateItem>, ids: seq<int>, base: int, i: nat,
      localToDb: map<int, int>, rows: seq<ProgrammeRow>, parent: Option<int>)
    requires |ids| == |items| && i < |items| && AppliedSoFar(kept, items, ids, base, i, localToDb, rows)
    requires var p := items[i].localParentId;
      parent == if p.Some? && p.value in localToDb then Some(localToDb[p.value]) else None
    ensures var item := items[i];
      AppliedSoFar(kept, items, ids, base, i + 1, localToDb[item.localId := ids[i]],
        rows + [ProgrammeRow(ids[i], parent, item.title, item.itemType, item.supplierTrade, base + item.sortOrder)])
  {
    assert items[..i + 1][..i] == items[..i] && ids[..i + 1][..i] == ids[..i];
    assert Applied(items, ids, base)[..i + 1] == Applied(items, ids, base)[..i] + [AppliedRow(items, ids, base, i)];
  }

  // ----- A validated template loses no parent link -----

  lemma {:induction false} EarlierIdFound(items: seq<TemplateItem>, ids: seq<int>, i: nat, p: int)
    requires |ids| == |items| && i <= |items|
    requires forall k :: i <= k < |items| ==> items[k].localId != p
    ensures DbId(items, ids, p) == DbId(items[..i], ids[..i], p)
    decreases |items|
  {
    if i < |items| {
      var n := |items| - 1;
      assert items[..n][..i] == items[..i] && ids[..n][..i] == ids[..i];
      EarlierIdFound(items[..n], ids[..n], i, p);
    } else {
      assert items[..i] == items && ids[..i] == ids;
    }
  }

  /** Validation is what makes the single pass enough: every parent already has its id. */
  lemma ValidTemplateAppliesWhole(items: seq<TemplateItem>, ids: seq<int>, base: int)
    requires |ids| == |items| && Verdict(items).Ok?
    ensures Applied(items, ids, base) == Replay(items, ids, base)
  {
    VerdictFromSpec(items, 0);
    forall i: nat | i < |items| ensures Applied(items, ids, base)[i] == Replay(items, ids, base)[i] {
      assert ItemFault(items, i).None?;
      if items[i].localParentId.Some? {
        var p := items[i].localParentId.value;
        forall k: nat | i <= k < |items| ensures items[k].localId != p {
          assert ItemFault(items, k).None?;
          assert items[..i] <= items[..k];
        }
        EarlierIdFound(items, ids, i, items[i].localParentId.value);
      }
    }
  }

  // ----- Two programmes side by side -----

  /** `b` comes after `a`: no shared ids, no links across, larger sort orders throughout. */
  ghost predicate Follows(a: seq<ProgrammeRow>, b: seq<ProgrammeRow>) {
    && DistinctIds(a + b) && DistinctIds(a) && DistinctIds(b)
    && (forall r :: r in a ==> EffectiveParent(Ids(b), r) == None)
    && (forall r :: r in b ==> EffectiveParent(Ids(a), r) == None)
    && (forall x, y :: x in a && y in b ==> x.sortOrder < y.sortOrder)
  }

  lemma FollowsParts(a: seq<ProgrammeRow>, b: seq<ProgrammeRow>)
    requires Follows(a, b)
    ensures Ids(a + b) == Ids(a) + Ids(b) && Ids(a) !! Ids(b)
  {
    var s := a + b;
    forall x, y | x in a && y in b ensures x.id != y.id {
      var i :| 0 <= i < |a| && a[i] == x;
      var j :| 0 <= j < |b| && b[j] == y;
      assert s[i].id != s[|a| + j].id;
    }
  }

  lemma SortedAppend(x: seq<ProgrammeRow>, y: seq<ProgrammeRow>)
    requires StrictlySorted(x) && StrictlySorted(y)
    requires forall p, q :: p in x && q in y ==> KeyLess(p, q)
    ensures StrictlySorted(x + y)
  {
    var s := x + y;
    forall i, j | 0 <= i < j < |s| ensures KeyLess(s[i], s[j]) {
      if i < |x| <= j { assert s[i] in x && s[j] in y; }
    }
  }

  lemma RootsSideBySide(a: seq<ProgrammeRow>, b: seq<ProgrammeRow>)
    requires Follows(a, b)
    ensures Children(a + b, None) == Children(a, None) + Children(b, None)
  {
    FollowsParts(a, b);
    ChildrenSpec(a, None);
    ChildrenSpec(b, None);
    ChildrenSpec(a + b, None);
    SortedAppend(Children(a, None), Children(b, None));
    SortedListsAgree(Children(a + b, None), Children(a, None) + Children(b, None));
  }

  lemma ChildrenStay(a: seq<ProgrammeRow>, b: seq<ProgrammeRow>, q: ProgrammeRow)
    requires Follows(a, b)
    ensures q in a ==> Children(a + b, Some(q.id)) == Children(a, Some(q.id))
    ensures q in b ==> Children(a + b, Some(q.id)) == Children(b, Some(q.id))
  {
    FollowsParts(a, b);
    var p := Some(q.id);
    ChildrenSpec(a, p);
    ChildrenSpec(b, p);
    ChildrenSpec(a + b, p);
    if q in a {
      assert q.id in Ids(a);
      SortedListsAgree(Children(a + b, p), Children(a, p));
    }
    if q in b {
      assert q.id in Ids(b);
      SortedListsAgree(Children(a + b, p), Children(b, p));
    }
  }

  lemma {:induction false} GrownWithin(part: seq<ProgrammeRow>, all: seq<ProgrammeRow>, f: Forest)
    requires Grown(part, f) && forall x :: x in Flatten(f) ==> x in part
    requires forall q :: q in part ==> Children(all, Some(q.id)) == Children(part, Some(q.id))
    ensures Grown(all, f)
  {
    match f
    case Bare =>
    case Plant(row, kids, rest) =>
      assert row in Flatten(f);
      GrownWithin(part, all, kids);
      GrownWithin(part, all, rest);
  }

  lemma ForestsSideBySide(a: seq<ProgrammeRow>, b: seq<ProgrammeRow>)
    requires Follows(a, b)
    ensures ForestOf(a + b) == Append(ForestOf(a), ForestOf(b))
  {
    RootsSideBySide(a, b);
    PreorderSpec(a);
    PreorderSpec(b);
    forall q | q in a ensures Children(a + b, Some(q.id)) == Children(a, Some(q.id)) { ChildrenStay(a, b, q); }
    forall q | q in b ensures Children(a + b, Some(q.id)) == Children(b, Some(q.id)) { ChildrenStay(a, b, q); }
    GrownWithin(a, a + b, ForestOf(a));
    GrownWithin(b, a + b, ForestOf(b));
    AppendSpec(a + b, ForestOf(a), ForestOf(b));
    GrownUnique(a + b, ForestOf(a + b), Append(ForestOf(a), ForestOf(b)));
  }

  lemma AcyclicOrder(rows: seq<ProgrammeRow>)
    requires DistinctIds(rows) && !HasCycle(rows)
    ensures TreeOrder(rows) == Flatten(ForestOf(rows)) && |TreeOrder(rows)| == |rows|
  {
    AllReachedIffAcyclic(rows);
    TreeOrderIsPermutation(rows);
    assert Leftovers(rows, rows) == [];
  }

  /** Two acyclic programmes side by side are acyclic, and the walk visits one after the other. */
  lemma OrdersSideBySide(a: seq<ProgrammeRow>, b: seq<ProgrammeRow>)
    requires Follows(a, b) && !HasCycle(a) && !HasCycle(b)
    ensures !HasCycle(a + b)
    ensures TreeOrder(a + b) == TreeOrder(a) + TreeOrder(b)
  {
    ForestsSideBySide(a, b);
    AppendSpec(a + b, ForestOf(a), ForestOf(b));
    AcyclicOrder(a);
    AcyclicOrder(b);
    AllReachedIffAcyclic(a + b);
    AcyclicOrder(a + b);
  }

  // ----- Capturing a job that a template was appended to -----

  /** The same item, `n` places further down. */
  function Shifted(item: TemplateItem, n: nat): TemplateItem {
    item.(
      localId := item.localId + n,
      localParentId := if item.localParentId.None? then None else Some(item.localParentId.value + n),
      sortOrder := item.sortOrder + n)
  }

  function ShiftedAll(items: seq<TemplateItem>, n: nat): (s: seq<TemplateItem>)
    ensures |s| == |items|
  {
    seq(|items|, (i: int) requires 0 <= i < |items| => Shifted(items[i], n))
  }

  lemma ParentIndexUnique(o: seq<ProgrammeRow>, i: nat, p: Option<nat>)
    requires DistinctIds(o) && i < |o| && (p.Some? ==> p.value < |o|)
    requires EffectiveParent(Ids(o), o[i]) == IdAt(o, p)
    ensures ParentIndex(o, i) == p
  {
  }

  lemma ParentsStay(a: seq<ProgrammeRow>, b: seq<ProgrammeRow>, r: ProgrammeRow)
    requires Follows(a, b)
    ensures r in a ==> EffectiveParent(Ids(a + b), r) == EffectiveParent(Ids(a), r)
    ensures r in b ==> EffectiveParent(Ids(a + b), r) == EffectiveParent(Ids(b), r)
  {
    FollowsParts(a, b);
  }

  lemma LeftParentStays(a: seq<ProgrammeRow>, b: seq<ProgrammeRow>, i: nat)
    requires Follows(a, b) && i < |a|
    ensures ParentIndex(a + b, i) == ParentIndex(a, i)
  {
    ParentsStay(a, b, a[i]);
    assert (a + b)[i] == a[i];
    var p := ParentIndex(a, i);
    assert IdAt(a + b, p) == IdAt(a, p);
    ParentIndexUnique(a + b, i, p);
  }

  lemma RightParentShifts(a: seq<ProgrammeRow>, b: seq<ProgrammeRow>, i: nat)
    requires Follows(a, b) && i < |b|
    ensures ParentIndex(a + b, |a| + i) ==
      var p := ParentIndex(b, i); if p.None? then None else Some(|a| + p.value)
  {
    ParentsStay(a, b, b[i]);
    assert (a + b)[|a| + i] == b[i];
    var p := ParentIndex(b, i);
    var shifted := if p.None? then None else Some(|a| + p.value);
    assert IdAt(a + b, shifted) == IdAt(b, p);
    ParentIndexUnique(a + b, |a| + i, shifted);
  }

  lemma ItemsSideBySide(a: seq<ProgrammeRow>, b: seq<ProgrammeRow>, i: nat)
    requires Follows(a, b) && i < |a + b|
    ensures ItemAt(a + b, i) == if i < |a| then ItemAt(a, i) else Shifted(ItemAt(b, i - |a|), |a|)
  {
    if i < |a| { LeftParentStays(a, b, i); } else { RightParentShifts(a, b, i - |a|); }
  }

  ghost predicate ItemsOf(o: seq<ProgrammeRow>, items: seq<TemplateItem>) {
    |items| == |o| && forall i: nat :: i < |o| ==> items[i] == ItemAt(o, i)
  }

  lemma AllItemsSideBySide(a: seq<ProgrammeRow>, b: seq<ProgrammeRow>,
      both: seq<TemplateItem>, left: seq<TemplateItem>, right: seq<TemplateItem>)
    requires Follows(a, b) && ItemsOf(a + b, both) && ItemsOf(a, left) && ItemsOf(b, right)
    ensures both == left + ShiftedAll(right, |a|)
  {
    forall i: nat | i < |both| ensures both[i] == (left + ShiftedAll(right, |a|))[i] {
      ItemsSideBySide(a, b, i);
    }
  }

  lemma RenumberGivesItems(o: seq<ProgrammeRow>)
    requires DistinctIds(o) && |o| <= I32_MAX
    ensures ItemsOf(o, Renumber(o))
  {
    forall i: nat | i < |o| ensures Renumber(o)[i] == ItemAt(o, i) { RenumberedItem(o, i); }
  }

  lemma RenumberSideBySide(a: seq<ProgrammeRow>, b: seq<ProgrammeRow>)
    requires Follows(a, b) && |a + b| <= I32_MAX
    ensures Renumber(a + b) == Renumber(a) + ShiftedAll(Renumber(b), |a|)
  {
    RenumberGivesItems(a + b);
    RenumberGivesItems(a);
    RenumberGivesItems(b);
    AllItemsSideBySide(a, b, Renumber(a + b), Renumber(a), Renumber(b));
  }

  lemma {:induction false} FollowsInTreeOrder(a: seq<ProgrammeRow>, b: seq<ProgrammeRow>)
    requires Follows(a, b)
    ensures Follows(TreeOrder(a), TreeOrder(b))
  {
    FollowsParts(a, b);
    TreeOrderIsPermutation(a);
    TreeOrderIsPermutation(b);
    assert Ids(TreeOrder(a)) == Ids(a) && Ids(TreeOrder(b)) == Ids(b);
    forall x, y | x in TreeOrder(a) && y in TreeOrder(b) ensures x.id != y.id {
      assert x.id in Ids(a) && y.id in Ids(b);
    }
    ConcatDistinct(TreeOrder(a), TreeOrder(b));
  }

  /** What a template's rows need of the job they are appended to: new ids nothing there mentions. */
  ghost predicate FreshFor(existing: seq<ProgrammeRow>, ids: seq<int>) {
    && NoRepeats(ids)
    && (forall r :: r in existing ==> r.id !in ids && (r.parentId.Some? ==> r.parentId.value !in ids))
  }

  /**
   * Writing a captured template out behind an acyclic programme and capturing the result gives the
   * old programme's items followed by the template's, renumbered to continue the count.
   */
  lemma AppendThenCapture(existing: seq<ProgrammeRow>, source: seq<ProgrammeRow>, ids: seq<int>)
    requires DistinctIds(existing) && DistinctIds(source) && !HasCycle(existing) && !HasCycle(source)
    requires |existing| + |source| <= I32_MAX && |ids| == |source| && FreshFor(existing, ids)
    ensures |CaptureOf(source)| == |source|
    ensures var rows := existing + Replay(CaptureOf(source), ids, NextSortOrder(existing));
      && DistinctIds(rows) && !HasCycle(rows)
      && CaptureOf(rows) == CaptureOf(existing) + ShiftedAll(CaptureOf(source), |existing|)
  {
    var base := NextSortOrder(existing);
    CaptureRoundTrip(source, ids, base);
    var added := Replay(CaptureOf(source), ids, base);
    ReplayFollows(existing, source, ids);
    ReplayIsAcyclic(source, ids, base);
    OrdersSideBySide(existing, added);
    FollowsInTreeOrder(existing, added);
    TreeOrderIsPermutation(existing);
    TreeOrderIsPermutation(added);
    RenumberSideBySide(TreeOrder(existing), TreeOrder(added));
  }

  /** The same of applying it, which needs the template to be fit to be applied. */
  lemma ApplyThenCapture(existing: seq<ProgrammeRow>, source: seq<ProgrammeRow>, ids: seq<int>)
    requires DistinctIds(existing) && DistinctIds(source) && !HasCycle(existing)
    requires |existing| + |source| <= I32_MAX && |ids| == |source| && FreshFor(existing, ids)
    requires Verdict(CaptureOf(source)).Ok?
    ensures |CaptureOf(source)| == |source|
    ensures var rows := AppliedTo(existing, CaptureOf(source), ids, false);
      && DistinctIds(rows) && !HasCycle(rows)
      && CaptureOf(rows) == CaptureOf(existing) + ShiftedAll(CaptureOf(source), |existing|)
  {
    ValidationDecidesAcyclicity(source);
    AppendThenCapture(existing, source, ids);
    ValidTemplateAppliesWhole(CaptureOf(source), ids, NextSortOrder(existing));
    if source == [] {
      assert existing + Replay(CaptureOf(source), ids, NextSortOrder(existing)) == existing;
    }
  }

  /** On a job that is cleared first, the captured programme is the one that was saved. */
  lemma ReplaceThenCapture(existing: seq<ProgrammeRow>, source: seq<ProgrammeRow>, ids: seq<int>)
    requires DistinctIds(source) && source != [] && |source| <= I32_MAX && |ids| == |source| && NoRepeats(ids)
    requires Verdict(CaptureOf(source)).Ok?
    ensures |CaptureOf(source)| == |source|
    ensures var rows := AppliedTo(existing, CaptureOf(source), ids, true);
      DistinctIds(rows) && !HasCycle(rows) && CaptureOf(rows) == CaptureOf(source)
  {
    ValidationDecidesAcyclicity(source);
    ReplayIsAcyclic(source, ids, 0);
    CaptureRoundTrip(source, ids, 0);
    ValidTemplateAppliesWhole(CaptureOf(source), ids, 0);
    assert [] + Replay(CaptureOf(source), ids, 0) == Replay(CaptureOf(source), ids, 0);
  }

  lemma ReplayIsAcyclic(source: seq<ProgrammeRow>, ids: seq<int>, base: int)
    requires DistinctIds(source) && !HasCycle(source)
    requires |source| <= I32_MAX && |ids| == |source| && NoRepeats(ids)
    ensures |CaptureOf(source)| == |source|
    ensures var s := Replay(CaptureOf(source), ids, base); DistinctIds(s) && !HasCycle(s)
  {
    TreeOrderIsPermutation(source);
    var o := TreeOrder(source);
    var s := Replay(CaptureOf(source), ids, base);
    ReplayMirrors(o, ids, base);
    AcyclicOrder(source);
    ArrivalOrderIrrelevant(source, o);
    assert o[..|o|] == o;
    MirrorGrowsSameForest(o, s, |o|);
    AllReachedIffAcyclic(s);
  }

  lemma ReplayFollows(existing: seq<ProgrammeRow>, source: seq<ProgrammeRow>, ids: seq<int>)
    requires DistinctIds(existing) && DistinctIds(source)
    requires |source| <= I32_MAX && |ids| == |source| && FreshFor(existing, ids)
    ensures |CaptureOf(source)| == |source|
    ensures Follows(existing, Replay(CaptureOf(source), ids, NextSortOrder(existing)))
  {
    var base, items := NextSortOrder(existing), CaptureOf(source);
    CaptureRoundTrip(source, ids, base);
    ReplayedRowsAreNew(source, ids, base);
    ConcatDistinct(existing, Replay(items, ids, base));
  }

  /** A replayed row has a new id, a new parent id if any, and comes after everything already there. */
  lemma ReplayedRowsAreNew(source: seq<ProgrammeRow>, ids: seq<int>, base: int)
    requires DistinctIds(source) && |source| <= I32_MAX && |ids| == |source|
    ensures |CaptureOf(source)| == |source|
    ensures forall y :: y in Replay(CaptureOf(source), ids, base) ==>
      y.id in ids && y.sortOrder >= base && (y.parentId.Some? ==> y.parentId.value in ids)
  {
    TreeOrderIsPermutation(source);
    var items := CaptureOf(source);
    var added := Replay(items, ids, base);
    DbIdComesFromIds(items, ids);
    forall i: nat | i < |added| ensures added[i].sortOrder >= base {
      RenumberedItem(TreeOrder(source), i);
    }
  }

  lemma {:induction false} DbIdComesFromIds(items: seq<TemplateItem>, ids: seq<int>)
    requires |ids| == |items|
    ensures forall p :: DbId(items, ids, p).Some? ==> DbId(items, ids, p).value in ids
  {
    if items != [] {
      var n := |items| - 1;
      assert ids == ids[..n] + [ids[n]];
      DbIdComesFromIds(items[..n], ids[..n]);
    }
  }
}
