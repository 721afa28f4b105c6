/** Templates: capturing a programme under new numbers, and checking that it can be applied. */
module Templates {
  import opened Base
  import opened Text
  import opened Forest
  import TreeWalk
  import opened CallForwardItem

  datatype TemplateItem = TemplateItem(
    localId: int,
    localParentId: Option<int>,
    title: string,
    itemType: string,
    supplierTrade: Option<string>,
    sortOrder: int)

  const MAX_TEMPLATE_ITEMS := 2000

  const I32_MAX := 0x7FFF_FFFF

  // ----- Validation -----

  datatype Fault = TooManyItems | BlankTitle | UnknownType | RepeatedLocalId | OwnParent | ParentNotEarlier

  function LocalIds(items: seq<TemplateItem>): set<int> {
    set item | item in items :: item.localId
  }

  /** What is wrong with item `i`, given the items before it. */
  function ItemFault(items: seq<TemplateItem>, i: nat): Option<Fault>
    requires i < |items|
  {
    var item := items[i];
    var seen := LocalIds(items[..i]);
    if IsBlank(item.title) then Some(BlankTitle)
    else if ParseItemType(item.itemType).None? then Some(UnknownType)
    else if item.localId in seen then Some(RepeatedLocalId)
    else if item.localParentId == Some(item.localId) then Some(OwnParent)
    else if item.localParentId.Some? && item.localParentId.value !in seen then Some(ParentNotEarlier)
    else None
  }

  /** The size limit, then the first faulty item. */
  function Verdict(items: seq<TemplateItem>): Result<(), Fault> {
    if |items| > MAX_TEMPLATE_ITEMS then Err(TooManyItems) else VerdictFrom(items, 0)
  }

  function VerdictFrom(items: seq<TemplateItem>, i: nat): Result<(), Fault>
    requires i <= |items|
    decreases |items| - i
  {
    if i == |items| then Ok(())
    else match ItemFault(items, i)
      case Some(fault) => Err(fault)
      case None => VerdictFrom(items, i + 1)
  }

  method ValidateItems(items: seq<TemplateItem>) returns (r: Result<(), Fault>)
    ensures r == Verdict(items)
  {
    if |items| > MAX_TEMPLATE_ITEMS {
      return Err(TooManyItems);
    }
    var seen: seq<int> := [];
    for i := 0 to |items|
      invariant forall x :: x in seen <==> x in LocalIds(items[..i])
      invariant Verdict(items) == VerdictFrom(items, i)
    {
      var item := items[i];
      if IsBlank(item.title) {
        return Err(BlankTitle);
      }
      if ParseItemType(item.itemType).None? {
        return Err(UnknownType);
      }
      if item.localId in seen {
        return Err(RepeatedLocalId);
      }
      if item.localParentId.Some? {
        var parent := item.localParentId.value;
        if parent == item.localId {
          return Err(OwnParent);
        }
        if parent !in seen {
          return Err(ParentNotEarlier);
        }
      }
      seen := seen + [item.localId];
      assert items[..i + 1] == items[..i] + [item];
    }
    return Ok(());
  }

  lemma {:induction false} VerdictFromSpec(items: seq<TemplateItem>, i: nat)
    requires i <= |items|
    ensures VerdictFrom(items, i).Ok? <==> forall j :: i <= j < |items| ==> ItemFault(items, j).None?
    decreases |items| - i
  {
    if i < |items| {
      VerdictFromSpec(items, i + 1);
    }
  }

  lemma {:induction false} FirstFaultIsReported(items: seq<TemplateItem>, i: nat, k: nat)
    requires i <= k < |items| && ItemFault(items, k).Some?
    requires forall j :: i <= j < k ==> ItemFault(items, j).None?
    ensures VerdictFrom(items, i) == Err(ItemFault(items, k).value)
    decreases k - i
  {
    if i < k {
      FirstFaultIsReported(items, i + 1, k);
    }
  }

  /** A title, a known type, a local id of its own, and a parent, if any, that came before. */
  ghost predicate Fits(items: seq<TemplateItem>, i: nat)
    requires i < |items|
  {
    var item := items[i];
    && !IsBlank(item.title) && item.itemType in {"HEADER", "STAGE_CLAIM", "TASK"}
    && (forall j :: 0 <= j < i ==> items[j].localId != item.localId)
    && (item.localParentId.Some? ==> exists j :: 0 <= j < i && items[j].localId == item.localParentId.value)
  }

  lemma FitsIff(items: seq<TemplateItem>, i: nat)
    requires i < |items|
    ensures ItemFault(items, i).None? <==> Fits(items, i)
  {
    var item, before := items[i], items[..i];
    TypeNames(item.itemType);
    assert forall j :: 0 <= j < i ==> before[j] == items[j] && before[j] in before;
  }

  /** Exactly which templates are accepted. */
  lemma AcceptedIff(items: seq<TemplateItem>)
    ensures Verdict(items).Ok? <==> |items| <= 2000 && forall i: nat :: i < |items| ==> Fits(items, i)
  {
    VerdictFromSpec(items, 0);
    forall i: nat | i < |items| ensures ItemFault(items, i).None? <==> Fits(items, i) {
      FitsIff(items, i);
    }
  }

  // ----- Capture -----

  /** Positions beyond the 32-bit range saturate. */
  function Position(idx: nat): int {
    if idx <= I32_MAX then idx else I32_MAX
  }

  /** Each id's 1-based position. */
  function Positions(ordered: seq<ProgrammeRow>): map<int, int> {
    if ordered == [] then map[]
    else
      var n := |ordered| - 1;
      Positions(ordered[..n])[ordered[n].id := Position(n) + 1]
  }

  function Renumber(ordered: seq<ProgrammeRow>): (items: seq<TemplateItem>)
    ensures |items| == |ordered|
  {
    var positions := Positions(ordered);
    seq(|ordered|, (i: int) requires 0 <= i < |ordered| =>
      var r := ordered[i];
      TemplateItem(
        Position(i) + 1,
        if r.parentId.Some? && r.parentId.value in positions then Some(positions[r.parentId.value]) else None,
        r.title, r.itemType, r.supplierTrade, Position(i)))
  }

  ghost function CaptureOf(rows: seq<ProgrammeRow>): seq<TemplateItem>
    requires DistinctIds(rows)
  {
    Renumber(TreeOrder(rows))
  }

  /** More rows than an `i32` counts would overflow the position. */
  method Capture(rows: seq<ProgrammeRow>) returns (items: seq<TemplateItem>)
    requires DistinctIds(rows) && |rows| <= I32_MAX
    ensures items == CaptureOf(rows)
  {
    var ordered := TreeWalk.InTreeOrder(rows);
    items := Renumber(ordered);
  }

  lemma {:induction false} PositionsSpec(ordered: seq<ProgrammeRow>)
    requires DistinctIds(ordered) && |ordered| <= I32_MAX
    ensures Positions(ordered).Keys == Ids(ordered)
    ensures forall i :: 0 <= i < |ordered| ==> Positions(ordered)[ordered[i].id] == i + 1
  {
    if ordered == [] {
    } else {
      var n := |ordered| - 1;
      var front := ordered[..n];
      assert ordered == front + [ordered[n]];
      PositionsSpec(front);
      forall i | 0 <= i < n ensures Positions(ordered)[ordered[i].id] == i + 1 {
        assert front[i] == ordered[i] && ordered[i].id != ordered[n].id;
      }
    }
  }

  lemma RenumberSpec(o: seq<ProgrammeRow>, i: nat)
    requires DistinctIds(o) && |o| <= I32_MAX && i < |o|
    ensures var item := Renumber(o)[i];
      && item.localId == i + 1 && item.sortOrder == i
      && item.title == o[i].title && item.itemType == o[i].itemType
      && item.supplierTrade == o[i].supplierTrade
      && (EffectiveParent(Ids(o), o[i]) == None ==> item.localParentId == None)
      && (forall j :: 0 <= j < |o| && EffectiveParent(Ids(o), o[i]) == Some(o[j].id) ==>
        item.localParentId == Some(j + 1))
  {
    PositionsSpec(o);
  }

  /** Item `i` describes the `i`-th row of the tree order; its parent is renamed to that row's position. */
  lemma CaptureSpec(rows: seq<ProgrammeRow>, i: nat)
    requires DistinctIds(rows) && |rows| <= I32_MAX && i < |rows|
    ensures |CaptureOf(rows)| == |TreeOrder(rows)| == |rows|
    ensures var o, item := TreeOrder(rows), CaptureOf(rows)[i];
      && item.localId == i + 1 && item.sortOrder == i
      && item.title == o[i].title && item.itemType == o[i].itemType
      && item.supplierTrade == o[i].supplierTrade
      && (ParentRow(rows, o[i]) == None ==> item.localParentId == None)
      && (forall j :: 0 <= j < |o| && ParentRow(rows, o[i]) == Some(o[j]) ==>
        item.localParentId == Some(j + 1))
  {
    TreeOrderIsPermutation(rows);
    var o := TreeOrder(rows);
    assert Ids(o) == Ids(rows);
    RenumberSpec(o, i);
  }

  lemma LocalIdsSoFar(rows: seq<ProgrammeRow>, i: nat)
    requires DistinctIds(rows) && |rows| <= I32_MAX && i < |rows|
    ensures |CaptureOf(rows)| == |rows|
    ensures forall n :: n in LocalIds(CaptureOf(rows)[..i]) <==> 1 <= n <= i
    ensures CaptureOf(rows)[i].localId == i + 1
  {
    CaptureSpec(rows, i);
    var before := CaptureOf(rows)[..i];
    forall j: nat | j < i ensures before[j].localId == j + 1 {
      CaptureSpec(rows, j);
    }
    forall n | 1 <= n <= i ensures n in LocalIds(before) {
      assert before[n - 1].localId == n && before[n - 1] in before;
    }
  }

  // ----- The preorder puts parents first -----

  /** Each row of the preorder is a root of the forest or has its parent somewhere before it. */
  lemma {:induction false} ParentBefore(rows: seq<ProgrammeRow>, f: Forest, i: nat)
    returns (j: nat)
    requires Linked(rows, f) && i < |Flatten(f)|
    ensures j <= i
    ensures Flatten(f)[i] in Roots(f)
      || (j < i && ParentRow(rows, Flatten(f)[i]) == Some(Flatten(f)[j]))
  {
    var inner := |Flatten(f.kids)|;
    if i == 0 {
      j := 0;
    } else if i <= inner {
      var m := ParentBefore(rows, f.kids, i - 1);
      j := if Flatten(f)[i] in Roots(f.kids) then 0 else m + 1;
    } else {
      var m := ParentBefore(rows, f.rest, i - 1 - inner);
      j := m + 1 + inner;
    }
  }

  lemma RootedParentEarlier(rows: seq<ProgrammeRow>, i: nat)
    requires DistinctIds(rows) && |rows| <= I32_MAX
    requires i < |Flatten(ForestOf(rows))| && i < |rows|
    ensures |CaptureOf(rows)| == |rows|
    ensures var p := CaptureOf(rows)[i].localParentId; p.Some? ==> 1 <= p.value <= i
  {
    CaptureSpec(rows, i);
    RootsHaveDepthZero(rows);
    var f := ForestOf(rows);
    GrownIsLinked(rows, f, 0);
    var j := ParentBefore(rows, f, i);
    ChildrenSpec(rows, None);
    var x := TreeOrder(rows)[i];
    assert x == Flatten(f)[i];
    if x !in Roots(f) {
      assert TreeOrder(rows)[j] == Flatten(f)[j];
    }
  }

  /** The first row no root reaches has a parent, and that parent does not come before it. */
  lemma FirstLeftoverRefersForward(rows: seq<ProgrammeRow>)
    requires DistinctIds(rows) && |rows| <= I32_MAX
    requires |Flatten(ForestOf(rows))| < |rows|
    ensures |CaptureOf(rows)| == |rows|
    ensures var k := |Flatten(ForestOf(rows))|;
      var p := CaptureOf(rows)[k].localParentId; p.Some? && p.value > k
  {
    var o, k := TreeOrder(rows), |Flatten(ForestOf(rows))|;
    CaptureSpec(rows, k);
    TreeOrderIsPermutation(rows);
    PreorderSpec(rows);
    LeftoversSpec(rows, rows);
    var left := Leftovers(rows, rows);
    assert o[k] == left[0] && o[k] in left;
    UnrootedHasUnrootedParent(rows, o[k]);
    var q := ParentRow(rows, o[k]).value;
    assert forall j :: 0 <= j < k ==> o[j] == Flatten(ForestOf(rows))[j];
    var j :| 0 <= j < |o| && o[j] == q;
    assert j >= k;
  }

  lemma RootedFromParent(rows: seq<ProgrammeRow>, r: ProgrammeRow)
    ensures ParentRow(rows, r).None? || Rooted(rows, ParentRow(rows, r).value) ==> Rooted(rows, r)
  {
    if ParentRow(rows, r).None? {
      assert DepthIs(rows, r, 0);
    } else if Rooted(rows, ParentRow(rows, r).value) {
      var n: nat :| DepthIs(rows, ParentRow(rows, r).value, n);
      assert DepthIs(rows, r, n + 1);
    }
  }

  lemma UnrootedHasUnrootedParent(rows: seq<ProgrammeRow>, r: ProgrammeRow)
    requires !Rooted(rows, r)
    ensures ParentRow(rows, r).Some? && !Rooted(rows, ParentRow(rows, r).value)
  {
    RootedFromParent(rows, r);
  }

  // ----- Validation decides acyclicity -----

  predicate WellLabelled(r: ProgrammeRow) {
    !IsBlank(r.title) && ParseItemType(r.itemType).Some?
  }

  /** Rows the walk reached never draw a complaint about ids or parents. */
  lemma RootedItemFault(rows: seq<ProgrammeRow>, i: nat)
    requires DistinctIds(rows) && |rows| <= I32_MAX
    requires i < |Flatten(ForestOf(rows))| && i < |rows|
    ensures |CaptureOf(rows)| == |TreeOrder(rows)| == |rows|
    ensures ItemFault(CaptureOf(rows), i).None? <==> WellLabelled(TreeOrder(rows)[i])
  {
    CaptureSpec(rows, i);
    LocalIdsSoFar(rows, i);
    RootedParentEarlier(rows, i);
  }

  /** The first row the walk did not reach always draws one. */
  lemma FirstLeftoverFault(rows: seq<ProgrammeRow>)
    requires DistinctIds(rows) && |rows| <= I32_MAX && |Flatten(ForestOf(rows))| < |rows|
    ensures |CaptureOf(rows)| == |TreeOrder(rows)| == |rows|
    ensures var k := |Flatten(ForestOf(rows))|; var fault := ItemFault(CaptureOf(rows), k);
      fault.Some? && (WellLabelled(TreeOrder(rows)[k]) ==> fault.value in {OwnParent, ParentNotEarlier})
  {
    var k := |Flatten(ForestOf(rows))|;
    CaptureSpec(rows, k);
    LocalIdsSoFar(rows, k);
    FirstLeftoverRefersForward(rows);
  }

  lemma AllReachedIffAcyclic(rows: seq<ProgrammeRow>)
    requires DistinctIds(rows)
    ensures |Flatten(ForestOf(rows))| <= |rows|
    ensures |Flatten(ForestOf(rows))| == |rows| <==> !HasCycle(rows)
  {
    TreeOrderIsPermutation(rows);
    PreorderSpec(rows);
    RootedIffAcyclic(rows);
    LeftoversSpec(rows, rows);
    if |Flatten(ForestOf(rows))| == |rows| {
      assert TreeOrder(rows) == Flatten(ForestOf(rows));
    } else {
      assert Leftovers(rows, rows)[0] in Leftovers(rows, rows);
    }
  }

  /**
   * A captured programme is accepted exactly when it is small enough, every row has a title and a
   * known type, and the parent links hold no cycle.
   */
  lemma ValidationDecidesAcyclicity(rows: seq<ProgrammeRow>)
    requires DistinctIds(rows) && |rows| <= I32_MAX
    ensures Verdict(CaptureOf(rows)).Ok? <==>
      |rows| <= 2000 && (forall r :: r in rows ==> WellLabelled(r)) && !HasCycle(rows)
  {
    TreeOrderIsPermutation(rows);
    AllReachedIffAcyclic(rows);
    VerdictFromSpec(CaptureOf(rows), 0);
    if HasCycle(rows) {
      FirstLeftoverFault(rows);
    } else {
      forall i: nat | i < |rows|
        ensures ItemFault(CaptureOf(rows), i).None? <==> WellLabelled(TreeOrder(rows)[i])
      {
        RootedItemFault(rows, i);
      }
      AllLabelled(rows);
    }
  }

  lemma AllLabelled(rows: seq<ProgrammeRow>)
    requires DistinctIds(rows)
    ensures (forall r :: r in rows ==> WellLabelled(r))
      <==> forall i :: 0 <= i < |TreeOrder(rows)| ==> WellLabelled(TreeOrder(rows)[i])
  {
    TreeOrderIsPermutation(rows);
    var o := TreeOrder(rows);
    assert forall i :: 0 <= i < |o| ==> o[i] in rows;
    forall r | r in rows ensures exists i :: 0 <= i < |o| && o[i] == r { assert r in o; }
  }

  /** On a well-labelled programme of acceptable size, a cycle is what gets reported. */
  lemma CycleIsReported(rows: seq<ProgrammeRow>)
    requires DistinctIds(rows) && |rows| <= MAX_TEMPLATE_ITEMS
    requires (forall r :: r in rows ==> WellLabelled(r)) && HasCycle(rows)
    ensures Verdict(CaptureOf(rows)) in {Err(OwnParent), Err(ParentNotEarlier)}
  {
    AllReachedIffAcyclic(rows);
    AllLabelled(rows);
    FirstLeftoverFault(rows);
    var k := |Flatten(ForestOf(rows))|;
    forall i: nat | i < k ensures ItemFault(CaptureOf(rows), i).None? {
      RootedItemFault(rows, i);
    }
    FirstFaultIsReported(CaptureOf(rows), 0, k);
  }
}
