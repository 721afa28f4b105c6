/**
 * Capturing a programme, writing the template onto a job, and capturing again.
 * A programme laid out in tree order keeps that order, whatever ids its rows were given.
 */
module RoundTrip {
  import opened Base
  import opened Forest
  import opened Templates

  // ----- Every subtree is one contiguous block -----

  ghost predicate IsAncestor(rows: seq<ProgrammeRow>, a: ProgrammeRow, r: ProgrammeRow) {
    exists k: nat :: Up(rows, r, k) == Some(a)
  }

  /** `below` is what hangs under `x`. */
  ghost predicate HangsBelow(rows: seq<ProgrammeRow>, below: Forest, x: ProgrammeRow) {
    && Grown(rows, below) && Linked(rows, below)
    && Roots(below) == Children(rows, Some(x.id))
    && (forall kid :: kid in Roots(below) ==> ParentRow(rows, kid) == Some(x))
  }

  /** What stands before and after the subtree of `x` in a preorder. */
  lemma {:induction false} Locate(rows: seq<ProgrammeRow>, f: Forest, x: ProgrammeRow)
    returns (before: seq<ProgrammeRow>, below: Forest, after: seq<ProgrammeRow>)
    requires Grown(rows, f) && Linked(rows, f) && x in Flatten(f)
    ensures Flatten(f) == before + ([x] + Flatten(below)) + after
    ensures HangsBelow(rows, below, x)
  {
    var kids, rest := Flatten(f.kids), Flatten(f.rest);
    if x == f.row {
      before, below, after := [], f.kids, rest;
    } else if x in kids {
      var b, a;
      b, below, a := Locate(rows, f.kids, x);
      before, after := [f.row] + b, a + rest;
      RegroupInside([f.row], b, [x] + Flatten(below), a, rest);
    } else {
      var b;
      b, below, after := Locate(rows, f.rest, x);
      before := [f.row] + kids + b;
      RegroupStart([f.row] + kids, b, [x] + Flatten(below), after);
    }
  }

  lemma RegroupInside<T>(left: seq<T>, b: seq<T>, block: seq<T>, a: seq<T>, right: seq<T>)
    ensures left + (b + block + a) + right == (left + b) + block + (a + right)
  {
    RegroupStart(left, b, block, a);
    RegroupEnd(left + b, block, a, right);
  }

  lemma RegroupStart<T>(left: seq<T>, b: seq<T>, block: seq<T>, a: seq<T>)
    ensures left + (b + block + a) == (left + b) + block + a
  {
  }

  lemma RegroupEnd<T>(b: seq<T>, block: seq<T>, a: seq<T>, right: seq<T>)
    ensures (b + block + a) + right == b + block + (a + right)
  {
  }

  lemma {:induction false} DescendantOccurs(rows: seq<ProgrammeRow>, below: Forest, x: ProgrammeRow,
      r: ProgrammeRow, k: nat)
    requires DistinctIds(rows) && HangsBelow(rows, below, x)
    requires r in rows && Up(rows, r, k) == Some(x)
    ensures r in [x] + Flatten(below)
    decreases k
  {
    if k > 0 {
      var q := ParentRow(rows, r).value;
      DescendantOccurs(rows, below, x, q, k - 1);
      if q == x {
        ChildrenSpec(rows, Some(x.id));
        RootsOccur(below, r);
      } else {
        FlattenClosed(rows, below, q, r);
      }
    }
  }

  lemma BlockHoldsDescendants(rows: seq<ProgrammeRow>, below: Forest, x: ProgrammeRow, r: ProgrammeRow)
    requires DistinctIds(rows) && HangsBelow(rows, below, x) && r in rows
    ensures r in [x] + Flatten(below) <==> IsAncestor(rows, x, r)
  {
    if r == x {
      assert Up(rows, r, 0) == Some(x);
    } else if r in Flatten(below) {
      var root, k := Trace(rows, below, r);
      UpStep(rows, r, k);
      assert Up(rows, r, k + 1) == Some(x);
    }
    if IsAncestor(rows, x, r) {
      var k: nat :| Up(rows, r, k) == Some(x);
      DescendantOccurs(rows, below, x, r, k);
    }
  }

  lemma InBlock(before: seq<ProgrammeRow>, block: seq<ProgrammeRow>, after: seq<ProgrammeRow>, k: nat)
    requires DistinctIds(before + block + after) && k < |before + block + after|
    ensures (before + block + after)[k] in block <==> |before| <= k < |before| + |block|
  {
    var s := before + block + after;
    if s[k] in block {
      var m :| 0 <= m < |block| && block[m] == s[k];
      assert s[|before| + m] == s[k];
    }
  }

  /** A row and its descendants stand together in the captured order, the row first. */
  lemma SubtreeIsContiguous(rows: seq<ProgrammeRow>, x: ProgrammeRow) returns (i: nat, j: nat)
    requires DistinctIds(rows) && x in rows && Rooted(rows, x)
    ensures i < j <= |TreeOrder(rows)| && TreeOrder(rows)[i] == x
    ensures forall k :: 0 <= k < |TreeOrder(rows)| ==>
      (i <= k < j <==> IsAncestor(rows, x, TreeOrder(rows)[k]))
  {
    PreorderSpec(rows);
    TreeOrderIsPermutation(rows);
    RootsHaveDepthZero(rows);
    GrownIsLinked(rows, ForestOf(rows), 0);
    var before, below, after := Locate(rows, ForestOf(rows), x);
    var beyond := after + Leftovers(rows, rows);
    RegroupEnd(before, [x] + Flatten(below), after, Leftovers(rows, rows));
    i, j := |before|, |before| + 1 + |Flatten(below)|;
    BlockIsDescendants(rows, TreeOrder(rows), before, below, beyond, x);
  }

  lemma BlockIsDescendants(rows: seq<ProgrammeRow>, o: seq<ProgrammeRow>,
      before: seq<ProgrammeRow>, below: Forest, after: seq<ProgrammeRow>, x: ProgrammeRow)
    requires DistinctIds(rows) && HangsBelow(rows, below, x)
    requires o == before + ([x] + Flatten(below)) + after
    requires DistinctIds(o) && forall r :: r in o ==> r in rows
    ensures o[|before|] == x
    ensures forall k :: 0 <= k < |o| ==>
      (|before| <= k < |before| + 1 + |Flatten(below)| <==> IsAncestor(rows, x, o[k]))
  {
    var block := [x] + Flatten(below);
    forall k: nat | k < |o| ensures |before| <= k < |before| + |block| <==> IsAncestor(rows, x, o[k]) {
      InBlock(before, block, after, k);
      BlockHoldsDescendants(rows, below, x, o[k]);
    }
  }

  // ----- A programme laid out in tree order stays in that order -----

  /** The position of row `i`'s parent, if its parent is among the rows. */
  ghost function ParentIndex(o: seq<ProgrammeRow>, i: nat): (p: Option<nat>)
    requires i < |o|
    ensures p.Some? ==> p.value < |o|
    ensures EffectiveParent(Ids(o), o[i]) == IdAt(o, p)
  {
    var parent := EffectiveParent(Ids(o), o[i]);
    if parent.None? then None
    else
      var q :| q in o && q.id == parent.value;
      var j: nat :| j < |o| && o[j] == q;
      Some(j)
  }

  ghost function IdAt(o: seq<ProgrammeRow>, p: Option<nat>): Option<int>
    requires p.Some? ==> p.value < |o|
  {
    if p.None? then None else Some(o[p.value].id)
  }

  lemma ChildrenByIndex(o: seq<ProgrammeRow>, p: Option<nat>, i: nat)
    requires DistinctIds(o) && i < |o| && (p.Some? ==> p.value < |o|)
    ensures o[i] in Children(o, IdAt(o, p)) <==> ParentIndex(o, i) == p
  {
    ChildrenSpec(o, IdAt(o, p));
  }

  /** `s` has the labels and the parent links of `o`, position by position, and is numbered in order. */
  ghost predicate Mirrors(o: seq<ProgrammeRow>, s: seq<ProgrammeRow>) {
    && |s| == |o| && DistinctIds(s)
    && (forall i, j :: 0 <= i < j < |s| ==> s[i].sortOrder < s[j].sortOrder)
    && (forall i :: 0 <= i < |s| ==>
          s[i].title == o[i].title && s[i].itemType == o[i].itemType && s[i].supplierTrade == o[i].supplierTrade)
    && (forall i: nat :: i < |s| ==> ParentIndex(s, i) == ParentIndex(o, i))
  }

  /** The position in `o` of one of its rows. */
  ghost function At(o: seq<ProgrammeRow>, x: ProgrammeRow): (i: nat)
    requires x in o
    ensures i < |o| && o[i] == x
  {
    var i: nat :| i < |o| && o[i] == x;
    i
  }

  /** The rows standing in `s` where those of `xs` stand in `o`. */
  ghost function Twins(o: seq<ProgrammeRow>, s: seq<ProgrammeRow>, xs: seq<ProgrammeRow>): (ys: seq<ProgrammeRow>)
    requires |s| == |o| && forall x :: x in xs ==> x in o
    ensures |ys| == |xs| && forall m :: 0 <= m < |xs| ==> ys[m] == s[At(o, xs[m])]
  {
    seq(|xs|, (m: int) requires 0 <= m < |xs| => s[At(o, xs[m])])
  }

  ghost predicate InOrder(o: seq<ProgrammeRow>, xs: seq<ProgrammeRow>) {
    && (forall x :: x in xs ==> x in o)
    && (forall m, n :: 0 <= m < n < |xs| ==> At(o, xs[m]) < At(o, xs[n]))
  }

  ghost function Transplant(o: seq<ProgrammeRow>, s: seq<ProgrammeRow>, f: Forest): Forest
    requires |s| == |o| && forall x :: x in Flatten(f) ==> x in o
  {
    match f
    case Bare => Bare
    case Plant(row, kids, rest) => Plant(s[At(o, row)], Transplant(o, s, kids), Transplant(o, s, rest))
  }

  lemma {:induction false} RootsInOrder(o: seq<ProgrammeRow>, f: Forest)
    requires InOrder(o, Flatten(f))
    ensures InOrder(o, Roots(f))
  {
    match f
    case Bare =>
    case Plant(row, kids, rest) =>
      var all, later := Flatten(f), Flatten(rest);
      PartsInOrder(o, [row] + Flatten(kids), later);
      RootsInOrder(o, rest);
      forall x | x in Roots(rest) ensures At(o, row) < At(o, x) {
        RootsOccur(rest, x);
        var n :| 0 <= n < |later| && later[n] == x;
        assert all[0] == row && all[1 + |Flatten(kids)| + n] == x;
      }
  }

  lemma PartsInOrder(o: seq<ProgrammeRow>, a: seq<ProgrammeRow>, b: seq<ProgrammeRow>)
    requires InOrder(o, a + b)
    ensures InOrder(o, a) && InOrder(o, b)
  {
    var s := a + b;
    forall m, n | 0 <= m < n < |a| ensures At(o, a[m]) < At(o, a[n]) {
      assert s[m] == a[m] && s[n] == a[n];
    }
    forall m, n | 0 <= m < n < |b| ensures At(o, b[m]) < At(o, b[n]) {
      assert s[|a| + m] == b[m] && s[|a| + n] == b[n];
    }
    assert forall x :: x in a || x in b ==> x in s;
  }

  lemma PartsAmong(o: seq<ProgrammeRow>, f: Forest)
    requires f.Plant? && forall x :: x in Flatten(f) ==> x in o
    ensures f.row in o && (forall x :: x in Flatten(f.kids) ==> x in o) && (forall x :: x in Flatten(f.rest) ==> x in o)
  {
    assert f.row in Flatten(f);
    assert forall x :: x in Flatten(f.kids) || x in Flatten(f.rest) ==> x in Flatten(f);
  }

  lemma {:induction false} TransplantFlattens(o: seq<ProgrammeRow>, s: seq<ProgrammeRow>, f: Forest)
    requires |s| == |o| && forall x :: x in Flatten(f) ==> x in o
    ensures Flatten(Transplant(o, s, f)) == Twins(o, s, Flatten(f))
  {
    match f
    case Bare =>
    case Plant(row, kids, rest) =>
      PartsAmong(o, f);
      TransplantFlattens(o, s, kids);
      TransplantFlattens(o, s, rest);
      TwinsAppend(o, s, [row], Flatten(kids));
      TwinsAppend(o, s, [row] + Flatten(kids), Flatten(rest));
  }

  lemma {:induction false} TransplantRoots(o: seq<ProgrammeRow>, s: seq<ProgrammeRow>, f: Forest)
    requires |s| == |o| && forall x :: x in Flatten(f) ==> x in o
    ensures forall x :: x in Roots(f) ==> x in o
    ensures Roots(Transplant(o, s, f)) == Twins(o, s, Roots(f))
  {
    match f
    case Bare =>
    case Plant(row, kids, rest) =>
      assert row in Flatten(f);
      TransplantRoots(o, s, rest);
      TwinsAppend(o, s, [row], Roots(rest));
  }

  lemma TwinsAppend(o: seq<ProgrammeRow>, s: seq<ProgrammeRow>, xs: seq<ProgrammeRow>, ys: seq<ProgrammeRow>)
    requires |s| == |o| && (forall x :: x in xs ==> x in o) && (forall y :: y in ys ==> y in o)
    ensures Twins(o, s, xs + ys) == Twins(o, s, xs) + Twins(o, s, ys)
  {
  }

  /** Sibling lists carry over: the twins of a row's children are its twin's children, in order. */
  lemma SiblingsCarryOver(o: seq<ProgrammeRow>, s: seq<ProgrammeRow>, p: Option<nat>, xs: seq<ProgrammeRow>)
    requires DistinctIds(o) && Mirrors(o, s) && (p.Some? ==> p.value < |o|)
    requires xs == Children(o, IdAt(o, p)) && InOrder(o, xs)
    ensures Twins(o, s, xs) == Children(s, IdAt(s, p))
  {
    var ys, zs := Twins(o, s, xs), Children(s, IdAt(s, p));
    ChildrenSpec(s, IdAt(s, p));
    forall x | x in ys ensures x in zs {
      var m :| 0 <= m < |ys| && ys[m] == x;
      ChildrenByIndex(o, p, At(o, xs[m]));
      ChildrenByIndex(s, p, At(o, xs[m]));
    }
    forall x | x in zs ensures x in ys {
      var i := At(s, x);
      ChildrenByIndex(s, p, i);
      ChildrenByIndex(o, p, i);
      var m :| 0 <= m < |xs| && xs[m] == o[i];
      assert o[At(o, xs[m])].id == o[i].id;
    }
    SortedListsAgree(ys, zs);
  }

  lemma {:induction false} GrowthCarriesOver(o: seq<ProgrammeRow>, s: seq<ProgrammeRow>, f: Forest)
    requires DistinctIds(o) && Mirrors(o, s) && Grown(o, f) && InOrder(o, Flatten(f))
    ensures Grown(s, Transplant(o, s, f))
  {
    match f
    case Bare =>
    case Plant(row, kids, rest) =>
      PartsInOrder(o, [row] + Flatten(kids), Flatten(rest));
      PartsInOrder(o, [row], Flatten(kids));
      GrowthCarriesOver(o, s, kids);
      GrowthCarriesOver(o, s, rest);
      RootsInOrder(o, kids);
      assert row in Flatten(f);
      SiblingsCarryOver(o, s, Some(At(o, row)), Roots(kids));
      TransplantRoots(o, s, kids);
  }

  lemma {:induction false} LeftoversAppend(all: seq<ProgrammeRow>, a: seq<ProgrammeRow>, b: seq<ProgrammeRow>)
    ensures Leftovers(all, a + b) == Leftovers(all, a) + Leftovers(all, b)
  {
    if b == [] {
      assert a + b == a;
    } else {
      var front, last := b[..|b| - 1], b[|b| - 1];
      assert (a + b)[..|a + b| - 1] == a + front && (a + b)[|a + b| - 1] == last;
      LeftoversAppend(all, a, front);
    }
  }

  lemma {:induction false} AllLeftOver(all: seq<ProgrammeRow>, rows: seq<ProgrammeRow>)
    requires forall r :: r in rows ==> !Rooted(all, r)
    ensures Leftovers(all, rows) == rows
  {
    if rows != [] {
      var front, last := rows[..|rows| - 1], rows[|rows| - 1];
      assert rows == front + [last];
      AllLeftOver(all, front);
    }
  }

  /** A prefix of `o` is in order, and its twins are the same prefix of `s`. */
  lemma PrefixInOrder(o: seq<ProgrammeRow>, s: seq<ProgrammeRow>, k: nat)
    requires DistinctIds(o) && |s| == |o| && k <= |o|
    ensures InOrder(o, o[..k]) && Twins(o, s, o[..k]) == s[..k]
  {
    forall m | 0 <= m < k ensures At(o, o[..k][m]) == m {
      assert o[At(o, o[..k][m])].id == o[m].id;
    }
  }

  lemma MirrorGrowsSameForest(o: seq<ProgrammeRow>, s: seq<ProgrammeRow>, k: nat)
    requires DistinctIds(o) && Mirrors(o, s) && k <= |o| && Flatten(ForestOf(o)) == o[..k]
    ensures Flatten(ForestOf(s)) == s[..k]
  {
    var f := ForestOf(o);
    PrefixInOrder(o, s, k);
    GrowthCarriesOver(o, s, f);
    RootsInOrder(o, f);
    SiblingsCarryOver(o, s, None, Roots(f));
    TransplantRoots(o, s, f);
    TransplantFlattens(o, s, f);
    GrownUnique(s, Transplant(o, s, f), ForestOf(s));
  }

  lemma MirrorKeepsItsOrder(rows: seq<ProgrammeRow>, s: seq<ProgrammeRow>)
    requires DistinctIds(rows) && Mirrors(TreeOrder(rows), s)
    ensures TreeOrder(s) == s
  {
    var o, k := TreeOrder(rows), |Flatten(ForestOf(rows))|;
    TreeOrderIsPermutation(rows);
    ArrivalOrderIrrelevant(rows, o);
    MirrorGrowsSameForest(o, s, k);
    PrefixForestIsOwnOrder(s, k);
  }

  lemma FrontIsRooted(s: seq<ProgrammeRow>, k: nat, r: ProgrammeRow)
    requires DistinctIds(s) && k <= |s| && Flatten(ForestOf(s)) == s[..k] && r in s
    ensures (r in s[..k] ==> Rooted(s, r)) && (r in s[k..] ==> !Rooted(s, r))
  {
    var i: nat :| i < |s| && s[i] == r;
    PreorderSpec(s);
    PrefixHolds(s, k, i);
    if r in s[k..] {
      var j: nat :| j < |s| - k && s[k..][j] == r;
      PrefixHolds(s, k, k + j);
    }
  }

  lemma PrefixForestIsOwnOrder(s: seq<ProgrammeRow>, k: nat)
    requires DistinctIds(s) && k <= |s| && Flatten(ForestOf(s)) == s[..k]
    ensures TreeOrder(s) == s
  {
    var front, back := s[..k], s[k..];
    assert s == front + back;
    forall r | r in s ensures (r in front ==> Rooted(s, r)) && (r in back ==> !Rooted(s, r)) {
      FrontIsRooted(s, k, r);
    }
    OrderSplits(s, front, back);
  }

  lemma OrderSplits(s: seq<ProgrammeRow>, front: seq<ProgrammeRow>, back: seq<ProgrammeRow>)
    requires s == front + back
    requires forall r :: r in front ==> Rooted(s, r)
    requires forall r :: r in back ==> !Rooted(s, r)
    ensures Leftovers(s, s) == back
  {
    LeftoversAppend(s, front, back);
    NoLeftovers(s, front);
    AllLeftOver(s, back);
  }

  lemma PrefixHolds(s: seq<ProgrammeRow>, k: nat, i: nat)
    requires DistinctIds(s) && k <= |s| && i < |s|
    ensures s[i] in s && (s[i] in s[..k] <==> i < k)
  {
    if s[i] in s[..k] {
      var m :| 0 <= m < k && s[m] == s[i];
    }
    assert i < k ==> s[..k][i] == s[i];
  }

  // ----- Writing a template onto a job -----

  /** The id given to the item numbered `local`. */
  function DbId(items: seq<TemplateItem>, ids: seq<int>, local: int): Option<int>
    requires |ids| == |items|
  {
    if items == [] then None
    else
      var n := |items| - 1;
      if items[n].localId == local then Some(ids[n]) else DbId(items[..n], ids[..n], local)
  }

  /** The rows a template turns into: item `i` gets `ids[i]`, its parent the id its parent item got. */
  function Replay(items: seq<TemplateItem>, ids: seq<int>, base: int): (s: seq<ProgrammeRow>)
    requires |ids| == |items|
    ensures |s| == |items|
  {
    seq(|items|, (i: int) requires 0 <= i < |items| =>
      var item := items[i];
      ProgrammeRow(ids[i],
        if item.localParentId.None? then None else DbId(items, ids, item.localParentId.value),
        item.title, item.itemType, item.supplierTrade, base + item.sortOrder))
  }

  lemma {:induction false} DbIdSpec(items: seq<TemplateItem>, ids: seq<int>, i: nat)
    requires |ids| == |items| && i < |items|
    requires forall j :: 0 <= j < |items| ==> items[j].localId == j + 1
    ensures DbId(items, ids, i + 1) == Some(ids[i])
  {
    var n := |items| - 1;
    if i < n {
      DbIdSpec(items[..n], ids[..n], i);
    }
  }

  /** The item a row turns into: its labels, its position, and its parent's position. */
  ghost function ItemAt(o: seq<ProgrammeRow>, i: nat): TemplateItem
    requires i < |o|
  {
    var p := ParentIndex(o, i);
    TemplateItem(i + 1, if p.None? then None else Some(p.value + 1),
      o[i].title, o[i].itemType, o[i].supplierTrade, i)
  }

  lemma RenumberedItem(o: seq<ProgrammeRow>, i: nat)
    requires DistinctIds(o) && |o| <= I32_MAX && i < |o|
    ensures Renumber(o)[i] == ItemAt(o, i)
  {
    RenumberSpec(o, i);
  }

  lemma ReplayedParent(o: seq<ProgrammeRow>, ids: seq<int>, base: int, i: nat)
    requires DistinctIds(o) && |o| <= I32_MAX && |ids| == |o| && NoRepeats(ids) && i < |o|
    ensures ParentIndex(Replay(Renumber(o), ids, base), i) == ParentIndex(o, i)
  {
    var items := Renumber(o);
    var s := Replay(items, ids, base);
    RenumberedItem(o, i);
    var p := ParentIndex(o, i);
    if p.Some? {
      forall k: nat | k < |items| ensures items[k].localId == k + 1 { RenumberedItem(o, k); }
      DbIdSpec(items, ids, p.value);
      assert s[p.value] in s && s[i].parentId == Some(s[p.value].id);
      var q := ParentIndex(s, i).value;
      assert ids[q] == ids[p.value];
    }
  }

  lemma ReplayMirrors(o: seq<ProgrammeRow>, ids: seq<int>, base: int)
    requires DistinctIds(o) && |o| <= I32_MAX && |ids| == |o| && NoRepeats(ids)
    ensures Mirrors(o, Replay(Renumber(o), ids, base))
  {
    var s := Replay(Renumber(o), ids, base);
    forall i: nat | i < |o|
      ensures s[i].id == ids[i] && s[i].sortOrder == base + i && ParentIndex(s, i) == ParentIndex(o, i)
    {
      RenumberedItem(o, i);
      ReplayedParent(o, ids, base, i);
    }
  }

  /**
   * Capture, write out under any distinct new ids, capture again: the same items come back.
   * This holds for every programme, cyclic ones included.
   */
  lemma CaptureRoundTrip(rows: seq<ProgrammeRow>, ids: seq<int>, base: int)
    requires DistinctIds(rows) && |rows| <= I32_MAX && |ids| == |rows| && NoRepeats(ids)
    ensures |CaptureOf(rows)| == |rows|
    ensures var replayed := Replay(CaptureOf(rows), ids, base);
      DistinctIds(replayed) && CaptureOf(replayed) == CaptureOf(rows)
  {
    TreeOrderIsPermutation(rows);
    var o := TreeOrder(rows);
    var s := Replay(CaptureOf(rows), ids, base);
    ReplayMirrors(o, ids, base);
    MirrorKeepsItsOrder(rows, s);
    MirrorCapturesAlike(o, s);
  }

  lemma MirrorCapturesAlike(o: seq<ProgrammeRow>, s: seq<ProgrammeRow>)
    requires DistinctIds(o) && Mirrors(o, s) && |o| <= I32_MAX
    ensures Renumber(s) == Renumber(o)
  {
    forall i: nat | i < |o| ensures Renumber(s)[i] == Renumber(o)[i] {
      RenumberedItem(s, i);
      RenumberedItem(o, i);
    }
  }
}
