/**
 * The shape of a job's programme: which row hangs under which, and in what order.
 * `Forest` is the recursive account of the tree that the capture code walks with a stack.
 */
module Forest {
  import opened Base

  /** A call-forward item of a job, reduced to what a template keeps of it. */
  datatype ProgrammeRow = ProgrammeRow(
    id: int,
    parentId: Option<int>,
    title: string,
    itemType: string,
    supplierTrade: Option<string>,
    sortOrder: int)

  ghost predicate DistinctIds(rows: seq<ProgrammeRow>) {
    forall i, j :: 0 <= i < j < |rows| ==> rows[i].id != rows[j].id
  }

  function Ids(rows: seq<ProgrammeRow>): set<int> {
    set r | r in rows :: r.id
  }

  /** A parent that is not among the rows counts as no parent at all. */
  function EffectiveParent(present: set<int>, r: ProgrammeRow): Option<int> {
    if r.parentId.Some? && r.parentId.value in present then r.parentId else None
  }

  // ----- Siblings: filtered, then sorted by (sort order, id) -----

  predicate KeyLess(a: ProgrammeRow, b: ProgrammeRow) {
    a.sortOrder < b.sortOrder || (a.sortOrder == b.sortOrder && a.id < b.id)
  }

  /** Insertion sort stands for the library's stable sort. */
  function SortRows(s: seq<ProgrammeRow>): seq<ProgrammeRow> {
    if s == [] then [] else Insert(SortRows(s[..|s| - 1]), s[|s| - 1])
  }

  function Insert(s: seq<ProgrammeRow>, r: ProgrammeRow): seq<ProgrammeRow> {
    if s == [] then [r]
    else if KeyLess(r, s[0]) then [r] + s
    else [s[0]] + Insert(s[1..], r)
  }

  ghost predicate StrictlySorted(s: seq<ProgrammeRow>) {
    forall i, j :: 0 <= i < j < |s| ==> KeyLess(s[i], s[j])
  }

  /** The rows among `rows` whose effective parent is `p`, in input order. */
  function Under(present: set<int>, rows: seq<ProgrammeRow>, p: Option<int>): seq<ProgrammeRow> {
    if rows == [] then []
    else
      var last := rows[|rows| - 1];
      Under(present, rows[..|rows| - 1], p) + (if EffectiveParent(present, last) == p then [last] else [])
  }

  function Children(rows: seq<ProgrammeRow>, p: Option<int>): seq<ProgrammeRow> {
    SortRows(Under(Ids(rows), rows, p))
  }

  lemma {:induction false} UnderSpec(present: set<int>, rows: seq<ProgrammeRow>, p: Option<int>)
    requires DistinctIds(rows)
    ensures DistinctIds(Under(present, rows, p))
    ensures forall r :: r in Under(present, rows, p) <==> r in rows && EffectiveParent(present, r) == p
  {
    if rows == [] {
    } else {
      var front, last := rows[..|rows| - 1], rows[|rows| - 1];
      assert rows == front + [last];
      UnderSpec(present, front, p);
      forall r | r in front ensures r.id != last.id {
        var i :| 0 <= i < |front| && front[i] == r;
        assert rows[i].id != rows[|rows| - 1].id;
      }
    }
  }

  lemma {:induction false} InsertSpec(s: seq<ProgrammeRow>, r: ProgrammeRow)
    requires StrictlySorted(s)
    requires forall x :: x in s ==> x.id != r.id
    ensures StrictlySorted(Insert(s, r))
    ensures forall x :: x in Insert(s, r) <==> x in s || x == r
  {
    if s == [] {
    } else if KeyLess(r, s[0]) {
      assert forall i :: 0 <= i < |s| ==> KeyLess(r, s[i]);
    } else {
      assert s == [s[0]] + s[1..];
      InsertSpec(s[1..], r);
      var rest := Insert(s[1..], r);
      forall x | x in rest ensures KeyLess(s[0], x) {
        if x != r {
          var i :| 0 <= i < |s[1..]| && s[1..][i] == x;
          assert KeyLess(s[0], s[i + 1]);
        } else {
          assert s[0] in s;
        }
      }
    }
  }

  lemma {:induction false} SortSpec(s: seq<ProgrammeRow>)
    requires DistinctIds(s)
    ensures StrictlySorted(SortRows(s))
    ensures forall x :: x in SortRows(s) <==> x in s
  {
    if s == [] {
    } else {
      var front, last := s[..|s| - 1], s[|s| - 1];
      assert s == front + [last];
      SortSpec(front);
      forall x | x in front ensures x.id != last.id {
        var i :| 0 <= i < |front| && front[i] == x;
        assert s[i].id != s[|s| - 1].id;
      }
      InsertSpec(SortRows(front), last);
    }
  }

  lemma {:induction false} ChildrenSpec(rows: seq<ProgrammeRow>, p: Option<int>)
    requires DistinctIds(rows)
    ensures StrictlySorted(Children(rows, p))
    ensures forall r :: r in Children(rows, p) <==> r in rows && EffectiveParent(Ids(rows), r) == p
  {
    UnderSpec(Ids(rows), rows, p);
    SortSpec(Under(Ids(rows), rows, p));
  }

  /** Row by row: who is listed where, and in what order. */
  lemma ChildrenAre(rows: seq<ProgrammeRow>, p: Option<int>)
    requires DistinctIds(rows)
    ensures forall r :: r in Children(rows, p) <==>
      r in rows &&
      if p.Some? then r.parentId == p && exists q :: q in rows && q.id == p.value
      else r.parentId.None? || forall q :: q in rows ==> q.id != r.parentId.value
    ensures forall i, j :: 0 <= i < j < |Children(rows, p)| ==>
      var a, b := Children(rows, p)[i], Children(rows, p)[j];
      a.sortOrder < b.sortOrder || (a.sortOrder == b.sortOrder && a.id < b.id)
  {
    ChildrenSpec(rows, p);
    forall id ensures id in Ids(rows) <==> exists q :: q in rows && q.id == id {
    }
    var c := Children(rows, p);
    forall i, j | 0 <= i < j < |c|
      ensures c[i].sortOrder < c[j].sortOrder || (c[i].sortOrder == c[j].sortOrder && c[i].id < c[j].id)
    {
      assert KeyLess(c[i], c[j]);
    }
  }

  lemma FirstIsLeast(s: seq<ProgrammeRow>, x: ProgrammeRow)
    requires StrictlySorted(s) && x in s
    ensures x == s[0] || KeyLess(s[0], x)
  {
    var i :| 0 <= i < |s| && s[i] == x;
  }

  /** A strict order leaves one way only to list a set of rows. */
  lemma {:induction false} SortedListsAgree(a: seq<ProgrammeRow>, b: seq<ProgrammeRow>)
    requires StrictlySorted(a) && StrictlySorted(b)
    requires forall x :: x in a <==> x in b
    ensures a == b
  {
    if a == [] {
      assert forall i :: 0 <= i < |b| ==> b[i] in a;
    } else {
      assert b != [] by { assert a[0] in b; }
      assert a[0] == b[0] by {
        FirstIsLeast(b, a[0]);
        FirstIsLeast(a, b[0]);
      }
      assert a == [a[0]] + a[1..] && b == [b[0]] + b[1..];
      forall x ensures x in a[1..] <==> x in b[1..] {
        if x in a[1..] {
          var i :| 0 <= i < |a[1..]| && a[1..][i] == x;
          assert KeyLess(a[0], a[i + 1]) && x in b;
        }
        if x in b[1..] {
          var i :| 0 <= i < |b[1..]| && b[1..][i] == x;
          assert KeyLess(b[0], b[i + 1]) && x in a;
        }
      }
      SortedListsAgree(a[1..], b[1..]);
    }
  }

  // ----- Chains of parents -----

  ghost function Lookup(rows: seq<ProgrammeRow>, id: int): (r: Option<ProgrammeRow>)
    ensures r.None? <==> id !in Ids(rows)
    ensures r.Some? ==> r.value in rows && r.value.id == id
  {
    if id in Ids(rows) then
      var r :| r in rows && r.id == id;
      Some(r)
    else None
  }

  lemma SameIdSameRow(rows: seq<ProgrammeRow>, a: ProgrammeRow, b: ProgrammeRow)
    requires DistinctIds(rows) && a in rows && b in rows
    ensures a.id == b.id <==> a == b
  {
    var i :| 0 <= i < |rows| && rows[i] == a;
    var j :| 0 <= j < |rows| && rows[j] == b;
  }

  ghost function ParentRow(rows: seq<ProgrammeRow>, r: ProgrammeRow): (p: Option<ProgrammeRow>)
    ensures p.None? <==> EffectiveParent(Ids(rows), r) == None
    ensures p.Some? ==> p.value in rows && EffectiveParent(Ids(rows), r) == Some(p.value.id)
  {
    if r.parentId.None? then None else Lookup(rows, r.parentId.value)
  }

  /** `r` sits exactly `n` links below a root. */
  ghost predicate DepthIs(rows: seq<ProgrammeRow>, r: ProgrammeRow, n: nat)
    decreases n
  {
    match ParentRow(rows, r)
    case None => n == 0
    case Some(q) => n > 0 && DepthIs(rows, q, n - 1)
  }

  /** The chain of present parents above `r` ends at a root. */
  ghost predicate Rooted(rows: seq<ProgrammeRow>, r: ProgrammeRow) {
    exists n: nat :: DepthIs(rows, r, n)
  }

  /** The row `k` links above `r`, if the chain is that long. */
  ghost function Up(rows: seq<ProgrammeRow>, r: ProgrammeRow, k: nat): Option<ProgrammeRow>
    decreases k
  {
    if k == 0 then Some(r)
    else match ParentRow(rows, r)
      case None => None
      case Some(q) => Up(rows, q, k - 1)
  }

  lemma {:induction false} DepthUnique(rows: seq<ProgrammeRow>, r: ProgrammeRow, m: nat, n: nat)
    requires DepthIs(rows, r, m) && DepthIs(rows, r, n)
    ensures m == n
    decreases m
  {
    if m > 0 {
      DepthUnique(rows, ParentRow(rows, r).value, m - 1, n - 1);
    }
  }

  lemma DepthsTellApart(rows: seq<ProgrammeRow>, x: ProgrammeRow, m: nat, y: ProgrammeRow, n: nat)
    requires DistinctIds(rows) && x in rows && y in rows
    requires DepthIs(rows, x, m) && DepthIs(rows, y, n) && m != n
    ensures x.id != y.id
  {
    if x.id == y.id {
      SameIdSameRow(rows, x, y);
      DepthUnique(rows, x, m, n);
    }
  }

  /** Rows with different ancestors at the same depth are different rows. */
  lemma AncestorsTellApart(rows: seq<ProgrammeRow>,
      x: ProgrammeRow, m: nat, k: nat, y: ProgrammeRow, n: nat, j: nat)
    requires DistinctIds(rows) && x in rows && y in rows
    requires DepthIs(rows, x, m) && DepthIs(rows, y, n) && k <= m && j <= n && m - k == n - j
    requires Up(rows, x, k) != Up(rows, y, j)
    ensures x.id != y.id
  {
    if x.id == y.id {
      SameIdSameRow(rows, x, y);
      DepthUnique(rows, x, m, n);
    }
  }

  lemma {:induction false} UpStep(rows: seq<ProgrammeRow>, r: ProgrammeRow, k: nat)
    requires Up(rows, r, k).Some?
    ensures Up(rows, r, k + 1) == ParentRow(rows, Up(rows, r, k).value)
    decreases k
  {
    if k == 0 {
      if ParentRow(rows, r).Some? {
        assert Up(rows, ParentRow(rows, r).value, 0).Some?;
      }
    } else {
      UpStep(rows, ParentRow(rows, r).value, k - 1);
    }
  }

  lemma {:induction false} UpAdds(rows: seq<ProgrammeRow>, r: ProgrammeRow, j: nat, k: nat)
    requires Up(rows, r, j).Some?
    ensures Up(rows, r, j + k) == Up(rows, Up(rows, r, j).value, k)
    decreases j
  {
    if j > 0 {
      UpAdds(rows, ParentRow(rows, r).value, j - 1, k);
    }
  }

  lemma {:induction false} UpStaysPresent(rows: seq<ProgrammeRow>, r: ProgrammeRow, k: nat)
    requires r in rows && Up(rows, r, k).Some?
    ensures Up(rows, r, k).value in rows
    decreases k
  {
    if k > 0 {
      UpStaysPresent(rows, ParentRow(rows, r).value, k - 1);
    }
  }

  lemma {:induction false} UpLowersDepth(rows: seq<ProgrammeRow>, r: ProgrammeRow, n: nat, k: nat)
    requires DepthIs(rows, r, n)
    ensures Up(rows, r, k).Some? <==> k <= n
    ensures k <= n ==> DepthIs(rows, Up(rows, r, k).value, n - k)
    decreases k
  {
    if k > 0 && n > 0 {
      UpLowersDepth(rows, ParentRow(rows, r).value, n - 1, k - 1);
    }
  }

  lemma {:induction false} UpRaisesDepth(rows: seq<ProgrammeRow>, r: ProgrammeRow, a: ProgrammeRow, k: nat, d: nat)
    requires Up(rows, r, k) == Some(a) && DepthIs(rows, a, d)
    ensures DepthIs(rows, r, d + k)
    decreases k
  {
    if k > 0 {
      UpRaisesDepth(rows, ParentRow(rows, r).value, a, k - 1, d);
    }
  }

  /** The ids met on the way up from `r`: rows `r`, its parent, ... `k` links up. */
  ghost function Chain(rows: seq<ProgrammeRow>, r: ProgrammeRow, k: nat): (s: seq<int>)
    requires forall j: nat :: j <= k ==> Up(rows, r, j).Some?
    ensures |s| == k + 1
    ensures forall j: nat :: j <= k ==> s[j] == Up(rows, r, j).value.id
  {
    seq(k + 1, (j: int) requires 0 <= j <= k => Up(rows, r, j).value.id)
  }

  /** A chain that does not repeat itself is no longer than the programme. */
  lemma ChainIsShort(rows: seq<ProgrammeRow>, r: ProgrammeRow, k: nat)
    requires r in rows
    requires forall j: nat :: j <= k ==> Up(rows, r, j).Some?
    requires forall i: nat, j: nat :: i < j <= k ==> Up(rows, r, i).value.id != Up(rows, r, j).value.id
    ensures k < |rows|
  {
    var s := Chain(rows, r, k);
    forall x | x in s ensures x in Ids(rows) {
      var j :| 0 <= j < |s| && s[j] == x;
      UpStaysPresent(rows, r, j);
    }
    forall i, j | 0 <= i < j < |s| ensures s[i] != s[j] {
      assert Up(rows, r, i).value.id != Up(rows, r, j).value.id;
    }
    NoRepeatsFits(s, Ids(rows));
    IdsFit(rows);
  }

  lemma {:induction false} IdsFit(rows: seq<ProgrammeRow>)
    ensures |Ids(rows)| <= |rows|
  {
    if rows == [] {
    } else {
      var rest := rows[1..];
      assert rows == [rows[0]] + rest;
      IdsFit(rest);
      assert Ids(rows) == {rows[0].id} + Ids(rest);
    }
  }

  lemma DepthIsBounded(rows: seq<ProgrammeRow>, r: ProgrammeRow, n: nat)
    requires DistinctIds(rows) && r in rows && DepthIs(rows, r, n)
    ensures n < |rows|
  {
    forall j: nat | j <= n ensures Up(rows, r, j).Some? {
      UpLowersDepth(rows, r, n, j);
    }
    forall i: nat, j: nat | i < j <= n ensures Up(rows, r, i).value.id != Up(rows, r, j).value.id {
      UpLowersDepth(rows, r, n, i);
      UpLowersDepth(rows, r, n, j);
      UpStaysPresent(rows, r, i);
      UpStaysPresent(rows, r, j);
      var a, b := Up(rows, r, i).value, Up(rows, r, j).value;
      if a.id == b.id {
        SameIdSameRow(rows, a, b);
        DepthUnique(rows, a, n - i, n - j);
      }
    }
    ChainIsShort(rows, r, n);
  }

  /** Some row is reached from itself by following one or more parent links. */
  ghost predicate HasCycle(rows: seq<ProgrammeRow>) {
    exists r, k: nat {:trigger Up(rows, r, k)} :: r in rows && k > 0 && Up(rows, r, k) == Some(r)
  }

  lemma {:induction false} LongChainIsUnrooted(rows: seq<ProgrammeRow>, r: ProgrammeRow, k: nat)
    requires Up(rows, r, k) == None
    ensures Rooted(rows, r)
    decreases k
  {
    match ParentRow(rows, r)
    case None => assert DepthIs(rows, r, 0);
    case Some(q) =>
      LongChainIsUnrooted(rows, q, k - 1);
      var n: nat :| DepthIs(rows, q, n);
      assert DepthIs(rows, r, n + 1);
  }

  /** Every chain ends at a root exactly when the parent links hold no cycle. */
  lemma RootedIffAcyclic(rows: seq<ProgrammeRow>)
    requires DistinctIds(rows)
    ensures (forall r :: r in rows ==> Rooted(rows, r)) <==> !HasCycle(rows)
  {
    if HasCycle(rows) {
      var r, k: nat :| r in rows && k > 0 && Up(rows, r, k) == Some(r);
      if Rooted(rows, r) {
        var n: nat :| DepthIs(rows, r, n);
        UpLowersDepth(rows, r, n, k);
        DepthUnique(rows, r, n, n - k);
      }
    }
    if r :| r in rows && !Rooted(rows, r) {
      UnrootedMeansCycle(rows, r);
    }
  }

  lemma UnrootedMeansCycle(rows: seq<ProgrammeRow>, r: ProgrammeRow)
    requires DistinctIds(rows) && r in rows && !Rooted(rows, r)
    ensures HasCycle(rows)
  {
    forall j: nat ensures Up(rows, r, j).Some? {
      if Up(rows, r, j) == None { LongChainIsUnrooted(rows, r, j); }
    }
    var k := |rows|;
    if i: nat, j: nat :| i < j <= k && Up(rows, r, i).value.id == Up(rows, r, j).value.id {
      UpStaysPresent(rows, r, i);
      UpStaysPresent(rows, r, j);
      var a := Up(rows, r, i).value;
      SameIdSameRow(rows, a, Up(rows, r, j).value);
      UpAdds(rows, r, i, j - i);
      assert Up(rows, a, j - i) == Some(a);
    } else {
      ChainIsShort(rows, r, k);
    }
  }

  // ----- The forest itself -----

  /** A list of trees: the first tree's row, the trees below it, and the trees beside it. */
  datatype Forest = Bare | Plant(row: ProgrammeRow, kids: Forest, rest: Forest)

  /** Preorder: each row, then its whole subtree, then its later siblings. */
  function Flatten(f: Forest): seq<ProgrammeRow> {
    match f
    case Bare => []
    case Plant(row, kids, rest) => [row] + Flatten(kids) + Flatten(rest)
  }

  function Roots(f: Forest): seq<ProgrammeRow> {
    match f
    case Bare => []
    case Plant(row, _, rest) => [row] + Roots(rest)
  }

  function Append(f: Forest, g: Forest): Forest {
    match f
    case Bare => g
    case Plant(row, kids, rest) => Plant(row, kids, Append(rest, g))
  }

  /** Below every node hang exactly its children, in sibling order. */
  ghost predicate Grown(rows: seq<ProgrammeRow>, f: Forest) {
    match f
    case Bare => true
    case Plant(row, kids, rest) =>
      Roots(kids) == Children(rows, Some(row.id)) && Grown(rows, kids) && Grown(rows, rest)
  }

  ghost predicate IsForestOf(rows: seq<ProgrammeRow>, p: Option<int>, f: Forest) {
    Roots(f) == Children(rows, p) && Grown(rows, f)
  }

  lemma {:induction false} AppendSpec(rows: seq<ProgrammeRow>, f: Forest, g: Forest)
    ensures Roots(Append(f, g)) == Roots(f) + Roots(g)
    ensures Flatten(Append(f, g)) == Flatten(f) + Flatten(g)
    ensures Grown(rows, Append(f, g)) <==> Grown(rows, f) && Grown(rows, g)
  {
    match f
    case Bare =>
    case Plant(row, kids, rest) =>
      AppendSpec(rows, rest, g);
  }

  /** Only one forest has the given roots and grows from the given rows. */
  lemma {:induction false} GrownUnique(rows: seq<ProgrammeRow>, f: Forest, g: Forest)
    requires Grown(rows, f) && Grown(rows, g) && Roots(f) == Roots(g)
    ensures f == g
  {
    match f
    case Bare => assert |Roots(g)| == 0;
    case Plant(row, kids, rest) =>
      assert |Roots(f)| == 1 + |Roots(rest)| == |Roots(g)|;
      assert Roots(f)[0] == Roots(g)[0];
      GrownUnique(rows, kids, g.kids);
      assert Roots(rest) == Roots(f)[1..] && Roots(g.rest) == Roots(g)[1..];
      GrownUnique(rows, rest, g.rest);
  }

  /** Rows of the programme, all at depth `d`. */
  ghost predicate AllAt(rows: seq<ProgrammeRow>, s: seq<ProgrammeRow>, d: nat) {
    forall r :: r in s ==> r in rows && DepthIs(rows, r, d)
  }

  lemma ChildrenAreDeeper(rows: seq<ProgrammeRow>, q: ProgrammeRow, d: nat)
    requires DistinctIds(rows) && q in rows && DepthIs(rows, q, d)
    ensures AllAt(rows, Children(rows, Some(q.id)), d + 1)
    ensures forall r :: r in Children(rows, Some(q.id)) ==> ParentRow(rows, r) == Some(q)
  {
    ChildrenSpec(rows, Some(q.id));
    forall r | r in Children(rows, Some(q.id)) ensures ParentRow(rows, r) == Some(q) {
      SameIdSameRow(rows, q, ParentRow(rows, r).value);
    }
  }

  lemma RootsHaveDepthZero(rows: seq<ProgrammeRow>)
    requires DistinctIds(rows)
    ensures AllAt(rows, Children(rows, None), 0)
  {
    ChildrenSpec(rows, None);
  }

  lemma ChildrenDistinct(rows: seq<ProgrammeRow>, p: Option<int>)
    requires DistinctIds(rows)
    ensures DistinctIds(Children(rows, p))
  {
    ChildrenSpec(rows, p);
    var c := Children(rows, p);
    forall i, j | 0 <= i < j < |c| ensures c[i].id != c[j].id {
      assert KeyLess(c[i], c[j]);
      assert c[i] in rows && c[j] in rows;
      SameIdSameRow(rows, c[i], c[j]);
    }
  }

  /** Grows the forest whose roots are `roots`, all at depth `d`. */
  ghost function Grow(rows: seq<ProgrammeRow>, roots: seq<ProgrammeRow>, d: nat): (f: Forest)
    requires DistinctIds(rows) && AllAt(rows, roots, d)
    ensures Grown(rows, f) && Roots(f) == roots
    decreases |rows| - d, |roots|
  {
    if roots == [] then Bare
    else
      assert roots == [roots[0]] + roots[1..];
      DepthIsBounded(rows, roots[0], d);
      ChildrenAreDeeper(rows, roots[0], d);
      Plant(roots[0], Grow(rows, Children(rows, Some(roots[0].id)), d + 1), Grow(rows, roots[1..], d))
  }

  ghost function ForestOf(rows: seq<ProgrammeRow>): (f: Forest)
    requires DistinctIds(rows)
    ensures IsForestOf(rows, None, f)
  {
    RootsHaveDepthZero(rows);
    Grow(rows, Children(rows, None), 0)
  }

  /**
   * The order the capture promises: the preorder of the forest, then whatever no root
   * reaches, in the order it arrived.
   */
  ghost function TreeOrder(rows: seq<ProgrammeRow>): seq<ProgrammeRow>
    requires DistinctIds(rows)
  {
    Flatten(ForestOf(rows)) + Leftovers(rows, rows)
  }

  ghost function Leftovers(all: seq<ProgrammeRow>, rows: seq<ProgrammeRow>): seq<ProgrammeRow> {
    if rows == [] then []
    else
      var last := rows[|rows| - 1];
      Leftovers(all, rows[..|rows| - 1]) + (if Rooted(all, last) then [] else [last])
  }

  lemma {:induction false} LeftoversSpec(all: seq<ProgrammeRow>, rows: seq<ProgrammeRow>)
    requires DistinctIds(rows)
    ensures DistinctIds(Leftovers(all, rows))
    ensures forall r :: r in Leftovers(all, rows) <==> r in rows && !Rooted(all, r)
  {
    if rows == [] {
    } else {
      var front, last := rows[..|rows| - 1], rows[|rows| - 1];
      assert rows == front + [last];
      LeftoversSpec(all, front);
      forall r | r in front ensures r.id != last.id {
        var i :| 0 <= i < |front| && front[i] == r;
        assert rows[i].id != rows[|rows| - 1].id;
      }
    }
  }

  // ----- Every rooted row occurs in the forest exactly once -----

  /** Every node is a row of the programme, and its kids name it as their parent. */
  ghost predicate Linked(rows: seq<ProgrammeRow>, f: Forest) {
    match f
    case Bare => true
    case Plant(row, kids, rest) =>
      && row in rows
      && (forall kid :: kid in Roots(kids) ==> ParentRow(rows, kid) == Some(row))
      && Linked(rows, kids)
      && Linked(rows, rest)
  }

  lemma {:induction false} GrownIsLinked(rows: seq<ProgrammeRow>, f: Forest, d: nat)
    requires DistinctIds(rows) && Grown(rows, f) && AllAt(rows, Roots(f), d)
    ensures Linked(rows, f)
  {
    match f
    case Bare =>
    case Plant(row, kids, rest) =>
      assert row in Roots(f);
      ChildrenAreDeeper(rows, row, d);
      GrownIsLinked(rows, kids, d + 1);
      GrownIsLinked(rows, rest, d);
  }

  /** Which root of `f` a row of `Flatten(f)` belongs to, and how far below it. */
  lemma {:induction false} Trace(rows: seq<ProgrammeRow>, f: Forest, x: ProgrammeRow)
    returns (root: ProgrammeRow, k: nat)
    requires Linked(rows, f) && x in Flatten(f)
    ensures root in Roots(f) && x in rows && Up(rows, x, k) == Some(root)
  {
    if x == f.row {
      root, k := x, 0;
    } else if x in Flatten(f.kids) {
      var kid, m := Trace(rows, f.kids, x);
      UpStep(rows, x, m);
      root, k := f.row, m + 1;
    } else {
      root, k := Trace(rows, f.rest, x);
    }
  }

  lemma {:induction false} FlattenDistinct(rows: seq<ProgrammeRow>, f: Forest, d: nat)
    requires DistinctIds(rows) && Grown(rows, f) && AllAt(rows, Roots(f), d)
    requires DistinctIds(Roots(f))
    ensures DistinctIds(Flatten(f))
  {
    match f
    case Bare =>
    case Plant(row, kids, rest) =>
      assert row in Roots(f);
      GrownIsLinked(rows, f, d);
      ChildrenAreDeeper(rows, row, d);
      ChildrenDistinct(rows, Some(row.id));
      FlattenDistinct(rows, kids, d + 1);
      assert Roots(rest) == Roots(f)[1..];
      FlattenDistinct(rows, rest, d);
      forall x | x in Flatten(kids) ensures x.id != row.id {
        BelowIsDeeper(rows, f, d, x);
      }
      ConcatDistinct([row], Flatten(kids));
      forall x, y | x in [row] + Flatten(kids) && y in Flatten(rest) ensures x.id != y.id {
        SubtreesDisjoint(rows, f, d, x, y);
      }
      ConcatDistinct([row] + Flatten(kids), Flatten(rest));
  }

  lemma BelowIsDeeper(rows: seq<ProgrammeRow>, f: Forest, d: nat, x: ProgrammeRow)
    requires DistinctIds(rows) && f.Plant? && Linked(rows, f) && DepthIs(rows, f.row, d)
    requires x in Flatten(f.kids)
    ensures x.id != f.row.id
  {
    var kid, k := Trace(rows, f.kids, x);
    UpRaisesDepth(rows, x, kid, k, d + 1);
    DepthsTellApart(rows, x, d + 1 + k, f.row, d);
  }

  lemma ConcatDistinct(a: seq<ProgrammeRow>, b: seq<ProgrammeRow>)
    requires DistinctIds(a) && DistinctIds(b)
    requires forall x, y :: x in a && y in b ==> x.id != y.id
    ensures DistinctIds(a + b)
  {
    var s := a + b;
    forall i, j | 0 <= i < j < |s| ensures s[i].id != s[j].id {
      if i < |a| <= j {
        assert s[i] in a && s[j] in b;
      }
    }
  }

  lemma SubtreesDisjoint(rows: seq<ProgrammeRow>, f: Forest, d: nat, x: ProgrammeRow, y: ProgrammeRow)
    requires DistinctIds(rows) && f.Plant? && Linked(rows, f) && AllAt(rows, Roots(f), d)
    requires DistinctIds(Roots(f))
    requires x in [f.row] + Flatten(f.kids) && y in Flatten(f.rest)
    ensures x.id != y.id
  {
    var k := TraceFirst(rows, f, x);
    var b, m := Trace(rows, f.rest, y);
    FirstRootDiffers(f, b);
    UpRaisesDepth(rows, x, f.row, k, d);
    UpRaisesDepth(rows, y, b, m, d);
    AncestorsTellApart(rows, x, d + k, k, y, d + m, m);
  }

  lemma TraceFirst(rows: seq<ProgrammeRow>, f: Forest, x: ProgrammeRow) returns (k: nat)
    requires f.Plant? && Linked(rows, f) && x in [f.row] + Flatten(f.kids)
    ensures x in rows && Up(rows, x, k) == Some(f.row)
  {
    if x == f.row {
      k := 0;
    } else {
      var kid, m := Trace(rows, f.kids, x);
      UpStep(rows, x, m);
      k := m + 1;
    }
  }

  lemma FirstRootDiffers(f: Forest, b: ProgrammeRow)
    requires f.Plant? && DistinctIds(Roots(f)) && b in Roots(f.rest)
    ensures b != f.row && b in Roots(f) && f.row in Roots(f)
  {
    var j :| 0 <= j < |Roots(f.rest)| && Roots(f.rest)[j] == b;
    assert Roots(f)[0].id != Roots(f)[j + 1].id;
  }

  /** A row whose parent occurs in the forest occurs there too. */
  lemma {:induction false} FlattenClosed(rows: seq<ProgrammeRow>, f: Forest, q: ProgrammeRow, r: ProgrammeRow)
    requires DistinctIds(rows) && Grown(rows, f)
    requires q in Flatten(f) && r in rows && EffectiveParent(Ids(rows), r) == Some(q.id)
    ensures r in Flatten(f)
  {
    if q == f.row {
      ChildrenSpec(rows, Some(q.id));
      RootsOccur(f.kids, r);
    } else if q in Flatten(f.kids) {
      FlattenClosed(rows, f.kids, q, r);
    } else {
      FlattenClosed(rows, f.rest, q, r);
    }
  }

  lemma {:induction false} RootsOccur(f: Forest, r: ProgrammeRow)
    requires r in Roots(f)
    ensures r in Flatten(f)
  {
    if f.row != r {
      RootsOccur(f.rest, r);
    }
  }

  lemma {:induction false} RootedOccurs(rows: seq<ProgrammeRow>, r: ProgrammeRow, n: nat)
    requires DistinctIds(rows) && r in rows && DepthIs(rows, r, n)
    ensures r in Flatten(ForestOf(rows))
    decreases n
  {
    var f := ForestOf(rows);
    match ParentRow(rows, r)
    case None =>
      ChildrenSpec(rows, None);
      RootsOccur(f, r);
    case Some(q) =>
      RootedOccurs(rows, q, n - 1);
      FlattenClosed(rows, f, q, r);
  }

  /** The preorder holds the rooted rows and no others, each once. */
  lemma PreorderSpec(rows: seq<ProgrammeRow>)
    requires DistinctIds(rows)
    ensures DistinctIds(Flatten(ForestOf(rows)))
    ensures forall r :: r in Flatten(ForestOf(rows)) <==> r in rows && Rooted(rows, r)
  {
    var f := ForestOf(rows);
    RootsHaveDepthZero(rows);
    ChildrenDistinct(rows, None);
    FlattenDistinct(rows, f, 0);
    GrownIsLinked(rows, f, 0);
    forall r ensures r in Flatten(f) <==> r in rows && Rooted(rows, r) {
      if r in Flatten(f) {
        var root, k := Trace(rows, f, r);
        UpRaisesDepth(rows, r, root, k, 0);
      }
      if r in rows && Rooted(rows, r) {
        var n: nat :| DepthIs(rows, r, n);
        RootedOccurs(rows, r, n);
      }
    }
  }

  // ----- What the order guarantees -----

  /** Nothing is lost and nothing is repeated, whatever the parent links look like. */
  lemma TreeOrderIsPermutation(rows: seq<ProgrammeRow>)
    requires DistinctIds(rows)
    ensures DistinctIds(TreeOrder(rows))
    ensures multiset(TreeOrder(rows)) == multiset(rows)
    ensures |TreeOrder(rows)| == |rows|
    ensures forall r :: r in TreeOrder(rows) <==> r in rows
  {
    PreorderSpec(rows);
    LeftoversSpec(rows, rows);
    var a, b := Flatten(ForestOf(rows)), Leftovers(rows, rows);
    forall x, y | x in a && y in b ensures x.id != y.id {
      SameIdSameRow(rows, x, y);
    }
    ConcatDistinct(a, b);
    SameElementsSameMultiset(TreeOrder(rows), rows);
    assert |multiset(TreeOrder(rows))| == |multiset(rows)|;
  }

  /** On a programme without cycles the arrival order of the rows makes no difference. */
  lemma ArrivalOrderIrrelevant(rows: seq<ProgrammeRow>, shuffled: seq<ProgrammeRow>)
    requires DistinctIds(rows) && multiset(rows) == multiset(shuffled)
    ensures DistinctIds(shuffled)
    ensures ForestOf(rows) == ForestOf(shuffled)
    ensures !HasCycle(rows) ==> TreeOrder(rows) == TreeOrder(shuffled)
  {
    ShuffledDistinct(rows, shuffled);
    assert forall x :: x in rows <==> x in multiset(rows);
    assert forall x :: x in shuffled <==> x in multiset(shuffled);
    assert Ids(rows) == Ids(shuffled);
    forall p ensures Children(rows, p) == Children(shuffled, p) {
      ChildrenSpec(rows, p);
      ChildrenSpec(shuffled, p);
      SortedListsAgree(Children(rows, p), Children(shuffled, p));
    }
    GrownTransfers(rows, shuffled, ForestOf(rows));
    GrownUnique(shuffled, ForestOf(rows), ForestOf(shuffled));
    if !HasCycle(rows) {
      RootedIffAcyclic(rows);
      PreorderSpec(rows);
      PreorderSpec(shuffled);
      forall r | r in shuffled ensures Rooted(shuffled, r) { assert r in Flatten(ForestOf(rows)); }
      NoLeftovers(rows, rows);
      NoLeftovers(shuffled, shuffled);
    }
  }

  lemma {:induction false} NoLeftovers(all: seq<ProgrammeRow>, rows: seq<ProgrammeRow>)
    requires forall r :: r in rows ==> Rooted(all, r)
    ensures Leftovers(all, rows) == []
  {
    if rows != [] {
      NoLeftovers(all, rows[..|rows| - 1]);
    }
  }

  lemma ShuffledDistinct(rows: seq<ProgrammeRow>, shuffled: seq<ProgrammeRow>)
    requires DistinctIds(rows) && multiset(rows) == multiset(shuffled)
    ensures DistinctIds(shuffled)
  {
    forall i, j | 0 <= i < j < |shuffled| ensures shuffled[i].id != shuffled[j].id {
      var x, y := shuffled[i], shuffled[j];
      assert x in multiset(shuffled) && y in multiset(shuffled);
      if x.id == y.id {
        SameIdSameRow(rows, x, y);
        CountIsOne(rows, x);
        RepeatIsCounted(shuffled, i, j);
      }
    }
  }

  lemma RepeatIsCounted(s: seq<ProgrammeRow>, i: nat, j: nat)
    requires i < j < |s| && s[i] == s[j]
    ensures multiset(s)[s[i]] >= 2
  {
    assert s == s[..j] + [s[j]] + s[j + 1..];
    assert s[i] in s[..j];
  }

  lemma {:induction false} GrownTransfers(rows: seq<ProgrammeRow>, other: seq<ProgrammeRow>, f: Forest)
    requires Grown(rows, f)
    requires forall p :: Children(rows, p) == Children(other, p)
    ensures Grown(other, f)
  {
    match f
    case Bare =>
    case Plant(row, kids, rest) =>
      GrownTransfers(rows, other, kids);
      GrownTransfers(rows, other, rest);
  }
}
