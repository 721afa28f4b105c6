/** The iterative walk over a programme, proved to produce `Forest.TreeOrder`. */
module TreeWalk {
  import opened Base
  import opened Forest

  type ChildMap = map<Option<int>, seq<ProgrammeRow>>

  /** A parent with no entry in the map has no children. */
  function Group(children: ChildMap, p: Option<int>): seq<ProgrammeRow> {
    if p in children then children[p] else []
  }

  method GroupByParent(rows: seq<ProgrammeRow>) returns (children: ChildMap)
    ensures forall p :: Group(children, p) == Children(rows, p)
  {
    var present := Ids(rows);
    children := map[];
    for i := 0 to |rows|
      invariant forall p :: Group(children, p) == Under(present, rows[..i], p)
    {
      assert rows[..i + 1][..i] == rows[..i];
      var parent := EffectiveParent(present, rows[i]);
      children := children[parent := Group(children, parent) + [rows[i]]];
    }
    assert rows[..|rows|] == rows;

    var unsorted := children.Keys;
    while unsorted != {}
      invariant unsorted <= children.Keys
      invariant forall p :: p in unsorted ==> children[p] == Under(present, rows, p)
      invariant forall p :: p !in unsorted ==> Group(children, p) == Children(rows, p)
    {
      var p :| p in unsorted;
      children := children[p := SortRows(children[p])];
      unsorted := unsorted - {p};
    }
  }

  /** Pushes every child of a row, last child first, so that the first is popped next. */
  method PushAll(stack: seq<ProgrammeRow>, kids: seq<ProgrammeRow>) returns (grown: seq<ProgrammeRow>)
    ensures grown == stack + Reverse(kids)
  {
    grown := stack;
    for j := |kids| downto 0
      invariant grown == stack + Reverse(kids[j..])
    {
      assert kids[j..] == [kids[j]] + kids[j + 1..];
      grown := grown + [kids[j]];
    }
    assert kids[0..] == kids;
  }

  /** `pending` lists, from the top of the stack down, the subtrees still to be walked. */
  ghost predicate WalkState(rows: seq<ProgrammeRow>, all: seq<ProgrammeRow>,
      out: seq<ProgrammeRow>, emitted: set<int>, stack: seq<ProgrammeRow>, pending: Forest)
  {
    && DistinctIds(all)
    && Grown(rows, pending)
    && stack == Reverse(Roots(pending))
    && out + Flatten(pending) == all
    && emitted == Ids(out)
  }

  /** The stack loop: from the roots down, until nothing is left to pop. */
  method Walk(rows: seq<ProgrammeRow>, children: ChildMap)
    returns (out: seq<ProgrammeRow>, emitted: set<int>)
    requires DistinctIds(rows)
    requires forall p :: Group(children, p) == Children(rows, p)
    ensures out == Flatten(ForestOf(rows)) && emitted == Ids(out)
  {
    ghost var pending := ForestOf(rows);
    ghost var all := Flatten(pending);
    PreorderSpec(rows);
    out := [];
    emitted := {};
    var stack := Reverse(Group(children, None));
    while stack != []
      invariant WalkState(rows, all, out, emitted, stack, pending)
      decreases |all| - |out|
    {
      WalkStep(rows, all, out, emitted, stack, pending);
      var row := stack[|stack| - 1];
      stack := stack[..|stack| - 1];
      if row.id in emitted {
        assert false;
      } else {
        emitted := emitted + {row.id};
        out := out + [row];
        stack := PushAll(stack, Group(children, Some(row.id)));
        pending := Append(pending.kids, pending.rest);
      }
    }
    assert |Roots(pending)| == |stack|;
  }

  lemma WalkStep(rows: seq<ProgrammeRow>, all: seq<ProgrammeRow>,
      out: seq<ProgrammeRow>, emitted: set<int>, stack: seq<ProgrammeRow>, pending: Forest)
    requires WalkState(rows, all, out, emitted, stack, pending) && stack != []
    ensures var row := stack[|stack| - 1];
      && pending.Plant? && row.id !in emitted && |out| < |all|
      && WalkState(rows, all, out + [row], emitted + {row.id},
           stack[..|stack| - 1] + Reverse(Children(rows, Some(row.id))), Append(pending.kids, pending.rest))
  {
    assert |Roots(pending)| == |stack|;
    var row, kids, rest := pending.row, pending.kids, pending.rest;
    AppendSpec(rows, kids, rest);
    ReverseAppend([row], Roots(rest));
    ReverseAppend(Roots(kids), Roots(rest));
    assert Flatten(pending) == [row] + (Flatten(kids) + Flatten(rest));
    NotYetEmitted(out, row, Flatten(kids) + Flatten(rest));
    AddsOneId(out, row);
  }

  lemma ReverseAppend<T>(a: seq<T>, b: seq<T>)
    ensures Reverse(a + b) == Reverse(b) + Reverse(a)
  {
  }

  lemma NotYetEmitted(out: seq<ProgrammeRow>, row: ProgrammeRow, later: seq<ProgrammeRow>)
    requires DistinctIds(out + ([row] + later))
    ensures row.id !in Ids(out)
    ensures out + ([row] + later) == (out + [row]) + later
  {
    var all := out + ([row] + later);
    assert all[|out|] == row;
    forall r | r in out ensures r.id != row.id {
      var i :| 0 <= i < |out| && out[i] == r;
      assert all[i].id != all[|out|].id;
    }
  }

  /** Walks the programme parent-first, depth-first, and appends what a cycle keeps out of reach. */
  method InTreeOrder(rows: seq<ProgrammeRow>) returns (out: seq<ProgrammeRow>)
    requires DistinctIds(rows)
    ensures out == TreeOrder(rows)
  {
    var children := GroupByParent(rows);
    var emitted;
    out, emitted := Walk(rows, children);
    for i := 0 to |rows|
      invariant out == Flatten(ForestOf(rows)) + Leftovers(rows, rows[..i])
    {
      assert rows[..i + 1][..i] == rows[..i];
      EmittedMeansRooted(rows, rows[i]);
      if rows[i].id !in emitted {
        out := out + [rows[i]];
      }
    }
    assert rows[..|rows|] == rows;
  }

  lemma AddsOneId(out: seq<ProgrammeRow>, row: ProgrammeRow)
    ensures Ids(out + [row]) == Ids(out) + {row.id}
  {
  }

  lemma EmittedMeansRooted(rows: seq<ProgrammeRow>, r: ProgrammeRow)
    requires DistinctIds(rows) && r in rows
    ensures r.id in Ids(Flatten(ForestOf(rows))) <==> Rooted(rows, r)
  {
    PreorderSpec(rows);
    if r.id in Ids(Flatten(ForestOf(rows))) {
      var x :| x in Flatten(ForestOf(rows)) && x.id == r.id;
      SameIdSameRow(rows, x, r);
    }
  }
}
