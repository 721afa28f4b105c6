/** Which requests are accepted, and what an accepted one does to its job's programme, row by row. */
module CallForwardEffects {
  import opened Base
  import opened Text
  import opened CallForwardItem
  import opened Forest
  import opened CallForwardService

  // ----- Which requests are accepted -----

  lemma InputAcceptedIff(i: Input)
    ensures ValidateInput(i).Ok? <==>
      && !IsBlank(i.title) && Utf8Len(i.title) <= 500
      && (i.supplierTrade.Some? ==> Utf8Len(i.supplierTrade.value) <= 150)
      && (i.estStart.Some? && i.estFinish.Some? ==> i.estStart.value <= i.estFinish.value)
      && (i.actualStart.Some? && i.actualFinish.Some? ==> i.actualStart.value <= i.actualFinish.value)
  {
  }

  /** A parent is a header on the same job and another item, and what hangs below it is no header. */
  predicate LinkAllowed(items: Items, isHeader: bool, id: Option<int>, parentId: Option<int>, job: int) {
    parentId.Some? ==>
      && parentId.value in items && id != parentId && !isHeader
      && items[parentId.value].job == job && items[parentId.value].itemType == Header
  }

  lemma CreateAcceptedIff(items: Items, visible: set<int>, job: int, input: Input)
    ensures CreateVerdict(items, visible, job, input).Ok? <==>
      && ValidateInput(input).Ok? && job in visible
      && LinkAllowed(items, input.itemType == Some(Header), None, input.parentId, job)
  {
  }

  lemma UpdateAcceptedIff(items: Items, visible: set<int>, id: int, input: Input)
    ensures UpdateVerdict(items, visible, id, input).Ok? <==>
      && id in items && items[id].job in visible && ValidateInput(input).Ok?
      && LinkAllowed(items, input.itemType == Some(Header) || (input.itemType.None? && items[id].itemType == Header),
           Some(id), input.parentId, items[id].job)
  {
  }

  /** An entry's parent is an earlier entry of the request, or a stored item. */
  ghost predicate EntryAllowed(items: Items, job: int, entries: seq<Entry>, k: nat)
    requires k < |entries|
  {
    var e := entries[k];
    && ValidateInput(e.input).Ok?
    && match e.localParent
       case Some(p) => p < k && entries[p].input.itemType == Some(Header) && e.input.itemType != Some(Header)
       case None => LinkAllowed(items, e.input.itemType == Some(Header), None, e.input.parentId, job)
  }

  lemma BulkAcceptedIff(items: Items, visible: set<int>, job: int, entries: seq<Entry>)
    ensures BulkCreateVerdict(items, visible, job, entries).Ok? <==>
      && 0 < |entries| <= 500 && job in visible
      && forall k: nat :: k < |entries| ==> EntryAllowed(items, job, entries, k)
  {
    BulkVerdictSpec(items, job, entries, 0);
    forall k: nat | k < |entries|
      ensures EntryFault(items, job, entries, k).Ok? <==> EntryAllowed(items, job, entries, k)
    {
    }
  }

  // ----- What an accepted request does -----

  /** The row says what the input says, with `otherwise` for the type it does not give. */
  predicate RowSays(r: ProgrammeRow, input: Input, otherwise: string) {
    && r.title == input.title && r.supplierTrade == input.supplierTrade
    && r.itemType == match input.itemType
                     case Some(Header) => "HEADER"
                     case Some(StageClaim) => "STAGE_CLAIM"
                     case Some(Task) => "TASK"
                     case None => otherwise
  }

  /** The row is shown below the row with the id `parentId`, or at the top if there is none. */
  ghost predicate ShownUnder(rows: seq<ProgrammeRow>, r: ProgrammeRow, parentId: Option<int>) {
    match parentId
    case None => ParentRow(rows, r) == None
    case Some(p) => exists q :: q in rows && q.id == p && ParentRow(rows, r) == Some(q)
  }

  /** Where a created row goes if the input does not say: after every older row, by one. */
  ghost predicate ShownAfter(rows: seq<ProgrammeRow>, r: ProgrammeRow) {
    && (forall x :: Older(rows, x, r) ==> x.sortOrder < r.sortOrder)
    && if exists x :: Older(rows, x, r)
       then exists x :: Older(rows, x, r) && x.sortOrder == r.sortOrder - 1
       else r.sortOrder == 0
  }

  predicate Older(rows: seq<ProgrammeRow>, x: ProgrammeRow, r: ProgrammeRow) {
    x in rows && x.id < r.id
  }

  /** `r` is the only row with its id. */
  ghost predicate OnlyRow(rows: seq<ProgrammeRow>, r: ProgrammeRow) {
    r in rows && forall x :: x in rows && x.id == r.id ==> x == r
  }

  /** A row made by creating from `input` below `parentId`. */
  ghost predicate ShownAsCreated(rows: seq<ProgrammeRow>, r: ProgrammeRow, input: Input, parentId: Option<int>) {
    && OnlyRow(rows, r) && RowSays(r, input, "TASK") && ShownUnder(rows, r, parentId)
    && match input.sortOrder
       case Some(o) => r.sortOrder == o
       case None => ShownAfter(rows, r)
  }

  lemma LinkIsShown(items: Items, n: nat, id: int)
    requires Sound(items, n) && id in items
    ensures var rows := ProgrammeOf(items, n, items[id].job);
      OnlyRow(rows, RowOf(id, items[id])) && ShownUnder(rows, RowOf(id, items[id]), items[id].parentId)
  {
    var rows, r := ProgrammeOf(items, n, items[id].job), RowOf(id, items[id]);
    ProgrammeSpec(items, n, items[id].job);
    assert LinkOk(items, id);
    if items[id].parentId.Some? {
      var p := items[id].parentId.value;
      assert RowOf(p, items[p]) in rows;
      assert p in Ids(rows);
    }
  }

  lemma OrderIsShown(items: Items, n: nat, id: int)
    requires Sound(items, n) && id in items && ComesLast(items, id)
    ensures ShownAfter(ProgrammeOf(items, n, items[id].job), RowOf(id, items[id]))
  {
    var rows, r, job := ProgrammeOf(items, n, items[id].job), RowOf(id, items[id]), items[id].job;
    ProgrammeSpec(items, n, job);
    forall x | Older(rows, x, r) ensures Before(items, x.id, id, job) {
    }
    forall x | Before(items, x, id, job) ensures Older(rows, RowOf(x, items[x]), r) {
    }
  }

  lemma CreationIsShown(items: Items, n: nat, id: int, job: int, input: Input, parentId: Option<int>)
    requires Sound(items, n) && Created(items, id, job, input, parentId)
    ensures ShownAsCreated(ProgrammeOf(items, n, job), RowOf(id, items[id]), input, parentId)
  {
    LinkIsShown(items, n, id);
    if input.sortOrder.None? { OrderIsShown(items, n, id); }
  }

  /** Where the items below `n` agree, so do the rows. */
  lemma SameRows(before: Items, after: Items, n: nat, m: nat, job: int, lo: int, hi: int)
    requires Sound(before, n) && Sound(after, m)
    requires forall x :: x < lo || x >= hi ==> SameAt(before, after, x)
    ensures forall r: ProgrammeRow :: r.id < lo || r.id >= hi ==>
      (r in ProgrammeOf(after, m, job) <==> r in ProgrammeOf(before, n, job))
  {
    ProgrammeSpec(before, n, job);
    ProgrammeSpec(after, m, job);
    forall r: ProgrammeRow | r.id < lo || r.id >= hi
      ensures r in ProgrammeOf(after, m, job) <==> r in ProgrammeOf(before, n, job)
    {
      assert SameAt(before, after, r.id);
    }
  }

  lemma OtherJobsStay(before: Items, after: Items, n: nat, m: nat, job: int, lo: int, hi: int)
    requires Sound(before, n) && Sound(after, m)
    requires forall x :: x < lo || x >= hi ==> SameAt(before, after, x)
    requires forall x :: lo <= x < hi ==> (x in before ==> before[x].job != job) && (x in after ==> after[x].job != job)
    ensures ProgrammeOf(after, m, job) == ProgrammeOf(before, n, job)
  {
    SameRows(before, after, n, m, job, lo, hi);
    ProgrammeSpec(before, n, job);
    ProgrammeSpec(after, m, job);
    SortedListsAgree(ProgrammeOf(after, m, job), ProgrammeOf(before, n, job));
  }

  /** An accepted creation adds one row, with the id it answers, and touches no other. */
  lemma CreateShows(items: Items, n: nat, visible: set<int>, job: int, input: Input) returns (r: ProgrammeRow)
    requires Sound(items, n) && n > 0 && CreateVerdict(items, visible, job, input).Ok?
    ensures var s := Next(State(items, n), Create(visible, job, input));
      var before, after := ProgrammeOf(items, n, job), ProgrammeOf(s.items, s.nextId, job);
      && r.id == n && ShownAsCreated(after, r, input, input.parentId)
      && (forall x :: x in after <==> x in before || x == r)
      && forall other :: other != job ==> ProgrammeOf(s.items, s.nextId, other) == ProgrammeOf(items, n, other)
  {
    var s := Next(State(items, n), Create(visible, job, input));
    CreateKeepsSound(items, n, visible, job, input);
    NewItemIsCreated(items, n, job, input, input.parentId);
    r := RowOf(n, s.items[n]);
    CreationIsShown(s.items, n + 1, n, job, input, input.parentId);
    assert forall x :: x < n || x >= n + 1 ==> SameAt(items, s.items, x);
    SameRows(items, s.items, n, n + 1, job, n, n + 1);
    ProgrammeSpec(items, n, job);
    forall other | other != job ensures ProgrammeOf(s.items, n + 1, other) == ProgrammeOf(items, n, other) {
      OtherJobsStay(items, s.items, n, n + 1, other, n, n + 1);
    }
  }

  /** Entry `k` has its row, with the `k`-th new id; its parent is an earlier entry's row or the one it names. */
  ghost predicate EntryShown(rows: seq<ProgrammeRow>, n: nat, entries: seq<Entry>, k: nat)
    requires k < |entries|
  {
    var parentId := match entries[k].localParent case Some(p) => Some(n + p) case None => entries[k].input.parentId;
    exists r: ProgrammeRow :: r.id == n + k && ShownAsCreated(rows, r, entries[k].input, parentId)
  }

  ghost predicate EntriesShown(rows: seq<ProgrammeRow>, n: nat, entries: seq<Entry>) {
    forall k: nat :: k < |entries| ==> EntryShown(rows, n, entries, k)
  }

  lemma EntriesAreShown(items: Items, n: nat, job: int, entries: seq<Entry>, now: Items, m: nat)
    requires Sound(now, m) && BatchCreated(items, n, job, entries, |entries|, now)
    ensures EntriesShown(ProgrammeOf(now, m, job), n, entries)
  {
    forall k: nat | k < |entries| ensures EntryShown(ProgrammeOf(now, m, job), n, entries, k) {
      assert EntryCreated(now, n, job, entries, k);
      var parentId := match entries[k].localParent case Some(p) => Some(n + p) case None => entries[k].input.parentId;
      CreationIsShown(now, m, n + k, job, entries[k].input, parentId);
    }
  }

  /** The rows there were and those of other jobs are as before, and the new ones have the new ids. */
  ghost predicate OnlyAdded(items: Items, n: nat, job: int, now: Items, m: nat) {
    && (forall x :: x in ProgrammeOf(items, n, job) <==> x in ProgrammeOf(now, m, job) && x.id < n)
    && (forall x :: x in ProgrammeOf(now, m, job) ==> x.id < m)
    && forall other :: other != job ==> ProgrammeOf(now, m, other) == ProgrammeOf(items, n, other)
  }

  lemma BatchOnlyAdds(items: Items, n: nat, job: int, entries: seq<Entry>, now: Items)
    requires Sound(items, n) && Sound(now, n + |entries|) && BatchCreated(items, n, job, entries, |entries|, now)
    ensures OnlyAdded(items, n, job, now, n + |entries|)
  {
    var m := n + |entries|;
    SameRows(items, now, n, m, job, n, m);
    ProgrammeSpec(items, n, job);
    ProgrammeSpec(now, m, job);
    forall other | other != job ensures ProgrammeOf(now, m, other) == ProgrammeOf(items, n, other) {
      forall x | n <= x < m ensures x in now && now[x].job == job {
        assert EntryCreated(now, n, job, entries, x - n);
      }
      OtherJobsStay(items, now, n, m, other, n, m);
    }
  }

  lemma BatchIsShown(items: Items, n: nat, job: int, entries: seq<Entry>, now: Items, m: nat)
    requires Sound(items, n) && Sound(now, m) && m == n + |entries|
    requires BatchCreated(items, n, job, entries, |entries|, now)
    ensures OnlyAdded(items, n, job, now, m) && EntriesShown(ProgrammeOf(now, m, job), n, entries)
  {
    EntriesAreShown(items, n, job, entries, now, m);
    BatchOnlyAdds(items, n, job, entries, now);
  }

  /** An accepted bulk request adds a row for every entry and touches no other. */
  lemma BulkShows(items: Items, n: nat, visible: set<int>, job: int, entries: seq<Entry>)
    requires Sound(items, n) && n > 0 && BulkCreateVerdict(items, visible, job, entries).Ok?
    ensures var s := Next(State(items, n), CreateBulk(visible, job, entries));
      && s.nextId == n + |entries| && OnlyAdded(items, n, job, s.items, s.nextId)
      && EntriesShown(ProgrammeOf(s.items, s.nextId, job), n, entries)
  {
    var s := Next(State(items, n), CreateBulk(visible, job, entries));
    BatchIsSound(items, n, visible, job, entries);
    BatchIsShown(items, n, job, entries, s.items, s.nextId);
  }

  lemma BatchIsSound(items: Items, n: nat, visible: set<int>, job: int, entries: seq<Entry>)
    requires Sound(items, n) && n > 0 && BulkCreateVerdict(items, visible, job, entries).Ok?
    ensures var now := AfterBulk(items, n, job, entries, |entries|);
      Sound(now, n + |entries|) && BatchCreated(items, n, job, entries, |entries|, now)
  {
    AcceptedBatch(items, job, entries);
    BulkKeepsSound(items, n, job, entries, |entries|);
    BatchIsCreated(items, n, job, entries, |entries|);
  }

  /** An accepted update rewrites its own row as asked, keeps what the input leaves open, and touches no other. */
  lemma UpdateShows(items: Items, n: nat, visible: set<int>, id: int, input: Input)
    returns (was: ProgrammeRow, now: ProgrammeRow)
    requires Sound(items, n) && UpdateVerdict(items, visible, id, input).Ok?
    ensures var job, s := items[id].job, Next(State(items, n), Update(visible, id, input));
      var before, after := ProgrammeOf(items, n, job), ProgrammeOf(s.items, s.nextId, job);
      && was.id == now.id == id && OnlyRow(before, was) && OnlyRow(after, now)
      && RowSays(now, input, was.itemType) && ShownUnder(after, now, input.parentId)
      && now.sortOrder == (match input.sortOrder case Some(o) => o case None => was.sortOrder)
      && (forall x: ProgrammeRow :: x.id != id ==> (x in after <==> x in before))
      && forall other :: other != job ==> ProgrammeOf(s.items, s.nextId, other) == ProgrammeOf(items, n, other)
  {
    var job, s := items[id].job, Next(State(items, n), Update(visible, id, input));
    UpdateKeepsSound(items, n, visible, id, input);
    was, now := RowOf(id, items[id]), RowOf(id, s.items[id]);
    LinkIsShown(items, n, id);
    LinkIsShown(s.items, n, id);
    assert forall x :: x < id || x >= id + 1 ==> SameAt(items, s.items, x);
    SameRows(items, s.items, n, n, job, id, id + 1);
    forall other | other != job ensures ProgrammeOf(s.items, n, other) == ProgrammeOf(items, n, other) {
      OtherJobsStay(items, s.items, n, n, other, id, id + 1);
    }
  }
}
