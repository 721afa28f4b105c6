/** The operations that build a job's programme, and what every run of them keeps true. */
module CallForwardService {
  import opened Base
  import opened Text
  import opened CallForwardItem
  import opened Forest
  import opened Templates

  // ----- Input checks -----

  /** Dates are day numbers. */
  datatype Input = Input(
    title: string,
    itemType: Option<ItemType>,
    supplierTrade: Option<string>,
    estStart: Option<int>,
    estFinish: Option<int>,
    actualStart: Option<int>,
    actualFinish: Option<int>,
    sortOrder: Option<int>,
    parentId: Option<int>)

  datatype ServiceError =
    | TitleRequired | TitleTooLong | TradeTooLong | EstimateInverted | ActualInverted
    | NoSuchParent | BadParent(fault: ParentFault)
    | NoSuchJob | NoSuchItem
    | EmptyList | TooManyInList | LocalParentNotEarlier
    | NoName | BadTemplate(reason: Fault)

  /** The limits count bytes of UTF-8. */
  function ValidateInput(i: Input): Result<(), ServiceError> {
    if IsBlank(i.title) then Err(TitleRequired)
    else if Utf8Len(i.title) > 500 then Err(TitleTooLong)
    else if i.supplierTrade.Some? && Utf8Len(i.supplierTrade.value) > 150 then Err(TradeTooLong)
    else if i.estStart.Some? && i.estFinish.Some? && i.estStart.value > i.estFinish.value then Err(EstimateInverted)
    else if i.actualStart.Some? && i.actualFinish.Some? && i.actualStart.value > i.actualFinish.value
    then Err(ActualInverted)
    else Ok(())
  }

  /**
   * The limits are worded in characters. A title is refused as too long exactly if it takes more
   * than 500 bytes: never up to 125 characters, always beyond 500, and in between as worded only
   * if it takes no more than 500 bytes all the same, as plain ASCII does.
   */
  lemma TitleLimitCountsBytes(i: Input)
    requires !IsBlank(i.title)
    ensures var refused, worded := ValidateInput(i) == Err(TitleTooLong), |i.title| > 500;
      && (refused <==> Utf8Len(i.title) > 500)
      && (|i.title| <= 125 ==> !refused) && (worded ==> refused)
      && (refused == worded <==> worded || Utf8Len(i.title) <= 500)
      && (IsAscii(i.title) ==> refused == worded)
  {
    Utf8LenBounds(i.title);
  }

  /** The same for a trade, worded as 150 characters, once the title is accepted. */
  lemma TradeLimitCountsBytes(i: Input)
    requires i.supplierTrade.Some? && !IsBlank(i.title) && Utf8Len(i.title) <= 500
    ensures var trade := i.supplierTrade.value;
      var refused, worded := ValidateInput(i) == Err(TradeTooLong), |trade| > 150;
      && (refused <==> Utf8Len(trade) > 150)
      && (|trade| <= 37 ==> !refused) && (worded ==> refused)
      && (refused == worded <==> worded || Utf8Len(trade) <= 150)
      && (IsAscii(trade) ==> refused == worded)
  {
    Utf8LenBounds(i.supplierTrade.value);
  }

  /** A title well within 500 characters that is refused: 251 letters of two bytes each. */
  lemma ShortTitleIsRefused() returns (i: Input)
    ensures |i.title| == 251 && !IsBlank(i.title) && ValidateInput(i) == Err(TitleTooLong)
  {
    var title := seq(251, _ => '\U{00E9}');
    i := Input(title, None, None, None, None, None, None, None, None);
    assert title[0] == title[|title| - 1] == '\U{00E9}' && !IsWhitespace('\U{00E9}');
    Utf8LenBounds(title);
  }

  function TypeOr(i: Input, otherwise: ItemType): ItemType {
    if i.itemType.Some? then i.itemType.value else otherwise
  }

  // ----- The stored items -----

  datatype Item = Item(
    job: int,
    title: string,
    itemType: ItemType,
    supplierTrade: Option<string>,
    sortOrder: int,
    parentId: Option<int>)

  type Items = map<int, Item>

  function CheckParent(items: Items, childType: ItemType, childId: Option<int>, parentId: Option<int>, job: int)
    : Result<(), ServiceError>
  {
    if parentId.None? then Ok(())
    else if parentId.value !in items then Err(NoSuchParent)
    else
      var p := items[parentId.value];
      match ValidateParent(childType, childId, Some(ParentInfo(parentId.value, p.itemType, p.job)), job)
      case Ok(_) => Ok(())
      case Err(fault) => Err(BadParent(fault))
  }

  /** The largest sort order on the job, among the ids below `n`. */
  function MaxSort(items: Items, job: int, n: nat): (m: Option<int>)
    ensures forall id :: 0 <= id < n && id in items && items[id].job == job ==>
      m.Some? && items[id].sortOrder <= m.value
    ensures m.Some? ==> exists id ::
      0 <= id < n && id in items && items[id].job == job && items[id].sortOrder == m.value
  {
    if n == 0 then None
    else
      var rest := MaxSort(items, job, n - 1);
      if n - 1 in items && items[n - 1].job == job && (rest.None? || items[n - 1].sortOrder > rest.value)
      then Some(items[n - 1].sortOrder)
      else rest
  }

  /** Where an item without a sort order of its own goes: after everything on the job. */
  function NextSort(items: Items, job: int, n: nat): int {
    match MaxSort(items, job, n)
    case None => 0
    case Some(m) => m + 1
  }

  /** The row an input becomes when it is inserted under `parent`. */
  function NewItem(items: Items, n: nat, job: int, input: Input, parent: Option<int>): Item {
    Item(job, input.title, TypeOr(input, Task), input.supplierTrade,
      if input.sortOrder.Some? then input.sortOrder.value else NextSort(items, job, n), parent)
  }

  function UpdatedItem(old_: Item, input: Input): Item {
    Item(old_.job, input.title, TypeOr(input, old_.itemType), input.supplierTrade,
      if input.sortOrder.Some? then input.sortOrder.value else old_.sortOrder, input.parentId)
  }

  datatype Entry = Entry(input: Input, localParent: Option<nat>)

  /** What is wrong with entry `i` of a bulk request, given the items already stored. */
  function EntryFault(items: Items, job: int, entries: seq<Entry>, i: nat): Result<(), ServiceError>
    requires i < |entries|
  {
    var e := entries[i];
    var childType := TypeOr(e.input, Task);
    if ValidateInput(e.input).Err? then ValidateInput(e.input)
    else match e.localParent
      case None => CheckParent(items, childType, None, e.input.parentId, job)
      case Some(p) =>
        if p >= i then Err(LocalParentNotEarlier)
        else
          match ValidateParent(childType, None, Some(ParentInfo(0, TypeOr(entries[p].input, Task), job)), job)
          case Ok(_) => Ok(())
          case Err(fault) => Err(BadParent(fault))
  }

  /** The first fault among entries `i..`. */
  function BulkVerdict(items: Items, job: int, entries: seq<Entry>, i: nat): Result<(), ServiceError>
    requires i <= |entries|
    decreases |entries| - i
  {
    if i == |entries| then Ok(())
    else if EntryFault(items, job, entries, i).Err? then EntryFault(items, job, entries, i)
    else BulkVerdict(items, job, entries, i + 1)
  }

  /** The items after the first `k` entries are inserted; entry `j` gets id `n + j`. */
  function AfterBulk(items: Items, n: nat, job: int, entries: seq<Entry>, k: nat): Items
    requires k <= |entries|
  {
    if k == 0 then items
    else
      var before := AfterBulk(items, n, job, entries, k - 1);
      before[n + (k - 1) := BatchRow(before, n, job, entries, k - 1)]
  }

  /** The row of entry `k`, inserted when its predecessors already are. */
  function BatchRow(now: Items, n: nat, job: int, entries: seq<Entry>, k: nat): Item
    requires k < |entries|
  {
    var e := entries[k];
    var parent := if e.localParent.Some? then Some(n + e.localParent.value) else e.input.parentId;
    NewItem(now, n + k, job, e.input, parent)
  }

  // ----- What a request asks to be stored -----

  /** An item says what the input says, with `otherwise` for the type it does not give. */
  predicate SaysInput(item: Item, input: Input, otherwise: ItemType) {
    && item.title == input.title && item.supplierTrade == input.supplierTrade
    && item.itemType == (match input.itemType case Some(t) => t case None => otherwise)
  }

  /** After everything with a smaller id on the job, by one; first of all if there is nothing. */
  ghost predicate ComesLast(items: Items, id: int)
    requires id in items
  {
    var job, o := items[id].job, items[id].sortOrder;
    && (forall x :: Before(items, x, id, job) ==> items[x].sortOrder < o)
    && if exists x :: Before(items, x, id, job)
       then exists x :: Before(items, x, id, job) && items[x].sortOrder == o - 1
       else o == 0
  }

  /** An item on the job that was there before the id `id` was handed out. */
  predicate Before(items: Items, x: int, id: int, job: int) {
    0 <= x < id && x in items && items[x].job == job
  }

  /** The item that creating from `input` stores. */
  ghost predicate Created(items: Items, id: int, job: int, input: Input, parentId: Option<int>) {
    && id in items && items[id].job == job && items[id].parentId == parentId
    && SaysInput(items[id], input, Task)
    && match input.sortOrder
       case Some(o) => items[id].sortOrder == o
       case None => ComesLast(items, id)
  }

  lemma NewItemIsCreated(items: Items, n: nat, job: int, input: Input, parentId: Option<int>)
    ensures Created(items[n := NewItem(items, n, job, input, parentId)], n, job, input, parentId)
  {
    if input.sortOrder.None? {
      var after := items[n := NewItem(items, n, job, input, parentId)];
      assert forall x :: Before(after, x, n, job) <==> Before(items, x, n, job);
      match MaxSort(items, job, n)
      case None =>
      case Some(m) =>
        var x :| 0 <= x < n && x in items && items[x].job == job && items[x].sortOrder == m;
        assert Before(after, x, n, job) && after[x].sortOrder == after[n].sortOrder - 1;
    }
  }

  /** Entry `j` is stored under its local parent's new id, or under the stored item it names. */
  ghost predicate EntryCreated(items: Items, n: nat, job: int, entries: seq<Entry>, j: nat)
    requires j < |entries|
  {
    var parentId := match entries[j].localParent case Some(p) => Some(n + p) case None => entries[j].input.parentId;
    Created(items, n + j, job, entries[j].input, parentId)
  }

  /** The first `k` entries are stored with the ids from `n` up, and every other item is what it was. */
  ghost predicate BatchCreated(before: Items, n: nat, job: int, entries: seq<Entry>, k: nat, now: Items)
    requires k <= |entries|
  {
    && (forall j: nat :: j < k ==> EntryCreated(now, n, job, entries, j))
    && (forall x :: x < n || x >= n + k ==> SameAt(before, now, x))
  }

  predicate SameAt(before: Items, now: Items, x: int) {
    (x in now <==> x in before) && (x in now ==> now[x] == before[x])
  }

  lemma CreatedStays(items: Items, id: int, job: int, input: Input, parentId: Option<int>, n: nat, item: Item)
    requires Created(items, id, job, input, parentId) && id < n
    ensures Created(items[n := item], id, job, input, parentId)
  {
    var after := items[n := item];
    assert forall x :: Before(after, x, id, job) <==> Before(items, x, id, job);
    if input.sortOrder.None? && exists x :: Before(items, x, id, job) {
      var x :| Before(items, x, id, job) && items[x].sortOrder == items[id].sortOrder - 1;
      assert Before(after, x, id, job) && after[x].sortOrder == after[id].sortOrder - 1;
    }
  }

  lemma EntryStays(items: Items, n: nat, job: int, entries: seq<Entry>, j: nat, id: nat, item: Item)
    requires j < |entries| && n + j < id && EntryCreated(items, n, job, entries, j)
    ensures EntryCreated(items[id := item], n, job, entries, j)
  {
    var parentId := match entries[j].localParent case Some(p) => Some(n + p) case None => entries[j].input.parentId;
    CreatedStays(items, n + j, job, entries[j].input, parentId, id, item);
  }

  lemma OneMoreCreated(before: Items, n: nat, job: int, entries: seq<Entry>, k: nat, now: Items)
    requires k < |entries| && BatchCreated(before, n, job, entries, k, now)
    ensures BatchCreated(before, n, job, entries, k + 1, now[n + k := BatchRow(now, n, job, entries, k)])
  {
    var row := BatchRow(now, n, job, entries, k);
    var next := now[n + k := row];
    NewItemIsCreated(now, n + k, job, entries[k].input, row.parentId);
    assert EntryCreated(next, n, job, entries, k);
    forall j: nat | j <= k ensures EntryCreated(next, n, job, entries, j) {
      if j < k { EntryStays(now, n, job, entries, j, n + k, row); }
    }
    forall x | x < n || x >= n + k + 1 ensures SameAt(before, next, x) {
      assert SameAt(before, now, x);
    }
  }

  lemma {:induction false} BatchIsCreated(items: Items, n: nat, job: int, entries: seq<Entry>, k: nat)
    requires k <= |entries|
    ensures BatchCreated(items, n, job, entries, k, AfterBulk(items, n, job, entries, k))
  {
    if k > 0 {
      BatchIsCreated(items, n, job, entries, k - 1);
      OneMoreCreated(items, n, job, entries, k - 1, AfterBulk(items, n, job, entries, k - 1));
    }
  }

  // ----- The job's programme -----

  function RowOf(id: int, item: Item): ProgrammeRow {
    ProgrammeRow(id, item.parentId, item.title, ItemTypeName(item.itemType), item.supplierTrade, item.sortOrder)
  }

  /** The job's rows among the ids below `n`, by sort order and id. */
  function ProgrammeOf(items: Items, n: nat, job: int): seq<ProgrammeRow> {
    if n == 0 then []
    else
      var rest := ProgrammeOf(items, n - 1, job);
      if n - 1 in items && items[n - 1].job == job then Insert(rest, RowOf(n - 1, items[n - 1])) else rest
  }

  // ----- The service -----

  class Service {
    var items: Items
    /** The next id the database hands out. */
    var nextId: nat

    constructor ()
      ensures items == map[] && nextId == 1
    {
      items, nextId := map[], 1;
    }

    /** `visible` are the jobs the caller can see. */
    method Create(visible: set<int>, job: int, input: Input) returns (r: Result<int, ServiceError>)
      modifies this
      ensures r == match CreateVerdict(old(items), visible, job, input)
                   case Ok(_) => Ok(old(nextId))
                   case Err(e) => Err(e)
      ensures r.Err? ==> items == old(items) && nextId == old(nextId)
      ensures r.Ok? ==> nextId == old(nextId) + 1
      ensures r.Ok? ==>
        items == old(items)[old(nextId) := NewItem(old(items), old(nextId), job, input, input.parentId)]
      ensures r.Ok? ==>
        && Created(items, old(nextId), job, input, input.parentId)
        && items == old(items)[old(nextId) := items[old(nextId)]]
    {
      var valid := ValidateInput(input);
      if valid.Err? {
        return Err(valid.error);
      }
      if job !in visible {
        return Err(NoSuchJob);
      }
      var link := CheckParent(items, TypeOr(input, Task), None, input.parentId, job);
      if link.Err? {
        return Err(link.error);
      }
      r := Ok(nextId);
      NewItemIsCreated(items, nextId, job, input, input.parentId);
      items := items[nextId := NewItem(items, nextId, job, input, input.parentId)];
      nextId := nextId + 1;
    }

    method CreateBulk(visible: set<int>, job: int, entries: seq<Entry>) returns (r: Result<seq<int>, ServiceError>)
      modifies this
      ensures var verdict := BulkCreateVerdict(old(items), visible, job, entries);
        if verdict.Err? then r == Err(verdict.error) && items == old(items) && nextId == old(nextId)
        else
          && r == Ok(seq(|entries|, i => old(nextId) + i))
          && items == AfterBulk(old(items), old(nextId), job, entries, |entries|)
          && BatchCreated(old(items), old(nextId), job, entries, |entries|, items)
          && nextId == old(nextId) + |entries|
    {
      if entries == [] {
        return Err(EmptyList);
      }
      if |entries| > 500 {
        return Err(TooManyInList);
      }
      if job !in visible {
        return Err(NoSuchJob);
      }
      var checked := CheckEntries(job, entries);
      if checked.Err? {
        return Err(checked.error);
      }
      AcceptedBatch(items, job, entries);
      forall i: nat | i < |entries| && entries[i].localParent.Some? ensures entries[i].localParent.value < i {
        assert EntryLinkOk(items, job, entries, i);
      }
      var created := InsertEntries(job, entries);
      return Ok(created);
    }

    method CheckEntries(job: int, entries: seq<Entry>) returns (r: Result<(), ServiceError>)
      ensures r == BulkVerdict(items, job, entries, 0)
    {
      for i := 0 to |entries|
        invariant BulkVerdict(items, job, entries, 0) == BulkVerdict(items, job, entries, i)
      {
        var fault := EntryFault(items, job, entries, i);
        if fault.Err? {
          return fault;
        }
      }
      return Ok(());
    }

    /** Inserts in order, so that a local parent always has its id already. */
    method InsertEntries(job: int, entries: seq<Entry>) returns (created: seq<int>)
      requires forall i: nat :: i < |entries| && entries[i].localParent.Some? ==> entries[i].localParent.value < i
      modifies this
      ensures created == seq(|entries|, i => old(nextId) + i)
      ensures items == AfterBulk(old(items), old(nextId), job, entries, |entries|)
      ensures BatchCreated(old(items), old(nextId), job, entries, |entries|, items)
      ensures nextId == old(nextId) + |entries|
    {
      created := [];
      for i := 0 to |entries|
        invariant created == seq(i, j => old(nextId) + j)
        invariant nextId == old(nextId) + i
        invariant items == AfterBulk(old(items), old(nextId), job, entries, i)
      {
        var e := entries[i];
        var parent := if e.localParent.Some? then Some(created[e.localParent.value]) else e.input.parentId;
        assert NewItem(items, nextId, job, e.input, parent) == BatchRow(items, old(nextId), job, entries, i);
        items := items[nextId := NewItem(items, nextId, job, e.input, parent)];
        created := created + [nextId];
        nextId := nextId + 1;
      }
      BatchIsCreated(old(items), old(nextId), job, entries, |entries|);
    }

    method Update(visible: set<int>, id: int, input: Input) returns (r: Result<(), ServiceError>)
      modifies this
      ensures nextId == old(nextId)
      ensures r == UpdateVerdict(old(items), visible, id, input)
      ensures items == if r.Ok? then old(items)[id := UpdatedItem(old(items)[id], input)] else old(items)
      ensures r.Ok? ==>
        && id in old(items) && id in items && items == old(items)[id := items[id]]
        && items[id].job == old(items)[id].job && items[id].parentId == input.parentId
        && SaysInput(items[id], input, old(items)[id].itemType)
        && items[id].sortOrder == (match input.sortOrder case Some(o) => o case None => old(items)[id].sortOrder)
    {
      if id !in items || items[id].job !in visible {
        return Err(NoSuchItem);
      }
      var valid := ValidateInput(input);
      if valid.Err? {
        return valid;
      }
      var existing := items[id];
      var link := CheckParent(items, TypeOr(input, existing.itemType), Some(id), input.parentId, existing.job);
      if link.Err? {
        return link;
      }
      items := items[id := UpdatedItem(existing, input)];
      return Ok(());
    }

    /** Captures a job's programme; what comes back is what is stored as a template. */
    method CreateTemplate(visible: set<int>, name: string, job: int)
      returns (r: Result<seq<TemplateItem>, ServiceError>)
      requires nextId <= I32_MAX
      ensures var rows := ProgrammeOf(items, nextId, job);
        && DistinctIds(rows)
        && r ==
          if IsBlank(name) then Err(NoName)
          else if job !in visible then Err(NoSuchJob)
          else match Verdict(CaptureOf(rows))
            case Ok(_) => Ok(CaptureOf(rows))
            case Err(fault) => Err(BadTemplate(fault))
    {
      ProgrammeSpec(items, nextId, job);
      if IsBlank(name) {
        return Err(NoName);
      }
      if job !in visible {
        return Err(NoSuchJob);
      }
      var rows := ProgrammeOf(items, nextId, job);
      var captured := Capture(rows);
      var verdict := ValidateItems(captured);
      if verdict.Err? {
        return Err(BadTemplate(verdict.error));
      }
      return Ok(captured);
    }
  }

  function CreateVerdict(items: Items, visible: set<int>, job: int, input: Input): Result<(), ServiceError> {
    if ValidateInput(input).Err? then ValidateInput(input)
    else if job !in visible then Err(NoSuchJob)
    else CheckParent(items, TypeOr(input, Task), None, input.parentId, job)
  }

  function BulkCreateVerdict(items: Items, visible: set<int>, job: int, entries: seq<Entry>): Result<(), ServiceError> {
    if entries == [] then Err(EmptyList)
    else if |entries| > 500 then Err(TooManyInList)
    else if job !in visible then Err(NoSuchJob)
    else BulkVerdict(items, job, entries, 0)
  }

  function UpdateVerdict(items: Items, visible: set<int>, id: int, input: Input): Result<(), ServiceError> {
    if id !in items || items[id].job !in visible then Err(NoSuchItem)
    else if ValidateInput(input).Err? then ValidateInput(input)
    else CheckParent(items, TypeOr(input, items[id].itemType), Some(id), input.parentId, items[id].job)
  }

  lemma {:induction false} BulkVerdictSpec(items: Items, job: int, entries: seq<Entry>, i: nat)
    requires i <= |entries|
    ensures BulkVerdict(items, job, entries, i).Ok? <==>
      forall j :: i <= j < |entries| ==> EntryFault(items, job, entries, j).Ok?
    decreases |entries| - i
  {
    if i < |entries| {
      BulkVerdictSpec(items, job, entries, i + 1);
    }
  }

  ghost predicate IsRowOf(items: Items, n: nat, job: int, r: ProgrammeRow) {
    0 <= r.id < n && r.id in items && items[r.id].job == job && r == RowOf(r.id, items[r.id])
  }

  lemma {:induction false} ProgrammeIs(items: Items, n: nat, job: int)
    ensures var rows := ProgrammeOf(items, n, job);
      StrictlySorted(rows) && DistinctIds(rows) && |rows| <= n
    ensures forall r :: r in ProgrammeOf(items, n, job) <==> IsRowOf(items, n, job, r)
  {
    if n > 0 {
      ProgrammeIs(items, n - 1, job);
      if n - 1 in items && items[n - 1].job == job {
        InsertKeepsOrder(ProgrammeOf(items, n - 1, job), RowOf(n - 1, items[n - 1]));
      }
    }
  }

  /** The job's rows and no others, each once, by sort order and id. */
  lemma ProgrammeSpec(items: Items, n: nat, job: int)
    ensures StrictlySorted(ProgrammeOf(items, n, job)) && DistinctIds(ProgrammeOf(items, n, job))
    ensures |ProgrammeOf(items, n, job)| <= n
    ensures forall r :: r in ProgrammeOf(items, n, job) <==>
      0 <= r.id < n && r.id in items && items[r.id].job == job && r == RowOf(r.id, items[r.id])
  {
    ProgrammeIs(items, n, job);
    assert forall r :: IsRowOf(items, n, job, r) <==>
      0 <= r.id < n && r.id in items && items[r.id].job == job && r == RowOf(r.id, items[r.id]);
  }

  lemma InsertKeepsOrder(s: seq<ProgrammeRow>, r: ProgrammeRow)
    requires StrictlySorted(s) && DistinctIds(s) && forall x :: x in s ==> x.id != r.id
    ensures StrictlySorted(Insert(s, r)) && DistinctIds(Insert(s, r)) && |Insert(s, r)| == |s| + 1
    ensures forall x :: x in Insert(s, r) <==> x in s || x == r
  {
    InsertSpec(s, r);
    InsertDistinct(s, r);
  }

  lemma {:induction false} InsertDistinct(s: seq<ProgrammeRow>, r: ProgrammeRow)
    requires DistinctIds(s) && forall x :: x in s ==> x.id != r.id
    ensures DistinctIds(Insert(s, r)) && |Insert(s, r)| == |s| + 1
    ensures forall x :: x in Insert(s, r) <==> x in s || x == r
  {
    if s != [] {
      assert s == [s[0]] + s[1..];
      assert forall i :: 0 <= i < |s[1..]| ==> s[1..][i] == s[i + 1];
      InsertDistinct(s[1..], r);
      if KeyLess(r, s[0]) {
        ConcatDistinct([r], s);
      } else {
        ConcatDistinct([s[0]], Insert(s[1..], r));
      }
    }
  }

  // ----- What every run keeps -----

  /** The rules the service enforces on one row at a time. */
  ghost predicate LinkOk(items: Items, id: int)
    requires id in items
  {
    var item := items[id];
    item.parentId.Some? ==>
      && item.itemType != Header
      && item.parentId.value != id
      && item.parentId.value in items
      && items[item.parentId.value].job == item.job
  }

  /** The chain of parents above an item ends within `n` links. */
  ghost predicate Ends(items: Items, id: int, n: nat)
    decreases n
  {
    id !in items || items[id].parentId.None? || (n > 0 && Ends(items, items[id].parentId.value, n - 1))
  }

  ghost predicate Sound(items: Items, nextId: nat) {
    && (forall id :: id in items ==> 0 < id < nextId && LinkOk(items, id))
    && (forall id :: id in items ==> exists n: nat :: Ends(items, id, n))
  }

  ghost predicate Titled(items: Items) {
    forall id :: id in items ==> !IsBlank(items[id].title)
  }

  /** Only headers have children; with `Sound` this makes the programme two levels deep at most. */
  ghost predicate OnlyHeadersParent(items: Items) {
    forall id :: id in items && items[id].parentId.Some? && items[id].parentId.value in items ==>
      items[items[id].parentId.value].itemType == Header
  }

  lemma {:induction false} EndsAfterInsert(items: Items, id: int, item: Item, x: int, n: nat)
    requires id !in items && x in items && Ends(items, x, n)
    requires forall k :: k in items ==> LinkOk(items, k)
    ensures Ends(items[id := item], x, n)
    decreases n
  {
    if items[x].parentId.Some? {
      EndsAfterInsert(items, id, item, items[x].parentId.value, n - 1);
    }
  }

  lemma InsertKeepsSound(items: Items, nextId: nat, item: Item)
    requires Sound(items, nextId) && nextId > 0
    requires item.parentId.Some? ==>
      item.itemType != Header && item.parentId.value in items && items[item.parentId.value].job == item.job
    ensures Sound(items[nextId := item], nextId + 1)
  {
    var after := items[nextId := item];
    forall id | id in after ensures exists n: nat :: Ends(after, id, n) {
      var below := if id == nextId && item.parentId.Some? then item.parentId.value else id;
      if below in items {
        var n: nat :| Ends(items, below, n);
        EndsAfterInsert(items, nextId, item, below, n);
        assert Ends(after, below, n);
        assert below != id ==> Ends(after, id, n + 1);
      } else {
        assert Ends(after, id, 0);
      }
    }
    forall id | id in after ensures LinkOk(after, id) {
      assert id in items ==> LinkOk(items, id);
    }
  }

  lemma CreateKeepsSound(items: Items, nextId: nat, visible: set<int>, job: int, input: Input)
    requires Sound(items, nextId) && nextId > 0 && CreateVerdict(items, visible, job, input).Ok?
    ensures Sound(items[nextId := NewItem(items, nextId, job, input, input.parentId)], nextId + 1)
  {
    InsertKeepsSound(items, nextId, NewItem(items, nextId, job, input, input.parentId));
  }

  /** The item an accepted entry's parent link names, before any of the batch is inserted. */
  ghost predicate EntryLinkOk(items: Items, job: int, entries: seq<Entry>, i: nat)
    requires i < |entries|
  {
    var e := entries[i];
    if e.localParent.Some? then
      e.localParent.value < i && TypeOr(e.input, Task) != Header
      && TypeOr(entries[e.localParent.value].input, Task) == Header
    else e.input.parentId.Some? ==>
      && TypeOr(e.input, Task) != Header
      && e.input.parentId.value in items
      && items[e.input.parentId.value].job == job && items[e.input.parentId.value].itemType == Header
  }

  lemma AcceptedEntry(items: Items, job: int, entries: seq<Entry>, i: nat)
    requires i < |entries| && EntryFault(items, job, entries, i).Ok?
    ensures EntryLinkOk(items, job, entries, i)
    ensures !IsBlank(entries[i].input.title)
  {
  }

  ghost predicate AllAccepted(items: Items, job: int, entries: seq<Entry>) {
    forall i: nat :: i < |entries| ==> EntryLinkOk(items, job, entries, i)
  }

  lemma AcceptedBatch(items: Items, job: int, entries: seq<Entry>)
    requires BulkVerdict(items, job, entries, 0).Ok?
    ensures AllAccepted(items, job, entries)
    ensures forall i :: 0 <= i < |entries| ==> !IsBlank(entries[i].input.title)
  {
    BulkVerdictSpec(items, job, entries, 0);
    forall i: nat | i < |entries| ensures EntryLinkOk(items, job, entries, i) && !IsBlank(entries[i].input.title) {
      AcceptedEntry(items, job, entries, i);
    }
  }

  /** Part of the way through a batch: the old items untouched, the first `k` entries added. */
  ghost predicate BatchSoFar(items: Items, n: nat, job: int, entries: seq<Entry>, k: nat, now: Items)
    requires k <= |entries|
  {
    && (forall id :: id in items ==> id in now && now[id] == items[id])
    && (forall id :: n <= id < n + k ==>
          id in now && now[id].job == job && now[id].itemType == TypeOr(entries[id - n].input, Task))
  }

  /** What the parent link of the next row points at once its predecessors are in. */
  lemma NextRowLinks(items: Items, n: nat, job: int, entries: seq<Entry>, k: nat, now: Items)
    requires k < |entries| && AllAccepted(items, job, entries) && BatchSoFar(items, n, job, entries, k, now)
    ensures var row := BatchRow(now, n, job, entries, k);
      && row.job == job && row.itemType == TypeOr(entries[k].input, Task)
      && (row.parentId.Some? ==>
        && row.itemType != Header && row.parentId.value in now
        && now[row.parentId.value].job == row.job && now[row.parentId.value].itemType == Header)
  {
    assert EntryLinkOk(items, job, entries, k);
    if entries[k].localParent.Some? {
      var p := n + entries[k].localParent.value;
      assert n <= p < n + k && p - n == entries[k].localParent.value;
      assert now[p].itemType == TypeOr(entries[p - n].input, Task);
    } else if entries[k].input.parentId.Some? {
      var p := entries[k].input.parentId.value;
      assert p in items && now[p] == items[p];
    }
  }

  lemma {:induction false} BulkKeepsSound(items: Items, n: nat, job: int, entries: seq<Entry>, k: nat)
    requires Sound(items, n) && n > 0 && k <= |entries| && AllAccepted(items, job, entries)
    ensures Sound(AfterBulk(items, n, job, entries, k), n + k)
    ensures BatchSoFar(items, n, job, entries, k, AfterBulk(items, n, job, entries, k))
  {
    if k == 0 {
      assert AfterBulk(items, n, job, entries, k) == items;
    } else {
      var j := k - 1;
      BulkKeepsSound(items, n, job, entries, j);
      var now := AfterBulk(items, n, job, entries, j);
      BatchStep(items, n, job, entries, j, now);
      assert AfterBulk(items, n, job, entries, k) == now[n + j := BatchRow(now, n, job, entries, j)];
    }
  }

  lemma BatchStep(items: Items, n: nat, job: int, entries: seq<Entry>, k: nat, now: Items)
    requires Sound(items, n) && n > 0 && k < |entries| && AllAccepted(items, job, entries)
    requires BatchSoFar(items, n, job, entries, k, now) && Sound(now, n + k)
    ensures var next := now[n + k := BatchRow(now, n, job, entries, k)];
      Sound(next, n + k + 1) && BatchSoFar(items, n, job, entries, k + 1, next)
  {
    NextRowLinks(items, n, job, entries, k, now);
    var row := BatchRow(now, n, job, entries, k);
    InsertKeepsSound(now, n + k, row);
    BatchGrows(items, n, job, entries, k, now, row);
  }

  lemma BatchGrows(items: Items, n: nat, job: int, entries: seq<Entry>, k: nat, now: Items, row: Item)
    requires k < |entries| && BatchSoFar(items, n, job, entries, k, now)
    requires forall id :: id in items ==> id < n
    requires row.job == job && row.itemType == TypeOr(entries[k].input, Task)
    ensures BatchSoFar(items, n, job, entries, k + 1, now[n + k := row])
  {
  }

  /** Moving an item under a root: every chain still ends, one link later at most. */
  lemma {:induction false} EndsAfterUpdate(items: Items, id: int, item: Item, x: int, n: nat)
    requires id in items && Ends(items, x, n)
    requires item.parentId.Some? ==>
      item.parentId.value != id && item.parentId.value in items && items[item.parentId.value].parentId.None?
    ensures Ends(items[id := item], x, n + 1)
    decreases n
  {
    if x != id && x in items && items[x].parentId.Some? {
      EndsAfterUpdate(items, id, item, items[x].parentId.value, n - 1);
    }
  }

  /**
   * Updates keep the programme sound even when they change an item's type: a HEADER never has a
   * parent of its own, so nothing can be hung below itself.
   */
  lemma UpdateKeepsSound(items: Items, nextId: nat, visible: set<int>, id: int, input: Input)
    requires Sound(items, nextId) && UpdateVerdict(items, visible, id, input).Ok?
    ensures Sound(items[id := UpdatedItem(items[id], input)], nextId)
  {
    var item := UpdatedItem(items[id], input);
    var after := items[id := item];
    assert item.parentId.Some? ==> LinkOk(items, item.parentId.value);
    forall x | x in after ensures exists n: nat :: Ends(after, x, n) {
      var n: nat :| Ends(items, x, n);
      EndsAfterUpdate(items, id, item, x, n);
    }
    forall x | x in after ensures LinkOk(after, x) {
      assert LinkOk(items, x);
    }
  }

  lemma {:induction false} BulkKeepsTitles(items: Items, n: nat, job: int, entries: seq<Entry>, k: nat)
    requires Titled(items) && k <= |entries|
    requires forall i :: 0 <= i < |entries| ==> !IsBlank(entries[i].input.title)
    ensures Titled(AfterBulk(items, n, job, entries, k))
  {
    if k > 0 {
      BulkKeepsTitles(items, n, job, entries, k - 1);
    }
  }

  // ----- Only headers have children: kept by creation, and by exactly which updates -----

  lemma InsertKeepsHeaders(items: Items, nextId: nat, row: Item)
    requires Sound(items, nextId) && OnlyHeadersParent(items)
    requires row.parentId.Some? ==> row.parentId.value in items && items[row.parentId.value].itemType == Header
    ensures OnlyHeadersParent(items[nextId := row])
  {
    assert forall id :: id in items ==> LinkOk(items, id);
  }

  lemma {:induction false} BulkKeepsHeaders(items: Items, n: nat, job: int, entries: seq<Entry>, k: nat)
    requires Sound(items, n) && n > 0 && k <= |entries| && OnlyHeadersParent(items)
    requires AllAccepted(items, job, entries)
    ensures OnlyHeadersParent(AfterBulk(items, n, job, entries, k))
  {
    if k > 0 {
      BulkKeepsHeaders(items, n, job, entries, k - 1);
      BulkKeepsSound(items, n, job, entries, k - 1);
      var before := AfterBulk(items, n, job, entries, k - 1);
      NextRowLinks(items, n, job, entries, k - 1, before);
      InsertKeepsHeaders(before, n + (k - 1), BatchRow(before, n, job, entries, k - 1));
    }
  }

  lemma CreateKeepsHeaders(items: Items, nextId: nat, visible: set<int>, job: int, input: Input)
    requires Sound(items, nextId) && OnlyHeadersParent(items) && CreateVerdict(items, visible, job, input).Ok?
    ensures OnlyHeadersParent(items[nextId := NewItem(items, nextId, job, input, input.parentId)])
  {
    InsertKeepsHeaders(items, nextId, NewItem(items, nextId, job, input, input.parentId));
  }

  ghost predicate HasChild(items: Items, id: int) {
    exists k :: k in items && items[k].parentId == Some(id)
  }

  /**
   * An update leaves a non-header with children exactly when it turns a header that has children
   * into something else: the service checks the item's own link, never its children's.
   */
  lemma UpdateKeepsHeadersIff(items: Items, nextId: nat, visible: set<int>, id: int, input: Input)
    requires Sound(items, nextId) && OnlyHeadersParent(items) && UpdateVerdict(items, visible, id, input).Ok?
    ensures OnlyHeadersParent(items[id := UpdatedItem(items[id], input)]) <==>
      TypeOr(input, items[id].itemType) == Header || !HasChild(items, id)
  {
    var after := items[id := UpdatedItem(items[id], input)];
    if HasChild(items, id) {
      var k :| k in items && items[k].parentId == Some(id);
      assert LinkOk(items, k);
      assert after[k].parentId == Some(id);
    }
  }

  lemma SampleTitle(s: string)
    requires 0 < |s| <= 125 && !IsWhitespace(s[0]) && !IsWhitespace(s[|s| - 1])
    ensures !IsBlank(s) && Utf8Len(s) <= 500
  {
    Utf8LenBounds(s);
  }

  // ----- Every sound programme can be captured -----

  lemma {:induction false} EndsMeansRooted(items: Items, nextId: nat, job: int, id: int, n: nat)
    requires Sound(items, nextId) && id in items && items[id].job == job && Ends(items, id, n)
    ensures var rows := ProgrammeOf(items, nextId, job);
      RowOf(id, items[id]) in rows && Rooted(rows, RowOf(id, items[id]))
    decreases n
  {
    var rows, row := ProgrammeOf(items, nextId, job), RowOf(id, items[id]);
    ProgrammeSpec(items, nextId, job);
    assert LinkOk(items, id);
    match ParentRow(rows, row)
    case None =>
      assert DepthIs(rows, row, 0);
    case Some(q) =>
      EndsMeansRooted(items, nextId, job, q.id, n - 1);
      var d: nat :| DepthIs(rows, q, d);
      assert DepthIs(rows, row, d + 1);
  }

  /**
   * A programme built by any run of create, bulk create and update is captured without complaint,
   * unless it has more rows than a template may hold.
   */
  lemma SoundProgrammesCapture(items: Items, nextId: nat, job: int)
    requires Sound(items, nextId) && Titled(items) && nextId <= I32_MAX
    ensures var rows := ProgrammeOf(items, nextId, job);
      && DistinctIds(rows) && !HasCycle(rows)
      && (if |rows| <= 2000 then Verdict(CaptureOf(rows)).Ok?
          else Verdict(CaptureOf(rows)) == Err(TooManyItems))
  {
    var rows := ProgrammeOf(items, nextId, job);
    ProgrammeSpec(items, nextId, job);
    forall r | r in rows ensures Rooted(rows, r) && WellLabelled(r) {
      ProgrammeRowSound(items, nextId, job, r);
    }
    RootedIffAcyclic(rows);
    if |rows| <= MAX_TEMPLATE_ITEMS { GoodRowsCapture(rows); } else { SizeComesFirst(rows); }
  }

  lemma GoodRowsCapture(rows: seq<ProgrammeRow>)
    requires DistinctIds(rows) && |rows| <= MAX_TEMPLATE_ITEMS && !HasCycle(rows)
    requires forall r :: r in rows ==> WellLabelled(r)
    ensures Verdict(CaptureOf(rows)).Ok?
  {
    ValidationDecidesAcyclicity(rows);
  }

  lemma ProgrammeRowSound(items: Items, nextId: nat, job: int, r: ProgrammeRow)
    requires Sound(items, nextId) && Titled(items) && r in ProgrammeOf(items, nextId, job)
    ensures Rooted(ProgrammeOf(items, nextId, job), r) && WellLabelled(r)
  {
    ProgrammeSpec(items, nextId, job);
    var n: nat :| Ends(items, r.id, n);
    EndsMeansRooted(items, nextId, job, r.id, n);
  }

  lemma SizeComesFirst(rows: seq<ProgrammeRow>)
    requires DistinctIds(rows) && |rows| > MAX_TEMPLATE_ITEMS
    ensures Verdict(CaptureOf(rows)) == Err(TooManyItems)
  {
    TreeOrderIsPermutation(rows);
  }

  // ----- Runs -----

  datatype Action =
    | Create(visible: set<int>, job: int, input: Input)
    | CreateBulk(visible: set<int>, job: int, entries: seq<Entry>)
    | Update(visible: set<int>, id: int, input: Input)

  datatype State = State(items: Items, nextId: nat)

  function Next(s: State, a: Action): State {
    match a
    case Create(visible, job, input) =>
      if CreateVerdict(s.items, visible, job, input).Err? then s
      else State(s.items[s.nextId := NewItem(s.items, s.nextId, job, input, input.parentId)], s.nextId + 1)
    case CreateBulk(visible, job, entries) =>
      if BulkCreateVerdict(s.items, visible, job, entries).Err? then s
      else State(AfterBulk(s.items, s.nextId, job, entries, |entries|), s.nextId + |entries|)
    case Update(visible, id, input) =>
      if UpdateVerdict(s.items, visible, id, input).Err? then s
      else s.(items := s.items[id := UpdatedItem(s.items[id], input)])
  }

  function After(s: State, run: seq<Action>): State
    decreases |run|
  {
    if run == [] then s else After(Next(s, run[0]), run[1..])
  }

  lemma {:induction false} RunsKeepSound(s: State, run: seq<Action>)
    requires Sound(s.items, s.nextId) && Titled(s.items) && s.nextId > 0
    ensures Sound(After(s, run).items, After(s, run).nextId)
    ensures Titled(After(s, run).items) && After(s, run).nextId > 0
    decreases |run|
  {
    if run != [] {
      StepKeepsSound(s, run[0]);
      RunsKeepSound(Next(s, run[0]), run[1..]);
    }
  }

  lemma StepKeepsSound(s: State, a: Action)
    requires Sound(s.items, s.nextId) && Titled(s.items) && s.nextId > 0
    ensures Sound(Next(s, a).items, Next(s, a).nextId) && Titled(Next(s, a).items) && Next(s, a).nextId > 0
  {
    if Next(s, a) != s {
      match a
      case Create(visible, job, input) => CreateKeepsSound(s.items, s.nextId, visible, job, input);
      case CreateBulk(visible, job, entries) =>
        AcceptedBatch(s.items, job, entries);
        BulkKeepsSound(s.items, s.nextId, job, entries, |entries|);
        BulkKeepsTitles(s.items, s.nextId, job, entries, |entries|);
      case Update(visible, id, input) => UpdateKeepsSound(s.items, s.nextId, visible, id, input);
    }
  }

  /** Not an update that turns a header with children into something else. */
  ghost predicate SparesHeaders(s: State, a: Action) {
    a.Update? && UpdateVerdict(s.items, a.visible, a.id, a.input).Ok? ==>
      TypeOr(a.input, s.items[a.id].itemType) == Header || !HasChild(s.items, a.id)
  }

  ghost predicate SparesHeadersThroughout(s: State, run: seq<Action>)
    decreases |run|
  {
    run == [] || (SparesHeaders(s, run[0]) && SparesHeadersThroughout(Next(s, run[0]), run[1..]))
  }

  /** Only headers have children, at the start of the run and after every step of it. */
  ghost predicate HeadersThroughout(s: State, run: seq<Action>)
    decreases |run|
  {
    OnlyHeadersParent(s.items) && (run == [] || HeadersThroughout(Next(s, run[0]), run[1..]))
  }

  lemma StepKeepsHeadersIff(s: State, a: Action)
    requires Sound(s.items, s.nextId) && s.nextId > 0 && OnlyHeadersParent(s.items)
    ensures OnlyHeadersParent(Next(s, a).items) <==> SparesHeaders(s, a)
  {
    if Next(s, a) != s {
      match a
      case Create(visible, job, input) => CreateKeepsHeaders(s.items, s.nextId, visible, job, input);
      case CreateBulk(visible, job, entries) =>
        AcceptedBatch(s.items, job, entries);
        BulkKeepsHeaders(s.items, s.nextId, job, entries, |entries|);
      case Update(visible, id, input) => UpdateKeepsHeadersIff(s.items, s.nextId, visible, id, input);
    } else if a.Update? && UpdateVerdict(s.items, a.visible, a.id, a.input).Ok? {
      UpdateKeepsHeadersIff(s.items, s.nextId, a.visible, a.id, a.input);
    }
  }

  /** Over any run: only headers ever have children exactly if no step retypes a header that has some. */
  lemma {:induction false} RunsKeepHeadersIff(s: State, run: seq<Action>)
    requires Sound(s.items, s.nextId) && Titled(s.items) && s.nextId > 0 && OnlyHeadersParent(s.items)
    ensures HeadersThroughout(s, run) <==> SparesHeadersThroughout(s, run)
    decreases |run|
  {
    if run != [] {
      StepKeepsHeadersIff(s, run[0]);
      StepKeepsSound(s, run[0]);
      if OnlyHeadersParent(Next(s, run[0]).items) {
        RunsKeepHeadersIff(Next(s, run[0]), run[1..]);
      }
    }
  }

  function Plain(title: string, itemType: ItemType, sortOrder: int, parentId: Option<int>): Input {
    Input(title, Some(itemType), None, None, None, None, None, Some(sortOrder), parentId)
  }

  const FRAME := Create({1}, 1, Plain("Frame", Header, 0, None))
  const WALLS := Create({1}, 1, Plain("Walls", Task, 1, Some(1)))
  const RETYPE := Update({1}, 1, Plain("Frame", Task, 0, None))

  function Framed(): State {
    State(map[1 := Item(1, "Frame", Header, None, 0, None), 2 := Item(1, "Walls", Task, None, 1, Some(1))], 3)
  }

  lemma FramedIsReached()
    ensures After(State(map[], 1), [FRAME, WALLS]) == Framed()
  {
    SampleTitle("Frame");
    SampleTitle("Walls");
    var s1 := State(map[1 := Item(1, "Frame", Header, None, 0, None)], 2);
    assert Next(State(map[], 1), FRAME) == s1;
    assert Next(s1, WALLS) == Framed();
    assert [FRAME, WALLS][1..] == [WALLS] && [WALLS][1..] == [];
    assert After(s1, [WALLS]) == After(Framed(), []);
  }

  lemma RetypingFramed()
    ensures var s := Framed();
      && OnlyHeadersParent(s.items)
      && UpdateVerdict(s.items, RETYPE.visible, RETYPE.id, RETYPE.input).Ok?
      && !OnlyHeadersParent(Next(s, RETYPE).items)
  {
    SampleTitle("Frame");
    var after := Next(Framed(), RETYPE).items;
    assert after[2].parentId == Some(1) && after[1].itemType == Task;
  }

  /** A concrete run: a header and a task below it are created, then the header is retyped as a task. */
  lemma RetypingBreaksHeaders()
    ensures var s := After(State(map[], 1), [FRAME, WALLS]);
      && Sound(s.items, s.nextId) && OnlyHeadersParent(s.items)
      && UpdateVerdict(s.items, RETYPE.visible, RETYPE.id, RETYPE.input).Ok?
      && !OnlyHeadersParent(Next(s, RETYPE).items)
  {
    RunsKeepSound(State(map[], 1), [FRAME, WALLS]);
    FramedIsReached();
    RetypingFramed();
  }

  /** Then the programme is two levels deep at most. */
  lemma TwoLevels(items: Items, nextId: nat, id: int)
    requires Sound(items, nextId) && OnlyHeadersParent(items) && id in items
    ensures Ends(items, id, 1)
  {
    if items[id].parentId.Some? {
      assert LinkOk(items, id);
      assert LinkOk(items, items[id].parentId.value);
    }
  }

  /** Saving a template never fails on a parent reference, after any run of create, bulk create and update. */
  lemma EveryProgrammeCaptures(run: seq<Action>, job: int)
    requires After(State(map[], 1), run).nextId <= I32_MAX
    ensures var s := After(State(map[], 1), run); var rows := ProgrammeOf(s.items, s.nextId, job);
      && DistinctIds(rows)
      && (if |rows| <= 2000 then Verdict(CaptureOf(rows)).Ok?
          else Verdict(CaptureOf(rows)) == Err(TooManyItems))
  {
    RunsKeepSound(State(map[], 1), run);
    var s := After(State(map[], 1), run);
    SoundProgrammesCapture(s.items, s.nextId, job);
  }
}
