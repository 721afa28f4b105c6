/** Item types and the rule for parent links (domain-rules R2). */
module CallForwardItem {
  import opened Base

  /** What an item is: a heading for other items, a milestone that is billed, or a piece of work. */
  datatype ItemType = Header | StageClaim | Task

  function ParseItemType(s: string): Option<ItemType> {
    match s
    case "HEADER" => Some(Header)
    case "STAGE_CLAIM" => Some(StageClaim)
    case "TASK" => Some(Task)
    case _ => None
  }

  function ItemTypeName(t: ItemType): (s: string)
    ensures ParseItemType(s) == Some(t)
  {
    match t
    case Header => "HEADER"
    case StageClaim => "STAGE_CLAIM"
    case Task => "TASK"
  }

  lemma TypeNames(s: string)
    ensures ParseItemType(s).Some? <==> s in {"HEADER", "STAGE_CLAIM", "TASK"}
    ensures ParseItemType(s).Some? ==>
      s == match ParseItemType(s).value case Header => "HEADER" case StageClaim => "STAGE_CLAIM" case Task => "TASK"
  {
  }

  /** Which types other items may hang below. */
  predicate CanParent(t: ItemType) {
    t == Header
  }

  datatype ParentFault = SelfParent | OtherJob | NotAHeader | NestedHeader

  /** A parent as the check sees it: its id, type and job. */
  datatype ParentInfo = ParentInfo(id: int, itemType: ItemType, job: int)

  function ValidateParent(childType: ItemType, childId: Option<int>, parent: Option<ParentInfo>, childJob: int)
    : Result<(), ParentFault>
  {
    match parent
    case None => Ok(())
    case Some(p) =>
      if Some(p.id) == childId then Err(SelfParent)
      else if p.job != childJob then Err(OtherJob)
      else if !CanParent(p.itemType) then Err(NotAHeader)
      else if childType == Header then Err(NestedHeader)
      else Ok(())
  }
}
