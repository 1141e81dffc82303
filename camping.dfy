/**
  A worked page: the checklist "Camping" with a tent and a stove in the group
  "Gear" and a map without a group. The page shows the header and the rule,
  then the group "Gear" with the tent in the first cell, the stove in the
  second and the third cell empty, then the group "General" with the map in
  its first cell; no placeholder.
*/
module Camping {
  import opened Text
  import opened Checklists
  import opened Grouping
  import opened ColumnSplit
  import opened Layout

  const Gear: string := "Gear"

  /** LINQ `GroupBy` on the camping items: "Gear" first, as it appears first. */
  lemma CampingGroupBy(tent: ChecklistItem, stove: ChecklistItem, trailMap: ChecklistItem)
    requires tent.group == Some(Gear) && stove.group == Some(Gear) && trailMap.group == None
    ensures GroupBy([tent, stove, trailMap]) == [Group(Gear, [tent, stove]), Group(General, [trailMap])]
  {
    LabelKey(tent, 0);
    LabelKey(stove, 0);
    assert Gear[2] != General[2];
    assert GroupBy([tent]) == [Group(Gear, [tent])];
    assert [tent, stove][..1] == [tent];
    assert GroupBy([tent, stove]) == [Group(Gear, [tent] + [stove])];
    assert [tent] + [stove] == [tent, stove];
    assert [tent, stove, trailMap][..2] == [tent, stove];
    AddToNew([Group(Gear, [tent, stove])], trailMap);
  }

  /** The two groups of the camping items, "Gear" before "General". */
  lemma CampingGroups(tent: ChecklistItem, stove: ChecklistItem, trailMap: ChecklistItem)
    requires tent.group == Some(Gear) && stove.group == Some(Gear) && trailMap.group == None
    ensures Grouped([tent, stove, trailMap]) == [Group(Gear, [tent, stove]), Group(General, [trailMap])]
  {
    var gear, general := Group(Gear, [tent, stove]), Group(General, [trailMap]);
    CampingGroupBy(tent, stove, trailMap);
    GearBeforeGeneral();
    assert [gear, general][1..] == [general];
    assert SortByKey([general]) == [general];
    assert Insert(gear, [general]) == [gear, general];
  }

  /** "Gear" sorts before "General": they first differ at 'a' against 'n'. */
  lemma GearBeforeGeneral()
    ensures Less(Gear, General)
  {
    assert Gear[0] == General[0] && Gear[1] == General[1];
    assert Gear[1..][1..][0] < General[1..][1..][0];
  }

  /** Two items split 1/1/0: two filled cells and an empty third. */
  lemma TwoItemBlock(key: string, x: ChecklistItem, y: ChecklistItem)
    ensures GroupBlockOf(Group(key, [x, y]))
      == GroupBlock(key, [ItemColumn(0, [ItemRowOf(x)]), ItemColumn(1, [ItemRowOf(y)]), EmptyCell(2)])
  {
    var cols := Columns([x, y]);
    assert Capacity(2) == 1;
    assert [x, y][..1] == [x] && [x, y][1..2] == [y] && [x, y][2..] == [];
    RowOfThree(cols);
    assert ItemRows([x]) == [ItemRowOf(x)];
    assert ItemRows([y]) == [ItemRowOf(y)];
  }

  /** One item fills the first cell and leaves two empty. */
  lemma OneItemBlock(key: string, x: ChecklistItem)
    ensures GroupBlockOf(Group(key, [x]))
      == GroupBlock(key, [ItemColumn(0, [ItemRowOf(x)]), EmptyCell(1), EmptyCell(2)])
  {
    var cols := Columns([x]);
    assert Capacity(1) == 1;
    assert [x][..1] == [x] && [x][1..1] == [] && [x][1..] == [];
    RowOfThree(cols);
    assert ItemRows([x]) == [ItemRowOf(x)];
  }

  /** The content column of the camping checklist, block by block. */
  lemma CampingPage(cl: Checklist, tent: ChecklistItem, stove: ChecklistItem, trailMap: ChecklistItem)
    requires cl.items == [tent, stove, trailMap]
    requires tent.group == Some(Gear) && stove.group == Some(Gear) && trailMap.group == None
    ensures Content(cl) == [
      Header(cl.name, cl.kind, cl.created, cl.updated), Divider,
      GroupBlock(Gear, [ItemColumn(0, [ItemRowOf(tent)]), ItemColumn(1, [ItemRowOf(stove)]), EmptyCell(2)]),
      GroupBlock(General, [ItemColumn(0, [ItemRowOf(trailMap)]), EmptyCell(1), EmptyCell(2)])]
  {
    var gear, general := Group(Gear, [tent, stove]), Group(General, [trailMap]);
    CampingGroups(tent, stove, trailMap);
    TwoItemBlock(Gear, tent, stove);
    OneItemBlock(General, trailMap);
    assert [gear, general][..1] == [gear];
    assert GroupBlocks([gear]) == [GroupBlockOf(gear)];
    assert GroupBlocks([gear, general]) == [GroupBlockOf(gear), GroupBlockOf(general)];
  }
}
