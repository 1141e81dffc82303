/**
  The content block of the checklist PDF (`ComposeContent`), as the nested
  containers the exporter builds: a vertical column of blocks (the header,
  whose inner column holds the name/type row and the dates line, a divider,
  one block per group, the placeholder); a group block holds
  its title and a row of three cells; a cell is a column of item rows or an
  empty relative item; an item row is a checkbox, the item's name, and a
  description line when the description is not blank.

  `Content` is the specification: a pure function of the checklist.
  `ComposeContent`, `ComposeGroup` and `ComposeColumn` are the exporter's
  procedures, building the same containers in the same three nested loops,
  and each is proved to produce its part of `Content`. The lemmas after them
  state what the layout promises.
*/
module Layout {
  import opened Text
  import opened Checklists
  import opened Grouping
  import opened ColumnSplit

  /** The notice shown instead of the item grid for a checklist without items. */
  const PlaceholderText: string := "No items in this checklist."

  /**
    One item row: a checkbox, the item's name in bold, and under it the
    description in small italics, present only when there is one to show.
  */
  datatype ItemRow = ItemRow(name: string, description: Option<string>)

  /** One of the three relative items of a group's row. */
  datatype Cell =
    | ItemColumn(col: nat, rows: seq<ItemRow>)   // a column of item rows
    | EmptyCell(col: nat)                        // an empty relative item, kept for the layout

  /** One item of the page's content column; fonts, colours and paddings are not modelled. */
  datatype Block =
    | Header(name: string, kind: string, created: int, updated: int)
                                                 // the name and type row over the created/updated line
    | Divider                                    // the horizontal rule under the header
    | GroupBlock(key: string, row: seq<Cell>)    // a group's title and its row of cells
    | Placeholder(text: string)                  // the notice for a checklist without items

  /** The checklist's own header (one inner column of two rows) and the rule under it. */
  function Preamble(cl: Checklist): seq<Block>
  {
    [Header(cl.name, cl.kind, cl.created, cl.updated), Divider]
  }

  /** The row of one item: the description is shown unless it is blank. */
  function ItemRowOf(item: ChecklistItem): ItemRow
  {
    ItemRow(item.name, if IsNullOrWhiteSpace(Some(item.description)) then None else Some(item.description))
  }

  /** The rows of the items of one column, one per item, in order. */
  function ItemRows(items: seq<ChecklistItem>): (rows: seq<ItemRow>)
    ensures |rows| == |items|
    ensures forall i :: 0 <= i < |items| ==> rows[i] == ItemRowOf(items[i])
  {
    if items == [] then []
    else ItemRows(items[..|items| - 1]) + [ItemRowOf(items[|items| - 1])]
  }

  /** The cell for column `col`: its items, or an empty relative item. */
  function CellOf(columnItems: seq<ChecklistItem>, col: nat): Cell
  {
    if |columnItems| > 0 then ItemColumn(col, ItemRows(columnItems)) else EmptyCell(col)
  }

  /** The first `k` cells of a group's row, given its columns. */
  function RowCells(cols: seq<seq<ChecklistItem>>, k: nat): seq<Cell>
    requires k <= |cols|
  {
    if k == 0 then [] else RowCells(cols, k - 1) + [CellOf(cols[k - 1], k - 1)]
  }

  /** One group: its key as title, then the row of its three columns. */
  function GroupBlockOf(g: Group): Block
  {
    GroupBlock(g.key, RowCells(Columns(g.items), ColumnCount))
  }

  /** The blocks of the groups, one per group, in order. */
  function GroupBlocks(gs: seq<Group>): (bs: seq<Block>)
    ensures |bs| == |gs|
  {
    if gs == [] then []
    else GroupBlocks(gs[..|gs| - 1]) + [GroupBlockOf(gs[|gs| - 1])]
  }

  /** The block of group `i` is the `i`-th, and every one of them is a group block. */
  lemma {:induction false} GroupBlocksAt(gs: seq<Group>, i: nat)
    requires i < |gs|
    ensures GroupBlocks(gs)[i] == GroupBlockOf(gs[i])
  {
    if i < |gs| - 1 {
      GroupBlocksAt(gs[..|gs| - 1], i);
    }
  }

  /** The whole content column of the checklist's page. */
  function Content(cl: Checklist): (body: seq<Block>)
    ensures 3 <= |body|
  {
    Preamble(cl)
      + GroupBlocks(Grouped(cl.items))
      + (if |cl.items| == 0 then [Placeholder(PlaceholderText)] else [])
  }

  // ---------------------------------------------------------------------
  // The exporter's procedures

  /**
    The exporter's `ComposeContent`: the header and the divider, then
    one block per group in key order, then the placeholder if the checklist
    has no items.
  */
  method ComposeContent(cl: Checklist) returns (content: seq<Block>)
    ensures content == Content(cl)
  {
    content := [Header(cl.name, cl.kind, cl.created, cl.updated), Divider];
    var groups := Grouped(cl.items);
    for g := 0 to |groups|
      invariant content == Preamble(cl) + GroupBlocks(groups[..g])
    {
      var block := ComposeGroup(groups[g]);
      BlockStep(Preamble(cl), groups, g, content, block);
      content := content + [block];
    }
    assert groups[..|groups|] == groups;
    if |cl.items| == 0 {
      content := content + [Placeholder(PlaceholderText)];
    }
  }

  /**
    One group: its title, then a row of three cells, cell `col` holding the
    rows of the items LINQ `Skip` and `Take` select for column `col`, or an
    empty relative item when there are none.
  */
  method ComposeGroup(group: Group) returns (block: Block)
    ensures block == GroupBlockOf(group)
  {
    var itemsList := group.items;
    var itemsPerColumn := Capacity(|itemsList|);
    ghost var cols := Columns(itemsList);
    var row: seq<Cell> := [];
    for col := 0 to ColumnCount
      invariant row == RowCells(cols, col)
    {
      SkipTakeColumn(itemsList, col);
      var columnItems := Take(Skip(itemsList, col * itemsPerColumn), itemsPerColumn);
      var cell: Cell;
      if |columnItems| > 0 {
        var rows := ComposeColumn(columnItems);
        cell := ItemColumn(col, rows);
      } else {
        cell := EmptyCell(col);
      }
      CellStep(cols, col, row, cell);
      row := row + [cell];
    }
    block := GroupBlock(group.key, row);
  }

  /** The items of one column: checkbox and name, and the description unless it is blank. */
  method ComposeColumn(columnItems: seq<ChecklistItem>) returns (rows: seq<ItemRow>)
    ensures rows == ItemRows(columnItems)
  {
    rows := [];
    for k := 0 to |columnItems|
      invariant rows == ItemRows(columnItems[..k])
    {
      var item := columnItems[k];
      var description: Option<string> := None;
      if !IsNullOrWhiteSpace(Some(item.description)) {
        description := Some(item.description);
      }
      rows := rows + [ItemRow(item.name, description)];
      assert columnItems[..k + 1][..k] == columnItems[..k];
    }
    assert columnItems[..|columnItems|] == columnItems;
  }

  /** Rendering one more group appends its block. */
  lemma BlockStep(pre: seq<Block>, gs: seq<Group>, g: nat, content: seq<Block>, block: Block)
    requires g < |gs|
    requires content == pre + GroupBlocks(gs[..g])
    requires block == GroupBlockOf(gs[g])
    ensures content + [block] == pre + GroupBlocks(gs[..g + 1])
  {
    assert gs[..g + 1][..g] == gs[..g];
  }

  /** Rendering one more cell of a row appends it. */
  lemma CellStep(cols: seq<seq<ChecklistItem>>, col: nat, row: seq<Cell>, cell: Cell)
    requires col < |cols|
    requires row == RowCells(cols, col)
    requires cell == CellOf(cols[col], col)
    ensures row + [cell] == RowCells(cols, col + 1)
  {
  }

  // ---------------------------------------------------------------------
  // One item and one group

  /**
    Every item gets a row with its name; the row has a description line if
    and only if the description is not blank, and then shows it verbatim.
  */
  lemma ItemRowShape(item: ChecklistItem)
    ensures ItemRowOf(item).name == item.name
    ensures ItemRowOf(item).description.Some? <==> !IsBlank(item.description)
    ensures ItemRowOf(item).description.Some? ==> ItemRowOf(item).description.value == item.description
  {
  }

  /** The item rows inside a cell. */
  function RowsIn(cell: Cell): seq<ItemRow>
  {
    if cell.ItemColumn? then cell.rows else []
  }

  /** The item rows inside cells, left to right. */
  function CellsRows(cells: seq<Cell>): seq<ItemRow>
  {
    if cells == [] then [] else CellsRows(cells[..|cells| - 1]) + RowsIn(cells[|cells| - 1])
  }

  lemma CellsRowsThree(c0: Cell, c1: Cell, c2: Cell)
    ensures CellsRows([c0, c1, c2]) == RowsIn(c0) + RowsIn(c1) + RowsIn(c2)
  {
    assert [c0][..0] == [];
    assert CellsRows([c0]) == RowsIn(c0);
    assert [c0, c1][..1] == [c0];
    assert CellsRows([c0, c1]) == RowsIn(c0) + RowsIn(c1);
    assert [c0, c1, c2][..2] == [c0, c1];
  }

  lemma {:induction false} ItemRowsConcat(a: seq<ChecklistItem>, b: seq<ChecklistItem>)
    ensures ItemRows(a + b) == ItemRows(a) + ItemRows(b)
  {
    var l, r := ItemRows(a + b), ItemRows(a) + ItemRows(b);
    forall i | 0 <= i < |a + b|
      ensures l[i] == r[i]
    {
      if i < |a| {
        assert (a + b)[i] == a[i];
      } else {
        assert (a + b)[i] == b[i - |a|];
      }
    }
  }

  /** A group's row is its three columns, left to right. */
  lemma RowOfThree(cols: seq<seq<ChecklistItem>>)
    requires |cols| == ColumnCount
    ensures RowCells(cols, ColumnCount) == [CellOf(cols[0], 0), CellOf(cols[1], 1), CellOf(cols[2], 2)]
  {
    assert RowCells(cols, 1) == [CellOf(cols[0], 0)];
  }

  /** The rows a cell shows are the rows of its column, whether or not it is empty. */
  lemma CellRows(columnItems: seq<ChecklistItem>, col: nat)
    ensures RowsIn(CellOf(columnItems, col)) == ItemRows(columnItems)
  {
  }

  /**
    A group's block: titled with its key, three cells numbered 0, 1, 2, cell
    `k` holding the rows of column `k` and left empty exactly when that
    column is empty.
  */
  lemma GroupBlockShape(g: Group)
    ensures var b, cols := GroupBlockOf(g), Columns(g.items);
      && b.GroupBlock? && b.key == g.key
      && |b.row| == ColumnCount
      && forall k :: 0 <= k < ColumnCount ==>
           && b.row[k].col == k
           && (b.row[k].ItemColumn? <==> cols[k] != [])
           && (b.row[k].ItemColumn? ==> b.row[k].rows == ItemRows(cols[k]))
  {
    RowOfThree(Columns(g.items));
  }

  /** A group's cells show the rows of all its items, in the checklist's order. */
  lemma GroupRows(g: Group)
    ensures CellsRows(GroupBlockOf(g).row) == ItemRows(g.items)
  {
    var cols := Columns(g.items);
    var c0, c1, c2 := CellOf(cols[0], 0), CellOf(cols[1], 1), CellOf(cols[2], 2);
    RowOfThree(cols);
    ColumnsSplit(g.items);
    CellsRowsThree(c0, c1, c2);
    CellRows(cols[0], 0);
    CellRows(cols[1], 1);
    CellRows(cols[2], 2);
    ItemRowsConcat(cols[0] + cols[1], cols[2]);
    ItemRowsConcat(cols[0], cols[1]);
  }

  // ---------------------------------------------------------------------
  // The whole content column

  /** The item rows of all group blocks, top to bottom. */
  function AllRows(bs: seq<Block>): seq<ItemRow>
  {
    if bs == [] then []
    else
      var last := bs[|bs| - 1];
      AllRows(bs[..|bs| - 1]) + (if last.GroupBlock? then CellsRows(last.row) else [])
  }

  lemma {:induction false} AllRowsConcat(a: seq<Block>, b: seq<Block>)
    ensures AllRows(a + b) == AllRows(a) + AllRows(b)
  {
    if b == [] {
      assert a + b == a;
    } else {
      var init := b[..|b| - 1];
      assert (a + b)[..|a + b| - 1] == a + init;
      assert (a + b)[|a + b| - 1] == b[|b| - 1];
      AllRowsConcat(a, init);
    }
  }

  lemma AllRowsLast(bs: seq<Block>, b: Block)
    ensures AllRows(bs + [b]) == AllRows(bs) + (if b.GroupBlock? then CellsRows(b.row) else [])
  {
    assert (bs + [b])[..|bs|] == bs;
  }

  lemma GroupBlocksLast(gs: seq<Group>)
    requires gs != []
    ensures var init, last := gs[..|gs| - 1], gs[|gs| - 1];
      AllRows(GroupBlocks(gs)) == AllRows(GroupBlocks(init)) + CellsRows(GroupBlockOf(last).row)
  {
    var init, last := gs[..|gs| - 1], gs[|gs| - 1];
    AllRowsLast(GroupBlocks(init), GroupBlockOf(last));
  }

  lemma FlattenRowsLast(gs: seq<Group>)
    requires gs != []
    ensures var init, last := gs[..|gs| - 1], gs[|gs| - 1];
      ItemRows(Flatten(gs)) == ItemRows(Flatten(init)) + ItemRows(last.items)
  {
    var init, last := gs[..|gs| - 1], gs[|gs| - 1];
    assert gs == init + [last];
    FlattenAppend(init, last);
    ItemRowsConcat(Flatten(init), last.items);
  }

  lemma {:induction false} GroupBlocksRows(gs: seq<Group>)
    ensures AllRows(GroupBlocks(gs)) == ItemRows(Flatten(gs))
  {
    if gs != [] {
      GroupBlocksRows(gs[..|gs| - 1]);
      GroupBlocksLast(gs);
      GroupRows(gs[|gs| - 1]);
      FlattenRowsLast(gs);
    }
  }

  /** The header and the rule, then group blocks only, then at most a placeholder. */
  lemma {:induction false} Sections(pre: seq<Block>, bs: seq<Block>, tail: seq<Block>)
    requires |pre| == 2 && forall k :: 0 <= k < 2 ==> !pre[k].GroupBlock? && !pre[k].Placeholder?
    requires forall k :: 0 <= k < |bs| ==> bs[k].GroupBlock?
    requires tail == [] || tail == [Placeholder(PlaceholderText)]
    ensures var c := pre + bs + tail;
      && |c| == 2 + |bs| + |tail|
      && c[..2] == pre
      && c[2..2 + |bs|] == bs
      && (forall i :: 0 <= i < |c| ==> (c[i].GroupBlock? <==> 2 <= i < 2 + |bs|))
      && (forall i :: 0 <= i < |c| ==> (c[i].Placeholder? <==> tail != [] && i == |c| - 1))
  {
    var c := pre + bs + tail;
    forall i | 0 <= i < |c|
      ensures c[i].GroupBlock? <==> 2 <= i < 2 + |bs|
      ensures c[i].Placeholder? <==> tail != [] && i == |c| - 1
    {
      if i < 2 {
        assert c[i] == pre[i];
      } else if i < 2 + |bs| {
        assert c[i] == bs[i - 2];
      } else {
        assert c[i] == tail[i - 2 - |bs|];
      }
    }
  }

  /**
    Where everything sits in the content column: the header and the rule,
    then the group blocks in the order of the sorted groups and nowhere else,
    then the placeholder, which is the last block and only appears for a
    checklist without items.
  */
  lemma ContentLayout(cl: Checklist)
    ensures var c, gs := Content(cl), Grouped(cl.items);
      && |c| == 2 + |gs| + (if cl.items == [] then 1 else 0)
      && c[..2] == Preamble(cl)
      && c[2..2 + |gs|] == GroupBlocks(gs)
      && (forall i :: 0 <= i < |c| ==> (c[i].GroupBlock? <==> 2 <= i < 2 + |gs|))
      && (forall i :: 0 <= i < |c| ==> (c[i].Placeholder? <==> cl.items == [] && i == |c| - 1))
  {
    var gs := Grouped(cl.items);
    var bs := GroupBlocks(gs);
    var tail: seq<Block> := if |cl.items| == 0 then [Placeholder(PlaceholderText)] else [];
    forall k | 0 <= k < |bs|
      ensures bs[k].GroupBlock?
    {
      GroupBlocksAt(gs, k);
    }
    Sections(Preamble(cl), bs, tail);
  }

  /**
    The placeholder appears if and only if the checklist has no items; an
    empty checklist shows only its header, the rule and the placeholder.
  */
  lemma PlaceholderIffEmpty(cl: Checklist)
    ensures var c := Content(cl);
      (exists i :: 0 <= i < |c| && c[i].Placeholder?) <==> cl.items == []
    ensures cl.items == [] ==> Content(cl) == Preamble(cl) + [Placeholder(PlaceholderText)]
  {
    var c := Content(cl);
    ContentLayout(cl);
    if cl.items == [] {
      GroupedEmpty();
      assert c[|c| - 1].Placeholder?;
    }
  }

  /** The group behind a group block of the content column. */
  lemma GroupOfBlock(cl: Checklist, i: nat) returns (g: Group)
    requires i < |Content(cl)| && Content(cl)[i].GroupBlock?
    ensures 2 <= i < 2 + |Grouped(cl.items)| && g == Grouped(cl.items)[i - 2]
    ensures Content(cl)[i] == GroupBlockOf(g)
    ensures g.items == Filter(cl.items, g.key) && g.items != []
  {
    var gs := Grouped(cl.items);
    BlockAt(cl, i);
    g := gs[i - 2];
    GroupedAt(cl.items, i - 2);
  }

  lemma BlockAt(cl: Checklist, i: nat)
    requires i < |Content(cl)| && Content(cl)[i].GroupBlock?
    ensures 2 <= i < 2 + |Grouped(cl.items)|
    ensures Content(cl)[i] == GroupBlockOf(Grouped(cl.items)[i - 2])
  {
    var gs := Grouped(cl.items);
    var tail: seq<Block> := if |cl.items| == 0 then [Placeholder(PlaceholderText)] else [];
    assert Content(cl) == Preamble(cl) + GroupBlocks(gs) + tail;
    SectionAt(Preamble(cl), GroupBlocks(gs), tail, i);
    GroupBlocksAt(gs, i - 2);
  }

  /** A group block of `pre + bs + tail` lies in `bs` when `pre` and `tail` hold none. */
  lemma SectionAt(pre: seq<Block>, bs: seq<Block>, tail: seq<Block>, i: nat)
    requires |pre| == 2 && forall k :: 0 <= k < 2 ==> !pre[k].GroupBlock?
    requires forall k :: 0 <= k < |tail| ==> !tail[k].GroupBlock?
    requires i < |pre + bs + tail| && (pre + bs + tail)[i].GroupBlock?
    ensures 2 <= i < 2 + |bs| && (pre + bs + tail)[i] == bs[i - 2]
  {
    var c := pre + bs + tail;
    assert forall k :: 0 <= k < 2 ==> c[k] == pre[k];
    assert forall k :: 2 + |bs| <= k < |c| ==> c[k] == tail[k - 2 - |bs|];
  }

  /** The group blocks are titled in strictly ascending key order. */
  lemma TitlesAscending(cl: Checklist)
    ensures var c := Content(cl);
      forall i, j :: 0 <= i < j < |c| && c[i].GroupBlock? && c[j].GroupBlock? ==> Less(c[i].key, c[j].key)
  {
    var c := Content(cl);
    forall i, j | 0 <= i < j < |c| && c[i].GroupBlock? && c[j].GroupBlock?
      ensures Less(c[i].key, c[j].key)
    {
      var gi := GroupOfBlock(cl, i);
      var gj := GroupOfBlock(cl, j);
      GroupedSorted(cl.items);
    }
  }

  /** Every item's key has a group block titled with it. */
  lemma BlockForEveryKey(cl: Checklist, item: ChecklistItem)
    requires item in cl.items
    ensures var c := Content(cl);
      exists i :: 0 <= i < |c| && c[i].GroupBlock? && c[i].key == GroupKey(item)
  {
    var c, gs := Content(cl), Grouped(cl.items);
    ContentLayout(cl);
    GroupedCovers(cl.items, item);
    var k :| 0 <= k < |gs| && gs[k].key == GroupKey(item);
    assert c[2 + k] == c[2..2 + |gs|][k];
    GroupBlocksAt(gs, k);
  }

  /**
    A group block shows exactly the rows of the items with its key, in the
    checklist's order, and there is at least one.
  */
  lemma BlockShowsItsItems(cl: Checklist, i: nat)
    requires i < |Content(cl)| && Content(cl)[i].GroupBlock?
    ensures var b := Content(cl)[i];
      && CellsRows(b.row) == ItemRows(Filter(cl.items, b.key))
      && exists item :: item in cl.items && GroupKey(item) == b.key
  {
    var g := GroupOfBlock(cl, i);
    GroupRows(g);
    assert g.items[0] in Filter(cl.items, g.key);
  }

  /**
    Every group block has exactly three cells, numbered 0, 1, 2, whether or
    not its columns hold items; the first always holds items, and a cell
    holds items only if the cell to its left does.
  */
  lemma ThreeCellsPerGroup(cl: Checklist, i: nat)
    requires i < |Content(cl)| && Content(cl)[i].GroupBlock?
    ensures var b := Content(cl)[i];
      && |b.row| == ColumnCount
      && b.row[0].ItemColumn?
      && (forall k :: 0 <= k < ColumnCount ==> b.row[k].col == k)
      && (forall k :: 0 < k < ColumnCount && b.row[k].ItemColumn? ==> b.row[k - 1].ItemColumn?)
  {
    var g := GroupOfBlock(cl, i);
    GroupCells(g);
  }

  /** A non-empty group's block has three cells numbered 0, 1, 2, filled from the left. */
  lemma GroupCells(g: Group)
    requires g.items != []
    ensures var b := GroupBlockOf(g);
      && |b.row| == ColumnCount
      && b.row[0].ItemColumn?
      && (forall k :: 0 <= k < ColumnCount ==> b.row[k].col == k)
      && (forall k :: 0 < k < ColumnCount && b.row[k].ItemColumn? ==> b.row[k - 1].ItemColumn?)
  {
    GroupBlockShape(g);
    ColumnsSplit(g.items);
  }

  /** Rearranging the items rearranges their rows the same way. */
  lemma {:induction false} ItemRowsPermute(a: seq<ChecklistItem>, b: seq<ChecklistItem>)
    requires multiset(a) == multiset(b)
    ensures multiset(ItemRows(a)) == multiset(ItemRows(b))
    decreases |a|
  {
    if a == [] {
      assert |b| == |multiset(b)| == 0;
    } else {
      MatchFirst(a, b);
      var j :| 0 <= j < |b| && b[j] == a[0] && multiset(a[..0] + a[1..]) == multiset(b[..j] + b[j + 1..]);
      ItemRowsPermute(a[..0] + a[1..], b[..j] + b[j + 1..]);
      ItemRowsRemoveAt(a, 0);
      ItemRowsRemoveAt(b, j);
    }
  }

  /** The first element of a sequence sits somewhere in any permutation of it. */
  lemma MatchFirst<T>(a: seq<T>, b: seq<T>)
    requires a != [] && multiset(a) == multiset(b)
    ensures exists j :: 0 <= j < |b| && b[j] == a[0] && multiset(a[..0] + a[1..]) == multiset(b[..j] + b[j + 1..])
  {
    assert a[0] in multiset(b);
    var j :| 0 <= j < |b| && b[j] == a[0];
    RemoveAt(a, 0);
    RemoveAt(b, j);
  }

  /** Removing the element at `j` removes one occurrence of it. */
  lemma RemoveAt<T>(s: seq<T>, j: nat)
    requires j < |s|
    ensures multiset(s[..j] + s[j + 1..]) == multiset(s) - multiset{s[j]}
  {
    assert s == s[..j] + [s[j]] + s[j + 1..];
    assert multiset(s) == multiset(s[..j]) + multiset{s[j]} + multiset(s[j + 1..]);
  }

  /** Taking the item at `j` out takes its row out of the rows. */
  lemma ItemRowsRemoveAt(b: seq<ChecklistItem>, j: nat)
    requires j < |b|
    ensures multiset(ItemRows(b)) == multiset(ItemRows(b[..j] + b[j + 1..])) + multiset{ItemRowOf(b[j])}
  {
    var x, before, after := b[j], b[..j], b[j + 1..];
    SplitAt(b, j);
    ItemRowsAround(before, x, after);
    ItemRowsConcat(before, after);
    MultisetAround(ItemRows(before), ItemRowOf(x), ItemRows(after));
  }

  lemma SplitAt<T>(s: seq<T>, j: nat)
    requires j < |s|
    ensures s == s[..j] + [s[j]] + s[j + 1..]
  {
  }

  lemma MultisetAround<T>(p: seq<T>, y: T, q: seq<T>)
    ensures multiset(p + [y] + q) == multiset(p + q) + multiset{y}
  {
  }

  lemma ItemRowsAround(before: seq<ChecklistItem>, x: ChecklistItem, after: seq<ChecklistItem>)
    ensures ItemRows(before + [x] + after) == ItemRows(before) + [ItemRowOf(x)] + ItemRows(after)
  {
    ItemRowsConcat(before + [x], after);
    ItemRowsConcat(before, [x]);
  }

  /**
    Every item of the checklist gets exactly one row: the rows of the group
    blocks, top to bottom, are the rows of the sorted groups' items, and as a
    collection they are the rows of the checklist's items, nothing dropped or
    repeated.
  */
  lemma EveryItemOnce(cl: Checklist)
    ensures AllRows(Content(cl)) == ItemRows(Flatten(Grouped(cl.items)))
    ensures multiset(AllRows(Content(cl))) == multiset(ItemRows(cl.items))
  {
    ContentRows(cl);
    GroupedPermutes(cl.items);
    ItemRowsPermute(Flatten(Grouped(cl.items)), cl.items);
  }

  lemma ContentRows(cl: Checklist)
    ensures AllRows(Content(cl)) == ItemRows(Flatten(Grouped(cl.items)))
  {
    var gs := Grouped(cl.items);
    var tail: seq<Block> := if |cl.items| == 0 then [Placeholder(PlaceholderText)] else [];
    OnlyGroupsHaveRows(Preamble(cl), GroupBlocks(gs), tail);
    GroupBlocksRows(gs);
  }

  /** The header, the rule and the placeholder hold no item rows. */
  lemma OnlyGroupsHaveRows(pre: seq<Block>, bs: seq<Block>, tail: seq<Block>)
    requires |pre| == 2 && forall k :: 0 <= k < 2 ==> !pre[k].GroupBlock?
    requires tail == [] || tail == [Placeholder(PlaceholderText)]
    ensures AllRows(pre + bs + tail) == AllRows(bs)
  {
    AllRowsConcat(pre + bs, tail);
    AllRowsConcat(pre, bs);
    assert AllRows(pre) == [] by {
      assert pre == [] + [pre[0]] + [pre[1]];
      AllRowsLast([] + [pre[0]], pre[1]);
      AllRowsLast([], pre[0]);
    }
    assert AllRows(tail) == [] by {
      if tail != [] {
        assert tail == [] + [Placeholder(PlaceholderText)];
        AllRowsLast([], Placeholder(PlaceholderText));
      }
    }
  }
}
