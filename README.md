# Checklist PDF layout, modelled in Dafny

The checklist exporter of PersonalPortal renders a checklist into a PDF. Its
`ComposeContent` procedure decides what the page body shows:

- the checklist's name and type, its created/updated line, and a rule under them;
- one block per item group. An item's group key is its `ItemGroup`, or "General"
  when that is null, empty or white space only. The groups are ordered by key, and
  each group's items keep the checklist's order;
- inside each block, a row of exactly three cells. Each holds at most
  ceil(n/3) of the group's n items, cut in order. A cell with no items is still
  kept as an empty slot;
- per item, a checkbox and the name, plus the description when it is not blank;
- for a checklist without items, the notice "No items in this checklist.".

The model follows that structure:

- `text.dfy` (module `Text`): .NET's `char.IsWhiteSpace` and
  `string.IsNullOrWhiteSpace`, nullable strings as `Option`, and the ordinal
  string order used for sorting keys, proved a strict total order.
- `checklist.dfy` (module `Checklists`): the `Checklist` and `ChecklistItem`
  records, with only the fields the layout reads.
- `grouping.dfy` (module `Grouping`): the group key, plus LINQ `GroupBy` as the
  left fold its lookup performs. LINQ `OrderBy` is a stable insertion sort on
  the key. The lemmas prove that the rendered groups partition the items and
  come in strictly ascending key order.
- `columns.dfy` (module `ColumnSplit`): the per-column capacity and LINQ `Skip`
  and `Take`, element by element. Lemmas prove what these select for each of
  the three columns, and what the three columns together are.
- `layout.dfy` (module `Layout`): the page body as nested containers (blocks,
  cells, item rows).
  - `Content` is the specification, a pure function of the checklist.
  - `ComposeContent`, `ComposeGroup` and `ComposeColumn` are the exporter's three
    nested loops, written as methods and proved to build exactly `Content`.
  - The lemmas state what the page shows.
- `group_order.dfy` (module `GroupOrder`) and `camping.dfy` (module `Camping`):
  two worked cases. Five items show the key order and the merging of blank
  labels. The camping checklist is taken down to the exact sequence of blocks
  and cells.

The split is not balanced: the first two columns are filled to capacity and the
third takes the rest, so four items split 2/2/0
(`ColumnSplit.ColumnSizeExamples`).

## Model

| member | source | states |
|---|---|---|
| Grouping.GroupKey | PersonalPortal.API/Services/ChecklistPdfService.cs:86 | the key is never blank; a null or white-space-only label gives "General"; any other label is the key unchanged |
| Grouping.SameGroupIff | PersonalPortal.API/Services/ChecklistPdfService.cs:86 | two items share a group exactly when both labels are blank, or both are the same non-blank label, or one is blank and the other is literally "General" |
| Grouping.LabelsAreVerbatim | PersonalPortal.API/Services/ChecklistPdfService.cs:86 | " Gear" and "Gear", "gear" and "Gear", "general" and a missing label are different groups; "   " and a missing label are the same group |
| Grouping.Add | PersonalPortal.API/Services/ChecklistPdfService.cs:85-86 | one step of `GroupBy`'s fold: the item joins the group of its key or opens one, so the number of groups grows by at most one |
| Grouping.GroupBy | PersonalPortal.API/Services/ChecklistPdfService.cs:85-86 | `GroupBy` yields no more groups than items, and no group at all exactly when there are no items |
| Grouping.AddToExisting | PersonalPortal.API/Services/ChecklistPdfService.cs:85-86 | grouping the next item whose key already has a group appends it to that group and changes nothing else |
| Grouping.AddToNew | PersonalPortal.API/Services/ChecklistPdfService.cs:85-86 | grouping the next item whose key has no group yet opens a new group holding it, after all existing groups |
| Grouping.AddPartitions | PersonalPortal.API/Services/ChecklistPdfService.cs:85-86 | grouping one more item keeps the groups a partition of the items seen so far |
| Grouping.GroupByPartitions | PersonalPortal.API/Services/ChecklistPdfService.cs:85-86 | `GroupBy` gives distinct keys; each group holds exactly the items of its key, in input order, and at least one; every item's key has a group; no item is lost or repeated |
| Grouping.Insert | PersonalPortal.API/Services/ChecklistPdfService.cs:87 | one step of the stable sort: the result has one group more than the sorted prefix |
| Grouping.SortByKey | PersonalPortal.API/Services/ChecklistPdfService.cs:87 | `OrderBy` returns as many groups as it is given |
| Grouping.InsertPermutes | PersonalPortal.API/Services/ChecklistPdfService.cs:87 | inserting a group into the sorted prefix adds exactly that group |
| Grouping.InsertFlatten | PersonalPortal.API/Services/ChecklistPdfService.cs:87 | inserting a group adds exactly that group's items to the items held |
| Grouping.InsertSorted | PersonalPortal.API/Services/ChecklistPdfService.cs:87 | inserting a group with a new key into strictly ascending groups keeps them strictly ascending |
| Grouping.SortByKeyPermutes | PersonalPortal.API/Services/ChecklistPdfService.cs:87 | `OrderBy` returns a permutation of the groups |
| Grouping.SortByKeyFlatten | PersonalPortal.API/Services/ChecklistPdfService.cs:87 | `OrderBy` keeps every item, as often as before |
| Grouping.SortByKeySorted | PersonalPortal.API/Services/ChecklistPdfService.cs:87 | on distinct keys, `OrderBy` yields strictly ascending keys |
| Grouping.Grouped | PersonalPortal.API/Services/ChecklistPdfService.cs:85-87 | the groups the loop walks number at most the items, and there are none exactly when there are no items |
| Grouping.GroupedPartitions | PersonalPortal.API/Services/ChecklistPdfService.cs:85-87 | the rendered groups are in strictly ascending key order and partition the items by key; their sizes add up to the number of items |
| Grouping.GroupedSorted | PersonalPortal.API/Services/ChecklistPdfService.cs:87 | the rendered groups come in strictly ascending key order |
| Grouping.GroupedAt | PersonalPortal.API/Services/ChecklistPdfService.cs:85-87 | each rendered group holds exactly the items of its key, in the checklist's order, and is not empty |
| Grouping.GroupedCovers | PersonalPortal.API/Services/ChecklistPdfService.cs:85-86 | every item's key is the key of a rendered group |
| Grouping.ItemInItsGroupOnly | PersonalPortal.API/Services/ChecklistPdfService.cs:85-87 | an item is in a rendered group if and only if that group's key is the item's key, and such a group exists |
| Grouping.GroupedPermutes | PersonalPortal.API/Services/ChecklistPdfService.cs:85-87 | reading the rendered groups one after another gives back the checklist's items, each as often as it occurs |
| Grouping.GroupedEmpty | PersonalPortal.API/Services/ChecklistPdfService.cs:85-87 | a checklist without items has no group |
| Text.IsWhiteSpace | PersonalPortal.API/Services/ChecklistPdfService.cs:86 | `char.IsWhiteSpace`: the Unicode space, line and paragraph separators, U+0009 to U+000D and U+0085 (definition; no contract of its own) |
| Text.IsNullOrWhiteSpace | PersonalPortal.API/Services/ChecklistPdfService.cs:129 | `string.IsNullOrWhiteSpace`: null, empty, or white space only (definition; used by `Grouping.GroupKey` and `Layout.ItemRowShape`) |
| Text.Less | PersonalPortal.API/Services/ChecklistPdfService.cs:87 | ordinal order on keys: the first differing character decides, a proper prefix comes first (definition; its order laws are the four lemmas below) |
| Text.LessIrreflexive | PersonalPortal.API/Services/ChecklistPdfService.cs:87 | no key sorts before itself |
| Text.LessTransitive | PersonalPortal.API/Services/ChecklistPdfService.cs:87 | the key order is transitive |
| Text.LessTotal | PersonalPortal.API/Services/ChecklistPdfService.cs:87 | of two different keys, one sorts before the other |
| Text.LessAsymmetric | PersonalPortal.API/Services/ChecklistPdfService.cs:87 | two keys never sort before each other |
| GroupOrder.GroupOrderExample | PersonalPortal.API/Services/ChecklistPdfService.cs:85-87 | items labelled Pantry, none, Fridge, Pantry, " " render as the groups Fridge, General, Pantry; General holds the unlabelled and the blank-labelled item in input order |
| GroupOrder.ExampleGroupBy | PersonalPortal.API/Services/ChecklistPdfService.cs:85-86 | before sorting, the groups of those items come in order of first appearance: Pantry, General, Fridge |
| GroupOrder.ExampleSort | PersonalPortal.API/Services/ChecklistPdfService.cs:87 | keys Pantry, General, Fridge sort to Fridge, General, Pantry |
| ColumnSplit.Capacity | PersonalPortal.API/Services/ChecklistPdfService.cs:102 | the items per column are the ceiling of n/3: three columns of that size hold all n items, and fewer than n + 3 slots |
| ColumnSplit.Skip | PersonalPortal.API/Services/ChecklistPdfService.cs:109 | `Skip(k)` drops the first k items, or all of them when there are fewer |
| ColumnSplit.Take | PersonalPortal.API/Services/ChecklistPdfService.cs:110 | `Take(k)` keeps the first k items, or all of them when there are fewer |
| ColumnSplit.TakeSkip | PersonalPortal.API/Services/ChecklistPdfService.cs:108-111 | `Skip(k).Take(m)` is the slice [k, k + m) clipped to the list |
| ColumnSplit.Columns | PersonalPortal.API/Services/ChecklistPdfService.cs:106 | every group gets exactly three columns |
| ColumnSplit.ColumnsSplit | PersonalPortal.API/Services/ChecklistPdfService.cs:106-111 | the three columns concatenated are the group's items exactly; none holds more than the capacity; sizes never grow left to right; the first is empty only for an empty group |
| ColumnSplit.SkipTakeColumn | PersonalPortal.API/Services/ChecklistPdfService.cs:106-111 | for column col below 3, `Skip(col * cap).Take(cap)` selects exactly column col of `Columns`, the slice [col * cap, col * cap + cap) clipped to the group's size |
| ColumnSplit.ColumnSizeExamples | PersonalPortal.API/Services/ChecklistPdfService.cs:102-111 | 2 items split 1/1/0, 4 items split 2/2/0, 7 items split 3/3/1 |
| Layout.ComposeContent | PersonalPortal.API/Services/ChecklistPdfService.cs:50-160 | the page body built by the loop over the groups is exactly `Content`: the header column, the rule, one block per group in key order, then the placeholder for an empty checklist |
| Layout.ComposeGroup | PersonalPortal.API/Services/ChecklistPdfService.cs:91-147 | the block built by the loop over the three columns is the group's block: its key as title and one cell per column |
| Layout.ComposeColumn | PersonalPortal.API/Services/ChecklistPdfService.cs:115-139 | the loop over a column's items builds one row per item, in order, each as `ItemRowOf` describes it |
| Layout.ItemRowOf | PersonalPortal.API/Services/ChecklistPdfService.cs:128-135 | an item's row: its name, and its description only when that is not blank (definition; stated by `Layout.ItemRowShape`) |
| Layout.Content | PersonalPortal.API/Services/ChecklistPdfService.cs:52-158 | the page body always holds at least three blocks: the header, the rule, and then group blocks or the placeholder |
| Layout.ItemRows | PersonalPortal.API/Services/ChecklistPdfService.cs:117-137 | a column has one row per item, in order, row i being the row of item i |
| Layout.ItemRowShape | PersonalPortal.API/Services/ChecklistPdfService.cs:128-135 | every item row shows the item's name; it has a description line if and only if the description is not blank, and then shows it unchanged |
| Layout.CellRows | PersonalPortal.API/Services/ChecklistPdfService.cs:113-144 | a cell shows the rows of its column's items; an empty slot shows none |
| Layout.GroupBlockShape | PersonalPortal.API/Services/ChecklistPdfService.cs:93-146 | a group's block is titled with its key and has three cells numbered 0, 1, 2; cell k holds items exactly when column k is non-empty, and then shows that column's rows |
| Layout.GroupCells | PersonalPortal.API/Services/ChecklistPdfService.cs:106-144 | a non-empty group's block has three numbered cells; the first holds items, and a cell holds items only if the cell on its left does |
| Layout.GroupRows | PersonalPortal.API/Services/ChecklistPdfService.cs:104-146 | the cells of a group's block, left to right, show the rows of all the group's items in order |
| Layout.GroupBlocksAt | PersonalPortal.API/Services/ChecklistPdfService.cs:89-148 | the i-th group block is the block of the i-th sorted group |
| Layout.GroupBlocksRows | PersonalPortal.API/Services/ChecklistPdfService.cs:89-148 | the group blocks, top to bottom, show the rows of the groups' items in group order |
| Layout.ContentLayout | PersonalPortal.API/Services/ChecklistPdfService.cs:52-158 | the body is the header column and the rule, then exactly one group block per sorted group in key order and no group block elsewhere, then a placeholder only for an empty checklist, and only as the last block |
| Layout.PlaceholderIffEmpty | PersonalPortal.API/Services/ChecklistPdfService.cs:151-158 | the placeholder appears if and only if the checklist has no items; an empty checklist shows just the header, the rule and the placeholder |
| Layout.BlockAt | PersonalPortal.API/Services/ChecklistPdfService.cs:89-148 | a group block of the body lies after the header and is the block of the sorted group at its position |
| Layout.GroupOfBlock | PersonalPortal.API/Services/ChecklistPdfService.cs:85-148 | every group block of the body is the block of a sorted group holding exactly the items of its key, and at least one |
| Layout.TitlesAscending | PersonalPortal.API/Services/ChecklistPdfService.cs:87-98 | group titles appear in strictly ascending key order down the page |
| Layout.BlockForEveryKey | PersonalPortal.API/Services/ChecklistPdfService.cs:85-98 | every item's key is the title of a group block |
| Layout.BlockShowsItsItems | PersonalPortal.API/Services/ChecklistPdfService.cs:85-146 | a group block shows exactly the rows of the items with its key, in the checklist's order, and some item has that key |
| Layout.ThreeCellsPerGroup | PersonalPortal.API/Services/ChecklistPdfService.cs:104-146 | every group block on the page has three cells numbered 0, 1, 2, filled from the left, the first never empty |
| Layout.OnlyGroupsHaveRows | PersonalPortal.API/Services/ChecklistPdfService.cs:55-82 | the header, the rule and the placeholder show no item rows |
| Layout.ContentRows | PersonalPortal.API/Services/ChecklistPdfService.cs:85-158 | the item rows of the whole body are the rows of the sorted groups' items, in that order |
| Layout.EveryItemOnce | PersonalPortal.API/Services/ChecklistPdfService.cs:85-148 | every item of the checklist gets exactly one row on the page: as a collection, the rows are the rows of the checklist's items |
| Layout.ItemRowsPermute | PersonalPortal.API/Services/ChecklistPdfService.cs:117-137 | rearranging items rearranges their rows the same way |
| Camping.CampingGroupBy | PersonalPortal.API/Services/ChecklistPdfService.cs:85-86 | a tent and a stove labelled "Gear" and an unlabelled map group as Gear (tent, stove), then General (map) |
| Camping.CampingGroups | PersonalPortal.API/Services/ChecklistPdfService.cs:85-87 | after sorting, Gear still comes before General |
| Camping.TwoItemBlock | PersonalPortal.API/Services/ChecklistPdfService.cs:101-144 | a two-item group shows one item in each of the first two cells and leaves the third empty |
| Camping.OneItemBlock | PersonalPortal.API/Services/ChecklistPdfService.cs:101-144 | a one-item group shows it in the first cell and leaves two empty |
| Camping.CampingPage | PersonalPortal.API/Services/ChecklistPdfService.cs:50-160 | the camping checklist's body is, block by block: the header column, the rule, Gear with tent / stove / empty, General with map / empty / empty, and no placeholder |

## Left out

- Fonts, sizes, colours, borders and paddings are not modelled, including the right padding of the first two cells. The page size, margins, the header and footer (`ComposeHeader`, `ComposeFooter`) and page numbers are also out: they are calls into the PDF library.
- `GeneratePdf`, the byte stream it returns and the library licence setting are out: they are foreign calls.
- Date formatting is out. `Created` and `Updated` are kept as opaque numbers in the `Header` block, because converting to local time and formatting with "g" depends on the clock and the culture. The footer's generation time is out for the same reason.
- `Capacity` uses integer `(n + 2) / 3` instead of the floating-point `Math.Ceiling(n / 3.0)`. The two agree for every list size a `List` can have.
- Grouping.SortByKey: orders keys by `Text.Less`, the code point order of Dafny characters. .NET's default string comparer for `OrderBy` is culture-sensitive, and can order some keys differently, for example by case or by punctuation. Even .NET's ordinal order compares UTF-16 code units, which differs from code point order for keys with characters above U+FFFF.
- A null `Description` is not modelled. The property is declared non-nullable and defaults to the empty string.
- `Id` and `ChecklistId` of the records are not modelled, because the layout never reads them.
- The repositories, controllers, the web client services and the other content types are not part of this model. They are database access, HTTP routing and UI glue with no layout logic.
