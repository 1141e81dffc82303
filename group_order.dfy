/**
  A worked case of the grouping step: five items labelled "Pantry", none,
  "Fridge", "Pantry" and " " (a single space). LINQ `GroupBy` lists the keys
  in order of first appearance, Pantry, General, Fridge, and `OrderBy` then
  renders them as Fridge, General, Pantry; the unlabelled item and the
  blank-labelled one share the General group, in input order.
*/
module GroupOrder {
  import opened Text
  import opened Checklists
  import opened Grouping

  const Pantry: string := "Pantry"
  const Fridge: string := "Fridge"

  /**
    The five items of the case render as three groups: Fridge with the third
    item, General with the second and fifth, Pantry with the first and fourth.
  */
  lemma GroupOrderExample(a: ChecklistItem, b: ChecklistItem, c: ChecklistItem, d: ChecklistItem, e: ChecklistItem)
    requires a.group == Some(Pantry) && b.group == None && c.group == Some(Fridge)
    requires d.group == Some(Pantry) && e.group == Some(" ")
    ensures Grouped([a, b, c, d, e]) == [Group(Fridge, [c]), Group(General, [b, e]), Group(Pantry, [a, d])]
  {
    ExampleGroupBy(a, b, c, d, e);
    ExampleSort(Group(Pantry, [a, d]), Group(General, [b, e]), Group(Fridge, [c]));
  }

  /** The keys of the five items, and the three keys are different. */
  lemma ExampleKeys(a: ChecklistItem, b: ChecklistItem, c: ChecklistItem, d: ChecklistItem, e: ChecklistItem)
    requires a.group == Some(Pantry) && b.group == None && c.group == Some(Fridge)
    requires d.group == Some(Pantry) && e.group == Some(" ")
    ensures GroupKey(a) == Pantry && GroupKey(b) == General && GroupKey(c) == Fridge
    ensures GroupKey(d) == Pantry && GroupKey(e) == General
    ensures General != Pantry && Fridge != Pantry && Fridge != General
  {
    LabelKey(a, 0);
    LabelKey(c, 0);
    LabelKey(d, 0);
    assert General[0] != Pantry[0] && Fridge[0] != Pantry[0] && Fridge[0] != General[0];
  }

  /** `Add` on three groups when the item belongs to the first. */
  lemma AppendToFirst(x: Group, y: Group, z: Group, item: ChecklistItem)
    requires x.key == GroupKey(item)
    ensures Add([x, y, z], item) == [Group(x.key, x.items + [item]), y, z]
  {
    assert [x, y, z][1..] == [y, z];
  }

  /** `Add` on three groups when the item belongs to the second. */
  lemma AppendToSecond(x: Group, y: Group, z: Group, item: ChecklistItem)
    requires x.key != GroupKey(item) && y.key == GroupKey(item)
    ensures Add([x, y, z], item) == [x, Group(y.key, y.items + [item]), z]
  {
    assert [x, y, z][1..] == [y, z];
  }

  /** The first three items open one group each, in order of appearance. */
  lemma ExampleFirstThree(a: ChecklistItem, b: ChecklistItem, c: ChecklistItem)
    requires GroupKey(a) == Pantry && GroupKey(b) == General && GroupKey(c) == Fridge
    requires General != Pantry && Fridge != Pantry && Fridge != General
    ensures GroupBy([a, b, c]) == [Group(Pantry, [a]), Group(General, [b]), Group(Fridge, [c])]
  {
    var s1 := [Group(Pantry, [a])];
    var s2 := s1 + [Group(General, [b])];
    assert GroupBy([a]) == s1;
    assert [a, b][..1] == [a];
    AddToNew(s1, b);
    assert GroupBy([a, b]) == s2;
    assert [a, b, c][..2] == [a, b];
    AddToNew(s2, c);
  }

  /** The fourth item joins the first group. */
  lemma ExampleFirstFour(a: ChecklistItem, b: ChecklistItem, c: ChecklistItem, d: ChecklistItem)
    requires GroupKey(a) == Pantry && GroupKey(b) == General && GroupKey(c) == Fridge && GroupKey(d) == Pantry
    requires General != Pantry && Fridge != Pantry && Fridge != General
    ensures GroupBy([a, b, c, d]) == [Group(Pantry, [a, d]), Group(General, [b]), Group(Fridge, [c])]
  {
    ExampleFirstThree(a, b, c);
    assert [a, b, c, d][..3] == [a, b, c];
    AppendToFirst(Group(Pantry, [a]), Group(General, [b]), Group(Fridge, [c]), d);
    assert [a] + [d] == [a, d];
  }

  /** LINQ `GroupBy` on the five items: keys in order of first appearance. */
  lemma ExampleGroupBy(a: ChecklistItem, b: ChecklistItem, c: ChecklistItem, d: ChecklistItem, e: ChecklistItem)
    requires a.group == Some(Pantry) && b.group == None && c.group == Some(Fridge)
    requires d.group == Some(Pantry) && e.group == Some(" ")
    ensures GroupBy([a, b, c, d, e]) == [Group(Pantry, [a, d]), Group(General, [b, e]), Group(Fridge, [c])]
  {
    ExampleKeys(a, b, c, d, e);
    ExampleFirstFour(a, b, c, d);
    assert [a, b, c, d, e][..4] == [a, b, c, d];
    AppendToSecond(Group(Pantry, [a, d]), Group(General, [b]), Group(Fridge, [c]), e);
    assert [b] + [e] == [b, e];
  }

  /** `OrderBy` puts Fridge, General and Pantry in ordinal order. */
  lemma ExampleSort(p: Group, g: Group, f: Group)
    requires p.key == Pantry && g.key == General && f.key == Fridge
    ensures SortByKey([p, g, f]) == [f, g, p]
  {
    assert Less(Fridge, General) && Less(General, Pantry) && Less(Fridge, Pantry);
    assert [p, g, f][1..] == [g, f] && [g, f][1..] == [f];
    assert SortByKey([f]) == [f];
    assert SortByKey([g, f]) == Insert(g, [f]) == [f, g];
    assert [f, g][1..] == [g];
    assert Insert(p, [f, g]) == [f] + Insert(p, [g]) == [f, g, p];
  }
}
