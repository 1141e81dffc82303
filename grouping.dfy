/**
  The grouping step of the exporter: every item gets a group key (its label,
  or "General" when the label is null or blank), the items are grouped by
  that key with LINQ `GroupBy`, and the groups are ordered by key with LINQ
  `OrderBy`.

  `GroupBy` is modelled as LINQ's lookup builds it (a left fold that appends an
  item to the group of its key, opening a new group at the end for a key not
  seen yet), and `OrderBy` as a stable insertion sort on the key under the
  ordinal order of `Text.Less`.
*/
module Grouping {
  import opened Text
  import opened Checklists

  /** The synthetic group of items whose group label is null or blank. */
  const General: string := "General"

  /** One group of the layout: its key and its items, in input order. */
  datatype Group = Group(key: string, items: seq<ChecklistItem>)

  /**
    The group key of an item: "General" for a null, empty or whitespace-only
    label, otherwise the label exactly as stored (no trimming, no case folding).
  */
  function GroupKey(item: ChecklistItem): (k: string)
    ensures !IsBlank(k)
    ensures IsNullOrWhiteSpace(item.group) ==> k == General
    ensures item.group.Some? && !IsBlank(item.group.value) ==> k == item.group.value
  {
    assert !IsBlank(General) by { assert !IsWhiteSpace(General[0]); }
    if IsNullOrWhiteSpace(item.group) then General else item.group.value
  }

  /**
    Two items share a group exactly when both labels are blank, or both are
    the same non-blank label, or one is blank and the other is literally
    "General".
  */
  lemma SameGroupIff(a: ChecklistItem, b: ChecklistItem)
    ensures GroupKey(a) == GroupKey(b) <==>
      || (IsNullOrWhiteSpace(a.group) && IsNullOrWhiteSpace(b.group))
      || (!IsNullOrWhiteSpace(a.group) && !IsNullOrWhiteSpace(b.group) && a.group.value == b.group.value)
      || (IsNullOrWhiteSpace(a.group) && b.group == Some(General))
      || (IsNullOrWhiteSpace(b.group) && a.group == Some(General))
  {
  }

  /** Labels differing by case or by surrounding spaces are different groups. */
  lemma LabelsAreVerbatim()
    ensures GroupKey(ChecklistItem("Tent", "", Some(" Gear"))) != GroupKey(ChecklistItem("Tent", "", Some("Gear")))
    ensures GroupKey(ChecklistItem("Tent", "", Some("gear"))) != GroupKey(ChecklistItem("Tent", "", Some("Gear")))
    ensures GroupKey(ChecklistItem("Map", "", Some("general"))) != GroupKey(ChecklistItem("Map", "", None))
    ensures GroupKey(ChecklistItem("Map", "", Some("   "))) == GroupKey(ChecklistItem("Map", "", None))
  {
    LabelKey(ChecklistItem("Tent", "", Some(" Gear")), 1);
    LabelKey(ChecklistItem("Tent", "", Some("Gear")), 0);
    LabelKey(ChecklistItem("Tent", "", Some("gear")), 0);
    LabelKey(ChecklistItem("Map", "", Some("general")), 0);
    assert " Gear"[0] != "Gear"[0];
    assert "gear"[0] != "Gear"[0];
    assert "general"[0] != General[0];
  }

  /** A label with a character that is not white space is its own key. */
  lemma LabelKey(item: ChecklistItem, i: nat)
    requires item.group.Some? && i < |item.group.value| && !IsWhiteSpace(item.group.value[i])
    ensures GroupKey(item) == item.group.value
  {
  }

  /** The keys of a sequence of groups, in order. */
  function Keys(gs: seq<Group>): (ks: seq<string>)
    ensures |ks| == |gs|
    ensures forall i :: 0 <= i < |gs| ==> ks[i] == gs[i].key
  {
    seq(|gs|, i requires 0 <= i < |gs| => gs[i].key)
  }

  lemma KeysAppend(gs: seq<Group>, g: Group)
    ensures Keys(gs + [g]) == Keys(gs) + [g.key]
  {
  }

  /** All items of the groups, group after group. */
  function Flatten(gs: seq<Group>): seq<ChecklistItem>
  {
    if gs == [] then [] else gs[0].items + Flatten(gs[1..])
  }

  /** The items of key `k`, in input order. */
  function Filter(items: seq<ChecklistItem>, k: string): (r: seq<ChecklistItem>)
    ensures forall it :: it in r <==> it in items && GroupKey(it) == k
    ensures |r| <= |items|
  {
    if items == [] then []
    else
      var last := items[|items| - 1];
      Filter(items[..|items| - 1], k) + (if GroupKey(last) == k then [last] else [])
  }

  /** Adding one item to the lookup: append to its key's group, or open a new group last. */
  function Add(gs: seq<Group>, item: ChecklistItem): (r: seq<Group>)
    ensures |gs| <= |r| <= |gs| + 1
  {
    if gs == [] then [Group(GroupKey(item), [item])]
    else if gs[0].key == GroupKey(item) then [Group(gs[0].key, gs[0].items + [item])] + gs[1..]
    else [gs[0]] + Add(gs[1..], item)
  }

  /** LINQ `GroupBy`: groups in order of first appearance of their key. */
  function GroupBy(items: seq<ChecklistItem>): (gs: seq<Group>)
    ensures |gs| <= |items|
    ensures gs == [] <==> items == []
  {
    if items == [] then []
    else Add(GroupBy(items[..|items| - 1]), items[|items| - 1])
  }

  /**
    Insertion of one group into a sorted sequence, before the first group
    whose key is not smaller: a group that came earlier stays before any
    later group with an equal key, so the sort is stable.
  */
  function Insert(g: Group, s: seq<Group>): (r: seq<Group>)
    ensures |r| == |s| + 1
  {
    if s == [] then [g]
    else if Less(s[0].key, g.key) then [s[0]] + Insert(g, s[1..])
    else [g] + s
  }

  /** LINQ `OrderBy(g => g.Key)`. */
  function SortByKey(gs: seq<Group>): (r: seq<Group>)
    ensures |r| == |gs|
  {
    if gs == [] then [] else Insert(gs[0], SortByKey(gs[1..]))
  }

  /** The groups the exporter walks, in the order it renders them. */
  function Grouped(items: seq<ChecklistItem>): (gs: seq<Group>)
    ensures |gs| <= |items|
    ensures gs == [] <==> items == []
  {
    SortByKey(GroupBy(items))
  }

  ghost predicate DistinctKeys(gs: seq<Group>)
  {
    forall i, j :: 0 <= i < j < |gs| ==> gs[i].key != gs[j].key
  }

  ghost predicate StrictlySorted(gs: seq<Group>)
  {
    forall i, j :: 0 <= i < j < |gs| ==> Less(gs[i].key, gs[j].key)
  }

  /** Each group holds exactly the items of its key, in input order, and at least one. */
  ghost predicate GroupsMatch(gs: seq<Group>, items: seq<ChecklistItem>)
  {
    forall i :: 0 <= i < |gs| ==> gs[i].items == Filter(items, gs[i].key) && gs[i].items != []
  }

  /** The key of every item is the key of some group. */
  ghost predicate Covers(gs: seq<Group>, items: seq<ChecklistItem>)
  {
    forall it :: it in items ==> GroupKey(it) in Keys(gs)
  }

  /**
    `gs` partitions `items` by key: one non-empty group per key, each holding
    exactly the items of its key in input order, every item's key present,
    and nothing lost or duplicated overall.
  */
  ghost predicate Partitions(gs: seq<Group>, items: seq<ChecklistItem>)
  {
    && DistinctKeys(gs)
    && GroupsMatch(gs, items)
    && Covers(gs, items)
    && multiset(Flatten(gs)) == multiset(items)
  }

  lemma {:induction false} FlattenAppend(gs: seq<Group>, g: Group)
    ensures Flatten(gs + [g]) == Flatten(gs) + g.items
  {
    if gs != [] {
      assert (gs + [g])[1..] == gs[1..] + [g];
      FlattenAppend(gs[1..], g);
    }
  }

  lemma {:induction false} FlattenConcat(a: seq<Group>, b: seq<Group>)
    ensures Flatten(a + b) == Flatten(a) + Flatten(b)
  {
    if a != [] {
      assert (a + b)[0] == a[0] && (a + b)[1..] == a[1..] + b;
      FlattenConcat(a[1..], b);
      assert Flatten(a + b) == a[0].items + (Flatten(a[1..]) + Flatten(b));
    } else {
      assert a + b == b;
    }
  }

  /** `Add` appends the item to the first group of its key, leaving the others alone. */
  lemma {:induction false} AddToExisting(gs: seq<Group>, item: ChecklistItem, j: nat)
    requires j < |gs| && gs[j].key == GroupKey(item)
    requires forall i :: 0 <= i < j ==> gs[i].key != GroupKey(item)
    ensures Add(gs, item) == gs[..j] + [Group(gs[j].key, gs[j].items + [item])] + gs[j + 1..]
  {
    if j > 0 {
      AddToExisting(gs[1..], item, j - 1);
      assert gs[..j] == [gs[0]] + gs[1..][..j - 1];
      assert gs[j + 1..] == gs[1..][j..];
    }
  }

  /** `Add` opens a new group, last, for a key not seen yet. */
  lemma {:induction false} AddToNew(gs: seq<Group>, item: ChecklistItem)
    requires GroupKey(item) !in Keys(gs)
    ensures Add(gs, item) == gs + [Group(GroupKey(item), [item])]
  {
    if gs != [] {
      KeysTail(gs, GroupKey(item));
      AddToNew(gs[1..], item);
      assert gs == [gs[0]] + gs[1..];
    }
  }

  /** A key missing from a sequence of groups is neither its head's key nor in its tail. */
  lemma KeysTail(gs: seq<Group>, k: string)
    requires gs != [] && k !in Keys(gs)
    ensures gs[0].key != k && k !in Keys(gs[1..])
  {
    assert Keys(gs)[0] == gs[0].key;
    forall i | 0 <= i < |gs| - 1
      ensures Keys(gs[1..])[i] != k
    {
      assert Keys(gs[1..])[i] == Keys(gs)[i + 1];
    }
  }

  lemma FilterAppend(items: seq<ChecklistItem>, item: ChecklistItem, k: string)
    ensures Filter(items + [item], k) == Filter(items, k) + (if GroupKey(item) == k then [item] else [])
  {
    assert (items + [item])[..|items|] == items;
  }

  /** Flattening around one group: the items before it, its own, the items after it. */
  lemma FlattenAround(pre: seq<Group>, x: Group, post: seq<Group>)
    ensures Flatten(pre + [x] + post) == Flatten(pre) + x.items + Flatten(post)
  {
    FlattenConcat(pre + [x], post);
    FlattenAppend(pre, x);
  }

  lemma FlattenSplice(gs: seq<Group>, j: nat, g: Group)
    requires j < |gs|
    ensures multiset(Flatten(gs[..j] + [g] + gs[j + 1..])) + multiset(gs[j].items)
         == multiset(Flatten(gs)) + multiset(g.items)
  {
    var pre, post := gs[..j], gs[j + 1..];
    assert gs == pre + [gs[j]] + post;
    FlattenAround(pre, gs[j], post);
    FlattenAround(pre, g, post);
  }

  lemma MultisetCancel<T>(x: multiset<T>, a: multiset<T>, m: multiset<T>, t: T)
    requires x + a == m + (a + multiset{t})
    ensures x == m + multiset{t}
  {
    assert x == (x + a) - a;
  }

  lemma FilterNone(items: seq<ChecklistItem>, k: string)
    requires forall it :: it in items ==> GroupKey(it) != k
    ensures Filter(items, k) == []
  {
    var f := Filter(items, k);
    assert forall i :: 0 <= i < |f| ==> f[i] in f;
  }

  /** Replacing the element at `j` changes that element and no other. */
  lemma SpliceAt<T>(s: seq<T>, j: nat, x: T)
    requires j < |s|
    ensures var r := s[..j] + [x] + s[j + 1..];
      |r| == |s| && r[j] == x && forall i :: 0 <= i < |s| && i != j ==> r[i] == s[i]
  {
  }

  /** The groups after appending an item to group `j` still match the items seen. */
  lemma SpliceMatches(gs: seq<Group>, items: seq<ChecklistItem>, item: ChecklistItem, j: nat)
    requires DistinctKeys(gs) && GroupsMatch(gs, items)
    requires j < |gs| && gs[j].key == GroupKey(item)
    ensures GroupsMatch(gs[..j] + [Group(gs[j].key, gs[j].items + [item])] + gs[j + 1..], items + [item])
  {
    var r := gs[..j] + [Group(gs[j].key, gs[j].items + [item])] + gs[j + 1..];
    SpliceAt(gs, j, Group(gs[j].key, gs[j].items + [item]));
    forall i | 0 <= i < |r|
      ensures r[i].items == Filter(items + [item], r[i].key) && r[i].items != []
    {
      FilterAppend(items, item, r[i].key);
    }
  }

  /** The next item's key already has a group: the lookup stays a partition. */
  lemma AddToExistingPartitions(gs: seq<Group>, items: seq<ChecklistItem>, item: ChecklistItem, j: nat)
    requires Partitions(gs, items)
    requires j < |gs| && gs[j].key == GroupKey(item)
    ensures Partitions(Add(gs, item), items + [item])
  {
    var g' := Group(gs[j].key, gs[j].items + [item]);
    var r := gs[..j] + [g'] + gs[j + 1..];
    AddToExisting(gs, item, j);
    SpliceAt(gs, j, g');
    assert Keys(r) == Keys(gs);
    assert DistinctKeys(r);
    SpliceMatches(gs, items, item, j);
    assert Covers(r, items + [item]);
    FlattenSplice(gs, j, g');
    assert multiset(g'.items) == multiset(gs[j].items) + multiset{item};
    assert multiset(items + [item]) == multiset(items) + multiset{item};
    MultisetCancel(multiset(Flatten(r)), multiset(gs[j].items), multiset(items), item);
  }

  /** A new last group for a new key still matches the items seen. */
  lemma NewGroupMatches(gs: seq<Group>, items: seq<ChecklistItem>, item: ChecklistItem)
    requires GroupsMatch(gs, items) && Covers(gs, items)
    requires GroupKey(item) !in Keys(gs)
    ensures GroupsMatch(gs + [Group(GroupKey(item), [item])], items + [item])
  {
    var r := gs + [Group(GroupKey(item), [item])];
    FilterNone(items, GroupKey(item));
    forall i | 0 <= i < |r|
      ensures r[i].items == Filter(items + [item], r[i].key) && r[i].items != []
    {
      FilterAppend(items, item, r[i].key);
      if i < |gs| {
        assert r[i].key == Keys(gs)[i];
      }
    }
  }

  /** The next item's key is new: the lookup stays a partition. */
  lemma AddToNewPartitions(gs: seq<Group>, items: seq<ChecklistItem>, item: ChecklistItem)
    requires Partitions(gs, items)
    requires GroupKey(item) !in Keys(gs)
    ensures Partitions(Add(gs, item), items + [item])
  {
    var g := Group(GroupKey(item), [item]);
    var r := gs + [g];
    AddToNew(gs, item);
    KeysAppend(gs, g);
    assert DistinctKeys(r) by {
      forall i | 0 <= i < |gs|
        ensures r[i].key != g.key
      {
        assert r[i].key == Keys(gs)[i];
      }
    }
    NewGroupMatches(gs, items, item);
    assert Covers(r, items + [item]);
    FlattenAppend(gs, g);
  }

  /** Adding the next item keeps the lookup a partition of the items seen so far. */
  lemma AddPartitions(gs: seq<Group>, items: seq<ChecklistItem>, item: ChecklistItem)
    requires Partitions(gs, items)
    ensures Partitions(Add(gs, item), items + [item])
  {
    if GroupKey(item) in Keys(gs) {
      var j :| 0 <= j < |gs| && gs[j].key == GroupKey(item);
      AddToExistingPartitions(gs, items, item, j);
    } else {
      AddToNewPartitions(gs, items, item);
    }
  }

  /** LINQ `GroupBy` partitions the items by key. */
  lemma {:induction false} GroupByPartitions(items: seq<ChecklistItem>)
    ensures Partitions(GroupBy(items), items)
  {
    if items != [] {
      var init, last := items[..|items| - 1], items[|items| - 1];
      assert items == init + [last];
      GroupByPartitions(init);
      AddPartitions(GroupBy(init), init, last);
    }
  }

  /** Insertion adds exactly one group to the sequence. */
  lemma {:induction false} InsertPermutes(g: Group, s: seq<Group>)
    ensures multiset(Insert(g, s)) == multiset(s) + multiset{g}
  {
    if s != [] && Less(s[0].key, g.key) {
      InsertPermutes(g, s[1..]);
      assert s == [s[0]] + s[1..];
    }
  }

  /** Insertion adds exactly the inserted group's items to the items held. */
  lemma {:induction false} InsertFlatten(g: Group, s: seq<Group>)
    ensures multiset(Flatten(Insert(g, s))) == multiset(g.items) + multiset(Flatten(s))
  {
    if s != [] {
      if Less(s[0].key, g.key) {
        var t := Insert(g, s[1..]);
        InsertFlatten(g, s[1..]);
        assert ([s[0]] + t)[0] == s[0] && ([s[0]] + t)[1..] == t;
        assert Flatten([s[0]] + t) == s[0].items + Flatten(t);
      } else {
        assert ([g] + s)[0] == g && ([g] + s)[1..] == s;
        assert Flatten([g] + s) == g.items + Flatten(s);
      }
    }
  }

  /** A group whose key is below every key of a sorted sequence can go in front of it. */
  lemma ConsSorted(g: Group, t: seq<Group>)
    requires StrictlySorted(t)
    requires forall x :: x in t ==> Less(g.key, x.key)
    ensures StrictlySorted([g] + t)
  {
    forall i, j | 0 <= i < j < |t| + 1
      ensures Less(([g] + t)[i].key, ([g] + t)[j].key)
    {
      assert ([g] + t)[j] == t[j - 1];
    }
  }

  /** After the head of a sorted sequence, the rest and a larger group all sort above it. */
  lemma AboveHead(s: seq<Group>, g: Group, t: seq<Group>)
    requires StrictlySorted(s) && s != [] && Less(s[0].key, g.key)
    requires multiset(t) == multiset(s[1..]) + multiset{g}
    ensures forall x :: x in t ==> Less(s[0].key, x.key)
  {
    forall x | x in t
      ensures Less(s[0].key, x.key)
    {
      assert x in multiset(t);
      if x != g {
        assert x in multiset(s[1..]);
        var i :| 0 <= i < |s[1..]| && s[1..][i] == x;
        assert s[i + 1] == x;
      }
    }
  }

  /** A key below the head of a sorted sequence is below all of it. */
  lemma BelowHead(g: Group, s: seq<Group>)
    requires StrictlySorted(s) && s != []
    requires !Less(s[0].key, g.key) && g.key != s[0].key
    ensures forall x :: x in s ==> Less(g.key, x.key)
  {
    LessTotal(g.key, s[0].key);
    forall x | x in s
      ensures Less(g.key, x.key)
    {
      var j :| 0 <= j < |s| && s[j] == x;
      if j > 0 {
        LessTransitive(g.key, s[0].key, s[j].key);
      }
    }
  }

  /** Inserting a group with a new key into a sorted sequence keeps it sorted. */
  lemma {:induction false} InsertSorted(g: Group, s: seq<Group>)
    requires StrictlySorted(s)
    requires g.key !in Keys(s)
    ensures StrictlySorted(Insert(g, s))
  {
    if s != [] {
      KeysTail(s, g.key);
      if Less(s[0].key, g.key) {
        InsertSorted(g, s[1..]);
        InsertPermutes(g, s[1..]);
        AboveHead(s, g, Insert(g, s[1..]));
        ConsSorted(s[0], Insert(g, s[1..]));
      } else {
        BelowHead(g, s);
        ConsSorted(g, s);
      }
    }
  }

  /** `OrderBy` permutes the groups. */
  lemma {:induction false} SortByKeyPermutes(gs: seq<Group>)
    ensures multiset(SortByKey(gs)) == multiset(gs)
  {
    if gs != [] {
      SortByKeyPermutes(gs[1..]);
      InsertPermutes(gs[0], SortByKey(gs[1..]));
      assert gs == [gs[0]] + gs[1..];
    }
  }

  /** `OrderBy` keeps the items the groups hold, each as often as before. */
  lemma {:induction false} SortByKeyFlatten(gs: seq<Group>)
    ensures multiset(Flatten(SortByKey(gs))) == multiset(Flatten(gs))
  {
    if gs != [] {
      SortByKeyFlatten(gs[1..]);
      InsertFlatten(gs[0], SortByKey(gs[1..]));
      assert Flatten(gs) == gs[0].items + Flatten(gs[1..]);
    }
  }

  /** A key absent from a sequence of groups is absent from any permutation of it. */
  lemma KeyNotInPermutation(s: seq<Group>, t: seq<Group>, k: string)
    requires multiset(s) == multiset(t)
    requires k !in Keys(t)
    ensures k !in Keys(s)
  {
    forall i | 0 <= i < |s|
      ensures Keys(s)[i] != k
    {
      assert s[i] in multiset(t);
      var j :| 0 <= j < |t| && t[j] == s[i];
      assert Keys(t)[j] == s[i].key;
    }
  }

  /** `OrderBy` on distinct keys yields strictly ascending keys. */
  lemma {:induction false} SortByKeySorted(gs: seq<Group>)
    requires DistinctKeys(gs)
    ensures StrictlySorted(SortByKey(gs))
  {
    if gs != [] {
      var rest := SortByKey(gs[1..]);
      SortByKeySorted(gs[1..]);
      SortByKeyPermutes(gs[1..]);
      assert gs[0].key !in Keys(gs[1..]) by {
        forall i | 0 <= i < |gs| - 1
          ensures Keys(gs[1..])[i] != gs[0].key
        {
          assert gs[1..][i] == gs[i + 1];
        }
      }
      KeyNotInPermutation(rest, gs[1..], gs[0].key);
      InsertSorted(gs[0], rest);
    }
  }

  /** Strictly ascending keys are distinct. */
  lemma SortedDistinct(gs: seq<Group>)
    requires StrictlySorted(gs)
    ensures DistinctKeys(gs)
  {
    forall i, j | 0 <= i < j < |gs|
      ensures gs[i].key != gs[j].key
    {
      if gs[i].key == gs[j].key {
        LessIrreflexive(gs[i].key);
      }
    }
  }

  lemma PermutedGroupsMatch(s: seq<Group>, t: seq<Group>, items: seq<ChecklistItem>)
    requires multiset(s) == multiset(t)
    requires GroupsMatch(t, items)
    ensures GroupsMatch(s, items)
  {
    forall i | 0 <= i < |s|
      ensures s[i].items == Filter(items, s[i].key) && s[i].items != []
    {
      assert s[i] in multiset(t);
      var j :| 0 <= j < |t| && t[j] == s[i];
    }
  }

  lemma PermutedCovers(s: seq<Group>, t: seq<Group>, items: seq<ChecklistItem>)
    requires multiset(s) == multiset(t)
    requires Covers(t, items)
    ensures Covers(s, items)
  {
    forall it | it in items
      ensures GroupKey(it) in Keys(s)
    {
      var j :| 0 <= j < |t| && Keys(t)[j] == GroupKey(it);
      assert t[j] in multiset(s);
      var i :| 0 <= i < |s| && s[i] == t[j];
      assert Keys(s)[i] == GroupKey(it);
    }
  }

  /**
    The groups the exporter renders partition the checklist's items by key
    and come in strictly ascending key order (so no key is repeated).
  */
  lemma GroupedPartitions(items: seq<ChecklistItem>)
    ensures StrictlySorted(Grouped(items))
    ensures Partitions(Grouped(items), items)
    ensures |Flatten(Grouped(items))| == |items|
  {
    var gs := GroupBy(items);
    var r := Grouped(items);
    GroupByPartitions(items);
    SortByKeySorted(gs);
    SortByKeyPermutes(gs);
    SortByKeyFlatten(gs);
    SortedDistinct(r);
    PermutedGroupsMatch(r, gs, items);
    PermutedCovers(r, gs, items);
    assert |multiset(Flatten(r))| == |multiset(items)|;
  }

  /** Every item of the checklist lies in exactly one rendered group: the one of its key. */
  lemma ItemInItsGroupOnly(items: seq<ChecklistItem>, item: ChecklistItem)
    requires item in items
    ensures exists i :: 0 <= i < |Grouped(items)| && Grouped(items)[i].key == GroupKey(item)
    ensures forall i :: 0 <= i < |Grouped(items)| ==>
      (item in Grouped(items)[i].items <==> Grouped(items)[i].key == GroupKey(item))
  {
    GroupedPartitions(items);
    assert GroupKey(item) in Keys(Grouped(items));
  }

  /** The rendered groups come in strictly ascending key order. */
  lemma GroupedSorted(items: seq<ChecklistItem>)
    ensures StrictlySorted(Grouped(items))
  {
    GroupedPartitions(items);
  }

  /** A rendered group holds the items of its key, in input order, and at least one. */
  lemma GroupedAt(items: seq<ChecklistItem>, k: nat)
    requires k < |Grouped(items)|
    ensures var g := Grouped(items)[k];
      g.items == Filter(items, g.key) && g.items != []
  {
    GroupedPartitions(items);
  }

  /** Every item's key is the key of a rendered group. */
  lemma GroupedCovers(items: seq<ChecklistItem>, item: ChecklistItem)
    requires item in items
    ensures exists k :: 0 <= k < |Grouped(items)| && Grouped(items)[k].key == GroupKey(item)
  {
    GroupedPartitions(items);
    assert GroupKey(item) in Keys(Grouped(items));
  }

  /** Reading the groups one after the other gives back the items, each once. */
  lemma GroupedPermutes(items: seq<ChecklistItem>)
    ensures multiset(Flatten(Grouped(items))) == multiset(items)
  {
    GroupedPartitions(items);
  }

  /** A checklist without items has no group at all. */
  lemma GroupedEmpty()
    ensures Grouped([]) == []
  {
  }
}
