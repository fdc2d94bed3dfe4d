/** The command palette: a flat list of items shown in groups, each shown item carrying an
    index into the flat list that the mouse and the keyboard act through. */
module CommandPalette {
  import opened Common

  datatype Item = Item(key: string, group: string)

  datatype Group = Group(name: string, items: seq<Item>)

  function OfGroup(items: seq<Item>, name: string): seq<Item> {
    if items == [] then []
    else (if items[0].group == name then [items[0]] else []) + OfGroup(items[1..], name)
  }

  /** The group names in the order they first occur. */
  function Order(items: seq<Item>): (names: seq<string>)
    ensures forall k :: 0 <= k < |items| ==> items[k].group in names
    ensures forall g :: g in names ==> exists k :: 0 <= k < |items| && items[k].group == g
    ensures forall i, j :: 0 <= i < j < |names| ==> names[i] != names[j]
  {
    if items == [] then []
    else
      var n := |items| - 1;
      var names := Order(items[..n]);
      if items[n].group in names then names else names + [items[n].group]
  }

  function Groups(items: seq<Item>): seq<Group> {
    var names := Order(items);
    seq(|names|, i requires 0 <= i < |names| => Group(names[i], OfGroup(items, names[i])))
  }

  function Flat(groups: seq<Group>): seq<Item> {
    if groups == [] then [] else groups[0].items + Flat(groups[1..])
  }

  function CountBefore(groups: seq<Group>, g: nat): nat
    requires g <= |groups|
  {
    if g == 0 then 0 else CountBefore(groups, g - 1) + |groups[g - 1].items|
  }

  function FindGroup(groups: seq<Group>, name: string): nat {
    if groups == [] || groups[0].name == name then 0 else 1 + FindGroup(groups[1..], name)
  }

  /** A shown item: the group it is in and its place there. */
  predicate Shown(items: seq<Item>, g: nat, local: nat) {
    g < |Groups(items)| && local < |Groups(items)[g].items|
  }

  function ShownItem(items: seq<Item>, g: nat, local: nat): Item
    requires Shown(items, g, local)
  {
    Groups(items)[g].items[local]
  }

  /** The index the shown item carries: what the groups before the first of its name hold,
      and its place. */
  function RenderedIndex(items: seq<Item>, g: nat, local: nat): nat
    requires Shown(items, g, local)
  {
    FindGroupInRange(Groups(items), g);
    CountBefore(Groups(items), FindGroup(Groups(items), Groups(items)[g].name)) + local
  }

  lemma {:induction false} FindGroupInRange(groups: seq<Group>, g: nat)
    requires g < |groups|
    ensures FindGroup(groups, groups[g].name) <= g
    decreases g
  {
    if groups[0].name != groups[g].name {
      assert groups[1..][g - 1] == groups[g];
      FindGroupInRange(groups[1..], g - 1);
    }
  }

  lemma {:induction false} FindGroupSelf(groups: seq<Group>, g: nat)
    requires g < |groups|
    requires forall i, j :: 0 <= i < j < |groups| ==> groups[i].name != groups[j].name
    ensures FindGroup(groups, groups[g].name) == g
    decreases g
  {
    if g > 0 {
      assert groups[0].name != groups[g].name;
      assert groups[1..][g - 1] == groups[g];
      FindGroupSelf(groups[1..], g - 1);
    }
  }

  // ---------- The index is a position in what is shown ----------

  lemma {:induction false} FlatSplits(groups: seq<Group>, g: nat)
    requires g <= |groups|
    ensures Flat(groups) == Flat(groups[..g]) + Flat(groups[g..]) && |Flat(groups[..g])| == CountBefore(groups, g)
    decreases g
  {
    if g == 0 {
      assert groups[..0] == [] && groups[0..] == groups;
    } else {
      FlatSplits(groups, g - 1);
      assert groups[g - 1..][1..] == groups[g..];
      FlatSnoc(groups[..g - 1], groups[g - 1]);
      assert groups[..g] == groups[..g - 1] + [groups[g - 1]];
    }
  }

  lemma {:induction false} FlatSnoc(groups: seq<Group>, last: Group)
    ensures Flat(groups + [last]) == Flat(groups) + last.items
    decreases |groups|
  {
    if groups == [] {
      assert [] + [last] == [last] && [last][1..] == [];
    } else {
      assert (groups + [last])[1..] == groups[1..] + [last];
      FlatSnoc(groups[1..], last);
    }
  }

  /** The item shown at (g, local) is the one at its rendered index in the groups laid end to
      end. */
  lemma RenderedIndexInFlat(items: seq<Item>, g: nat, local: nat)
    requires Shown(items, g, local)
    ensures var index := RenderedIndex(items, g, local);
      && index == CountBefore(Groups(items), g) + local
      && index < |Flat(Groups(items))|
      && Flat(Groups(items))[index] == ShownItem(items, g, local)
  {
    var groups := Groups(items);
    FindGroupSelf(groups, g);
    FlatSplits(groups, g);
    assert groups[g..][0] == groups[g];
  }

  /** No two shown items carry the same index. */
  lemma RenderedIndexInjective(items: seq<Item>, g: nat, local: nat, g': nat, local': nat)
    requires Shown(items, g, local) && Shown(items, g', local')
    requires RenderedIndex(items, g, local) == RenderedIndex(items, g', local')
    ensures g == g' && local == local'
  {
    RenderedIndexInFlat(items, g, local);
    RenderedIndexInFlat(items, g', local');
    if g < g' {
      CountGrows(Groups(items), g, g');
    } else if g' < g {
      CountGrows(Groups(items), g', g);
    }
  }

  lemma {:induction false} CountGrows(groups: seq<Group>, g: nat, g': nat)
    requires g < g' <= |groups|
    ensures CountBefore(groups, g) + |groups[g].items| <= CountBefore(groups, g')
    decreases g'
  {
    if g < g' - 1 {
      CountGrows(groups, g, g' - 1);
    }
  }

  lemma {:induction false} FlatHasPlace(groups: seq<Group>, k: nat) returns (g: nat, local: nat)
    requires k < |Flat(groups)|
    ensures g < |groups| && local < |groups[g].items| && k == CountBefore(groups, g) + local
    decreases |groups|
  {
    var n := |groups| - 1;
    FlatSplits(groups, n);
    assert groups[n..] == [groups[n]] && [groups[n]][1..] == [];
    assert Flat(groups[n..]) == groups[n].items + [];
    if k < |Flat(groups[..n])| {
      g, local := FlatHasPlace(groups[..n], k);
      CountPrefix(groups, n, g);
    } else {
      g, local := n, k - CountBefore(groups, n);
    }
  }

  lemma {:induction false} CountPrefix(groups: seq<Group>, n: nat, g: nat)
    requires g <= n <= |groups|
    ensures CountBefore(groups[..n], g) == CountBefore(groups, g)
    decreases g
  {
    if g > 0 {
      CountPrefix(groups, n, g - 1);
    }
  }

  /** Every position of the flat list is carried by a shown item. */
  lemma RenderedIndexOnto(items: seq<Item>, k: nat)
    requires k < |items|
    ensures exists g, local :: Shown(items, g, local) && RenderedIndex(items, g, local) == k
  {
    FlatPermutes(items);
    var g, local := FlatHasPlace(Groups(items), k);
    RenderedIndexInFlat(items, g, local);
    assert Shown(items, g, local) && RenderedIndex(items, g, local) == k;
  }

  // ---------- Laying the groups end to end ----------

  lemma {:induction false} OfGroupAppend(a: seq<Item>, b: seq<Item>, name: string)
    ensures OfGroup(a + b, name) == OfGroup(a, name) + OfGroup(b, name)
    decreases |a|
  {
    if a == [] {
      assert a + b == b;
    } else {
      TailOfAppend(a, b);
      OfGroupAppend(a[1..], b, name);
      AppendAssoc(if a[0].group == name then [a[0]] else [], OfGroup(a[1..], name), OfGroup(b, name));
    }
  }

  lemma {:induction false} OfGroupNone(items: seq<Item>, name: string)
    requires forall k :: 0 <= k < |items| ==> items[k].group != name
    ensures OfGroup(items, name) == []
    decreases |items|
  {
    if items != [] {
      OfGroupNone(items[1..], name);
    }
  }

  function WithItem(group: Group, item: Item): Group {
    Group(group.name, group.items + [item])
  }

  lemma OrderStep(before: seq<Item>, last: Item)
    ensures Order(before + [last]) == if last.group in Order(before) then Order(before) else Order(before) + [last.group]
  {
    assert (before + [last])[..|before|] == before;
  }

  lemma OfGroupStep(before: seq<Item>, last: Item, name: string)
    ensures OfGroup(before + [last], name) == OfGroup(before, name) + if name == last.group then [last] else []
  {
    OfGroupAppend(before, [last], name);
    assert [last][1..] == [];
  }

  /** One more item of a known group joins that group. */
  lemma ItemJoins(before: seq<Item>, last: Item) returns (p: nat)
    requires last.group in Order(before)
    ensures p < |Groups(before)| && Groups(before)[p].name == last.group
    ensures Groups(before + [last]) == Groups(before)[p := WithItem(Groups(before)[p], last)]
  {
    var names := Order(before);
    OrderStep(before, last);
    p :| 0 <= p < |names| && names[p] == last.group;
    forall i | 0 <= i < |names|
      ensures Groups(before + [last])[i] == Groups(before)[p := WithItem(Groups(before)[p], last)][i]
    {
      OfGroupStep(before, last, names[i]);
    }
  }

  /** One more item of a new group opens it at the end. */
  lemma ItemOpens(before: seq<Item>, last: Item)
    requires last.group !in Order(before)
    ensures Groups(before + [last]) == Groups(before) + [Group(last.group, [last])]
  {
    var names := Order(before);
    OrderStep(before, last);
    OfGroupNone(before, last.group);
    forall i | 0 <= i <= |names|
      ensures Groups(before + [last])[i] == (Groups(before) + [Group(last.group, [last])])[i]
    {
      OfGroupStep(before, last, Order(before + [last])[i]);
    }
  }

  lemma FlatWithItem(groups: seq<Group>, p: nat, item: Item)
    requires p < |groups|
    ensures var more := groups[p := WithItem(groups[p], item)];
      && Flat(groups) == Flat(groups[..p]) + groups[p].items + Flat(groups[p + 1..])
      && Flat(more) == Flat(groups[..p]) + groups[p].items + [item] + Flat(groups[p + 1..])
  {
    var more := groups[p := WithItem(groups[p], item)];
    FlatSplits(groups, p);
    FlatSplits(more, p);
    assert more[..p] == groups[..p];
    assert more[p..][1..] == groups[p + 1..] && groups[p..][1..] == groups[p + 1..];
    assert more[p..][0] == more[p];
  }

  lemma FlatStep(before: seq<Item>, last: Item)
    ensures multiset(Flat(Groups(before + [last]))) == multiset(Flat(Groups(before))) + multiset{last}
    ensures |Flat(Groups(before + [last]))| == |Flat(Groups(before))| + 1
  {
    if last.group in Order(before) {
      var p := ItemJoins(before, last);
      FlatWithItem(Groups(before), p, last);
    } else {
      ItemOpens(before, last);
      FlatSnoc(Groups(before), Group(last.group, [last]));
    }
  }

  /** Grouping loses nothing and adds nothing. */
  lemma {:induction false} FlatPermutes(items: seq<Item>)
    ensures multiset(Flat(Groups(items))) == multiset(items) && |Flat(Groups(items))| == |items|
    decreases |items|
  {
    if items != [] {
      var before, last := items[..|items| - 1], items[|items| - 1];
      assert items == before + [last];
      FlatPermutes(before);
      FlatStep(before, last);
    }
  }

  // ---------- Agreement ----------

  /** Items of one group stand together. */
  ghost predicate Contiguous(items: seq<Item>) {
    forall i, j, k :: 0 <= i < j < k < |items| && items[i].group == items[k].group ==> items[j].group == items[i].group
  }

  /** Acting through any shown item's index reaches the item that is shown. */
  ghost predicate Agrees(items: seq<Item>) {
    forall g, local :: Shown(items, g, local) ==>
      RenderedIndex(items, g, local) < |items| && items[RenderedIndex(items, g, local)] == ShownItem(items, g, local)
  }

  lemma AgreesAt(items: seq<Item>, k: nat)
    requires Agrees(items) && k < |Flat(Groups(items))|
    ensures k < |items| && Flat(Groups(items))[k] == items[k]
  {
    var g, local := FlatHasPlace(Groups(items), k);
    assert Shown(items, g, local);
    RenderedIndexInFlat(items, g, local);
  }

  lemma AgreesThenFlat(items: seq<Item>)
    requires Agrees(items)
    ensures Flat(Groups(items)) == items
  {
    FlatPermutes(items);
    forall k | 0 <= k < |items| ensures Flat(Groups(items))[k] == items[k] {
      AgreesAt(items, k);
    }
  }

  lemma FlatThenAgrees(items: seq<Item>)
    requires Flat(Groups(items)) == items
    ensures Agrees(items)
  {
    forall g, local | Shown(items, g, local)
      ensures RenderedIndex(items, g, local) < |items| && items[RenderedIndex(items, g, local)] == ShownItem(items, g, local)
    {
      RenderedIndexInFlat(items, g, local);
    }
  }

  lemma OfGroupAll(items: seq<Item>, name: string)
    ensures forall k :: 0 <= k < |OfGroup(items, name)| ==> OfGroup(items, name)[k].group == name
  {
  }

  /** Where position `k` of the groups laid end to end comes from. */
  lemma PlaceAt(items: seq<Item>, k: nat) returns (g: nat, local: nat)
    requires k < |Flat(Groups(items))|
    ensures Shown(items, g, local) && k == CountBefore(Groups(items), g) + local
    ensures Flat(Groups(items))[k].group == Order(items)[g]
  {
    var place, at := FlatHasPlace(Groups(items), k);
    assert Shown(items, place, at);
    PlaceGroup(items, place, at);
    g, local := place, at;
  }

  lemma PlacesInOrder(items: seq<Item>, g: nat, local: nat, g': nat, local': nat)
    requires Shown(items, g, local) && Shown(items, g', local')
    requires CountBefore(Groups(items), g) + local < CountBefore(Groups(items), g') + local'
    ensures g <= g'
  {
    if g' < g {
      CountGrows(Groups(items), g', g);
    }
  }

  lemma FlatIsContiguous(items: seq<Item>)
    ensures Contiguous(Flat(Groups(items)))
  {
    var flat := Flat(Groups(items));
    forall i, j, k | 0 <= i < j < k < |flat| && flat[i].group == flat[k].group ensures flat[j].group == flat[i].group {
      var gi, li := PlaceAt(items, i);
      var gj, lj := PlaceAt(items, j);
      var gk, lk := PlaceAt(items, k);
      PlacesInOrder(items, gi, li, gj, lj);
      PlacesInOrder(items, gj, lj, gk, lk);
    }
  }

  lemma PlaceGroup(items: seq<Item>, g: nat, local: nat)
    requires Shown(items, g, local)
    ensures var k := CountBefore(Groups(items), g) + local;
      k < |Flat(Groups(items))| && Flat(Groups(items))[k].group == Order(items)[g]
  {
    RenderedIndexInFlat(items, g, local);
    OfGroupAll(items, Order(items)[g]);
  }

  lemma MetAgain(before: seq<Item>, last: Item)
    requires Contiguous(before + [last]) && last.group in Order(before)
    ensures before != [] && before[|before| - 1].group == last.group
  {
    var items, n := before + [last], |before| - 1;
    var i :| 0 <= i <= n && before[i].group == last.group;
    if i < n {
      assert items[i].group == items[n + 1].group ==> items[n].group == items[i].group;
    }
  }

  /** In contiguous items the group listed last is the one of the last item. */
  lemma {:induction false} LastListed(items: seq<Item>)
    requires Contiguous(items) && items != []
    ensures Order(items)[|Order(items)| - 1] == items[|items| - 1].group
    decreases |items|
  {
    var before, last := items[..|items| - 1], items[|items| - 1];
    assert items == before + [last];
    OrderStep(before, last);
    if last.group in Order(before) {
      MetAgain(before, last);
      ContiguousPrefix(items, before);
      LastListed(before);
    }
  }

  lemma ContiguousPrefix(items: seq<Item>, before: seq<Item>)
    requires Contiguous(items) && before <= items
    ensures Contiguous(before)
  {
    forall i, j, k | 0 <= i < j < k < |before| && before[i].group == before[k].group
      ensures before[j].group == before[i].group
    {
      assert items[i].group == items[k].group;
    }
  }

  /** In contiguous items a group met again is the one listed last. */
  lemma MetAgainIsLast(before: seq<Item>, last: Item, p: nat)
    requires Contiguous(before + [last]) && p < |Order(before)| && Order(before)[p] == last.group
    ensures p == |Order(before)| - 1
  {
    ContiguousPrefix(before + [last], before);
    MetAgain(before, last);
    LastListed(before);
  }

  /** There one more item of a known group joins the group listed last. */
  lemma LastGroupJoins(before: seq<Item>, last: Item) returns (n: nat)
    requires Contiguous(before + [last]) && last.group in Order(before)
    ensures |Groups(before)| == n + 1
    ensures Groups(before + [last]) == Groups(before)[n := WithItem(Groups(before)[n], last)]
  {
    n := ItemJoins(before, last);
    MetAgainIsLast(before, last, n);
  }

  /** An item that joins the last group comes last of all. */
  lemma FlatLastJoined(groups: seq<Group>, n: nat, last: Item)
    requires |groups| == n + 1
    ensures Flat(groups[n := WithItem(groups[n], last)]) == Flat(groups) + [last]
  {
    FlatWithItem(groups, n, last);
    assert groups[n + 1..] == [];
    var front := Flat(groups[..n]) + groups[n].items;
    assert front + Flat([]) == front && front + [last] + Flat([]) == front + [last];
  }

  lemma FlatSnocItem(before: seq<Item>, last: Item)
    requires Contiguous(before + [last])
    ensures Flat(Groups(before + [last])) == Flat(Groups(before)) + [last]
  {
    if last.group in Order(before) {
      var n := LastGroupJoins(before, last);
      FlatLastJoined(Groups(before), n, last);
    } else {
      ItemOpens(before, last);
      FlatSnoc(Groups(before), Group(last.group, [last]));
    }
  }

  lemma {:induction false} ContiguousFlat(items: seq<Item>)
    requires Contiguous(items)
    ensures Flat(Groups(items)) == items
    decreases |items|
  {
    if items != [] {
      var before, last := items[..|items| - 1], items[|items| - 1];
      assert items == before + [last];
      ContiguousPrefix(items, before);
      ContiguousFlat(before);
      FlatSnocItem(before, last);
    }
  }

  /** Every shown item is reached through its index exactly when equal groups stand together. */
  lemma AgreementIff(items: seq<Item>)
    ensures Agrees(items) <==> Contiguous(items)
  {
    if Contiguous(items) {
      ContiguousFlat(items);
      FlatThenAgrees(items);
    }
    if Agrees(items) {
      AgreesThenFlat(items);
      FlatIsContiguous(items);
    }
  }

  /** Blocks of items, each of one group, laid end to end; a block may be empty. */
  function Concat(blocks: seq<seq<Item>>): seq<Item> {
    if blocks == [] then [] else blocks[0] + Concat(blocks[1..])
  }

  lemma {:induction false} BlocksContiguous(blocks: seq<seq<Item>>, names: seq<string>)
    requires |blocks| == |names| && forall i, j :: 0 <= i < j < |names| ==> names[i] != names[j]
    requires forall b, k :: 0 <= b < |blocks| && 0 <= k < |blocks[b]| ==> blocks[b][k].group == names[b]
    ensures Contiguous(Concat(blocks))
    ensures forall k :: 0 <= k < |Concat(blocks)| ==> Concat(blocks)[k].group in names
    decreases |blocks|
  {
    if blocks != [] {
      var first: seq<Item>, rest: seq<Item> := blocks[0], Concat(blocks[1..]);
      BlocksContiguous(blocks[1..], names[1..]);
      assert names[0] !in names[1..];
      forall k: int | 0 <= k < |first + rest|
        ensures (first + rest)[k].group in names
      {
      }
      JoinContiguous(first, rest, names[0]);
    }
  }

  lemma JoinContiguous(first: seq<Item>, rest: seq<Item>, name: string)
    requires Contiguous(rest)
    requires forall k :: 0 <= k < |first| ==> first[k].group == name
    requires forall k :: 0 <= k < |rest| ==> rest[k].group != name
    ensures Contiguous(first + rest)
  {
    var items, n := first + rest, |first|;
    assert forall k :: 0 <= k < n ==> items[k].group == name;
    assert forall k :: n <= k < |items| ==> items[k].group != name;
    forall i, j, k | 0 <= i < j < k < |items| && items[i].group == items[k].group
      ensures items[j].group == items[i].group
    {
      if i >= n {
        assert items[i] == rest[i - n] && items[j] == rest[j - n] && items[k] == rest[k - n];
      }
    }
  }

  function Labelled(keys: seq<string>, group: string): seq<Item> {
    seq(|keys|, i requires 0 <= i < |keys| => Item(keys[i], group))
  }

  /** The list the palette builds: pages, products, customers and invoices, each under its own
      label. Any of the four may be empty. */
  function PaletteItems(blocks: seq<seq<string>>, labels: seq<string>): seq<Item>
    requires |blocks| == |labels| == 4
  {
    Labelled(blocks[0], labels[0]) + Labelled(blocks[1], labels[1]) +
    Labelled(blocks[2], labels[2]) + Labelled(blocks[3], labels[3])
  }

  /** With four different labels every shown item of the palette's own list is reached through
      its index. */
  lemma PaletteItemsAgree(blocks: seq<seq<string>>, labels: seq<string>)
    requires |blocks| == |labels| == 4
    requires forall i, j :: 0 <= i < j < 4 ==> labels[i] != labels[j]
    ensures Agrees(PaletteItems(blocks, labels))
  {
    var a, b := Labelled(blocks[0], labels[0]), Labelled(blocks[1], labels[1]);
    var c, d := Labelled(blocks[2], labels[2]), Labelled(blocks[3], labels[3]);
    BlocksContiguous([a, b, c, d], labels);
    assert [a, b, c, d][1..] == [b, c, d] && [b, c, d][1..] == [c, d] && [c, d][1..] == [d] && [d][1..] == [];
    assert Concat([c, d]) == c + Concat([d]) && Concat([d]) == d;
    assert Concat([a, b, c, d]) == PaletteItems(blocks, labels);
    AgreementIff(PaletteItems(blocks, labels));
  }

  lemma {:induction false} OfGroupWhole(items: seq<Item>, name: string)
    requires forall k :: 0 <= k < |items| ==> items[k].group == name
    ensures OfGroup(items, name) == items
    decreases |items|
  {
    if items != [] {
      OfGroupWhole(items[1..], name);
    }
  }

  lemma OfLabelled(keys: seq<string>, group: string, name: string)
    ensures OfGroup(Labelled(keys, group), name) == if group == name then Labelled(keys, group) else []
  {
    if group == name {
      OfGroupWhole(Labelled(keys, group), name);
    } else {
      OfGroupNone(Labelled(keys, group), name);
    }
  }

  lemma OfFour(a: seq<Item>, b: seq<Item>, c: seq<Item>, d: seq<Item>, name: string)
    ensures OfGroup(a + b + c + d, name)
         == OfGroup(a, name) + OfGroup(b, name) + OfGroup(c, name) + OfGroup(d, name)
  {
    OfGroupAppend(a + b + c, d, name);
    OfGroupAppend(a + b, c, name);
    OfGroupAppend(a, b, name);
  }

  lemma OfPalette(blocks: seq<seq<string>>, labels: seq<string>, b: nat)
    requires |blocks| == |labels| == 4 && b < 4
    requires forall i :: 0 <= i < 4 && i != b ==> labels[i] != labels[b]
    ensures OfGroup(PaletteItems(blocks, labels), labels[b]) == Labelled(blocks[b], labels[b])
  {
    var name := labels[b];
    OfFour(Labelled(blocks[0], labels[0]), Labelled(blocks[1], labels[1]),
           Labelled(blocks[2], labels[2]), Labelled(blocks[3], labels[3]), name);
    forall i | 0 <= i < 4 ensures OfGroup(Labelled(blocks[i], labels[i]), name) == if i == b then Labelled(blocks[b], name) else [] {
      OfLabelled(blocks[i], labels[i], name);
    }
    OneOfFour(Labelled(blocks[b], name), b);
  }

  lemma OneOfFour(items: seq<Item>, b: nat)
    requires b < 4
    ensures (if b == 0 then items else []) + (if b == 1 then items else []) +
            (if b == 2 then items else []) + (if b == 3 then items else []) == items
  {
  }

  /** With four different labels each block that is not empty is shown as one group under its
      label, all of it and in its order; the palette lists nothing else. */
  lemma PaletteShowsBlocks(blocks: seq<seq<string>>, labels: seq<string>, b: nat) returns (g: nat)
    requires |blocks| == |labels| == 4 && b < 4 && blocks[b] != []
    requires forall i, j :: 0 <= i < j < 4 ==> labels[i] != labels[j]
    ensures var items := PaletteItems(blocks, labels);
      && g < |Groups(items)| && Groups(items)[g].name == labels[b] && |Groups(items)[g].items| == |blocks[b]|
      && (forall k :: 0 <= k < |blocks[b]| ==> Groups(items)[g].items[k] == Item(blocks[b][k], labels[b]))
      && |items| == |blocks[0]| + |blocks[1]| + |blocks[2]| + |blocks[3]|
  {
    var items := PaletteItems(blocks, labels);
    OfPalette(blocks, labels, b);
    if labels[b] !in Order(items) {
      OfGroupNone(items, labels[b]);
    }
    g :| 0 <= g < |Order(items)| && Order(items)[g] == labels[b];
  }

  // ---------- The active item ----------

  datatype Input = NewItems(items: seq<Item>) | ArrowDown | ArrowUp | Hover(g: nat, local: nat)

  datatype Cursor = Cursor(items: seq<Item>, active: int)

  predicate Possible(c: Cursor, input: Input) {
    input.Hover? ==> Shown(c.items, input.g, input.local)
  }

  /** A change of the items moves the cursor back to the first. */
  function Move(c: Cursor, input: Input): Cursor
    requires Possible(c, input)
  {
    match input
    case NewItems(items) => Cursor(items, 0)
    case ArrowDown => c.(active := if c.active + 1 < |c.items| - 1 then c.active + 1 else |c.items| - 1)
    case ArrowUp => c.(active := if c.active - 1 > 0 then c.active - 1 else 0)
    case Hover(g, local) => c.(active := RenderedIndex(c.items, g, local))
  }

  /** `items[index]`, undefined outside the list. */
  function Select(c: Cursor, index: int): Option<Item> {
    if 0 <= index < |c.items| then Some(c.items[index]) else None
  }

  /** The cursor is on an item, or next to an empty list: pressing down there leaves it at -1. */
  predicate InRange(c: Cursor) {
    if c.items == [] then -1 <= c.active <= 0 else 0 <= c.active < |c.items|
  }

  predicate AllPossible(c: Cursor, inputs: seq<Input>)
    decreases |inputs|
  {
    inputs == [] || (Possible(c, inputs[0]) && AllPossible(Move(c, inputs[0]), inputs[1..]))
  }

  function MoveAll(c: Cursor, inputs: seq<Input>): Cursor
    requires AllPossible(c, inputs)
    decreases |inputs|
  {
    if inputs == [] then c else MoveAll(Move(c, inputs[0]), inputs[1..])
  }

  lemma {:induction false} CursorStaysInRange(c: Cursor, inputs: seq<Input>)
    requires InRange(c) && AllPossible(c, inputs)
    ensures InRange(MoveAll(c, inputs))
    decreases |inputs|
  {
    if inputs != [] {
      if inputs[0].Hover? {
        RenderedIndexInFlat(c.items, inputs[0].g, inputs[0].local);
        FlatPermutes(c.items);
      }
      CursorStaysInRange(Move(c, inputs[0]), inputs[1..]);
    }
  }

  function Presses(input: Input, k: nat): seq<Input> {
    if k == 0 then [] else [input] + Presses(input, k - 1)
  }

  /** Holding an arrow moves one item a press and stops at the end of the list. */
  lemma {:induction false} HoldingAnArrow(c: Cursor, k: nat)
    requires c.items != [] && InRange(c)
    ensures AllPossible(c, Presses(ArrowDown, k)) && AllPossible(c, Presses(ArrowUp, k))
    ensures MoveAll(c, Presses(ArrowDown, k))
         == c.(active := if c.active + k < |c.items| then c.active + k else |c.items| - 1)
    ensures MoveAll(c, Presses(ArrowUp, k)) == c.(active := if c.active >= k then c.active - k else 0)
    decreases k
  {
    if k > 0 {
      HoldingAnArrow(Move(c, ArrowDown), k - 1);
      HoldingAnArrow(Move(c, ArrowUp), k - 1);
      assert Presses(ArrowDown, k)[1..] == Presses(ArrowDown, k - 1);
      assert Presses(ArrowUp, k)[1..] == Presses(ArrowUp, k - 1);
    }
  }

  lemma {:induction false} MoveAllAppend(c: Cursor, first: seq<Input>, more: seq<Input>)
    requires AllPossible(c, first) && AllPossible(MoveAll(c, first), more)
    ensures AllPossible(c, first + more) && MoveAll(c, first + more) == MoveAll(MoveAll(c, first), more)
    decreases |first|
  {
    if first == [] {
      assert first + more == more;
    } else {
      assert (first + more)[1..] == first[1..] + more;
      MoveAllAppend(Move(c, first[0]), first[1..], more);
    }
  }

  /** Whatever happened before, when the items change Enter runs the first of them, and after k
      presses of the arrow down the one k places on, or the last. */
  lemma NewItemsStartOver(c: Cursor, inputs: seq<Input>, items: seq<Item>, k: nat)
    requires AllPossible(c, inputs) && items != []
    ensures var after := inputs + [NewItems(items)] + Presses(ArrowDown, k);
      && AllPossible(c, after)
      && Select(MoveAll(c, after), MoveAll(c, after).active) == Some(items[if k < |items| then k else |items| - 1])
  {
    var change := [NewItems(items)];
    assert change[1..] == [];
    MoveAllAppend(c, inputs, change);
    var start := MoveAll(c, inputs + change);
    assert start == MoveAll(Move(MoveAll(c, inputs), NewItems(items)), []);
    HoldingAnArrow(start, k);
    MoveAllAppend(c, inputs + change, Presses(ArrowDown, k));
  }

  /** The shown item drawn as active. */
  predicate Highlighted(c: Cursor, g: nat, local: nat) {
    Shown(c.items, g, local) && RenderedIndex(c.items, g, local) == c.active
  }

  /** After any inputs exactly one shown item is highlighted, and pressing Enter runs that one,
      provided equal groups stand together. */
  lemma EnterRunsTheHighlighted(c: Cursor, inputs: seq<Input>)
    requires InRange(c) && AllPossible(c, inputs)
    requires MoveAll(c, inputs).items != [] && Contiguous(MoveAll(c, inputs).items)
    ensures var d := MoveAll(c, inputs);
      && (exists g, local :: Highlighted(d, g, local))
      && (forall g, local :: Highlighted(d, g, local) ==> Select(d, d.active) == Some(ShownItem(d.items, g, local)))
      && (forall g, local, g', local' :: Highlighted(d, g, local) && Highlighted(d, g', local') ==> g == g' && local == local')
  {
    var d := MoveAll(c, inputs);
    CursorStaysInRange(c, inputs);
    RenderedIndexOnto(d.items, d.active);
    var g, local :| Shown(d.items, g, local) && RenderedIndex(d.items, g, local) == d.active;
    assert Highlighted(d, g, local);
    AgreementIff(d.items);
    forall g, local, g', local' | Highlighted(d, g, local) && Highlighted(d, g', local')
      ensures g == g' && local == local'
    {
      RenderedIndexInjective(d.items, g, local, g', local');
    }
  }

  /** The loop over `order`, then one group for each name. */
  method BuildGroups(items: seq<Item>) returns (groups: seq<Group>)
    ensures groups == Groups(items)
  {
    var order: seq<string> := [];
    for i := 0 to |items|
      invariant order == Order(items[..i])
    {
      assert items[..i + 1] == items[..i] + [items[i]];
      OrderStep(items[..i], items[i]);
      if items[i].group !in order {
        order := order + [items[i].group];
      }
    }
    assert items[..|items|] == items;
    groups := seq(|order|, i requires 0 <= i < |order| => Group(order[i], OfGroup(items, order[i])));
  }

  class Palette {
    var items: seq<Item>
    var activeIndex: int

    constructor (items: seq<Item>)
      ensures this.items == items && activeIndex == 0 && InRange(View())
    {
      this.items, activeIndex := items, 0;
    }

    function View(): Cursor
      reads this
    {
      Cursor(items, activeIndex)
    }

    method SetItems(items: seq<Item>)
      modifies this
      ensures View() == Move(old(View()), NewItems(items)) && InRange(View()) && this.items == items
      ensures items != [] ==> Select(View(), activeIndex) == Some(items[0])
    {
      this.items := items;
      activeIndex := 0;
    }

    method SelectIndex(index: int) returns (run: Option<Item>)
      ensures run == Select(View(), index)
      ensures run.Some? <==> 0 <= index < |items|
      ensures run.Some? ==> run.value in items
    {
      if index < 0 || index >= |items| {
        return None;
      }
      run := Some(items[index]);
    }

    method PressArrow(down: bool)
      modifies this`activeIndex
      ensures View() == Move(old(View()), if down then ArrowDown else ArrowUp)
      ensures old(InRange(View())) ==> InRange(View())
      ensures old(InRange(View())) && items != [] ==> old(activeIndex) - 1 <= activeIndex <= old(activeIndex) + 1
    {
      if down {
        activeIndex := activeIndex + 1;
        if activeIndex > |items| - 1 {
          activeIndex := |items| - 1;
        }
      } else {
        activeIndex := activeIndex - 1;
        if activeIndex < 0 {
          activeIndex := 0;
        }
      }
    }

    method PressEnter() returns (run: Option<Item>)
      ensures run == Select(View(), activeIndex)
      ensures InRange(View()) && items != [] ==> run.Some?
    {
      run := SelectIndex(activeIndex);
    }

    /** The item under the mouse is the highlighted one, and with equal groups together the one
        that Enter runs. */
    method HoverItem(g: nat, local: nat)
      requires Shown(items, g, local)
      modifies this`activeIndex
      ensures View() == Move(old(View()), Hover(g, local))
      ensures Highlighted(View(), g, local) && InRange(View())
      ensures Contiguous(items) ==> Select(View(), activeIndex) == Some(ShownItem(items, g, local))
    {
      RenderedIndexInFlat(items, g, local);
      FlatPermutes(items);
      AgreementIff(items);
      activeIndex := RenderedIndex(items, g, local);
    }
  }
}
