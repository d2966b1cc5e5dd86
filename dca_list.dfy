/**
 * The selection list offered to the user (src/dca-list.ts): the map's items
 * split into closed and open orders, each group sorted newest first, turned
 * into list options, with one separator before the open group when there is
 * one.
 */
module DcaList {
  import opened OrderedMap
  import opened StableSort
  import opened DcaFetch

  /** One selectable line: the label shown and the order address returned. */
  datatype ListOption = ListOption(name: string, value: string)

  /** A line of the checkbox prompt: an option, or a labelled separator. */
  datatype ListEntry = Choice(option: ListOption) | Separator(caption: string)

  const OpenSeparatorLabel: string := "Open (incomplete)"

  /** `toListOption`: the item's display name is shown, its address is the value. */
  function ToListOption(item: Item): (o: ListOption)
    ensures o.name == item.displayName
    ensures o.value == item.dcaAddress
  {
    ListOption(item.displayName, item.dcaAddress)
  }

  /**
   * The `reduce` over the map's entries in iteration order: each item is
   * appended to the closed or the open accumulator according to `isOpen`.
   */
  function Partition(entries: seq<(string, Item)>): (r: (seq<Item>, seq<Item>))
    ensures |r.0| + |r.1| == |entries|
  {
    if entries == [] then ([], [])
    else
      var acc := Partition(entries[..|entries| - 1]);
      var item := entries[|entries| - 1].1;
      if item.isOpen then (acc.0, acc.1 + [item]) else (acc.0 + [item], acc.1)
  }

  /** Reference definition: the items whose `isOpen` flag is `open`, in order. */
  function Group(items: seq<Item>, open: bool): (r: seq<Item>)
    ensures |r| <= |items|
  {
    if items == [] then []
    else (if items[0].isOpen == open then [items[0]] else []) + Group(items[1..], open)
  }

  lemma {:induction false} GroupAppend(items: seq<Item>, x: Item, open: bool)
    ensures Group(items + [x], open) == Group(items, open) + (if x.isOpen == open then [x] else [])
  {
    if items != [] {
      assert (items + [x])[1..] == items[1..] + [x];
      GroupAppend(items[1..], x, open);
    }
  }

  /** The accumulated pair is exactly the two groups of the entries' items. */
  lemma {:induction false} PartitionIsGroups(entries: seq<(string, Item)>)
    ensures Partition(entries).0 == Group(Values(OMap(entries)), false)
    ensures Partition(entries).1 == Group(Values(OMap(entries)), true)
  {
    if entries != [] {
      var front := entries[..|entries| - 1];
      var x := entries[|entries| - 1].1;
      PartitionIsGroups(front);
      assert Values(OMap(entries)) == Values(OMap(front)) + [x];
      GroupAppend(Values(OMap(front)), x, false);
      GroupAppend(Values(OMap(front)), x, true);
    }
  }

  /** Every item lands in exactly one group, and each group holds only its own kind. */
  lemma {:induction false} GroupsSplit(items: seq<Item>)
    ensures multiset(Group(items, false)) + multiset(Group(items, true)) == multiset(items)
    ensures forall x :: x in Group(items, false) ==> !x.isOpen
    ensures forall x :: x in Group(items, true) ==> x.isOpen
  {
    if items != [] {
      GroupsSplit(items[1..]);
      assert items == [items[0]] + items[1..];
    }
  }

  /**
   * The sort key: `(a, b) => b.createdAtTimestamp - a.createdAtTimestamp` is
   * the ascending comparator on the negated timestamp, so newest comes first.
   */
  function NewestFirst(item: Item): (key: int) {
    -item.createdAtTimestamp
  }

  /** `items.map(toListOption)`, as lines of the prompt. */
  function Options(items: seq<Item>): (r: seq<ListEntry>)
    ensures |r| == |items|
    ensures forall i :: 0 <= i < |items| ==> r[i] == Choice(ToListOption(items[i]))
  {
    seq(|items|, i requires 0 <= i < |items| => Choice(ToListOption(items[i])))
  }

  /** The closed and the open items of the map, each sorted newest first. */
  function SortedGroups(dcaMap: OMap<Item>): (groups: (seq<Item>, seq<Item>)) {
    var acc := Partition(dcaMap.pairs);
    (SortBy(acc.0, NewestFirst), SortBy(acc.1, NewestFirst))
  }

  /** Closed options, then the separator and the open options when there are any. */
  function Arrange(closedDcas: seq<Item>, openDcas: seq<Item>): (r: seq<ListEntry>)
    ensures |r| == |closedDcas| + |openDcas| + (if |openDcas| > 0 then 1 else 0)
  {
    if |openDcas| > 0 then Options(closedDcas) + [Separator(OpenSeparatorLabel)] + Options(openDcas)
    else Options(closedDcas)
  }

  /** The list shown for a map. */
  function ListOptions(dcaMap: OMap<Item>): (r: seq<ListEntry>)
    ensures |r| == |dcaMap.pairs| + (if |SortedGroups(dcaMap).1| > 0 then 1 else 0)
  {
    Arrange(SortedGroups(dcaMap).0, SortedGroups(dcaMap).1)
  }

  /** `getDCAListOptions`: partition, sort each group in place, map to options. */
  method GetDcaListOptions(dcaMap: OMap<Item>) returns (options: seq<ListEntry>)
    ensures options == ListOptions(dcaMap)
  {
    // Separate closed from open DCAs for selection
    var acc := Partition(dcaMap.pairs);
    var closedDcas := ToArray(acc.0);
    var openDcas := ToArray(acc.1);

    // Sort each category, newest first
    SortInPlace(closedDcas, NewestFirst);
    SortInPlace(openDcas, NewestFirst);

    var closedDcaOptions := Options(closedDcas[..]);
    var openDcaOptions := Options(openDcas[..]);

    if |openDcaOptions| > 0 {
      options := closedDcaOptions + [Separator(OpenSeparatorLabel)] + openDcaOptions;
    } else {
      options := closedDcaOptions;
    }
  }

  /**
   * One group sorted newest first: the same items, timestamps non-increasing,
   * and orders created at the same time kept in their original order.
   */
  lemma {:induction false} SortedGroup(items: seq<Item>)
    ensures var sorted := SortBy(items, NewestFirst);
      && multiset(sorted) == multiset(items)
      && (forall i, j :: 0 <= i < j < |sorted| ==> sorted[i].createdAtTimestamp >= sorted[j].createdAtTimestamp)
      && (forall t :: WithKey(sorted, NewestFirst, t) == WithKey(items, NewestFirst, t))
  {
    var sorted := SortBy(items, NewestFirst);
    SortByIsPermutation(items, NewestFirst);
    SortByIsSorted(items, NewestFirst);
    forall i, j | 0 <= i < j < |sorted| ensures sorted[i].createdAtTimestamp >= sorted[j].createdAtTimestamp {
      assert NewestFirst(sorted[i]) <= NewestFirst(sorted[j]);
    }
    forall t ensures WithKey(sorted, NewestFirst, t) == WithKey(items, NewestFirst, t) {
      SortByIsStable(items, NewestFirst, t);
    }
  }

  /**
   * The sorted groups split the map's items by `isOpen`, are newest first, and
   * keep the map's iteration order among orders created at the same time.
   */
  lemma SortedGroupsProperties(dcaMap: OMap<Item>)
    ensures var (closedDcas, openDcas) := SortedGroups(dcaMap);
      && closedDcas == SortBy(Group(Values(dcaMap), false), NewestFirst)
      && openDcas == SortBy(Group(Values(dcaMap), true), NewestFirst)
      && multiset(closedDcas) + multiset(openDcas) == multiset(Values(dcaMap))
      && (forall x :: x in closedDcas ==> !x.isOpen)
      && (forall x :: x in openDcas ==> x.isOpen)
  {
    var closedGroup, openGroup := Group(Values(dcaMap), false), Group(Values(dcaMap), true);
    PartitionIsGroups(dcaMap.pairs);
    assert OMap(dcaMap.pairs) == dcaMap;
    GroupsSplit(Values(dcaMap));
    SortedGroup(closedGroup);
    SortedGroup(openGroup);
    var (closedDcas, openDcas) := SortedGroups(dcaMap);
    forall x | x in closedDcas ensures !x.isOpen {
      assert x in multiset(closedDcas);
    }
    forall x | x in openDcas ensures x.isOpen {
      assert x in multiset(openDcas);
    }
  }

  /**
   * Layout of the list: the closed options come first; a single separator
   * follows them exactly when there are open orders, and the open options after it.
   */
  lemma ArrangeLayout(closedDcas: seq<Item>, openDcas: seq<Item>)
    ensures var options := Arrange(closedDcas, openDcas);
      && |options| == |closedDcas| + |openDcas| + (if |openDcas| > 0 then 1 else 0)
      && (forall i :: 0 <= i < |closedDcas| ==> options[i] == Choice(ToListOption(closedDcas[i])))
      && (forall i :: 0 <= i < |openDcas| ==> options[|closedDcas| + 1 + i] == Choice(ToListOption(openDcas[i])))
      && (forall i :: 0 <= i < |options| ==> (options[i].Separator? <==> |openDcas| > 0 && i == |closedDcas|))
  {
    var options := Arrange(closedDcas, openDcas);
    if |openDcas| > 0 {
      forall i | 0 <= i < |openDcas| ensures options[|closedDcas| + 1 + i] == Choice(ToListOption(openDcas[i])) {
        assert options[|closedDcas| + 1 + i] == Options(openDcas)[i];
      }
    }
  }

  /**
   * The list has the "Open (incomplete)" separator exactly when the map holds
   * an open order, and it is the only separator the list can hold.
   */
  lemma SeparatorIffOpen(dcaMap: OMap<Item>)
    ensures |SortedGroups(dcaMap).1| > 0 <==> exists x :: x in Values(dcaMap) && x.isOpen
    ensures |SortedGroups(dcaMap).0| + |SortedGroups(dcaMap).1| == |Values(dcaMap)|
    ensures Separator(OpenSeparatorLabel) in ListOptions(dcaMap) <==> exists x :: x in Values(dcaMap) && x.isOpen
    ensures forall e :: e in ListOptions(dcaMap) && e.Separator? ==> e == Separator(OpenSeparatorLabel)
  {
    SortedGroupsProperties(dcaMap);
    var (closedDcas, openDcas) := SortedGroups(dcaMap);
    SplitCounts(closedDcas, openDcas, Values(dcaMap));
    ArrangeLayout(closedDcas, openDcas);
    var options := ListOptions(dcaMap);
    if |openDcas| > 0 {
      assert options[|closedDcas|] == Separator(OpenSeparatorLabel);
    }
    forall e | e in options && e.Separator? ensures e == Separator(OpenSeparatorLabel) {
      var i :| 0 <= i < |options| && options[i] == e;
      assert i == |closedDcas|;
    }
  }

  lemma SplitCounts(closedDcas: seq<Item>, openDcas: seq<Item>, all: seq<Item>)
    requires multiset(closedDcas) + multiset(openDcas) == multiset(all)
    requires forall x :: x in closedDcas ==> !x.isOpen
    requires forall x :: x in openDcas ==> x.isOpen
    ensures |closedDcas| + |openDcas| == |all|
    ensures |openDcas| > 0 <==> exists x :: x in all && x.isOpen
  {
    assert |multiset(closedDcas) + multiset(openDcas)| == |multiset(all)|;
    if exists x :: x in all && x.isOpen {
      var x :| x in all && x.isOpen;
      assert x in multiset(all);
      assert x !in closedDcas;
      assert x in multiset(openDcas);
    }
    if |openDcas| > 0 {
      assert openDcas[0] in multiset(all);
      assert openDcas[0] in all && openDcas[0].isOpen;
    }
  }

  /** The values offered are the map's addresses, each exactly as often as it appears. */
  lemma ListOptionsValues(dcaMap: OMap<Item>)
    ensures multiset(ChoiceValues(ListOptions(dcaMap))) == multiset(ItemAddresses(Values(dcaMap)))
  {
    var (closedDcas, openDcas) := SortedGroups(dcaMap);
    SortedGroupsProperties(dcaMap);
    var options := ListOptions(dcaMap);
    ChoiceValuesOfOptions(closedDcas);
    ChoiceValuesOfOptions(openDcas);
    if |openDcas| > 0 {
      ChoiceValuesAppend(Options(closedDcas), [Separator(OpenSeparatorLabel)]);
      ChoiceValuesAppend(Options(closedDcas) + [Separator(OpenSeparatorLabel)], Options(openDcas));
    }
    AddressesMultiset(closedDcas, openDcas, Values(dcaMap));
  }

  /** The option values of the choices among `entries`, in order; separators carry none. */
  function ChoiceValues(entries: seq<ListEntry>): (vs: seq<string>)
    ensures |vs| <= |entries|
  {
    if entries == [] then []
    else
      var last := match entries[|entries| - 1] case Choice(o) => [o.value] case Separator(_) => [];
      ChoiceValues(entries[..|entries| - 1]) + last
  }

  lemma {:induction false} ChoiceValuesAppend(a: seq<ListEntry>, b: seq<ListEntry>)
    ensures ChoiceValues(a + b) == ChoiceValues(a) + ChoiceValues(b)
  {
    if b != [] {
      assert (a + b)[..|a + b| - 1] == a + b[..|b| - 1];
      var x := b[|b| - 1];
      assert (a + b)[|a + b| - 1] == x;
      var last := match x case Choice(o) => [o.value] case Separator(_) => [];
      assert ChoiceValues(b) == ChoiceValues(b[..|b| - 1]) + last;
      assert ChoiceValues(a + b) == ChoiceValues(a + b[..|b| - 1]) + last;
      ChoiceValuesAppend(a, b[..|b| - 1]);
    } else {
      assert a + b == a;
    }
  }

  lemma {:induction false} ChoiceValuesOfOptions(items: seq<Item>)
    ensures ChoiceValues(Options(items)) == ItemAddresses(items)
  {
    if items != [] {
      var front := items[..|items| - 1];
      ChoiceValuesOfOptions(front);
      assert Options(items)[..|items| - 1] == Options(front);
    }
  }

  /** Addresses are taken item by item, so equal item multisets give equal address multisets. */
  lemma AddressesMultiset(a: seq<Item>, b: seq<Item>, all: seq<Item>)
    requires multiset(a) + multiset(b) == multiset(all)
    ensures multiset(ItemAddresses(a) + ItemAddresses(b)) == multiset(ItemAddresses(all))
  {
    assert ItemAddresses(a) + ItemAddresses(b) == ItemAddresses(a + b);
    assert multiset(a + b) == multiset(all);
    AddressesPermutation(a + b, all);
  }

  /** Two arrangements of the same items have the same addresses, as often each. */
  lemma {:induction false} AddressesPermutation(s: seq<Item>, t: seq<Item>)
    requires multiset(s) == multiset(t)
    ensures multiset(ItemAddresses(s)) == multiset(ItemAddresses(t))
    decreases |s|
  {
    if s != [] {
      var a, b := PickFirst(s, t);
      AddressesPermutation(s[1..], a + b);
      AddressesCons(s);
      AddressesSplit(a, s[0], b);
    }
  }

  /** Where the first element of `s` sits in its rearrangement `t`, and what is left around it. */
  lemma PickFirst<A>(s: seq<A>, t: seq<A>) returns (a: seq<A>, b: seq<A>)
    requires s != [] && multiset(s) == multiset(t)
    ensures t == a + [s[0]] + b
    ensures multiset(s[1..]) == multiset(a + b)
  {
    assert s[0] in multiset(t);
    var j :| 0 <= j < |t| && t[j] == s[0];
    a, b := t[..j], t[j + 1..];
    SplitAt(t, j);
    RemoveFirst(s);
    assert multiset(t) == multiset(a + b) + multiset{s[0]};
  }

  lemma AddressesCons(s: seq<Item>)
    requires s != []
    ensures multiset(ItemAddresses(s)) == multiset{s[0].dcaAddress} + multiset(ItemAddresses(s[1..]))
  {
    assert ItemAddresses(s) == [s[0].dcaAddress] + ItemAddresses(s[1..]);
  }

  /** Taking out one item takes out one occurrence of its address. */
  lemma AddressesSplit(a: seq<Item>, x: Item, b: seq<Item>)
    ensures multiset(ItemAddresses(a + [x] + b)) == multiset(ItemAddresses(a + b)) + multiset{x.dcaAddress}
  {
    var aa, ab := ItemAddresses(a), ItemAddresses(b);
    assert ItemAddresses(a + [x] + b) == aa + [x.dcaAddress] + ab;
    assert ItemAddresses(a + b) == aa + ab;
  }

  lemma RemoveFirst<A>(s: seq<A>)
    requires s != []
    ensures multiset(s[1..]) == multiset(s) - multiset{s[0]}
  {
    assert s == [s[0]] + s[1..];
  }

  /** A sequence is its prefix before `j`, the element at `j`, and its suffix after `j`. */
  lemma SplitAt<A>(t: seq<A>, j: nat)
    requires j < |t|
    ensures t == t[..j] + [t[j]] + t[j + 1..]
  {
  }
}
