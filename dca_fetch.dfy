/**
 * Building the keyed collection of a user's DCA orders (src/dca-fetch.ts):
 * token metadata lookup with its accept/reject decision, construction of one
 * map item per order, and the map filled with closed orders first and open
 * orders second.
 */
module DcaFetch {
  import opened Wrappers
  import opened Decimal
  import opened OrderedMap

  /** Symbol and decimal count of a token. */
  datatype TokenInfo = TokenInfo(symbol: string, decimals: nat)

  /**
   * One executed trade of an order: amounts in base units, confirmation time
   * in milliseconds since the epoch, and the transaction id.
   */
  datatype Fill = Fill(inAmount: nat, outAmount: nat, confirmedAt: int, txId: string)

  /** An entry of the order map. `fills` is present when the ledger attached them. */
  datatype Item = Item(
    dcaAddress: string,
    inTokenAddress: string,
    inTokenInfo: TokenInfo,
    outTokenAddress: string,
    outTokenInfo: TokenInfo,
    displayName: string,
    isOpen: bool,
    createdAtTimestamp: int,
    fills: Option<seq<Fill>>)

  /** An order as the ledger client returns it; keys are already base58 text. */
  datatype FetchedDca = FetchedDca(
    publicKey: string,
    inputMint: string,
    inDeposited: nat,
    outputMint: string,
    createdAt: int,
    fills: Option<seq<Fill>>)

  /** The token-list service's answer: HTTP status and the `content` array. */
  datatype TokenResponse = TokenResponse(status: int, content: seq<TokenInfo>)

  /** The run stops with exit code `FailedToFetchTokenInfo` for this mint. */
  datatype FetchError = FailedToFetchTokenInfo(mint: string)

  /**
   * The collaborators an order needs: the token-list lookup by mint, date
   * formatting (milliseconds since the epoch to "yyyy-MM-dd HH:mm") and the
   * text rendering of a decimal.
   */
  datatype Services = Services(
    tokenList: string -> TokenResponse,
    formatDate: int -> string,
    renderDecimal: real -> string)

  /** Accepts the service's answer only on status 200 with at least one match. */
  function GetTokenInfo(mint: string, res: TokenResponse): (r: Result<TokenInfo, FetchError>)
    ensures r.Success? <==> res.status == 200 && |res.content| > 0
    ensures r.Success? ==> r.value == res.content[0]
    ensures r.Failure? ==> r.error == FailedToFetchTokenInfo(mint)
  {
    if res.status != 200 then Failure(FailedToFetchTokenInfo(mint))
    else if |res.content| == 0 then Failure(FailedToFetchTokenInfo(mint))
    else Success(TokenInfo(res.content[0].symbol, res.content[0].decimals))
  }

  /** "<amount> <in symbol> → <out symbol> - <date>". */
  function DisplayName(amount: string, inSymbol: string, outSymbol: string, date: string): (name: string) {
    amount + " " + inSymbol + " → " + outSymbol + " - " + date
  }

  /** The map item for one order; the input token is resolved before the output token. */
  function MakeDcaMapItem(order: FetchedDca, isOpen: bool, svc: Services): (r: Result<Item, FetchError>)
    ensures r.Success? ==> r.value.dcaAddress == order.publicKey && r.value.isOpen == isOpen
  {
    match GetTokenInfo(order.inputMint, svc.tokenList(order.inputMint))
    case Failure(e) => Failure(e)
    case Success(inTokenInfo) =>
      var inFriendlyAmount := svc.renderDecimal(ToDecimal(order.inDeposited, inTokenInfo.decimals));
      match GetTokenInfo(order.outputMint, svc.tokenList(order.outputMint))
      case Failure(e) => Failure(e)
      case Success(outTokenInfo) =>
        var friendlyDate := svc.formatDate(order.createdAt * 1000);
        Success(Item(
          order.publicKey,
          order.inputMint, inTokenInfo,
          order.outputMint, outTokenInfo,
          DisplayName(inFriendlyAmount, inTokenInfo.symbol, outTokenInfo.symbol, friendlyDate),
          isOpen,
          order.createdAt,
          order.fills))
  }

  /**
   * The item records the order's own address, mints, fills and creation time,
   * the flag it was given and the metadata of both tokens; it fails exactly
   * when one of the two lookups is rejected, naming the first mint that was.
   */
  lemma MakeDcaMapItemContents(order: FetchedDca, isOpen: bool, svc: Services)
    ensures var r := MakeDcaMapItem(order, isOpen, svc);
      var inInfo := GetTokenInfo(order.inputMint, svc.tokenList(order.inputMint));
      var outInfo := GetTokenInfo(order.outputMint, svc.tokenList(order.outputMint));
      && (r.Success? <==> inInfo.Success? && outInfo.Success?)
      && (r.Failure? ==> r.error == FailedToFetchTokenInfo(if inInfo.Failure? then order.inputMint else order.outputMint))
      && (r.Success? ==>
        && r.value.dcaAddress == order.publicKey
        && r.value.inTokenAddress == order.inputMint
        && r.value.outTokenAddress == order.outputMint
        && r.value.inTokenInfo == svc.tokenList(order.inputMint).content[0]
        && r.value.outTokenInfo == svc.tokenList(order.outputMint).content[0]
        && r.value.fills == order.fills
        && r.value.isOpen == isOpen
        && r.value.createdAtTimestamp == order.createdAt
        && r.value.displayName == DisplayName(
          svc.renderDecimal(ToDecimal(order.inDeposited, r.value.inTokenInfo.decimals)),
          r.value.inTokenInfo.symbol, r.value.outTokenInfo.symbol,
          svc.formatDate(order.createdAt * 1000)))
  {
  }

  /** The items of `orders` in order, or the error of the first order that fails. */
  function ItemsOf(orders: seq<FetchedDca>, isOpen: bool, svc: Services): (r: Result<seq<Item>, FetchError>)
    ensures r.Success? ==> |r.value| == |orders|
    ensures r.Success? ==> forall i :: 0 <= i < |orders| ==>
      r.value[i].isOpen == isOpen && r.value[i].dcaAddress == orders[i].publicKey
    ensures r.Success? ==> forall i :: 0 <= i < |orders| ==> MakeDcaMapItem(orders[i], isOpen, svc) == Success(r.value[i])
    ensures r.Failure? ==> exists i :: (
      && 0 <= i < |orders|
      && MakeDcaMapItem(orders[i], isOpen, svc) == Failure(r.error)
      && forall t :: 0 <= t < i ==> MakeDcaMapItem(orders[t], isOpen, svc).Success?)
  {
    if orders == [] then Success([])
    else
      var front, last := orders[..|orders| - 1], orders[|orders| - 1];
      assert forall i :: 0 <= i < |front| ==> front[i] == orders[i];
      match ItemsOf(front, isOpen, svc)
      case Failure(e) => Failure(e)
      case Success(items) =>
        match MakeDcaMapItem(last, isOpen, svc)
        case Failure(e) =>
          assert MakeDcaMapItem(orders[|orders| - 1], isOpen, svc) == Failure(e);
          Failure(e)
        case Success(item) => Success(items + [item])
  }

  /** The base58 addresses of `orders`, in order. */
  function Addresses(orders: seq<FetchedDca>): (addrs: seq<string>)
    ensures |addrs| == |orders|
    ensures forall i :: 0 <= i < |orders| ==> addrs[i] == orders[i].publicKey
  {
    seq(|orders|, i requires 0 <= i < |orders| => orders[i].publicKey)
  }

  /** The addresses of `items`, in order. */
  function ItemAddresses(items: seq<Item>): (addrs: seq<string>)
    ensures |addrs| == |items|
    ensures forall i :: 0 <= i < |items| ==> addrs[i] == items[i].dcaAddress
  {
    seq(|items|, i requires 0 <= i < |items| => items[i].dcaAddress)
  }

  /** `ks` followed by the elements of `more` not met before, in first-occurrence order. */
  function AppendNew(ks: seq<string>, more: seq<string>): (r: seq<string>)
    ensures forall x :: x in r <==> x in ks || x in more
    ensures |r| <= |ks| + |more|
    ensures (forall i, j :: 0 <= i < j < |ks| ==> ks[i] != ks[j]) ==> forall i, j :: 0 <= i < j < |r| ==> r[i] != r[j]
  {
    if more == [] then ks
    else
      var p, x := AppendNew(ks, more[..|more| - 1]), more[|more| - 1];
      assert forall y :: y in more <==> y in more[..|more| - 1] || y == x;
      if x in p then p else p + [x]
  }

  /** Every value is stored under its own address. */
  ghost predicate KeyedByAddress(m: OMap<Item>) {
    forall k :: k in Keys(m) ==> Get(m, k).value.dcaAddress == k
  }

  /** `dcaMap.set(item.dcaAddress, item)` for each item in turn. */
  function InsertAll(m: OMap<Item>, items: seq<Item>): (r: OMap<Item>)
    ensures |m.pairs| <= |r.pairs| <= |m.pairs| + |items|
  {
    if items == [] then m
    else Set(InsertAll(m, items[..|items| - 1]), items[|items| - 1].dcaAddress, items[|items| - 1])
  }

  /**
   * The keys after the inserts are the old keys followed by the new
   * addresses in first-insertion order; keys stay distinct and every value
   * stays stored under its own address.
   */
  lemma {:induction false} InsertAllKeys(m: OMap<Item>, items: seq<Item>)
    ensures Keys(InsertAll(m, items)) == AppendNew(Keys(m), ItemAddresses(items))
    ensures DistinctKeys(m) ==> DistinctKeys(InsertAll(m, items))
    ensures KeyedByAddress(m) ==> KeyedByAddress(InsertAll(m, items))
  {
    if items != [] {
      var front, it := items[..|items| - 1], items[|items| - 1];
      InsertAllKeys(m, front);
      assert ItemAddresses(items)[..|items| - 1] == ItemAddresses(front);
    }
  }

  /** Inserting items with other addresses leaves an address's entry as it was. */
  lemma {:induction false} InsertAllUntouched(m: OMap<Item>, items: seq<Item>, a: string)
    requires forall t :: 0 <= t < |items| ==> items[t].dcaAddress != a
    ensures Get(InsertAll(m, items), a) == Get(m, a)
  {
    if items != [] {
      InsertAllUntouched(m, items[..|items| - 1], a);
    }
  }

  /** Last write wins: an address ends up holding the last item inserted for it. */
  lemma {:induction false} InsertAllLastWins(m: OMap<Item>, items: seq<Item>, j: nat)
    requires j < |items|
    requires forall t :: j < t < |items| ==> items[t].dcaAddress != items[j].dcaAddress
    ensures Get(InsertAll(m, items), items[j].dcaAddress) == Some(items[j])
  {
    if j < |items| - 1 {
      InsertAllLastWins(m, items[..|items| - 1], j);
    }
  }

  /** An address given by some item holds one of the items inserted for that address. */
  lemma {:induction false} InsertAllFound(m: OMap<Item>, items: seq<Item>, t: nat)
    requires t < |items|
    ensures Get(InsertAll(m, items), items[t].dcaAddress).Some?
    ensures Get(InsertAll(m, items), items[t].dcaAddress).value in items
    ensures Get(InsertAll(m, items), items[t].dcaAddress).value.dcaAddress == items[t].dcaAddress
  {
    var a := items[t].dcaAddress;
    if items[|items| - 1].dcaAddress != a {
      var front := items[..|items| - 1];
      InsertAllFound(m, front, t);
      assert Get(InsertAll(m, front), a).value in items;
    }
  }

  /**
   * One loop of `makeDcaMap`: each order's item is set under the order's
   * address in turn, until an order's token metadata cannot be fetched.
   */
  method SetOrders(dcaMap: OMap<Item>, orders: seq<FetchedDca>, isOpen: bool, svc: Services)
    returns (r: Result<OMap<Item>, FetchError>)
    ensures r.Success? <==> ItemsOf(orders, isOpen, svc).Success?
    ensures r.Failure? ==> r.error == ItemsOf(orders, isOpen, svc).error
    ensures r.Success? ==> r.value == InsertAll(dcaMap, ItemsOf(orders, isOpen, svc).value)
  {
    var m := dcaMap;
    ghost var items: seq<Item> := [];
    for i := 0 to |orders|
      invariant ItemsOf(orders[..i], isOpen, svc) == Success(items)
      invariant m == InsertAll(dcaMap, items)
    {
      var mapItem := MakeDcaMapItem(orders[i], isOpen, svc);
      if mapItem.Failure? {
        ItemsOfStopsAt(orders, isOpen, svc, i);
        return Failure(mapItem.error);
      }
      InsertAllSnoc(dcaMap, items, mapItem.value);
      m := Set(m, orders[i].publicKey, mapItem.value);
      ItemsOfExtend(orders, isOpen, svc, i);
      items := items + [mapItem.value];
    }
    assert orders[..|orders|] == orders;
    return Success(m);
  }

  /**
   * `makeDcaMap`: the closed orders are inserted first, then the open ones;
   * the run stops at the first order whose token metadata cannot be fetched.
   */
  method MakeDcaMap(closedOrders: seq<FetchedDca>, openOrders: seq<FetchedDca>, svc: Services)
    returns (r: Result<OMap<Item>, FetchError>)
    ensures r.Success? <==> ItemsOf(closedOrders, false, svc).Success? && ItemsOf(openOrders, true, svc).Success?
    ensures r.Failure? ==>
      r.error == if ItemsOf(closedOrders, false, svc).Failure? then ItemsOf(closedOrders, false, svc).error
                 else ItemsOf(openOrders, true, svc).error
    ensures r.Success? ==>
      r.value == InsertAll(InsertAll(Empty(), ItemsOf(closedOrders, false, svc).value), ItemsOf(openOrders, true, svc).value)
  {
    var dcaMap: OMap<Item> := Empty();

    // First, add the closed DCAs
    r := SetOrders(dcaMap, closedOrders, false, svc);
    if r.Failure? {
      return r;
    }

    // Then, add the open DCAs
    r := SetOrders(r.value, openOrders, true, svc);
  }

  /** Inserting one more item is one more `set`. */
  lemma InsertAllSnoc(m: OMap<Item>, items: seq<Item>, it: Item)
    ensures InsertAll(m, items + [it]) == Set(InsertAll(m, items), it.dcaAddress, it)
  {
    assert (items + [it])[..|items|] == items;
  }

  /** One more successful order extends the list of items by its item. */
  lemma ItemsOfExtend(orders: seq<FetchedDca>, isOpen: bool, svc: Services, i: nat)
    requires i < |orders|
    requires ItemsOf(orders[..i], isOpen, svc).Success?
    requires MakeDcaMapItem(orders[i], isOpen, svc).Success?
    ensures ItemsOf(orders[..i + 1], isOpen, svc)
      == Success(ItemsOf(orders[..i], isOpen, svc).value + [MakeDcaMapItem(orders[i], isOpen, svc).value])
  {
    assert orders[..i + 1][..i] == orders[..i];
  }

  /** The first order whose item fails decides the error of the whole list. */
  lemma ItemsOfStopsAt(orders: seq<FetchedDca>, isOpen: bool, svc: Services, i: nat)
    requires i < |orders|
    requires ItemsOf(orders[..i], isOpen, svc).Success?
    requires MakeDcaMapItem(orders[i], isOpen, svc).Failure?
    ensures ItemsOf(orders, isOpen, svc) == Failure(MakeDcaMapItem(orders[i], isOpen, svc).error)
  {
    assert forall t :: 0 <= t < i ==> MakeDcaMapItem(orders[..i][t], isOpen, svc).Success?;
  }

  /** What the finished map holds, in terms of the orders it was built from. */
  lemma DcaMapProperties(closedOrders: seq<FetchedDca>, openOrders: seq<FetchedDca>, svc: Services)
    requires ItemsOf(closedOrders, false, svc).Success? && ItemsOf(openOrders, true, svc).Success?
    ensures var m := InsertAll(InsertAll(Empty(), ItemsOf(closedOrders, false, svc).value), ItemsOf(openOrders, true, svc).value);
      && DistinctKeys(m) && KeyedByAddress(m)
      && Keys(m) == AppendNew(AppendNew([], Addresses(closedOrders)), Addresses(openOrders))
      && |m.pairs| <= |closedOrders| + |openOrders|
      && (forall o :: o in openOrders ==> Get(m, o.publicKey).Some? && Get(m, o.publicKey).value.isOpen)
      && (forall o :: o in closedOrders && o.publicKey !in Addresses(openOrders) ==>
            Get(m, o.publicKey).Some? && !Get(m, o.publicKey).value.isOpen)
  {
    var closedItems := ItemsOf(closedOrders, false, svc).value;
    var openItems := ItemsOf(openOrders, true, svc).value;
    var m0: OMap<Item> := Empty();
    var m1 := InsertAll(m0, closedItems);
    var m := InsertAll(m1, openItems);
    assert Keys(m0) == [];
    assert ItemAddresses(closedItems) == Addresses(closedOrders);
    assert ItemAddresses(openItems) == Addresses(openOrders);
    InsertAllKeys(m0, closedItems);
    InsertAllKeys(m1, openItems);
    OpenEntries(openOrders, openItems, m1);
    ClosedEntries(closedOrders, closedItems, openItems);
  }

  /** Every open order's address holds an open item. */
  lemma OpenEntries(openOrders: seq<FetchedDca>, openItems: seq<Item>, m1: OMap<Item>)
    requires |openItems| == |openOrders|
    requires forall i :: 0 <= i < |openOrders| ==> openItems[i].isOpen && openItems[i].dcaAddress == openOrders[i].publicKey
    ensures var m := InsertAll(m1, openItems);
      forall o :: o in openOrders ==> Get(m, o.publicKey).Some? && Get(m, o.publicKey).value.isOpen
  {
    var m := InsertAll(m1, openItems);
    forall o | o in openOrders ensures Get(m, o.publicKey).Some? && Get(m, o.publicKey).value.isOpen {
      var t :| 0 <= t < |openOrders| && openOrders[t] == o;
      InsertAllFound(m1, openItems, t);
    }
  }

  /** A closed order whose address no open order shares keeps a closed item. */
  lemma ClosedEntries(closedOrders: seq<FetchedDca>, closedItems: seq<Item>, openItems: seq<Item>)
    requires |closedItems| == |closedOrders|
    requires forall i :: 0 <= i < |closedOrders| ==> !closedItems[i].isOpen && closedItems[i].dcaAddress == closedOrders[i].publicKey
    ensures var m := InsertAll(InsertAll(Empty(), closedItems), openItems);
      forall o :: o in closedOrders && o.publicKey !in ItemAddresses(openItems) ==>
        Get(m, o.publicKey).Some? && !Get(m, o.publicKey).value.isOpen
  {
    forall o | o in closedOrders && o.publicKey !in ItemAddresses(openItems)
      ensures var m := InsertAll(InsertAll(Empty(), closedItems), openItems);
        Get(m, o.publicKey).Some? && !Get(m, o.publicKey).value.isOpen
    {
      var t :| 0 <= t < |closedOrders| && closedOrders[t] == o;
      ClosedEntry(closedItems, openItems, t);
    }
  }

  /** The closed item at index `t` survives the open insertions when no open item shares its address. */
  lemma ClosedEntry(closedItems: seq<Item>, openItems: seq<Item>, t: nat)
    requires t < |closedItems|
    requires forall i :: 0 <= i < |closedItems| ==> !closedItems[i].isOpen
    requires closedItems[t].dcaAddress !in ItemAddresses(openItems)
    ensures var m := InsertAll(InsertAll(Empty(), closedItems), openItems);
      Get(m, closedItems[t].dcaAddress).Some? && !Get(m, closedItems[t].dcaAddress).value.isOpen
  {
    var a := closedItems[t].dcaAddress;
    var m1 := InsertAll(Empty(), closedItems);
    InsertAllFound(Empty(), closedItems, t);
    forall j | 0 <= j < |openItems| ensures openItems[j].dcaAddress != a {
      assert ItemAddresses(openItems)[j] == openItems[j].dcaAddress;
    }
    InsertAllUntouched(m1, openItems, a);
  }
}
