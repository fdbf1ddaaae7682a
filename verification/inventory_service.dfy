/** The inventory service answers "which of these SKU codes are in stock?".
    Its repository query `findBySkuCodeIn` is modelled as a filter of the
    stored records (a sequence, in storage order) by membership of their SKU
    code in the requested list; each record found is then turned into one
    response whose flag is `quantity > 0`. */
module InventoryService {

  /** A stored stock record. */
  datatype Inventory = Inventory(id: int, skuCode: string, quantity: int)

  /** The answer for one stored record. */
  datatype InventoryResponse = InventoryResponse(skuCode: string, isInStock: bool)

  /** The records of `store` whose SKU code occurs in `skuCodes`, in storage
      order; a record is returned once however often its code is requested. */
  function FindBySkuCodeIn(store: seq<Inventory>, skuCodes: seq<string>): (found: seq<Inventory>)
    ensures |found| <= |store|
    ensures forall r :: r in found <==> r in store && r.skuCode in skuCodes
  {
    if store == [] then []
    else if store[0].skuCode in skuCodes then [store[0]] + FindBySkuCodeIn(store[1..], skuCodes)
    else FindBySkuCodeIn(store[1..], skuCodes)
  }

  /** The query keeps storage order: it distributes over concatenation of
      the store. With the membership clause above, this pins the result
      down exactly (a sub-sequence of the store). */
  lemma {:induction false} FindBySkuCodeInConcat(a: seq<Inventory>, b: seq<Inventory>, skuCodes: seq<string>)
    ensures FindBySkuCodeIn(a + b, skuCodes) == FindBySkuCodeIn(a, skuCodes) + FindBySkuCodeIn(b, skuCodes)
  {
    if a == [] {
      assert a + b == b;
    } else {
      assert (a + b)[0] == a[0];
      assert (a + b)[1..] == a[1..] + b;
      FindBySkuCodeInConcat(a[1..], b, skuCodes);
    }
  }

  /** One response per record, in the same order, each copying the record's
      SKU code and flagging it in stock exactly when its quantity is positive. */
  function ToResponses(records: seq<Inventory>): (responses: seq<InventoryResponse>)
    ensures |responses| == |records|
    ensures forall i :: 0 <= i < |records| ==>
              responses[i].skuCode == records[i].skuCode
              && (responses[i].isInStock <==> records[i].quantity > 0)
  {
    if records == [] then []
    else [InventoryResponse(records[0].skuCode, records[0].quantity > 0)] + ToResponses(records[1..])
  }

  /** `InventoryService.isInStock`: look the codes up, then map each record
      found to its response. */
  function IsInStock(store: seq<Inventory>, skuCodes: seq<string>): (responses: seq<InventoryResponse>)
    ensures var found := FindBySkuCodeIn(store, skuCodes);
            |responses| == |found|
            && forall i :: 0 <= i < |found| ==>
                 responses[i].skuCode == found[i].skuCode
                 && (responses[i].isInStock <==> found[i].quantity > 0)
    ensures forall i :: 0 <= i < |responses| ==> responses[i].skuCode in skuCodes
    ensures store == [] || skuCodes == [] ==> responses == []
  {
    var found := FindBySkuCodeIn(store, skuCodes);
    assert forall i :: 0 <= i < |found| ==> found[i] in found;
    assert found != [] ==> found[0] in found;
    ToResponses(found)
  }

  /** Responses are computed record by record: the answer for a store made
      of two parts is the answer for the first part followed by the answer
      for the second. */
  lemma {:induction false} IsInStockConcat(a: seq<Inventory>, b: seq<Inventory>, skuCodes: seq<string>)
    ensures IsInStock(a + b, skuCodes) == IsInStock(a, skuCodes) + IsInStock(b, skuCodes)
  {
    FindBySkuCodeInConcat(a, b, skuCodes);
    ToResponsesConcat(FindBySkuCodeIn(a, skuCodes), FindBySkuCodeIn(b, skuCodes));
  }

  lemma ToResponsesConcat(x: seq<Inventory>, y: seq<Inventory>)
    ensures ToResponses(x + y) == ToResponses(x) + ToResponses(y)
  {
    var l, r := ToResponses(x + y), ToResponses(x) + ToResponses(y);
    assert |l| == |r|;
    forall i | 0 <= i < |l| ensures l[i] == r[i] {
      if i < |x| {
        assert (x + y)[i] == x[i];
      } else {
        assert (x + y)[i] == y[i - |x|];
      }
    }
  }

  /** Every stored record with a requested code shows up in the answer with
      its own flag; a code that no record carries yields no entry at all. */
  lemma IsInStockExact(store: seq<Inventory>, skuCodes: seq<string>, sku: string)
    ensures var responses := IsInStock(store, skuCodes);
            (forall k :: 0 <= k < |store| && store[k].skuCode in skuCodes ==>
               InventoryResponse(store[k].skuCode, store[k].quantity > 0) in responses)
            && (sku !in SkuCodesOf(store) ==> forall i :: 0 <= i < |responses| ==> responses[i].skuCode != sku)
  {
    var responses := IsInStock(store, skuCodes);
    var found := FindBySkuCodeIn(store, skuCodes);
    forall k | 0 <= k < |store| && store[k].skuCode in skuCodes
      ensures InventoryResponse(store[k].skuCode, store[k].quantity > 0) in responses
    {
      assert store[k] in store;
      assert store[k] in found;
      var i :| 0 <= i < |found| && found[i] == store[k];
      assert responses[i] == InventoryResponse(store[k].skuCode, store[k].quantity > 0);
    }
    if sku !in SkuCodesOf(store) {
      forall i | 0 <= i < |responses| ensures responses[i].skuCode != sku {
        assert found[i] in found;
        assert found[i] in store;
      }
    }
  }

  /** The SKU codes the store has records for. */
  function SkuCodesOf(store: seq<Inventory>): set<string>
  {
    set r | r in store :: r.skuCode
  }
}
