/** The order handler (`api/orders.js`) over `data/orders.json`. Prices and
    quantities are integers; a NaN total is written as `null`. */
module OrdersApi {
  import opened Util
  import opened Json
  import opened Store

  /** `parseFloat(item.price) * parseInt(item.quantity)`: NaN unless both parse.
      An item that is not an object has neither property. */
  function LineTotal(item: Value): (t: Option<int>)
    ensures t.Some? <==> item.Obj? && ParseFloat(Get(item.props, "price")).Some?
                                   && ParseInt(Get(item.props, "quantity")).Some?
  {
    if item.Obj? then
      var price := ParseFloat(Get(item.props, "price"));
      var quantity := ParseInt(Get(item.props, "quantity"));
      if price.Some? && quantity.Some? then Some(price.value * quantity.value) else None
    else None
  }

  /** NaN-propagating addition. */
  function AddNaN(a: Option<int>, b: Option<int>): (c: Option<int>)
    ensures c.Some? <==> a.Some? && b.Some?
  {
    if a.Some? && b.Some? then Some(a.value + b.value) else None
  }

  /** `items.reduce((sum, item) => sum + price * quantity, 0)`, a left fold. */
  function OrderTotal(items: seq<Value>): (t: Option<int>)
    ensures t.Some? <==> LinesParse(items)
  {
    if items == [] then Some(0)
    else
      LinesParseSnoc(items[..|items| - 1], items[|items| - 1]);
      assert items[..|items| - 1] + [items[|items| - 1]] == items;
      AddNaN(OrderTotal(items[..|items| - 1]), LineTotal(items[|items| - 1]))
  }

  /** Every line of the order parses to a number. */
  predicate LinesParse(items: seq<Value>) {
    forall i :: 0 <= i < |items| ==> LineTotal(items[i]).Some?
  }

  /** The lines of a longer list parse exactly when those before and the last one do. */
  lemma LinesParseSnoc(items: seq<Value>, last: Value)
    ensures LinesParse(items + [last]) <==> LinesParse(items) && LineTotal(last).Some?
  {
    var all := items + [last];
    assert all[|items|] == last;
    assert forall i :: 0 <= i < |items| ==> all[i] == items[i];
  }

  /** The plain sum of the line totals, for items whose lines all parse. */
  function SumLines(items: seq<Value>): int
    requires LinesParse(items)
  {
    if items == [] then 0 else LineTotal(items[0]).value + SumLines(items[1..])
  }

  /** The total is a number exactly when every line parses, and is then the sum
      of `price * quantity` over the items; one bad line makes the whole total NaN. */
  lemma {:induction false} OrderTotalIsSum(items: seq<Value>)
    ensures OrderTotal(items).Some? <==> LinesParse(items)
    ensures OrderTotal(items).Some? ==> OrderTotal(items).value == SumLines(items)
  {
    if items != [] {
      var init, last := items[..|items| - 1], items[|items| - 1];
      assert items == init + [last];
      OrderTotalIsSum(init);
      LinesParseSnoc(init, last);
      if OrderTotal(items).Some? {
        SumLinesSnoc(init, last);
      }
    }
  }

  lemma {:induction false} SumLinesSnoc(items: seq<Value>, last: Value)
    requires LinesParse(items) && LineTotal(last).Some?
    ensures LinesParse(items + [last])
    ensures SumLines(items + [last]) == SumLines(items) + LineTotal(last).value
  {
    LinesParseSnoc(items, last);
    if items != [] {
      var all := items + [last];
      assert all[1..] == items[1..] + [last];
      assert LinesParse(items[1..]);
      SumLinesSnoc(items[1..], last);
    }
  }

  /** An item that is `null` or `undefined` makes `item.price` throw. */
  predicate ItemsReadable(items: seq<Value>) {
    forall i :: 0 <= i < |items| ==> items[i] != Null && items[i] != Undefined
  }

  /** The `!customerName || !customerEmail || !items || !Array.isArray(items)` guard. */
  predicate ValidOrder(body: Fields) {
    Truthy(Get(body, "customerName")) && Truthy(Get(body, "customerEmail")) && Get(body, "items").Arr?
  }

  /** The record `addOrder` builds. */
  function NewOrder(id: int, body: Fields, now: string): (r: Record)
    requires ValidOrder(body)
    ensures r.id == id && "id" !in r.fields && Defined(r.fields)
    ensures r.fields.Keys == {"customerName", "customerEmail", "items", "total", "status", "createdAt", "updatedAt"}
    ensures r.fields["items"] == body["items"]
    ensures r.fields["total"] == NumberOrNull(OrderTotal(body["items"].elems))
    ensures !Truthy(Get(body, "status")) ==> r.fields["status"] == Str("pending")
    ensures Truthy(Get(body, "status")) ==> r.fields["status"] == body["status"]
    ensures r.fields["customerName"] == body["customerName"]
    ensures r.fields["customerEmail"] == body["customerEmail"]
    ensures r.fields["createdAt"] == r.fields["updatedAt"] == Str(now)
  {
    Record(id, StampedFields("customerName", body["customerName"],
                             "customerEmail", body["customerEmail"],
                             "items", body["items"],
                             "total", NumberOrNull(OrderTotal(body["items"].elems)),
                             "status", Or(Get(body, "status"), Str("pending")), now))
  }

  /** `addOrder`: 400 for a failed guard, 500 when an item is `null`/`undefined`,
      otherwise push the new order with the next id. */
  method AddOrder(file: Collection, body: Fields, now: string) returns (resp: Response)
    modifies file
    ensures !ValidOrder(body) ==> resp == BadRequest
    ensures ValidOrder(body) && !ItemsReadable(body["items"].elems) ==> resp == ServerError
    ensures !resp.Created? ==> file.records == old(file.records) && file.saved == old(file.saved)
    ensures ValidOrder(body) && ItemsReadable(body["items"].elems) ==>
      resp == Created(NewOrder(NextId(old(file.records)), body, now))
      && file.records == old(file.records) + [resp.record]
      && file.saved == old(file.saved) + [file.records]
    ensures old(UniqueIds(file.records)) ==> UniqueIds(file.records)
  {
    if !ValidOrder(body) {
      return BadRequest;
    }
    if !ItemsReadable(body["items"].elems) {
      return ServerError;
    }
    var order := NewOrder(NextId(file.records), body, now);
    file.Push(order);
    resp := Created(order);
  }

  /** `updateOrder`: no field check at all; 404 or the shallow merge. */
  method UpdateOrder(file: Collection, id: string, body: Fields, now: string) returns (resp: Response)
    modifies file
    ensures var i := FindIndex(old(file.records), ParseIntText(id));
      if i == -1 then
        resp == NotFound && file.records == old(file.records) && file.saved == old(file.saved)
      else
        resp == Updated(Merge(old(file.records)[i], body, now))
        && file.records == old(file.records)[i := resp.record]
        && file.saved == old(file.saved) + [file.records]
    ensures old(UniqueIds(file.records)) ==> UniqueIds(file.records)
  {
    var i := FindIndex(file.records, ParseIntText(id));
    if i == -1 {
      return NotFound;
    }
    var updated := Merge(file.records[i], body, now);
    file.Assign(i, updated);
    resp := Updated(updated);
  }

  /** An update that replaces `items` without sending a `total` keeps the old
      total, whatever the new items add up to. */
  lemma UpdateKeepsTotal(previous: Record, body: Fields, now: string)
    requires "items" in body && "total" !in body
    ensures Get(Merge(previous, body, now).fields, "items") == body["items"]
    ensures Get(Merge(previous, body, now).fields, "total") == Get(previous.fields, "total")
  {
  }
}
