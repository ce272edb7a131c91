/** The browser cart (`js/cart.js`): a list of line items merged by product
    id, mirrored to `localStorage` and summarised by the header icon after
    every save. Prices are integers. */
module ShopCart {
  import opened Util
  import opened Json

  /** One line of the cart. */
  datatype Item = Item(id: Value, name: Value, price: int, image: Value, quantity: int)

  /** The product fields `addItem` copies. */
  datatype ProductRef = ProductRef(id: Value, name: Value, price: int, image: Value)

  /** `a === b` on JSON values: objects and arrays parsed separately are never identical. */
  predicate StrictEq(a: Value, b: Value) {
    a == b && !a.Arr? && !a.Obj?
  }

  /** A string id never equals a numeric one: `"3" !== 3`. */
  lemma StringIdNeverMatchesNumber(s: string, n: int)
    ensures !StrictEq(Str(s), Num(n)) && !StrictEq(Num(n), Str(s))
  {
  }

  /** `cart.find(item => item.id === id)` as an index, or -1. */
  function FindItem(items: seq<Item>, id: Value): (i: int)
    ensures -1 <= i < |items|
    ensures i == -1 <==> forall j :: 0 <= j < |items| ==> !StrictEq(items[j].id, id)
    ensures 0 <= i ==> StrictEq(items[i].id, id)
    ensures 0 <= i ==> forall j :: 0 <= j < i ==> !StrictEq(items[j].id, id)
  {
    if items == [] then -1
    else if StrictEq(items[0].id, id) then 0
    else
      var i := FindItem(items[1..], id);
      if i == -1 then -1 else i + 1
  }

  /** `cart.filter(item => item.id !== id)`. */
  function WithoutId(items: seq<Item>, id: Value): (r: seq<Item>)
    ensures |r| <= |items|
    ensures forall j :: 0 <= j < |r| ==> !StrictEq(r[j].id, id) && r[j] in items
    ensures forall j :: 0 <= j < |items| && !StrictEq(items[j].id, id) ==> items[j] in r
    ensures (forall j :: 0 <= j < |items| ==> !StrictEq(items[j].id, id)) ==> r == items
  {
    if items == [] then []
    else if StrictEq(items[0].id, id) then WithoutId(items[1..], id)
    else [items[0]] + WithoutId(items[1..], id)
  }

  /** Removal works piece by piece, so the kept items stay in their order. */
  lemma {:induction false} WithoutIdConcat(a: seq<Item>, b: seq<Item>, id: Value)
    ensures WithoutId(a + b, id) == WithoutId(a, id) + WithoutId(b, id)
  {
    if a == [] {
      assert a + b == b;
    } else {
      assert (a + b)[0] == a[0];
      assert (a + b)[1..] == a[1..] + b;
      WithoutIdConcat(a[1..], b, id);
      if StrictEq(a[0].id, id) {
        calc {
          WithoutId(a + b, id);
          WithoutId(a[1..] + b, id);
          WithoutId(a[1..], id) + WithoutId(b, id);
          WithoutId(a, id) + WithoutId(b, id);
        }
      } else {
        calc {
          WithoutId(a + b, id);
          [a[0]] + WithoutId(a[1..] + b, id);
          [a[0]] + (WithoutId(a[1..], id) + WithoutId(b, id));
          ([a[0]] + WithoutId(a[1..], id)) + WithoutId(b, id);
          WithoutId(a, id) + WithoutId(b, id);
        }
      }
    }
  }

  /** One item is dropped exactly when its id is strictly the removed one. */
  lemma WithoutIdOne(it: Item, id: Value)
    ensures WithoutId([it], id) == if StrictEq(it.id, id) then [] else [it]
  {
    assert [it][1..] == [];
  }

  /** A kept item occurs as often as before; a removed one not at all. */
  lemma {:induction false} WithoutIdCount(items: seq<Item>, id: Value, it: Item)
    ensures multiset(WithoutId(items, id))[it] == if StrictEq(it.id, id) then 0 else multiset(items)[it]
  {
    if items != [] {
      var x, rest := items[0], items[1..];
      WithoutIdCount(rest, id, it);
      assert items == [x] + rest;
      assert multiset(items)[it] == multiset([x])[it] + multiset(rest)[it];
      if StrictEq(x.id, id) {
        assert WithoutId(items, id) == WithoutId(rest, id);
      } else {
        assert WithoutId(items, id) == [x] + WithoutId(rest, id);
        assert multiset(WithoutId(items, id))[it] == multiset([x])[it] + multiset(WithoutId(rest, id))[it];
      }
    }
  }

  /** No two items share an id. */
  predicate UniqueItemIds(items: seq<Item>) {
    forall i, j :: 0 <= i < j < |items| ==> !StrictEq(items[i].id, items[j].id)
  }

  /** `cart.reduce((count, item) => count + item.quantity, 0)`. */
  function ItemCount(items: seq<Item>): int {
    if items == [] then 0 else items[0].quantity + ItemCount(items[1..])
  }

  /** `cart.reduce((total, item) => total + item.price * item.quantity, 0)`. */
  function Total(items: seq<Item>): int {
    if items == [] then 0 else items[0].price * items[0].quantity + Total(items[1..])
  }

  /** Appending an item adds its quantity to the count and its line to the total. */
  lemma {:induction false} SumsOfAppend(items: seq<Item>, it: Item)
    ensures ItemCount(items + [it]) == ItemCount(items) + it.quantity
    ensures Total(items + [it]) == Total(items) + it.price * it.quantity
  {
    if items != [] {
      assert (items + [it])[1..] == items[1..] + [it];
      SumsOfAppend(items[1..], it);
    }
  }

  /** Changing one item's quantity changes the count and total by the difference. */
  lemma {:induction false} SumsOfUpdate(items: seq<Item>, i: nat, q: int)
    requires i < |items|
    ensures ItemCount(items[i := items[i].(quantity := q)]) == ItemCount(items) - items[i].quantity + q
    ensures Total(items[i := items[i].(quantity := q)]) == Total(items) + items[i].price * (q - items[i].quantity)
  {
    if i > 0 {
      assert items[i := items[i].(quantity := q)][1..] == items[1..][i - 1 := items[i].(quantity := q)];
      SumsOfUpdate(items[1..], i - 1, q);
    }
  }

  lemma TailUnique(items: seq<Item>)
    requires items != [] && UniqueItemIds(items)
    ensures UniqueItemIds(items[1..])
  {
    var tail := items[1..];
    forall i, j | 0 <= i < j < |tail|
      ensures !StrictEq(tail[i].id, tail[j].id)
    {
      assert tail[i] == items[i + 1] && tail[j] == items[j + 1];
    }
  }

  lemma ConsUnique(x: Item, rest: seq<Item>)
    requires UniqueItemIds(rest)
    requires forall j :: 0 <= j < |rest| ==> !StrictEq(x.id, rest[j].id)
    ensures UniqueItemIds([x] + rest)
  {
    var r := [x] + rest;
    forall i, j | 0 <= i < j < |r|
      ensures !StrictEq(r[i].id, r[j].id)
    {
      assert r[j] == rest[j - 1];
      if i > 0 {
        assert r[i] == rest[i - 1];
      }
    }
  }

  lemma HeadDistinctFromKept(items: seq<Item>, id: Value)
    requires items != [] && UniqueItemIds(items)
    ensures var rest := WithoutId(items[1..], id);
      forall j :: 0 <= j < |rest| ==> !StrictEq(items[0].id, rest[j].id)
  {
    var tail := items[1..];
    var rest := WithoutId(tail, id);
    forall j | 0 <= j < |rest|
      ensures !StrictEq(items[0].id, rest[j].id)
    {
      var k :| 0 <= k < |tail| && tail[k] == rest[j];
      assert items[k + 1] == rest[j];
    }
  }

  /** Removing items never breaks id uniqueness. */
  lemma {:induction false} WithoutIdKeepsUnique(items: seq<Item>, id: Value)
    requires UniqueItemIds(items)
    ensures UniqueItemIds(WithoutId(items, id))
  {
    if items != [] {
      TailUnique(items);
      WithoutIdKeepsUnique(items[1..], id);
      if !StrictEq(items[0].id, id) {
        HeadDistinctFromKept(items, id);
        ConsUnique(items[0], WithoutId(items[1..], id));
      }
    }
  }

  /** The header icon: the count, shown only when positive. */
  datatype Icon = Hidden | Showing(count: int)

  function IconFor(count: int): (icon: Icon)
    ensures icon == Hidden <==> count <= 0
    ensures icon.Showing? ==> icon.count == count
  {
    if count > 0 then Showing(count) else Hidden
  }

  class Cart {
    /** `this.cart`. */
    var items: seq<Item>
    /** What `localStorage.getItem('cart')` holds. */
    var stored: seq<Item>
    /** The state of the `cart-count` element. */
    var icon: Icon

    /** `loadCart`: the saved array, or `[]` when nothing (or `''`) is saved. */
    constructor(saved: Option<seq<Item>>)
      ensures items == (if saved.Some? then saved.value else [])
      ensures stored == items
      ensures icon == IconFor(ItemCount(items))
    {
      items := if saved.Some? then saved.value else [];
      stored := if saved.Some? then saved.value else [];
      icon := IconFor(ItemCount(if saved.Some? then saved.value else []));
    }

    /** `saveCart`: store the items and refresh the icon. */
    method Save()
      modifies this
      ensures items == old(items) && stored == items && icon == IconFor(ItemCount(items))
    {
      stored := items;
      icon := IconFor(ItemCount(items));
    }

    /** `addItem`: merge into the first item with the same id, or append a new line. */
    method AddItem(product: ProductRef, quantity: int := 1)
      modifies this
      ensures var i := FindItem(old(items), product.id);
        if i == -1 then
          items == old(items) + [Item(product.id, product.name, product.price, product.image, quantity)]
        else
          items == old(items)[i := old(items)[i].(quantity := old(items)[i].quantity + quantity)]
      ensures ItemCount(items) == ItemCount(old(items)) + quantity
      ensures old(UniqueItemIds(items)) ==> UniqueItemIds(items)
      ensures stored == items && icon == IconFor(ItemCount(items))
    {
      var i := FindItem(items, product.id);
      if i == -1 {
        var it := Item(product.id, product.name, product.price, product.image, quantity);
        SumsOfAppend(items, it);
        items := items + [it];
      } else {
        SumsOfUpdate(items, i, items[i].quantity + quantity);
        items := items[i := items[i].(quantity := items[i].quantity + quantity)];
      }
      Save();
    }

    /** `removeItem`: drop every item with that id, keep the rest in order. */
    method RemoveItem(id: Value)
      modifies this
      ensures items == WithoutId(old(items), id)
      ensures old(UniqueItemIds(items)) ==> UniqueItemIds(items)
      ensures stored == items && icon == IconFor(ItemCount(items))
    {
      if UniqueItemIds(items) {
        WithoutIdKeepsUnique(items, id);
      }
      items := WithoutId(items, id);
      Save();
    }

    /** `updateQuantity`: a missing id changes nothing; a quantity of 0 or less
        removes the item; otherwise the quantity is set. */
    method UpdateQuantity(id: Value, quantity: int)
      modifies this
      ensures var i := FindItem(old(items), id);
        if i == -1 then
          items == old(items) && stored == old(stored) && icon == old(icon)
        else if quantity <= 0 then
          items == WithoutId(old(items), id) && stored == items && icon == IconFor(ItemCount(items))
        else
          items == old(items)[i := old(items)[i].(quantity := quantity)]
          && ItemCount(items) == ItemCount(old(items)) - old(items)[i].quantity + quantity
          && stored == items && icon == IconFor(ItemCount(items))
      ensures old(UniqueItemIds(items)) ==> UniqueItemIds(items)
    {
      var i := FindItem(items, id);
      if i == -1 {
        return;
      }
      if quantity <= 0 {
        RemoveItem(id);
      } else {
        SumsOfUpdate(items, i, quantity);
        items := items[i := items[i].(quantity := quantity)];
        Save();
      }
    }

    /** `getItems`: a copy; changing it does not change the cart. */
    method GetItems() returns (copy: seq<Item>)
      ensures copy == items
    {
      copy := items;
    }

    /** `getTotal`. */
    method GetTotal() returns (total: int)
      ensures total == Total(items)
    {
      total := Total(items);
    }

    /** `getItemCount`. */
    method GetItemCount() returns (count: int)
      ensures count == ItemCount(items)
    {
      count := ItemCount(items);
    }

    /** `clear`: the cart, the stored copy and the icon all become empty. */
    method Clear()
      modifies this
      ensures items == [] && stored == [] && icon == Hidden
      ensures ItemCount(items) == 0 && Total(items) == 0
    {
      items := [];
      Save();
    }
  }
}
