/**
 * The cart helpers of client/src/components/shop/partials/Mixins.js. Each reads the cart
 * kept in local storage (here the parameter `cart`; None when nothing is stored, which
 * `|| []` turns into the empty cart) and folds over it with a loop. Prices and
 * quantities are integers.
 */
module CartMixins {
  import opened Wrappers

  datatype CartItem = CartItem(id: string, quantity: int, price: int)

  /** `JSON.parse(localStorage.getItem("cart")) || []`. */
  function Carts(cart: Option<seq<CartItem>>): seq<CartItem> {
    cart.GetOr([])
  }

  /** The quantity of the last item of `carts` with this id, or 0 when none has it. */
  function LastQuantity(carts: seq<CartItem>, id: string): int {
    if carts == [] then 0
    else if carts[|carts| - 1].id == id then carts[|carts| - 1].quantity
    else LastQuantity(carts[..|carts| - 1], id)
  }

  /** The sum of quantity times price over `carts`. */
  function Sum(carts: seq<CartItem>): int {
    if carts == [] then 0 else Sum(carts[..|carts| - 1]) + carts[|carts| - 1].quantity * carts[|carts| - 1].price
  }

  /** `LastQuantity` is the quantity of the item at the last index with that id. */
  lemma {:induction false} LastQuantityIsLastMatch(carts: seq<CartItem>, id: string, k: nat)
    requires k < |carts| && carts[k].id == id
    requires forall j :: k < j < |carts| ==> carts[j].id != id
    ensures LastQuantity(carts, id) == carts[k].quantity
    decreases |carts|
  {
    if k < |carts| - 1 {
      var init := carts[..|carts| - 1];
      assert init[k] == carts[k];
      assert forall j :: k < j < |init| ==> init[j] == carts[j];
      LastQuantityIsLastMatch(init, id, k);
    }
  }

  /** With no item of that id, `LastQuantity` is 0. */
  lemma {:induction false} LastQuantityNoMatch(carts: seq<CartItem>, id: string)
    requires forall j :: 0 <= j < |carts| ==> carts[j].id != id
    ensures LastQuantity(carts, id) == 0
    decreases |carts|
  {
    if carts != [] {
      var init := carts[..|carts| - 1];
      assert forall j :: 0 <= j < |init| ==> init[j] == carts[j];
      LastQuantityNoMatch(init, id);
    }
  }

  /** Appending an item adds its quantity times price. */
  lemma SumAppend(carts: seq<CartItem>, item: CartItem)
    ensures Sum(carts + [item]) == Sum(carts) + item.quantity * item.price
  {
    assert (carts + [item])[..|carts|] == carts;
  }

  /** The total of two carts one after the other is the sum of their totals. */
  lemma {:induction false} SumConcat(a: seq<CartItem>, b: seq<CartItem>)
    ensures Sum(a + b) == Sum(a) + Sum(b)
    decreases |b|
  {
    if b == [] {
      assert a + b == a;
    } else {
      var init := b[..|b| - 1];
      var last := b[|b| - 1];
      assert b == init + [last];
      assert a + b == (a + init) + [last];
      SumConcat(a, init);
      SumAppend(a + init, last);
      SumAppend(init, last);
    }
  }

  lemma PrefixSnoc(carts: seq<CartItem>, i: nat)
    requires i < |carts|
    ensures carts[..i + 1] == carts[..i] + [carts[i]]
  {
  }

  /** `quantity(id)`: the last matching item's quantity, overwritten item by item. */
  method Quantity(cart: Option<seq<CartItem>>, id: string) returns (productQuantity: int)
    ensures productQuantity == LastQuantity(Carts(cart), id)
    ensures cart.None? ==> productQuantity == 0
  {
    productQuantity := 0;
    var carts := Carts(cart);
    var i := 0;
    while i < |carts|
      invariant 0 <= i <= |carts|
      invariant productQuantity == LastQuantity(carts[..i], id)
    {
      PrefixSnoc(carts, i);
      assert carts[..i + 1][..i] == carts[..i];
      if carts[i].id == id {
        productQuantity := carts[i].quantity;
      }
      i := i + 1;
    }
    assert carts[..i] == carts;
  }

  /** `subTotal(id, price)`: the last matching item's quantity times `price`, or 0. */
  method SubTotal(cart: Option<seq<CartItem>>, id: string, price: int) returns (subTotalCost: int)
    ensures subTotalCost == LastQuantity(Carts(cart), id) * price
    ensures cart.None? ==> subTotalCost == 0
  {
    subTotalCost := 0;
    var carts := Carts(cart);
    var i := 0;
    while i < |carts|
      invariant 0 <= i <= |carts|
      invariant subTotalCost == LastQuantity(carts[..i], id) * price
    {
      PrefixSnoc(carts, i);
      assert carts[..i + 1][..i] == carts[..i];
      if carts[i].id == id {
        subTotalCost := carts[i].quantity * price;
      }
      i := i + 1;
    }
    assert carts[..i] == carts;
  }

  /** `totalCost()`: quantity times price accumulated over the whole cart. */
  method TotalCost(cart: Option<seq<CartItem>>) returns (total: int)
    ensures total == Sum(Carts(cart))
    ensures cart.None? ==> total == 0
  {
    total := 0;
    var carts := Carts(cart);
    var i := 0;
    while i < |carts|
      invariant 0 <= i <= |carts|
      invariant total == Sum(carts[..i])
    {
      PrefixSnoc(carts, i);
      SumAppend(carts[..i], carts[i]);
      total := total + carts[i].quantity * carts[i].price;
      i := i + 1;
    }
    assert carts[..i] == carts;
  }
}
