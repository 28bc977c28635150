/**
 * The mini online store: a price lookup over a two-level, insertion-ordered
 * category/product table, a cart that accepts only products with a non-zero
 * price, and the cart's total.
 */
module OnlineStore {
  import opened Wrappers
  import opened Text

  /** One product of a category, with its integer price. */
  datatype Product = Product(name: string, price: int)

  /**
   * A top-level inventory value: a category (a dictionary of products), or any
   * other value, which the price lookup skips.
   */
  datatype Value = Category(products: seq<Product>) | Other(amount: int)

  /** One top-level inventory entry, in the dictionary's insertion order. */
  datatype Entry = Entry(key: string, value: Value)

  /** One cart line: the product name, the quantity asked for and the unit price. */
  datatype CartItem = CartItem(item: string, qty: int, price: int)

  /** The inventory the store starts with. */
  function StartingInventory(): seq<Entry> {
    [ Entry("Electronics", Category([Product("Laptop", 800), Product("Phone", 500)])),
      Entry("Clothing", Category([Product("T-Shirt", 20), Product("Jeans", 40)])),
      Entry("Books", Category([Product("Fiction", 15), Product("Non-fiction", 25)])) ]
  }

  /** Category `i` of `inventory` is a dictionary whose product `j` is named `name`. */
  predicate Offers(inventory: seq<Entry>, i: int, j: int, name: string) {
    0 <= i < |inventory| && inventory[i].value.Category? &&
    0 <= j < |inventory[i].value.products| && inventory[i].value.products[j].name == name
  }

  /** The price of the first product named `name` in one category. */
  function PriceIn(products: seq<Product>, name: string): (r: Option<int>)
    ensures r.None? <==> forall j :: 0 <= j < |products| ==> products[j].name != name
  {
    if products == [] then None
    else if products[0].name == name then Some(products[0].price)
    else PriceIn(products[1..], name)
  }

  /**
   * `get_price`: the price of the first product named `name`, categories first,
   * then products. There is none exactly when no category has such a product.
   */
  function PriceOf(inventory: seq<Entry>, name: string): (r: Option<int>)
    ensures r.None? <==> forall i :: 0 <= i < |inventory| && inventory[i].value.Category? ==>
      PriceIn(inventory[i].value.products, name).None?
  {
    if inventory == [] then None
    else match inventory[0].value
      case Other(_) => PriceOf(inventory[1..], name)
      case Category(products) =>
        var here := PriceIn(products, name);
        if here.Some? then here else PriceOf(inventory[1..], name)
  }

  /** The lookup finds nothing exactly when no category offers a product of that name. */
  lemma {:induction false} PriceOfNone(inventory: seq<Entry>, name: string)
    ensures PriceOf(inventory, name).None? <==> forall i, j :: !Offers(inventory, i, j, name)
  {
    if inventory != [] {
      PriceOfNone(inventory[1..], name);
      forall i, j | 0 <= i
        ensures Offers(inventory[1..], i, j, name) <==> Offers(inventory, i + 1, j, name)
      {
      }
      if inventory[0].value.Category? {
        var products := inventory[0].value.products;
        if PriceIn(products, name).Some? {
          var j :| 0 <= j < |products| && products[j].name == name;
          assert Offers(inventory, 0, j, name);
        } else {
          forall j ensures !Offers(inventory, 0, j, name) {
          }
        }
      }
      forall i, j | Offers(inventory, i, j, name) && i > 0
        ensures Offers(inventory[1..], i - 1, j, name)
      {
      }
    }
  }

  /** Within one category, the first product with the name gives the price. */
  lemma {:induction false} PriceInFirst(products: seq<Product>, name: string, j: nat)
    requires j < |products| && products[j].name == name
    requires forall k :: 0 <= k < j ==> products[k].name != name
    ensures PriceIn(products, name) == Some(products[j].price)
  {
    if j > 0 {
      PriceInFirst(products[1..], name, j - 1);
    }
  }

  /**
   * The lookup returns the price of the first offer of `name`: the one in the
   * earliest category, and within it the earliest product.
   */
  lemma {:induction false} PriceOfFirstOffer(inventory: seq<Entry>, name: string, i: nat, j: nat)
    requires Offers(inventory, i, j, name)
    requires forall i', j' :: (i' < i || (i' == i && j' < j)) ==> !Offers(inventory, i', j', name)
    ensures PriceOf(inventory, name) == Some(inventory[i].value.products[j].price)
  {
    if i == 0 {
      var products := inventory[0].value.products;
      forall k | 0 <= k < j
        ensures products[k].name != name
      {
        assert !Offers(inventory, 0, k, name);
      }
      PriceInFirst(products, name, j);
    } else {
      if inventory[0].value.Category? {
        var products := inventory[0].value.products;
        forall k | 0 <= k < |products|
          ensures products[k].name != name
        {
          assert !Offers(inventory, 0, k, name);
        }
      }
      forall i', j' | i' < i - 1 || (i' == i - 1 && j' < j)
        ensures !Offers(inventory[1..], i', j', name)
      {
        assert !Offers(inventory, i' + 1, j', name);
      }
      PriceOfFirstOffer(inventory[1..], name, i - 1, j);
    }
  }

  /** A lookup in two inventories one after the other: the first one that knows the name wins. */
  lemma {:induction false} PriceOfConcat(a: seq<Entry>, b: seq<Entry>, name: string)
    ensures PriceOf(a + b, name) == if PriceOf(a, name).Some? then PriceOf(a, name) else PriceOf(b, name)
  {
    if a == [] {
      assert a + b == b;
    } else {
      assert (a + b)[1..] == a[1..] + b;
      PriceOfConcat(a[1..], b, name);
    }
  }

  /** A top-level value that is not a dictionary never contributes a price, whatever its key. */
  lemma OtherValuesSkipped(a: seq<Entry>, key: string, amount: int, b: seq<Entry>, name: string)
    ensures PriceOf(a + [Entry(key, Other(amount))] + b, name) == PriceOf(a + b, name)
  {
    PriceOfConcat(a + [Entry(key, Other(amount))], b, name);
    PriceOfConcat(a, [Entry(key, Other(amount))], name);
    PriceOfConcat(a, b, name);
    assert PriceOf([Entry(key, Other(amount))], name) == None;
  }

  /**
   * `calculate_total`: the sum of price times quantity over the cart, which is
   * never negative when no price or quantity is.
   */
  function CartTotal(cart: seq<CartItem>): (total: int)
    ensures (forall k :: 0 <= k < |cart| ==> cart[k].price >= 0 && cart[k].qty >= 0) ==> total >= 0
  {
    if cart == [] then 0 else cart[0].price * cart[0].qty + CartTotal(cart[1..])
  }

  /** Adding one line to the cart adds its price times its quantity to the total. */
  lemma {:induction false} CartTotalAppend(cart: seq<CartItem>, line: CartItem)
    ensures CartTotal(cart + [line]) == CartTotal(cart) + line.price * line.qty
  {
    if cart == [] {
      assert [] + [line] == [line];
    } else {
      assert (cart + [line])[1..] == cart[1..] + [line];
      CartTotalAppend(cart[1..], line);
    }
  }

  class Shop {
    /** The product table, in insertion order. */
    var inventory: seq<Entry>
    /** The cart, in the order products were added. */
    var cart: seq<CartItem>

    constructor ()
      ensures inventory == StartingInventory() && cart == []
    {
      inventory := StartingInventory();
      cart := [];
    }

    /** `get_price`: the price of the first product with this name, or `None`. */
    method GetPrice(name: string) returns (price: Option<int>)
      ensures price == PriceOf(inventory, name)
      ensures price.None? <==> forall i, j :: !Offers(inventory, i, j, name)
    {
      PriceOfNone(inventory, name);
      for i := 0 to |inventory|
        invariant PriceOf(inventory, name) == PriceOf(inventory[i..], name)
      {
        assert inventory[i..][1..] == inventory[i + 1..];
        match inventory[i].value {
          case Category(products) =>
            for j := 0 to |products|
              invariant PriceIn(products, name) == PriceIn(products[j..], name)
            {
              if products[j].name == name {
                return Some(products[j].price);
              }
              assert products[j..][1..] == products[j + 1..];
            }
            assert products[|products|..] == [];
          case Other(_) =>
        }
      }
      assert inventory[|inventory|..] == [];
      price := None;
    }

    /**
     * `add_to_cart`: a product whose price is found and non-zero goes into the
     * cart as one line with the quantity as given; otherwise the cart stays as
     * it was and the message says the product was not found.
     */
    method AddToCart(name: string, qty: int) returns (message: string)
      modifies this`cart
      ensures inventory == old(inventory)
      ensures var p := PriceOf(inventory, name);
        if p.Some? && p.value != 0 then
          cart == old(cart) + [CartItem(name, qty, p.value)] &&
          CartTotal(cart) == CartTotal(old(cart)) + p.value * qty &&
          message == "Added " + Decimal(qty) + " x " + name + " to cart."
        else
          cart == old(cart) && message == name + " not found in inventory."
    {
      var price := GetPrice(name);
      if price.Some? && price.value != 0 {
        CartTotalAppend(cart, CartItem(name, qty, price.value));
        cart := cart + [CartItem(name, qty, price.value)];
        message := "Added " + Decimal(qty) + " x " + name + " to cart.";
      } else {
        message := name + " not found in inventory.";
      }
    }
  }

  /** Prices of the starting inventory: a known product, a product of a later category, an unknown name. */
  lemma StartingPrices()
    ensures PriceOf(StartingInventory(), "Laptop") == Some(800)
    ensures PriceOf(StartingInventory(), "Jeans") == Some(40)
    ensures PriceOf(StartingInventory(), "Electronics") == None
    ensures PriceOf(StartingInventory(), "Tablet") == None
  {
  }
}
