/** The cart list page: the carts it loads, the flat table of items it
    shows, and which rows the signed-in user may change. */
module CartView {

  import opened Wrappers

  /** The populated user of a cart, any field of which may be missing. */
  datatype CartUser = CartUser(id: Option<string>, name: Option<string>)

  /** One item of a cart as the API returns it. */
  datatype Item = Item(productId: Option<string>, quantity: int)

  /** A cart; its user and its product list may be missing. */
  datatype Cart = Cart(user: Option<CartUser>, products: Option<seq<Item>>)

  /** A table row: the item tagged with its cart's user. */
  datatype Row = Row(item: Item, userName: string, userId: string)

  /** The answer to the cart request: all carts for an admin, the caller's
      cart otherwise. */
  datatype CartsResponse = CartsResponse(carts: Option<seq<Option<Cart>>>, cart: Option<Cart>)

  /** `fetchCarts`: an admin gets every cart (none when the field is
      missing); anyone else gets a one-cart list, or an empty one. */
  function LoadCarts(isAdmin: bool, res: CartsResponse): (r: seq<Option<Cart>>)
    ensures isAdmin ==> r == res.carts.GetOr([])
    ensures !isAdmin ==> |r| <= 1 && (|r| == 1 <==> res.cart.Some?)
    ensures !isAdmin && res.cart.Some? ==> r == [res.cart]
  {
    if isAdmin then res.carts.GetOr([])
    else if res.cart.Some? then [res.cart] else []
  }

  /** `cart.user?.name || "Unknown"`. */
  function UserName(c: Cart): (s: string)
    ensures s != ""
  {
    if c.user.Some? && Truthy(c.user.value.name) then c.user.value.name.value else "Unknown"
  }

  /** `cart.user?._id || ""`. */
  function UserId(c: Cart): string
  {
    if c.user.Some? && Truthy(c.user.value.id) then c.user.value.id.value else ""
  }

  /** The items of one cart (none when the cart or its list is missing). */
  function Items(c: Option<Cart>): seq<Item>
  {
    if c.Some? && c.value.products.Some? then c.value.products.value else []
  }

  function Rows(c: Option<Cart>): (r: seq<Row>)
    ensures |r| == |Items(c)|
    ensures forall j :: 0 <= j < |r| ==> r[j] == Row(Items(c)[j], UserName(c.value), UserId(c.value))
  {
    var items := Items(c);
    seq(|items|, j requires 0 <= j < |items| => Row(items[j], UserName(c.value), UserId(c.value)))
  }

  /** `carts.flatMap(...)`: every cart's rows, cart after cart. */
  function AllProducts(carts: seq<Option<Cart>>): seq<Row>
  {
    if |carts| == 0 then [] else Rows(carts[0]) + AllProducts(carts[1..])
  }

  /** The number of items over the carts. */
  function ItemCount(carts: seq<Option<Cart>>): nat
  {
    if |carts| == 0 then 0 else |Items(carts[0])| + ItemCount(carts[1..])
  }

  /** The table has one row per item of every cart; carts without items
      add none. */
  lemma {:induction false} AllProductsLength(carts: seq<Option<Cart>>)
    ensures |AllProducts(carts)| == ItemCount(carts)
    decreases |carts|
  {
    if |carts| > 0 {
      AllProductsLength(carts[1..]);
    }
  }

  /** Flattening two runs of carts is flattening each and concatenating. */
  lemma {:induction false} AllProductsConcat(a: seq<Option<Cart>>, b: seq<Option<Cart>>)
    ensures AllProducts(a + b) == AllProducts(a) + AllProducts(b)
    decreases |a|
  {
    if |a| == 0 {
      assert a + b == b;
    } else {
      assert (a + b)[1..] == a[1..] + b;
      AllProductsConcat(a[1..], b);
    }
  }

  /** Item `j` of cart `i` is the row right after the items of the carts
      before it, tagged with cart `i`'s user. */
  lemma {:induction false} AllProductsIndex(carts: seq<Option<Cart>>, i: nat, j: nat)
    requires i < |carts| && j < |Items(carts[i])|
    ensures ItemCount(carts[..i]) + j < |AllProducts(carts)|
    ensures AllProducts(carts)[ItemCount(carts[..i]) + j] ==
              Row(Items(carts[i])[j], UserName(carts[i].value), UserId(carts[i].value))
  {
    var pre, post := carts[..i], carts[i..];
    var all, front, rows, back := AllProducts(carts), AllProducts(pre), Rows(carts[i]), AllProducts(post[1..]);
    assert all == front + (rows + back) by {
      assert carts == pre + post;
      AllProductsConcat(pre, post);
      assert post[0] == carts[i];
    }
    assert |front| == ItemCount(pre) by { AllProductsLength(pre); }
    ConcatIndex(front, rows, back, j);
  }

  lemma {:induction false} ConcatIndex<T>(front: seq<T>, rows: seq<T>, back: seq<T>, j: nat)
    requires j < |rows|
    ensures |front| + j < |front + (rows + back)| && (front + (rows + back))[|front| + j] == rows[j]
  {
  }

  /** `item.userId === user.id`: the row's quantity box and remove button
      are enabled. */
  predicate Editable(row: Row, me: string)
  {
    row.userId == me
  }

  /** A signed-in user may change exactly the rows of carts that name them as
      their user; rows of carts with no user id are locked for everyone with
      an id. */
  lemma {:induction false} OwnRowsOnly(carts: seq<Option<Cart>>, i: nat, j: nat, me: string)
    requires me != ""
    requires i < |carts| && j < |Items(carts[i])|
    ensures ItemCount(carts[..i]) + j < |AllProducts(carts)|
    ensures var c := carts[i].value;
            Editable(AllProducts(carts)[ItemCount(carts[..i]) + j], me) <==>
              c.user.Some? && c.user.value.id == Some(me)
  {
    AllProductsIndex(carts, i, j);
  }

  /** The quantity box's value as a number; a value that does not parse is
      not a number. */
  datatype NumberInput = Number(value: int) | NotANumber

  /** `handleQuantityChange`: below 1 sends nothing; anything else is sent
      as typed. A value that is not a number passes the guard, since no
      comparison with it holds. */
  function QuantityChange(input: NumberInput): (r: Option<NumberInput>)
    ensures r.None? <==> input.Number? && input.value < 1
    ensures r.Some? ==> r.value == input
    ensures r.Some? && r.value.Number? ==> r.value.value >= 1
  {
    if input.Number? && input.value < 1 then None else Some(input)
  }
}
