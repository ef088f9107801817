/** Checkout, order update and order deletion in the role-based shop.
    Prices are whole numbers (the system uses floating-point numbers). */
module Orders {

  import opened Wrappers
  import opened Seqs
  import opened Text
  import opened Accounts

  type OrderId = string
  type ProductId = string

  /** A product as a populated cart line shows it. */
  datatype Product = Product(id: ProductId, price: int)

  /** A cart line; the product is missing when the reference no longer
      resolves. */
  datatype CartLine = CartLine(product: Option<Product>, quantity: int)

  datatype Cart = Cart(user: UserId, lines: seq<CartLine>)

  datatype OrderLine = OrderLine(product: ProductId, quantity: int)

  /** A stored order. A missing status is the store's default. */
  datatype Order = Order(
    id: OrderId,
    user: UserId,
    lines: seq<OrderLine>,
    contact: Option<string>,
    total: int,
    address: Address,
    paymentStatus: Option<string>,
    deliveryStatus: Option<string>)

  /** The collections the order handlers touch. */
  datatype Shop = Shop(users: Users, carts: seq<Cart>, orders: seq<Order>)

  datatype Outcome = Outcome(shop: Shop, result: Result<Order>)

  predicate Populated(lines: seq<CartLine>)
  {
    forall k :: 0 <= k < |lines| ==> lines[k].product.Some?
  }

  function Amount(line: CartLine): int
    requires line.product.Some?
  {
    line.product.value.price * line.quantity
  }

  /** The sum of price × quantity over the lines. */
  function Total(lines: seq<CartLine>): int
    requires Populated(lines)
  {
    if |lines| == 0 then 0 else Total(lines[..|lines| - 1]) + Amount(lines[|lines| - 1])
  }

  /** The total of two runs of lines is the sum of their totals. */
  lemma {:induction false} TotalConcat(a: seq<CartLine>, b: seq<CartLine>)
    requires Populated(a) && Populated(b)
    ensures Populated(a + b) && Total(a + b) == Total(a) + Total(b)
    decreases |b|
  {
    if |b| > 0 {
      var b' := b[..|b| - 1];
      assert (a + b)[..|a + b| - 1] == a + b';
      TotalConcat(a, b');
    } else {
      assert a + b == a;
    }
  }

  /** With non-negative prices and quantities the total is non-negative. */
  lemma {:induction false} TotalNonNegative(lines: seq<CartLine>)
    requires Populated(lines)
    requires forall k :: 0 <= k < |lines| ==> lines[k].product.value.price >= 0 && lines[k].quantity >= 0
    ensures Total(lines) >= 0
    decreases |lines|
  {
    if |lines| > 0 {
      TotalNonNegative(lines[..|lines| - 1]);
    }
  }

  /** The running sum of the checkout loop. */
  method ComputeTotal(lines: seq<CartLine>) returns (total: int)
    requires Populated(lines)
    ensures total == Total(lines)
  {
    total := 0;
    var i := 0;
    while i < |lines|
      invariant 0 <= i <= |lines|
      invariant total == Total(lines[..i])
    {
      assert lines[..i + 1][..i] == lines[..i];
      total := total + lines[i].product.value.price * lines[i].quantity;
      i := i + 1;
    }
    assert lines[..|lines|] == lines;
  }

  /** The order lines of a cart: product id and quantity, line for line. */
  function OrderLines(lines: seq<CartLine>): (r: seq<OrderLine>)
    requires Populated(lines)
    ensures |r| == |lines|
    ensures forall k :: 0 <= k < |r| ==>
              r[k].product == lines[k].product.value.id && r[k].quantity == lines[k].quantity
  {
    seq(|lines|, k requires 0 <= k < |lines| => OrderLine(lines[k].product.value.id, lines[k].quantity))
  }

  /** The address is present with a non-empty street and city. */
  predicate AddressComplete(address: Option<Address>)
  {
    address.Some? && Truthy(address.value.street) && Truthy(address.value.city)
  }

  function CartOf(user: UserId): Cart -> bool
  {
    (c: Cart) => c.user == user
  }

  /** Cart `i` is the user's first cart, the one `findOne` returns. */
  predicate FirstCartAt(carts: seq<Cart>, user: UserId, i: int)
  {
    0 <= i < |carts| && carts[i].user == user && forall k :: 0 <= k < i ==> carts[k].user != user
  }

  /** The caller may check out: the user role, a stored account and a
      complete address. */
  predicate CanCheckOut(shop: Shop, p: Principal)
  {
    p.role == Customer && FindById(shop.users, p.id).Some? && AddressComplete(FindById(shop.users, p.id).value.address)
  }

  /** `createOrder`: only the user role may order; the account must have a
      complete address and a non-empty cart; the order copies the cart line
      for line, totals it, and the cart is deleted. A line whose product no
      longer resolves fails the request with 500. */
  function CreateOrder(shop: Shop, p: Principal, newId: OrderId): (o: Outcome)
    ensures o.result.Err? ==> o.shop == shop
    ensures p.role != Customer ==> o.result == Err(Forbidden)
    ensures p.role == Customer && !CanCheckOut(shop, p) ==> o.result == Err(BadRequest)
    ensures CanCheckOut(shop, p) && (forall k :: 0 <= k < |shop.carts| ==> shop.carts[k].user != p.id) ==>
              o.result == Err(BadRequest)
    ensures CanCheckOut(shop, p) ==>
              forall i :: FirstCartAt(shop.carts, p.id, i) ==>
                && (|shop.carts[i].lines| == 0 ==> o.result == Err(BadRequest))
                && (|shop.carts[i].lines| > 0 && !Populated(shop.carts[i].lines) ==> o.result == Err(ServerError))
                && (|shop.carts[i].lines| > 0 && Populated(shop.carts[i].lines) ==> o.result.Ok?)
    ensures o.result.Ok? ==>
              && CanCheckOut(shop, p)
              && exists i :: FirstCartAt(shop.carts, p.id, i)
                   && |shop.carts[i].lines| > 0 && Populated(shop.carts[i].lines)
                   && o.result.value == Order(newId, p.id, OrderLines(shop.carts[i].lines),
                                              FindById(shop.users, p.id).value.contact,
                                              Total(shop.carts[i].lines),
                                              FindById(shop.users, p.id).value.address.value, None, None)
                   && o.shop == Shop(shop.users, RemoveAt(shop.carts, i), shop.orders + [o.result.value])
  {
    if p.role != Customer then Outcome(shop, Err(Forbidden))
    else match FindById(shop.users, p.id)
      case None => Outcome(shop, Err(BadRequest))
      case Some(u) =>
        if !AddressComplete(u.address) then Outcome(shop, Err(BadRequest))
        else match FindFirst(shop.carts, CartOf(p.id))
          case None => Outcome(shop, Err(BadRequest))
          case Some(i) =>
            var lines := shop.carts[i].lines;
            if |lines| == 0 then Outcome(shop, Err(BadRequest))
            else if !Populated(lines) then Outcome(shop, Err(ServerError))
            else
              var order := Order(newId, p.id, OrderLines(lines), u.contact, Total(lines), u.address.value, None, None);
              Outcome(Shop(shop.users, RemoveAt(shop.carts, i), shop.orders + [order]), Ok(order))
  }

  /** When every user has at most one cart, a placed order leaves its user
      with no cart and every other cart in place. */
  lemma {:induction false} CheckoutClearsCart(shop: Shop, p: Principal, newId: OrderId)
    requires forall i, j :: 0 <= i < j < |shop.carts| ==> shop.carts[i].user != shop.carts[j].user
    requires CreateOrder(shop, p, newId).result.Ok?
    ensures var after := CreateOrder(shop, p, newId).shop;
            && (forall k :: 0 <= k < |after.carts| ==> after.carts[k].user != p.id)
            && (forall c :: c in shop.carts && c.user != p.id ==> c in after.carts)
            && |after.carts| == |shop.carts| - 1
  {
    var after := CreateOrder(shop, p, newId).shop;
    var i :| FirstCartAt(shop.carts, p.id, i) && after.carts == RemoveAt(shop.carts, i);
    RemoveOwnCart(shop.carts, i, p.id);
  }

  /** Removing a user's only cart leaves no cart of theirs and every other
      cart in place. */
  lemma {:induction false} RemoveOwnCart(carts: seq<Cart>, i: nat, user: UserId)
    requires forall a, b :: 0 <= a < b < |carts| ==> carts[a].user != carts[b].user
    requires i < |carts| && carts[i].user == user
    ensures var r := RemoveAt(carts, i);
            && (forall k :: 0 <= k < |r| ==> r[k].user != user)
            && (forall c :: c in carts && c.user != user ==> c in r)
  {
    var r := RemoveAt(carts, i);
    forall k | 0 <= k < |r|
      ensures r[k].user != user
    {
      if k >= i {
        assert r[k] == carts[k + 1];
      }
    }
    forall c | c in carts && c.user != user
      ensures c in r
    {
      var k :| 0 <= k < |carts| && carts[k] == c;
      if k < i {
        assert r[k] == c;
      } else {
        assert r[k - 1] == c;
      }
    }
  }

  // ------------------------------------------------------------ update

  /** The fields an update request may carry. */
  datatype OrderUpdate = OrderUpdate(
    products: Option<seq<OrderLine>>,
    totalAmount: Option<int>,
    address: Option<Address>,
    contact: Option<string>,
    paymentStatus: Option<string>,
    deliveryStatus: Option<string>)

  predicate IsAdminOrSuperAdmin(p: Principal)
  {
    p.role == Admin || p.role == SuperAdmin
  }

  /** The order with each of products, total, address and contact replaced
      when the new value is truthy: a list or an address always is, a total
      unless it is 0, a contact unless it is empty. */
  function Merged(o: Order, body: OrderUpdate): Order
  {
    o.(lines := if body.products.Some? then body.products.value else o.lines,
       total := if body.totalAmount.Some? && body.totalAmount.value != 0 then body.totalAmount.value else o.total,
       address := if body.address.Some? then body.address.value else o.address,
       contact := if Truthy(body.contact) then body.contact else o.contact)
  }

  function OrderHasId(id: OrderId): Order -> bool
  {
    (o: Order) => o.id == id
  }

  /** `updateOrder`. A malformed id fails the lookup with 500. */
  function UpdateOrder(shop: Shop, p: Principal, id: OrderId, body: OrderUpdate): (o: Outcome)
    ensures o.result.Err? ==> o.shop == shop
    ensures o.result.Err? ==> o.result.failure in {ServerError, NotFound, Forbidden}
    ensures o.result == Err(ServerError) <==> !ValidObjectId(id)
    ensures o.result == Err(NotFound) <==> ValidObjectId(id) && forall k :: 0 <= k < |shop.orders| ==> shop.orders[k].id != id
    ensures o.result == Err(Forbidden) <==>
              ValidObjectId(id) && (exists k :: 0 <= k < |shop.orders| && shop.orders[k].id == id)
              && !IsAdminOrSuperAdmin(p) && (Truthy(body.paymentStatus) || Truthy(body.deliveryStatus))
    ensures o.result.Ok? ==>
              exists i :: 0 <= i < |shop.orders| && shop.orders[i].id == id
                && (forall k :: 0 <= k < i ==> shop.orders[k].id != id)
                && o.shop == shop.(orders := shop.orders[i := o.result.value])
                && o.result.value.id == id && o.result.value.user == shop.orders[i].user
  {
    if !ValidObjectId(id) then Outcome(shop, Err(ServerError))
    else match FindFirst(shop.orders, OrderHasId(id))
      case None => Outcome(shop, Err(NotFound))
      case Some(i) =>
        var order := Merged(shop.orders[i], body);
        if IsAdminOrSuperAdmin(p) then
          var order' := order.(
            paymentStatus := if Truthy(body.paymentStatus) then body.paymentStatus else order.paymentStatus,
            deliveryStatus := if Truthy(body.deliveryStatus) then body.deliveryStatus else order.deliveryStatus);
          Outcome(shop.(orders := shop.orders[i := order']), Ok(order'))
        else if Truthy(body.paymentStatus) || Truthy(body.deliveryStatus) then Outcome(shop, Err(Forbidden))
        else Outcome(shop.(orders := shop.orders[i := order]), Ok(order))
  }

  /** An update of an existing order succeeds unless a caller who is not an
      admin or superadmin sends a truthy status. What it writes: each truthy
      field replaces the old value and each falsy one keeps it; the statuses
      change only for an admin or superadmin, and then to every truthy value
      sent. */
  lemma {:induction false} UpdateFallbacks(shop: Shop, p: Principal, id: OrderId, body: OrderUpdate, i: nat)
    requires ValidObjectId(id) && i < |shop.orders| && shop.orders[i].id == id
    requires forall k :: 0 <= k < i ==> shop.orders[k].id != id
    requires IsAdminOrSuperAdmin(p) || (!Truthy(body.paymentStatus) && !Truthy(body.deliveryStatus))
    ensures UpdateOrder(shop, p, id, body).result.Ok?
    ensures var old_ := shop.orders[i];
            var new_ := UpdateOrder(shop, p, id, body).result.value;
            && new_.id == old_.id && new_.user == old_.user
            && (body.products.None? ==> new_.lines == old_.lines)
            && (body.products.Some? ==> new_.lines == body.products.value)
            && (body.totalAmount.None? || body.totalAmount.value == 0 ==> new_.total == old_.total)
            && (body.totalAmount.Some? && body.totalAmount.value != 0 ==> new_.total == body.totalAmount.value)
            && (!Truthy(body.contact) ==> new_.contact == old_.contact)
            && (Truthy(body.contact) ==> new_.contact == body.contact)
            && (body.address.None? ==> new_.address == old_.address)
            && (body.address.Some? ==> new_.address == body.address.value)
            && (IsAdminOrSuperAdmin(p) && Truthy(body.paymentStatus) ==> new_.paymentStatus == body.paymentStatus)
            && (IsAdminOrSuperAdmin(p) && Truthy(body.deliveryStatus) ==> new_.deliveryStatus == body.deliveryStatus)
            && (!IsAdminOrSuperAdmin(p) ==> new_.paymentStatus == old_.paymentStatus && new_.deliveryStatus == old_.deliveryStatus)
            && (new_.paymentStatus != old_.paymentStatus ==> IsAdminOrSuperAdmin(p) && new_.paymentStatus == body.paymentStatus && Truthy(body.paymentStatus))
            && (new_.deliveryStatus != old_.deliveryStatus ==> IsAdminOrSuperAdmin(p) && new_.deliveryStatus == body.deliveryStatus && Truthy(body.deliveryStatus))
  {
    assert FindFirst(shop.orders, OrderHasId(id)) == Some(i);
  }

  /** The update never compares the order's owner with the caller: two
      callers with the same role get the same outcome on any order. */
  lemma {:induction false} UpdateIgnoresOwnership(shop: Shop, a: UserId, b: UserId, role: string, id: OrderId, body: OrderUpdate)
    ensures UpdateOrder(shop, Principal(a, role), id, body) == UpdateOrder(shop, Principal(b, role), id, body)
  {
  }

  // ------------------------------------------------------------ delete

  /** `deleteOrder`: 404 for a missing order, 403 unless the caller owns it.
      A malformed id fails the lookup with 500. */
  function DeleteOrder(shop: Shop, p: Principal, id: OrderId): (o: Outcome)
    ensures o.result.Err? ==> o.shop == shop
    ensures o.result.Err? ==> o.result.failure in {ServerError, NotFound, Forbidden}
    ensures o.result == Err(ServerError) <==> !ValidObjectId(id)
    ensures o.result == Err(NotFound) <==> ValidObjectId(id) && forall k :: 0 <= k < |shop.orders| ==> shop.orders[k].id != id
    ensures o.result.Ok? ==>
              exists i :: 0 <= i < |shop.orders| && shop.orders[i].id == id
                && (forall k :: 0 <= k < i ==> shop.orders[k].id != id)
                && shop.orders[i].user == p.id
                && o.result.value == shop.orders[i]
                && o.shop == shop.(orders := RemoveAt(shop.orders, i))
    ensures o.result == Err(Forbidden) <==>
              exists i :: 0 <= i < |shop.orders| && shop.orders[i].id == id && ValidObjectId(id)
                && (forall k :: 0 <= k < i ==> shop.orders[k].id != id)
                && shop.orders[i].user != p.id
  {
    if !ValidObjectId(id) then Outcome(shop, Err(ServerError))
    else match FindFirst(shop.orders, OrderHasId(id))
      case None => Outcome(shop, Err(NotFound))
      case Some(i) =>
        if shop.orders[i].user != p.id then Outcome(shop, Err(Forbidden))
        else Outcome(shop.(orders := RemoveAt(shop.orders, i)), Ok(shop.orders[i]))
  }

  /** A caller's deletes only ever remove the caller's own orders: every
      order of another user survives, in order. */
  lemma {:induction false} DeleteSparesOthers(shop: Shop, p: Principal, id: OrderId)
    ensures var after := DeleteOrder(shop, p, id).shop;
            IsSubseq(Filter(shop.orders, (o: Order) => o.user != p.id), Filter(after.orders, (o: Order) => o.user != p.id))
  {
    var notMine := (o: Order) => o.user != p.id;
    var out := DeleteOrder(shop, p, id);
    if out.result.Ok? {
      var i :| 0 <= i < |shop.orders| && shop.orders[i].user == p.id && out.shop.orders == RemoveAt(shop.orders, i);
      FilterRemoveAt(shop.orders, i, notMine);
    }
    SubseqRefl(Filter(out.shop.orders, notMine));
  }
}
