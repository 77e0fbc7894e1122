/**
 * The desktop client (frontend.py): the application object that holds the
 * session and the shopping cart, and the decisions its screens take before
 * they send a request. Widgets, message boxes and HTTP are not modelled: a
 * selected row is an `Option`, the server's reply is a parameter, and a
 * request the client would send is returned as a value.
 */
module Client {
  import opened Api
  import opened Text

  /** A book row as the book lists show it (the values of a selected row); prices in cents. */
  datatype ListedBook = ListedBook(
    bookId: int, title: string, author: string,
    buyPrice: Option<int>, rentPrice: Option<int>, status: string)

  /** An order row as the manager's order list shows it. */
  datatype ListedOrder = ListedOrder(orderId: int, customerId: int, totalCost: int, status: string)

  /** One cart entry: `{book_id, title, price, type}`. */
  datatype CartItem = CartItem(bookId: int, title: string, price: int, kind: string)

  /** The price addcart stores: the buy price for 'buy', the rent price for any other type, 0 when absent. */
  function PriceFor(book: ListedBook, kind: string): int {
    if kind == "buy" then book.buyPrice.GetOr(0) else book.rentPrice.GetOr(0)
  }

  /** The sum of the cart's prices, as the checkout screen totals them. */
  function CartTotal(items: seq<CartItem>): int {
    if items == [] then 0 else CartTotal(items[..|items| - 1]) + items[|items| - 1].price
  }

  /** The `items` of the POST /order body, one per cart entry, in cart order. */
  function Requests(items: seq<CartItem>): (r: seq<ItemRequest>)
    ensures |r| == |items|
    ensures forall k :: 0 <= k < |items| ==>
              r[k] == ItemRequest(Some(items[k].bookId), Some(items[k].kind), Some(items[k].price))
  {
    seq(|items|, k requires 0 <= k < |items| =>
      ItemRequest(Some(items[k].bookId), Some(items[k].kind), Some(items[k].price)))
  }

  /**
   * The entries of a dictionary, listed in the given key order: one per
   * listed key, and exactly the entries stored under a listed key.
   */
  function Entries(cart: map<int, CartItem>, order: seq<int>): (items: seq<CartItem>)
    requires forall i :: 0 <= i < |order| ==> order[i] in cart
    ensures |items| == |order|
    ensures forall x :: x in items <==> exists id :: id in order && id in cart && x == cart[id]
  {
    var items := seq(|order|, i requires 0 <= i < |order| && order[i] in cart => cart[order[i]]);
    forall x ensures x in items <==> exists id :: id in order && id in cart && x == cart[id] {
      if x in items {
        var i :| 0 <= i < |items| && items[i] == x;
        assert order[i] in order;
      }
      if exists id :: id in order && id in cart && x == cart[id] {
        var id :| id in order && id in cart && x == cart[id];
        var i :| 0 <= i < |order| && order[i] == id;
        assert items[i] == x;
      }
    }
    items
  }

  /** Adding a new key at the end of the order lists its entry last. */
  lemma EntriesAppend(cart: map<int, CartItem>, order: seq<int>, id: int, item: CartItem)
    requires forall i :: 0 <= i < |order| ==> order[i] in cart && order[i] != id
    ensures Entries(cart[id := item], order + [id]) == Entries(cart, order) + [item]
  {
  }

  /**
   * The application object: the session (token, user id, name, email,
   * manager flag) and the cart, a dictionary from book id to entry whose
   * insertion order `cartOrder` records.
   */
  class BookstoreApp {
    var userToken: Option<string>
    var userId: Option<int>
    var username: Option<string>
    var userEmail: Option<string>
    var manager: Option<bool>
    var shoppingCart: map<int, CartItem>
    var cartOrder: seq<int>

    /** The cart holds each book id once, under its own id, in the order it was added. */
    ghost predicate Valid()
      reads this
    {
      && (forall i, j :: 0 <= i < j < |cartOrder| ==> cartOrder[i] != cartOrder[j])
      && (forall i :: 0 <= i < |cartOrder| ==> cartOrder[i] in shoppingCart)
      && (forall id :: id in shoppingCart ==> id in cartOrder && shoppingCart[id].bookId == id)
    }

    constructor()
      ensures Valid()
      ensures userToken == None && userId == None && username == None && userEmail == None && manager == None
      ensures shoppingCart == map[] && cartOrder == []
    {
      userToken, userId, username, userEmail, manager := None, None, None, None, None;
      shoppingCart, cartOrder := map[], [];
    }

    /** `list(self.shopping_cart.values())`: the entries in insertion order. */
    function CartItems(): (items: seq<CartItem>)
      requires Valid()
      reads this
      ensures |items| == |cartOrder|
      ensures forall i :: 0 <= i < |items| ==> items[i].bookId in shoppingCart && items[i] == shoppingCart[items[i].bookId]
      ensures forall i, j :: 0 <= i < j < |items| ==> items[i].bookId != items[j].bookId
    {
      var items := Entries(shoppingCart, cartOrder);
      assert forall i :: 0 <= i < |items| ==> items[i].bookId == cartOrder[i] by {
        forall i | 0 <= i < |items| ensures items[i].bookId == cartOrder[i] {
          assert cartOrder[i] in shoppingCart;
        }
      }
      items
    }

    /** Every entry of the dictionary is listed. */
    lemma CartItemsListAll(id: int)
      requires Valid() && id in shoppingCart
      ensures exists i :: 0 <= i < |CartItems()| && CartItems()[i].bookId == id
    {
      var i :| 0 <= i < |cartOrder| && cartOrder[i] == id;
      assert CartItems()[i].bookId == id;
    }

    /** set_auth_token: sets the token, name and email; the user id and manager flag stay. */
    method SetAuthToken(token: Option<string>, name: Option<string>, email: Option<string>)
      modifies this
      ensures userToken == token && username == name && userEmail == email
      ensures userId == old(userId) && manager == old(manager)
      ensures shoppingCart == old(shoppingCart) && cartOrder == old(cartOrder)
    {
      userToken, username, userEmail := token, name, email;
    }

    /** get_auth_token. */
    function AuthToken(): Option<string>
      reads this
    {
      userToken
    }

    /**
     * addcart: a book already in the cart is refused and nothing changes;
     * otherwise exactly one entry is added under its id, with its title, the
     * transaction type and the price for that type, after the others.
     */
    method AddCart(book: ListedBook, kind: string) returns (added: bool)
      requires Valid()
      modifies this
      ensures Valid()
      ensures added <==> book.bookId !in old(shoppingCart)
      ensures !added ==> shoppingCart == old(shoppingCart) && cartOrder == old(cartOrder)
      ensures added ==>
                && shoppingCart == old(shoppingCart)[book.bookId := CartItem(book.bookId, book.title, PriceFor(book, kind), kind)]
                && cartOrder == old(cartOrder) + [book.bookId]
                && CartItems() == old(CartItems()) + [CartItem(book.bookId, book.title, PriceFor(book, kind), kind)]
      ensures userToken == old(userToken) && userId == old(userId) && username == old(username)
      ensures userEmail == old(userEmail) && manager == old(manager)
    {
      ghost var before := CartItems();
      if book.bookId in shoppingCart {
        return false;
      }
      var price := if kind == "buy" then book.buyPrice.GetOr(0) else book.rentPrice.GetOr(0);
      var item := CartItem(book.bookId, book.title, price, kind);
      shoppingCart := shoppingCart[book.bookId := item];
      cartOrder := cartOrder + [book.bookId];
      added := true;
      EntriesAppend(old(shoppingCart), old(cartOrder), book.bookId, item);
    }

    /** clear_cart: the cart becomes empty; the session stays. */
    method ClearCart()
      requires Valid()
      modifies this
      ensures Valid() && CartItems() == []
      ensures shoppingCart == map[] && cartOrder == []
      ensures userToken == old(userToken) && userId == old(userId) && username == old(username)
      ensures userEmail == old(userEmail) && manager == old(manager)
    {
      shoppingCart, cartOrder := map[], [];
    }
  }

  /** What the search screen's buy and rent buttons lead to. */
  datatype CartOutcome = NothingSelected | NotInStock | AddedToCart | AlreadyInCart

  /**
   * CustomerSearchFrame.cart: a selected book is offered to the cart only
   * when its status, lower-cased, is exactly "in stock".
   */
  method Cart(app: BookstoreApp, selected: Option<ListedBook>, kind: string) returns (outcome: CartOutcome)
    requires app.Valid()
    modifies app
    ensures app.Valid()
    ensures outcome == NothingSelected <==> selected.None?
    ensures outcome == NotInStock <==> selected.Some? && Lower(selected.value.status) != "in stock"
    ensures outcome == AddedToCart <==>
              selected.Some? && Lower(selected.value.status) == "in stock" && selected.value.bookId !in old(app.shoppingCart)
    ensures outcome != AddedToCart ==> app.shoppingCart == old(app.shoppingCart) && app.cartOrder == old(app.cartOrder)
    ensures outcome == AddedToCart ==>
              app.CartItems() == old(app.CartItems()) +
                [CartItem(selected.value.bookId, selected.value.title, PriceFor(selected.value, kind), kind)]
    ensures app.userToken == old(app.userToken) && app.userId == old(app.userId)
    ensures app.username == old(app.username) && app.userEmail == old(app.userEmail) && app.manager == old(app.manager)
  {
    if selected.None? {
      return NothingSelected;
    }
    var book := selected.value;
    if Lower(book.status) != "in stock" {
      return NotInStock;
    }
    var added := app.AddCart(book, kind);
    outcome := if added then AddedToCart else AlreadyInCart;
  }

  /** CheckoutFrame.load_cart_items: the total the checkout screen shows. */
  method LoadCartItems(app: BookstoreApp) returns (total: int)
    requires app.Valid()
    ensures total == CartTotal(app.CartItems())
  {
    var items := app.CartItems();
    total := 0;
    var i := 0;
    while i < |items|
      invariant 0 <= i <= |items|
      invariant total == CartTotal(items[..i])
    {
      assert items[..i + 1][..i] == items[..i];
      total := total + items[i].price;
      i := i + 1;
    }
    assert items[..|items|] == items;
  }

  /**
   * CheckoutFrame.confirm_checkout. Nothing is sent for an empty cart or
   * without a token and a user id; otherwise the cart goes out as a POST
   * /order, and `status` is the reply's status code (None when the server
   * cannot be reached). The cart is cleared exactly when a request was sent
   * and the reply is 201; in every other case it is left as it was.
   */
  method ConfirmCheckout(app: BookstoreApp, status: Option<int>) returns (sent: Option<OrderPost>)
    requires app.Valid()
    modifies app
    ensures app.Valid()
    ensures sent.None? <==> old(app.cartOrder) == [] || !Filled(old(app.userToken)) || !Truthy(old(app.userId))
    ensures sent.Some? ==> sent.value == OrderPost(old(app.userToken), old(app.userId), Requests(old(app.CartItems())))
    ensures if sent.Some? && status == Some(201) then app.shoppingCart == map[] && app.cartOrder == []
            else app.shoppingCart == old(app.shoppingCart) && app.cartOrder == old(app.cartOrder)
    ensures app.userToken == old(app.userToken) && app.userId == old(app.userId)
    ensures app.username == old(app.username) && app.userEmail == old(app.userEmail) && app.manager == old(app.manager)
  {
    var items := app.CartItems();
    if items == [] {
      return None;
    }
    var token := app.AuthToken();
    var user := app.userId;
    if !Filled(token) || !Truthy(user) {
      return None;
    }
    sent := Some(OrderPost(token, user, Requests(items)));
    if status == Some(201) {
      app.ClearCart();
    }
  }

  /** CheckoutFrame.clear_and_back: the cart is emptied. */
  method ClearAndBack(app: BookstoreApp)
    requires app.Valid()
    modifies app
    ensures app.Valid() && app.CartItems() == []
    ensures app.userToken == old(app.userToken) && app.userId == old(app.userId)
    ensures app.username == old(app.username) && app.userEmail == old(app.userEmail) && app.manager == old(app.manager)
  {
    app.ClearCart();
  }

  /** The logout buttons: the token, name and email are dropped; the user id and manager flag stay. */
  method Logout(app: BookstoreApp)
    modifies app
    ensures app.userToken == None && app.username == None && app.userEmail == None
    ensures app.userId == old(app.userId) && app.manager == old(app.manager)
    ensures app.shoppingCart == old(app.shoppingCart) && app.cartOrder == old(app.cartOrder)
  {
    app.SetAuthToken(None, None, None);
  }

  /** Which login screen: the customer screen refuses managers, the manager screen everyone else. */
  datatype Screen = CustomerScreen | ManagerScreen

  predicate RoleFits(screen: Screen, manager: bool) {
    if screen == CustomerScreen then !manager else manager
  }

  /**
   * CustomerLoginFrame.login and ManagerLoginFrame.login, given the server's
   * reply to POST /login. The session is set from the reply only when the
   * login succeeded and the account's role fits the screen; otherwise no
   * session field changes. The cart is never touched.
   */
  method Login(app: BookstoreApp, screen: Screen, reply: LoginReply) returns (accepted: bool)
    modifies app
    ensures accepted <==> reply.Welcome? && RoleFits(screen, reply.manager)
    ensures accepted ==>
              && app.userToken == Some(reply.token) && app.userId == Some(reply.userId)
              && app.username == Some(reply.username) && app.userEmail == Some(reply.email)
              && app.manager == Some(reply.manager)
    ensures !accepted ==>
              && app.userToken == old(app.userToken) && app.userId == old(app.userId)
              && app.username == old(app.username) && app.userEmail == old(app.userEmail)
              && app.manager == old(app.manager)
    ensures app.shoppingCart == old(app.shoppingCart) && app.cartOrder == old(app.cartOrder)
  {
    if reply.Refused? {
      return false;
    }
    if screen == CustomerScreen && reply.manager {
      return false;
    }
    if screen == ManagerScreen && !reply.manager {
      return false;
    }
    app.SetAuthToken(Some(reply.token), Some(reply.username), Some(reply.email));
    app.userId := Some(reply.userId);
    app.manager := Some(reply.manager);
    accepted := true;
  }

  /**
   * BookListFrame.mark_returned: only a selected book whose status is
   * exactly "rented" is acted on, and only with a token; the request sets
   * that book's status to "in stock".
   */
  function MarkReturned(selected: Option<ListedBook>, token: Option<string>): Option<PutRequest> {
    if selected.None? || selected.value.status != "rented" || !Filled(token) then None
    else Some(PutRequest(BookTarget(selected.value.bookId), map["status" := Str("in stock")], token))
  }

  /**
   * OrdersFrame.mark_paid: only a selected order whose status is exactly
   * "pending" is acted on, and only with a token; the request sets that
   * order's status to "paid".
   */
  function MarkPaid(selected: Option<ListedOrder>, token: Option<string>): Option<PutRequest> {
    if selected.None? || selected.value.status != "pending" || !Filled(token) then None
    else Some(PutRequest(OrderTarget(selected.value.orderId), map["status" := Str("paid")], token))
  }
}
