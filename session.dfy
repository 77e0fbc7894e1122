/**
 * Client and server together: the requests the client's screens build,
 * handled by the server's handlers. What the client shows and sends agrees
 * with what the server stores.
 */
module Session {
  import opened Api
  import opened Schema
  import opened Text
  import opened Queries
  import opened Handlers
  import opened Client

  /** The total the checkout screen shows is the TotalCost the server computes. */
  lemma {:induction false} CheckoutTotalMatches(items: seq<CartItem>)
    ensures Handlers.Total(Requests(items)) == CartTotal(items)
    decreases |items|
  {
    if items != [] {
      var init := items[..|items| - 1];
      assert Requests(items)[..|items| - 1] == Requests(init);
      CheckoutTotalMatches(init);
    }
  }

  /**
   * A checkout the server accepts: the cart becomes one pending order at the
   * total the client showed, with one line per cart entry in cart order, and
   * each carted book's status becomes 'rented' or 'sold' as its entry says
   * (cart entries have distinct book ids, so no later line overrides it).
   */
  lemma CheckoutPlacesCart(t: Tables, token: Option<string>, userId: Option<int>, items: seq<CartItem>)
    requires Filled(token) && Truthy(userId) && items != [] && t.nextOrderId != 0
    requires forall i, j :: 0 <= i < j < |items| ==> items[i].bookId != items[j].bookId
    ensures var e := CreateOrderEffect(t, token, userId, Requests(items), true, None);
            && e.reply == Placed(t.nextOrderId, CartTotal(items))
            && e.after.orders == t.orders + [Order(t.nextOrderId, userId.value, CartTotal(items), Str("pending"))]
            && |e.after.orderItems| == |t.orderItems| + |items|
            && (forall k :: 0 <= k < |items| ==>
                  e.after.orderItems[|t.orderItems| + k] ==
                  OrderItem(t.nextOrderId, items[k].bookId, items[k].kind, items[k].price))
            && |e.after.books| == |t.books|
            && (forall j, k :: 0 <= j < |t.books| && 0 <= k < |items| &&
                               t.books[j].bookId == items[k].bookId && NewStatus(items[k].kind).Some? ==>
                  e.after.books[j] == t.books[j].(status := NewStatus(items[k].kind).value))
  {
    var reqs := Requests(items);
    CheckoutTotalMatches(items);
    assert AllWhole(reqs);
    CreateOrderPlaced(t, token, userId, reqs, true, None);
    forall j, k | 0 <= j < |t.books| && 0 <= k < |items| &&
                  t.books[j].bookId == items[k].bookId && NewStatus(items[k].kind).Some?
      ensures Restatus(t.books, reqs)[j] == t.books[j].(status := NewStatus(items[k].kind).value)
    {
      RestatusByLastLine(t.books, reqs, j);
      assert Applies(reqs[k], t.books[j].bookId);
    }
  }

  /** A body without NULLs gives no NULL clause. */
  lemma NoNullInBookUpdate(data: map<string, Value>)
    requires forall k :: k in data ==> data[k] != Null
    ensures !AssignsNull(Selected(BookFields, data))
  {
    forall i | 0 <= i < |Selected(BookFields, data)| ensures Selected(BookFields, data)[i].1 != Null {
      SelectedFromBody(BookFields, data, i);
    }
  }

  /**
   * Marking a rented book returned: the client acts only on a 'rented' row
   * with a token, and the server then sets that book's status to 'in stock',
   * changing nothing else.
   */
  lemma MarkReturnedRestocks(t: Tables, selected: Option<ListedBook>, token: Option<string>)
    requires MarkReturned(selected, token).Some?
    requires HasBook(t.books, selected.value.bookId)
    ensures selected.value.status == "rented" && Filled(token)
    ensures var r := MarkReturned(selected, token).value;
            var e := UpdateBookEffect(t, selected.value.bookId, r.data, r.auth, true, false);
            && e.reply == 200
            && |e.after.books| == |t.books|
            && (forall i :: 0 <= i < |t.books| ==>
                  e.after.books[i] == if t.books[i].bookId == selected.value.bookId
                                      then t.books[i].(status := Str("in stock")) else t.books[i])
            && e.after == t.(books := e.after.books)
  {
    var r := MarkReturned(selected, token).value;
    var id := selected.value.bookId;
    UpdateBookNeedsAllowedKey(t, id, r.data, r.auth, true, false);
    NoNullInBookUpdate(r.data);
    UpdateBookNotFound(t, id, r.data, r.auth);
    UpdateBookWritesOnlyAllowed(t, id, r.data, r.auth);
  }

  /**
   * Marking a pending order paid: the client acts only on a 'pending' row
   * with a token, and the server then sets that order's status to 'paid',
   * changing nothing else.
   */
  lemma MarkPaidSettles(t: Tables, selected: Option<ListedOrder>, token: Option<string>)
    requires MarkPaid(selected, token).Some?
    requires HasOrder(t.orders, selected.value.orderId)
    ensures selected.value.status == "pending" && Filled(token)
    ensures var r := MarkPaid(selected, token).value;
            var e := UpdateOrderEffect(t, selected.value.orderId, r.data, r.auth, true, false);
            && e.reply == 200
            && |e.after.orders| == |t.orders|
            && (forall i :: 0 <= i < |t.orders| ==>
                  e.after.orders[i] == if t.orders[i].orderId == selected.value.orderId
                                       then t.orders[i].(status := Str("paid")) else t.orders[i])
            && e.after == t.(orders := e.after.orders)
  {
    var r := MarkPaid(selected, token).value;
    UpdateOrderSetsAnyStatus(t, selected.value.orderId, r.data, r.auth);
  }

  /** A user appended under a name nobody has is the one found by that name. */
  lemma {:induction false} FindUserAppended(users: seq<User>, u: User)
    requires forall i :: 0 <= i < |users| ==> users[i].userName != u.userName
    ensures FindUser(users + [u], Some(u.userName)) == Some(u)
    decreases |users|
  {
    if users != [] {
      assert (users + [u])[1..] == users[1..] + [u];
      FindUserAppended(users[1..], u);
    } else {
      assert (users + [u])[1..] == [];
    }
  }

  /**
   * A new account can log in: after a successful registration, logging in
   * with the same name and a password the hash check accepts returns the new
   * UserID as token and a non-manager account, which the customer login
   * screen accepts.
   */
  lemma RegisterThenLogin(
    t: Tables, email: string, username: string, password: string,
    hash: string -> string, check: (string, Option<string>) -> PasswordCheck)
    requires RegisterEffect(t, Some(email), Some(username), Some(password), hash, true, false).reply == 201
    requires check(hash(password), Some(password)) == Match
    ensures var after := RegisterEffect(t, Some(email), Some(username), Some(password), hash, true, false).after;
            var reply := Queries.Login(after.users, Some(username), Some(password), true, check);
            && reply == Welcome(IntString(t.nextUserId), t.nextUserId, username, email, false)
            && RoleFits(CustomerScreen, reply.manager) && !RoleFits(ManagerScreen, reply.manager)
  {
    var u := User(t.nextUserId, username, hash(password), email, false);
    forall i | 0 <= i < |t.users| ensures t.users[i].userName != username {
      assert !(t.users[i].userName == username || t.users[i].email == email);
    }
    FindUserAppended(t.users, u);
  }

  /**
   * The server's only authentication is the presence of the Authorization
   * header: without it every protected handler answers 403 and changes
   * nothing; with it, what the header says makes no difference.
   */
  lemma AuthorizationIsPresenceOnly(
    t: Tables, a: Option<string>, b: Option<string>, id: int, data: map<string, Value>,
    userId: Option<int>, items: seq<ItemRequest>, connected: bool, fault: bool, at: Option<nat>)
    ensures !Present(a) ==>
              && UpdateBookEffect(t, id, data, a, connected, fault) == Effect(t, 403)
              && UpdateOrderEffect(t, id, data, a, connected, fault) == Effect(t, 403)
              && CreateOrderEffect(t, a, userId, items, connected, at) == Effect(t, Failed(403))
              && GetOrderItems(t, a, id, connected) == Rows(403, [])
    ensures Present(a) && Present(b) ==>
              && UpdateBookEffect(t, id, data, a, connected, fault) == UpdateBookEffect(t, id, data, b, connected, fault)
              && UpdateOrderEffect(t, id, data, a, connected, fault) == UpdateOrderEffect(t, id, data, b, connected, fault)
              && CreateOrderEffect(t, a, userId, items, connected, at) == CreateOrderEffect(t, b, userId, items, connected, at)
              && GetOrderItems(t, a, id, connected) == GetOrderItems(t, b, id, connected)
  {
  }
}
