/**
 * The API server's read-only handlers (backend.py): /login, GET /books,
 * GET /orders/<user_id> and GET /orderitems/<order_id>. Each is a function
 * of the table contents and of the request.
 */
module Queries {
  import opened Api
  import opened Schema
  import opened Text

  // ---------------------------------------------------------------- /login

  /** Outcome of bcrypt's `check_password_hash`: a match, no match, or an exception. */
  datatype PasswordCheck = Match | NoMatch | Raised

  /**
   * `SELECT ... FROM Users WHERE UserName = %s` followed by `fetchone()`:
   * the first row with that name; a missing (NULL) name matches no row.
   */
  function FindUser(users: seq<User>, name: Option<string>): (r: Option<User>)
    ensures r.Some? ==> r.value in users && name == Some(r.value.userName)
    ensures r.None? ==> forall u :: u in users ==> name != Some(u.userName)
  {
    if users == [] then None
    else if name == Some(users[0].userName) then Some(users[0])
    else FindUser(users[1..], name)
  }

  /**
   * POST /login (backend.py, lines 37-78). `connected` says whether a
   * database connection could be opened; `check` stands for bcrypt's check
   * of the stored hash against the attempt. The token is `str(UserID)`.
   */
  function Login(
    users: seq<User>, username: Option<string>, password: Option<string>,
    connected: bool, check: (string, Option<string>) -> PasswordCheck): LoginReply
  {
    if !connected then Refused(500, "Database unavailable")
    else match FindUser(users, username)
      case None => Refused(401, "Invalid credentials")
      case Some(u) =>
        match check(u.password, password)
        case Raised => Refused(500, "Password check failed")
        case NoMatch => Refused(401, "Invalid credentials")
        case Match => Welcome(IntString(u.userId), u.userId, u.userName, u.email, u.manager)
  }

  /**
   * An unknown user name and a wrong password for a known one produce the
   * very same reply, so the reply does not reveal which names exist.
   */
  lemma LoginHidesUnknownNames(
    users: seq<User>, unknown: Option<string>, known: Option<string>,
    attempt: Option<string>, wrong: Option<string>, check: (string, Option<string>) -> PasswordCheck)
    requires FindUser(users, unknown).None?
    requires FindUser(users, known).Some? && check(FindUser(users, known).value.password, wrong) == NoMatch
    ensures Login(users, unknown, attempt, true, check) == Login(users, known, wrong, true, check)
    ensures Login(users, unknown, attempt, true, check) == Refused(401, "Invalid credentials")
  {
  }

  /**
   * The outcomes of a login: it succeeds exactly when the database is
   * reachable, the name belongs to a user and the password matches; the
   * reply then carries that user's row, and the token is the decimal
   * rendering of the UserID (reading it back gives the id). A failing
   * password check is a 500, distinct from the 401 for bad credentials.
   */
  lemma LoginOutcomes(
    users: seq<User>, username: Option<string>, password: Option<string>,
    connected: bool, check: (string, Option<string>) -> PasswordCheck)
    requires forall u :: u in users ==> u.userId >= 1
    ensures var r := Login(users, username, password, connected, check);
            var found := FindUser(users, username);
            && (r.Welcome? <==> connected && found.Some? && check(found.value.password, password) == Match)
            && (r.Welcome? ==>
                  && r.userId == found.value.userId && r.username == found.value.userName
                  && r.email == found.value.email && r.manager == found.value.manager
                  && (forall i :: 0 <= i < |r.token| ==> IsDigit(r.token[i]))
                  && DecimalValue(r.token) == found.value.userId)
            && (r.Refused? && r.code == 500 <==>
                  !connected || (found.Some? && check(found.value.password, password) == Raised))
            && (r.Refused? ==> r.code == 401 || r.code == 500)
  {
    var found := FindUser(users, username);
    if connected && found.Some? {
      DecimalRoundTrip(found.value.userId);
    }
  }

  // ---------------------------------------------------------------- GET /books

  /** The columns GET /books selects. */
  datatype BookListing = BookListing(
    bookId: int, name: Value, author: Value, buyPrice: Value, rentPrice: Value, status: Value)

  function Listing(b: Book): BookListing {
    BookListing(b.bookId, b.name, b.author, b.buyPrice, b.rentPrice, b.status)
  }

  /** `column LIKE '%q%'`, taken as a plain substring test on a text value. */
  predicate Like(v: Value, q: string) {
    v.Str? && IsInfix(q, v.s)
  }

  /** The search condition `Name LIKE %q% OR Author LIKE %q%`. */
  predicate Matches(b: Book, q: string) {
    Like(b.name, q) || Like(b.author, q)
  }

  /** Every book, listed in table order. */
  function AllListings(books: seq<Book>): (r: seq<BookListing>)
    ensures |r| == |books| && forall i :: 0 <= i < |books| ==> r[i] == Listing(books[i])
  {
    if books == [] then [] else [Listing(books[0])] + AllListings(books[1..])
  }

  /** The books that match the search term, listed in table order. */
  function Search(books: seq<Book>, q: string): (r: seq<BookListing>)
    ensures |r| <= |books|
  {
    if books == [] then []
    else if Matches(books[0], q) then [Listing(books[0])] + Search(books[1..], q)
    else Search(books[1..], q)
  }

  /** The search lists exactly the matching books. */
  lemma {:induction false} SearchListsMatches(books: seq<Book>, q: string, x: BookListing)
    ensures x in Search(books, q) <==> exists b :: b in books && Matches(b, q) && x == Listing(b)
    decreases |books|
  {
    if books != [] {
      SearchListsMatches(books[1..], q, x);
      assert forall b :: b in books <==> b == books[0] || b in books[1..];
    }
  }

  /**
   * GET /books (backend.py, lines 80-107): every book when there is no
   * search term (missing or empty), else those whose name or author contains
   * it. No authorization is asked for.
   */
  function GetBooks(books: seq<Book>, query: Option<string>, connected: bool): Rows<BookListing> {
    if !connected then Rows(500, [])
    else if !Filled(query) then Rows(200, AllListings(books))
    else Rows(200, Search(books, query.value))
  }

  /**
   * With a database, GET /books answers 200 and lists exactly the books that
   * match the term, or every book when there is no term.
   */
  lemma GetBooksLists(books: seq<Book>, query: Option<string>, x: BookListing)
    ensures GetBooks(books, query, true).code == 200
    ensures x in GetBooks(books, query, true).rows <==>
            exists b :: b in books && (!Filled(query) || Matches(b, query.value)) && x == Listing(b)
  {
    if Filled(query) {
      SearchListsMatches(books, query.value, x);
    } else {
      var all := AllListings(books);
      if x in all {
        var i :| 0 <= i < |all| && all[i] == x;
        assert books[i] in books;
      }
      forall b | b in books ensures Listing(b) in all {
        var i :| 0 <= i < |books| && books[i] == b;
        assert all[i] == Listing(b);
      }
    }
  }

  // ---------------------------------------------------------------- GET /orders/<user_id>

  /** The columns GET /orders/<user_id> selects. */
  datatype OrderSummary = OrderSummary(orderId: int, totalCost: int, status: Value)

  function Summary(o: Order): OrderSummary {
    OrderSummary(o.orderId, o.totalCost, o.status)
  }

  function OrdersOf(orders: seq<Order>, customerId: int): (r: seq<OrderSummary>)
    ensures |r| <= |orders|
  {
    if orders == [] then []
    else if orders[0].customerId == customerId then [Summary(orders[0])] + OrdersOf(orders[1..], customerId)
    else OrdersOf(orders[1..], customerId)
  }

  /** A customer's order list holds exactly the orders placed under that customer id. */
  lemma {:induction false} OrdersOfListsOwnOrders(orders: seq<Order>, customerId: int, x: OrderSummary)
    ensures x in OrdersOf(orders, customerId) <==>
            exists o :: o in orders && o.customerId == customerId && x == Summary(o)
    decreases |orders|
  {
    if orders != [] {
      OrdersOfListsOwnOrders(orders[1..], customerId, x);
      assert forall o :: o in orders <==> o == orders[0] || o in orders[1..];
    }
  }

  /** GET /orders/<user_id> (backend.py, lines 241-254); no authorization is asked for. */
  function GetMyOrders(orders: seq<Order>, userId: int, connected: bool): Rows<OrderSummary> {
    if !connected then Rows(500, []) else Rows(200, OrdersOf(orders, userId))
  }

  // ---------------------------------------------------------------- GET /orderitems/<order_id>

  /** The columns GET /orderitems/<order_id> reports for one line. */
  datatype ItemDetail = ItemDetail(bookId: int, orderType: string, title: Value, price: Value)

  /** The `CASE` of the query: the book's current buy or rent price, else NULL. */
  function CatalogPrice(orderType: string, b: Book): Value {
    if orderType == "buy" then b.buyPrice
    else if orderType == "rent" then b.rentPrice
    else Null
  }

  function Detail(item: OrderItem, b: Book): ItemDetail {
    ItemDetail(item.itemId, item.orderType, b.name, CatalogPrice(item.orderType, b))
  }

  /** The inner join of one line with the Books rows that share its id. */
  function JoinBooks(item: OrderItem, books: seq<Book>): seq<ItemDetail> {
    if books == [] then []
    else (if books[0].bookId == item.itemId then [Detail(item, books[0])] else [])
         + JoinBooks(item, books[1..])
  }

  /** `OrderItems JOIN Books ON ItemID = BookID WHERE OrderID = %s`. */
  function Details(items: seq<OrderItem>, books: seq<Book>, orderId: int): seq<ItemDetail> {
    if items == [] then []
    else (if items[0].orderId == orderId then JoinBooks(items[0], books) else [])
         + Details(items[1..], books, orderId)
  }

  lemma {:induction false} JoinBooksMembership(item: OrderItem, books: seq<Book>, x: ItemDetail)
    ensures x in JoinBooks(item, books) <==>
            exists b :: b in books && b.bookId == item.itemId && x == Detail(item, b)
    decreases |books|
  {
    if books != [] {
      JoinBooksMembership(item, books[1..], x);
      assert forall b :: b in books <==> b == books[0] || b in books[1..];
    }
  }

  /**
   * The reported lines are exactly the order's lines whose book still
   * exists, each priced at the book's current catalog price for its
   * transaction (not at the price stored with the line).
   */
  lemma {:induction false} DetailsMembership(items: seq<OrderItem>, books: seq<Book>, orderId: int, x: ItemDetail)
    ensures x in Details(items, books, orderId) <==>
            exists i, b :: i in items && b in books && i.orderId == orderId && b.bookId == i.itemId
                           && x == ItemDetail(i.itemId, i.orderType, b.name, CatalogPrice(i.orderType, b))
    decreases |items|
  {
    if items != [] {
      DetailsMembership(items[1..], books, orderId, x);
      JoinBooksMembership(items[0], books, x);
      assert forall i :: i in items <==> i == items[0] || i in items[1..];
    }
  }

  /**
   * GET /orderitems/<order_id> (backend.py, lines 302-344): 403 without an
   * Authorization header, 500 without a database, 404 when the join is
   * empty, else 200 with the lines.
   */
  function GetOrderItems(t: Tables, auth: Option<string>, orderId: int, connected: bool): Rows<ItemDetail> {
    if !Present(auth) then Rows(403, [])
    else if !connected then Rows(500, [])
    else
      var d := Details(t.orderItems, t.books, orderId);
      if d == [] then Rows(404, []) else Rows(200, d)
  }

  /** 404 exactly when no line of the order has a matching book. */
  lemma GetOrderItemsNotFound(t: Tables, auth: Option<string>, orderId: int)
    requires Present(auth)
    ensures GetOrderItems(t, auth, orderId, true).code == 404 <==>
            !exists i, b :: i in t.orderItems && b in t.books && i.orderId == orderId && b.bookId == i.itemId
  {
    var d := Details(t.orderItems, t.books, orderId);
    if d != [] {
      DetailsMembership(t.orderItems, t.books, orderId, d[0]);
    } else {
      forall i, b | i in t.orderItems && b in t.books && i.orderId == orderId && b.bookId == i.itemId
        ensures false
      {
        DetailsMembership(t.orderItems, t.books, orderId,
                          ItemDetail(i.itemId, i.orderType, b.name, CatalogPrice(i.orderType, b)));
      }
    }
  }

  /**
   * A line bought at 1599 cents is reported at 999 once a manager has set
   * the book's buy price to 999: the report follows the catalog.
   */
  lemma ReportedPriceFollowsCatalog()
    ensures var book := Book(1, Str("1984"), Str("George Orwell"), Num(999), Num(450), Str("sold"), 0, "scifi", 1984);
            var line := OrderItem(7, 1, "buy", 1599);
            var t := Tables([], [book], [], [line], 1, 8);
            GetOrderItems(t, Some("1"), 7, true) == Rows(200, [ItemDetail(1, "buy", Str("1984"), Num(999))])
  {
  }
}
