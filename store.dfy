/**
 * The API server's handlers that change the tables (backend.py): POST
 * /register, PUT /book/<id>, PUT /order/<id> and POST /order. Each handler
 * is a method of `Store`, the database, and is proved to leave the tables
 * as its effect function describes; the properties of the handlers are
 * lemmas about those functions.
 */
module Handlers {
  import opened Api
  import opened Schema

  /** The tables after a request, and the reply sent back. */
  datatype Effect<R> = Effect(after: Tables, reply: R)

  // ---------------------------------------------------------------- SET clauses

  /**
   * The SET clauses that the allow-list loop of update_book and
   * update_order builds: for each allowed key, in allow-list order, that
   * the body carries, its column together with the body's value.
   */
  function Selected<C>(fields: seq<(string, C)>, data: map<string, Value>): seq<(C, Value)> {
    if fields == [] then []
    else
      var last := fields[|fields| - 1];
      Selected(fields[..|fields| - 1], data) + (if last.0 in data then [(last.1, data[last.0])] else [])
  }

  /** There are no SET clauses exactly when the body carries no allowed key. */
  lemma {:induction false} SelectedEmpty<C>(fields: seq<(string, C)>, data: map<string, Value>)
    ensures Selected(fields, data) == [] <==> forall k :: 0 <= k < |fields| ==> fields[k].0 !in data
    decreases |fields|
  {
    if fields != [] {
      var init := fields[..|fields| - 1];
      SelectedEmpty(init, data);
      assert forall k :: 0 <= k < |init| ==> init[k] == fields[k];
    }
  }

  /** A key outside the allow-list changes no clause. */
  lemma {:induction false} SelectedIgnoresOtherKeys<C>(fields: seq<(string, C)>, data: map<string, Value>, key: string, v: Value)
    requires forall k :: 0 <= k < |fields| ==> fields[k].0 != key
    ensures Selected(fields, data[key := v]) == Selected(fields, data)
    decreases |fields|
  {
    if fields != [] {
      var init := fields[..|fields| - 1];
      assert forall k :: 0 <= k < |init| ==> init[k] == fields[k];
      SelectedIgnoresOtherKeys(init, data, key, v);
    }
  }

  /** Every clause sets an allowed column to the body's value for its key. */
  lemma {:induction false} SelectedFromBody<C>(fields: seq<(string, C)>, data: map<string, Value>, i: nat)
    requires i < |Selected(fields, data)|
    ensures exists k :: 0 <= k < |fields| && fields[k].0 in data &&
                        Selected(fields, data)[i] == (fields[k].1, data[fields[k].0])
    decreases |fields|
  {
    var init := fields[..|fields| - 1];
    var last := fields[|fields| - 1];
    if i < |Selected(init, data)| {
      SelectedFromBody(init, data, i);
      var k :| 0 <= k < |init| && init[k].0 in data && Selected(init, data)[i] == (init[k].1, data[init[k].0]);
      assert fields[k] == init[k];
    } else {
      assert Selected(fields, data)[i] == (last.1, data[last.0]);
    }
  }

  /** The allow-list loop of update_book and update_order. */
  method SetClauses<C>(fields: seq<(string, C)>, data: map<string, Value>) returns (clauses: seq<(C, Value)>)
    ensures clauses == Selected(fields, data)
  {
    clauses := [];
    var i := 0;
    while i < |fields|
      invariant 0 <= i <= |fields|
      invariant clauses == Selected(fields[..i], data)
    {
      assert fields[..i + 1][..i] == fields[..i];
      var (key, column) := fields[i];
      if key in data {
        clauses := clauses + [(column, data[key])];
      }
      i := i + 1;
    }
    assert fields[..|fields|] == fields;
  }

  /** A clause assigning NULL, which every patchable column refuses (NOT NULL). */
  predicate AssignsNull<C>(clauses: seq<(C, Value)>) {
    exists i :: 0 <= i < |clauses| && clauses[i].1 == Null
  }

  // ---------------------------------------------------------------- PUT /book/<id>

  datatype BookColumn = NameColumn | AuthorColumn | BuyPriceColumn | RentPriceColumn | StatusColumn

  /** update_book's allow-list: JSON key and the Books column it sets. */
  const BookFields: seq<(string, BookColumn)> := [
    ("name", NameColumn), ("author", AuthorColumn), ("buyprice", BuyPriceColumn),
    ("rentprice", RentPriceColumn), ("status", StatusColumn)]

  function SetBookColumn(b: Book, column: BookColumn, v: Value): Book {
    match column
    case NameColumn => b.(name := v)
    case AuthorColumn => b.(author := v)
    case BuyPriceColumn => b.(buyPrice := v)
    case RentPriceColumn => b.(rentPrice := v)
    case StatusColumn => b.(status := v)
  }

  /** One row after `UPDATE Books SET <clauses>`, the clauses applied left to right. */
  function ApplyBookClauses(b: Book, clauses: seq<(BookColumn, Value)>): Book {
    if clauses == [] then b
    else
      var last := clauses[|clauses| - 1];
      SetBookColumn(ApplyBookClauses(b, clauses[..|clauses| - 1]), last.0, last.1)
  }

  /** The body's value for `key`, or the current one when the body lacks it. */
  function FieldOr(data: map<string, Value>, key: string, current: Value): Value {
    if key in data then data[key] else current
  }

  /**
   * What a manager's patch means for one book, key by key: the five
   * patchable columns take the body's values, every other column is kept.
   */
  function PatchBook(b: Book, data: map<string, Value>): Book {
    b.(name := FieldOr(data, "name", b.name),
       author := FieldOr(data, "author", b.author),
       buyPrice := FieldOr(data, "buyprice", b.buyPrice),
       rentPrice := FieldOr(data, "rentprice", b.rentPrice),
       status := FieldOr(data, "status", b.status))
  }

  /** Extending the allow-list by one field adds at most that field's clause. */
  lemma SelectedSnoc<C>(fields: seq<(string, C)>, data: map<string, Value>, k: nat)
    requires k < |fields|
    ensures Selected(fields[..k + 1], data) ==
            Selected(fields[..k], data) + (if fields[k].0 in data then [(fields[k].1, data[fields[k].0])] else [])
  {
    assert fields[..k + 1][..k] == fields[..k];
  }

  lemma ApplyBookSnoc(b: Book, clauses: seq<(BookColumn, Value)>, c: (BookColumn, Value))
    ensures ApplyBookClauses(b, clauses + [c]) == SetBookColumn(ApplyBookClauses(b, clauses), c.0, c.1)
  {
    assert (clauses + [c])[..|clauses|] == clauses;
  }

  /** The clauses of the first `k` allowed fields, applied after those before them. */
  lemma ApplyBookPrefix(b: Book, data: map<string, Value>, k: nat)
    requires k < |BookFields|
    ensures ApplyBookClauses(b, Selected(BookFields[..k + 1], data)) ==
            var field := BookFields[k];
            var prior := ApplyBookClauses(b, Selected(BookFields[..k], data));
            if field.0 in data then SetBookColumn(prior, field.1, data[field.0]) else prior
  {
    SelectedSnoc(BookFields, data, k);
    var field := BookFields[k];
    var prior := Selected(BookFields[..k], data);
    if field.0 in data {
      ApplyBookSnoc(b, prior, (field.1, data[field.0]));
    } else {
      assert prior + [] == prior;
    }
  }

  /** The UPDATE statement update_book builds does what the patch means. */
  lemma BookClausesPatch(b: Book, data: map<string, Value>)
    ensures ApplyBookClauses(b, Selected(BookFields, data)) == PatchBook(b, data)
  {
    assert BookFields[..0] == [];
    ApplyBookPrefix(b, data, 0);
    var p1 := ApplyBookClauses(b, Selected(BookFields[..1], data));
    assert p1 == b.(name := FieldOr(data, "name", b.name));
    ApplyBookPrefix(b, data, 1);
    var p2 := ApplyBookClauses(b, Selected(BookFields[..2], data));
    assert p2 == p1.(author := FieldOr(data, "author", b.author));
    ApplyBookPrefix(b, data, 2);
    var p3 := ApplyBookClauses(b, Selected(BookFields[..3], data));
    assert p3 == p2.(buyPrice := FieldOr(data, "buyprice", b.buyPrice));
    ApplyBookPrefix(b, data, 3);
    var p4 := ApplyBookClauses(b, Selected(BookFields[..4], data));
    assert p4 == p3.(rentPrice := FieldOr(data, "rentprice", b.rentPrice));
    ApplyBookPrefix(b, data, 4);
    var p5 := ApplyBookClauses(b, Selected(BookFields[..5], data));
    assert p5 == p4.(status := FieldOr(data, "status", b.status));
    assert BookFields[..5] == BookFields;
  }

  /** `UPDATE Books SET <clauses> WHERE BookID = <id>` over the whole table. */
  function PatchBooks(books: seq<Book>, bookId: int, clauses: seq<(BookColumn, Value)>): seq<Book> {
    seq(|books|, i requires 0 <= i < |books| =>
      if books[i].bookId == bookId then ApplyBookClauses(books[i], clauses) else books[i])
  }

  /**
   * PUT /book/<id> (backend.py, lines 143-191). `fault` is a database error
   * raised by the UPDATE; a NULL for a NOT NULL column of a row the UPDATE
   * matches is one too (with no matching row nothing is checked). The UPDATE
   * is committed before the row count is looked at, so 404 reports that no
   * row has the id.
   */
  function UpdateBookEffect(
    t: Tables, bookId: int, data: map<string, Value>, auth: Option<string>,
    connected: bool, fault: bool): Effect<int>
  {
    var clauses := Selected(BookFields, data);
    if !Present(auth) then Effect(t, 403)
    else if clauses == [] then Effect(t, 400)
    else if !connected then Effect(t, 500)
    else if fault || (AssignsNull(clauses) && HasBook(t.books, bookId)) then Effect(t, 500)
    else Effect(t.(books := PatchBooks(t.books, bookId, clauses)), if HasBook(t.books, bookId) then 200 else 404)
  }

  /**
   * A successful book update patches the row with that id as the body says
   * (only the allow-listed columns, each to the body's value) and changes no
   * other row, no other column and no other table.
   */
  lemma UpdateBookWritesOnlyAllowed(
    t: Tables, bookId: int, data: map<string, Value>, auth: Option<string>)
    requires UpdateBookEffect(t, bookId, data, auth, true, false).reply == 200
    ensures var after := UpdateBookEffect(t, bookId, data, auth, true, false).after;
            && |after.books| == |t.books|
            && (forall i :: 0 <= i < |t.books| ==>
                  after.books[i] == if t.books[i].bookId == bookId then PatchBook(t.books[i], data) else t.books[i])
            && after == t.(books := after.books)
  {
    forall i | 0 <= i < |t.books| && t.books[i].bookId == bookId {
      BookClausesPatch(t.books[i], data);
    }
  }

  /** 400 exactly when the body carries none of the allow-listed keys. */
  lemma UpdateBookNeedsAllowedKey(
    t: Tables, bookId: int, data: map<string, Value>, auth: Option<string>, connected: bool, fault: bool)
    requires Present(auth)
    ensures UpdateBookEffect(t, bookId, data, auth, connected, fault).reply == 400 <==>
            "name" !in data && "author" !in data && "buyprice" !in data && "rentprice" !in data && "status" !in data
  {
    SelectedEmpty(BookFields, data);
    var f := BookFields;
    assert f[0].0 == "name" && f[1].0 == "author" && f[2].0 == "buyprice" && f[3].0 == "rentprice" && f[4].0 == "status";
  }

  /** Keys outside the allow-list are ignored. */
  lemma UpdateBookIgnoresOtherKeys(
    t: Tables, bookId: int, data: map<string, Value>, auth: Option<string>, connected: bool, fault: bool,
    key: string, v: Value)
    requires key !in {"name", "author", "buyprice", "rentprice", "status"}
    ensures UpdateBookEffect(t, bookId, data[key := v], auth, connected, fault) ==
            UpdateBookEffect(t, bookId, data, auth, connected, fault)
  {
    SelectedIgnoresOtherKeys(BookFields, data, key, v);
  }

  /**
   * 404 exactly when no row has the id, and then no table changes, even for
   * a NULL value; a NULL for an existing row is a 500.
   */
  lemma UpdateBookNotFound(t: Tables, bookId: int, data: map<string, Value>, auth: Option<string>)
    requires Present(auth) && Selected(BookFields, data) != []
    ensures var e := UpdateBookEffect(t, bookId, data, auth, true, false);
            && (e.reply == 404 <==> !HasBook(t.books, bookId))
            && (e.reply == 404 ==> e.after == t)
            && (e.reply == 500 <==> HasBook(t.books, bookId) && AssignsNull(Selected(BookFields, data)))
  {
    var e := UpdateBookEffect(t, bookId, data, auth, true, false);
    if !HasBook(t.books, bookId) {
      assert forall i :: 0 <= i < |t.books| ==> t.books[i].bookId != bookId;
      assert e.after.books == t.books;
    }
  }

  /** The SET clauses of update_book touch no column outside the allow-list. */
  lemma {:induction false} ApplyBookKeepsKey(b: Book, clauses: seq<(BookColumn, Value)>)
    ensures var r := ApplyBookClauses(b, clauses);
            r.bookId == b.bookId && r.quantity == b.quantity && r.genre == b.genre && r.year == b.year
    decreases |clauses|
  {
    if clauses != [] {
      ApplyBookKeepsKey(b, clauses[..|clauses| - 1]);
    }
  }

  /** A book update keeps every BookID, so the keys stay unique. */
  lemma UpdateBookKeepsValid(
    t: Tables, bookId: int, data: map<string, Value>, auth: Option<string>, connected: bool, fault: bool)
    requires Valid(t)
    ensures Valid(UpdateBookEffect(t, bookId, data, auth, connected, fault).after)
  {
    var after := UpdateBookEffect(t, bookId, data, auth, connected, fault).after;
    forall i | 0 <= i < |t.books| ensures i < |after.books| && after.books[i].bookId == t.books[i].bookId {
      ApplyBookKeepsKey(t.books[i], Selected(BookFields, data));
    }
  }

  // ---------------------------------------------------------------- PUT /order/<id>

  datatype OrderColumn = OrderStatusColumn

  /** update_order's allow-list: only the status. */
  const OrderFields: seq<(string, OrderColumn)> := [("status", OrderStatusColumn)]

  function ApplyOrderClauses(o: Order, clauses: seq<(OrderColumn, Value)>): Order {
    if clauses == [] then o
    else ApplyOrderClauses(o, clauses[..|clauses| - 1]).(status := clauses[|clauses| - 1].1)
  }

  function PatchOrders(orders: seq<Order>, orderId: int, clauses: seq<(OrderColumn, Value)>): seq<Order> {
    seq(|orders|, i requires 0 <= i < |orders| =>
      if orders[i].orderId == orderId then ApplyOrderClauses(orders[i], clauses) else orders[i])
  }

  /** The one clause update_order can build. */
  lemma OrderClauses(data: map<string, Value>)
    ensures Selected(OrderFields, data) == if "status" in data then [(OrderStatusColumn, data["status"])] else []
  {
    assert OrderFields[..0] == [];
    SelectedSnoc(OrderFields, data, 0);
    assert OrderFields[..1] == OrderFields;
  }

  /** PUT /order/<id> (backend.py, lines 256-300), shaped like update_book. */
  function UpdateOrderEffect(
    t: Tables, orderId: int, data: map<string, Value>, auth: Option<string>,
    connected: bool, fault: bool): Effect<int>
  {
    var clauses := Selected(OrderFields, data);
    if !Present(auth) then Effect(t, 403)
    else if clauses == [] then Effect(t, 400)
    else if !connected then Effect(t, 500)
    else if fault || (AssignsNull(clauses) && HasOrder(t.orders, orderId)) then Effect(t, 500)
    else Effect(t.(orders := PatchOrders(t.orders, orderId, clauses)), if HasOrder(t.orders, orderId) then 200 else 404)
  }

  /**
   * The server sets any non-NULL status on an existing order, whatever its
   * current status: nothing enforces pending before paid. Other keys are
   * ignored, and nothing but that order's status changes.
   */
  lemma UpdateOrderSetsAnyStatus(
    t: Tables, orderId: int, data: map<string, Value>, auth: Option<string>)
    requires Present(auth) && HasOrder(t.orders, orderId)
    requires "status" in data && data["status"] != Null
    ensures var e := UpdateOrderEffect(t, orderId, data, auth, true, false);
            && e.reply == 200
            && |e.after.orders| == |t.orders|
            && (forall i :: 0 <= i < |t.orders| ==>
                  e.after.orders[i] == if t.orders[i].orderId == orderId then t.orders[i].(status := data["status"]) else t.orders[i])
            && e.after == t.(orders := e.after.orders)
  {
    OrderClauses(data);
    var clauses := Selected(OrderFields, data);
    assert clauses[..0] == [];
    forall o: Order ensures ApplyOrderClauses(o, clauses) == o.(status := data["status"]) {
      assert ApplyOrderClauses(o, clauses) == ApplyOrderClauses(o, clauses[..0]).(status := clauses[0].1);
    }
  }

  /** 400 exactly when the body has no "status"; any other key is ignored. */
  lemma UpdateOrderNeedsStatus(
    t: Tables, orderId: int, data: map<string, Value>, auth: Option<string>, connected: bool, fault: bool)
    requires Present(auth)
    ensures UpdateOrderEffect(t, orderId, data, auth, connected, fault).reply == 400 <==> "status" !in data
  {
    OrderClauses(data);
  }

  /**
   * 404 exactly when no order has the id, and then no table changes, even
   * for a NULL status; a NULL status for an existing order is a 500.
   */
  lemma UpdateOrderNotFound(t: Tables, orderId: int, data: map<string, Value>, auth: Option<string>)
    requires Present(auth) && "status" in data
    ensures var e := UpdateOrderEffect(t, orderId, data, auth, true, false);
            && (e.reply == 404 <==> !HasOrder(t.orders, orderId))
            && (e.reply == 404 ==> e.after == t)
            && (e.reply == 500 <==> HasOrder(t.orders, orderId) && data["status"] == Null)
  {
    var e := UpdateOrderEffect(t, orderId, data, auth, true, false);
    OrderClauses(data);
    if !HasOrder(t.orders, orderId) {
      assert forall i :: 0 <= i < |t.orders| ==> t.orders[i].orderId != orderId;
      assert e.after.orders == t.orders;
    }
  }

  /** The SET clause of update_order touches only the status. */
  lemma {:induction false} ApplyOrderKeepsKey(o: Order, clauses: seq<(OrderColumn, Value)>)
    ensures ApplyOrderClauses(o, clauses) == o.(status := ApplyOrderClauses(o, clauses).status)
    decreases |clauses|
  {
    if clauses != [] {
      ApplyOrderKeepsKey(o, clauses[..|clauses| - 1]);
    }
  }

  /** An order update keeps every OrderID and the counter, so the keys stay unique. */
  lemma UpdateOrderKeepsValid(
    t: Tables, orderId: int, data: map<string, Value>, auth: Option<string>, connected: bool, fault: bool)
    requires Valid(t)
    ensures Valid(UpdateOrderEffect(t, orderId, data, auth, connected, fault).after)
  {
    var after := UpdateOrderEffect(t, orderId, data, auth, connected, fault).after;
    forall i | 0 <= i < |t.orders| ensures i < |after.orders| && after.orders[i].orderId == t.orders[i].orderId {
      ApplyOrderKeepsKey(t.orders[i], Selected(OrderFields, data));
    }
  }

  // ---------------------------------------------------------------- POST /register

  /** The UNIQUE constraints on UserName and Email. */
  predicate Taken(users: seq<User>, username: string, email: string) {
    exists i :: 0 <= i < |users| && (users[i].userName == username || users[i].email == email)
  }

  /**
   * POST /register (backend.py, lines 193-225). `hash` stands for bcrypt's
   * hashing; `fault` is a database error other than a uniqueness violation.
   */
  function RegisterEffect(
    t: Tables, email: Option<string>, username: Option<string>, password: Option<string>,
    hash: string -> string, connected: bool, fault: bool): Effect<int>
  {
    if !(Filled(email) && Filled(username) && Filled(password)) then Effect(t, 400)
    else if !connected then Effect(t, 500)
    else if Taken(t.users, username.value, email.value) then Effect(t, 409)
    else if fault then Effect(t, 500)
    else
      var user := User(t.nextUserId, username.value, hash(password.value), email.value, false);
      Effect(t.(users := t.users + [user], nextUserId := t.nextUserId + 1), 201)
  }

  /**
   * Registration adds exactly one user, never a manager, with the next
   * UserID and the hashed password, and only when every field is given and
   * the name and email are free; otherwise no table changes.
   */
  lemma RegisterOutcomes(
    t: Tables, email: Option<string>, username: Option<string>, password: Option<string>,
    hash: string -> string, connected: bool, fault: bool)
    ensures var e := RegisterEffect(t, email, username, password, hash, connected, fault);
            && (e.reply == 201 <==> Filled(email) && Filled(username) && Filled(password) && connected
                                    && !Taken(t.users, username.value, email.value) && !fault)
            && (e.reply == 201 ==>
                  e.after == t.(users := t.users + [User(t.nextUserId, username.value, hash(password.value), email.value, false)],
                                nextUserId := t.nextUserId + 1))
            && (e.reply != 201 ==> e.after == t)
            && (e.reply == 400 <==> !(Filled(email) && Filled(username) && Filled(password)))
            && (e.reply == 409 <==> Filled(email) && Filled(username) && Filled(password) && connected
                                    && Taken(t.users, username.value, email.value))
  {
  }

  /** Registration keeps the tables' keys unique. */
  lemma RegisterKeepsValid(
    t: Tables, email: Option<string>, username: Option<string>, password: Option<string>,
    hash: string -> string, connected: bool, fault: bool)
    requires Valid(t)
    ensures Valid(RegisterEffect(t, email, username, password, hash, connected, fault).after)
  {
    var e := RegisterEffect(t, email, username, password, hash, connected, fault);
    if e.reply == 201 {
      var users := e.after.users;
      assert users[..|t.users|] == t.users;
      forall i, j | 0 <= i < j < |users|
        ensures users[i].userId != users[j].userId && users[i].userName != users[j].userName && users[i].email != users[j].email
      {
        if j == |t.users| {
          assert users[i] == t.users[i];
          assert !(t.users[i].userName == username.value || t.users[i].email == email.value);
        }
      }
    }
  }

  // ---------------------------------------------------------------- POST /order

  /** An item whose `book_id`, `type` and `price` keys all hold values. */
  predicate Whole(item: ItemRequest) {
    item.bookId.Some? && item.kind.Some? && item.price.Some?
  }

  predicate AllWhole(items: seq<ItemRequest>) {
    forall k :: 0 <= k < |items| ==> Whole(items[k])
  }

  /** The status a line of the given transaction gives its book, if any. */
  function NewStatus(kind: string): Option<Value> {
    if kind == "rent" then Some(Str("rented"))
    else if kind == "buy" then Some(Str("sold"))
    else None
  }

  /** The first loop of create_order: the sum of the item prices. */
  function Total(items: seq<ItemRequest>): int {
    if items == [] then 0 else Total(items[..|items| - 1]) + items[|items| - 1].price.GetOr(0)
  }

  /** The statements one item issues: its OrderItems insert, and a status update for 'rent'/'buy'. */
  function ItemStatements(item: ItemRequest): nat {
    1 + if NewStatus(item.kind.GetOr("")).Some? then 1 else 0
  }

  /** The statements the second loop issues for the items, in order. */
  function Statements(items: seq<ItemRequest>): nat {
    if items == [] then 0 else Statements(items[..|items| - 1]) + ItemStatements(items[|items| - 1])
  }

  function LineItem(orderId: int, item: ItemRequest): OrderItem {
    OrderItem(orderId, item.bookId.GetOr(0), item.kind.GetOr(""), item.price.GetOr(0))
  }

  /** The OrderItems rows the second loop inserts. */
  function LineItems(orderId: int, items: seq<ItemRequest>): seq<OrderItem> {
    if items == [] then [] else LineItems(orderId, items[..|items| - 1]) + [LineItem(orderId, items[|items| - 1])]
  }

  /** `UPDATE Books SET Status = <v> WHERE BookID = <id>`. */
  function SetStatus(books: seq<Book>, bookId: int, v: Value): seq<Book> {
    seq(|books|, i requires 0 <= i < |books| => if books[i].bookId == bookId then books[i].(status := v) else books[i])
  }

  /** The status updates of the second loop, in item order. */
  function Restatus(books: seq<Book>, items: seq<ItemRequest>): (r: seq<Book>)
    ensures |r| == |books|
  {
    if items == [] then books
    else
      var prior := Restatus(books, items[..|items| - 1]);
      var item := items[|items| - 1];
      match (item.bookId, NewStatus(item.kind.GetOr("")))
      case (Some(id), Some(v)) => SetStatus(prior, id, v)
      case _ => prior
  }

  /**
   * POST /order (backend.py, lines 346-410). `fault` is the position of a
   * statement that raises a database error (0 is the Orders insert, then
   * each item's statements in turn). Any error after validation rolls back
   * every statement, so the reply is 500 and no table changes.
   */
  function CreateOrderEffect(
    t: Tables, auth: Option<string>, userId: Option<int>, items: seq<ItemRequest>,
    connected: bool, fault: Option<nat>): Effect<OrderReply>
  {
    if !Present(auth) then Effect(t, Failed(403))
    else if !Truthy(userId) || items == [] then Effect(t, Failed(400))
    else if !connected then Effect(t, Failed(500))
    else if !AllWhole(items) || t.nextOrderId == 0 || (fault.Some? && fault.value <= Statements(items)) then
      Effect(t, Failed(500))
    else
      var orderId := t.nextOrderId;
      var total := Total(items);
      Effect(t.(orders := t.orders + [Order(orderId, userId.value, total, Str("pending"))],
                orderItems := t.orderItems + LineItems(orderId, items),
                books := Restatus(t.books, items),
                nextOrderId := orderId + 1),
             Placed(orderId, total))
  }

  /** Each line item copies its cart item, in cart order, under the new order id. */
  lemma {:induction false} LineItemsCopyItems(orderId: int, items: seq<ItemRequest>)
    requires AllWhole(items)
    ensures |LineItems(orderId, items)| == |items|
    ensures forall k :: 0 <= k < |items| ==>
              LineItems(orderId, items)[k] ==
              OrderItem(orderId, items[k].bookId.value, items[k].kind.value, items[k].price.value)
    decreases |items|
  {
    if items != [] {
      var init := items[..|items| - 1];
      assert forall k :: 0 <= k < |init| ==> init[k] == items[k];
      LineItemsCopyItems(orderId, init);
    }
  }

  /** A line with a 'rent' or 'buy' transaction for the book. */
  predicate Applies(item: ItemRequest, bookId: int) {
    item.bookId == Some(bookId) && NewStatus(item.kind.GetOr("")).Some?
  }

  /**
   * Row by row, the status updates of an order: a book with no 'rent' or
   * 'buy' line keeps its status, one with such lines takes the status of the
   * last of them ('rented' or 'sold'); no other column of any row changes.
   */
  lemma {:induction false} RestatusByLastLine(books: seq<Book>, items: seq<ItemRequest>, j: nat)
    requires j < |books|
    ensures Restatus(books, items)[j] == books[j].(status := Restatus(books, items)[j].status)
    ensures (forall k :: 0 <= k < |items| ==> !Applies(items[k], books[j].bookId)) ==>
              Restatus(books, items)[j].status == books[j].status
    ensures forall k :: 0 <= k < |items| && Applies(items[k], books[j].bookId) &&
                        (forall m :: k < m < |items| ==> !Applies(items[m], books[j].bookId)) ==>
              Restatus(books, items)[j].status == NewStatus(items[k].kind.GetOr("")).value
    decreases |items|
  {
    if items != [] {
      var init := items[..|items| - 1];
      var item := items[|items| - 1];
      assert forall k :: 0 <= k < |init| ==> init[k] == items[k];
      RestatusByLastLine(books, init, j);
    }
  }

  /** The new order: pending, owned by the user, priced at the item total, reported back. */
  lemma CreateOrderPlaced(
    t: Tables, auth: Option<string>, userId: Option<int>, items: seq<ItemRequest>,
    connected: bool, fault: Option<nat>)
    requires CreateOrderEffect(t, auth, userId, items, connected, fault).reply.Placed?
    ensures var e := CreateOrderEffect(t, auth, userId, items, connected, fault);
            && Present(auth) && Truthy(userId) && items != [] && connected && AllWhole(items)
            && e.reply == Placed(t.nextOrderId, Total(items))
            && e.after.orders == t.orders + [Order(t.nextOrderId, userId.value, Total(items), Str("pending"))]
            && e.after.orderItems[..|t.orderItems|] == t.orderItems
            && |e.after.orderItems| == |t.orderItems| + |items|
            && (forall k :: 0 <= k < |items| ==>
                  e.after.orderItems[|t.orderItems| + k] ==
                  OrderItem(t.nextOrderId, items[k].bookId.value, items[k].kind.value, items[k].price.value))
            && e.after.users == t.users
  {
    LineItemsCopyItems(t.nextOrderId, items);
  }

  /** Every failure leaves all four tables as they were (all or nothing). */
  lemma CreateOrderAllOrNothing(
    t: Tables, auth: Option<string>, userId: Option<int>, items: seq<ItemRequest>,
    connected: bool, fault: Option<nat>)
    ensures var e := CreateOrderEffect(t, auth, userId, items, connected, fault);
            && (e.reply.Failed? ==> e.after == t)
            && (e.reply.Failed? <==> !Present(auth) || !Truthy(userId) || items == [] || !connected
                                     || !AllWhole(items) || t.nextOrderId == 0
                                     || (fault.Some? && fault.value <= Statements(items)))
            && (e.reply == Failed(400) <==> Present(auth) && (!Truthy(userId) || items == []))
  {
  }

  lemma {:induction false} StatementsPrefix(items: seq<ItemRequest>, i: nat)
    requires i <= |items|
    ensures Statements(items[..i]) <= Statements(items)
    decreases |items|
  {
    if i < |items| {
      var init := items[..|items| - 1];
      assert items[..i] == init[..i];
      StatementsPrefix(init, i);
    } else {
      assert items[..i] == items;
    }
  }

  /** One more item extends the statements, line items and status updates by that item's own. */
  lemma StageStep(orderId: int, books: seq<Book>, items: seq<ItemRequest>, i: nat)
    requires i < |items|
    ensures Statements(items[..i + 1]) == Statements(items[..i]) + ItemStatements(items[i])
    ensures LineItems(orderId, items[..i + 1]) == LineItems(orderId, items[..i]) + [LineItem(orderId, items[i])]
    ensures Restatus(books, items[..i + 1]) == Restatus(Restatus(books, items[..i]), [items[i]])
  {
    assert items[..i + 1][..i] == items[..i];
  }

  /** Placing an order keeps the tables' keys unique: books keep their ids, the order id is fresh. */
  lemma CreateOrderKeepsValid(
    t: Tables, auth: Option<string>, userId: Option<int>, items: seq<ItemRequest>,
    connected: bool, fault: Option<nat>)
    requires Valid(t)
    ensures Valid(CreateOrderEffect(t, auth, userId, items, connected, fault).after)
  {
    var e := CreateOrderEffect(t, auth, userId, items, connected, fault);
    if e.reply.Placed? {
      var books := e.after.books;
      forall j | 0 <= j < |t.books| ensures j < |books| && books[j].bookId == t.books[j].bookId {
        RestatusByLastLine(t.books, items, j);
      }
      var orders := e.after.orders;
      assert forall i :: 0 <= i < |t.orders| ==> orders[i] == t.orders[i];
    }
  }

  /**
   * The first loop of create_order: the sum of the prices, or None when an
   * item has no price (the lookup raises before any statement runs).
   */
  method SumPrices(items: seq<ItemRequest>) returns (total: Option<int>)
    ensures total.Some? <==> forall k :: 0 <= k < |items| ==> items[k].price.Some?
    ensures total.Some? ==> total.value == Total(items)
  {
    var sum := 0;
    var i := 0;
    while i < |items|
      invariant 0 <= i <= |items|
      invariant sum == Total(items[..i])
      invariant forall k :: 0 <= k < i ==> items[k].price.Some?
    {
      assert items[..i + 1][..i] == items[..i];
      if items[i].price.None? {
        return None;
      }
      sum := sum + items[i].price.value;
      i := i + 1;
    }
    assert items[..|items|] == items;
    return Some(sum);
  }

  /**
   * One pass of the second loop of create_order for an item that has all
   * three keys: its OrderItems insert, then the 'rented' or 'sold' update
   * of its book. Statements are numbered from `executed`; None when the one
   * numbered `fault` is among them.
   */
  method StageItem(
    orderId: int, item: ItemRequest, fault: Option<nat>, executed: nat,
    orderItems: seq<OrderItem>, books: seq<Book>) returns (next: Option<(seq<OrderItem>, seq<Book>, nat)>)
    requires Whole(item)
    ensures next.Some? <==> !(fault.Some? && executed <= fault.value < executed + ItemStatements(item))
    ensures next.Some? ==>
              next.value == (orderItems + [LineItem(orderId, item)], Restatus(books, [item]), executed + ItemStatements(item))
  {
    var bookId, kind, price := item.bookId.value, item.kind.value, item.price.value;
    if fault == Some(executed) {
      return None;
    }
    var stagedItems := orderItems + [OrderItem(orderId, bookId, kind, price)];
    var stagedBooks := books;
    var count := executed + 1;
    if kind == "rent" {
      if fault == Some(count) {
        return None;
      }
      stagedBooks := SetStatus(stagedBooks, bookId, Str("rented"));
      count := count + 1;
    }
    if kind == "buy" {
      if fault == Some(count) {
        return None;
      }
      stagedBooks := SetStatus(stagedBooks, bookId, Str("sold"));
      count := count + 1;
    }
    assert [item][..0] == [];
    return Some((stagedItems, stagedBooks, count));
  }

  /**
   * The second loop of create_order, on staged copies of OrderItems and
   * Books: per item, its OrderItems insert and, for 'rent'/'buy', the status
   * update. Statements are numbered from 1 (0 is the Orders insert); None
   * when an item lacks a key or the statement numbered `fault` runs.
   */
  method StageItems(
    orderId: int, items: seq<ItemRequest>, fault: Option<nat>,
    orderItems: seq<OrderItem>, books: seq<Book>) returns (staged: Option<(seq<OrderItem>, seq<Book>)>)
    ensures staged.Some? <==> AllWhole(items) && !(fault.Some? && 1 <= fault.value <= Statements(items))
    ensures staged.Some? ==> staged.value == (orderItems + LineItems(orderId, items), Restatus(books, items))
  {
    var stagedItems := orderItems;
    var stagedBooks := books;
    var executed := 1;
    var i := 0;
    while i < |items|
      invariant 0 <= i <= |items|
      invariant stagedItems == orderItems + LineItems(orderId, items[..i])
      invariant stagedBooks == Restatus(books, items[..i])
      invariant executed == 1 + Statements(items[..i])
      invariant fault.None? || fault.value < 1 || fault.value >= executed
      invariant forall k :: 0 <= k < i ==> Whole(items[k])
    {
      StageStep(orderId, books, items, i);
      StatementsPrefix(items, i + 1);
      if items[i].bookId.None? || items[i].price.None? || items[i].kind.None? {
        assert !Whole(items[i]);
        return None;
      }
      var next := StageItem(orderId, items[i], fault, executed, stagedItems, stagedBooks);
      if next.None? {
        return None;
      }
      stagedItems, stagedBooks, executed := next.value.0, next.value.1, next.value.2;
      i := i + 1;
    }
    assert items[..|items|] == items;
    return Some((stagedItems, stagedBooks));
  }

  // ---------------------------------------------------------------- the database

  /** The four tables and their auto-increment counters, changed in place by the handlers. */
  class Store {
    var users: seq<User>
    var books: seq<Book>
    var orders: seq<Order>
    var orderItems: seq<OrderItem>
    var nextUserId: int
    var nextOrderId: int

    function Snapshot(): Tables
      reads this
    {
      Tables(users, books, orders, orderItems, nextUserId, nextOrderId)
    }

    ghost predicate Valid()
      reads this
    {
      Schema.Valid(Snapshot())
    }

    /** The tables as the database holds them, its keys unique. */
    constructor(t: Tables)
      requires Schema.Valid(t)
      ensures Snapshot() == t && Valid()
    {
      users, books, orders, orderItems := t.users, t.books, t.orders, t.orderItems;
      nextUserId, nextOrderId := t.nextUserId, t.nextOrderId;
    }

    method Register(
      email: Option<string>, username: Option<string>, password: Option<string>,
      hash: string -> string, connected: bool, fault: bool) returns (code: int)
      modifies this
      ensures var e := RegisterEffect(old(Snapshot()), email, username, password, hash, connected, fault);
              Snapshot() == e.after && code == e.reply
      ensures old(Valid()) ==> Valid()
    {
      ghost var before := Snapshot();
      if !(Filled(email) && Filled(username) && Filled(password)) {
        return 400;
      }
      if !connected {
        return 500;
      }
      var hashed := hash(password.value);
      if Taken(users, username.value, email.value) {
        return 409;
      }
      if fault {
        return 500;
      }
      users := users + [User(nextUserId, username.value, hashed, email.value, false)];
      nextUserId := nextUserId + 1;
      code := 201;
      if Schema.Valid(before) {
        RegisterKeepsValid(before, email, username, password, hash, connected, fault);
      }
    }

    method UpdateBook(
      bookId: int, data: map<string, Value>, auth: Option<string>,
      connected: bool, fault: bool) returns (code: int)
      modifies this
      ensures var e := UpdateBookEffect(old(Snapshot()), bookId, data, auth, connected, fault);
              Snapshot() == e.after && code == e.reply
      ensures old(Valid()) ==> Valid()
    {
      ghost var before := Snapshot();
      if Schema.Valid(before) {
        UpdateBookKeepsValid(before, bookId, data, auth, connected, fault);
      }
      if !Present(auth) {
        return 403;
      }
      var clauses := SetClauses(BookFields, data);
      if clauses == [] {
        return 400;
      }
      if !connected {
        return 500;
      }
      var found := HasBook(books, bookId);
      if fault || (AssignsNull(clauses) && found) {
        return 500;
      }
      books := PatchBooks(books, bookId, clauses);
      code := if found then 200 else 404;
    }

    method UpdateOrder(
      orderId: int, data: map<string, Value>, auth: Option<string>,
      connected: bool, fault: bool) returns (code: int)
      modifies this
      ensures var e := UpdateOrderEffect(old(Snapshot()), orderId, data, auth, connected, fault);
              Snapshot() == e.after && code == e.reply
      ensures old(Valid()) ==> Valid()
    {
      ghost var before := Snapshot();
      if Schema.Valid(before) {
        UpdateOrderKeepsValid(before, orderId, data, auth, connected, fault);
      }
      if !Present(auth) {
        return 403;
      }
      var clauses := SetClauses(OrderFields, data);
      if clauses == [] {
        return 400;
      }
      if !connected {
        return 500;
      }
      var found := HasOrder(orders, orderId);
      if fault || (AssignsNull(clauses) && found) {
        return 500;
      }
      orders := PatchOrders(orders, orderId, clauses);
      code := if found then 200 else 404;
    }

    /**
     * create_order: the statements go to staged copies of the tables, which
     * replace the tables only at the commit; an error discards them.
     */
    method CreateOrder(
      auth: Option<string>, userId: Option<int>, items: seq<ItemRequest>,
      connected: bool, fault: Option<nat>) returns (reply: OrderReply)
      modifies this
      ensures var e := CreateOrderEffect(old(Snapshot()), auth, userId, items, connected, fault);
              Snapshot() == e.after && reply == e.reply
      ensures old(Valid()) ==> Valid()
    {
      ghost var before := Snapshot();
      if !Present(auth) {
        return Failed(403);
      }
      if !Truthy(userId) || items == [] {
        return Failed(400);
      }
      if !connected {
        return Failed(500);
      }
      var total := SumPrices(items);
      if total.None? {
        return Failed(500);
      }
      if fault == Some(0) {
        return Failed(500);
      }
      var orderId := nextOrderId;
      if orderId == 0 {
        return Failed(500);
      }
      var staged := StageItems(orderId, items, fault, orderItems, books);
      if staged.None? {
        return Failed(500);
      }
      orders := orders + [Order(orderId, userId.value, total.value, Str("pending"))];
      orderItems, books := staged.value.0, staged.value.1;
      nextOrderId := orderId + 1;
      reply := Placed(orderId, total.value);
      if Schema.Valid(before) {
        CreateOrderKeepsValid(before, auth, userId, items, connected, fault);
      }
    }
  }
}
