/**
 * The four tables the API server works on (Users, Books, Orders,
 * OrderItems), as rows in insertion order, with the keys the schema
 * declares unique. Auto-increment counters give the next UserID and OrderID.
 */
module Schema {
  import opened Api

  datatype User = User(userId: int, userName: string, password: string, email: string, manager: bool)

  /**
   * A Books row. The columns a manager may patch hold whatever JSON value the
   * patch carried, so they are `Value`s; prices are in cents.
   */
  datatype Book = Book(
    bookId: int,
    name: Value,
    author: Value,
    buyPrice: Value,
    rentPrice: Value,
    status: Value,
    quantity: int,
    genre: string,
    year: int)

  datatype Order = Order(orderId: int, customerId: int, totalCost: int, status: Value)

  /** An OrderItems row: `itemId` is the BookID, `orderType` the transaction ('buy', 'rent'). */
  datatype OrderItem = OrderItem(orderId: int, itemId: int, orderType: string, price: int)

  datatype Tables = Tables(
    users: seq<User>,
    books: seq<Book>,
    orders: seq<Order>,
    orderItems: seq<OrderItem>,
    nextUserId: int,
    nextOrderId: int)

  /** UserID is an auto-increment primary key; UserName and Email are UNIQUE. */
  predicate UsersValid(users: seq<User>, nextUserId: int) {
    && nextUserId >= 1
    && (forall i :: 0 <= i < |users| ==> 1 <= users[i].userId < nextUserId)
    && (forall i, j :: 0 <= i < j < |users| ==>
          && users[i].userId != users[j].userId
          && users[i].userName != users[j].userName
          && users[i].email != users[j].email)
  }

  /** BookID is the primary key. */
  predicate BooksValid(books: seq<Book>) {
    forall i, j :: 0 <= i < j < |books| ==> books[i].bookId != books[j].bookId
  }

  /** OrderID is an auto-increment primary key. */
  predicate OrdersValid(orders: seq<Order>, nextOrderId: int) {
    && nextOrderId >= 1
    && (forall i :: 0 <= i < |orders| ==> 1 <= orders[i].orderId < nextOrderId)
    && (forall i, j :: 0 <= i < j < |orders| ==> orders[i].orderId != orders[j].orderId)
  }

  predicate Valid(t: Tables) {
    && UsersValid(t.users, t.nextUserId)
    && BooksValid(t.books)
    && OrdersValid(t.orders, t.nextOrderId)
  }

  predicate HasBook(books: seq<Book>, bookId: int) {
    exists i :: 0 <= i < |books| && books[i].bookId == bookId
  }

  predicate HasOrder(orders: seq<Order>, orderId: int) {
    exists i :: 0 <= i < |orders| && orders[i].orderId == orderId
  }
}
