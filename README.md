# Bookstore: cart, checkout and status protocol

A Dafny model of the order-placement core of a small bookstore: a Flask API
server over four MySQL tables (backend.py), a tkinter desktop client that
keeps the session and a shopping cart (frontend.py), and the script that
builds the database (dbsetup.py).

- `text.dfy` (module `Text`): the Python string operations the core relies
  on: `str.strip` with Python's whitespace set, `upper`/`lower`,
  `startswith`, `split` on one character, substring search and `str(int)`.
- `setup.dfy` (module `DbSetup`): the comprehension that cuts the SQL script
  into commands, and the loop that runs them, reporting and skipping a
  failing command and committing once at the end.
- `api.dfy` (module `Api`): the values exchanged between client and
  server: JSON scalars, request bodies, replies with their status codes.
- `schema.dfy` (module `Schema`): the Users, Books, Orders and OrderItems
  rows, the tables as sequences in insertion order, and the uniqueness of
  their keys.
- `queries.dfy` (module `Queries`): the read-only handlers: login, the book
  search, a customer's orders and an order's items.
- `store.dfy` (module `Handlers`): the handlers that change the tables:
  register, update a book, update an order, place an order. The class
  `Store` holds the tables and counters. Each handler is a method of `Store`
  that is proved to produce the state and reply that an effect function
  gives. The properties of each handler are lemmas about its effect
  function.
- `client.dfy` (module `Client`): the class `BookstoreApp` with the
  session fields and the cart, plus the checks each screen makes before it
  sends a request.
- `session.dfy` (module `Session`): client and server together. It shows
  that the checkout total the client shows is the total the server stores,
  and that the cart's lines and status changes reach the tables. It also
  shows that mark-returned and mark-paid do what their buttons say, that a
  freshly registered user can log in, and that the server's authorization
  is only a check that the header is present.

Conventions. Money is in integer cents. A database that cannot be reached
is a `connected: bool` parameter. In the handlers that change the tables, a
statement that raises a database error is a `fault` parameter: a flag, or
the index of the failing statement.
bcrypt is a pair of parameters: `hash` for registration, and `check` for
login, whose result may be `Raised`. A token is the decimal rendering of
the UserID, and the server only checks that the header is present. The
code has no signed or expiring tokens, no server-side role check and no
stock decrement; the model follows the code.

## Model

| member | source | states |
|---|---|---|
| Text.Strip | dbsetup.py:40 | `cmd.strip()` neither starts nor ends with whitespace |
| Text.StripIsInfix | dbsetup.py:40 | what strip removes is whitespace on the two sides of a contiguous piece of the input |
| Text.StripBlank | dbsetup.py:40 | the stripped piece is empty exactly when the piece is blank, which is what the comprehension's `if cmd.strip()` filters out |
| Text.Upper | dbsetup.py:40 | `upper()` keeps the length, leaves no lower-case ASCII letter, turns each one into its capital and keeps every character other than those and the dotless i and long s |
| Text.UpperIdempotent | dbsetup.py:40 | upper-casing an upper-cased command changes nothing |
| Text.UpperStartsWithUpper | dbsetup.py:40 | the character-by-character prefix test holds exactly when the upper-cased command starts with the keyword |
| Text.Lower | frontend.py:991 | `lower()` keeps the length, leaves no upper-case ASCII letter, turns each one into its small letter and keeps every character other than those and the Kelvin sign |
| Text.LowerIdempotent | frontend.py:991 | lower-casing a lower-cased status changes nothing |
| Text.Split | dbsetup.py:40 | `split(';')` gives at least one piece, and no piece contains the separator |
| Text.JoinSplit | dbsetup.py:40 | joining the pieces of `split` with the separator gives back the script |
| Text.SplitJoin | dbsetup.py:40 | splitting a join of separator-free pieces gives back those pieces |
| Text.SplitNoSeparator | dbsetup.py:40 | a string without the separator splits into itself alone |
| Text.SplitAppend | dbsetup.py:40 | splitting `a;b` gives the pieces of `a` followed by the pieces of `b` |
| Text.Decimal | backend.py:65 | `str(n)` is a non-empty string of digits without a leading zero |
| Text.DecimalRoundTrip | backend.py:65 | reading back `str(n)` gives `n` |
| Text.DecimalInjective | backend.py:65 | distinct user ids give distinct tokens |
| DbSetup.Commands | dbsetup.py:40 | the comprehension keeps no more commands than there are pieces |
| DbSetup.CommandFromPiece | dbsetup.py:40 | every command is a stripped piece of the script that is non-empty and has no excluded prefix |
| DbSetup.CommandShape | dbsetup.py:40 | a command of a script contains no `;` and neither starts nor ends with whitespace |
| DbSetup.PieceIsCommand | dbsetup.py:40 | every stripped piece that is non-empty and has no excluded prefix is a command |
| DbSetup.SqlCommands | dbsetup.py:40 | each command is non-empty, has no leading or trailing whitespace, contains no `;` and does not start, upper-cased, with DROP DATABASE, CREATE DATABASE or USE; every such stripped segment of the script is a command |
| DbSetup.StripKeepsCharacters | dbsetup.py:40 | stripping a piece brings in no `;` |
| DbSetup.CommandsAppend | dbsetup.py:40 | the comprehension distributes over concatenated piece lists |
| DbSetup.SqlCommandsAppend | dbsetup.py:40 | commands keep the script's order: the commands of `a;b` are those of `a` followed by those of `b` |
| DbSetup.SqlCommandsOnePiece | dbsetup.py:40 | a script with no `;` gives its stripped text as one command, unless it is blank or excluded |
| DbSetup.RunCommands | dbsetup.py:42-49 | each command is executed once, in order; a failing one is reported and skipped and the loop goes on; one commit follows the last command |
| DbSetup.SetupDatabase | dbsetup.py:10-62 | without a connection nothing is executed; with one, the commands of the script are run as above |
| Queries.Login | backend.py:37-78 | the login handler's replies, branch by branch; what they promise is stated by LoginOutcomes and LoginHidesUnknownNames |
| Queries.FindUser | backend.py:49-51 | the lookup by name returns a user with that name, or none when no user has it |
| Queries.LoginHidesUnknownNames | backend.py:54-63 | an unknown name and a wrong password give the identical 401 "Invalid credentials" |
| Queries.LoginOutcomes | backend.py:37-78 | login succeeds exactly when the database is reachable, the name exists and the password matches. The reply carries that user's id, name, email and manager flag. The token is the user id's digits and reads back as the id. A raising password check, like a missing database, is a 500 and not a 401 |
| Queries.GetBooks | backend.py:80-107 | GET /books: 500 without a database, else 200 with all books or the search result; stated by GetBooksLists |
| Queries.AllListings | backend.py:88-107 | without a search term every book is listed, in table order, with the six selected columns |
| Queries.Search | backend.py:96-107 | the search lists no more rows than there are books |
| Queries.SearchListsMatches | backend.py:96-101 | the search lists exactly the books whose name or author contains the term |
| Queries.GetBooksLists | backend.py:80-107 | GET /books answers 200 and lists exactly the matching books, or all books when the term is missing or empty |
| Queries.GetMyOrders | backend.py:241-254 | GET /orders/<id>: 500 without a database, else 200 with the customer's orders; stated by OrdersOfListsOwnOrders |
| Queries.OrdersOf | backend.py:248-251 | a customer's list has no more rows than the Orders table |
| Queries.OrdersOfListsOwnOrders | backend.py:241-254 | a customer's order list holds exactly the orders with that CustomerID |
| Queries.CatalogPrice | backend.py:320-324 | the CASE: the current Buyprice for 'buy', the Rentprice for 'rent', NULL otherwise; stated with the join by DetailsMembership |
| Queries.Details | backend.py:310-331 | the joined lines of one order, in OrderItems order; stated by DetailsMembership |
| Queries.GetOrderItems | backend.py:302-344 | 403 without a header, 500 without a database, 404 when no line joins, else 200 with the lines; stated by GetOrderItemsNotFound and DetailsMembership |
| Queries.JoinBooksMembership | backend.py:325-327 | the join pairs a line with exactly the books whose BookID is its ItemID |
| Queries.DetailsMembership | backend.py:310-331 | the reported lines are exactly the order's lines whose book exists, each with the book's title and, as price, the book's current Buyprice for 'buy', its Rentprice for 'rent' and NULL otherwise |
| Queries.GetOrderItemsNotFound | backend.py:333-334 | 404 exactly when no line of the order joins with a book |
| Queries.ReportedPriceFollowsCatalog | backend.py:320-324 | a line stored at 1599 cents is reported at the book's current price 999: the report does not use OrderItems.Price |
| Handlers.Selected | backend.py:159-165 | the allow-list loop's clauses, in allow-list order; stated by SelectedEmpty, SelectedFromBody, SelectedIgnoresOtherKeys and SetClauses |
| Handlers.SelectedEmpty | backend.py:162-168 | the allow-list loop builds no SET clause exactly when the body has no allowed key |
| Handlers.SelectedIgnoresOtherKeys | backend.py:162-165 | a key outside the allow-list changes no clause |
| Handlers.SelectedFromBody | backend.py:162-165 | each clause sets an allowed column to the body's value for its key |
| Handlers.SetClauses | backend.py:159-165 | the loop builds, in allow-list order, one clause per allowed key in the body |
| Handlers.BookClausesPatch | backend.py:151-180 | the UPDATE built for a book sets name, author, buy price, rent price and status to the body's values where given and keeps every other column |
| Handlers.UpdateBookEffect | backend.py:143-191 | update_book's reply and tables, branch by branch; stated by the UpdateBook lemmas below |
| Handlers.UpdateBookWritesOnlyAllowed | backend.py:143-191 | a successful book update changes only the row with that id, and only its allow-listed columns. Other rows and other tables stay as they were |
| Handlers.UpdateBookNeedsAllowedKey | backend.py:167-168 | 400 exactly when none of name, author, buyprice, rentprice, status is in the body |
| Handlers.UpdateBookIgnoresOtherKeys | backend.py:151-165 | adding a key outside the allow-list changes neither the reply nor the tables |
| Handlers.UpdateBookNotFound | backend.py:176-191 | 404 exactly when no book has the id, and then no table changes, even when the body sets a column to NULL; 500 exactly when the book exists and a value is NULL |
| Handlers.ApplyBookKeepsKey | backend.py:176-177 | the UPDATE leaves the BookID and the columns outside the allow-list as they were |
| Handlers.UpdateBookKeepsValid | backend.py:143-191 | a book update keeps every BookID, so the keys stay unique |
| Handlers.UpdateOrderEffect | backend.py:256-300 | update_order's reply and tables, branch by branch; stated by the UpdateOrder lemmas below |
| Handlers.OrderClauses | backend.py:264-266 | update_order builds a clause for "status" only |
| Handlers.UpdateOrderSetsAnyStatus | backend.py:256-300 | any non-NULL status is written to an existing order, whatever its current status. Only that order's status changes |
| Handlers.UpdateOrderNeedsStatus | backend.py:271-272 | 400 exactly when the body has no "status" |
| Handlers.UpdateOrderNotFound | backend.py:284-300 | 404 exactly when no order has the id, and then no table changes, even for a NULL status; 500 exactly when the order exists and the status is NULL |
| Handlers.ApplyOrderKeepsKey | backend.py:284-285 | the UPDATE changes only the order's status |
| Handlers.UpdateOrderKeepsValid | backend.py:256-300 | an order update keeps every OrderID and the counter, so the keys stay unique |
| Handlers.RegisterEffect | backend.py:193-225 | register's reply and tables, branch by branch; stated by RegisterOutcomes and RegisterKeepsValid |
| Handlers.RegisterOutcomes | backend.py:193-225 | 201 exactly when the three fields are filled, the database is reachable, the name and email are free and no error occurs. Exactly one user is then added, with the next UserID, the hashed password and Manager false. 400 for a missing or empty field, 409 for a taken name or email. No row changes on any failure |
| Handlers.RegisterKeepsValid | dbsetup.py:70-76 | registration keeps UserID, UserName and Email unique |
| Handlers.Total | backend.py:365-369 | the sum of the item prices; equal to the client's total by Session.CheckoutTotalMatches and computed by SumPrices |
| Handlers.CreateOrderEffect | backend.py:346-410 | create_order's reply and tables; stated by CreateOrderPlaced, CreateOrderAllOrNothing and CreateOrderKeepsValid |
| Handlers.Restatus | backend.py:388-394 | the status updates keep the number of book rows |
| Handlers.LineItemsCopyItems | backend.py:379-386 | one OrderItems row per item, in item order, with the item's book id, type and price under the new order id |
| Handlers.RestatusByLastLine | backend.py:388-394 | a book with no 'rent'/'buy' line keeps its status. A book with such lines takes 'rented' or 'sold' from the last of them. No other column changes |
| Handlers.CreateOrderPlaced | backend.py:346-397 | a placed order is a new 'pending' Orders row with the next id, the user and the item total. The reply returns that id and total, the line items are appended, and Users is untouched |
| Handlers.CreateOrderAllOrNothing | backend.py:346-410 | any failure leaves all tables as they were. The order fails exactly on a missing header, a missing user id or items, no database, an item lacking a key, or a failing statement. 400 exactly for a missing user id or empty items |
| Handlers.StatementsPrefix | backend.py:379-394 | the items before a point issue no more statements than the whole order |
| Handlers.CreateOrderKeepsValid | backend.py:371-394 | placing an order keeps every key unique: books keep their ids and the order id is fresh |
| Handlers.SumPrices | backend.py:365-369 | the first loop yields the sum of the prices, or fails exactly when an item has no price |
| Handlers.StageItem | backend.py:380-394 | one pass of the second loop appends the item's OrderItems row and gives its book the 'rent'/'buy' status of that one item; it fails exactly when one of the statements it issues is the failing one |
| Handlers.StageItems | backend.py:379-394 | the second loop on staged tables appends the line items and applies the status updates. It fails exactly when an item lacks a key or a statement raises |
| Handlers.Store.Register | backend.py:193-225 | the method leaves the tables and reply of the register effect and keeps the keys unique |
| Handlers.Store.UpdateBook | backend.py:143-191 | the method leaves the tables and reply of the update-book effect and keeps the keys unique |
| Handlers.Store.UpdateOrder | backend.py:256-300 | the method leaves the tables and reply of the update-order effect and keeps the keys unique |
| Handlers.Store.constructor | dbsetup.py:70-95 | a store opened on tables whose keys are unique holds those tables and is valid |
| Handlers.Store.CreateOrder | backend.py:346-410 | the method changes the tables only at the commit, to the place-order effect, returns its reply, and keeps the keys unique |
| Client.PriceFor | frontend.py:63-68 | the buy price for 'buy', the rent price otherwise, 0 when missing; stated through AddCart |
| Client.CartTotal | frontend.py:1046-1049 | the sum of the cart's prices; stated by LoadCartItems and Session.CheckoutTotalMatches |
| Client.Entries | frontend.py:78-79 | listing a dictionary's values in key order gives one value per listed key, and exactly the values stored under a listed key |
| Client.EntriesAppend | frontend.py:70-76 | a new key inserted last is listed last |
| Client.BookstoreApp.constructor | frontend.py:11-31 | a new application has no session and an empty cart |
| Client.BookstoreApp.CartItems | frontend.py:78-79 | the cart is listed in insertion order, one entry per book id, each entry under its own id |
| Client.BookstoreApp.CartItemsListAll | frontend.py:78-79 | every entry of the cart is listed |
| Client.BookstoreApp.SetAuthToken | frontend.py:47-50 | the token, name and email are replaced; user id, manager flag and cart stay |
| Client.BookstoreApp.AddCart | frontend.py:57-76 | a book already in the cart is refused and nothing changes. A new book is added once under its id, with its title, the type and the buy price for 'buy' or the rent price otherwise (0 when missing), listed after the others. The session is untouched |
| Client.BookstoreApp.ClearCart | frontend.py:81-82 | the cart becomes empty and the session stays |
| Client.Cart | frontend.py:985-998 | nothing happens without a selection. A book whose lower-cased status is not "in stock" is refused. Otherwise the book is added unless it is already in the cart |
| Client.LoadCartItems | frontend.py:1040-1057 | the total shown is the sum of the cart's prices |
| Client.ConfirmCheckout | frontend.py:1064-1130 | nothing is sent for an empty cart or without a token and user id. Otherwise the cart goes out as the order body. The cart is cleared exactly when the reply is 201 and is unchanged otherwise |
| Client.ClearAndBack | frontend.py:1059-1062 | the cart is emptied |
| Client.Logout | frontend.py:306-308 | the token, name and email are dropped; the user id, manager flag and cart stay |
| Client.Login | frontend.py:105-182 | the session is set from a successful reply only when its role fits the screen: the customer screen refuses managers and the manager screen refuses everyone else. Otherwise no session field changes, and the cart is never touched |
| Client.MarkReturned | frontend.py:310-337 | the request the return button sends: only for a 'rented' book and with a token; stated by Session.MarkReturnedRestocks |
| Client.MarkPaid | frontend.py:489-516 | the request the paid button sends: only for a 'pending' order and with a token; stated by Session.MarkPaidSettles |
| Session.CheckoutTotalMatches | backend.py:365-369 | the TotalCost the server computes from the order body equals the total the checkout screen shows |
| Session.CheckoutPlacesCart | frontend.py:1079-1089 | a cart checked out with a token and user id becomes one pending order at the cart total, one line per entry in cart order. Each carted book becomes 'rented' or 'sold' as its entry says |
| Session.NoNullInBookUpdate | backend.py:162-165 | a body without NULLs builds no NULL clause |
| Session.MarkReturnedRestocks | frontend.py:310-337 | mark-returned sends a request only for a 'rented' book and with a token. The server then sets that book's status to 'in stock' and changes nothing else |
| Session.MarkPaidSettles | frontend.py:489-516 | mark-paid sends a request only for a 'pending' order and with a token. The server then sets that order's status to 'paid' and changes nothing else |
| Session.FindUserAppended | backend.py:49-51 | a user added under a name nobody has is the one found by that name |
| Session.RegisterThenLogin | backend.py:210-217 | after a registration, logging in with the same name and password returns the new UserID as token and a non-manager account, which the customer screen accepts and the manager screen refuses |
| Session.AuthorizationIsPresenceOnly | backend.py:146-149 | without an Authorization header, update_book, update_order, create_order and get_orderitems answer 403 and change nothing. With one, its content makes no difference |

## Left out

- The tkinter user interface (frames, tree views, message boxes, switching screens): only the state and the decisions of the handlers are modelled.
- HTTP and JSON: requests are datatype values, replies a status code with a payload; a reply the client cannot parse is not modelled.
- MySQL connections, cursors, `creds.txt` and the connection settings: the tables are sequences of rows, and an unreachable database or a failing statement is a parameter.
- bcrypt: hashing and checking are function parameters; the check may report an exception.
- Floating point: prices and totals are integer cents; `float(...)`, the `$` stripping in addcart and the `%.2f` formatting are not modelled.
- Queries.Like: SQL `LIKE` is taken as a plain, case-sensitive substring test; collation, case folding and `%`/`_` in the search term acting as wildcards are not modelled.
- Queries.FindUser: the name comparison is exact; MySQL's default collation would also match names differing only in letter case, and Handlers.Taken is exact in the same way.
- Queries.DetailsMembership and Queries.CatalogPrice: the CASE compares OrderType with 'buy' and 'rent' exactly, whereas MySQL's default case- and accent-insensitive collation also prices a line of type 'Buy' or 'RENT'; the model reports NULL for those. The server only stores the type the client sends, and the client sends 'buy' or 'rent'.
- Queries.Login, Queries.GetBooks, Queries.GetMyOrders and Queries.GetOrderItems: a statement that raises a database error is not modelled. login and get_orderitems would answer 500 (backend.py:76-78 and 338-340); in get_books and get_myorders the exception escapes the handler.
- Handlers.UpdateBookEffect: MySQL's `rowcount` counts changed rows, so a patch that writes a book's current values is answered 404 by the server; the model answers 200 when the row exists. The same holds for Handlers.UpdateOrderEffect.
- Handlers.UpdateBookEffect: a NULL for a NOT NULL column of an existing row is a database error (500), and the same holds for Handlers.UpdateOrderEffect; other type errors MySQL raises for a value (a text for a DECIMAL price, a status over VARCHAR(10)) are the `fault` parameter rather than derived from the value, and MySQL's conversion of numbers into text columns is not modelled.
- Handlers.CreateOrderEffect: a rolled-back Orders insert gives its auto-increment id back in the model, whereas MySQL skips it; a price that is not a number (a TypeError in the total) is treated as a missing price.
- Handlers.RegisterOutcomes and Handlers.RegisterEffect: a failed Users insert (409 for a taken name or email, or the 500 of a database error) keeps `nextUserId` in the model, whereas InnoDB consumes the UserID it had allotted; later users get lower ids in the model than in the database, and no row differs otherwise.
- Text.Upper and Text.Lower: only ASCII letters change case, plus the dotless i and long s for Upper and the Kelvin sign for Lower; every other letter is left unchanged, whereas Python gives 'É' for 'é' and 'SS' for 'ß'. This matters for the dbsetup.py prefix test and the client's 'in stock' comparison only when a command or a status holds such a letter.
- The receipt file written by confirm_checkout, the writing of `bookstore.sql` and the seed data in dbsetup.py.
- DbSetup.SetupDatabase: the DROP DATABASE and CREATE DATABASE statements the setup issues before the script, and a failure of CREATE DATABASE, are not modelled.
- The nested `mark_paid` defined inside the orders screen's constructor, which is never called.
- add_book and GET /orders (the manager's list of all orders) are outside the modelled core.
- Concurrency: requests are handled one at a time.
- A request body that is not a JSON object (Flask answers with its own error) is not modelled.
