/**
 * The shapes exchanged between the desktop client (frontend.py) and the API
 * server (backend.py): JSON scalars, request bodies and replies. HTTP and
 * JSON encoding themselves are not modelled; a request is a datatype value
 * and a reply a status code with its payload.
 */
module Api {

  datatype Option<T> = None | Some(value: T) {
    function GetOr(default: T): T {
      if Some? then value else default
    }
  }

  /** A JSON scalar as a handler receives it and stores it; money is in integer cents. */
  datatype Value = Str(s: string) | Num(n: int) | Null

  /**
   * The server's only authentication test: `if not auth_token`. A header
   * passes when it is present and not the empty string; its content is never
   * looked at.
   */
  predicate Present(header: Option<string>) {
    header.Some? && header.value != ""
  }

  /** Python truthiness of an optional id (`not user_id`): present and not 0. */
  predicate Truthy(id: Option<int>) {
    id.Some? && id.value != 0
  }

  /** Python truthiness of an optional string: present and not empty. */
  predicate Filled(s: Option<string>) {
    s.Some? && s.value != ""
  }

  /** One element of the `items` list of a POST /order; a key the object lacks is None. */
  datatype ItemRequest = ItemRequest(bookId: Option<int>, kind: Option<string>, price: Option<int>)

  /** The reply of POST /login: the 200 payload, or a status code with its message. */
  datatype LoginReply =
    | Welcome(token: string, userId: int, username: string, email: string, manager: bool)
    | Refused(code: int, message: string)
  {
    function Code(): int {
      if Welcome? then 200 else code
    }
  }

  /** A POST /order: the Authorization header and the JSON body's `user_id` and `items`. */
  datatype OrderPost = OrderPost(auth: Option<string>, userId: Option<int>, items: seq<ItemRequest>)

  /** The reply of POST /order: 201 with the new order's id and total, or an error code. */
  datatype OrderReply = Placed(orderId: int, totalCost: int) | Failed(code: int) {
    function Code(): int {
      if Placed? then 201 else code
    }
  }

  /** A reply carrying rows: the status code and the rows (empty unless 200). */
  datatype Rows<T> = Rows(code: int, rows: seq<T>)

  /** The resource a PUT addresses: /book/<id> or /order/<id>. */
  datatype Target = BookTarget(bookId: int) | OrderTarget(orderId: int)

  /** A PUT with its JSON body and the value of its `Authorization` header. */
  datatype PutRequest = PutRequest(target: Target, data: map<string, Value>, auth: Option<string>)
}
