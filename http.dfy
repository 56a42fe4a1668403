/**
 * What crosses the network between the pages and the back end, reduced to the values the
 * code branches on: the status code, the body, and whether the request failed outright.
 */
module Http {
  import opened Wrappers

  const StatusOk := 200
  const StatusBadRequest := 400
  const StatusUnauthorized := 401

  /** A Spring `ResponseEntity`: a status code and an optional body. */
  datatype HttpResponse<T> = HttpResponse(status: int, body: Option<T>)

  /** `Response.ok` in the Fetch API: the status is in the range 200 to 299. */
  predicate IsOk(status: int)
  {
    200 <= status <= 299
  }

  /** How an awaited `fetch` ends for the page: a response arrives, or the promise rejects. */
  datatype Fetch<T> = Answered(status: int, body: T) | Rejected

  /** A request a page has issued, in the shape of its JSON body. */
  datatype Request =
    | PostLogin(username: string, password: string)
    | PostMessage(content: string)
    | GetMessages
}

/** Tab-scoped `sessionStorage`, shared by the login page and the board so that one can hand the flag to the other. */
module Session {
  import opened Wrappers

  /** The key both pages use for the session flag. */
  const AuthKey := "authenticated"

  /** The two pages, as `window.location.href` names them. */
  const BoardPage := "index.html"
  const LoginPage := "login.html"

  class SessionStorage {
    var items: map<string, string>

    constructor ()
      ensures items == map[]
    {
      items := map[];
    }

    method GetItem(key: string) returns (v: Option<string>)
      ensures v == Get(items, key)
    {
      v := Get(items, key);
    }

    method SetItem(key: string, value: string)
      modifies this
      ensures items == old(items)[key := value]
    {
      items := items[key := value];
    }

    method RemoveItem(key: string)
      modifies this
      ensures items == old(items) - {key}
    {
      items := items - {key};
    }
  }
}
