/**
  Request handling: route matching, the translation of store outcomes into
  status codes and bodies, and the order in which routes and the authorization
  gate see a request.

  As registered, every route comes before the logging and authorization
  middleware. A route that matches answers the request itself, so the gate only
  ever sees requests no route matched. `Handle` models that order; the
  corrected order, gate first, is `HandleGuarded`.
 */
module Server {
  import opened Options
  import opened Products
  import opened Handlers
  import Auth

  /** The parts of an HTTP request the server looks at. */
  datatype Request = Request(verb: string, path: string, authorization: Option<string>, body: Fields)

  /** Which registered path a request path matches. */
  datatype Route = Root | Collection | Item(id: string) | Unrouted

  const CollectionPath := "/api/products"
  const ItemPrefix := "/api/products/"

  /** The `:id` segment of an item path: non-empty, no further `/`. */
  predicate IsSegment(id: string) {
    id != "" && '/' !in id
  }

  /** Match a path against `/`, `/api/products` and `/api/products/:id`. */
  function RouteOf(path: string): (r: Route)
    ensures r == Root <==> path == "/"
    ensures r == Collection <==> path == CollectionPath
    ensures r.Item? <==> exists id :: IsSegment(id) && path == ItemPrefix + id
    ensures r.Item? ==> IsSegment(r.id) && path == ItemPrefix + r.id
  {
    if path == "/" then Root
    else if path == CollectionPath then Collection
    else if ItemPrefix <= path && IsSegment(path[|ItemPrefix|..]) then
      assert path == ItemPrefix + path[|ItemPrefix|..];
      Item(path[|ItemPrefix|..])
    else
      assert forall id :: IsSegment(id) && path == ItemPrefix + id ==> path[|ItemPrefix|..] == id;
      Unrouted
  }

  /** Every id segment routes back to itself. */
  lemma ItemPathRoundTrip(id: string)
    requires IsSegment(id)
    ensures RouteOf(ItemPrefix + id) == Item(id)
  {
  }

  /** What goes back to the client. */
  datatype Body =
    | Welcome
    | One(product: Product)
    | Many(products: seq<Product>)
    | Error(message: string)
    | NoHandler

  datatype Response = Response(status: int, body: Body)

  /** A response together with the store left behind. */
  datatype Exchange = Exchange(response: Response, store: Store)

  /** A store outcome as an HTTP response; `okStatus` is 200, or 201 for create. */
  function Answer(o: Outcome, okStatus: int): Response {
    match o
    case Ok(p) => Response(okStatus, One(p))
    case NotFound => Response(404, Error("Product not found"))
    case BadRequest => Response(400, Error("Missing required fields"))
  }

  /** A route registered with `get` also answers HEAD requests. */
  predicate ReadVerb(verb: string) {
    verb == "GET" || verb == "HEAD"
  }

  /** The request matches one of the registered verb and path pairs. */
  predicate Routed(req: Request) {
    match RouteOf(req.path)
    case Root => ReadVerb(req.verb)
    case Collection => ReadVerb(req.verb) || req.verb == "POST"
    case Item(_) => ReadVerb(req.verb) || req.verb == "PUT" || req.verb == "DELETE"
    case Unrouted => false
  }

  /** The answer of the matching route handler. */
  function Dispatch(s: Store, req: Request, freshId: string): (x: Exchange)
    requires Routed(req)
    requires !HasId(s, freshId)
    ensures x.store != s ==> req.verb in {"POST", "PUT", "DELETE"}
    ensures x.response.status in {200, 201, 400, 404}
    ensures x.response.status == 201 <==>
      RouteOf(req.path) == Collection && req.verb == "POST" && Complete(req.body)
    ensures x.response == Response(400, Error("Missing required fields")) <==>
      RouteOf(req.path) == Collection && req.verb == "POST" && !Complete(req.body)
    ensures x.response == Response(404, Error("Product not found")) <==>
      RouteOf(req.path).Item? && !HasId(s, RouteOf(req.path).id)
    ensures x.response.status == 404 ==> x.store == s
    ensures RouteOf(req.path) == Root ==> x == Exchange(Response(200, Welcome), s)
    ensures RouteOf(req.path) == Collection && ReadVerb(req.verb) ==>
      x == Exchange(Response(200, Many(s)), s)
    ensures x.response.status == 201 ==>
      && x.response.body.One?
      && x.store == s + [x.response.body.product]
      && x.response.body.product.id == freshId
    ensures RouteOf(req.path) == Collection && req.verb == "POST" ==>
      var c := Create(s, req.body, freshId);
      && x.store == c.store
      && (c.result.Ok? ==> x.response == Response(201, One(c.result.product)))
      && (c.result.BadRequest? ==> x.response == Response(400, Error("Missing required fields")))
    ensures x.response.status == 400 ==> x.store == s
    ensures RouteOf(req.path).Item? && HasId(s, RouteOf(req.path).id) ==>
      var id := RouteOf(req.path).id;
      var r := if ReadVerb(req.verb) then GetById(s, id)
               else if req.verb == "PUT" then Update(s, id, req.body)
               else Delete(s, id);
      x == Exchange(Response(200, One(r.result.product)), r.store)
  {
    match RouteOf(req.path)
    case Root => Exchange(Response(200, Welcome), s)
    case Collection =>
      if ReadVerb(req.verb) then Exchange(Response(200, Many(List(s))), s)
      else
        var r := Create(s, req.body, freshId);
        Exchange(Answer(r.result, 201), r.store)
    case Item(id) =>
      var r :=
        if ReadVerb(req.verb) then GetById(s, id)
        else if req.verb == "PUT" then Update(s, id, req.body)
        else Delete(s, id);
      Exchange(Answer(r.result, 200), r.store)
  }

  /** What a request no route matched gets after the gate: 401, or Express's default 404. */
  function Fallthrough(s: Store, req: Request): (x: Exchange)
    ensures x.store == s
    ensures x.response.status == 401 <==>
      Auth.Gate(req.path, req.verb, req.authorization) == Auth.Unauthorized
    ensures x.response.status == 401 ==> x.response.body == Error("Unauthorized")
    ensures x.response.status != 401 ==> x.response == Response(404, NoHandler)
  {
    if Auth.Gate(req.path, req.verb, req.authorization) == Auth.Unauthorized
    then Exchange(Response(401, Error("Unauthorized")), s)
    else Exchange(Response(404, NoHandler), s)
  }

  /**
    The server as registered: routes first, then logging and the gate. A
    routed request is never refused for want of a token.
   */
  function Handle(s: Store, req: Request, freshId: string): (x: Exchange)
    requires !HasId(s, freshId)
    ensures Routed(req) ==> x.response.status != 401
    ensures x.response.status == 401 ==> x.store == s
    ensures x.store != s ==> Routed(req) && req.verb in {"POST", "PUT", "DELETE"}
    ensures Routed(req) ==> x == Dispatch(s, req, freshId)
    ensures !Routed(req) ==> x == Fallthrough(s, req)
  {
    if Routed(req) then Dispatch(s, req, freshId) else Fallthrough(s, req)
  }

  /** As registered, a routed request is answered the same whatever its Authorization header. */
  lemma HeaderIgnoredOnRoutes(s: Store, req: Request, freshId: string, header: Option<string>)
    requires !HasId(s, freshId)
    requires Routed(req)
    ensures Handle(s, req.(authorization := header), freshId) == Handle(s, req, freshId)
  {
  }

  /** A complete POST without any Authorization header is accepted and stored. */
  lemma UnauthenticatedCreateAccepted()
    ensures var body := Fields(Some("Desk"), Some("Oak desk"), Some(300), Some("furniture"), Some(true));
            var x := Handle(Seed, Request("POST", "/api/products", None, body), "4");
            && x.response == Response(201, One(Product("4", "Desk", "Oak desk", 300, "furniture", true)))
            && x.store == Seed + [Product("4", "Desk", "Oak desk", 300, "furniture", true)]
  {
  }

  /**
    The intended server: the gate runs before any route, so a mutating API
    request without the exact token is refused and changes nothing, and every
    other request is answered as by `Handle`.
   */
  function HandleGuarded(s: Store, req: Request, freshId: string): (x: Exchange)
    requires !HasId(s, freshId)
    ensures Auth.ApiPrefix <= req.path && req.verb != "GET" && req.authorization != Some(Auth.Token)
            ==> x == Exchange(Response(401, Error("Unauthorized")), s)
    ensures Auth.Gate(req.path, req.verb, req.authorization) == Auth.Next
            ==> x == Handle(s, req, freshId)
  {
    if Auth.Gate(req.path, req.verb, req.authorization) == Auth.Unauthorized
    then Exchange(Response(401, Error("Unauthorized")), s)
    else Handle(s, req, freshId)
  }

  /** With the gate first, the store changes only for a request carrying the token. */
  lemma GuardedMutationsNeedToken(s: Store, req: Request, freshId: string)
    requires !HasId(s, freshId)
    ensures HandleGuarded(s, req, freshId).store != s ==> req.authorization == Some(Auth.Token)
  {
  }
}
