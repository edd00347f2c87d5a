/**
  The five product-store operations behind the `/api/products` routes. Each is
  a pure function from the current store to an outcome and the next store.
 */
module Handlers {
  import opened Options
  import opened Products

  /** What a handler reports: the record it found or made, or why it did not. */
  datatype Outcome = Ok(product: Product) | NotFound | BadRequest

  /** An outcome together with the store the operation leaves behind. */
  datatype Reply = Reply(result: Outcome, store: Store)

  /** GET /api/products: the whole store in insertion order. */
  function List(s: Store): (r: seq<Product>)
    ensures |r| == |s| && forall i :: 0 <= i < |r| ==> r[i] == s[i]
  {
    s
  }

  /** GET /api/products/:id: the first record with the given id. */
  function GetById(s: Store, id: string): (r: Reply)
    ensures r.store == s
    ensures r.result.Ok? <==> HasId(s, id)
    ensures !r.result.Ok? ==> r.result == NotFound
    ensures r.result.Ok? ==> exists i :: FirstMatch(s, id, i) && r.result.product == s[i]
  {
    var i := FindIndex(s, id);
    if i == -1 then Reply(NotFound, s) else Reply(Ok(s[i]), s)
  }

  /**
    The presence test of POST /api/products: name, description and category
    must be truthy, price and inStock need only be defined.
   */
  predicate Complete(body: Fields) {
    Truthy(body.name) && Truthy(body.description) && body.price.Some?
    && Truthy(body.category) && body.inStock.Some?
  }

  /**
    POST /api/products. `freshId` stands for the generated uuid, which is
    assumed not to collide with a stored id.
   */
  function Create(s: Store, body: Fields, freshId: string): (r: Reply)
    requires !HasId(s, freshId)
    ensures r.result.Ok? || r.result.BadRequest?
    ensures r.result.BadRequest? <==>
      || body.name == None || body.name == Some("")
      || body.description == None || body.description == Some("")
      || body.price == None
      || body.category == None || body.category == Some("")
      || body.inStock == None
    ensures r.result.BadRequest? ==> r.store == s
    ensures r.result.Ok? ==>
      && r.store == s + [r.result.product]
      && r.result.product.id == freshId
      && Some(r.result.product.name) == body.name
      && Some(r.result.product.description) == body.description
      && Some(r.result.product.price) == body.price
      && Some(r.result.product.category) == body.category
      && Some(r.result.product.inStock) == body.inStock
  {
    if !Complete(body) then Reply(BadRequest, s)
    else
      var p := Product(freshId, body.name.value, body.description.value, body.price.value,
                       body.category.value, body.inStock.value);
      Reply(Ok(p), s + [p])
  }

  /** The merge of PUT: every present property overwrites, absent ones keep the old value. */
  function Patch(p: Product, patch: Fields): Product {
    p.(name := patch.name.GetOr(p.name),
       description := patch.description.GetOr(p.description),
       price := patch.price.GetOr(p.price),
       category := patch.category.GetOr(p.category),
       inStock := patch.inStock.GetOr(p.inStock))
  }

  /** PUT /api/products/:id: patch the first record with that id in place. */
  function Update(s: Store, id: string, patch: Fields): (r: Reply)
    ensures r.result.Ok? || r.result.NotFound?
    ensures r.result.NotFound? <==> !HasId(s, id)
    ensures r.result.NotFound? ==> r.store == s
    ensures r.result.Ok? ==>
      var i, p := FindIndex(s, id), r.result.product;
      && r.store == s[i := p]
      && p.id == s[i].id == id
      && (patch.name.Some? ==> p.name == patch.name.value)
      && (patch.name.None? ==> p.name == s[i].name)
      && (patch.description.Some? ==> p.description == patch.description.value)
      && (patch.description.None? ==> p.description == s[i].description)
      && (patch.price.Some? ==> p.price == patch.price.value)
      && (patch.price.None? ==> p.price == s[i].price)
      && (patch.category.Some? ==> p.category == patch.category.value)
      && (patch.category.None? ==> p.category == s[i].category)
      && (patch.inStock.Some? ==> p.inStock == patch.inStock.value)
      && (patch.inStock.None? ==> p.inStock == s[i].inStock)
  {
    var i := FindIndex(s, id);
    if i == -1 then Reply(NotFound, s)
    else
      var p := Patch(s[i], patch);
      Reply(Ok(p), s[i := p])
  }

  /** DELETE /api/products/:id: splice out the first record with that id and return it. */
  function Delete(s: Store, id: string): (r: Reply)
    ensures r.result.Ok? || r.result.NotFound?
    ensures r.result.NotFound? <==> !HasId(s, id)
    ensures r.result.NotFound? ==> r.store == s
    ensures r.result.Ok? ==>
      var i := FindIndex(s, id);
      && r.result.product == s[i]
      && r.result.product.id == id
      && |r.store| == |s| - 1
      && (forall k :: 0 <= k < i ==> r.store[k] == s[k])
      && (forall k :: i <= k < |r.store| ==> r.store[k] == s[k + 1])
  {
    var i := FindIndex(s, id);
    if i == -1 then Reply(NotFound, s)
    else Reply(Ok(s[i]), s[..i] + s[i + 1..])
  }
}
