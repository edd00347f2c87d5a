/**
  The product record, the request payload that creates or patches one, and the
  in-memory store: an ordered sequence of records kept in insertion order.
 */
module Products {
  import opened Options

  /** One stored product. `price` is a whole number (JavaScript numbers are not modelled). */
  datatype Product = Product(
    id: string,
    name: string,
    description: string,
    price: int,
    category: string,
    inStock: bool)

  /**
    The five product properties a request body may carry. Each is independently
    present or absent; an explicit `false` or `0` is present.
   */
  datatype Fields = Fields(
    name: Option<string>,
    description: Option<string>,
    price: Option<int>,
    category: Option<string>,
    inStock: Option<bool>)

  /** A body carrying none of the five properties (`{}`). */
  const NoFields := Fields(None, None, None, None, None)

  type Store = seq<Product>

  /** The three records the process starts with. */
  const Seed: Store := [
    Product("1", "Laptop", "High-performance laptop with 16GB RAM", 1200, "electronics", true),
    Product("2", "Smartphone", "Latest model with 128GB storage", 800, "electronics", true),
    Product("3", "Coffee Maker", "Programmable coffee maker with timer", 50, "kitchen", false)
  ]

  /** Some record of `s` carries `id`. */
  predicate HasId(s: Store, id: string) {
    exists i :: 0 <= i < |s| && s[i].id == id
  }

  /** No two records of `s` share an id. */
  predicate UniqueIds(s: Store) {
    forall i, j :: 0 <= i < j < |s| ==> s[i].id != s[j].id
  }

  /** `i` is the position of the first record of `s` whose id is `id`. */
  predicate FirstMatch(s: Store, id: string, i: int) {
    0 <= i < |s| && s[i].id == id && forall j :: 0 <= j < i ==> s[j].id != id
  }

  /**
    The array `findIndex` on id equality: the position of the first record with
    id `id`, or -1 when there is none.
   */
  function FindIndex(s: Store, id: string): (r: int)
    ensures r == -1 <==> !HasId(s, id)
    ensures r != -1 ==> FirstMatch(s, id, r)
  {
    if |s| == 0 then -1
    else if s[0].id == id then 0
    else
      var k := FindIndex(s[1..], id);
      assert forall i :: 1 <= i < |s| ==> s[i] == s[1..][i - 1];
      if k == -1 then -1 else k + 1
  }
}
