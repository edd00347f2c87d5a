/**
  Laws relating the store operations to each other: id uniqueness is kept by
  every operation, delete undoes create, patches compose, and the scenarios the
  API promises for its seeded data.
 */
module StoreLaws {
  import opened Options
  import opened Products
  import opened Handlers

  /** The seeded records carry distinct ids. */
  lemma SeedHasUniqueIds()
    ensures UniqueIds(Seed)
  {
  }

  /** When ids are unique, a lookup lands on the one record carrying the id. */
  lemma {:induction false} UniqueFindIndex(s: Store, id: string, k: int)
    requires UniqueIds(s)
    requires 0 <= k < |s| && s[k].id == id
    ensures FindIndex(s, id) == k
  {
  }

  /** Create keeps ids unique when the generated id is fresh. */
  lemma CreatePreservesUniqueIds(s: Store, body: Fields, freshId: string)
    requires UniqueIds(s)
    requires !HasId(s, freshId)
    ensures UniqueIds(Create(s, body, freshId).store)
  {
    var t := Create(s, body, freshId).store;
    forall i, j | 0 <= i < j < |t|
      ensures t[i].id != t[j].id
    {
      if j == |s| {
        assert t[i] == s[i];
      }
    }
  }

  /** Update never touches an id, so it keeps ids unique. */
  lemma UpdatePreservesUniqueIds(s: Store, id: string, patch: Fields)
    requires UniqueIds(s)
    ensures UniqueIds(Update(s, id, patch).store)
  {
    var t := Update(s, id, patch).store;
    assert forall k :: 0 <= k < |t| ==> t[k].id == s[k].id;
  }

  /** Delete keeps ids unique: what remains is a subsequence of the store. */
  lemma DeletePreservesUniqueIds(s: Store, id: string)
    requires UniqueIds(s)
    ensures UniqueIds(Delete(s, id).store)
  {
    var r := Delete(s, id);
    if r.result.Ok? {
      var i, t := FindIndex(s, id), r.store;
      forall a, b | 0 <= a < b < |t|
        ensures t[a].id != t[b].id
      {
        var a' := if a < i then a else a + 1;
        var b' := if b < i then b else b + 1;
        assert t[a] == s[a'] && t[b] == s[b'];
      }
    }
  }

  /** A record just created is found by its id. */
  lemma GetAfterCreate(s: Store, body: Fields, freshId: string)
    requires !HasId(s, freshId)
    ensures var c := Create(s, body, freshId);
            c.result.Ok? ==> GetById(c.store, freshId) == Reply(c.result, c.store)
  {
    var c := Create(s, body, freshId);
    if c.result.Ok? {
      var i := FindIndex(c.store, freshId);
      assert c.store[|s|].id == freshId;
      assert i == |s|;
    }
  }

  /** Deleting the record just created restores the previous store and returns that record. */
  lemma DeleteUndoesCreate(s: Store, body: Fields, freshId: string)
    requires !HasId(s, freshId)
    ensures var c := Create(s, body, freshId);
            c.result.Ok? ==> Delete(c.store, freshId) == Reply(c.result, s)
  {
    var c := Create(s, body, freshId);
    if c.result.Ok? {
      var i := FindIndex(c.store, freshId);
      assert c.store[|s|].id == freshId;
      assert i == |s|;
      var d := Delete(c.store, freshId);
      assert d.store == s;
    }
  }

  /**
    After a successful delete the id is gone: a lookup on it answers NotFound.
    This needs unique ids, since delete removes only the first match.
   */
  lemma DeleteRemovesId(s: Store, id: string)
    requires UniqueIds(s)
    ensures !HasId(Delete(s, id).store, id)
    ensures GetById(Delete(s, id).store, id).result == NotFound
  {
    var r := Delete(s, id);
    if r.result.Ok? {
      var i, t := FindIndex(s, id), r.store;
      forall k | 0 <= k < |t|
        ensures t[k].id != id
      {
        var k' := if k < i then k else k + 1;
        assert t[k] == s[k'];
      }
    }
  }

  /**
    With a repeated id, one delete removes the first record carrying it and
    leaves every later one in place, one position earlier.
   */
  lemma DeleteLeavesDuplicate(s: Store, id: string, i: int, j: int)
    requires FirstMatch(s, id, i)
    requires i < j < |s| && s[j].id == id
    ensures Delete(s, id).result == Ok(s[i])
    ensures Delete(s, id).store[j - 1] == s[j]
    ensures HasId(Delete(s, id).store, id)
  {
  }

  /** A body with none of the five properties changes nothing. */
  lemma UpdateWithNoFieldsKeepsStore(s: Store, id: string)
    ensures Update(s, id, NoFields).store == s
  {
  }

  /** Sequential patching: `b`'s present properties win, otherwise `a`'s, otherwise neither. */
  function Then(a: Fields, b: Fields): Fields {
    Fields(
      if b.name.Some? then b.name else a.name,
      if b.description.Some? then b.description else a.description,
      if b.price.Some? then b.price else a.price,
      if b.category.Some? then b.category else a.category,
      if b.inStock.Some? then b.inStock else a.inStock)
  }

  /** Two successive updates of one record equal a single update with the combined body. */
  lemma UpdateComposes(s: Store, id: string, a: Fields, b: Fields)
    ensures Update(Update(s, id, a).store, id, b) == Update(s, id, Then(a, b))
  {
    var u := Update(s, id, a);
    if u.result.Ok? {
      SameIdsSameIndex(s, u.store, id);
    }
  }

  /** Repeating an update changes nothing further. */
  lemma UpdateIdempotent(s: Store, id: string, a: Fields)
    ensures var u := Update(s, id, a);
            Update(u.store, id, a) == u
  {
    UpdateComposes(s, id, a, a);
    assert Then(a, a) == a;
  }

  /** Stores whose ids agree position by position answer id lookups alike. */
  lemma {:induction false} SameIdsSameIndex(s: Store, t: Store, id: string)
    requires |s| == |t|
    requires forall k :: 0 <= k < |s| ==> s[k].id == t[k].id
    ensures FindIndex(s, id) == FindIndex(t, id)
  {
    if |s| > 0 && s[0].id != id {
      SameIdsSameIndex(s[1..], t[1..], id);
    }
  }

  /** A price of 0 and an inStock of false are defined, so create accepts them. */
  lemma FalsyTypedFieldsAccepted(s: Store, name: string, description: string, category: string, freshId: string)
    requires name != "" && description != "" && category != ""
    requires !HasId(s, freshId)
    ensures Create(s, Fields(Some(name), Some(description), Some(0), Some(category), Some(false)), freshId).result.Ok?
  {
  }

  /** A body with only a name is rejected and the store keeps its three records. */
  lemma NameOnlyBodyRejected(freshId: string)
    requires !HasId(Seed, freshId)
    ensures Create(Seed, NoFields.(name := Some("X")), freshId) == Reply(BadRequest, Seed)
  {
  }

  /** Deleting "2" from the seeded store returns the smartphone and keeps "1" then "3". */
  lemma SeedDeleteScenario()
    ensures Delete(Seed, "2") == Reply(Ok(Seed[1]), [Seed[0], Seed[2]])
  {
    assert FindIndex(Seed, "2") == 1;
    assert Seed[..1] + Seed[2..] == [Seed[0], Seed[2]];
  }

  /** Every lookup that succeeds returns a listed record, and every listed id can be looked up. */
  lemma ListAgreesWithGet(s: Store, id: string)
    ensures GetById(s, id).result.Ok? <==> exists p :: p in List(s) && p.id == id
    ensures GetById(s, id).result.Ok? ==> GetById(s, id).result.product in List(s)
  {
    if exists p :: p in List(s) && p.id == id {
      var p :| p in List(s) && p.id == id;
      var k :| 0 <= k < |s| && s[k] == p;
    }
  }
}
