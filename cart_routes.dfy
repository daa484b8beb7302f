/**
  The cart router's own handler, `DELETE /clear`: it looks up one cart,
  empties its items, zeroes its total and always replies with an empty cart.

  As written the handler looks the cart up by a `user` field. Cart documents
  are keyed by `userId` or `guestId`, and no cart operation writes `user`.
  The Cart schema and the Mongoose version are not part of this model, and
  what the query does depends on them:
  - when the filter is sent as written (`strictQuery` off, or `user` declared
    in the schema), it never finds the caller's cart, and `ClearAsWritten`
    models the handler;
  - when `strictQuery` strips the undeclared path (the Mongoose 6 default),
    the filter becomes `{}` and the handler empties the collection's first
    cart, whoever owns it; `ClearStripped` models that reading.
  `Clear` is the evidently intended handler, which looks the cart up by
  `userId`.
 */
module CartRoutes {
  import opened Js
  import opened CartController

  /** `Cart.findOne({ user: uid })`: the first cart whose `user` field is `uid`, or -1. */
  function FindByUserField(carts: seq<Cart>, uid: string): (r: int)
    ensures -1 <= r < |carts|
    ensures r >= 0 ==> carts[r].user == Some(uid) && forall j :: 0 <= j < r ==> carts[j].user != Some(uid)
    ensures r == -1 ==> forall j :: 0 <= j < |carts| ==> carts[j].user != Some(uid)
  {
    if carts == [] then -1
    else if carts[0].user == Some(uid) then 0
    else
      var k := FindByUserField(carts[1..], uid);
      if k == -1 then -1 else k + 1
  }

  /** The collection after the handler has emptied the cart at `i` (nothing when `i` is -1). */
  function ClearAt(carts: seq<Cart>, i: int): (r: seq<Cart>)
    requires -1 <= i < |carts|
    ensures |r| == |carts|
    ensures forall j :: 0 <= j < |r| && j != i ==> r[j] == carts[j]
    ensures 0 <= i ==> r[i].owner == carts[i].owner && r[i].items == [] && r[i].total == 0
  {
    if i >= 0 then carts[i := Emptied(carts[i])] else carts
  }

  /** Emptying a cart keeps the store invariant and the absence of the `user` field. */
  lemma ClearAtKeeps(carts: seq<Cart>, i: int)
    requires -1 <= i < |carts|
    ensures StoreInvariant(carts) ==> StoreInvariant(ClearAt(carts, i))
    ensures NoUserField(carts) ==> NoUserField(ClearAt(carts, i))
  {
  }

  /** The `/clear` handler as written: the lookup is by the `user` field. */
  method ClearAsWritten(store: CartStore, userId: string) returns (reply: Reply)
    requires store.Valid()
    modifies store
    ensures store.Valid()
    ensures store.carts == ClearAt(old(store.carts), FindByUserField(old(store.carts), userId))
    ensures reply == Contents([], 0)
  {
    var i := FindByUserField(store.carts, userId);
    ClearAtKeeps(store.carts, i);
    if i >= 0 {
      var cart := store.carts[i];
      cart := cart.(items := [], total := 0);
      store.carts := store.carts[i := cart];
    }
    reply := Contents([], 0);
  }

  /**
    In every collection the cart operations can produce (no cart carries the
    `user` field), the as-written handler finds nothing and changes nothing,
    whichever carts the user has.
   */
  lemma ClearAsWrittenChangesNothing(carts: seq<Cart>, userId: string)
    requires NoUserField(carts)
    ensures FindByUserField(carts, userId) == -1
    ensures ClearAt(carts, FindByUserField(carts, userId)) == carts
  {
  }

  /** A concrete case: the user's one-line cart survives the as-written clear. */
  lemma ClearAsWrittenKeepsItems()
    ensures var carts := [Cart(User("u1"), None, [LineItem("p1", 2, 10, "Serum")], 20)];
      && FindCart(carts, User("u1")) == 0
      && ClearAt(carts, FindByUserField(carts, "u1"))[0].items == [LineItem("p1", 2, 10, "Serum")]
      && ClearAt(carts, FindCart(carts, User("u1")))[0].items == []
  {
    var carts := [Cart(User("u1"), None, [LineItem("p1", 2, 10, "Serum")], 20)];
    assert carts[1..] == [];
  }

  /**
    `Cart.findOne({ user: uid })` once `strictQuery` has removed the path the
    schema does not declare: `findOne({})`, the first cart in natural order,
    whatever `uid` is.
   */
  function FindStripped(carts: seq<Cart>, uid: string): (r: int)
    ensures -1 <= r < |carts|
    ensures r == -1 <==> carts == []
    ensures carts != [] ==> r == 0
  {
    if carts == [] then -1 else 0
  }

  /** The `/clear` handler as written, under a `strictQuery` that strips the `user` path. */
  method ClearStripped(store: CartStore, userId: string) returns (reply: Reply)
    requires store.Valid()
    modifies store
    ensures store.Valid()
    ensures store.carts == ClearAt(old(store.carts), FindStripped(old(store.carts), userId))
    ensures reply == Contents([], 0)
  {
    var i := FindStripped(store.carts, userId);
    ClearAtKeeps(store.carts, i);
    if i >= 0 {
      var cart := store.carts[i];
      cart := cart.(items := [], total := 0);
      store.carts := store.carts[i := cart];
    }
    reply := Contents([], 0);
  }

  /**
    A concrete case under the stripped filter: user `u1` clears their cart,
    the first cart, which belongs to `u2`, is emptied and `u1`'s cart keeps
    its line.
   */
  lemma ClearStrippedEmptiesAnother()
    ensures var carts := [Cart(User("u2"), None, [LineItem("p2", 1, 5, "Toner")], 5),
                          Cart(User("u1"), None, [LineItem("p1", 2, 10, "Serum")], 20)];
      var after := ClearAt(carts, FindStripped(carts, "u1"));
      && after[0].owner == User("u2") && after[0].items == []
      && after[1] == carts[1] && after[1].items == [LineItem("p1", 2, 10, "Serum")]
  {
  }

  /** The `/clear` handler as intended: the lookup is by `userId`, so the caller's cart is emptied. */
  method Clear(store: CartStore, userId: string) returns (reply: Reply)
    requires store.Valid()
    modifies store
    ensures store.Valid()
    ensures store.carts == ClearAt(old(store.carts), FindCart(old(store.carts), User(userId)))
    ensures NoUserField(old(store.carts)) ==> NoUserField(store.carts)
    ensures store.GetCart(Some(userId), "") == Contents([], 0)
    ensures reply == Contents([], 0)
  {
    var i := FindCart(store.carts, User(userId));
    ClearAtKeeps(store.carts, i);
    if i >= 0 {
      var cart := store.carts[i];
      cart := cart.(items := [], total := 0);
      FindCartWrite(store.carts, i, cart);
      store.carts := store.carts[i := cart];
    }
    reply := Contents([], 0);
  }
}
