/**
  The shopping-cart controller: carts owned by an authenticated user or by a
  guest session, kept in one collection of cart documents. Line items are
  added or replaced, removed, merged from a guest cart into a user cart, and
  emptied at checkout. Every cart keeps a cached total that equals the sum of
  price times quantity over its items.

  Prices are whole numbers of the smallest currency unit; the product
  catalogue is a map from product id to the product's price and name.
 */
module CartController {
  import opened Js

  type ProductId = string

  /** One cart line: a product, the requested quantity, and the price and name copied from the product. */
  datatype LineItem = LineItem(productId: ProductId, quantity: int, price: int, name: string)

  /** Who owns a cart: a cart document carries either `userId` or `guestId` (the session id). */
  datatype Owner = User(userId: string) | Guest(guestId: string)

  /**
    A cart document. `user` is a further document field that only the clear
    route reads; nothing in the cart controller ever writes it.
   */
  datatype Cart = Cart(owner: Owner, user: Option<string>, items: seq<LineItem>, total: int)

  /** What the catalogue knows about a product. */
  datatype Product = Product(price: int, name: string)

  /** The JSON reply of a cart endpoint. */
  datatype Reply =
    | Contents(items: seq<LineItem>, total: int)
    | Notice(message: string)
    | GuestCheckout(items: seq<LineItem>, total: int, message: string)
    | Failure(status: int, message: string)

  /** `getCartIdentifier`: the user id when a user is authenticated, otherwise the session id. */
  function CartIdentifier(user: Option<string>, sessionId: string): (k: Owner)
    ensures user.Some? ==> k == User(user.value)
    ensures user.None? ==> k == Guest(sessionId)
  {
    match user
    case Some(id) => User(id)
    case None => Guest(sessionId)
  }

  /** An authenticated user's key ignores the session; a guest's key is its session. */
  lemma IdentifierChoice(id: string, s1: string, s2: string)
    ensures CartIdentifier(Some(id), s1) == CartIdentifier(Some(id), s2)
    ensures CartIdentifier(None, s1) == CartIdentifier(None, s2) <==> s1 == s2
    ensures CartIdentifier(Some(id), s1) != CartIdentifier(None, s2)
  {
  }

  /** A fresh cart document for an owner key: `new Cart({ ...identifier })`. */
  function EmptyCart(key: Owner): (c: Cart)
    ensures c.owner == key && c.items == [] && c.total == 0 && c.user.None?
  {
    Cart(key, None, [], 0)
  }

  /** The cart with no items and a zero total (checkout and clear). */
  function Emptied(c: Cart): (e: Cart)
    ensures e.owner == c.owner && e.user == c.user && e.items == [] && e.total == 0
  {
    c.(items := [], total := 0)
  }

  /** The cart with a new item list and the total stored with it. */
  function WithItems(c: Cart, items: seq<LineItem>, total: int): (r: Cart)
    ensures r.owner == c.owner && r.user == c.user && r.items == items && r.total == total
  {
    c.(items := items, total := total)
  }

  /** The cart handed to another owner key, everything else kept. */
  function Relabelled(c: Cart, key: Owner): (r: Cart)
    ensures r.owner == key && r.user == c.user && r.items == c.items && r.total == c.total
  {
    c.(owner := key)
  }

  // ---------------------------------------------------------------------------
  // Totals

  /** What one line contributes to the total. */
  function LineTotal(it: LineItem): int
  {
    it.price * it.quantity
  }

  /** The sum of price times quantity, added up from the first item as `reduce` does. */
  function Sum(items: seq<LineItem>): int
  {
    if items == [] then 0 else Sum(items[..|items| - 1]) + LineTotal(items[|items| - 1])
  }

  /** `items.reduce((sum, item) => sum + item.price * item.quantity, 0)`. */
  method ComputeTotal(items: seq<LineItem>) returns (total: int)
    ensures total == Sum(items)
  {
    total := 0;
    for i := 0 to |items|
      invariant total == Sum(items[..i])
    {
      assert items[..i + 1][..i] == items[..i];
      total := total + items[i].price * items[i].quantity;
    }
    assert items[..|items|] == items;
  }

  lemma {:induction false} SumAppend(a: seq<LineItem>, b: seq<LineItem>)
    ensures Sum(a + b) == Sum(a) + Sum(b)
    decreases |b|
  {
    if b == [] {
      assert a + b == a;
    } else {
      var b' := b[..|b| - 1];
      assert (a + b)[..|a + b| - 1] == a + b';
      assert (a + b)[|a + b| - 1] == b[|b| - 1];
      SumAppend(a, b');
    }
  }

  lemma SumSingle(x: LineItem)
    ensures Sum([x]) == LineTotal(x)
  {
    assert [x][..0] == [];
  }

  /** Replacing one line changes the total by the difference of the two lines. */
  lemma SumUpdate(s: seq<LineItem>, i: int, x: LineItem)
    requires 0 <= i < |s|
    ensures Sum(s[i := x]) == Sum(s) - LineTotal(s[i]) + LineTotal(x)
  {
    SumSplit(s, i);
    SumSplit(s[i := x], i);
    assert s[i := x][..i] == s[..i] && s[i := x][i + 1..] == s[i + 1..];
  }

  /** The total of a list is the total before line `i`, plus line `i`, plus the total after it. */
  lemma SumSplit(s: seq<LineItem>, i: int)
    requires 0 <= i < |s|
    ensures Sum(s) == Sum(s[..i]) + LineTotal(s[i]) + Sum(s[i + 1..])
  {
    calc {
      Sum(s);
      == { assert s == (s[..i] + [s[i]]) + s[i + 1..]; }
      Sum((s[..i] + [s[i]]) + s[i + 1..]);
      == { SumAppend(s[..i] + [s[i]], s[i + 1..]); }
      Sum(s[..i] + [s[i]]) + Sum(s[i + 1..]);
      == { SumAppend(s[..i], [s[i]]); SumSingle(s[i]); }
      Sum(s[..i]) + LineTotal(s[i]) + Sum(s[i + 1..]);
    }
  }

  // ---------------------------------------------------------------------------
  // Finding a line

  /** `items.findIndex(item => item.productId === pid)`: the first line for the product, or -1. */
  function IndexOf(items: seq<LineItem>, pid: ProductId): (r: int)
    ensures -1 <= r < |items|
    ensures r >= 0 ==> items[r].productId == pid
    ensures r >= 0 ==> forall j :: 0 <= j < r ==> items[j].productId != pid
    ensures r == -1 ==> forall j :: 0 <= j < |items| ==> items[j].productId != pid
  {
    if items == [] then -1
    else if items[0].productId == pid then 0
    else
      var k := IndexOf(items[1..], pid);
      if k == -1 then -1 else k + 1
  }

  /** The first-match property determines IndexOf. */
  lemma IndexOfIs(items: seq<LineItem>, pid: ProductId, r: int)
    requires -1 <= r < |items|
    requires r >= 0 ==> items[r].productId == pid
    requires r >= 0 ==> forall j :: 0 <= j < r ==> items[j].productId != pid
    requires r == -1 ==> forall j :: 0 <= j < |items| ==> items[j].productId != pid
    ensures IndexOf(items, pid) == r
  {
  }

  /** At most one line per product. */
  predicate UniqueProducts(items: seq<LineItem>)
  {
    forall i, j :: 0 <= i < j < |items| ==> items[i].productId != items[j].productId
  }

  /** Two item lists with the same products at the same positions. */
  predicate SameProducts(a: seq<LineItem>, b: seq<LineItem>)
  {
    |a| == |b| && forall j :: 0 <= j < |a| ==> a[j].productId == b[j].productId
  }

  lemma SameProductsIndexOf(a: seq<LineItem>, b: seq<LineItem>, pid: ProductId)
    requires SameProducts(a, b)
    ensures IndexOf(a, pid) == IndexOf(b, pid)
    ensures UniqueProducts(a) ==> UniqueProducts(b)
  {
    IndexOfIs(b, pid, IndexOf(a, pid));
  }

  /** Where a product is looked up in a concatenation. */
  lemma IndexOfAppend(a: seq<LineItem>, b: seq<LineItem>, pid: ProductId)
    ensures IndexOf(a, pid) >= 0 ==> IndexOf(a + b, pid) == IndexOf(a, pid)
    ensures IndexOf(a, pid) == -1 && IndexOf(b, pid) >= 0 ==> IndexOf(a + b, pid) == |a| + IndexOf(b, pid)
    ensures IndexOf(a, pid) == -1 && IndexOf(b, pid) == -1 ==> IndexOf(a + b, pid) == -1
  {
    var i, k := IndexOf(a, pid), IndexOf(b, pid);
    if i >= 0 {
      IndexOfIs(a + b, pid, i);
    } else if k >= 0 {
      forall j | 0 <= j < |a| + k ensures (a + b)[j].productId != pid {
        if j >= |a| { assert (a + b)[j] == b[j - |a|]; }
      }
      IndexOfIs(a + b, pid, |a| + k);
    } else {
      forall j | 0 <= j < |a + b| ensures (a + b)[j].productId != pid {
        if j >= |a| { assert (a + b)[j] == b[j - |a|]; }
      }
      IndexOfIs(a + b, pid, -1);
    }
  }

  // ---------------------------------------------------------------------------
  // Add or replace (addToCart)

  /** A line rewritten by an add: the new quantity and the catalogue's current price and name. */
  function Refreshed(it: LineItem, quantity: int, product: Product): LineItem
  {
    it.(quantity := quantity, price := product.price, name := product.name)
  }

  /**
    The item list after `addToCart`: an existing line for the product gets the
    new quantity (replacing the old one) and the catalogue's current price and
    name; otherwise a new line is appended.
   */
  function Upsert(items: seq<LineItem>, pid: ProductId, quantity: int, product: Product): seq<LineItem>
  {
    var i := IndexOf(items, pid);
    if i >= 0 then items[i := Refreshed(items[i], quantity, product)]
    else items + [LineItem(pid, quantity, product.price, product.name)]
  }

  /**
    After an add, the product has exactly the line the add wrote: the given
    quantity and the catalogue's price and name. An existing line is replaced
    where it stands and nothing else moves; a new product goes at the end. No
    product gains a second line.
   */
  lemma UpsertPlaces(items: seq<LineItem>, pid: ProductId, quantity: int, product: Product)
    ensures var r := Upsert(items, pid, quantity, product);
      && IndexOf(r, pid) >= 0
      && r[IndexOf(r, pid)] == LineItem(pid, quantity, product.price, product.name)
    ensures var i := IndexOf(items, pid); var r := Upsert(items, pid, quantity, product);
      i >= 0 ==> IndexOf(r, pid) == i && |r| == |items|
                 && forall j :: 0 <= j < |r| && j != i ==> r[j] == items[j]
    ensures IndexOf(items, pid) == -1 ==>
      Upsert(items, pid, quantity, product) == items + [LineItem(pid, quantity, product.price, product.name)]
    ensures UniqueProducts(items) ==> UniqueProducts(Upsert(items, pid, quantity, product))
  {
    var i := IndexOf(items, pid);
    var r := Upsert(items, pid, quantity, product);
    if i >= 0 {
      assert SameProducts(items, r);
      SameProductsIndexOf(items, r, pid);
    } else {
      IndexOfIs(r, pid, |items|);
    }
  }

  /** Adding the same product twice keeps only the second quantity, price and name. */
  lemma UpsertLastWins(items: seq<LineItem>, pid: ProductId, q1: int, p1: Product, q2: int, p2: Product)
    ensures Upsert(Upsert(items, pid, q1, p1), pid, q2, p2) == Upsert(items, pid, q2, p2)
  {
    UpsertPlaces(items, pid, q1, p1);
    var i := IndexOf(items, pid);
    var r1 := Upsert(items, pid, q1, p1);
    if i == -1 {
      assert IndexOf(r1, pid) == |items|;
      assert r1[|items| := Refreshed(r1[|items|], q2, p2)]
          == items + [LineItem(pid, q2, p2.price, p2.name)];
    }
  }

  /** The total after an add: the old line's amount (if any) is replaced by quantity times the current price. */
  lemma UpsertTotal(items: seq<LineItem>, pid: ProductId, quantity: int, product: Product)
    ensures var i := IndexOf(items, pid);
      Sum(Upsert(items, pid, quantity, product))
      == Sum(items) - (if i >= 0 then LineTotal(items[i]) else 0) + product.price * quantity
  {
    var i := IndexOf(items, pid);
    if i >= 0 {
      SumUpdate(items, i, Refreshed(items[i], quantity, product));
    } else {
      var x := LineItem(pid, quantity, product.price, product.name);
      SumAppend(items, [x]);
      SumSingle(x);
    }
  }

  // ---------------------------------------------------------------------------
  // Remove (removeFromCart)

  /**
    Position `i` dropped, the others kept in order: `items.splice(i, 1)` on a
    cart's lines, and deleting one cart document from the collection.
   */
  function RemoveAt<T>(items: seq<T>, i: int): (r: seq<T>)
    requires 0 <= i < |items|
    ensures |r| == |items| - 1
    ensures forall j :: 0 <= j < |r| ==> r[j] == (if j < i then items[j] else items[j + 1])
  {
    items[..i] + items[i + 1..]
  }

  /** Dropping a line lowers the total by exactly that line's amount. */
  lemma SumRemove(items: seq<LineItem>, i: int)
    requires 0 <= i < |items|
    ensures Sum(RemoveAt(items, i)) == Sum(items) - LineTotal(items[i])
  {
    SumSplit(items, i);
    SumAppend(items[..i], items[i + 1..]);
  }

  /** When lines are unique per product, removing the product's line leaves none for it. */
  lemma RemoveFirstMatch(items: seq<LineItem>, pid: ProductId)
    requires IndexOf(items, pid) >= 0 && UniqueProducts(items)
    ensures var r := RemoveAt(items, IndexOf(items, pid)); UniqueProducts(r) && IndexOf(r, pid) == -1
  {
    var i := IndexOf(items, pid);
    var r := RemoveAt(items, i);
    forall a, b | 0 <= a < b < |r| ensures r[a].productId != r[b].productId {
      var a', b' := if a < i then a else a + 1, if b < i then b else b + 1;
      assert r[a] == items[a'] && r[b] == items[b'] && a' < b';
    }
    forall j | 0 <= j < |r| ensures r[j].productId != pid {
      var j' := if j < i then j else j + 1;
      assert r[j] == items[j'] && j' != i;
    }
    IndexOfIs(r, pid, -1);
  }

  // ---------------------------------------------------------------------------
  // Merge (mergeCarts)

  /** A line whose quantity is raised by `d`; product, price and name stay. */
  function Raised(it: LineItem, d: int): LineItem
  {
    it.(quantity := it.quantity + d)
  }

  /**
    One step of the merge `forEach`: a guest line adds its quantity to the
    first line for the same product (whose stored price and name are kept),
    or is appended as it is.
   */
  function MergeOne(acc: seq<LineItem>, g: LineItem): seq<LineItem>
  {
    var i := IndexOf(acc, g.productId);
    if i >= 0 then acc[i := Raised(acc[i], g.quantity)]
    else acc + [g]
  }

  /** The user's lines after all guest lines have been merged in order. */
  function MergeItems(userItems: seq<LineItem>, guestItems: seq<LineItem>): seq<LineItem>
  {
    if guestItems == [] then userItems
    else MergeOne(MergeItems(userItems, guestItems[..|guestItems| - 1]), guestItems[|guestItems| - 1])
  }

  /** The `forEach` loop of `mergeCarts` over the guest lines. */
  method MergeInto(userItems: seq<LineItem>, guestItems: seq<LineItem>) returns (items: seq<LineItem>)
    ensures items == MergeItems(userItems, guestItems)
  {
    items := userItems;
    for k := 0 to |guestItems|
      invariant items == MergeItems(userItems, guestItems[..k])
    {
      assert guestItems[..k + 1][..k] == guestItems[..k];
      var guestItem := guestItems[k];
      var i := IndexOf(items, guestItem.productId);
      if i >= 0 {
        items := items[i := Raised(items[i], guestItem.quantity)];
      } else {
        items := items + [guestItem];
      }
    }
    assert guestItems[..|guestItems|] == guestItems;
  }

  /** The quantity of a product over all its lines. */
  function QtyOf(items: seq<LineItem>, pid: ProductId): int
  {
    if items == [] then 0
    else QtyOf(items[..|items| - 1], pid) + QtyTerm(items[|items| - 1], pid)
  }

  function QtyTerm(it: LineItem, pid: ProductId): int
  {
    if it.productId == pid then it.quantity else 0
  }

  lemma {:induction false} QtyAppend(a: seq<LineItem>, b: seq<LineItem>, pid: ProductId)
    ensures QtyOf(a + b, pid) == QtyOf(a, pid) + QtyOf(b, pid)
    decreases |b|
  {
    if b == [] {
      assert a + b == a;
    } else {
      var b' := b[..|b| - 1];
      assert (a + b)[..|a + b| - 1] == a + b';
      assert (a + b)[|a + b| - 1] == b[|b| - 1];
      QtyAppend(a, b', pid);
    }
  }

  lemma QtyUpdate(s: seq<LineItem>, i: int, x: LineItem, pid: ProductId)
    requires 0 <= i < |s|
    ensures QtyOf(s[i := x], pid) == QtyOf(s, pid) - QtyTerm(s[i], pid) + QtyTerm(x, pid)
  {
    assert s == s[..i] + [s[i]] + s[i + 1..];
    assert s[i := x] == s[..i] + [x] + s[i + 1..];
    QtyAppend(s[..i] + [s[i]], s[i + 1..], pid);
    QtyAppend(s[..i], [s[i]], pid);
    QtyAppend(s[..i] + [x], s[i + 1..], pid);
    QtyAppend(s[..i], [x], pid);
    assert [s[i]][..0] == [] && [x][..0] == [];
  }

  /** No quantity is lost or invented: each product's merged quantity is the user's plus the guest's. */
  lemma {:induction false} MergeQuantities(u: seq<LineItem>, g: seq<LineItem>, pid: ProductId)
    ensures QtyOf(MergeItems(u, g), pid) == QtyOf(u, pid) + QtyOf(g, pid)
    decreases |g|
  {
    if g != [] {
      var g', x := g[..|g| - 1], g[|g| - 1];
      MergeQuantities(u, g', pid);
      var acc := MergeItems(u, g');
      var i := IndexOf(acc, x.productId);
      if i >= 0 {
        QtyUpdate(acc, i, Raised(acc[i], x.quantity), pid);
      } else {
        QtyAppend(acc, [x], pid);
        assert [x][..0] == [];
      }
    }
  }

  /** Merging never gives a product a second line in the user's cart. */
  lemma {:induction false} MergeUnique(u: seq<LineItem>, g: seq<LineItem>)
    requires UniqueProducts(u)
    ensures UniqueProducts(MergeItems(u, g))
    decreases |g|
  {
    if g != [] {
      var g', x := g[..|g| - 1], g[|g| - 1];
      MergeUnique(u, g');
      var acc := MergeItems(u, g');
      var i := IndexOf(acc, x.productId);
      if i >= 0 {
        assert SameProducts(acc, MergeOne(acc, x));
        SameProductsIndexOf(acc, MergeOne(acc, x), x.productId);
      }
    }
  }

  /**
    The user's lines with each one's quantity raised by the guest quantity of
    its product; position, product, price and name stay the user's.
   */
  function Bumped(u: seq<LineItem>, g: seq<LineItem>): (r: seq<LineItem>)
    ensures SameProducts(u, r)
  {
    seq(|u|, j requires 0 <= j < |u| => Raised(u[j], QtyOf(g, u[j].productId)))
  }

  /** The guest lines, in guest order, whose product the user cart does not have. */
  function Unseen(u: seq<LineItem>, g: seq<LineItem>): (r: seq<LineItem>)
  {
    if g == [] then []
    else
      var x := g[|g| - 1];
      Unseen(u, g[..|g| - 1]) + (if IndexOf(u, x.productId) == -1 then [x] else [])
  }

  /** Unfolding the definitions at the last guest line `x`. */
  lemma LastGuest(u: seq<LineItem>, g': seq<LineItem>, x: LineItem)
    ensures MergeItems(u, g' + [x]) == MergeOne(MergeItems(u, g'), x)
    ensures Unseen(u, g' + [x]) == Unseen(u, g') + (if IndexOf(u, x.productId) == -1 then [x] else [])
    ensures Sum(g' + [x]) == Sum(g') + LineTotal(x)
  {
    var g := g' + [x];
    assert g[..|g| - 1] == g';
  }

  lemma QtySnoc(g': seq<LineItem>, x: LineItem, pid: ProductId)
    ensures QtyOf(g' + [x], pid) == QtyOf(g', pid) + QtyTerm(x, pid)
  {
    var g := g' + [x];
    assert g[..|g| - 1] == g';
  }

  lemma UnseenSnoc(u: seq<LineItem>, g': seq<LineItem>, x: LineItem)
    ensures Unseen(u, g' + [x]) == Unseen(u, g') + (if IndexOf(u, x.productId) == -1 then [x] else [])
  {
    var g := g' + [x];
    assert g[..|g| - 1] == g';
  }

  /** With guest lines unique per product, the next guest line's product is not among the earlier unseen ones. */
  lemma UnseenAvoids(u: seq<LineItem>, g': seq<LineItem>, x: LineItem)
    requires UniqueProducts(g' + [x])
    ensures IndexOf(Unseen(u, g'), x.productId) == -1
  {
    var un := Unseen(u, g');
    UnseenFromGuest(u, g');
    forall k | 0 <= k < |un| ensures un[k].productId != x.productId {
      var t :| 0 <= t < |g'| && g'[t] == un[k];
      assert (g' + [x])[t] == g'[t] && (g' + [x])[|g'|] == x;
    }
    IndexOfIs(un, x.productId, -1);
  }

  /** Every unseen line is a guest line for a product the user cart lacks. */
  lemma {:induction false} UnseenFromGuest(u: seq<LineItem>, g: seq<LineItem>)
    ensures forall k :: 0 <= k < |Unseen(u, g)| ==> Unseen(u, g)[k] in g && IndexOf(u, Unseen(u, g)[k].productId) == -1
    decreases |g|
  {
    if g != [] {
      var g', x := g[..|g| - 1], g[|g| - 1];
      UnseenFromGuest(u, g');
      assert g == g' + [x];
      var un := Unseen(u, g);
      forall k | 0 <= k < |un| ensures un[k] in g && IndexOf(u, un[k].productId) == -1 {
        if k < |Unseen(u, g')| {
          assert un[k] == Unseen(u, g')[k];
          assert un[k] in g';
        }
      }
    }
  }

  /** In a merge of that shape the next guest line finds the user's line for its product, if any. */
  lemma LookupInShape(u: seq<LineItem>, g': seq<LineItem>, x: LineItem)
    requires UniqueProducts(g' + [x])
    ensures IndexOf(Bumped(u, g') + Unseen(u, g'), x.productId) == IndexOf(u, x.productId)
  {
    SameProductsIndexOf(u, Bumped(u, g'), x.productId);
    UnseenAvoids(u, g', x);
    IndexOfAppend(Bumped(u, g'), Unseen(u, g'), x.productId);
  }

  /** A guest line for a product the user has (at line `j`) raises that one user line. */
  lemma BumpFound(u: seq<LineItem>, g': seq<LineItem>, x: LineItem, j: int)
    requires UniqueProducts(u) && 0 <= j < |u| && u[j].productId == x.productId
    ensures var b := Bumped(u, g');
      b[j := Raised(b[j], x.quantity)] == Bumped(u, g' + [x])
  {
    var b, b' := Bumped(u, g'), Bumped(u, g' + [x]);
    var lhs := b[j := Raised(b[j], x.quantity)];
    assert |lhs| == |u| == |b'|;
    forall k | 0 <= k < |u| ensures lhs[k] == b'[k] {
      BumpFoundAtLine(u, g', x, j, k);
    }
  }

  lemma BumpFoundAtLine(u: seq<LineItem>, g': seq<LineItem>, x: LineItem, j: int, k: int)
    requires UniqueProducts(u) && 0 <= j < |u| && u[j].productId == x.productId && 0 <= k < |u|
    ensures var b := Bumped(u, g');
      b[j := Raised(b[j], x.quantity)][k] == Bumped(u, g' + [x])[k]
  {
    QtyAfterGuest(u, g', x, j, k);
  }

  /** The guest quantity of a user line's product grows by `x`'s quantity exactly at `x`'s product. */
  lemma QtyAfterGuest(u: seq<LineItem>, g': seq<LineItem>, x: LineItem, j: int, k: int)
    requires UniqueProducts(u) && 0 <= j < |u| && u[j].productId == x.productId && 0 <= k < |u|
    ensures QtyOf(g' + [x], u[k].productId) == QtyOf(g', u[k].productId) + (if k == j then x.quantity else 0)
  {
    QtySnoc(g', x, u[k].productId);
    if k != j {
      assert u[k].productId != u[j].productId;
    }
  }

  /** A guest line for a product the user lacks leaves the user lines alone. */
  lemma BumpNew(u: seq<LineItem>, g': seq<LineItem>, x: LineItem)
    requires IndexOf(u, x.productId) == -1
    ensures Bumped(u, g' + [x]) == Bumped(u, g')
  {
    forall k | 0 <= k < |u| ensures Bumped(u, g' + [x])[k] == Bumped(u, g')[k] {
      QtySnoc(g', x, u[k].productId);
    }
  }

  /**
    The merge semantics when both carts hold one line per product: the user's
    lines stay where they are, with the user's price and name, and gain the
    guest's quantity of the same product; the guest lines for other products
    follow, in guest order.
   */
  lemma {:induction false} MergeShape(u: seq<LineItem>, g: seq<LineItem>)
    requires UniqueProducts(u) && UniqueProducts(g)
    ensures MergeItems(u, g) == Bumped(u, g) + Unseen(u, g)
    decreases |g|
  {
    if g == [] {
      assert Bumped(u, g) == u;
    } else {
      var g', x := g[..|g| - 1], g[|g| - 1];
      assert g == g' + [x];
      assert UniqueProducts(g');
      MergeShape(u, g');
      LastGuest(u, g', x);
      MergeShapeStep(u, g', x);
    }
  }

  /** One guest line keeps the merge in the shape of MergeShape. */
  lemma MergeShapeStep(u: seq<LineItem>, g': seq<LineItem>, x: LineItem)
    requires UniqueProducts(u) && UniqueProducts(g' + [x])
    ensures MergeOne(Bumped(u, g') + Unseen(u, g'), x) == Bumped(u, g' + [x]) + Unseen(u, g' + [x])
  {
    if IndexOf(u, x.productId) >= 0 {
      StepFoundMerge(u, g', x);
    } else {
      StepNew(u, g', x);
    }
  }

  lemma StepFoundMerge(u: seq<LineItem>, g': seq<LineItem>, x: LineItem)
    requires UniqueProducts(u) && UniqueProducts(g' + [x]) && IndexOf(u, x.productId) >= 0
    ensures MergeOne(Bumped(u, g') + Unseen(u, g'), x) == Bumped(u, g' + [x]) + Unseen(u, g' + [x])
  {
    var j := IndexOf(u, x.productId);
    LookupInShape(u, g', x);
    BumpFound(u, g', x, j);
    MergeFoundInPrefix(Bumped(u, g'), Unseen(u, g'), x, j, Bumped(u, g' + [x]));
    UnseenSnoc(u, g', x);
    assert Unseen(u, g') + [] == Unseen(u, g');
  }

  lemma StepNew(u: seq<LineItem>, g': seq<LineItem>, x: LineItem)
    requires UniqueProducts(g' + [x]) && IndexOf(u, x.productId) == -1
    ensures MergeOne(Bumped(u, g') + Unseen(u, g'), x) == Bumped(u, g' + [x]) + Unseen(u, g' + [x])
  {
    var b, un := Bumped(u, g'), Unseen(u, g');
    calc {
      MergeOne(b + un, x);
      == { LookupInShape(u, g', x); }
      (b + un) + [x];
      == { assert (b + un) + [x] == b + (un + [x]); }
      b + (un + [x]);
      == { BumpNew(u, g', x); UnseenSnoc(u, g', x); }
      Bumped(u, g' + [x]) + Unseen(u, g' + [x]);
    }
  }

  /** Merging a line whose product sits at `j` in the first part raises it there. */
  lemma MergeFoundInPrefix(a: seq<LineItem>, b: seq<LineItem>, x: LineItem, j: int, c: seq<LineItem>)
    requires 0 <= j < |a| && IndexOf(a + b, x.productId) == j
    requires a[j := Raised(a[j], x.quantity)] == c
    ensures MergeOne(a + b, x) == c + b
  {
    MergeOneFound(a + b, x, j);
    BumpInPrefix(a, b, j, x.quantity, c);
  }

  /** Merging a line whose product sits at `j` raises that line. */
  lemma MergeOneFound(acc: seq<LineItem>, x: LineItem, j: int)
    requires 0 <= j < |acc| && IndexOf(acc, x.productId) == j
    ensures MergeOne(acc, x) == acc[j := Raised(acc[j], x.quantity)]
  {
  }

  /** Raising the quantity of a line in the first part of a concatenation. */
  lemma BumpInPrefix(a: seq<LineItem>, b: seq<LineItem>, j: int, d: int, c: seq<LineItem>)
    requires 0 <= j < |a| && a[j := Raised(a[j], d)] == c
    ensures (a + b)[j := Raised((a + b)[j], d)] == c + b
  {
    assert (a + b)[j] == a[j];
  }

  /** Any two lines of `s` for the same product have the same price. */
  predicate AgreedPrices(s: seq<LineItem>)
  {
    forall a, b :: 0 <= a < |s| && 0 <= b < |s| && s[a].productId == s[b].productId ==> s[a].price == s[b].price
  }

  lemma AgreedPricesPrefix(u: seq<LineItem>, g': seq<LineItem>, x: LineItem)
    requires AgreedPrices(u + g' + [x])
    ensures AgreedPrices(u + g')
  {
    var s, t := u + g', u + g' + [x];
    forall a, b | 0 <= a < |s| && 0 <= b < |s| && s[a].productId == s[b].productId
      ensures s[a].price == s[b].price
    {
      assert s[a] == t[a] && s[b] == t[b];
    }
  }

  /** Raising a line's quantity by `x`'s quantity at `x`'s price adds `x`'s amount to the total. */
  lemma SumBump(acc: seq<LineItem>, j: int, x: LineItem)
    requires 0 <= j < |acc| && acc[j].price == x.price
    ensures Sum(acc[j := Raised(acc[j], x.quantity)]) == Sum(acc) + LineTotal(x)
  {
    var y := Raised(acc[j], x.quantity);
    SumUpdate(acc, j, y);
    assert y.price * (acc[j].quantity + x.quantity) == y.price * acc[j].quantity + y.price * x.quantity;
  }

  /**
    When both carts priced every shared product alike, the merged total is the
    sum of the two totals. (A guest line's own price is dropped when its
    quantity joins a user line, so with differing prices this fails.)
   */
  lemma {:induction false} MergeTotal(u: seq<LineItem>, g: seq<LineItem>)
    requires UniqueProducts(u) && UniqueProducts(g) && AgreedPrices(u + g)
    ensures Sum(MergeItems(u, g)) == Sum(u) + Sum(g)
    decreases |g|
  {
    if g != [] {
      var g', x := g[..|g| - 1], g[|g| - 1];
      assert g == g' + [x];
      assert UniqueProducts(g');
      assert u + g == u + g' + [x];
      AgreedPricesPrefix(u, g', x);
      MergeTotal(u, g');
      LastGuest(u, g', x);
      TotalStep(u, g', x);
    }
  }

  /** One guest line adds its own amount to the merged total when prices agree. */
  lemma TotalStep(u: seq<LineItem>, g': seq<LineItem>, x: LineItem)
    requires UniqueProducts(u) && UniqueProducts(g' + [x]) && AgreedPrices(u + g' + [x])
    ensures Sum(MergeOne(MergeItems(u, g'), x)) == Sum(MergeItems(u, g')) + LineTotal(x)
  {
    assert UniqueProducts(g') by {
      forall a, b | 0 <= a < b < |g'| ensures g'[a].productId != g'[b].productId {
        assert (g' + [x])[a] == g'[a] && (g' + [x])[b] == g'[b];
      }
    }
    MergeShape(u, g');
    var j := IndexOf(u, x.productId);
    if j >= 0 {
      var s := u + g' + [x];
      assert s[j] == u[j] && s[|u| + |g'|] == x;
      AgreedAt(s, j, |u| + |g'|);
      TotalFound(u, g', x);
    } else {
      TotalNew(u, g', x);
    }
  }

  lemma AgreedAt(s: seq<LineItem>, a: int, b: int)
    requires AgreedPrices(s) && 0 <= a < |s| && 0 <= b < |s| && s[a].productId == s[b].productId
    ensures s[a].price == s[b].price
  {
  }

  lemma TotalFound(u: seq<LineItem>, g': seq<LineItem>, x: LineItem)
    requires UniqueProducts(g' + [x]) && IndexOf(u, x.productId) >= 0
    requires u[IndexOf(u, x.productId)].price == x.price
    requires MergeItems(u, g') == Bumped(u, g') + Unseen(u, g')
    ensures Sum(MergeOne(MergeItems(u, g'), x)) == Sum(MergeItems(u, g')) + LineTotal(x)
  {
    var j := IndexOf(u, x.productId);
    LookupInShape(u, g', x);
    PriceInShape(u, g', j);
    BumpTotal(MergeItems(u, g'), j, x);
  }

  /** The lines of the merge shape keep the user's prices in front. */
  lemma PriceInShape(u: seq<LineItem>, g': seq<LineItem>, j: int)
    requires 0 <= j < |u|
    ensures (Bumped(u, g') + Unseen(u, g'))[j].price == u[j].price
  {
    var b := Bumped(u, g');
    assert (b + Unseen(u, g'))[j] == b[j];
  }

  /** Merging a line into the one for its product at the same price adds the line's amount to the total. */
  lemma BumpTotal(acc: seq<LineItem>, j: int, x: LineItem)
    requires 0 <= j < |acc| && IndexOf(acc, x.productId) == j && acc[j].price == x.price
    ensures Sum(MergeOne(acc, x)) == Sum(acc) + LineTotal(x)
  {
    SumBump(acc, j, x);
  }

  lemma TotalNew(u: seq<LineItem>, g': seq<LineItem>, x: LineItem)
    requires UniqueProducts(g' + [x]) && IndexOf(u, x.productId) == -1
    requires MergeItems(u, g') == Bumped(u, g') + Unseen(u, g')
    ensures Sum(MergeOne(MergeItems(u, g'), x)) == Sum(MergeItems(u, g')) + LineTotal(x)
  {
    LookupInShape(u, g', x);
    var acc := MergeItems(u, g');
    SumAppend(acc, [x]);
    SumSingle(x);
  }

  /**
    The worked example: guest {A: 2 at 10}, user {A: 1 at 10, B: 1 at 5}
    merge to {A: 3 at 10, B: 1 at 5} with total 35.
   */
  lemma MergeExample()
    ensures MergeItems([LineItem("A", 1, 10, "a"), LineItem("B", 1, 5, "b")], [LineItem("A", 2, 10, "a")])
         == [LineItem("A", 3, 10, "a"), LineItem("B", 1, 5, "b")]
    ensures Sum([LineItem("A", 3, 10, "a"), LineItem("B", 1, 5, "b")]) == 35
  {
    var u := [LineItem("A", 1, 10, "a"), LineItem("B", 1, 5, "b")];
    var g := [LineItem("A", 2, 10, "a")];
    assert g[..0] == [];
    assert IndexOf(u, "A") == 0;
    var r := [LineItem("A", 3, 10, "a"), LineItem("B", 1, 5, "b")];
    assert r[..1] == [LineItem("A", 3, 10, "a")];
    assert r[..1][..0] == [];
  }

  // ---------------------------------------------------------------------------
  // The collection of carts

  /** No two carts have the same owner key. */
  predicate OwnersDistinct(carts: seq<Cart>)
  {
    forall i, j :: 0 <= i < j < |carts| ==> carts[i].owner != carts[j].owner
  }

  /** A cart whose lines are unique per product and whose total is their sum. */
  predicate Consistent(c: Cart)
  {
    UniqueProducts(c.items) && c.total == Sum(c.items)
  }

  predicate StoreInvariant(carts: seq<Cart>)
  {
    OwnersDistinct(carts) && forall i :: 0 <= i < |carts| ==> Consistent(carts[i])
  }

  /** No cart document carries the `user` field. */
  predicate NoUserField(carts: seq<Cart>)
  {
    forall i :: 0 <= i < |carts| ==> carts[i].user.None?
  }

  /** `Cart.findOne({ userId })` or `Cart.findOne({ guestId })`: the first cart with the key, or -1. */
  function FindCart(carts: seq<Cart>, key: Owner): (r: int)
    ensures -1 <= r < |carts|
    ensures r >= 0 ==> carts[r].owner == key && forall j :: 0 <= j < r ==> carts[j].owner != key
    ensures r == -1 ==> forall j :: 0 <= j < |carts| ==> carts[j].owner != key
  {
    if carts == [] then -1
    else if carts[0].owner == key then 0
    else
      var k := FindCart(carts[1..], key);
      if k == -1 then -1 else k + 1
  }

  /** With distinct owners a found cart is the only one with its key. */
  lemma FindCartOnly(carts: seq<Cart>, key: Owner)
    requires OwnersDistinct(carts)
    ensures FindCart(carts, key) >= 0 ==>
      forall j :: 0 <= j < |carts| && carts[j].owner == key ==> j == FindCart(carts, key)
  {
  }

  /** Rewriting a cart in place under the same owner keeps it findable where it is. */
  lemma FindCartWrite(carts: seq<Cart>, i: int, c: Cart)
    requires OwnersDistinct(carts) && 0 <= i < |carts| && c.owner == carts[i].owner
    ensures FindCart(carts[i := c], c.owner) == i
    ensures OwnersDistinct(carts[i := c])
  {
    IndexOfCartIs(carts[i := c], c.owner, i);
  }

  /** Writing a consistent cart in place of one with the same owner keeps the store invariant. */
  lemma WriteKeeps(carts: seq<Cart>, i: int, c: Cart)
    requires StoreInvariant(carts) && 0 <= i < |carts| && c.owner == carts[i].owner && Consistent(c)
    ensures StoreInvariant(carts[i := c])
    ensures NoUserField(carts) && c.user.None? ==> NoUserField(carts[i := c])
  {
    FindCartWrite(carts, i, c);
    var r := carts[i := c];
    forall k | 0 <= k < |r| ensures Consistent(r[k]) && (k != i ==> r[k] == carts[k]) {
      if k != i {
        assert Consistent(carts[k]);
      }
    }
  }

  /** A cart for a new owner key is found at the end. */
  lemma FindCartAppend(carts: seq<Cart>, c: Cart)
    requires FindCart(carts, c.owner) == -1
    ensures FindCart(carts + [c], c.owner) == |carts|
    ensures OwnersDistinct(carts) ==> OwnersDistinct(carts + [c])
  {
    IndexOfCartIs(carts + [c], c.owner, |carts|);
  }

  /** `cart.save()`: the document replaces the stored one with its owner key, or is added after the others. */
  function PutCart(carts: seq<Cart>, c: Cart): seq<Cart>
  {
    var i := FindCart(carts, c.owner);
    if i >= 0 then carts[i := c] else carts + [c]
  }

  /** Saving a consistent cart keeps the store invariant, and the cart is then found under its owner key. */
  lemma PutCartKeeps(carts: seq<Cart>, c: Cart)
    requires StoreInvariant(carts) && Consistent(c)
    ensures var r := PutCart(carts, c);
      && StoreInvariant(r)
      && 0 <= FindCart(r, c.owner) < |r| && r[FindCart(r, c.owner)] == c
      && |r| == |carts| + (if FindCart(carts, c.owner) >= 0 then 0 else 1)
    ensures NoUserField(carts) && c.user.None? ==> NoUserField(PutCart(carts, c))
  {
    var i := FindCart(carts, c.owner);
    if i >= 0 {
      FindCartWrite(carts, i, c);
      WriteKeeps(carts, i, c);
    } else {
      FindCartAppend(carts, c);
      AppendKeeps(carts, c);
    }
  }

  /** Appending a consistent cart for an owner no cart has keeps the store invariant. */
  lemma AppendKeeps(carts: seq<Cart>, c: Cart)
    requires StoreInvariant(carts) && FindCart(carts, c.owner) == -1 && Consistent(c)
    ensures StoreInvariant(carts + [c])
    ensures NoUserField(carts) && c.user.None? ==> NoUserField(carts + [c])
  {
    FindCartAppend(carts, c);
    var r := carts + [c];
    forall k | 0 <= k < |r| ensures Consistent(r[k]) && (k < |carts| ==> r[k] == carts[k]) {
      if k < |carts| {
        assert Consistent(carts[k]);
      }
    }
  }

  /** The first-match property determines FindCart. */
  lemma IndexOfCartIs(carts: seq<Cart>, key: Owner, r: int)
    requires 0 <= r < |carts| && carts[r].owner == key
    requires forall j :: 0 <= j < r ==> carts[j].owner != key
    ensures FindCart(carts, key) == r
  {
  }

  /** Handing a cart to an owner key no cart has: the old key disappears and the new one is found there. */
  lemma RelabelKeeps(carts: seq<Cart>, g: int, key: Owner)
    requires OwnersDistinct(carts) && 0 <= g < |carts| && FindCart(carts, key) == -1
    ensures var r := carts[g := Relabelled(carts[g], key)];
      OwnersDistinct(r) && FindCart(r, key) == g && FindCart(r, carts[g].owner) == -1
    ensures var r := carts[g := Relabelled(carts[g], key)];
      && (StoreInvariant(carts) ==> StoreInvariant(r))
      && (NoUserField(carts) ==> NoUserField(r))
  {
    var r := carts[g := Relabelled(carts[g], key)];
    IndexOfCartIs(r, key, g);
    assert forall j :: 0 <= j < |r| ==> r[j].owner != carts[g].owner;
  }

  /**
    Replacing the user cart by the merge and deleting the guest cart keeps the
    invariant, leaves no cart under the guest key and keeps the user cart.
   */
  lemma MergeStoreKeeps(carts: seq<Cart>, u: int, g: int, items: seq<LineItem>)
    requires StoreInvariant(carts) && 0 <= u < |carts| && 0 <= g < |carts| && u != g
    requires UniqueProducts(items)
    ensures var r := RemoveAt(carts[u := WithItems(carts[u], items, Sum(items))], g);
      && StoreInvariant(r)
      && FindCart(r, carts[g].owner) == -1
      && FindCart(r, carts[u].owner) >= 0
      && (NoUserField(carts) ==> NoUserField(r))
  {
    var updated := carts[u := WithItems(carts[u], items, Sum(items))];
    assert StoreInvariant(updated);
    RemoveCartKeeps(updated, g);
    var r := RemoveAt(updated, g);
    var u' := if u < g then u else u - 1;
    assert r[u'] == updated[u];
  }

  /** Deleting a cart keeps the invariant and the absence of the `user` field. */
  lemma RemoveCartKeeps(carts: seq<Cart>, i: int)
    requires 0 <= i < |carts|
    ensures StoreInvariant(carts) ==> StoreInvariant(RemoveAt(carts, i))
    ensures NoUserField(carts) ==> NoUserField(RemoveAt(carts, i))
    ensures StoreInvariant(carts) ==> FindCart(RemoveAt(carts, i), carts[i].owner) == -1
  {
    var r := RemoveAt(carts, i);
    if StoreInvariant(carts) {
      forall a, b | 0 <= a < b < |r| ensures r[a].owner != r[b].owner {
        var a', b' := if a < i then a else a + 1, if b < i then b else b + 1;
        assert r[a] == carts[a'] && r[b] == carts[b'] && a' < b';
      }
      forall j | 0 <= j < |r| ensures r[j].owner != carts[i].owner {
        var j' := if j < i then j else j + 1;
        assert r[j] == carts[j'] && j' != i;
      }
    }
  }

  /**
    The item update of `addToCart`: the existing line for the product is
    rewritten in place, or a new line is pushed.
   */
  method UpsertLine(items: seq<LineItem>, productId: ProductId, quantity: int, product: Product)
    returns (r: seq<LineItem>)
    ensures r == Upsert(items, productId, quantity, product)
  {
    r := items;
    var j := IndexOf(r, productId);
    if j >= 0 {
      r := r[j := Refreshed(r[j], quantity, product)];
    } else {
      r := r + [LineItem(productId, quantity, product.price, product.name)];
    }
  }

  /** The store of cart documents behind the cart endpoints. */
  class CartStore {
    var carts: seq<Cart>

    predicate Valid()
      reads this
    {
      StoreInvariant(carts)
    }

    constructor ()
      ensures Valid() && carts == []
    {
      carts := [];
    }

    /**
      `getCart`: the cart of the authenticated user, else of a non-empty
      session id; `{ items: [], total: 0 }` when there is none.
     */
    function GetCart(user: Option<string>, sessionId: string): (r: Reply)
      reads this
      ensures r.Contents?
      ensures user.None? && sessionId == "" ==> r == Contents([], 0)
      ensures Valid() ==> r.total == Sum(r.items) && UniqueProducts(r.items)
      // A signed-in user sees the cart filed under their id, a guest with a
      // session the session's cart; a caller without a cart of their own sees
      // an empty one, so a signed-in user never sees the session's cart.
      ensures user.Some? || sessionId != "" ==>
        var key := CartIdentifier(user, sessionId);
        && (Valid() ==> forall j :: 0 <= j < |carts| && carts[j].owner == key ==> r == Contents(carts[j].items, carts[j].total))
        && ((forall j :: 0 <= j < |carts| ==> carts[j].owner != key) ==> r == Contents([], 0))
    {
      var key := CartIdentifier(user, sessionId);
      assert OwnersDistinct(carts) ==> FindCart(carts, key) >= 0 ==>
          forall j :: 0 <= j < |carts| && carts[j].owner == key ==> j == FindCart(carts, key) by {
        if OwnersDistinct(carts) {
          FindCartOnly(carts, key);
        }
      }
      var i := if user.Some? then FindCart(carts, User(user.value))
               else if sessionId != "" then FindCart(carts, Guest(sessionId))
               else -1;
      if i >= 0 then Contents(carts[i].items, carts[i].total) else Contents([], 0)
    }

    /**
      `addToCart`: an unknown product fails and changes nothing; otherwise the
      owner's cart (created on first use) gets the line written by Upsert and
      the recomputed total, and the reply is that cart.
     */
    method AddToCart(user: Option<string>, sessionId: string, productId: ProductId, quantity: int,
                     catalog: map<ProductId, Product>) returns (reply: Reply)
      requires Valid()
      modifies this
      ensures Valid()
      ensures NoUserField(old(carts)) ==> NoUserField(carts)
      ensures productId !in catalog ==> reply == Failure(404, "Product not found") && carts == old(carts)
      ensures productId in catalog ==>
        var key := CartIdentifier(user, sessionId);
        var i := FindCart(old(carts), key);
        var base := if i >= 0 then old(carts)[i] else EmptyCart(key);
        var items := Upsert(base.items, productId, quantity, catalog[productId]);
        && carts == PutCart(old(carts), WithItems(base, items, Sum(items)))
        && reply == Contents(items, Sum(items))
      ensures productId in catalog && (user.Some? || sessionId != "") ==> GetCart(user, sessionId) == reply
    {
      if productId !in catalog {
        reply := Failure(404, "Product not found");
        return;
      }
      var product := catalog[productId];
      var key := CartIdentifier(user, sessionId);
      var i := FindCart(carts, key);
      var cart := if i >= 0 then carts[i] else EmptyCart(key);
      assert UniqueProducts(cart.items);
      UpsertPlaces(cart.items, productId, quantity, product);
      var items := UpsertLine(cart.items, productId, quantity, product);
      var total := ComputeTotal(items);
      cart := WithItems(cart, items, total);
      PutCartKeeps(carts, cart);
      carts := PutCart(carts, cart);
      reply := Contents(cart.items, cart.total);
      assert user.Some? || sessionId != "" ==> GetCart(user, sessionId) == reply by {
        var k := FindCart(carts, key);
        if user.Some? {
          assert FindCart(carts, User(user.value)) == k;
        } else if sessionId != "" {
          assert FindCart(carts, Guest(sessionId)) == k;
        }
      }
    }

    /**
      `removeFromCart`: no cart, or no line for the product, fails and changes
      nothing; otherwise the first line for the product is removed and the
      total recomputed.
     */
    method RemoveFromCart(user: Option<string>, sessionId: string, productId: ProductId) returns (reply: Reply)
      requires Valid()
      modifies this
      ensures Valid()
      ensures NoUserField(old(carts)) ==> NoUserField(carts)
      ensures var i := FindCart(old(carts), CartIdentifier(user, sessionId));
        i == -1 ==> reply == Failure(404, "Cart not found") && carts == old(carts)
      ensures var i := FindCart(old(carts), CartIdentifier(user, sessionId));
        i >= 0 && IndexOf(old(carts)[i].items, productId) == -1 ==>
          reply == Failure(404, "Product not found in cart") && carts == old(carts)
      ensures var i := FindCart(old(carts), CartIdentifier(user, sessionId));
        i >= 0 && IndexOf(old(carts)[i].items, productId) >= 0 ==>
          var items := RemoveAt(old(carts)[i].items, IndexOf(old(carts)[i].items, productId));
          && carts == old(carts)[i := WithItems(old(carts)[i], items, Sum(items))]
          && reply == Contents(items, Sum(items))
          && IndexOf(items, productId) == -1
    {
      var key := CartIdentifier(user, sessionId);
      var i := FindCart(carts, key);
      if i == -1 {
        reply := Failure(404, "Cart not found");
        return;
      }
      var cart := carts[i];
      assert UniqueProducts(cart.items);
      var itemIndex := IndexOf(cart.items, productId);
      if itemIndex == -1 {
        reply := Failure(404, "Product not found in cart");
        return;
      }
      RemoveFirstMatch(cart.items, productId);
      SumRemove(cart.items, itemIndex);
      var items := RemoveAt(cart.items, itemIndex);
      var total := ComputeTotal(items);
      cart := WithItems(cart, items, total);
      WriteKeeps(carts, i, cart);
      carts := carts[i := cart];
      reply := Contents(cart.items, cart.total);
    }

    /**
      `checkout`: a missing or empty cart fails and changes nothing; an
      authenticated user's cart is emptied; a guest's cart is left as it is
      and returned with a request to log in.
     */
    method Checkout(user: Option<string>, sessionId: string) returns (reply: Reply)
      requires Valid()
      modifies this
      ensures Valid()
      ensures NoUserField(old(carts)) ==> NoUserField(carts)
      ensures var i := FindCart(old(carts), CartIdentifier(user, sessionId));
        i == -1 || old(carts)[i].items == [] ==> reply == Failure(400, "Cart is empty") && carts == old(carts)
      ensures var i := FindCart(old(carts), CartIdentifier(user, sessionId));
        i >= 0 && old(carts)[i].items != [] && user.Some? ==>
          carts == old(carts)[i := Emptied(old(carts)[i])] && reply == Notice("Checkout successful")
      ensures var i := FindCart(old(carts), CartIdentifier(user, sessionId));
        i >= 0 && old(carts)[i].items != [] && user.None? ==>
          carts == old(carts)
          && reply == GuestCheckout(old(carts)[i].items, old(carts)[i].total, "Please login to complete checkout")
    {
      var key := CartIdentifier(user, sessionId);
      var i := FindCart(carts, key);
      if i == -1 || |carts[i].items| == 0 {
        reply := Failure(400, "Cart is empty");
        return;
      }
      var cart := carts[i];
      if user.Some? {
        cart := cart.(items := []);
        cart := cart.(total := 0);
        carts := carts[i := cart];
        reply := Notice("Checkout successful");
        return;
      }
      reply := GuestCheckout(cart.items, cart.total, "Please login to complete checkout");
    }

    /**
      `mergeCarts` for the authenticated user `userId` and the session
      `sessionId`: without a guest cart nothing changes; with both carts the
      guest lines are merged into the user cart, its total is recomputed and
      the guest cart is deleted; with only a guest cart it is relabelled to
      the user where it stands, items and total untouched.
     */
    method MergeCarts(userId: string, sessionId: string) returns (reply: Reply)
      requires Valid()
      modifies this
      ensures Valid()
      ensures NoUserField(old(carts)) ==> NoUserField(carts)
      ensures var g := FindCart(old(carts), Guest(sessionId));
        g == -1 ==> carts == old(carts) && reply == Notice("No guest cart to merge")
      ensures var g := FindCart(old(carts), Guest(sessionId)); var u := FindCart(old(carts), User(userId));
        g >= 0 && u >= 0 ==>
          var items := MergeItems(old(carts)[u].items, old(carts)[g].items);
          && carts == RemoveAt(old(carts)[u := WithItems(old(carts)[u], items, Sum(items))], g)
          && reply == Notice("Carts merged successfully")
      ensures var g := FindCart(old(carts), Guest(sessionId)); var u := FindCart(old(carts), User(userId));
        g >= 0 && u == -1 ==>
          && carts == old(carts)[g := Relabelled(old(carts)[g], User(userId))]
          && reply == Notice("Carts merged successfully")
      ensures FindCart(old(carts), Guest(sessionId)) >= 0 ==>
        FindCart(carts, Guest(sessionId)) == -1 && FindCart(carts, User(userId)) >= 0
    {
      var g := FindCart(carts, Guest(sessionId));
      var u := FindCart(carts, User(userId));
      if g == -1 {
        reply := Notice("No guest cart to merge");
        return;
      }
      var guestCart := carts[g];
      if u >= 0 {
        var userCart := carts[u];
        MergeUnique(userCart.items, guestCart.items);
        var items := MergeInto(userCart.items, guestCart.items);
        var total := ComputeTotal(items);
        MergeStoreKeeps(carts, u, g, items);
        userCart := WithItems(userCart, items, total);
        carts := RemoveAt(carts[u := userCart], g);
      } else {
        RelabelKeeps(carts, g, User(userId));
        guestCart := Relabelled(guestCart, User(userId));
        carts := carts[g := guestCart];
      }
      reply := Notice("Carts merged successfully");
    }
  }

  /**
    A signed-in user's view of the cart does not depend on the session: the
    guest cart of the same browser is not shown until it is merged.
   */
  lemma SignedInIgnoresSession(store: CartStore, userId: string, s1: string, s2: string)
    ensures store.GetCart(Some(userId), s1) == store.GetCart(Some(userId), s2)
  {
  }
}
