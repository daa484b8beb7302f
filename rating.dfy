/**
  The rating controller: validation of a submitted rating, the name it is
  shown under, the stored record, the paginated listings of a product's
  ratings and reviews, and the featured-reviews selection for the home page.

  A rating value is a JavaScript number, modelled as a `real`; the
  collection keeps ratings in insertion order, and "newest first" is the
  reverse of that order.
 */
module RatingController {
  import opened Js
  import opened JsString
  import opened MongoCursor

  /** A stored rating document. */
  datatype Rating = Rating(
    productId: string,
    userId: Option<string>,
    userName: string,
    rating: real,
    review: string,
    featured: bool)

  /** The fields of the request body that the controller reads. */
  datatype RatingBody = RatingBody(
    productId: Option<string>,
    rating: Option<real>,
    review: Option<string>,
    userName: Option<string>)

  /** The parts of a user account the display name is taken from. */
  datatype Account = Account(name: Option<string>, email: string)

  /** The reply of the create endpoint. */
  datatype CreateReply = Created(rating: Rating) | Rejected(status: int, message: string)

  // ---------------------------------------------------------------------------
  // Validation and display name

  /** `!rating` is false: the rating is present and not zero. */
  predicate RatingGiven(body: RatingBody)
  {
    body.rating.Some? && body.rating.value != 0.0
  }

  /** A body the endpoint goes on with: a product id, and a rating from 1 up to 5. */
  predicate Acceptable(body: RatingBody)
  {
    TruthyStr(body.productId) && body.rating.Some? && 1.0 <= body.rating.value <= 5.0
  }

  /**
    The basic validation: missing fields are reported before the range is
    looked at; `None` means the body passes.
   */
  function CheckBody(body: RatingBody): (e: Option<string>)
    ensures e.None? <==> Acceptable(body)
    ensures !TruthyStr(body.productId) || !RatingGiven(body) ==>
      e == Some("Product ID and rating are required")
    ensures TruthyStr(body.productId) && RatingGiven(body) && !(1.0 <= body.rating.value <= 5.0) ==>
      e == Some("Rating must be between 1 and 5")
  {
    if !TruthyStr(body.productId) || !RatingGiven(body) then Some("Product ID and rating are required")
    else if body.rating.value < 1.0 || body.rating.value > 5.0 then Some("Rating must be between 1 and 5")
    else None
  }

  /** `email.split('@')[0]`. */
  function LocalPart(email: string): (r: string)
    ensures '@' !in r && |r| <= |email| && r == email[..|r|]
    ensures |r| < |email| ==> email[|r|] == '@'
  {
    SplitFirstPiece(email, '@');
    Split(email, '@')[0]
  }

  /**
    The name a rating is shown under. `account` is the user found for the
    authenticated id, if any: their name, else the part of their email before
    the first `@`, else the supplied `userName`, else "Anonymous".
   */
  function DisplayName(userName: Option<string>, account: Option<Account>): (r: string)
    ensures r != ""
    ensures account.Some? && TruthyStr(account.value.name) ==> r == account.value.name.value
    ensures account.Some? && !TruthyStr(account.value.name) && LocalPart(account.value.email) != "" ==>
      r == LocalPart(account.value.email)
    ensures (account.None? || (!TruthyStr(account.value.name) && LocalPart(account.value.email) == "")) ==>
      r == StrOr(userName, "Anonymous")
  {
    var displayName := StrOr(userName, "Anonymous");
    match account
    case None => displayName
    case Some(user) => StrOr(user.name, StrOr(Some(LocalPart(user.email)), displayName))
  }

  /** The supplied name is used when there is no account, and "Anonymous" when none is supplied either. */
  lemma AnonymousFallback(userName: Option<string>)
    ensures DisplayName(userName, None) == (if TruthyStr(userName) then userName.value else "Anonymous")
  {
  }

  /** An email that starts with `@` yields no local part, so the supplied name is used. */
  lemma EmailStartingWithAt(email: string, userName: Option<string>)
    requires email != [] && email[0] == '@'
    ensures DisplayName(userName, Some(Account(None, email))) == StrOr(userName, "Anonymous")
  {
  }

  /** A stored collection every created rating keeps: ratings from 1 to 5 and a non-empty name. */
  predicate WellFormed(ratings: seq<Rating>)
  {
    forall i :: 0 <= i < |ratings| ==> 1.0 <= ratings[i].rating <= 5.0 && ratings[i].userName != ""
  }

  /** The rating collection behind the rating endpoints. */
  class RatingStore {
    var ratings: seq<Rating>

    constructor ()
      ensures ratings == []
    {
      ratings := [];
    }

    /**
      `createOrUpdateRating`. `authId` is the authenticated user's id, if any,
      and `account` the user found for it; `products` the ids of existing
      products. A rejected body or an unknown product adds nothing; otherwise
      exactly one rating is appended, never featured, with the review `''`
      when none was supplied.
     */
    method CreateOrUpdateRating(authId: Option<string>, account: Option<Account>, body: RatingBody,
                                products: set<string>) returns (reply: CreateReply)
      modifies this
      ensures CheckBody(body).Some? ==>
        reply == Rejected(400, CheckBody(body).value) && ratings == old(ratings)
      ensures Acceptable(body) && body.productId.value !in products ==>
        reply == Rejected(404, "Product not found") && ratings == old(ratings)
      ensures Acceptable(body) && body.productId.value in products ==>
        && reply == Created(Rating(body.productId.value, authId,
                                   DisplayName(body.userName, if authId.Some? then account else None),
                                   body.rating.value, StrOr(body.review, ""), false))
        && ratings == old(ratings) + [reply.rating]
      ensures WellFormed(old(ratings)) ==> WellFormed(ratings)
    {
      var userId: Option<string> := None;
      var displayName := StrOr(body.userName, "Anonymous");
      if authId.Some? {
        userId := authId;
        if account.Some? {
          displayName := StrOr(account.value.name, StrOr(Some(LocalPart(account.value.email)), displayName));
        }
      }
      var e := CheckBody(body);
      if e.Some? {
        reply := Rejected(400, e.value);
        return;
      }
      var productId := body.productId.value;
      if productId !in products {
        reply := Rejected(404, "Product not found");
        return;
      }
      var newRating := Rating(productId, userId, displayName, body.rating.value, StrOr(body.review, ""), false);
      ratings := ratings + [newRating];
      reply := Created(newRating);
    }
  }

  // ---------------------------------------------------------------------------
  // Queries

  /** The filters the listing queries use. */
  datatype Query =
    | OfProduct(pid: string)
    | ReviewsOf(pid: string)
    | FeaturedWithText
    | OthersWithText

  /** A review counts when its text is present and not empty (`$exists` and `$ne: ''`). */
  predicate Matches(q: Query, r: Rating)
  {
    match q
    case OfProduct(pid) => r.productId == pid
    case ReviewsOf(pid) => r.productId == pid && r.review != ""
    case FeaturedWithText => r.featured && r.review != ""
    case OthersWithText => !r.featured && r.review != ""
  }

  /** `find(q)` in natural order: the matching ratings, in the order they were stored. */
  function Select(s: seq<Rating>, q: Query): (r: seq<Rating>)
    ensures |r| <= |s|
    ensures forall x :: x in r ==> x in s && Matches(q, x)
    ensures forall x :: x in s && Matches(q, x) ==> x in r
  {
    if s == [] then []
    else (if Matches(q, s[0]) then [s[0]] else []) + Select(s[1..], q)
  }

  /** Selection keeps the stored order: selecting from two runs is selecting from each, in turn. */
  lemma {:induction false} SelectAppend(s: seq<Rating>, t: seq<Rating>, q: Query)
    ensures Select(s + t, q) == Select(s, q) + Select(t, q)
  {
    if s == [] {
      assert s + t == t;
    } else {
      assert (s + t)[0] == s[0];
      assert (s + t)[1..] == s[1..] + t;
      SelectAppend(s[1..], t, q);
    }
  }

  /** One stored rating is selected exactly when it matches, and once. */
  lemma SelectOne(x: Rating, q: Query)
    ensures Select([x], q) == if Matches(q, x) then [x] else []
  {
    assert [x][1..] == [];
  }

  /** `.sort({ createdAt: -1 })`: the most recently stored first. */
  function NewestFirst(s: seq<Rating>): (r: seq<Rating>)
    ensures |r| == |s|
    ensures forall i :: 0 <= i < |r| ==> r[i] == s[|s| - 1 - i]
  {
    if s == [] then [] else [s[|s| - 1]] + NewestFirst(s[..|s| - 1])
  }

  lemma NewestFirstSameElements(s: seq<Rating>)
    ensures forall x :: x in NewestFirst(s) <==> x in s
  {
    var r := NewestFirst(s);
    forall x | x in s ensures x in r {
      var i :| 0 <= i < |s| && s[i] == x;
      assert r[|s| - 1 - i] == x;
    }
  }

  /** `Math.ceil(total / limit)`. */
  function PagesCount(total: nat, limit: int): (pages: int)
    requires limit != 0
    ensures (pages - 1) as real < (total as real) / (limit as real) <= pages as real
  {
    if limit > 0 then CeilPositive(total, limit) else -FloorPositive(total, -limit)
  }

  function CeilPositive(t: nat, l: int): (k: int)
    requires l > 0
    ensures (k - 1) as real < (t as real) / (l as real) <= k as real
  {
    var k := (t + l - 1) / l;
    assert (k - 1) * l < t <= k * l;
    RealDivBounds(t, l, k - 1);
    RealDivBounds(t, l, k);
    k
  }

  function FloorPositive(t: nat, m: int): (q: int)
    requires m > 0
    ensures q as real <= (t as real) / (m as real) < (q + 1) as real
    ensures -((t as real) / (m as real)) == (t as real) / ((-m) as real)
  {
    var q := t / m;
    assert q * m <= t < (q + 1) * m;
    RealDivBounds(t, m, q);
    RealDivBounds(t, m, q + 1);
    q
  }

  /** Comparing a quotient with an integer is comparing the dividend with a product. */
  lemma RealDivBounds(t: int, l: int, k: int)
    requires l > 0
    ensures (t as real) / (l as real) <= k as real <==> t <= k * l
    ensures k as real < (t as real) / (l as real) <==> k * l < t
  {
    var x := (t as real) / (l as real);
    assert x * (l as real) == t as real;
    assert (k * l) as real == (k as real) * (l as real);
  }

  /**
    With a positive limit a page has ratings exactly when its number is at
    most `pages`.
   */
  lemma PageNonEmptyUpToPages(total: nat, limit: int, page: int)
    requires limit > 0 && page >= 1
    ensures (page - 1) * limit < total <==> page <= PagesCount(total, limit)
  {
    var k := PagesCount(total, limit);
    PagesCountBounds(total, limit);
    if page <= k {
      MulMonotone(page - 1, k - 1, limit);
    } else {
      MulMonotone(k, page - 1, limit);
    }
  }

  /** With a positive limit, `pages` full pages hold all ratings and one fewer do not. */
  lemma PagesCountBounds(total: nat, limit: int)
    requires limit > 0
    ensures (PagesCount(total, limit) - 1) * limit < total <= PagesCount(total, limit) * limit
  {
    var k := PagesCount(total, limit);
    RealDivBounds(total, limit, k);
    RealDivBounds(total, limit, k - 1);
  }

  lemma MulMonotone(a: int, b: int, l: int)
    requires a <= b && l > 0
    ensures a * l <= b * l
  {
    assert b * l - a * l == (b - a) * l;
  }

  /** The JSON reply of a listing endpoint. */
  datatype Listing =
    | Listing(count: int, total: int, page: int, pages: int, data: seq<Rating>)
    | ServerError(message: string)

  /**
    A paginated listing of the ratings that match `q`, newest first. A
    negative skip (a page below 1 with a positive limit) is refused by the
    database and reported as a server error.
   */
  function Paginate(ratings: seq<Rating>, q: Query, pageQ: Option<int>, limitQ: Option<int>): (r: Listing)
    ensures var p := PagingOf(pageQ, limitQ, 10); p.skip < 0 <==> r.ServerError?
    ensures r.Listing? ==>
      var p := PagingOf(pageQ, limitQ, 10);
      var all := NewestFirst(Select(ratings, q));
      && r.page == p.page
      && r.total == |all|
      && r.count == |r.data| <= Abs(p.limit)
      && r.data == Window(all, p.skip, p.limit)
      && r.pages == PagesCount(|all|, p.limit)
      && forall x :: x in r.data ==> x in ratings && Matches(q, x)
  {
    var p := PagingOf(pageQ, limitQ, 10);
    if p.skip < 0 then ServerError("Server error")
    else
      var all := NewestFirst(Select(ratings, q));
      NewestFirstSameElements(Select(ratings, q));
      var data := Window(all, p.skip, p.limit);
      assert forall x :: x in data ==> x in all;
      Listing(|data|, |all|, p.page, PagesCount(|all|, p.limit), data)
  }

  /** `getProductRatings`: a product's ratings, newest first, ten to a page by default. */
  function ProductRatings(ratings: seq<Rating>, productId: string, pageQ: Option<int>, limitQ: Option<int>): (r: Listing)
    ensures r.Listing? ==> forall x :: x in r.data ==> x in ratings && x.productId == productId
  {
    Paginate(ratings, OfProduct(productId), pageQ, limitQ)
  }

  /** `getProductReviews`: the same listing restricted to ratings with review text. */
  function ProductReviews(ratings: seq<Rating>, productId: string, pageQ: Option<int>, limitQ: Option<int>): (r: Listing)
    ensures r.Listing? ==> forall x :: x in r.data ==> x in ratings && x.productId == productId && x.review != ""
  {
    Paginate(ratings, ReviewsOf(productId), pageQ, limitQ)
  }

  /** Without query parameters the first ten matches, newest first, are listed. */
  lemma DefaultListing(ratings: seq<Rating>, q: Query)
    ensures var r := Paginate(ratings, q, None, None); var all := NewestFirst(Select(ratings, q));
      r.Listing? && r.page == 1 && r.data == all[..Min(10, |all|)]
  {
  }

  // ---------------------------------------------------------------------------
  // Featured reviews

  /** Featured ratings with text, newest first. */
  function FeaturedPool(ratings: seq<Rating>): seq<Rating>
  {
    NewestFirst(Select(ratings, FeaturedWithText))
  }

  /** Ratings with text that are not featured, newest first. */
  function OtherPool(ratings: seq<Rating>): seq<Rating>
  {
    NewestFirst(Select(ratings, OthersWithText))
  }

  /**
    `getFeaturedReviews`: up to `limit` (default 3) featured reviews, topped
    up with the most recent other reviews when there are fewer than `limit`.
   */
  function FeaturedReviews(ratings: seq<Rating>, limitQ: Option<int>): seq<Rating>
  {
    var limit := IntOr(limitQ, 3);
    var featured := Limit(FeaturedPool(ratings), limit);
    if |featured| < limit then featured + Limit(OtherPool(ratings), limit - |featured|)
    else featured
  }

  /** What the two pools hold. */
  lemma PoolsHold(ratings: seq<Rating>)
    ensures forall x :: x in FeaturedPool(ratings) ==> x in ratings && x.featured && x.review != ""
    ensures forall x :: x in OtherPool(ratings) ==> x in ratings && !x.featured && x.review != ""
  {
    NewestFirstSameElements(Select(ratings, FeaturedWithText));
    NewestFirstSameElements(Select(ratings, OthersWithText));
  }

  /**
    The selection: the newest featured reviews come first, and a top-up of
    the newest other reviews follows only when they are fewer than the
    limit; there are never more than the limit.
   */
  lemma FeaturedReviewsShape(ratings: seq<Rating>, limitQ: Option<int>)
    ensures var limit := IntOr(limitQ, 3); var r := FeaturedReviews(ratings, limitQ);
      var f := Limit(FeaturedPool(ratings), limit);
      && |r| <= Abs(limit)
      && r[..|f|] == f && f == FeaturedPool(ratings)[..|f|]
      && r[|f|..] == OtherPool(ratings)[..|r| - |f|]
      && (|r| > |f| ==> |f| < limit)
  {
    var limit := IntOr(limitQ, 3);
    var f := Limit(FeaturedPool(ratings), limit);
    var a := if |f| < limit then Limit(OtherPool(ratings), limit - |f|) else [];
    assert FeaturedReviews(ratings, limitQ) == f + a;
    assert (f + a)[..|f|] == f && (f + a)[|f|..] == a;
  }

  /**
    What the selection holds: featured reviews before the top-up and none
    after it, so nothing appears twice, and only stored ratings with text.
   */
  lemma FeaturedReviewsContent(ratings: seq<Rating>, limitQ: Option<int>)
    ensures var r := FeaturedReviews(ratings, limitQ); var f := Limit(FeaturedPool(ratings), IntOr(limitQ, 3));
      && (forall i :: 0 <= i < |f| ==> r[i].featured)
      && (forall i :: |f| <= i < |r| ==> !r[i].featured)
      && (forall i :: 0 <= i < |r| ==> r[i].review != "" && r[i] in ratings)
  {
    var fp, op := FeaturedPool(ratings), OtherPool(ratings);
    var f, r := Limit(fp, IntOr(limitQ, 3)), FeaturedReviews(ratings, limitQ);
    FeaturedReviewsShape(ratings, limitQ);
    PoolsHold(ratings);
    PrefixesJoined(ratings, fp, op, f, r);
  }

  /** A prefix `f` of the featured pool followed by a prefix of the other pool. */
  lemma PrefixesJoined(ratings: seq<Rating>, fp: seq<Rating>, op: seq<Rating>, f: seq<Rating>, r: seq<Rating>)
    requires |f| <= |r| && |f| <= |fp| && r[..|f|] == f == fp[..|f|]
    requires |r| - |f| <= |op| && r[|f|..] == op[..|r| - |f|]
    requires forall x :: x in fp ==> x in ratings && x.featured && x.review != ""
    requires forall x :: x in op ==> x in ratings && !x.featured && x.review != ""
    ensures forall i :: 0 <= i < |f| ==> r[i].featured
    ensures forall i :: |f| <= i < |r| ==> !r[i].featured
    ensures forall i :: 0 <= i < |r| ==> r[i].review != "" && r[i] in ratings
  {
    forall i | 0 <= i < |r| ensures r[i].review != "" && r[i] in ratings && (i < |f| <==> r[i].featured) {
      if i < |f| {
        assert r[i] == r[..|f|][i] == fp[i];
      } else {
        assert r[i] == r[|f|..][i - |f|] == op[i - |f|];
      }
    }
  }

  /** With a positive limit the home page shows as many reviews as there are, up to the limit. */
  lemma FeaturedReviewsCount(ratings: seq<Rating>, limitQ: Option<int>)
    requires IntOr(limitQ, 3) > 0
    ensures |FeaturedReviews(ratings, limitQ)| == Min(IntOr(limitQ, 3), |FeaturedPool(ratings)| + |OtherPool(ratings)|)
  {
  }
}
