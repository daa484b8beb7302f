/**
  The product controller's own logic: the file-name sanitiser, the page,
  skip and filter of the product listing, the documents `createProduct`
  builds (comma lists split and trimmed, the image URL) and the merge
  `updateProduct` performs, with its choice of image category.

  Request bodies and stored products are JSON objects (`Doc`). The regular
  expression engine is a parameter: `Regex.valid` says whether a pattern
  compiles, `Regex.test` whether a compiled case-insensitive pattern
  matches a text. Moving and deleting image files and the notification
  e-mail are not modelled.
 */
module ProductController {
  import opened Js
  import opened JsString
  import opened MongoCursor

  // ---------------------------------------------------------------------------
  // File names

  predicate IsAsciiAlnum(c: char)
  {
    'a' <= c <= 'z' || 'A' <= c <= 'Z' || '0' <= c <= '9'
  }

  /** The characters a sanitised file name is made of: `[a-z0-9-]`. */
  predicate IsSafe(c: char)
  {
    'a' <= c <= 'z' || '0' <= c <= '9' || c == '-'
  }

  /**
    A character outside the Basic Multilingual Plane. A Dafny `char` is a
    Unicode scalar value, while a JavaScript string holds UTF-16 code units:
    such a character is two code units (a surrogate pair) there.
   */
  predicate IsAstral(c: char)
  {
    c as int >= 0x1_0000
  }

  /** The number of UTF-16 code units of `s`, its JavaScript `length`. */
  function CodeUnitLength(s: string): (n: nat)
    ensures n >= |s|
  {
    if s == [] then 0 else (if IsAstral(s[0]) then 2 else 1) + CodeUnitLength(s[1..])
  }

  /**
    What `/[^a-zA-Z0-9]/g` puts in place of one character: the character
    itself when it is an ASCII letter or digit, otherwise one `-` per code
    unit (the pattern has no `u` flag, so it replaces each half of a
    surrogate pair).
   */
  function Replacement(c: char): string
  {
    if IsAsciiAlnum(c) then [c] else if IsAstral(c) then "--" else "-"
  }

  /** `s.replace(/[^a-zA-Z0-9]/g, "-")`. */
  function ReplaceNonAlnum(s: string): (r: string)
    ensures |r| == CodeUnitLength(s)
    ensures forall i :: 0 <= i < |r| ==> IsAsciiAlnum(r[i]) || r[i] == '-'
  {
    if s == [] then [] else Replacement(s[0]) + ReplaceNonAlnum(s[1..])
  }

  lemma {:induction false} ReplaceAppend(s: string, t: string)
    ensures ReplaceNonAlnum(s + t) == ReplaceNonAlnum(s) + ReplaceNonAlnum(t)
  {
    if s == [] {
      assert s + t == t;
    } else {
      assert (s + t)[0] == s[0];
      assert (s + t)[1..] == s[1..] + t;
      ReplaceAppend(s[1..], t);
    }
  }

  /**
    `sanitizeFileName`: non-alphanumerics become `-`, then the name is
    lowered. The result has as many characters as the name has code units.
   */
  function SanitizeFileName(fileName: string): (r: string)
    ensures |r| == CodeUnitLength(fileName)
    ensures forall i :: 0 <= i < |r| ==> IsSafe(r[i])
  {
    LowerAll(ReplaceNonAlnum(fileName))
  }

  /** Sanitising distributes over concatenation. */
  lemma SanitizeAppend(s: string, t: string)
    ensures SanitizeFileName(s + t) == SanitizeFileName(s) + SanitizeFileName(t)
  {
    ReplaceAppend(s, t);
    LowerAllAppend(ReplaceNonAlnum(s), ReplaceNonAlnum(t));
  }

  /** One character, sanitised. */
  lemma SanitizeOne(c: char)
    ensures ('A' <= c <= 'Z' ==> SanitizeFileName([c]) == [(c as int + 32) as char])
    ensures ('a' <= c <= 'z' || '0' <= c <= '9' ==> SanitizeFileName([c]) == [c])
    ensures (!IsAsciiAlnum(c) && !IsAstral(c) ==> SanitizeFileName([c]) == "-")
    ensures (!IsAsciiAlnum(c) && IsAstral(c) ==> SanitizeFileName([c]) == "--")
  {
    assert [c][1..] == [];
    assert ReplaceNonAlnum([c]) == Replacement(c);
  }

  /**
    The name is sanitised character by character: an upper-case ASCII letter
    becomes its lower-case letter, a lower-case letter or a digit stays, any
    other character of the BMP becomes one `-` and a character outside it
    two.
   */
  lemma SanitizeCharwise(a: string, c: char, b: string)
    ensures var l, r := SanitizeFileName(a), SanitizeFileName(b);
      var d := SanitizeFileName(a + [c] + b);
      && ('A' <= c <= 'Z' ==> d == l + [(c as int + 32) as char] + r)
      && ('a' <= c <= 'z' || '0' <= c <= '9' ==> d == l + [c] + r)
      && (!IsAsciiAlnum(c) && !IsAstral(c) ==> d == l + "-" + r)
      && (!IsAsciiAlnum(c) && IsAstral(c) ==> d == l + "--" + r)
  {
    SanitizeAppend(a + [c], b);
    SanitizeAppend(a, [c]);
    SanitizeOne(c);
  }

  /** A character outside the BMP fills two places of the sanitised name. */
  lemma AstralFileName()
    ensures SanitizeFileName("\U{1F600}.png") == "---png"
  {
    var s := "\U{1F600}.png";
    assert s[1..] == ".png" && s[1..][1..] == "png";
    assert "png"[1..] == "ng" && "ng"[1..] == "g" && "g"[1..] == [];
    assert ReplaceNonAlnum("g") == "g";
    assert ReplaceNonAlnum("ng") == "ng";
    assert ReplaceNonAlnum("png") == "png";
    assert ReplaceNonAlnum(".png") == "-png";
    assert ReplaceNonAlnum(s) == "---png";
    assert LowerAll("---png") == "---png";
  }

  lemma {:induction false} ReplaceKeepsSafe(s: string)
    requires forall i :: 0 <= i < |s| ==> IsSafe(s[i])
    ensures ReplaceNonAlnum(s) == s
  {
    if s != [] {
      assert IsSafe(s[0]);
      assert forall i :: 0 <= i < |s[1..]| ==> IsSafe(s[1..][i]) by {
        forall i | 0 <= i < |s[1..]| ensures IsSafe(s[1..][i]) {
          assert s[1..][i] == s[i + 1];
        }
      }
      ReplaceKeepsSafe(s[1..]);
      assert s == [s[0]] + s[1..];
    }
  }

  /** The names the sanitiser leaves alone are exactly those already made of safe characters. */
  lemma SanitizeFixedPoints(fileName: string)
    ensures SanitizeFileName(fileName) == fileName <==> forall i :: 0 <= i < |fileName| ==> IsSafe(fileName[i])
  {
    if forall i :: 0 <= i < |fileName| ==> IsSafe(fileName[i]) {
      ReplaceKeepsSafe(fileName);
      forall i | 0 <= i < |fileName| ensures SanitizeFileName(fileName)[i] == fileName[i] {
        assert IsSafe(fileName[i]);
      }
    }
  }

  /** Sanitising twice is sanitising once. */
  lemma SanitizeIdempotent(fileName: string)
    ensures SanitizeFileName(SanitizeFileName(fileName)) == SanitizeFileName(fileName)
  {
    SanitizeFixedPoints(SanitizeFileName(fileName));
  }

  // ---------------------------------------------------------------------------
  // Listing

  /** JSON documents: request bodies and stored products. */
  type Doc = map<string, Json>

  /** The regular-expression engine the search relies on. */
  datatype Regex = Regex(valid: string -> bool, test: (string, string) -> bool)

  /** One condition of a query filter. */
  datatype Condition =
    | Equals(value: string)
      /** `$or` of the named fields, each matched against a case-insensitive pattern. */
    | AnyMatches(fields: seq<string>, pattern: string)

  type Filter = map<string, Condition>

  /** The filter of `getAllProducts`: a category when given, a name-or-category search when given. */
  function BuildFilter(categoryQ: Option<string>, searchQ: Option<string>): (f: Filter)
    ensures "category" in f <==> TruthyStr(categoryQ)
    ensures "category" in f ==> f["category"] == Equals(categoryQ.value)
    ensures "$or" in f <==> TruthyStr(searchQ)
    ensures "$or" in f ==> f["$or"] == AnyMatches(["name", "category"], searchQ.value)
    ensures f.Keys <= {"category", "$or"}
  {
    var filter: Filter := map[];
    var filter := if TruthyStr(categoryQ) then filter["category" := Equals(categoryQ.value)] else filter;
    if TruthyStr(searchQ) then filter["$or" := AnyMatches(["name", "category"], searchQ.value)] else filter
  }

  /** The text field `key` of `doc` matches `pattern`. */
  predicate FieldMatches(doc: Doc, key: string, pattern: string, regex: Regex)
  {
    key in doc && doc[key].Str? && regex.test(pattern, doc[key].s)
  }

  /** `doc` meets the condition on `key`. */
  predicate Holds(doc: Doc, key: string, c: Condition, regex: Regex)
  {
    match c
    case Equals(v) => key in doc && doc[key] == Str(v)
    case AnyMatches(fields, pattern) => exists k :: 0 <= k < |fields| && FieldMatches(doc, fields[k], pattern, regex)
  }

  /** `doc` meets every condition of the filter. */
  predicate Admits(f: Filter, doc: Doc, regex: Regex)
  {
    forall key :: key in f ==> Holds(doc, key, f[key], regex)
  }

  /**
    The listing's filter admits a product exactly when it is in the given
    category (if one is given) and its name or category matches the search
    (if one is given).
   */
  lemma FilterAdmits(categoryQ: Option<string>, searchQ: Option<string>, doc: Doc, regex: Regex)
    ensures Admits(BuildFilter(categoryQ, searchQ), doc, regex) <==>
      && (TruthyStr(categoryQ) ==> "category" in doc && doc["category"] == Str(categoryQ.value))
      && (TruthyStr(searchQ) ==>
            FieldMatches(doc, "name", searchQ.value, regex) || FieldMatches(doc, "category", searchQ.value, regex))
  {
    var f := BuildFilter(categoryQ, searchQ);
    if TruthyStr(searchQ) {
      var fields := ["name", "category"];
      assert fields[0] == "name" && fields[1] == "category";
      assert Holds(doc, "$or", f["$or"], regex) <==>
        FieldMatches(doc, "name", searchQ.value, regex) || FieldMatches(doc, "category", searchQ.value, regex);
    }
  }

  /** `find(filter)` in natural order. */
  function Filtered(docs: seq<Doc>, f: Filter, regex: Regex): (r: seq<Doc>)
    ensures |r| <= |docs|
    ensures forall x :: x in r ==> x in docs && Admits(f, x, regex)
    ensures forall x :: x in docs && Admits(f, x, regex) ==> x in r
  {
    if docs == [] then []
    else (if Admits(f, docs[0], regex) then [docs[0]] else []) + Filtered(docs[1..], f, regex)
  }

  /** Filtering keeps the stored order: filtering two runs is filtering each, in turn. */
  lemma {:induction false} FilteredAppend(s: seq<Doc>, t: seq<Doc>, f: Filter, regex: Regex)
    ensures Filtered(s + t, f, regex) == Filtered(s, f, regex) + Filtered(t, f, regex)
  {
    if s == [] {
      assert s + t == t;
    } else {
      var h := if Admits(f, s[0], regex) then [s[0]] else [];
      assert (s + t)[0] == s[0];
      assert (s + t)[1..] == s[1..] + t;
      calc {
        Filtered(s + t, f, regex);
        h + Filtered(s[1..] + t, f, regex);
        { FilteredAppend(s[1..], t, f, regex); }
        h + (Filtered(s[1..], f, regex) + Filtered(t, f, regex));
        (h + Filtered(s[1..], f, regex)) + Filtered(t, f, regex);
      }
    }
  }

  /** One stored document is kept exactly when the filter admits it, and once. */
  lemma FilteredOne(x: Doc, f: Filter, regex: Regex)
    ensures Filtered([x], f, regex) == if Admits(f, x, regex) then [x] else []
  {
    assert [x][1..] == [];
  }

  /** The reply of `getAllProducts`. */
  datatype ProductList = ProductList(products: seq<Doc>, total: nat) | ListFailure(status: int, message: string)

  /**
    `getAllProducts`: the requested page of matching products, ten to a
    page by default, and their total. A search pattern that does not compile
    and a negative skip both end in a server error.
   */
  function GetAllProducts(docs: seq<Doc>, pageQ: Option<int>, limitQ: Option<int>,
                          categoryQ: Option<string>, searchQ: Option<string>, regex: Regex): (r: ProductList)
    ensures r.ListFailure? ==> r == ListFailure(500, "Server error")
    ensures r.ListFailure? <==>
      (TruthyStr(searchQ) && !regex.valid(searchQ.value)) || PagingOf(pageQ, limitQ, 10).skip < 0
    ensures r.ProductList? ==>
      var p := PagingOf(pageQ, limitQ, 10);
      var all := Filtered(docs, BuildFilter(categoryQ, searchQ), regex);
      && r.total == |all|
      && r.products == Window(all, p.skip, p.limit)
      && |r.products| <= Abs(p.limit)
      && forall x :: x in r.products ==> x in docs && Admits(BuildFilter(categoryQ, searchQ), x, regex)
  {
    var p := PagingOf(pageQ, limitQ, 10);
    if TruthyStr(searchQ) && !regex.valid(searchQ.value) then ListFailure(500, "Server error")
    else if p.skip < 0 then ListFailure(500, "Server error")
    else
      var all := Filtered(docs, BuildFilter(categoryQ, searchQ), regex);
      var page := Window(all, p.skip, p.limit);
      assert forall x :: x in page ==> x in all;
      ProductList(page, |all|)
  }

  /** With a positive limit, page `page` is the window of `limit` products after the first `(page - 1) * limit`. */
  lemma ProductPage(docs: seq<Doc>, page: int, limit: int, skip: nat,
                    categoryQ: Option<string>, searchQ: Option<string>, regex: Regex)
    requires page >= 1 && limit > 0 && skip == (page - 1) * limit
    requires !TruthyStr(searchQ) || regex.valid(searchQ.value)
    ensures var r := GetAllProducts(docs, Some(page), Some(limit), categoryQ, searchQ, regex);
      && r.ProductList?
      && r.products == Window(Filtered(docs, BuildFilter(categoryQ, searchQ), regex), skip, limit)
  {
    assert PagingOf(Some(page), Some(limit), 10) == Paging(page, limit, skip);
  }

  /** The skip of a page with a positive limit is a count, and the next page skips one limit more. */
  lemma NextSkip(page: int, limit: int)
    requires page >= 1 && limit > 0
    ensures (page - 1) * limit >= 0 && (page + 1 - 1) * limit == (page - 1) * limit + limit
  {
    assert (page + 1 - 1) * limit == page * limit == (page - 1) * limit + limit;
  }

  /** With a positive limit, page `n + 1` continues exactly where page `n` stopped. */
  lemma ConsecutiveProductPages(docs: seq<Doc>, page: int, limit: int,
                                categoryQ: Option<string>, searchQ: Option<string>, regex: Regex)
    requires page >= 1 && limit > 0
    requires !TruthyStr(searchQ) || regex.valid(searchQ.value)
    ensures var a := GetAllProducts(docs, Some(page), Some(limit), categoryQ, searchQ, regex);
      var b := GetAllProducts(docs, Some(page + 1), Some(limit), categoryQ, searchQ, regex);
      var all := Filtered(docs, BuildFilter(categoryQ, searchQ), regex);
      && a.ProductList? && b.ProductList?
      && a.products + b.products == Window(all, (page - 1) * limit, 2 * limit)
  {
    NextSkip(page, limit);
    var skip := (page - 1) * limit;
    var all := Filtered(docs, BuildFilter(categoryQ, searchQ), regex);
    var a := GetAllProducts(docs, Some(page), Some(limit), categoryQ, searchQ, regex);
    var b := GetAllProducts(docs, Some(page + 1), Some(limit), categoryQ, searchQ, regex);
    ProductPage(docs, page, limit, skip, categoryQ, searchQ, regex);
    ProductPage(docs, page + 1, limit, skip + limit, categoryQ, searchQ, regex);
    calc {
      a.products + b.products;
      Window(all, skip, limit) + Window(all, skip + limit, limit);
      { WindowsAdjacent(all, skip, limit); }
      Window(all, skip, 2 * limit);
    }
  }

  // ---------------------------------------------------------------------------
  // Creating a product

  /** The uploaded image, as the upload middleware describes it. */
  datatype Upload = Upload(originalName: string)

  /** `.replace(/\\/g, "/")`. */
  function SlashesForward(s: string): (r: string)
    ensures |r| == |s|
    ensures forall i :: 0 <= i < |s| ==> r[i] == (if s[i] == '\\' then '/' else s[i])
  {
    seq(|s|, i requires 0 <= i < |s| => if s[i] == '\\' then '/' else s[i])
  }

  /**
    The image URL relative to the front end's public directory:
    `path.join("Ordinary", "Products", category, fileName)` with every
    backslash turned into `/`.
   */
  function ImageUrl(category: string, fileName: string): string
  {
    SlashesForward(Join(["Ordinary", "Products", category, fileName], '/'))
  }

  lemma SlashesForwardShape(s: string)
    ensures '\\' !in SlashesForward(s)
    ensures '\\' !in s ==> SlashesForward(s) == s
  {
  }

  /**
    An image URL has no backslash, and when neither the category nor the
    file name holds a separator, splitting it on `/` gives back its four
    segments.
   */
  lemma ImageUrlShape(category: string, fileName: string)
    ensures '\\' !in ImageUrl(category, fileName)
    ensures '/' !in category && '\\' !in category && '/' !in fileName && '\\' !in fileName ==>
      Split(ImageUrl(category, fileName), '/') == ["Ordinary", "Products", category, fileName]
  {
    var parts := ["Ordinary", "Products", category, fileName];
    SlashesForwardShape(Join(parts, '/'));
    if '/' !in category && '\\' !in category && '/' !in fileName && '\\' !in fileName {
      JoinAvoids(parts, '/', '\\');
      SplitJoin(parts, '/');
    }
  }

  /** Joining pieces free of `c` on a separator other than `c` gives a string free of `c`. */
  lemma {:induction false} JoinAvoids(parts: seq<string>, sep: char, c: char)
    requires c != sep && forall k :: 0 <= k < |parts| ==> c !in parts[k]
    ensures c !in Join(parts, sep)
  {
    if |parts| > 1 {
      JoinAvoids(parts[1..], sep, c);
    }
  }

  /** `s.split(",").map((x) => x.trim())` as stored: an array of strings. */
  function CommaList(s: string): (r: seq<Json>)
    ensures |r| == Count(s, ',') + 1
    ensures forall k :: 0 <= k < |r| ==> r[k] == Str(SplitTrim(s, ',')[k])
  {
    SplitTrimPieces(s, ',');
    var pieces := SplitTrim(s, ',');
    seq(|pieces|, k requires 0 <= k < |pieces| => Str(pieces[k]))
  }

  /**
    The stored list holds one trimmed, comma-free entry per comma-separated
    piece; a list written with trimmed, comma-free entries reads back as
    those entries.
   */
  lemma CommaListShape(s: string, entries: seq<string>)
    ensures forall k :: 0 <= k < |CommaList(s)| ==>
      CommaList(s)[k].Str? && IsTrimmed(CommaList(s)[k].s) && ',' !in CommaList(s)[k].s
    ensures |entries| >= 1 && (forall k :: 0 <= k < |entries| ==> IsTrimmed(entries[k]) && ',' !in entries[k]) ==>
      SplitTrim(Join(entries, ','), ',') == entries
  {
    SplitTrimPieces(s, ',');
    if |entries| >= 1 && forall k :: 0 <= k < |entries| ==> IsTrimmed(entries[k]) && ',' !in entries[k] {
      SplitJoin(entries, ',');
      var r := SplitTrim(Join(entries, ','), ',');
      forall k | 0 <= k < |entries| ensures r[k] == entries[k] {
        TrimmedIsFixed(entries[k]);
      }
    }
  }

  /** The outcome of `createProduct`: the document handed to `save`, or the error reply. */
  datatype Created = Created(doc: Doc) | CreateFailure(status: int, message: string)

  /** The body fields copied into the new product unchanged, when present. */
  const CopiedFields: set<string> := {"name", "category", "price", "description", "suitedTo"}

  /** The fields of `body` among `keys`. */
  function Pick(body: Doc, keys: set<string>): (r: Doc)
    ensures r.Keys == body.Keys * keys
    ensures forall k :: k in r ==> r[k] == body[k]
  {
    map k | k in body && k in keys :: body[k]
  }

  /** The body has a string under `key`. */
  predicate IsText(body: Doc, key: string)
  {
    key in body && body[key].Str?
  }

  /**
    `createProduct` up to `save`: an image is required; `path.join` refuses a
    category that is not a string and `split` a list that is not a string,
    each ending in a server error.
   */
  function CreateProduct(body: Doc, file: Option<Upload>): (r: Created)
    ensures file.None? ==> r == CreateFailure(400, "Product image is required")
    ensures file.Some? && r.CreateFailure? ==> r == CreateFailure(500, "Server error")
    ensures file.Some? ==>
      (r.Created? <==> IsText(body, "category") && IsText(body, "targets") && IsText(body, "keyIngredients"))
    ensures r.Created? ==>
      && r.doc.Keys == (body.Keys * CopiedFields) + {"targets", "keyIngredients", "image_url"}
      && (forall key :: key in CopiedFields && key in body ==> key in r.doc && r.doc[key] == body[key])
      && r.doc["targets"] == Arr(CommaList(body["targets"].s))
      && r.doc["keyIngredients"] == Arr(CommaList(body["keyIngredients"].s))
      && r.doc["image_url"] == Str(ImageUrl(body["category"].s, file.value.originalName))
  {
    if file.None? then CreateFailure(400, "Product image is required")
    else if !IsText(body, "category") then CreateFailure(500, "Server error")
    else if !IsText(body, "targets") then CreateFailure(500, "Server error")
    else if !IsText(body, "keyIngredients") then CreateFailure(500, "Server error")
    else
      var url := ImageUrl(body["category"].s, file.value.originalName);
      Created(NewProduct(body, body["targets"].s, body["keyIngredients"].s, url))
  }

  /** The document `createProduct` saves: the copied fields, the two split lists and the image URL. */
  function NewProduct(body: Doc, targets: string, keyIngredients: string, url: string): (r: Doc)
    ensures r.Keys == (body.Keys * CopiedFields) + {"targets", "keyIngredients", "image_url"}
    ensures forall key :: key in CopiedFields && key in body ==> key in r && r[key] == body[key]
    ensures r["targets"] == Arr(CommaList(targets)) && r["keyIngredients"] == Arr(CommaList(keyIngredients))
    ensures r["image_url"] == Str(url)
  {
    CopiedNotAdded();
    var doc := Pick(body, CopiedFields);
    var doc := doc["targets" := Arr(CommaList(targets))];
    var doc := doc["keyIngredients" := Arr(CommaList(keyIngredients))];
    doc["image_url" := Str(url)]
  }

  /** The fields `createProduct` computes are not among the copied ones. */
  lemma CopiedNotAdded()
    ensures "targets" !in CopiedFields && "keyIngredients" !in CopiedFields && "image_url" !in CopiedFields
  {
  }

  // ---------------------------------------------------------------------------
  // Updating a product

  /** The outcome of `updateProduct`: the updated document, or the error reply. */
  datatype Updated = Updated(doc: Doc) | UpdateFailure(status: int, message: string)

  /** `req.body.category || product.category`: the category a new image is filed under. */
  function ImageCategory(body: Doc, stored: Doc): (r: Option<Json>)
    ensures Truthy(Get(Obj(body), "category")) ==> r == Some(body["category"])
    ensures !Truthy(Get(Obj(body), "category")) ==> r == Get(Obj(stored), "category")
  {
    if Truthy(Get(Obj(body), "category")) then Some(body["category"]) else Get(Obj(stored), "category")
  }

  /**
    `updateProduct`: an unknown product is not found; a new image is filed
    under the chosen category and its URL joins the body; the body's fields
    then replace the stored ones. A chosen category that is not a string
    makes `path.join` throw, which ends in a server error.
   */
  function UpdateProduct(stored: Option<Doc>, body: Doc, file: Option<Upload>): (r: Updated)
    ensures stored.None? ==> r == UpdateFailure(404, "Not Found")
    ensures stored.Some? && file.None? ==> r == Updated(stored.value + body)
    ensures stored.Some? && file.Some? ==>
      var c := ImageCategory(body, stored.value);
      && (r.UpdateFailure? <==> !(c.Some? && c.value.Str?))
      && (r.UpdateFailure? ==> r == UpdateFailure(500, "Server error"))
      && (r.Updated? ==>
            && r.doc.Keys == stored.value.Keys + body.Keys + {"image_url"}
            && r.doc["image_url"] == Str(ImageUrl(c.value.s, file.value.originalName))
            && forall key :: key in r.doc && key != "image_url" ==>
                 r.doc[key] == if key in body then body[key] else stored.value[key])
  {
    if stored.None? then UpdateFailure(404, "Not Found")
    else if file.None? then Updated(stored.value + body)
    else
      var c := ImageCategory(body, stored.value);
      if !(c.Some? && c.value.Str?) then UpdateFailure(500, "Server error")
      else
        var body' := body["image_url" := Str(ImageUrl(c.value.s, file.value.originalName))];
        Updated(stored.value + body')
  }

  /**
    The new image goes under the body's category when that is a non-empty
    string, and under the stored category when the body has none or an
    empty one.
   */
  lemma ImageCategoryFallback(stored: Doc, body: Doc, fileName: string, cat: string)
    requires "category" in stored && stored["category"] == Str(cat)
    ensures "category" in body && body["category"].Str? && body["category"].s != "" ==>
      UpdateProduct(Some(stored), body, Some(Upload(fileName))).doc["image_url"]
        == Str(ImageUrl(body["category"].s, fileName))
    ensures "category" !in body || body["category"] == Str("") ==>
      UpdateProduct(Some(stored), body, Some(Upload(fileName))).doc["image_url"]
        == Str(ImageUrl(cat, fileName))
  {
  }

  /** An update without an image and with an empty body leaves the product as it was. */
  lemma EmptyUpdateKeeps(stored: Doc)
    ensures UpdateProduct(Some(stored), map[], None) == Updated(stored)
  {
    assert stored + map[] == stored;
  }
}
