/**
  The skin-analysis service, apart from its call to the generative model:
  the checks and product normalisation done before the call, and the parser
  that cuts the model's reply into four sections by their headings and reads
  the skin type and the list of skin concerns out of the analysis section.
 */
module GeminiService {
  import opened Js
  import opened JsString

  // ---------------------------------------------------------------------------
  // Sections

  /** The four sections of a reply. */
  datatype SectionKey = Analysis | Recommendations | UsagePlan | AdditionalRecommendations

  /**
    One row of the section table: a section starts after its heading and runs
    to the next expected heading, or to the end of the reply (`None`).
   */
  datatype SectionRule = SectionRule(key: SectionKey, heading: string, terminator: Option<string>)

  /** The headings the model is asked to use, in the order of the reply. */
  const AnalysisHeading: string := "## Skin Analysis"
  const RecommendationsHeading: string := "## Product Recommendations"
  const UsagePlanHeading: string := "## Usage Plan"
  const AdditionalHeading: string := "## Additional Recommendations"

  const SectionRules: seq<SectionRule> := [
    SectionRule(Analysis, AnalysisHeading, Some(RecommendationsHeading)),
    SectionRule(Recommendations, RecommendationsHeading, Some(UsagePlanHeading)),
    SectionRule(UsagePlan, UsagePlanHeading, Some(AdditionalHeading)),
    SectionRule(AdditionalRecommendations, AdditionalHeading, None)
  ]

  /** Where a section that starts at `p` ends: the first terminator at or after `p`, else the end. */
  function SectionEnd(s: string, p: nat, terminator: Option<string>): (q: nat)
    requires p <= |s|
    ensures p <= q <= |s|
    ensures terminator.None? ==> q == |s|
    ensures terminator.Some? ==>
      && (q == |s| || MatchesAtCI(s, terminator.value, q))
      && forall j :: p <= j < q ==> !MatchesAtCI(s, terminator.value, j)
  {
    match terminator
    case None => |s|
    case Some(t) =>
      var f := FindCI(s, t, p);
      if f == -1 then |s| else f
  }

  /** Where the text after the first occurrence of `heading`, in any ASCII case, starts; -1 without one. */
  function HeadingEnd(s: string, heading: string): (p: int)
    ensures -1 <= p <= |s|
    ensures p == -1 <==> FindCI(s, heading, 0) == -1
    ensures p != -1 ==> p == FindCI(s, heading, 0) + |heading|
  {
    var i := FindCI(s, heading, 0);
    if i == -1 then -1 else i + |heading|
  }

  /** The trimmed text from `p` to the end of the section; `""` for a missing heading (`p` is -1). */
  function SectionFrom(s: string, p: int, terminator: Option<string>): string
    requires -1 <= p <= |s|
  {
    if p == -1 then "" else Trim(s[p..SectionEnd(s, p, terminator)])
  }

  /**
    `heading([\s\S]*?)(?=terminator|$)` with the `i` flag, then `trim`: the
    trimmed text between the first occurrence of the heading, in any ASCII
    case, and the first terminator after it; `""` without the heading.
   */
  function Section(s: string, heading: string, terminator: Option<string>): string
  {
    SectionFrom(s, HeadingEnd(s, heading), terminator)
  }

  /** A pattern found inside an infix is found in the whole text at the shifted position. */
  lemma MatchesInInfix(s: string, o: nat, n: nat, t: string, j: nat)
    requires o + n <= |s| && MatchesAtCI(s[o..o + n], t, j)
    ensures MatchesAtCI(s, t, o + j)
  {
    forall k | 0 <= k < |t| ensures Lower(s[o + j + k]) == Lower(t[k]) {
      assert s[o..o + n][j + k] == s[o + j + k];
    }
  }

  /**
    What a section is: empty when its heading is absent; otherwise trimmed
    text lying between the heading and the end of the section, with nothing
    but whitespace cut off and no occurrence of the terminating heading in it.
   */
  lemma SectionShape(s: string, heading: string, terminator: Option<string>)
    ensures HeadingEnd(s, heading) == -1 ==> Section(s, heading, terminator) == ""
    ensures IsTrimmed(Section(s, heading, terminator))
    ensures HeadingEnd(s, heading) != -1 ==>
      var p := HeadingEnd(s, heading);
      exists a :: InfixAmidWhitespace(s[p..SectionEnd(s, p, terminator)], Section(s, heading, terminator), a)
    ensures terminator.Some? && terminator.value != "" ==>
      forall j :: !MatchesAtCI(Section(s, heading, terminator), terminator.value, j)
  {
    var p := HeadingEnd(s, heading);
    if p != -1 {
      var q := SectionEnd(s, p, terminator);
      var r := Trim(s[p..q]);
      TrimShape(s[p..q]);
      var a := LeadingWhitespace(s[p..q]);
      assert InfixAmidWhitespace(s[p..q], r, a);
      if terminator.Some? && terminator.value != "" {
        NoTerminatorInside(s, p, q, terminator.value, r, a);
      }
    }
  }

  /** Text cut out of a stretch without a terminator holds no terminator. */
  lemma NoTerminatorInside(s: string, p: nat, q: nat, t: string, r: string, a: nat)
    requires p <= q <= |s| && t != ""
    requires forall j :: p <= j < q ==> !MatchesAtCI(s, t, j)
    requires InfixAmidWhitespace(s[p..q], r, a)
    ensures forall j :: !MatchesAtCI(r, t, j)
  {
    forall j: nat | MatchesAtCI(r, t, j) ensures false {
      MatchesInInfix(s[p..q], a, |r|, t, j);
      MatchesInInfix(s, p, q - p, t, a + j);
    }
  }

  /** The case in which a heading is written does not matter. */
  lemma SectionHeadingCase(s: string, h1: string, h2: string, terminator: Option<string>)
    requires LowerAll(h1) == LowerAll(h2)
    ensures Section(s, h1, terminator) == Section(s, h2, terminator)
  {
    FindCIIsFindLowered(s, h1, 0);
    FindCIIsFindLowered(s, h2, 0);
    assert |h1| == |LowerAll(h1)| == |LowerAll(h2)| == |h2|;
    assert HeadingEnd(s, h1) == HeadingEnd(s, h2);
  }

  // ---------------------------------------------------------------------------
  // Skin type and skin concerns

  /** A line terminator other than LF, which `.` cannot consume and which stops no capture. */
  predicate Blocks(c: char)
  {
    IsLineTerminator(c) && c != '\n'
  }

  /** A character at which a capture `.+?(?=\n|-|$)` stops. */
  predicate Stops(c: char)
  {
    c == '\n' || c == '-'
  }

  /**
    The end of a lazy `.+?(?=\n|-|$)` capture that has consumed up to `k`:
    the first stop or the end; `None` when a blocking line terminator comes
    first, so the match fails at this start.
   */
  function CaptureEnd(s: string, k: nat): (r: Option<nat>)
    requires k <= |s|
    ensures r.Some? ==> k <= r.value <= |s| && (r.value == |s| || Stops(s[r.value]))
    ensures r.Some? ==> forall j :: k <= j < r.value ==> !IsLineTerminator(s[j]) && !Stops(s[j])
    ensures r.None? ==> exists j :: k <= j < |s| && Blocks(s[j]) && forall m :: k <= m < j ==> !Stops(s[m])
    decreases |s| - k
  {
    if k == |s| || Stops(s[k]) then Some(k)
    else if IsLineTerminator(s[k]) then None
    else CaptureEnd(s, k + 1)
  }

  /**
    The group `(.+?)` of a match whose marker ends at `p`: at least one
    character, none of them a line terminator, and no stop after the first.
   */
  function CaptureAt(s: string, p: nat): (r: Option<string>)
    ensures r.Some? ==> p < |s| && 1 <= |r.value| && p + |r.value| <= |s| && r.value == s[p..p + |r.value|]
    ensures r.Some? ==> p + |r.value| == |s| || Stops(s[p + |r.value|])
    ensures r.Some? ==> forall j :: 0 <= j < |r.value| ==> !IsLineTerminator(r.value[j]) && (j > 0 ==> !Stops(r.value[j]))
  {
    if p < |s| && !IsLineTerminator(s[p]) then
      match CaptureEnd(s, p + 1)
      case Some(q) => Some(s[p..q])
      case None => None
    else None
  }

  /** The regex `marker(.+?)(?=\n|-|$)` matches starting at `i`. */
  predicate CapturesAt(s: string, marker: string, i: nat)
  {
    MatchesAt(s, marker, i) && CaptureAt(s, i + |marker|).Some?
  }

  /** The first start at or after `from` where the regex matches, or -1. */
  function FirstCapture(s: string, marker: string, from: nat): (i: int)
    ensures i == -1 || (from <= i && CapturesAt(s, marker, i))
    ensures i != -1 ==> forall j :: from <= j < i ==> !CapturesAt(s, marker, j)
    ensures i == -1 ==> forall j :: from <= j ==> !CapturesAt(s, marker, j)
    decreases |s| - from
  {
    if from + |marker| >= |s| then -1
    else if CapturesAt(s, marker, from) then from
    else FirstCapture(s, marker, from + 1)
  }

  /** `s.match(/marker(.+?)(?=\n|-|$)/)`: group 1 of the first match, if any. */
  function LineCapture(s: string, marker: string): (r: Option<string>)
    ensures r.Some? <==> exists i :: CapturesAt(s, marker, i)
    ensures r.Some? ==> r == CaptureAt(s, FirstCapture(s, marker, 0) + |marker|)
  {
    var i := FirstCapture(s, marker, 0);
    if i == -1 then None else CaptureAt(s, i + |marker|)
  }

  /** The trimmed skin type, or "Not identified" without a `Skin Type:` match. */
  function SkinType(analysis: string): string
  {
    match LineCapture(analysis, "Skin Type:")
    case None => "Not identified"
    case Some(c) => Trim(c)
  }

  /** The comma-separated concerns, each trimmed, or none without a `Skin Concerns:` match. */
  function SkinConcerns(analysis: string): seq<string>
  {
    match LineCapture(analysis, "Skin Concerns:")
    case None => []
    case Some(c) => SplitTrim(Trim(c), ',')
  }

  /** Trimming a capture keeps it on one line with a stop at most as its first character. */
  lemma TrimmedCapture(c: string)
    requires forall j :: 0 <= j < |c| ==> !IsLineTerminator(c[j]) && (j > 0 ==> !Stops(c[j]))
    ensures forall j :: 0 <= j < |Trim(c)| ==> !IsLineTerminator(Trim(c)[j]) && (j > 0 ==> !Stops(Trim(c)[j]))
  {
    var r := Trim(c);
    TrimShape(c);
    var a := LeadingWhitespace(c);
    forall j | 0 <= j < |r| ensures !IsLineTerminator(r[j]) && (j > 0 ==> !Stops(r[j])) {
      assert r[j] == c[a + j];
    }
  }

  /**
    The skin type is "Not identified" exactly when nothing matches; otherwise
    it is trimmed, on one line, and holds no `-` except possibly first.
   */
  lemma SkinTypeShape(analysis: string)
    ensures SkinType(analysis) == "Not identified" <== !(exists i :: CapturesAt(analysis, "Skin Type:", i))
    ensures (exists i :: CapturesAt(analysis, "Skin Type:", i)) ==>
      var r := SkinType(analysis);
      IsTrimmed(r) && forall j :: 0 <= j < |r| ==> !IsLineTerminator(r[j]) && (j > 0 ==> r[j] != '-')
  {
    var m := LineCapture(analysis, "Skin Type:");
    if m.Some? {
      TrimShape(m.value);
      TrimmedCapture(m.value);
    }
  }

  /**
    The concerns are empty exactly when nothing matches; otherwise there is
    one trimmed piece per comma-separated part of the trimmed capture, none
    holding a comma or a line terminator, and joining them on commas
    (before trimming) gives the trimmed capture back.
   */
  lemma SkinConcernsShape(analysis: string)
    ensures !(exists i :: CapturesAt(analysis, "Skin Concerns:", i)) ==> SkinConcerns(analysis) == []
    ensures (exists i :: CapturesAt(analysis, "Skin Concerns:", i)) ==>
      var c := Trim(LineCapture(analysis, "Skin Concerns:").value);
      var r := SkinConcerns(analysis);
      && |r| == Count(c, ',') + 1
      && Join(Split(c, ','), ',') == c
      && forall k :: 0 <= k < |r| ==> IsTrimmed(r[k]) && ',' !in r[k] && r[k] == Trim(Split(c, ',')[k])
  {
    var m := LineCapture(analysis, "Skin Concerns:");
    if m.Some? {
      var c := Trim(m.value);
      SplitTrimPieces(c, ',');
      JoinSplit(c, ',');
    }
  }

  /** The parsed reply: the four sections, and the skin type and concerns when the analysis is not empty. */
  datatype ParsedAnalysis = ParsedAnalysis(
    sections: map<SectionKey, string>,
    skinType: Option<string>,
    skinConcerns: Option<seq<string>>)

  /** The sections of the first `n` rows of the table, as the loop has filled them in. */
  function SectionsUpTo(response: string, n: nat): map<SectionKey, string>
    requires n <= |SectionRules|
  {
    if n == 0 then map[]
    else
      var rule := SectionRules[n - 1];
      SectionsUpTo(response, n - 1)[rule.key := Section(response, rule.heading, rule.terminator)]
  }

  /** The whole table gives each of the four sections from its own heading to the next. */
  lemma AllSections(response: string)
    ensures SectionsUpTo(response, |SectionRules|) == map[
      Analysis := Section(response, AnalysisHeading, Some(RecommendationsHeading)),
      Recommendations := Section(response, RecommendationsHeading, Some(UsagePlanHeading)),
      UsagePlan := Section(response, UsagePlanHeading, Some(AdditionalHeading)),
      AdditionalRecommendations := Section(response, AdditionalHeading, None)]
  {
    var a := Section(response, AnalysisHeading, Some(RecommendationsHeading));
    var b := Section(response, RecommendationsHeading, Some(UsagePlanHeading));
    var c := Section(response, UsagePlanHeading, Some(AdditionalHeading));
    var d := Section(response, AdditionalHeading, None);
    calc {
      SectionsUpTo(response, 4);
      SectionsUpTo(response, 3)[AdditionalRecommendations := d];
      SectionsUpTo(response, 2)[UsagePlan := c][AdditionalRecommendations := d];
      SectionsUpTo(response, 1)[Recommendations := b][UsagePlan := c][AdditionalRecommendations := d];
      map[Analysis := a][Recommendations := b][UsagePlan := c][AdditionalRecommendations := d];
    }
  }

  /** `parseAnalysisResponse` for a reply that is a string. */
  method ParseAnalysisResponse(response: string) returns (result: ParsedAnalysis)
    ensures result.sections == map[
      Analysis := Section(response, AnalysisHeading, Some(RecommendationsHeading)),
      Recommendations := Section(response, RecommendationsHeading, Some(UsagePlanHeading)),
      UsagePlan := Section(response, UsagePlanHeading, Some(AdditionalHeading)),
      AdditionalRecommendations := Section(response, AdditionalHeading, None)]
    ensures result.skinType.Some? <==> result.sections[Analysis] != ""
    ensures result.skinConcerns.Some? <==> result.sections[Analysis] != ""
    ensures result.skinType.Some? ==> result.skinType.value == SkinType(result.sections[Analysis])
    ensures result.skinConcerns.Some? ==> result.skinConcerns.value == SkinConcerns(result.sections[Analysis])
  {
    var sections: map<SectionKey, string> := map[];
    for i := 0 to |SectionRules|
      invariant sections == SectionsUpTo(response, i)
    {
      var rule := SectionRules[i];
      sections := sections[rule.key := Section(response, rule.heading, rule.terminator)];
    }
    AllSections(response);
    result := ParsedAnalysis(sections, None, None);
    if sections[Analysis] != "" {
      var analysis := sections[Analysis];
      result := result.(skinType := Some(SkinType(analysis)), skinConcerns := Some(SkinConcerns(analysis)));
    }
  }

  // ---------------------------------------------------------------------------
  // Inputs and product normalisation

  /** One product as described to the model. */
  datatype ProductInfo = ProductInfo(
    id: Json,
    name: Json,
    description: Json,
    category: Json,
    targets: seq<Json>,
    keyIngredients: seq<Json>)

  /** `Array.isArray(v) ? v : []`. */
  function ArrayOrEmpty(v: Option<Json>): (r: seq<Json>)
    ensures v.Some? && v.value.Arr? ==> r == v.value.elems
    ensures !(v.Some? && v.value.Arr?) ==> r == []
  {
    if v.Some? && v.value.Arr? then v.value.elems else []
  }

  /** An entry the mapping accepts: not falsy, and of type "object" (an object or an array). */
  predicate ValidEntry(p: Json)
  {
    p.Obj? || p.Arr?
  }

  /** The mapping of one accepted entry: every field falls back to its default when falsy. */
  function NormalizeEntry(p: Json): ProductInfo
    requires ValidEntry(p)
  {
    ProductInfo(
      JsonOr(Get(p, "id"), Str("unknown")),
      JsonOr(Get(p, "name"), Str("Unknown Product")),
      JsonOr(Get(p, "description"), Str("")),
      JsonOr(Get(p, "category"), Str("Unknown Category")),
      ArrayOrEmpty(Get(p, "targets")),
      ArrayOrEmpty(Get(p, "key_ingredients")))
  }

  /** The product as `JSON.stringify` would describe it. */
  function ToJson(info: ProductInfo): Json
  {
    Obj(map[
      "id" := info.id,
      "name" := info.name,
      "description" := info.description,
      "category" := info.category,
      "targets" := Arr(info.targets),
      "key_ingredients" := Arr(info.keyIngredients)])
  }

  /**
    A normalised product has a truthy id, name and category, a description
    that is the given one or `""`, and lists that are the given arrays or
    empty; normalising its JSON again changes nothing.
   */
  lemma NormalizeEntryShape(p: Json)
    requires ValidEntry(p)
    ensures var info := NormalizeEntry(p);
      && Truthy(Some(info.id)) && Truthy(Some(info.name)) && Truthy(Some(info.category))
      && (info.description == Str("") || Some(info.description) == Get(p, "description"))
      && (info.targets == [] || Some(Arr(info.targets)) == Get(p, "targets"))
      && (info.keyIngredients == [] || Some(Arr(info.keyIngredients)) == Get(p, "key_ingredients"))
      && NormalizeEntry(ToJson(info)) == info
  {
    ToJsonFields(NormalizeEntry(p));
  }

  /** Each field of the stringified product is found under its name. */
  lemma ToJsonFields(info: ProductInfo)
    ensures var j := ToJson(info);
      && j.Obj? && Get(j, "id") == Some(info.id) && Get(j, "name") == Some(info.name)
      && Get(j, "description") == Some(info.description) && Get(j, "category") == Some(info.category)
      && Get(j, "targets") == Some(Arr(info.targets)) && Get(j, "key_ingredients") == Some(Arr(info.keyIngredients))
  {
  }

  /** The message of the error thrown for an entry that is not an object. */
  const InvalidEntry: string := "Invalid product entry"

  /** `productData.map(...)`: the first rejected entry stops the mapping with an error. */
  function NormalizeProducts(entries: seq<Json>): (r: Result<seq<ProductInfo>>)
    ensures r.Ok? <==> forall k :: 0 <= k < |entries| ==> ValidEntry(entries[k])
    ensures r.Ok? ==> |r.value| == |entries| && forall k :: 0 <= k < |entries| ==> r.value[k] == NormalizeEntry(entries[k])
    ensures r.Err? ==> r.message == InvalidEntry
  {
    if entries == [] then Ok([])
    else if !ValidEntry(entries[0]) then Err(InvalidEntry)
    else
      match NormalizeProducts(entries[1..])
      case Ok(rest) => Ok([NormalizeEntry(entries[0])] + rest)
      case Err(m) => Err(m)
  }

  /** What the request to the model is built from. */
  datatype Prepared = Prepared(mimeType: string, products: seq<ProductInfo>)

  /**
    The checks of `analyzeSkinWithGemini` before the model is called, in
    source order: a configured API key, image data that is a buffer, product
    data that is an array of acceptable entries; a missing MIME type becomes
    "image/jpeg".
   */
  function PrepareAnalysis(apiKey: Option<string>, isBuffer: bool, productData: Json, mimeType: Option<string>): (r: Result<Prepared>)
    ensures !TruthyStr(apiKey) ==> r == Err("Skin analyzer API key not configured")
    ensures TruthyStr(apiKey) && !isBuffer ==> r == Err("Invalid image data: Buffer expected")
    ensures TruthyStr(apiKey) && isBuffer && !productData.Arr? ==> r == Err("Invalid product data format")
    ensures TruthyStr(apiKey) && isBuffer && productData.Arr? ==>
      (r.Ok? <==> forall k :: 0 <= k < |productData.elems| ==> ValidEntry(productData.elems[k]))
    ensures TruthyStr(apiKey) && isBuffer && productData.Arr? && r.Err? ==>
      r == Err("Failed to process product data: " + InvalidEntry)
    ensures r.Ok? ==>
      && r.value.mimeType == StrOr(mimeType, "image/jpeg") && r.value.mimeType != ""
      && productData.Arr? && |r.value.products| == |productData.elems|
      && forall k :: 0 <= k < |productData.elems| ==> r.value.products[k] == NormalizeEntry(productData.elems[k])
  {
    if !TruthyStr(apiKey) then Err("Skin analyzer API key not configured")
    else if !isBuffer then Err("Invalid image data: Buffer expected")
    else
      var mime := StrOr(mimeType, "image/jpeg");
      if !productData.Arr? then Err("Invalid product data format")
      else
        match NormalizeProducts(productData.elems)
        case Ok(products) => Ok(Prepared(mime, products))
        case Err(m) => Err("Failed to process product data: " + m)
  }
}
