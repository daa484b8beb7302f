/**
  JavaScript value semantics the controllers rely on: absent values, the
  falsy-fallback operator `||`, the nullish-fallback operator `??`, the
  `parseInt(q) || d` idiom for query parameters and the skip arithmetic
  built on it, and a small model of JSON values.
 */
module Js {

  /** An optional value: `None` stands for `undefined` or `null`. */
  datatype Option<T> = None | Some(value: T)

  /** The outcome of an operation that can throw: its value, or the error's message. */
  datatype Result<T> = Ok(value: T) | Err(message: string)

  /** A string is truthy exactly when it is present and not empty. */
  predicate TruthyStr(v: Option<string>)
  {
    v.Some? && v.value != ""
  }

  /** `v || d` for an optional string. */
  function StrOr(v: Option<string>, d: string): (r: string)
    ensures TruthyStr(v) ==> r == v.value
    ensures !TruthyStr(v) ==> r == d
    ensures r == "" ==> d == ""
  {
    if TruthyStr(v) then v.value else d
  }

  /** `v ?? d`: only `null` and `undefined` fall back. */
  function Nullish<T>(v: Option<T>, d: T): (r: T)
    ensures v.Some? ==> r == v.value
    ensures v.None? ==> r == d
  {
    match v
    case Some(x) => x
    case None => d
  }

  /**
    `parseInt(q) || d`, given the result of `parseInt` as `Some(n)`, or
    `None` for `NaN` (a missing or non-numeric parameter). Zero is falsy.
   */
  function IntOr(parsed: Option<int>, d: int): (r: int)
    ensures parsed.Some? && parsed.value != 0 ==> r == parsed.value
    ensures parsed.None? || parsed.value == 0 ==> r == d
  {
    if parsed.Some? && parsed.value != 0 then parsed.value else d
  }

  /** The page, limit and skip a list endpoint derives from its query. */
  datatype Paging = Paging(page: int, limit: int, skip: int)

  /** `page = parseInt(q.page) || 1; limit = parseInt(q.limit) || d; skip = (page - 1) * limit`. */
  function PagingOf(pageQ: Option<int>, limitQ: Option<int>, defaultLimit: int): (p: Paging)
    requires defaultLimit > 0
    ensures p.page == IntOr(pageQ, 1) && p.limit == IntOr(limitQ, defaultLimit)
    ensures p.page != 0 && p.limit != 0
    ensures p.skip == (p.page - 1) * p.limit
    ensures p.page > 0 && p.limit > 0 ==> p.skip >= 0
  {
    var page := IntOr(pageQ, 1);
    var limit := IntOr(limitQ, defaultLimit);
    Paging(page, limit, (page - 1) * limit)
  }

  /** The first page is never skipped into, whatever the limit. */
  lemma FirstPageSkipsNothing(limitQ: Option<int>, defaultLimit: int)
    requires defaultLimit > 0
    ensures PagingOf(None, limitQ, defaultLimit).skip == 0
    ensures PagingOf(Some(1), limitQ, defaultLimit).skip == 0
    ensures PagingOf(Some(0), limitQ, defaultLimit).skip == 0
  {
  }

  /** Consecutive pages are `limit` records apart. */
  lemma ConsecutivePages(page: int, limitQ: Option<int>, defaultLimit: int)
    requires defaultLimit > 0 && page != 0 && page + 1 != 0
    ensures PagingOf(Some(page + 1), limitQ, defaultLimit).skip
         == PagingOf(Some(page), limitQ, defaultLimit).skip + IntOr(limitQ, defaultLimit)
  {
  }

  /** JSON values as a request body or a parsed file delivers them. */
  datatype Json =
    | Null
    | Bool(b: bool)
    | Num(n: real)
    | Str(s: string)
    | Arr(elems: seq<Json>)
    | Obj(fields: map<string, Json>)

  /** JavaScript truthiness of a possibly absent JSON value (`NaN` is not modelled). */
  predicate Truthy(v: Option<Json>)
  {
    match v
    case None => false
    case Some(j) =>
      match j
      case Null => false
      case Bool(b) => b
      case Num(n) => n != 0.0
      case Str(s) => s != ""
      case Arr(_) => true
      case Obj(_) => true
  }

  /** Property access `v.key`: only objects have the named properties modelled here. */
  function Get(v: Json, key: string): (r: Option<Json>)
    ensures r.Some? <==> v.Obj? && key in v.fields
    ensures r.Some? ==> r.value == v.fields[key]
  {
    if v.Obj? && key in v.fields then Some(v.fields[key]) else None
  }

  /** `v || d` for a possibly absent JSON value. */
  function JsonOr(v: Option<Json>, d: Json): (r: Json)
    ensures Truthy(v) ==> Some(r) == v
    ensures !Truthy(v) ==> r == d
  {
    if Truthy(v) then v.value else d
  }
}
