/**
  The cursor operations of the document database that the listing endpoints
  chain onto a query: `.skip(k)` and `.limit(n)`.
 */
module MongoCursor {

  function Min(a: int, b: int): int
  {
    if a <= b then a else b
  }

  function Abs(n: int): nat
  {
    if n < 0 then -n else n
  }

  /**
    `.limit(n)`: the first `n` documents. A limit of zero means no limit and
    a negative limit is taken by its size.
   */
  function Limit<T>(s: seq<T>, n: int): (r: seq<T>)
    ensures |r| <= |s| && r == s[..|r|]
    ensures n == 0 ==> |r| == |s|
    ensures n != 0 ==> |r| == Min(Abs(n), |s|)
  {
    if n == 0 then s else s[..Min(Abs(n), |s|)]
  }

  /** `.skip(k).limit(n)` for a skip the database accepts: the documents from `k` on, limited. */
  function Window<T>(s: seq<T>, skip: nat, n: int): (r: seq<T>)
    ensures n != 0 ==> |r| <= Abs(n)
    ensures skip >= |s| ==> r == []
    ensures skip < |s| ==> r == Limit(s[skip..], n)
    ensures forall i :: 0 <= i < |r| ==> skip + i < |s| && r[i] == s[skip + i]
  {
    if skip >= |s| then [] else Limit(s[skip..], n)
  }

  /** Two consecutive windows of `n` documents are the window of `2n` documents, split in two. */
  lemma WindowsAdjacent<T>(s: seq<T>, skip: nat, n: nat)
    requires n > 0
    ensures Window(s, skip, n) + Window(s, skip + n, n) == Window(s, skip, 2 * n)
  {
    var a, b, c := Window(s, skip, n), Window(s, skip + n, n), Window(s, skip, 2 * n);
    assert |a + b| == |c|;
    forall i | 0 <= i < |c| ensures (a + b)[i] == c[i] {
      if i >= |a| {
        assert (a + b)[i] == b[i - |a|];
      }
    }
  }

  /** Paging with a positive limit visits each document once: the first `k` pages are the first `k * n` documents. */
  lemma {:induction false} PagesTile<T>(s: seq<T>, n: nat, k: nat)
    requires n > 0
    ensures Pages(s, n, k) == s[..Min(k * n, |s|)]
  {
    if k > 0 {
      PagesTile(s, n, k - 1);
      assert (k - 1) * n + n == k * n;
    }
  }

  /** Pages 1 to `k` of `n` documents each, one after the other. */
  function Pages<T>(s: seq<T>, n: nat, k: nat): seq<T>
    requires n > 0
  {
    if k == 0 then [] else Pages(s, n, k - 1) + Window(s, (k - 1) * n, n)
  }
}
