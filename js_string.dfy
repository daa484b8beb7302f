/**
  The JavaScript string operations the core uses: `trim`, `split` on a
  one-character separator (and its inverse `join`), `toLowerCase` on ASCII
  letters and substring search, exact and ASCII-case-insensitive.
  A `char` is a Unicode scalar value. JavaScript strings hold UTF-16 code
  units instead, but every operation here gives the same text either way:
  the characters they look for (whitespace, separators, ASCII letters) all
  lie in the Basic Multilingual Plane, and a surrogate pair never matches one.
 */
module JsString {

  /** JavaScript's LineTerminator: LF, CR, LS and PS. */
  predicate IsLineTerminator(c: char)
  {
    c == '\n' || c == '\r' || c == '\U{2028}' || c == '\U{2029}'
  }

  /** The characters `String.prototype.trim` removes: WhiteSpace and LineTerminator. */
  const Whitespace: set<char> := {
    '\t', '\U{000B}', '\U{000C}', ' ', '\U{00A0}', '\U{FEFF}', '\U{1680}',
    '\U{2000}', '\U{2001}', '\U{2002}', '\U{2003}', '\U{2004}', '\U{2005}',
    '\U{2006}', '\U{2007}', '\U{2008}', '\U{2009}', '\U{200A}',
    '\U{202F}', '\U{205F}', '\U{3000}',
    '\n', '\r', '\U{2028}', '\U{2029}'
  }

  predicate IsWhitespace(c: char)
  {
    c in Whitespace
  }

  /** Neither end of `s` is whitespace. */
  predicate IsTrimmed(s: string)
  {
    s == [] || (!IsWhitespace(s[0]) && !IsWhitespace(s[|s| - 1]))
  }

  /** The number of whitespace characters `s` starts with. */
  function LeadingWhitespace(s: string): (n: nat)
    ensures n <= |s|
  {
    if s != [] && IsWhitespace(s[0]) then 1 + LeadingWhitespace(s[1..]) else 0
  }

  /** The length of `s` once its trailing whitespace is dropped. */
  function TrailingStart(s: string): (n: nat)
    ensures n <= |s|
  {
    if s != [] && IsWhitespace(s[|s| - 1]) then TrailingStart(s[..|s| - 1]) else |s|
  }

  /** The leading whitespace is all whitespace, and what follows it is not. */
  lemma {:induction false} LeadingWhitespaceShape(s: string)
    ensures forall k :: 0 <= k < LeadingWhitespace(s) ==> IsWhitespace(s[k])
    ensures LeadingWhitespace(s) < |s| ==> !IsWhitespace(s[LeadingWhitespace(s)])
  {
    if s != [] && IsWhitespace(s[0]) {
      LeadingWhitespaceShape(s[1..]);
    }
  }

  /** The trailing whitespace is all whitespace, and what precedes it is not. */
  lemma {:induction false} TrailingStartShape(s: string)
    ensures forall k :: TrailingStart(s) <= k < |s| ==> IsWhitespace(s[k])
    ensures TrailingStart(s) > 0 ==> !IsWhitespace(s[TrailingStart(s) - 1])
  {
    if s != [] && IsWhitespace(s[|s| - 1]) {
      TrailingStartShape(s[..|s| - 1]);
    }
  }

  /** `r` is the infix of `s` at `i` and everything of `s` around it is whitespace. */
  predicate InfixAmidWhitespace(s: string, r: string, i: int)
  {
    && 0 <= i <= |s| - |r| && r == s[i..i + |r|]
    && (forall k :: 0 <= k < i ==> IsWhitespace(s[k]))
    && (forall k :: i + |r| <= k < |s| ==> IsWhitespace(s[k]))
  }

  /** `s.trim()`: `s` with its leading and trailing whitespace cut off. */
  function Trim(s: string): string
  {
    var a := LeadingWhitespace(s);
    var b := TrailingStart(s);
    if b <= a then [] else s[a..b]
  }

  /** The trim has no whitespace at either end and is what lies amid the whitespace of `s`. */
  lemma TrimShape(s: string)
    ensures IsTrimmed(Trim(s))
    ensures InfixAmidWhitespace(s, Trim(s), LeadingWhitespace(s))
  {
    LeadingWhitespaceShape(s);
    TrailingStartShape(s);
    if TrailingStart(s) <= LeadingWhitespace(s) {
      TrimAllWhitespace(s);
    } else {
      TrimInner(s);
    }
  }

  /** When the ends meet, `s` is all whitespace and its trim is empty. */
  lemma TrimAllWhitespace(s: string)
    requires TrailingStart(s) <= LeadingWhitespace(s)
    requires forall k :: 0 <= k < LeadingWhitespace(s) ==> IsWhitespace(s[k])
    requires forall k :: TrailingStart(s) <= k < |s| ==> IsWhitespace(s[k])
    ensures Trim(s) == [] && forall k :: 0 <= k < |s| ==> IsWhitespace(s[k])
  {
    forall k | 0 <= k < |s| ensures IsWhitespace(s[k]) {
      if k >= LeadingWhitespace(s) {
        assert TrailingStart(s) <= k;
      }
    }
  }

  /** Otherwise the trim runs from the first to the last character that is not whitespace. */
  lemma TrimInner(s: string)
    requires LeadingWhitespace(s) < TrailingStart(s)
    requires !IsWhitespace(s[LeadingWhitespace(s)]) && !IsWhitespace(s[TrailingStart(s) - 1])
    ensures Trim(s) == s[LeadingWhitespace(s)..TrailingStart(s)] && IsTrimmed(Trim(s))
  {
    var a, b := LeadingWhitespace(s), TrailingStart(s);
    var t := s[a..b];
    assert t[0] == s[a] && t[|t| - 1] == s[b - 1];
  }

  /** Trimming twice changes nothing. */
  lemma TrimIdempotent(s: string)
    ensures Trim(Trim(s)) == Trim(s)
  {
    TrimShape(s);
    TrimmedIsFixed(Trim(s));
  }

  /** A string with no whitespace at either end is its own trim. */
  lemma TrimmedIsFixed(s: string)
    requires IsTrimmed(s)
    ensures Trim(s) == s
  {
    if s != [] {
      assert LeadingWhitespace(s) == 0;
      assert TrailingStart(s) == |s|;
    }
  }

  /** The number of occurrences of `c` in `s`. */
  function Count(s: string, c: char): nat
  {
    if s == [] then 0 else (if s[0] == c then 1 else 0) + Count(s[1..], c)
  }

  /** `s.split(sep)` for a one-character separator: the pieces between the separators. */
  function Split(s: string, sep: char): (r: seq<string>)
    ensures |r| == Count(s, sep) + 1
    ensures forall k :: 0 <= k < |r| ==> sep !in r[k]
  {
    if s == [] then [""]
    else
      var rest := Split(s[1..], sep);
      if s[0] == sep then [""] + rest
      else [[s[0]] + rest[0]] + rest[1..]
  }

  /** `parts.join(sep)`. */
  function Join(parts: seq<string>, sep: char): string
  {
    if |parts| == 0 then ""
    else if |parts| == 1 then parts[0]
    else parts[0] + [sep] + Join(parts[1..], sep)
  }

  /** Splitting and re-joining on the same separator gives back the string. */
  lemma {:induction false} JoinSplit(s: string, sep: char)
    ensures Join(Split(s, sep), sep) == s
  {
    if s != [] {
      var rest := Split(s[1..], sep);
      JoinSplit(s[1..], sep);
      if s[0] == sep {
        assert Split(s, sep) == [""] + rest;
        assert ([""] + rest)[1..] == rest;
      } else if |rest| == 1 {
        assert Split(s, sep) == [[s[0]] + rest[0]];
      } else {
        var parts := [[s[0]] + rest[0]] + rest[1..];
        assert Split(s, sep) == parts;
        assert parts[1..] == rest[1..];
        assert Join(rest, sep) == rest[0] + [sep] + Join(rest[1..], sep);
        assert s == [s[0]] + s[1..];
      }
    }
  }

  /** A string without the separator splits into itself alone. */
  lemma {:induction false} SplitWithoutSeparator(a: string, sep: char)
    requires sep !in a
    ensures Split(a, sep) == [a]
  {
    if a != [] {
      SplitWithoutSeparator(a[1..], sep);
      assert [a[0]] + a[1..] == a;
    }
  }

  /** A separator-free prefix followed by a separator is split off as one piece. */
  lemma {:induction false} SplitAfterPiece(a: string, b: string, sep: char)
    requires sep !in a
    ensures Split(a + [sep] + b, sep) == [a] + Split(b, sep)
  {
    if a == [] {
      assert a + [sep] + b == [sep] + b;
      assert ([sep] + b)[1..] == b;
    } else {
      var s := a + [sep] + b;
      assert s[1..] == a[1..] + [sep] + b;
      SplitAfterPiece(a[1..], b, sep);
      assert [a[0]] + a[1..] == a;
    }
  }

  /** Joining separator-free pieces and splitting again gives back the pieces. */
  lemma {:induction false} SplitJoin(parts: seq<string>, sep: char)
    requires |parts| >= 1
    requires forall k :: 0 <= k < |parts| ==> sep !in parts[k]
    ensures Split(Join(parts, sep), sep) == parts
  {
    if |parts| == 1 {
      SplitWithoutSeparator(parts[0], sep);
    } else {
      SplitJoin(parts[1..], sep);
      SplitAfterPiece(parts[0], Join(parts[1..], sep), sep);
      assert [parts[0]] + parts[1..] == parts;
    }
  }

  /** The first piece of a split is the text before the first separator (all of it when there is none). */
  lemma {:induction false} SplitFirstPiece(s: string, sep: char)
    ensures var p := Split(s, sep)[0];
      && sep !in p && |p| <= |s| && p == s[..|p|]
      && (|p| < |s| ==> s[|p|] == sep)
  {
    if s != [] && s[0] != sep {
      SplitFirstPiece(s[1..], sep);
    }
  }

  /** `parts.map(p => p.trim())`. */
  function TrimAll(parts: seq<string>): (r: seq<string>)
    ensures |r| == |parts|
    ensures forall k :: 0 <= k < |r| ==> r[k] == Trim(parts[k])
  {
    if parts == [] then [] else [Trim(parts[0])] + TrimAll(parts[1..])
  }

  /** `s.split(sep).map(p => p.trim())`. */
  function SplitTrim(s: string, sep: char): (r: seq<string>)
  {
    TrimAll(Split(s, sep))
  }

  /** One trimmed piece per separator-delimited piece of `s`, none with whitespace at an end or a separator. */
  lemma SplitTrimPieces(s: string, sep: char)
    ensures |SplitTrim(s, sep)| == Count(s, sep) + 1
    ensures forall k :: 0 <= k < |SplitTrim(s, sep)| ==>
              && SplitTrim(s, sep)[k] == Trim(Split(s, sep)[k])
              && IsTrimmed(SplitTrim(s, sep)[k])
              && sep !in SplitTrim(s, sep)[k]
  {
    var parts := Split(s, sep);
    forall k | 0 <= k < |parts| ensures IsTrimmed(Trim(parts[k])) && sep !in Trim(parts[k]) {
      TrimShape(parts[k]);
      InfixAvoids(parts[k], Trim(parts[k]), LeadingWhitespace(parts[k]), sep);
    }
  }

  /** A character absent from `s` is absent from every infix of it. */
  lemma InfixAvoids(s: string, r: string, i: int, c: char)
    requires InfixAmidWhitespace(s, r, i) && c !in s
    ensures c !in r
  {
  }

  /** `toLowerCase` on one character, for the ASCII letters. */
  function Lower(c: char): (r: char)
    ensures 'A' <= c <= 'Z' ==> r as int == c as int + 32
    ensures !('A' <= c <= 'Z') ==> r == c
  {
    if 'A' <= c <= 'Z' then (c as int + 32) as char else c
  }

  /** `s` with every ASCII upper-case letter lowered. */
  function LowerAll(s: string): (r: string)
    ensures |r| == |s|
    ensures forall k :: 0 <= k < |s| ==> r[k] == Lower(s[k])
  {
    seq(|s|, k requires 0 <= k < |s| => Lower(s[k]))
  }

  lemma LowerAllAppend(s: string, t: string)
    ensures LowerAll(s + t) == LowerAll(s) + LowerAll(t)
  {
    assert forall k :: 0 <= k < |s + t| ==> LowerAll(s + t)[k] == (LowerAll(s) + LowerAll(t))[k];
  }

  /** `pat` occurs in `s` at position `i`. */
  predicate MatchesAt(s: string, pat: string, i: nat)
  {
    i + |pat| <= |s| && forall k :: 0 <= k < |pat| ==> s[i + k] == pat[k]
  }

  /** `pat` occurs in `s` at position `i`, comparing ASCII letters without regard to case. */
  predicate MatchesAtCI(s: string, pat: string, i: nat)
  {
    i + |pat| <= |s| && forall k :: 0 <= k < |pat| ==> Lower(s[i + k]) == Lower(pat[k])
  }

  /** The first position at or after `from` where `pat` occurs, or -1. */
  function Find(s: string, pat: string, from: nat): (r: int)
    ensures r == -1 || (from <= r && MatchesAt(s, pat, r))
    ensures r != -1 ==> forall i :: from <= i < r ==> !MatchesAt(s, pat, i)
    ensures r == -1 ==> forall i :: from <= i ==> !MatchesAt(s, pat, i)
    decreases |s| - from
  {
    if from + |pat| > |s| then -1
    else if MatchesAt(s, pat, from) then from
    else Find(s, pat, from + 1)
  }

  /** The first position at or after `from` where `pat` occurs ignoring ASCII case, or -1. */
  function FindCI(s: string, pat: string, from: nat): (r: int)
    ensures r == -1 || (from <= r && MatchesAtCI(s, pat, r))
    ensures r != -1 ==> forall i :: from <= i < r ==> !MatchesAtCI(s, pat, i)
    ensures r == -1 ==> forall i :: from <= i ==> !MatchesAtCI(s, pat, i)
    decreases |s| - from
  {
    if from + |pat| > |s| then -1
    else if MatchesAtCI(s, pat, from) then from
    else FindCI(s, pat, from + 1)
  }

  /** Case-insensitive search is exact search in the lowered text for the lowered pattern. */
  lemma {:induction false} FindCIIsFindLowered(s: string, pat: string, from: nat)
    ensures FindCI(s, pat, from) == Find(LowerAll(s), LowerAll(pat), from)
    decreases |s| - from
  {
    var ls, lp := LowerAll(s), LowerAll(pat);
    if from + |pat| <= |s| {
      assert MatchesAtCI(s, pat, from) <==> MatchesAt(ls, lp, from) by {
        if MatchesAtCI(s, pat, from) {
          forall k | 0 <= k < |lp| ensures ls[from + k] == lp[k] {
            assert Lower(s[from + k]) == Lower(pat[k]);
          }
        }
        if MatchesAt(ls, lp, from) {
          forall k | 0 <= k < |pat| ensures Lower(s[from + k]) == Lower(pat[k]) {
            assert ls[from + k] == lp[k];
          }
        }
      }
      if !MatchesAtCI(s, pat, from) {
        FindCIIsFindLowered(s, pat, from + 1);
      }
    }
  }
}
