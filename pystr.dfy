/**
  The fragment of Python's `str` semantics the slide builder relies on:
  `strip()`, `split(sep)`, `sep.join(pieces)` and `startswith(prefix)`, stated
  over `string` (a sequence of code points). `Find` and `Count` (Python's
  `find` and `count`, with absence reported as `None` rather than -1) are
  helpers for stating properties; the builder calls neither.
 */
module PyStr {
  import opened Optional

  /**
    The code points for which Python's `str.isspace()` holds: the characters
    `strip()` removes when called without arguments.
   */
  const Whitespace: set<char> := {
    '\t', '\n', '\U{0B}', '\U{0C}', '\r',
    '\U{1C}', '\U{1D}', '\U{1E}', '\U{1F}', ' ',
    '\U{85}', '\U{A0}', '\U{1680}',
    '\U{2000}', '\U{2001}', '\U{2002}', '\U{2003}', '\U{2004}', '\U{2005}',
    '\U{2006}', '\U{2007}', '\U{2008}', '\U{2009}', '\U{200A}',
    '\U{2028}', '\U{2029}', '\U{202F}', '\U{205F}', '\U{3000}'
  }

  /** Drops the longest prefix of `s` made of elements of `ws`. */
  function TrimLeft<T>(s: seq<T>, ws: set<T>): (r: seq<T>)
    ensures |r| <= |s| && r == s[|s| - |r|..]
    ensures forall k :: 0 <= k < |s| - |r| ==> s[k] in ws
    ensures r == [] || r[0] !in ws
    decreases |s|
  {
    if |s| > 0 && s[0] in ws then TrimLeft(s[1..], ws) else s
  }

  /** Drops the longest suffix of `s` made of elements of `ws`. */
  function TrimRight<T>(s: seq<T>, ws: set<T>): (r: seq<T>)
    ensures |r| <= |s| && r == s[..|r|]
    ensures forall k :: |r| <= k < |s| ==> s[k] in ws
    ensures r == [] || r[|r| - 1] !in ws
    decreases |s|
  {
    if |s| > 0 && s[|s| - 1] in ws then TrimRight(s[..|s| - 1], ws) else s
  }

  /** `s.strip()`: whitespace removed at both ends. */
  function Strip(s: string): (r: string)
    ensures |r| <= |s|
    ensures r == [] || (r[0] !in Whitespace && r[|r| - 1] !in Whitespace)
  {
    TrimRight(TrimLeft(s, Whitespace), Whitespace)
  }

  /**
    `t` is `s` with elements of `ws` removed at both ends, `t` starting at
    index `i` of `s`: everything outside `t` is in `ws` and `t`, unless empty,
    begins and ends with an element outside `ws`.
   */
  ghost predicate TrimmedAt<T>(s: seq<T>, t: seq<T>, i: int, ws: set<T>) {
    && 0 <= i <= |s| - |t|
    && t == s[i..i + |t|]
    && (forall k :: 0 <= k < i ==> s[k] in ws)
    && (forall k :: i + |t| <= k < |s| ==> s[k] in ws)
    && (t == [] || (t[0] !in ws && t[|t| - 1] !in ws))
  }

  /** Trimming both ends removes exactly the leading and trailing elements of `ws`. */
  lemma TrimIsTrimmed<T>(s: seq<T>, ws: set<T>)
    ensures TrimmedAt(s, TrimRight(TrimLeft(s, ws), ws), |s| - |TrimLeft(s, ws)|, ws)
  {
    TrimmedBetween(s, TrimLeft(s, ws), TrimRight(TrimLeft(s, ws), ws), ws);
  }

  /**
    A suffix `l` of `s` after a run of elements of `ws`, starting outside `ws`,
    and a prefix `t` of `l` before a run of elements of `ws`, ending outside
    `ws`: `t` is `s` trimmed at both ends.
   */
  lemma TrimmedBetween<T>(s: seq<T>, l: seq<T>, t: seq<T>, ws: set<T>)
    requires |l| <= |s| && l == s[|s| - |l|..]
    requires forall k :: 0 <= k < |s| - |l| ==> s[k] in ws
    requires l == [] || l[0] !in ws
    requires |t| <= |l| && t == l[..|t|]
    requires forall k :: |t| <= k < |l| ==> l[k] in ws
    requires t == [] || t[|t| - 1] !in ws
    ensures TrimmedAt(s, t, |s| - |l|, ws)
  {
    var i := |s| - |l|;
    assert t == s[i..i + |t|];
    forall k | i + |t| <= k < |s| ensures s[k] in ws {
      assert s[k] == l[k - i];
    }
    assert t == [] || t[0] == l[0];
  }

  /** Any trimmed infix of `s` is the result of trimming both ends: the trimmed form is unique. */
  lemma TrimUnique<T>(s: seq<T>, t: seq<T>, i: int, ws: set<T>)
    requires TrimmedAt(s, t, i, ws)
    ensures TrimRight(TrimLeft(s, ws), ws) == t
  {
    TrimIsTrimmed(s, ws);
    var u := TrimRight(TrimLeft(s, ws), ws);
    var j := |s| - |TrimLeft(s, ws)|;
    if t != [] && u != [] {
      // both start at the first and end at the last element of s outside ws
      assert s[i] == t[0] && s[j] == u[0];
      assert s[i + |t| - 1] == t[|t| - 1] && s[j + |u| - 1] == u[|u| - 1];
      assert i == j;
      assert i + |t| == j + |u|;
    }
  }

  /** `Strip` removes exactly the leading and trailing whitespace. */
  lemma StripIsStripped(s: string)
    ensures TrimmedAt(s, Strip(s), |s| - |TrimLeft(s, Whitespace)|, Whitespace)
  {
    TrimIsTrimmed(s, Whitespace);
  }

  /** A string trimmed of whitespace at both ends is what `Strip` returns, whatever the ends removed. */
  lemma StripUnique(s: string, t: string, i: int)
    requires TrimmedAt(s, t, i, Whitespace)
    ensures Strip(s) == t
  {
    TrimUnique(s, t, i, Whitespace);
  }

  /** A stripped string is unchanged by stripping again. */
  lemma StripIdempotent(s: string)
    ensures Strip(Strip(s)) == Strip(s)
  {
    var t := Strip(s);
    StripIsStripped(s);
    assert t == t[0..0 + |t|];
    StripUnique(t, t, 0);
  }

  /** `sep` occurs in `s` starting at index `i`. */
  predicate OccursAt(s: string, sep: string, i: int) {
    0 <= i && i + |sep| <= |s| && s[i..i + |sep|] == sep
  }

  /** Python's `sep in s`. */
  ghost predicate Contains(s: string, sep: string) {
    exists i :: OccursAt(s, sep, i)
  }

  /** Occurrences in the tail of `s` are the occurrences in `s` one index further on. */
  lemma OccursShift(s: string, sep: string, i: int)
    requires |s| > 0 && 0 <= i
    ensures OccursAt(s[1..], sep, i) <==> OccursAt(s, sep, i + 1)
  {
    if i + |sep| <= |s[1..]| {
      assert s[1..][i..i + |sep|] == s[i + 1..i + 1 + |sep|];
    }
  }

  /** A slice of a prefix is the same slice of the whole sequence. */
  lemma PrefixSlice<T>(s: seq<T>, k: int, a: int, b: int)
    requires 0 <= a <= b <= k <= |s|
    ensures s[..k][a..b] == s[a..b]
  {
  }

  /** `s.find(sep)`: the index of the leftmost occurrence of `sep`, if any. */
  function Find(s: string, sep: string): (r: Option<nat>)
    ensures r.Some? ==> OccursAt(s, sep, r.value)
    decreases |s|
  {
    if |s| < |sep| then None
    else if s[..|sep|] == sep then Some(0)
    else
      match Find(s[1..], sep)
      case None => None
      case Some(k) => OccursShift(s, sep, k); Some(k + 1)
  }

  /** `Find` reports the leftmost occurrence, and reports none exactly when `sep` does not occur. */
  lemma {:induction false} FindLeftmost(s: string, sep: string)
    ensures Find(s, sep).Some? ==> forall j :: 0 <= j < Find(s, sep).value ==> !OccursAt(s, sep, j)
    ensures Find(s, sep).None? <==> !Contains(s, sep)
    decreases |s|
  {
    if |s| < |sep| {
    } else if s[..|sep|] == sep {
      assert OccursAt(s, sep, 0);
    } else {
      FindLeftmost(s[1..], sep);
      assert !OccursAt(s, sep, 0) by { assert s[0..|sep|] == s[..|sep|]; }
      forall i | 1 <= i ensures OccursAt(s, sep, i) <==> OccursAt(s[1..], sep, i - 1) {
        OccursShift(s, sep, i - 1);
      }
    }
  }

  /** `s.split(sep)`: cut `s` at every leftmost, non-overlapping occurrence of `sep`. */
  function Split(s: string, sep: string): (r: seq<string>)
    requires |sep| > 0
    ensures |r| >= 1
    decreases |s|
  {
    match Find(s, sep)
    case None => [s]
    case Some(k) => [s[..k]] + Split(s[k + |sep|..], sep)
  }

  /** `sep.join(pieces)`. */
  function Join(pieces: seq<string>, sep: string): (r: string)
    ensures |pieces| > 0 ==> pieces[0] <= r
    decreases |pieces|
  {
    if |pieces| == 0 then ""
    else if |pieces| == 1 then pieces[0]
    else pieces[0] + sep + Join(pieces[1..], sep)
  }

  /** `s.count(sep)`: non-overlapping occurrences of `sep`, scanning left to right. */
  function Count(s: string, sep: string): nat
    requires |sep| > 0
    decreases |s|
  {
    if |s| < |sep| then 0
    else if s[..|sep|] == sep then 1 + Count(s[|sep|..], sep)
    else Count(s[1..], sep)
  }

  /** Joining the pieces of a split with the same separator gives back the string. */
  lemma {:induction false} JoinSplit(s: string, sep: string)
    requires |sep| > 0
    ensures Join(Split(s, sep), sep) == s
    decreases |s|
  {
    match Find(s, sep)
    case None =>
    case Some(k) =>
      var rest := s[k + |sep|..];
      var tail := Split(rest, sep);
      JoinSplit(rest, sep);
      var pieces := [s[..k]] + tail;
      assert Split(s, sep) == pieces;
      assert pieces[1..] == tail;
      assert Join(pieces, sep) == s[..k] + sep + Join(tail, sep);
      assert s == s[..k] + s[k..k + |sep|] + rest;
  }

  /** The text before the first occurrence of `sep` does not contain `sep`. */
  lemma BeforeFirstFree(s: string, sep: string, k: nat)
    requires |sep| > 0 && k <= |s|
    requires forall j :: 0 <= j < k ==> !OccursAt(s, sep, j)
    ensures !Contains(s[..k], sep)
  {
    forall j | OccursAt(s[..k], sep, j) ensures false {
      PrefixSlice(s, k, j, j + |sep|);
      assert OccursAt(s, sep, j);
    }
  }

  /** No piece of a split contains the separator. */
  lemma {:induction false} SplitPiecesFree(s: string, sep: string)
    requires |sep| > 0
    ensures forall p :: p in Split(s, sep) ==> !Contains(p, sep)
    decreases |s|
  {
    FindLeftmost(s, sep);
    match Find(s, sep)
    case None =>
    case Some(k) =>
      var rest := s[k + |sep|..];
      var head := s[..k];
      SplitFirst(s, sep, k);
      SplitPiecesFree(rest, sep);
      BeforeFirstFree(s, sep, k);
      forall p | p in Split(s, sep) ensures !Contains(p, sep) {
        if p != head {
          assert p in Split(rest, sep);
        }
      }
  }

  /** Counting skips over a prefix in which `sep` does not start. */
  lemma {:induction false} CountSkip(s: string, sep: string, k: nat)
    requires |sep| > 0 && k <= |s|
    requires forall j :: 0 <= j < k ==> !OccursAt(s, sep, j)
    ensures Count(s, sep) == Count(s[k..], sep)
    decreases k
  {
    if k > 0 {
      assert !OccursAt(s, sep, 0);
      if |s| < |sep| {
        assert Count(s[k..], sep) == 0;
      } else {
        assert s[..|sep|] == s[0..0 + |sep|];
        forall j | 0 <= j < k - 1 ensures !OccursAt(s[1..], sep, j) {
          OccursShift(s, sep, j);
        }
        CountSkip(s[1..], sep, k - 1);
        assert s[1..][k - 1..] == s[k..];
      }
    }
  }

  /** A split yields one more piece than there are (non-overlapping) separators. */
  lemma {:induction false} SplitCount(s: string, sep: string)
    requires |sep| > 0
    ensures |Split(s, sep)| == Count(s, sep) + 1
    decreases |s|
  {
    FindLeftmost(s, sep);
    match Find(s, sep)
    case None =>
      forall j | 0 <= j < |s| ensures !OccursAt(s, sep, j) { }
      CountSkip(s, sep, |s|);
    case Some(k) =>
      CountSkip(s, sep, k);
      var t := s[k..];
      assert t[..|sep|] == sep;
      assert t[|sep|..] == s[k + |sep|..];
      SplitCount(s[k + |sep|..], sep);
  }

  /** A split yields a single piece exactly when the separator does not occur. */
  lemma SplitSingle(s: string, sep: string)
    requires |sep| > 0
    ensures |Split(s, sep)| == 1 <==> !Contains(s, sep)
  {
    FindLeftmost(s, sep);
  }

  /** The first piece of a split ends at the first separator. */
  lemma SplitFirst(s: string, sep: string, k: nat)
    requires |sep| > 0 && OccursAt(s, sep, k)
    requires forall j :: 0 <= j < k ==> !OccursAt(s, sep, j)
    ensures Split(s, sep) == [s[..k]] + Split(s[k + |sep|..], sep)
  {
    FindLeftmost(s, sep);
    assert Find(s, sep) == Some(k);
  }
}
