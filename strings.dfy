/**
 * The string primitives the controller relies on: ASCII case mapping, first-occurrence
 * search (String.prototype.indexOf), removal of the first occurrence (String.prototype.replace
 * with a string pattern and an empty replacement) and whitespace trimming (String.prototype.trim).
 */
module Strings {
  import opened Seqs


  /** ASCII upper-casing of one character; every other character is left as it is. */
  function UpperChar(c: char): char {
    if 'a' <= c <= 'z' then (c as int - 32) as char else c
  }

  /** ASCII lower-casing of one character; every other character is left as it is. */
  function LowerChar(c: char): char {
    if 'A' <= c <= 'Z' then (c as int + 32) as char else c
  }

  function Upper(s: string): (r: string)
    ensures |r| == |s| && forall k :: 0 <= k < |s| ==> r[k] == UpperChar(s[k])
  {
    seq(|s|, k requires 0 <= k < |s| => UpperChar(s[k]))
  }

  function Lower(s: string): (r: string)
    ensures |r| == |s| && forall k :: 0 <= k < |s| ==> r[k] == LowerChar(s[k])
  {
    seq(|s|, k requires 0 <= k < |s| => LowerChar(s[k]))
  }

  /** `pat` occurs in `s` starting at position `p`. */
  predicate MatchesAt(s: string, pat: string, p: int) {
    0 <= p && p + |pat| <= |s| && s[p..p + |pat|] == pat
  }

  /** The first position at or after `k` at which `pat` occurs in `s`, or -1. */
  function IndexFrom(s: string, pat: string, k: nat): (r: int)
    ensures r == -1 || (k <= r && MatchesAt(s, pat, r))
    ensures r >= 0 ==> forall q :: k <= q < r ==> !MatchesAt(s, pat, q)
    ensures r == -1 ==> forall q :: k <= q ==> !MatchesAt(s, pat, q)
    decreases |s| - k
  {
    if k + |pat| > |s| then -1
    else if MatchesAt(s, pat, k) then k
    else IndexFrom(s, pat, k + 1)
  }

  /** The first position at which `pat` occurs in `s`, or -1 (String.prototype.indexOf). */
  function IndexOf(s: string, pat: string): (r: int)
    ensures -1 <= r
    ensures r >= 0 ==> MatchesAt(s, pat, r) && forall q :: 0 <= q < r ==> !MatchesAt(s, pat, q)
    ensures r == -1 ==> forall q :: !MatchesAt(s, pat, q)
  {
    IndexFrom(s, pat, 0)
  }

  predicate Contains(s: string, pat: string) {
    IndexOf(s, pat) >= 0
  }

  /** `pat` occurs in `s` iff `Contains` says so. */
  lemma ContainsIff(s: string, pat: string)
    ensures Contains(s, pat) <==> exists p :: MatchesAt(s, pat, p)
  {
  }

  /** A window of `s` that lower-cases to `word` is an occurrence of `word` in `Lower(s)`. */
  lemma LowerWindow(s: string, i: int, word: string)
    requires 0 <= i && i + |word| <= |s|
    requires forall k :: 0 <= k < |word| ==> LowerChar(s[i + k]) == word[k]
    ensures MatchesAt(Lower(s), word, i)
  {
    assert Lower(s)[i..i + |word|] == word;
  }

  /** Text appended after the first occurrence of `pat` does not move it. */
  lemma IndexOfExtend(s: string, t: string, pat: string)
    requires IndexOf(s, pat) >= 0
    ensures IndexOf(s + t, pat) == IndexOf(s, pat)
  {
    var i, u := IndexOf(s, pat), s + t;
    assert u[i..i + |pat|] == s[i..i + |pat|];
    forall q | 0 <= q < i
      ensures !MatchesAt(u, pat, q)
    {
      assert !MatchesAt(s, pat, q);
      assert u[q..q + |pat|] == s[q..q + |pat|];
    }
    assert MatchesAt(u, pat, i);
    var j := IndexOf(u, pat);
    assert j >= 0 && !(j < i) && !(i < j);
  }

  /** `s.replace(pat, "")`: drops the first occurrence of `pat`, if there is one. */
  function RemoveFirst(s: string, pat: string): (r: string)
    ensures IndexOf(s, pat) < 0 ==> r == s
    ensures IndexOf(s, pat) >= 0 ==> |r| == |s| - |pat|
    ensures IndexOf(s, pat) >= 0 ==> s == r[..IndexOf(s, pat)] + pat + r[IndexOf(s, pat)..]
  {
    var i := IndexOf(s, pat);
    if i < 0 then s else Splice(s, i, i + |pat|)
  }

  /** Where `pat` first occurs at `i`, removing it cuts out `s[i..i + |pat|]`. */
  lemma RemoveFirstAt(s: string, pat: string, i: int)
    requires i == IndexOf(s, pat) && i >= 0
    ensures i + |pat| <= |s| && RemoveFirst(s, pat) == Splice(s, i, i + |pat|)
  {
  }

  /** Text appended after the first occurrence of `pat` survives its removal unchanged. */
  lemma RemoveFirstExtend(s: string, t: string, pat: string)
    requires IndexOf(s, pat) >= 0
    ensures RemoveFirst(s + t, pat) == RemoveFirst(s, pat) + t
  {
    var i := IndexOf(s, pat);
    IndexOfExtend(s, t, pat);
    RemoveFirstAt(s, pat, i);
    RemoveFirstAt(s + t, pat, i);
    SpliceAppend(s, t, i, i + |pat|);
  }

  /** The WhiteSpace and LineTerminator code points that String.prototype.trim strips. */
  predicate IsWhite(c: char) {
    var n := c as int;
    (9 <= n <= 13) || n == 0x20 || n == 0xA0 || n == 0x1680 || (0x2000 <= n <= 0x200A) ||
    n == 0x2028 || n == 0x2029 || n == 0x202F || n == 0x205F || n == 0x3000 || n == 0xFEFF
  }

  function TrimStart(s: string): (r: string)
    ensures |r| <= |s| && r == s[|s| - |r|..]
    ensures r == [] || !IsWhite(r[0])
    ensures forall k :: 0 <= k < |s| - |r| ==> IsWhite(s[k])
  {
    if s != [] && IsWhite(s[0]) then TrimStart(s[1..]) else s
  }

  function TrimEnd(s: string): (r: string)
    ensures |r| <= |s| && r == s[..|r|]
    ensures r == [] || !IsWhite(r[|r| - 1])
    ensures forall k :: |r| <= k < |s| ==> IsWhite(s[k])
  {
    if s != [] && IsWhite(s[|s| - 1]) then TrimEnd(s[..|s| - 1]) else s
  }

  /** String.prototype.trim. */
  function Trim(s: string): string {
    TrimEnd(TrimStart(s))
  }

  lemma {:induction false} TrimStartAppendWhite(s: string, c: char)
    requires IsWhite(c)
    ensures TrimStart(s + [c]) == if TrimStart(s) == [] then [] else TrimStart(s) + [c]
  {
    if s == [] {
    } else if IsWhite(s[0]) {
      assert (s + [c])[1..] == s[1..] + [c];
      TrimStartAppendWhite(s[1..], c);
    }
  }

  /** Trailing whitespace never survives a trim. */
  lemma TrimIgnoresTrailingWhite(s: string, c: char)
    requires IsWhite(c)
    ensures Trim(s + [c]) == Trim(s)
  {
    TrimStartAppendWhite(s, c);
    var t := TrimStart(s);
    if t != [] {
      assert (t + [c])[..|t|] == t;
    }
  }
}
