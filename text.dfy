/**
 * The string primitives of PHP that the core relies on: `strtolower`,
 * `strtoupper` (both byte-wise and ASCII-only, as in PHP 8.2 and the
 * default "C" locale), `substr($s, 0, 1)` and `implode`.
 */
module Text {

  /** `strtolower` on one character: only 'A'..'Z' change. */
  function LowerChar(c: char): (r: char)
    ensures 'A' <= c <= 'Z' ==> 'a' <= r <= 'z' && r as int == c as int + 32
    ensures !('A' <= c <= 'Z') ==> r == c
  {
    if 'A' <= c <= 'Z' then (c as int + 32) as char else c
  }

  /** `strtoupper` on one character: only 'a'..'z' change. */
  function UpperChar(c: char): (r: char)
    ensures 'a' <= c <= 'z' ==> 'A' <= r <= 'Z' && r as int == c as int - 32
    ensures !('a' <= c <= 'z') ==> r == c
  {
    if 'a' <= c <= 'z' then (c as int - 32) as char else c
  }

  /** PHP `strtolower`. */
  function ToLower(s: string): (r: string)
    ensures |r| == |s|
    ensures forall i :: 0 <= i < |s| ==> r[i] == LowerChar(s[i])
  {
    seq(|s|, i requires 0 <= i < |s| => LowerChar(s[i]))
  }

  /** PHP `strtoupper`. */
  function ToUpper(s: string): (r: string)
    ensures |r| == |s|
    ensures forall i :: 0 <= i < |s| ==> r[i] == UpperChar(s[i])
  {
    seq(|s|, i requires 0 <= i < |s| => UpperChar(s[i]))
  }

  /** Lower-casing twice is lower-casing once. */
  lemma ToLowerIdempotent(s: string)
    ensures ToLower(ToLower(s)) == ToLower(s)
  {
  }

  /** Upper-casing does not change what a string lower-cases to. */
  lemma ToLowerOfToUpper(s: string)
    ensures ToLower(ToUpper(s)) == ToLower(s)
  {
  }

  /** PHP `substr($s, 0, 1)`: the first character, or "" for "". */
  function FirstChar(s: string): (r: string)
    ensures |r| == (if s == "" then 0 else 1)
    ensures s != "" ==> r[0] == s[0] && s == r + s[1..]
  {
    if s == "" then "" else s[..1]
  }

  /** PHP `implode($glue, $words)`. */
  function Join(words: seq<string>, glue: string): string
  {
    if |words| == 0 then ""
    else if |words| == 1 then words[0]
    else words[0] + glue + Join(words[1..], glue)
  }

  /** Joining puts exactly one glue between neighbouring words. */
  lemma {:induction false} JoinLength(words: seq<string>, glue: string)
    requires |words| > 0
    ensures |Join(words, glue)| == SumLengths(words) + (|words| - 1) * |glue|
  {
    if |words| > 1 {
      JoinLength(words[1..], glue);
    }
  }

  /** The total length of a list of words. */
  function SumLengths(words: seq<string>): nat
  {
    if words == [] then 0 else |words[0]| + SumLengths(words[1..])
  }

  /** Position of the first `c` in `s`, or |s| when there is none. */
  function IndexOf(s: string, c: char): (i: nat)
    ensures i <= |s|
    ensures i < |s| ==> s[i] == c
    ensures forall j :: 0 <= j < i ==> s[j] != c
    ensures i == |s| <==> c !in s
  {
    if s == [] then 0 else if s[0] == c then 0 else 1 + IndexOf(s[1..], c)
  }

  /**
   * Splitting at every occurrence of `c` (PHP `explode` with a
   * one-character delimiter): the inverse of `Join` with that glue.
   */
  function Split(s: string, c: char): (parts: seq<string>)
    ensures |parts| > 0
    decreases |s|
  {
    var i := IndexOf(s, c);
    if i == |s| then [s] else [s[..i]] + Split(s[i + 1..], c)
  }

  /**
   * Joining words that contain no space with " " and splitting the
   * result at spaces gives the words back: the search term built from
   * the command-line words determines those words.
   */
  lemma {:induction false} SplitJoin(words: seq<string>, c: char)
    requires |words| > 0
    requires forall k :: 0 <= k < |words| ==> c !in words[k]
    ensures Split(Join(words, [c]), c) == words
  {
    var w := words[0];
    if |words| == 1 {
      assert IndexOf(w, c) == |w|;
    } else {
      var rest := Join(words[1..], [c]);
      var s := w + [c] + rest;
      assert Join(words, [c]) == s;
      IndexOfPrefix(w, c, rest);
      assert s[..|w|] == w;
      assert s[|w| + 1..] == rest;
      SplitJoin(words[1..], c);
      assert Split(s, c) == [w] + Split(rest, c);
      assert words == [w] + words[1..];
    }
  }

  /** In `w + [c] + rest` the first `c` sits right after `w` when `w` has none. */
  lemma {:induction false} IndexOfPrefix(w: string, c: char, rest: string)
    requires c !in w
    ensures IndexOf(w + [c] + rest, c) == |w|
  {
    if w != [] {
      assert (w + [c] + rest)[1..] == w[1..] + [c] + rest;
      IndexOfPrefix(w[1..], c, rest);
    } else {
      assert (w + [c] + rest)[0] == c;
    }
  }
}
