/** Text primitives the CTQ tool borrows from its string library: splitting on a
    separator (keeping or skipping empty parts), joining, whitespace trimming,
    suffix tests and replace-all. Each is defined once here and used by the
    tree import (TreeModel) and the string helpers (Utilities). */
module Strings {

  /** Index of the first occurrence of `c` in `s`. */
  function IndexOf(s: string, c: char): (i: nat)
    requires c in s
    ensures i < |s| && s[i] == c && c !in s[..i]
  {
    if s[0] == c then 0 else 1 + IndexOf(s[1..], c)
  }

  /** Split `s` at every `sep`, keeping empty parts (the library's default). */
  function Split(s: string, sep: char): (parts: seq<string>)
    ensures |parts| >= 1
    ensures forall i :: 0 <= i < |parts| ==> sep !in parts[i]
    decreases |s|
  {
    if sep !in s then [s]
    else
      var i := IndexOf(s, sep);
      [s[..i]] + Split(s[i + 1..], sep)
  }

  /** Concatenate `parts`, putting one `sep` between neighbours. */
  function Join(parts: seq<string>, sep: string): string
  {
    if |parts| == 0 then ""
    else if |parts| == 1 then parts[0]
    else parts[0] + sep + Join(parts[1..], sep)
  }

  /** Splitting loses nothing: joining the parts back gives the original text. */
  lemma {:induction false} JoinSplit(s: string, sep: char)
    ensures Join(Split(s, sep), [sep]) == s
    decreases |s|
  {
    if sep in s {
      var i := IndexOf(s, sep);
      var rest := s[i + 1..];
      var parts := Split(s, sep);
      assert parts == [s[..i]] + Split(rest, sep);
      assert parts[1..] == Split(rest, sep);
      JoinSplit(rest, sep);
      assert Join(parts, [sep]) == s[..i] + [sep] + rest;
      assert s == s[..i] + [sep] + rest;
    }
  }

  /** Conversely, parts free of the separator are recovered by splitting their join. */
  lemma {:induction false} SplitJoin(parts: seq<string>, sep: char)
    requires |parts| >= 1
    requires forall i :: 0 <= i < |parts| ==> sep !in parts[i]
    ensures Split(Join(parts, [sep]), sep) == parts
  {
    if |parts| == 1 {
      assert sep !in parts[0];
    } else {
      var tail := Join(parts[1..], [sep]);
      SplitJoin(parts[1..], sep);
      var s := parts[0] + [sep] + tail;
      assert s[|parts[0]|] == sep;
      assert s[..|parts[0]|] == parts[0];
      assert sep in s;
      var i := IndexOf(s, sep);
      assert forall k :: 0 <= k < |parts[0]| ==> s[k] == parts[0][k];
      assert i == |parts[0]|;
      assert s[i + 1..] == tail;
    }
  }

  /** The parts of `Split` that are not empty (the library's SkipEmptyParts). */
  function NonEmpty(parts: seq<string>): (r: seq<string>)
    ensures forall i :: 0 <= i < |r| ==> r[i] != ""
    ensures |r| <= |parts|
    ensures |r| == |parts| <==> forall i :: 0 <= i < |parts| ==> parts[i] != ""
  {
    if parts == [] then []
    else if parts[0] == "" then NonEmpty(parts[1..])
    else
      assert forall i :: 1 <= i < |parts| ==> parts[i] == parts[1..][i - 1];
      [parts[0]] + NonEmpty(parts[1..])
  }

  /** Skipping empty parts works part by part: the parts of a concatenation that
      are kept are those kept from each side, in order, and a single part is kept
      exactly when it is not empty. */
  lemma {:induction false} NonEmptyConcat(a: seq<string>, b: seq<string>)
    ensures NonEmpty(a + b) == NonEmpty(a) + NonEmpty(b)
    ensures |a| == 1 ==> NonEmpty(a) == if a[0] == "" then [] else a
    decreases |a|
  {
    if a == [] {
      assert a + b == b;
    } else {
      assert (a + b)[0] == a[0] && (a + b)[1..] == a[1..] + b;
      NonEmptyConcat(a[1..], b);
      if |a| == 1 {
        assert a[1..] == [];
      }
    }
  }

  /** Split on `sep`, dropping empty parts. */
  function SplitSkipEmpty(s: string, sep: char): seq<string>
  {
    NonEmpty(Split(s, sep))
  }

  /** The characters the string library treats as white space: the ASCII
      controls TAB..CR, SPACE, and the Unicode separators it also recognises. */
  predicate IsSpace(c: char)
  {
    c == ' ' || ('\t' <= c <= '\r') || c == '\U{85}' || c == '\U{A0}' || c == '\U{1680}'
    || ('\U{2000}' <= c <= '\U{200A}') || c == '\U{2028}' || c == '\U{2029}'
    || c == '\U{202F}' || c == '\U{205F}' || c == '\U{3000}'
  }

  /** Number of white-space characters at the start of `s`. */
  function LeadingSpace(s: string): (n: nat)
    ensures n <= |s|
    ensures forall i :: 0 <= i < n ==> IsSpace(s[i])
    ensures n == |s| || !IsSpace(s[n])
  {
    if s == [] || !IsSpace(s[0]) then 0 else 1 + LeadingSpace(s[1..])
  }

  /** Number of white-space characters at the end of `s`. */
  function TrailingSpace(s: string): (n: nat)
    ensures n <= |s|
    ensures forall i :: |s| - n <= i < |s| ==> IsSpace(s[i])
    ensures n == |s| || !IsSpace(s[|s| - 1 - n])
  {
    if s == [] || !IsSpace(s[|s| - 1]) then 0 else 1 + TrailingSpace(s[..|s| - 1])
  }

  /** `s` without leading and trailing white space. */
  function Trimmed(s: string): string
  {
    var a := LeadingSpace(s);
    var rest := s[a..];
    rest[..|rest| - TrailingSpace(rest)]
  }

  /** Trimming removes white space only at the ends: the result is a slice of `s`,
      everything cut off is white space, and the result neither starts nor ends with it. */
  lemma TrimmedIsCore(s: string)
    ensures var a := LeadingSpace(s);
            var t := Trimmed(s);
            a + |t| <= |s| && t == s[a..a + |t|]
            && (forall i :: 0 <= i < a ==> IsSpace(s[i]))
            && (forall i :: a + |t| <= i < |s| ==> IsSpace(s[i]))
            && (t != [] ==> !IsSpace(t[0]) && !IsSpace(t[|t| - 1]))
  {
    var a := LeadingSpace(s);
    var rest := s[a..];
    var b := TrailingSpace(rest);
    assert Trimmed(s) == rest[..|rest| - b];
    SliceEnd(s, a, b);
    TrimmedEnds(s);
  }

  lemma TrimmedEnds(s: string)
    ensures var t := Trimmed(s);
            t != [] ==> !IsSpace(t[0]) && !IsSpace(t[|t| - 1])
  {
    var a := LeadingSpace(s);
    var rest := s[a..];
    var b := TrailingSpace(rest);
    var t := rest[..|rest| - b];
    if t != [] {
      assert !IsSpace(s[a]) && !IsSpace(rest[|rest| - 1 - b]);
      assert t[0] == s[a] && t[|t| - 1] == rest[|rest| - 1 - b];
    }
  }

  lemma SliceEnd(s: string, a: nat, b: nat)
    requires a <= |s| && b == TrailingSpace(s[a..])
    ensures forall i :: |s| - b <= i < |s| ==> IsSpace(s[i])
  {
    var rest := s[a..];
    forall i | |s| - b <= i < |s| ensures IsSpace(s[i]) {
      assert s[i] == rest[i - a];
    }
  }

  /** `s` ends with `suffix`. */
  predicate EndsWith(s: string, suffix: string)
  {
    |suffix| <= |s| && s[|s| - |suffix|..] == suffix
  }

  /** Every non-overlapping occurrence of `pat`, found left to right, removed from `s`
      (the library's replace-all with an empty replacement). */
  function RemoveAll(s: string, pat: string): (r: string)
    requires pat != ""
    ensures |r| <= |s|
    decreases |s|
  {
    if |s| < |pat| then s
    else if s[..|pat|] == pat then RemoveAll(s[|pat|..], pat)
    else [s[0]] + RemoveAll(s[1..], pat)
  }

  /** `pat` occurs in `s` at position `i`. */
  predicate OccursAt(s: string, pat: string, i: int)
  {
    0 <= i && i + |pat| <= |s| && s[i..i + |pat|] == pat
  }

  /** Removal changes a text exactly when the pattern occurs in it. */
  lemma {:induction false} RemoveAllUnchanged(s: string, pat: string)
    requires pat != ""
    ensures RemoveAll(s, pat) == s <==> forall i :: 0 <= i <= |s| - |pat| ==> !OccursAt(s, pat, i)
    decreases |s|
  {
    if |s| < |pat| {
    } else if s[..|pat|] == pat {
      assert OccursAt(s, pat, 0);
      assert |RemoveAll(s[|pat|..], pat)| < |s|;
    } else {
      assert !OccursAt(s, pat, 0);
      RemoveAllUnchanged(s[1..], pat);
      if RemoveAll(s, pat) == s {
        assert RemoveAll(s[1..], pat) == s[1..];
        forall i | 0 <= i <= |s| - |pat| ensures !OccursAt(s, pat, i) {
          if i > 0 {
            assert s[i..i + |pat|] == s[1..][i - 1..i - 1 + |pat|];
            assert !OccursAt(s[1..], pat, i - 1);
          }
        }
      } else {
        assert RemoveAll(s[1..], pat) != s[1..];
        var j :| 0 <= j <= |s| - 1 - |pat| && OccursAt(s[1..], pat, j);
        assert s[j + 1..j + 1 + |pat|] == s[1..][j..j + |pat|];
        assert OccursAt(s, pat, j + 1);
      }
    }
  }
}
