/** The text helpers of the CTQ tool: first-character and longest common
    prefixes, the source-file extension test, and the joining of a multi-line
    selection into one line of text. */
module Utilities {
  import opened Strings

  /** What `CommonPrefix` needs of its arguments: it reads `b` at every position
      of `a` up to the first mismatch, so either `b` is at least as long as `a`,
      or `a` and `b` differ somewhere within `b`. */
  predicate StaysWithinB(a: string, b: string)
  {
    |a| <= |b| || a[..|b|] != b
  }

  /** Length of the longest common prefix of `a` and `b`. */
  function CommonPrefixLength(a: string, b: string): (n: nat)
    ensures n <= |a| && n <= |b|
    ensures a[..n] == b[..n]
    ensures n == |a| || n == |b| || a[n] != b[n]
  {
    if |a| == 0 || |b| == 0 || a[0] != b[0] then 0
    else
      var n := 1 + CommonPrefixLength(a[1..], b[1..]);
      assert a[..n] == [a[0]] + a[1..][..n - 1] && b[..n] == [b[0]] + b[1..][..n - 1];
      n
  }

  /** The three properties in the contract of `CommonPrefixLength` pin it down:
      any length with a matching prefix and a mismatch (or the end of either
      string) right after it is that length. */
  lemma CommonPrefixLengthUnique(a: string, b: string, n: nat)
    requires n <= |a| && n <= |b| && a[..n] == b[..n]
    requires n == |a| || n == |b| || a[n] != b[n]
    ensures n == CommonPrefixLength(a, b)
  {
    var m := CommonPrefixLength(a, b);
    forall j | 0 <= j < m ensures a[j] == b[j] {
      assert a[..m][j] == b[..m][j];
    }
    forall j | 0 <= j < n ensures a[j] == b[j] {
      assert a[..n][j] == b[..n][j];
    }
  }

  /** Under `StaysWithinB` the common prefix never ends at the end of `b`
      alone: either `a` ends there too, or the strings differ within both. */
  lemma CommonPrefixWithinB(a: string, b: string)
    requires StaysWithinB(a, b)
    ensures var n := CommonPrefixLength(a, b);
            n == |a| || (n < |b| && a[n] != b[n])
  {
    var n := CommonPrefixLength(a, b);
    assert n == |b| ==> a[..|b|] == b;
  }

  /** The longest common prefix of `a` and `b`, built character by character. */
  method CommonPrefix(a: string, b: string) returns (prefix: string)
    requires StaysWithinB(a, b)
    ensures |prefix| <= |a| && |prefix| <= |b|
    ensures prefix == a[..|prefix|] && prefix == b[..|prefix|]
    ensures prefix == a || a[|prefix|] != b[|prefix|]
    ensures |prefix| == CommonPrefixLength(a, b)
  {
    prefix := "";
    var found := false;
    var i := 0;
    while i < |a| && !found
      invariant 0 <= i <= |a|
      invariant !found ==> i <= |b| && prefix == a[..i] && prefix == b[..i]
      invariant found ==> 1 <= i <= |b| && prefix == a[..i - 1] && prefix == b[..i - 1]
                          && a[i - 1] != b[i - 1]
    {
      assert b[..|b|] == b;
      if a[i] == b[i] {
        prefix := prefix + [a[i]];
      } else {
        found := true;
      }
      i := i + 1;
    }
    CommonPrefixLengthUnique(a, b, |prefix|);
  }

  /** Whether `a` and `b` share at least their first character: exactly when
      their longest common prefix is not empty. */
  function HasCommonPrefix(a: string, b: string): (r: bool)
    ensures r <==> CommonPrefixLength(a, b) > 0
  {
    |a| > 0 && |b| > 0 && a[0] == b[0]
  }

  /** The file-name endings of source code, in the order they are tried. */
  const CodeExtensions: seq<string> := [".cpp", ".c", ".h", ".i", ".res"]

  /** Whether `filename` ends with one of the code extensions. */
  method HasCodeExtension(filename: string) returns (r: bool)
    ensures r <==> EndsWith(filename, ".cpp") || EndsWith(filename, ".c")
                   || EndsWith(filename, ".h") || EndsWith(filename, ".i")
                   || EndsWith(filename, ".res")
  {
    var k := 0;
    while k < |CodeExtensions|
      invariant 0 <= k <= |CodeExtensions|
      invariant forall j :: 0 <= j < k ==> !EndsWith(filename, CodeExtensions[j])
    {
      if EndsWith(filename, CodeExtensions[k]) {
        return true;
      }
      k := k + 1;
    }
    assert CodeExtensions[0] == ".cpp" && CodeExtensions[1] == ".c" && CodeExtensions[2] == ".h"
        && CodeExtensions[3] == ".i" && CodeExtensions[4] == ".res";
    assert !EndsWith(filename, CodeExtensions[0]) && !EndsWith(filename, CodeExtensions[1])
        && !EndsWith(filename, CodeExtensions[2]) && !EndsWith(filename, CodeExtensions[3])
        && !EndsWith(filename, CodeExtensions[4]);
    return false;
  }

  /** The text of `s` from position `pos` to its end; empty when `pos` is past the end. */
  function Mid(s: string, pos: nat): (r: string)
    ensures |r| == if pos <= |s| then |s| - pos else 0
    ensures pos <= |s| ==> s == s[..pos] + r
  {
    if pos <= |s| then s[pos..] else ""
  }

  /** Every line with its first `k` characters cut off. */
  function StripAll(lines: seq<string>, k: nat): (r: seq<string>)
    ensures |r| == |lines|
  {
    seq(|lines|, i requires 0 <= i < |lines| => Mid(lines[i], k))
  }

  /** How many characters `ExtractMultiLineText` cuts from each line: the length
      of the common prefix of the first two lines, or nothing for fewer lines. */
  function StripWidth(lines: seq<string>): nat
  {
    if |lines| >= 2 then CommonPrefixLength(lines[0], lines[1]) else 0
  }

  /** The marker that is deleted from the joined text. */
  const QuoteMarker: string := "> >"

  /** A multi-line selection as one line: the common prefix of the first two
      lines is cut from every line, the lines are joined with single spaces,
      and every "> >" is deleted. */
  method ExtractMultiLineText(lines: seq<string>) returns (text: string)
    requires |lines| >= 2 ==> StaysWithinB(lines[0], lines[1])
    ensures text == RemoveAll(Join(StripAll(lines, StripWidth(lines)), " "), QuoteMarker)
  {
    var ls := lines;
    if |ls| >= 2 {
      var prefix := CommonPrefix(ls[0], ls[1]);
      var i := 0;
      while i < |ls|
        invariant 0 <= i <= |ls| == |lines|
        invariant forall j :: 0 <= j < i ==> ls[j] == Mid(lines[j], |prefix|)
        invariant forall j :: i <= j < |ls| ==> ls[j] == lines[j]
      {
        ls := ls[i := Mid(ls[i], |prefix|)];
        i := i + 1;
      }
      assert ls == StripAll(lines, StripWidth(lines));
    } else {
      assert ls == StripAll(lines, StripWidth(lines));
    }
    text := Join(ls, " ");
    text := RemoveAll(text, QuoteMarker);
  }

  /** What is cut is exactly the shared prefix: each of the first two lines is
      that prefix followed by its stripped text, and no longer shared prefix exists. */
  lemma StripAllKeepsRest(lines: seq<string>)
    requires |lines| >= 2
    ensures var k := StripWidth(lines);
            var p := lines[0][..k];
            lines[0] == p + StripAll(lines, k)[0] && lines[1] == p + StripAll(lines, k)[1]
            && (k == |lines[0]| || k == |lines[1]| || lines[0][k] != lines[1][k])
  {
    var k := StripWidth(lines);
    assert Mid(lines[0], k) == StripAll(lines, k)[0];
    assert Mid(lines[1], k) == StripAll(lines, k)[1];
  }

  /** Fewer than two lines are joined as they are. */
  lemma ExtractShortInputUnstripped(lines: seq<string>)
    requires |lines| < 2
    ensures StripAll(lines, StripWidth(lines)) == lines
  {
  }

  /** When the joined text holds no "> >", the result is the joined text itself. */
  lemma ExtractWithoutMarker(lines: seq<string>)
    requires var joined := Join(StripAll(lines, StripWidth(lines)), " ");
             forall i :: 0 <= i <= |joined| - |QuoteMarker| ==> !OccursAt(joined, QuoteMarker, i)
    ensures RemoveAll(Join(StripAll(lines, StripWidth(lines)), " "), QuoteMarker)
            == Join(StripAll(lines, StripWidth(lines)), " ")
  {
    RemoveAllUnchanged(Join(StripAll(lines, StripWidth(lines)), " "), QuoteMarker);
  }
}
