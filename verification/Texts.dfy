/** Searching and splitting strings at a separator. */
module Texts {

  /** The first position of `c`, or the length when it does not occur. */
  function IndexOf(s: string, c: char): (i: nat)
    ensures i <= |s| && (i < |s| ==> s[i] == c)
    ensures c !in s[..i]
    ensures i == |s| <==> c !in s
  {
    if s == "" then 0
    else if s[0] == c then 0
    else
      assert s == [s[0]] + s[1..];
      var i := IndexOf(s[1..], c);
      assert s[..i + 1] == [s[0]] + s[1..][..i];
      i + 1
  }

  /** The last position of `c`; only meaningful when it occurs. */
  function LastIndexOf(s: string, c: char): (i: nat)
    requires c in s
    ensures i < |s| && s[i] == c && c !in s[i + 1..]
  {
    if s[|s| - 1] == c then |s| - 1
    else
      assert s == s[..|s| - 1] + [s[|s| - 1]];
      var i := LastIndexOf(s[..|s| - 1], c);
      assert s[i + 1..] == s[..|s| - 1][i + 1..] + [s[|s| - 1]];
      i
  }

  lemma {:induction false} IndexOfFirst(left: string, c: char, right: string)
    requires c !in left
    ensures IndexOf(left + [c] + right, c) == |left|
  {
    if left == "" {
      assert left + [c] + right == [c] + right;
    } else {
      assert left == [left[0]] + left[1..];
      assert (left + [c] + right)[1..] == left[1..] + [c] + right;
      IndexOfFirst(left[1..], c, right);
    }
  }

  lemma {:induction false} LastIndexOfLast(left: string, c: char, right: string)
    requires c !in right
    ensures LastIndexOf(left + [c] + right, c) == |left|
  {
    var s := left + [c] + right;
    assert s[|left|] == c;
    if right == "" {
      assert s[|s| - 1] == c;
    } else {
      assert right == right[..|right| - 1] + [right[|right| - 1]];
      assert s[..|s| - 1] == left + [c] + right[..|right| - 1];
      LastIndexOfLast(left, c, right[..|right| - 1]);
    }
  }

  // ------------------------------------------------------------------- stripping

  /** What Python's `str.strip()` removes. */
  predicate IsSpace(c: char) {
    || '\t' <= c <= '\r' || '\U{1c}' <= c <= ' ' || c == '\U{85}' || c == '\U{a0}' || c == '\U{1680}'
    || '\U{2000}' <= c <= '\U{200a}' || c == '\U{2028}' || c == '\U{2029}' || c == '\U{202f}'
    || c == '\U{205f}' || c == '\U{3000}'
  }

  function StripLeft(s: string): string {
    if s != "" && IsSpace(s[0]) then StripLeft(s[1..]) else s
  }

  function StripRight(s: string): string {
    if s != "" && IsSpace(s[|s| - 1]) then StripRight(s[..|s| - 1]) else s
  }

  function Strip(s: string): string {
    StripRight(StripLeft(s))
  }

  predicate Trimmed(s: string) {
    s != "" ==> !IsSpace(s[0]) && !IsSpace(s[|s| - 1])
  }

  lemma {:induction false} StripLeftTrims(s: string)
    ensures StripLeft(s) != "" ==> !IsSpace(StripLeft(s)[0])
    ensures ':' in StripLeft(s) <==> ':' in s
  {
    if s != "" && IsSpace(s[0]) {
      assert s == [s[0]] + s[1..];
      StripLeftTrims(s[1..]);
    }
  }

  lemma {:induction false} StripRightTrims(s: string)
    ensures StripRight(s) != "" ==> !IsSpace(StripRight(s)[|StripRight(s)| - 1]) && StripRight(s)[0] == s[0]
    ensures StripRight(s) != "" ==> s != ""
    ensures ':' in StripRight(s) <==> ':' in s
  {
    if s != "" && IsSpace(s[|s| - 1]) {
      assert s == s[..|s| - 1] + [s[|s| - 1]];
      StripRightTrims(s[..|s| - 1]);
    }
  }

  /** Stripping trims, leaves trimmed text alone, and keeps its colons. */
  lemma StripTrims(s: string)
    ensures Trimmed(Strip(s)) && (Trimmed(s) ==> Strip(s) == s) && (':' in Strip(s) <==> ':' in s)
  {
    StripLeftTrims(s);
    StripRightTrims(StripLeft(s));
    hide IsSpace;
  }

  lemma {:induction false} StripLeftRemoves(s: string) returns (n: nat)
    ensures n <= |s| && StripLeft(s) == s[n..] && forall i | 0 <= i < n :: IsSpace(s[i])
  {
    n := 0;
    if s != "" && IsSpace(s[0]) {
      var m := StripLeftRemoves(s[1..]);
      assert s[1..][m..] == s[m + 1..];
      forall i | 0 <= i < m + 1 ensures IsSpace(s[i]) {
        if i > 0 { assert s[1..][i - 1] == s[i]; }
      }
      n := m + 1;
    }
  }

  lemma {:induction false} StripRightRemoves(s: string) returns (n: nat)
    ensures n <= |s| && StripRight(s) == s[..n] && forall i | n <= i < |s| :: IsSpace(s[i])
  {
    n := |s|;
    if s != "" && IsSpace(s[|s| - 1]) {
      n := StripRightRemoves(s[..|s| - 1]);
      assert s[..|s| - 1][..n] == s[..n];
      forall i | n <= i < |s| ensures IsSpace(s[i]) {
        if i < |s| - 1 { assert s[..|s| - 1][i] == s[i]; }
      }
    }
  }

  /** Stripping cuts white space off the two ends, all of it, and nothing else. */
  lemma StripRemovesSpaceOnly(s: string)
    ensures exists i, j | 0 <= i <= j <= |s| ::
              Strip(s) == s[i..j] && forall k | 0 <= k < i || j <= k < |s| :: IsSpace(s[k])
    ensures Strip(s) == "" <==> forall c | c in s :: IsSpace(c)
  {
    var i := StripLeftRemoves(s);
    var m := StripRightRemoves(s[i..]);
    StripTrims(s);
    hide IsSpace;
    assert s[i..][..m] == s[i..i + m];
    forall k | i + m <= k < |s| ensures IsSpace(s[k]) { assert s[i..][k - i] == s[k]; }
  }
}
