/**
 * Character classes and string helpers of Python that the SQL normalisers rely on:
 * the whitespace class shared by `str.isspace`, `str.strip` and the `\s` escape of `re`,
 * `str.strip()` itself, and two searches used by the comment patterns.
 */
module Text {
  import opened Wrappers

  /** Python whitespace (CPython's Py_UNICODE_ISSPACE), the class of `\s` and of `strip()`. */
  predicate IsSpace(c: char) {
    var n := c as int;
    || 9 <= n <= 13 || 0x1C <= n <= 0x20
    || n == 0x85 || n == 0xA0 || n == 0x1680
    || 0x2000 <= n <= 0x200A
    || n == 0x2028 || n == 0x2029 || n == 0x202F || n == 0x205F || n == 0x3000
  }

  /** The class `[^\S\n]`: whitespace other than the line feed. */
  predicate IsHorizontalSpace(c: char) {
    IsSpace(c) && c != '\n'
  }

  predicate AllSpace(s: string) {
    forall k :: 0 <= k < |s| ==> IsSpace(s[k])
  }

  predicate AllHorizontalSpace(s: string) {
    forall k :: 0 <= k < |s| ==> IsHorizontalSpace(s[k])
  }

  /** Neither the first nor the last character is whitespace. */
  predicate NoOuterSpace(s: string) {
    s == [] || (!IsSpace(s[0]) && !IsSpace(s[|s| - 1]))
  }

  /** The character `c` occurs nowhere in `s`. */
  predicate NoChar(s: string, c: char) {
    forall k :: 0 <= k < |s| ==> s[k] != c
  }

  /** `s` holds "--" at index `k`. */
  predicate DashPairAt(s: string, k: int) {
    0 <= k < |s| - 1 && s[k] == '-' && s[k + 1] == '-'
  }

  /** No '-' is immediately followed by another '-'. */
  predicate NoDoubleDash(s: string) {
    forall k :: 0 <= k < |s| ==> !DashPairAt(s, k)
  }

  /** A slice keeps the absence of a character and of "--". */
  lemma {:induction false} SliceKeepsShape(s: string, i: nat, j: nat)
    requires i <= j <= |s|
    requires NoChar(s, '/') && NoDoubleDash(s)
    ensures NoChar(s[i..j], '/') && NoDoubleDash(s[i..j])
  {
    var t := s[i..j];
    forall k | 0 <= k < |t| ensures t[k] != '/' && !DashPairAt(t, k) {
      assert t[k] == s[i + k];
      assert !DashPairAt(s, i + k);
    }
  }

  /** `s` holds the closing pair of a block comment at index `k`. */
  predicate ClosesAt(s: string, k: int) {
    0 <= k < |s| - 1 && s[k] == '*' && s[k + 1] == '/'
  }

  /** Length of the whitespace run at the start of `s`. */
  function LeadingSpace(s: string): (n: nat)
    ensures n <= |s|
    ensures n < |s| ==> !IsSpace(s[n])
  {
    if s != [] && IsSpace(s[0]) then 1 + LeadingSpace(s[1..]) else 0
  }

  /** Everything before `LeadingSpace(s)` is whitespace. */
  lemma {:induction false} LeadingSpaceIsSpace(s: string)
    ensures forall k :: 0 <= k < LeadingSpace(s) ==> IsSpace(s[k])
  {
    if s != [] && IsSpace(s[0]) {
      LeadingSpaceIsSpace(s[1..]);
      assert forall k :: 1 <= k < LeadingSpace(s) ==> s[k] == s[1..][k - 1];
    }
  }

  /** Length of the whitespace run at the end of `s`. */
  function TrailingSpace(s: string): (n: nat)
    ensures n <= |s|
    ensures n < |s| ==> !IsSpace(s[|s| - 1 - n])
  {
    if s != [] && IsSpace(s[|s| - 1]) then 1 + TrailingSpace(s[..|s| - 1]) else 0
  }

  /** Everything from `|s| - TrailingSpace(s)` on is whitespace. */
  lemma {:induction false} TrailingSpaceIsSpace(s: string)
    ensures forall k :: |s| - TrailingSpace(s) <= k < |s| ==> IsSpace(s[k])
  {
    if s != [] && IsSpace(s[|s| - 1]) {
      TrailingSpaceIsSpace(s[..|s| - 1]);
    }
  }

  /**
   * Python's `str.strip()` with no argument: the result is the slice of `s` that starts after
   * its leading whitespace, everything after the slice is whitespace, and the slice itself
   * neither starts nor ends with whitespace.
   */
  function Strip(s: string): (r: string)
    ensures LeadingSpace(s) + |r| <= |s|
    ensures r == s[LeadingSpace(s)..LeadingSpace(s) + |r|]
    ensures AllSpace(s[LeadingSpace(s) + |r|..])
    ensures NoOuterSpace(r)
  {
    var t := s[LeadingSpace(s)..];
    assert t == [] || !IsSpace(t[0]);
    TrailingSpaceIsSpace(t);
    t[..|t| - TrailingSpace(t)]
  }

  /** A string padded with whitespace strips back to its core. */
  lemma {:induction false} StripPadded(a: string, m: string, b: string)
    requires AllSpace(a) && AllSpace(b) && NoOuterSpace(m)
    ensures Strip(a + m + b) == m
  {
    var s := a + m + b;
    LeadingSpaceIsSpace(s);
    if m == [] {
      assert AllSpace(s);
    } else {
      assert s[|a|] == m[0];
      assert LeadingSpace(s) == |a|;
      assert s[|a| + |m| - 1] == m[|m| - 1];
    }
  }

  /** Stripping a string that has no outer whitespace changes nothing. */
  lemma {:induction false} StripNoOuterSpace(m: string)
    requires NoOuterSpace(m)
    ensures Strip(m) == m
  {
    StripPadded([], m, []);
    assert [] + m + [] == m;
  }

  /** Index of the first closing pair starting at or after `from`, if any. */
  function FindClose(s: string, from: nat): (r: Option<nat>)
    decreases |s| - from
    ensures r.Some? ==> from <= r.value && ClosesAt(s, r.value)
  {
    if from + 1 >= |s| then None
    else if s[from] == '*' && s[from + 1] == '/' then Some(from)
    else FindClose(s, from + 1)
  }

  /** `FindClose` finds the first closing pair: none lies between `from` and its result. */
  lemma {:induction false} FindCloseIsFirst(s: string, from: nat)
    decreases |s| - from
    ensures FindClose(s, from).Some? ==> forall k :: from <= k < FindClose(s, from).value ==> !ClosesAt(s, k)
    ensures FindClose(s, from).None? ==> forall k :: from <= k ==> !ClosesAt(s, k)
  {
    if from + 1 < |s| && !(s[from] == '*' && s[from + 1] == '/') {
      FindCloseIsFirst(s, from + 1);
    }
  }

  /** Index of the first line feed in `s`, or `|s|` when there is none. */
  function LineEnd(s: string): (n: nat)
    ensures n <= |s|
    ensures n < |s| ==> s[n] == '\n'
  {
    if s == [] || s[0] == '\n' then 0 else 1 + LineEnd(s[1..])
  }

  /** No line feed comes before `LineEnd(s)`. */
  lemma {:induction false} LineEndIsFirst(s: string)
    ensures forall k :: 0 <= k < LineEnd(s) ==> s[k] != '\n'
  {
    if s != [] && s[0] != '\n' {
      LineEndIsFirst(s[1..]);
      assert forall k :: 1 <= k < LineEnd(s) ==> s[k] == s[1..][k - 1];
    }
  }

  /** A text without line feeds, then a line feed: `LineEnd` stops exactly there. */
  lemma {:induction false} LineEndBeforeNewline(t: string, q: string)
    requires NoChar(t, '\n')
    ensures LineEnd(t + "\n" + q) == |t|
  {
    if t != [] {
      assert (t + "\n" + q)[1..] == t[1..] + "\n" + q;
      LineEndBeforeNewline(t[1..], q);
    }
  }

  // In "/*" + c + "*/", where c holds no closing pair, the first closing pair is the final one.
  lemma {:induction false} FirstCloseAfterBody(c: string, u: string)
    requires FindClose(c, 0).None?
    ensures FindClose("/*" + c + "*/" + u, 2) == Some(2 + |c|)
  {
    var rest := "/*" + c + "*/" + u;
    FindCloseIsFirst(c, 0);
    FindCloseIsFirst(rest, 2);
    assert ClosesAt(rest, 2 + |c|);
    forall k | 2 <= k < 2 + |c|
      ensures !ClosesAt(rest, k)
    {
      if k + 1 < 2 + |c| {
        assert rest[k] == c[k - 2] && rest[k + 1] == c[k - 1];
        assert !ClosesAt(c, k - 2);
      } else {
        assert rest[k + 1] == '*';
      }
    }
  }

  /** Stripping keeps text free of '/' and "--". */
  lemma {:induction false} StripKeepsShape(s: string)
    requires NoChar(s, '/') && NoDoubleDash(s)
    ensures NoChar(Strip(s), '/') && NoDoubleDash(Strip(s))
  {
    var i := LeadingSpace(s);
    SliceKeepsShape(s, i, i + |Strip(s)|);
  }

  /** A text without `c` has no `c` after its first character either. */
  lemma {:induction false} NoCharTail(s: string, c: char)
    requires s != [] && NoChar(s, c)
    ensures NoChar(s[1..], c)
  {
    forall k | 0 <= k < |s[1..]| ensures s[1..][k] != c { assert s[1..][k] == s[k + 1]; }
  }

  /** Concatenation regrouped. */
  lemma AppendAssoc(a: string, b: string, c: string)
    ensures a + (b + c) == (a + b) + c
  {
  }
}
