// `SQL.minify` (apollo_script_master/_asm/sql.py): one `re.sub` of REGEX_MAP by a single space,
// then `strip()`.
//
// REGEX_MAP is `(^)?[^\S\n]*(?:--.*$|/\*(.*?)\*/[^\S\n]*|/[^\n]*)($)?` compiled with DOTALL and
// MULTILINE. Every alternative consumes at least one character, so `re.sub` behaves as a
// left-to-right scanner: at each position it either replaces the match that the pattern picks
// there by " " and resumes after it, or copies one character. The optional anchor groups never
// change the extent of a match.
module Sql {
  import opened Wrappers
  import opened Text

  /** Length of the `[^\S\n]*` run at the start of `s`. */
  function HorizontalRun(s: string): (n: nat)
    ensures n <= |s|
    ensures n < |s| ==> !IsHorizontalSpace(s[n])
  {
    if s != [] && IsHorizontalSpace(s[0]) then 1 + HorizontalRun(s[1..]) else 0
  }

  /**
   * The run is the longest prefix of blanks: every character it covers is horizontal
   * whitespace (and, by `HorizontalRun`'s own contract, the next one is not).
   */
  lemma {:induction false} HorizontalRunIsBlank(s: string)
    ensures forall k :: 0 <= k < HorizontalRun(s) ==> IsHorizontalSpace(s[k])
  {
    if s != [] && IsHorizontalSpace(s[0]) {
      HorizontalRunIsBlank(s[1..]);
      assert forall k :: 1 <= k < HorizontalRun(s) ==> s[k] == s[1..][k - 1];
    }
  }

  // Length of the match of the comment part of REGEX_MAP at the start of `rest` (the text
  // after the leading blanks), if there is one. The alternatives are tried in order: the line
  // comment `--.*$` (DOTALL: to the end of the input), the block comment (through the first
  // closing pair that starts at least two characters after the slash, plus the horizontal
  // whitespace after it), and the lone slash `/[^\n]*` (up to the next line feed, which is kept).
  function CommentLength(rest: string): (r: Option<nat>)
    ensures r.Some? ==> 0 < r.value <= |rest|
    ensures r.None? <==> !(rest != [] && rest[0] == '/') && !(|rest| >= 2 && rest[0] == '-' && rest[1] == '-')
  {
    if |rest| >= 2 && rest[0] == '-' && rest[1] == '-' then
      Some(|rest|)
    else if rest != [] && rest[0] == '/' then
      if |rest| >= 2 && rest[1] == '*' && FindClose(rest, 2).Some? then
        var close := FindClose(rest, 2).value + 2;
        Some(close + HorizontalRun(rest[close..]))
      else
        Some(LineEnd(rest))
    else
      None
  }

  /** Length of the REGEX_MAP match that starts at the first character of `s`, if one does. */
  function MatchLength(s: string): (r: Option<nat>)
    ensures r.Some? ==> 0 < r.value <= |s|
  {
    var j := HorizontalRun(s);
    match CommentLength(s[j..])
    case Some(n) => Some(j + n)
    case None => None
  }

  /** `REGEX_MAP.sub(' ', s)`: each match becomes one space, other characters are copied. */
  function Substitute(s: string): string
    decreases |s|
  {
    if s == [] then []
    else
      match MatchLength(s)
      case Some(n) => " " + Substitute(s[n..])
      case None => [s[0]] + Substitute(s[1..])
  }

  /**
   * No slash survives the substitution (every slash starts a match), and no "--" does
   * (a copied '-' is never followed by a copied '-', and a match becomes a space). The first
   * character is either the replacement space or the input's own first character.
   */
  lemma {:induction false} SubstituteShape(s: string)
    ensures NoChar(Substitute(s), '/')
    ensures NoDoubleDash(Substitute(s))
    ensures Substitute(s) != [] ==> Substitute(s)[0] == ' ' || (s != [] && Substitute(s)[0] == s[0] && MatchLength(s).None?)
  {
    if s != [] {
      match MatchLength(s)
      case Some(n) =>
        SubstituteReplaces(s, n);
        SubstituteShape(s[n..]);
        ConsShape(' ', Substitute(s[n..]));
      case None =>
        SubstituteCopies(s);
        SubstituteShape(s[1..]);
        NoMatchFirstChar(s);
        ConsShape(s[0], Substitute(s[1..]));
    }
  }

  /** Where no match starts, the first character is no slash and does not begin "--". */
  lemma {:induction false} NoMatchFirstChar(s: string)
    requires s != [] && MatchLength(s).None?
    ensures s[0] != '/'
    ensures s[0] == '-' && |s| >= 2 ==> s[1] != '-'
  {
    if !IsHorizontalSpace(s[0]) {
      assert HorizontalRun(s) == 0;
      assert s[0..] == s;
    }
  }

  /** A character put in front of text free of '/' and "--" keeps it so, unless it makes either. */
  lemma {:induction false} ConsShape(c: char, tail: string)
    requires NoChar(tail, '/') && NoDoubleDash(tail) && c != '/'
    requires c == '-' && tail != [] ==> tail[0] != '-'
    ensures NoChar([c] + tail, '/') && NoDoubleDash([c] + tail)
  {
    var r := [c] + tail;
    forall k | 0 <= k < |r| ensures r[k] != '/' && !DashPairAt(r, k) {
      if k > 0 { assert r[k] == tail[k - 1]; assert !DashPairAt(tail, k - 1); }
    }
  }

  /** `SQL(sql).minify()`: the substitution followed by `strip()`. */
  function Minify(sql: string): (r: string)
    ensures NoOuterSpace(r)
    ensures NoChar(r, '/')
    ensures NoDoubleDash(r)
  {
    SubstituteShape(sql);
    StripKeepsShape(Substitute(sql));
    Strip(Substitute(sql))
  }

  /**
   * Text with no '/' and no "--", whose last character is neither '-' nor horizontal
   * whitespace, passes through untouched whatever follows it.
   */
  predicate PlainPrefix(p: string) {
    NoChar(p, '/') && NoDoubleDash(p) && (p == [] || (p[|p| - 1] != '-' && !IsHorizontalSpace(p[|p| - 1])))
  }

  /** One step of the scan where no match starts: the first character is copied. */
  lemma {:induction false} SubstituteCopies(s: string)
    requires s != [] && MatchLength(s).None?
    ensures Substitute(s) == [s[0]] + Substitute(s[1..])
  {
  }

  /** One step of the scan where a match starts: it becomes a single space. */
  lemma {:induction false} SubstituteReplaces(s: string, n: nat)
    requires s != [] && MatchLength(s) == Some(n)
    ensures Substitute(s) == " " + Substitute(s[n..])
  {
  }

  /** No match starts at plain text: its first non-blank character is neither '-' nor '/'. */
  lemma {:induction false} NoMatchAtPlain(p: string, q: string)
    requires p != [] && PlainPrefix(p)
    ensures MatchLength(p + q).None?
  {
    var s := p + q;
    HorizontalRunInPlainPrefix(p, q);
    var j := HorizontalRun(s);
    assert s[j..][0] == p[j];
    assert p[j] != '/';
    if p[j] == '-' {
      assert j + 1 < |p| && !DashPairAt(p, j);
      assert s[j..][1] == p[j + 1];
    }
  }

  lemma {:induction false} SubstitutePlainPrefix(p: string, q: string)
    requires PlainPrefix(p)
    ensures Substitute(p + q) == p + Substitute(q)
  {
    if p != [] {
      PlainStep(p, q);
      SubstitutePlainPrefix(p[1..], q);
      AppendAssoc([p[0]], p[1..], Substitute(q));
      assert [p[0]] + p[1..] == p;
    } else {
      assert p + q == q;
    }
  }

  /** The first character of plain text is copied, and the rest is plain text again. */
  lemma {:induction false} PlainStep(p: string, q: string)
    requires p != [] && PlainPrefix(p)
    ensures Substitute(p + q) == [p[0]] + Substitute(p[1..] + q)
    ensures PlainPrefix(p[1..])
  {
    var s := p + q;
    NoMatchAtPlain(p, q);
    SubstituteCopies(s);
    assert s[1..] == p[1..] + q;
    PlainPrefixTail(p);
  }

  lemma {:induction false} PlainPrefixTail(p: string)
    requires p != [] && PlainPrefix(p)
    ensures PlainPrefix(p[1..])
  {
    SliceKeepsShape(p, 1, |p|);
    assert p[1..|p|] == p[1..];
  }

  lemma {:induction false} HorizontalRunInPlainPrefix(p: string, q: string)
    requires p != [] && !IsHorizontalSpace(p[|p| - 1])
    ensures HorizontalRun(p + q) < |p|
  {
    if IsHorizontalSpace(p[0]) {
      assert (p + q)[1..] == p[1..] + q;
      HorizontalRunInPlainPrefix(p[1..], q);
    }
  }

  /** The line-comment alternative: a `--` takes the rest of the input. */
  lemma {:induction false} MatchesLineComment(t: string)
    ensures CommentLength("--" + t) == Some(2 + |t|)
  {
  }

  /** The block-comment alternative: through the first closing pair and the blanks after it. */
  lemma {:induction false} MatchesBlockComment(c: string, w: string, q: string)
    requires FindClose(c, 0).None? && AllHorizontalSpace(w)
    requires q == [] || !IsHorizontalSpace(q[0])
    ensures CommentLength("/*" + c + "*/" + w + q) == Some(4 + |c| + |w|)
  {
    var rest := "/*" + c + "*/" + (w + q);
    assert rest == "/*" + c + "*/" + w + q;
    FirstCloseAfterBody(c, w + q);
    assert rest[4 + |c|..] == w + q;
    HorizontalRunOfPadded(w, q);
    BlockCommentMatch(rest, 2 + |c|, |w|);
  }

  lemma {:induction false} BlockCommentMatch(rest: string, k: nat, m: nat)
    requires |rest| >= 2 && rest[0] == '/' && rest[1] == '*'
    requires FindClose(rest, 2) == Some(k)
    requires HorizontalRun(rest[k + 2..]) == m
    ensures CommentLength(rest) == Some(k + 2 + m)
  {
  }

  /** The lone-slash alternative: up to the next line feed. */
  lemma {:induction false} MatchesLoneSlash(t: string, q: string)
    requires NoChar(t, '\n')
    requires t == [] || t[0] != '*' || FindClose("/" + t + "\n" + q, 2).None?
    ensures CommentLength("/" + t + "\n" + q) == Some(1 + |t|)
  {
    LineEndBeforeNewline("/" + t, q);
    assert "/" + t + "\n" + q == ("/" + t) + "\n" + q;
  }


  /** A match after a run of blanks covers the blanks too. */
  lemma {:induction false} MatchAfterBlanks(w: string, rest: string, n: nat)
    requires AllHorizontalSpace(w) && (rest == [] || !IsHorizontalSpace(rest[0]))
    requires CommentLength(rest) == Some(n)
    ensures MatchLength(w + rest) == Some(|w| + n)
  {
    HorizontalRunOfPadded(w, rest);
    assert (w + rest)[|w|..] == rest;
  }

  /**
   * Once a `--` is reached outside a block comment, it, everything after it and the
   * horizontal whitespace before it are removed.
   */
  lemma {:induction false} LineCommentRemovesRest(p: string, w: string, t: string)
    requires PlainPrefix(p) && AllHorizontalSpace(w)
    ensures Minify(p + w + "--" + t) == Strip(p)
  {
    AppendAssoc(p, w, "--" + t);
    AppendAssoc(p + w, "--", t);
    LineCommentBecomesSpace(p, w, t);
    StripTrailingSpace(p);
  }

  /**
   * The same at the level of the substitution, so that it can follow the other steps: the
   * scanned text so far is kept and the comment becomes the final space.
   */
  lemma {:induction false} LineCommentBecomesSpace(p: string, w: string, t: string)
    requires PlainPrefix(p) && AllHorizontalSpace(w)
    ensures Substitute(p + (w + ("--" + t))) == p + " "
  {
    var x := w + ("--" + t);
    SubstitutePlainPrefix(p, x);
    MatchesLineComment(t);
    MatchAfterBlanks(w, "--" + t, 2 + |t|);
    SubstituteReplaces(x, |x|);
    assert x[|x|..] == [];
  }

  /** Horizontal whitespace followed by anything else has exactly its own length as run. */
  lemma {:induction false} HorizontalRunOfPadded(w: string, u: string)
    requires AllHorizontalSpace(w)
    requires u == [] || !IsHorizontalSpace(u[0])
    ensures HorizontalRun(w + u) == |w|
  {
    if w == [] {
      assert w + u == u;
    } else {
      assert (w + u)[1..] == w[1..] + u;
      HorizontalRunOfPadded(w[1..], u);
    }
  }

  /** `strip()` ignores one more trailing space. */
  lemma {:induction false} StripTrailingSpace(p: string)
    ensures Strip(p + " ") == Strip(p)
  {
    var i := LeadingSpace(p);
    var m := Strip(p);
    var tail := p[i + |m|..];
    StripParts(p);
    AppendAssoc(p[..i] + m, tail, " ");
    LeadingRunIsSpace(p);
    SpaceAppended(tail);
    StripPadded(p[..i], m, tail + " ");
  }

  /** A text is its leading blanks, its stripped form and its trailing blanks. */
  lemma {:induction false} StripParts(p: string)
    ensures p == p[..LeadingSpace(p)] + Strip(p) + p[LeadingSpace(p) + |Strip(p)|..]
  {
  }

  lemma {:induction false} LeadingRunIsSpace(p: string)
    ensures AllSpace(p[..LeadingSpace(p)])
  {
    LeadingSpaceIsSpace(p);
    var i := LeadingSpace(p);
    forall k | 0 <= k < i ensures IsSpace(p[..i][k]) { assert p[..i][k] == p[k]; }
  }

  lemma {:induction false} SpaceAppended(t: string)
    requires AllSpace(t)
    ensures AllSpace(t + " ")
  {
    forall k | 0 <= k < |t + " "| ensures IsSpace((t + " ")[k]) {
      if k < |t| { assert (t + " ")[k] == t[k]; }
    }
  }

  /**
   * A closed block comment, with the horizontal whitespace on both sides of it, becomes one
   * space: the scan resumes at the first character after the comment and its trailing blanks.
   */
  lemma {:induction false} BlockCommentBecomesSpace(p: string, w1: string, c: string, w2: string, q: string)
    requires PlainPrefix(p) && AllHorizontalSpace(w1) && AllHorizontalSpace(w2)
    requires FindClose(c, 0).None?
    requires q == [] || !IsHorizontalSpace(q[0])
    ensures Substitute(p + (w1 + ("/*" + c + "*/" + w2 + q))) == p + (" " + Substitute(q))
  {
    BlockCommentAfterBlanks(w1, c, w2, q);
    SubstitutePlainPrefix(p, w1 + ("/*" + c + "*/" + w2 + q));
  }

  lemma {:induction false} BlockCommentAfterBlanks(w1: string, c: string, w2: string, q: string)
    requires AllHorizontalSpace(w1) && AllHorizontalSpace(w2)
    requires FindClose(c, 0).None?
    requires q == [] || !IsHorizontalSpace(q[0])
    ensures Substitute(w1 + ("/*" + c + "*/" + w2 + q)) == " " + Substitute(q)
  {
    var rest := "/*" + c + "*/" + w2 + q;
    var x := w1 + rest;
    var n := |w1| + 4 + |c| + |w2|;
    assert rest[0] == '/';
    MatchesBlockComment(c, w2, q);
    MatchAfterBlanks(w1, rest, 4 + |c| + |w2|);
    AfterBlockComment(w1, c, w2, q);
    ReplacedThen(x, n, q);
  }

  lemma {:induction false} AfterBlockComment(w1: string, c: string, w2: string, q: string)
    ensures (w1 + ("/*" + c + "*/" + w2 + q))[|w1| + 4 + |c| + |w2|..] == q
  {
  }

  /** Where a match of length `n` starts, the scan emits one space and goes on after it. */
  lemma {:induction false} ReplacedThen(x: string, n: nat, y: string)
    requires MatchLength(x) == Some(n) && n <= |x| && x[n..] == y
    ensures Substitute(x) == " " + Substitute(y)
  {
    SubstituteReplaces(x, n);
  }

  /**
   * A slash that does not open a closed block comment removes text only up to the next line
   * feed; the line feed and the lines after it are scanned on.
   */
  lemma {:induction false} LoneSlashStopsAtNewline(p: string, w: string, t: string, q: string)
    requires PlainPrefix(p) && AllHorizontalSpace(w) && NoChar(t, '\n')
    requires t == [] || t[0] != '*' || FindClose("/" + t + "\n" + q, 2).None?
    ensures Substitute(p + (w + ("/" + t + "\n" + q))) == p + (" \n" + Substitute(q))
  {
    LoneSlashThenNewline(w, t, q);
    SubstitutePlainPrefix(p, w + ("/" + t + "\n" + q));
  }

  lemma {:induction false} LoneSlashThenNewline(w: string, t: string, q: string)
    requires AllHorizontalSpace(w) && NoChar(t, '\n')
    requires t == [] || t[0] != '*' || FindClose("/" + t + "\n" + q, 2).None?
    ensures Substitute(w + ("/" + t + "\n" + q)) == " \n" + Substitute(q)
  {
    var x := w + ("/" + t + "\n" + q);
    var n := |w| + 1 + |t|;
    LoneSlashAfterBlanks(w, t, q);
    AfterLoneSlash(w, t, q);
    ReplacedThen(x, n, "\n" + q);
    NewlineCopied(q);
    AppendAssoc(" ", "\n", Substitute(q));
    assert " " + "\n" == " \n";
  }

  lemma {:induction false} AfterLoneSlash(w: string, t: string, q: string)
    ensures (w + ("/" + t + "\n" + q))[|w| + 1 + |t|..] == "\n" + q
  {
  }

  /** Blanks, then a lone slash: the match runs up to the line feed. */
  lemma {:induction false} LoneSlashAfterBlanks(w: string, t: string, q: string)
    requires AllHorizontalSpace(w) && NoChar(t, '\n')
    requires t == [] || t[0] != '*' || FindClose("/" + t + "\n" + q, 2).None?
    ensures MatchLength(w + ("/" + t + "\n" + q)) == Some(|w| + 1 + |t|)
  {
    MatchesLoneSlash(t, q);
    MatchAfterBlanks(w, "/" + t + "\n" + q, 1 + |t|);
  }

  /** A line feed outside any comment is copied. */
  lemma {:induction false} NewlineCopied(q: string)
    ensures Substitute("\n" + q) == "\n" + Substitute(q)
  {
    var nl := "\n" + q;
    assert HorizontalRun(nl) == 0;
    assert nl[0..] == nl;
    assert CommentLength(nl).None?;
    SubstituteCopies(nl);
    assert nl[1..] == q;
  }


  /** Text with no slash and no "--" is left alone by the substitution. */
  lemma {:induction false} SubstituteIdentity(s: string)
    requires NoChar(s, '/') && NoDoubleDash(s)
    ensures Substitute(s) == s
  {
    if s != [] {
      var j := HorizontalRun(s);
      assert MatchLength(s).None? by {
        if j < |s| - 1 { assert !DashPairAt(s, j); }
        if j < |s| { assert s[j] != '/'; }
      }
      assert NoDoubleDash(s[1..]) by {
        forall k | 0 <= k < |s[1..]| - 1 ensures !DashPairAt(s[1..], k) {
          assert !DashPairAt(s, k + 1);
        }
      }
      SubstituteIdentity(s[1..]);
    }
  }

  /** An input with neither '/' nor "--" is returned as `strip()` leaves it. */
  lemma {:induction false} MinifyWithoutComments(s: string)
    requires NoChar(s, '/') && NoDoubleDash(s)
    ensures Minify(s) == Strip(s)
  {
    SubstituteIdentity(s);
  }

  /** `"SELECT 1; -- n\nSELECT 2;"` minifies to `"SELECT 1;"`. */
  lemma {:induction false} LineCommentExample(sql: string)
    requires sql == "SELECT 1; -- n\nSELECT 2;"
    ensures Minify(sql) == "SELECT 1;"
  {
    LineExampleParts(sql);
    LineCommentRemovesRest("SELECT 1;", " ", " n\nSELECT 2;");
    StripNoOuterSpace("SELECT 1;");
  }

  lemma {:induction false} LineExampleParts(sql: string)
    requires sql == "SELECT 1; -- n\nSELECT 2;"
    ensures sql == "SELECT 1;" + " " + "--" + " n\nSELECT 2;"
    ensures PlainPrefix("SELECT 1;") && AllHorizontalSpace(" ") && NoOuterSpace("SELECT 1;")
  {
  }

  // "SELECT /* c */ 1" minifies to "SELECT 1".
  lemma {:induction false} BlockCommentExample(sql: string)
    requires sql == "SELECT /* c */ 1"
    ensures Minify(sql) == "SELECT 1"
  {
    BlockExampleParts(sql);
    BlockCommentBecomesSpace("SELECT", " ", " c ", " ", "1");
    SubstitutePlainPrefix("1", []);
    StripNoOuterSpace("SELECT 1");
  }

  // The pieces of "SELECT /* c */ 1" and the facts about them that the scan needs.
  lemma {:induction false} BlockExampleParts(sql: string)
    requires sql == "SELECT /* c */ 1"
    ensures sql == "SELECT" + (" " + ("/*" + " c " + "*/" + " " + "1"))
    ensures PlainPrefix("SELECT") && PlainPrefix("1") && AllHorizontalSpace(" ")
    ensures FindClose(" c ", 0).None? && !IsHorizontalSpace("1"[0])
    ensures "1" + [] == "1" && "SELECT" + (" " + "1") == "SELECT 1" && NoOuterSpace("SELECT 1")
  {
    assert FindClose(" c ", 0).None?;
  }

  /** `"SELECT a - b -- c"` minifies to `"SELECT a - b"`: a single '-' is kept. */
  lemma {:induction false} MinusThenLineCommentExample(sql: string)
    requires sql == "SELECT a - b -- c"
    ensures Minify(sql) == "SELECT a - b"
  {
    MinusExampleParts(sql);
    LineCommentRemovesRest("SELECT a - b", " ", " c");
    StripNoOuterSpace("SELECT a - b");
  }

  lemma {:induction false} MinusExampleParts(sql: string)
    requires sql == "SELECT a - b -- c"
    ensures sql == "SELECT a - b" + " " + "--" + " c"
    ensures PlainPrefix("SELECT a - b") && AllHorizontalSpace(" ") && NoOuterSpace("SELECT a - b")
  {
    var p := "SELECT a - b";
    forall k | 0 <= k < |p| ensures !DashPairAt(p, k) {
      if k == 9 { assert p[k + 1] == ' '; }
    }
  }

  /** `"SELECT /* a */ 1 -- b"` minifies to `"SELECT 1"`: a block comment, then a line comment. */
  lemma {:induction false} BlockThenLineExample(sql: string)
    requires sql == "SELECT /* a */ 1 -- b"
    ensures Minify(sql) == "SELECT 1"
  {
    var q := "1" + (" " + ("--" + " b"));
    BlockLineExampleParts(sql, q);
    BlockCommentBecomesSpace("SELECT", " ", " a ", " ", q);
    LineCommentBecomesSpace("1", " ", " b");
    StripTrailingSpace("SELECT 1");
    StripNoOuterSpace("SELECT 1");
  }

  lemma {:induction false} BlockLineExampleParts(sql: string, q: string)
    requires sql == "SELECT /* a */ 1 -- b"
    requires q == "1" + (" " + ("--" + " b"))
    ensures sql == "SELECT" + (" " + ("/*" + " a " + "*/" + " " + q))
    ensures PlainPrefix("SELECT") && PlainPrefix("1") && AllHorizontalSpace(" ")
    ensures FindClose(" a ", 0).None? && !IsHorizontalSpace(q[0])
    ensures "SELECT" + (" " + ("1" + " ")) == "SELECT 1" + " " && NoOuterSpace("SELECT 1")
  {
    assert FindClose(" a ", 0).None?;
  }
}
