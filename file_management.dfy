// `minify_sql` of apollo_script_master/_asm/file_management.py: every statement chunk that the
// SQL parser splits the input into goes through four `re.sub` passes in a fixed order (line
// comments, line feeds, whitespace runs, block comments); the chunk results are joined in
// order and the join is stripped. The statement splitter belongs to a foreign library, so the
// chunks are an input here.
module FileManagement {
  import opened Wrappers
  import opened Text

  /** Every whitespace character of `s` is a plain space. */
  predicate OnlyPlainSpaces(s: string) {
    forall k :: 0 <= k < |s| ==> (IsSpace(s[k]) ==> s[k] == ' ')
  }

  /** `s` holds two whitespace characters in a row at index `k`. */
  predicate SpacePairAt(s: string, k: int) {
    0 <= k < |s| - 1 && IsSpace(s[k]) && IsSpace(s[k + 1])
  }

  /** Whitespace only as single plain spaces: the shape `\s+` -> " " leaves behind. */
  predicate SingleSpaced(s: string) {
    OnlyPlainSpaces(s) && forall k :: 0 <= k < |s| ==> !SpacePairAt(s, k)
  }

  /** `s` opens a block comment at index `k`. */
  predicate OpensAt(s: string, k: int) {
    0 <= k < |s| - 1 && s[k] == '/' && s[k + 1] == '*'
  }

  predicate NoOpen(s: string) {
    forall k :: 0 <= k < |s| ==> !OpensAt(s, k)
  }

  // ---------------------------------------------------------------------------------------
  // Pass 1: `re.sub(r"--.*?\n", " ", statement)`. Without DOTALL `.` stops at a line feed,
  // so a match is "--", the rest of that line and its line feed; a "--" with no line feed
  // after it is not a match and stays.
  // ---------------------------------------------------------------------------------------

  /** Length of the `--.*?\n` match at the start of `s`, if there is one. */
  function LineCommentLength(s: string): (r: Option<nat>)
    ensures r.Some? ==> 3 <= r.value <= |s| && s[r.value - 1] == '\n'
    ensures r.Some? <==> |s| >= 2 && s[0] == '-' && s[1] == '-' && LineEnd(s[2..]) < |s| - 2
  {
    if |s| >= 2 && s[0] == '-' && s[1] == '-' && LineEnd(s[2..]) < |s| - 2 then
      Some(LineEnd(s[2..]) + 3)
    else
      None
  }

  function DropLineComments(s: string): string
    decreases |s|
  {
    if s == [] then []
    else
      match LineCommentLength(s)
      case Some(n) => " " + DropLineComments(s[n..])
      case None => [s[0]] + DropLineComments(s[1..])
  }

  /** A chunk with no line feed keeps its "--" comments verbatim. */
  lemma {:induction false} LineCommentWithoutNewlineKept(s: string)
    requires NoChar(s, '\n')
    ensures DropLineComments(s) == s
  {
    if s != [] {
      var t := s[1..];
      assert NoChar(t, '\n') by {
        forall k | 0 <= k < |t| ensures t[k] != '\n' { assert t[k] == s[k + 1]; }
      }
      LineCommentWithoutNewlineKept(t);
      assert [s[0]] + t == s;
    }
  }

  /**
   * Whatever the first pass does to a text, a last line with no line feed after it is kept
   * verbatim, "--" and all.
   */
  lemma {:induction false} DropLineCommentsKeepsTail(p: string, u: string)
    requires NoChar(u, '\n')
    ensures DropLineComments(p + u) == DropLineComments(p) + u
    decreases |p|
  {
    if p == [] {
      assert p + u == u;
      LineCommentWithoutNewlineKept(u);
    } else {
      var s := p + u;
      LineCommentLengthOfPrefix(p, u);
      match LineCommentLength(p)
      case Some(n) =>
        assert s[n..] == p[n..] + u;
        DropLineCommentsKeepsTail(p[n..], u);
        AppendAssoc(" ", DropLineComments(p[n..]), u);
      case None =>
        assert s[0] == p[0];
        assert s[1..] == p[1..] + u;
        DropLineCommentsKeepsTail(p[1..], u);
        AppendAssoc([p[0]], DropLineComments(p[1..]), u);
    }
  }

  /** A match needs a line feed, so text without one appended never changes a match. */
  lemma {:induction false} LineCommentLengthOfPrefix(p: string, u: string)
    requires p != [] && NoChar(u, '\n')
    ensures LineCommentLength(p + u) == LineCommentLength(p)
  {
    var s := p + u;
    if |p| >= 2 {
      assert s[0] == p[0] && s[1] == p[1];
      assert s[2..] == p[2..] + u;
      LineEndAppend(p[2..], u);
      LineEndWithoutNewline(u);
    } else if u != [] {
      assert s[0] == p[0];
      assert s[2..] == u[1..];
      NoCharTail(u, '\n');
      LineEndWithoutNewline(u[1..]);
    } else {
      assert s == p;
    }
  }

  /** The first line feed of `a + b` is the first one of `a`, or else the first one of `b`. */
  lemma {:induction false} LineEndAppend(a: string, b: string)
    ensures LineEnd(a + b) == if LineEnd(a) < |a| then LineEnd(a) else |a| + LineEnd(b)
  {
    if a == [] {
      assert a + b == b;
    } else if a[0] != '\n' {
      assert (a + b)[1..] == a[1..] + b;
      LineEndAppend(a[1..], b);
    }
  }

  lemma {:induction false} LineEndWithoutNewline(u: string)
    requires NoChar(u, '\n')
    ensures LineEnd(u) == |u|
  {
  }

  /** A chunk without "--" is left alone by the first pass. */
  lemma {:induction false} DropLineCommentsIdentity(s: string)
    requires NoDoubleDash(s)
    ensures DropLineComments(s) == s
  {
    if s != [] {
      assert !DashPairAt(s, 0);
      assert NoDoubleDash(s[1..]) by {
        forall k | 0 <= k < |s[1..]| ensures !DashPairAt(s[1..], k) { assert !DashPairAt(s, k + 1); }
      }
      DropLineCommentsIdentity(s[1..]);
    }
  }

  /**
   * A "--" comment followed by a line feed becomes one space; the text before it, which holds
   * no "--" and does not end in '-', and the lines after it are kept.
   */
  lemma {:induction false} LineCommentWithNewlineReplaced(p: string, t: string, q: string)
    requires NoDoubleDash(p) && (p == [] || p[|p| - 1] != '-') && NoChar(t, '\n')
    ensures DropLineComments(p + ("--" + t + "\n" + q)) == p + " " + DropLineComments(q)
  {
    LineCommentAtStart(t, q);
    DropLineCommentsCopiesPrefix(p, "--" + t + "\n" + q);
  }

  lemma {:induction false} LineCommentAtStart(t: string, q: string)
    requires NoChar(t, '\n')
    ensures DropLineComments("--" + t + "\n" + q) == " " + DropLineComments(q)
  {
    var s := "--" + t + "\n" + q;
    assert s[2..] == t + "\n" + q;
    LineEndBeforeNewline(t, q);
    assert LineCommentLength(s) == Some(|t| + 3);
    assert s[|t| + 3..] == q;
  }

  /**
   * No match starts inside a prefix that holds no "--" and does not end in '-', whatever
   * follows it, so the first pass copies it.
   */
  lemma {:induction false} DropLineCommentsCopiesPrefix(p: string, x: string)
    requires NoDoubleDash(p) && (p == [] || p[|p| - 1] != '-')
    ensures DropLineComments(p + x) == p + DropLineComments(x)
  {
    if p == [] {
      assert p + x == x;
    } else {
      var s := p + x;
      assert s[0] == p[0];
      if p[0] == '-' {
        assert |p| >= 2 && !DashPairAt(p, 0);
        assert s[1] == p[1];
      }
      assert LineCommentLength(s).None?;
      assert s[1..] == p[1..] + x;
      NoDoubleDashTail(p);
      DropLineCommentsCopiesPrefix(p[1..], x);
      AppendAssoc([p[0]], p[1..], DropLineComments(x));
      assert [p[0]] + p[1..] == p;
    }
  }

  lemma {:induction false} NoDoubleDashTail(p: string)
    requires p != [] && NoDoubleDash(p)
    ensures NoDoubleDash(p[1..])
  {
    forall k | 0 <= k < |p[1..]| ensures !DashPairAt(p[1..], k) { assert !DashPairAt(p, k + 1); }
  }

  /** `"a-1 -- c\nb"` loses its comment but keeps the minus sign: `"a-1  b"`. */
  lemma {:induction false} MinusBeforeLineComment(s: string)
    requires s == "a-1 -- c\nb"
    ensures DropLineComments(s) == "a-1  b"
  {
    var p := "a-1 ";
    assert s == p + ("--" + " c" + "\n" + "b");
    assert NoDoubleDash(p) by {
      forall k | 0 <= k < |p| ensures !DashPairAt(p, k) {
        if k == 1 { assert p[2] == '1'; }
      }
    }
    LineCommentWithNewlineReplaced(p, " c", "b");
    LineCommentWithoutNewlineKept("b");
  }

  // ---------------------------------------------------------------------------------------
  // Pass 2: `re.sub(r"\n", " ", statement)`.
  // ---------------------------------------------------------------------------------------

  function NewlinesToSpaces(s: string): (r: string)
    ensures |r| == |s|
  {
    seq(|s|, k requires 0 <= k < |s| => if s[k] == '\n' then ' ' else s[k])
  }

  /** Each line feed becomes a space in its place, and every other character stays where it was. */
  lemma {:induction false} NewlinesToSpacesShape(s: string)
    ensures NoChar(NewlinesToSpaces(s), '\n')
    ensures forall k :: 0 <= k < |s| && s[k] == '\n' ==> NewlinesToSpaces(s)[k] == ' '
    ensures forall k :: 0 <= k < |s| && s[k] != '\n' ==> NewlinesToSpaces(s)[k] == s[k]
  {
  }

  // ---------------------------------------------------------------------------------------
  // Pass 3: `re.sub(r"\s+", " ", statement)`: every maximal whitespace run becomes one space.
  // ---------------------------------------------------------------------------------------

  function CollapseSpace(s: string): string
    decreases |s|
  {
    if s == [] then []
    else if IsSpace(s[0]) then " " + CollapseSpace(s[LeadingSpace(s)..])
    else [s[0]] + CollapseSpace(s[1..])
  }

  /** The first character after collapsing: a space exactly where the input starts with one. */
  lemma {:induction false} CollapseSpaceHead(s: string)
    requires s != []
    ensures CollapseSpace(s) != []
    ensures CollapseSpace(s)[0] == if IsSpace(s[0]) then ' ' else s[0]
  {
  }

  /** After the third pass whitespace occurs only as single plain spaces. */
  lemma {:induction false} CollapseSpaceSingleSpaced(s: string)
    decreases |s|
    ensures SingleSpaced(CollapseSpace(s))
  {
    if s != [] {
      var r := CollapseSpace(s);
      if IsSpace(s[0]) {
        var t := s[LeadingSpace(s)..];
        CollapseSpaceSingleSpaced(t);
        var c := CollapseSpace(t);
        assert r == " " + c;
        if t != [] {
          CollapseSpaceHead(t);
          assert !IsSpace(t[0]);
        }
        forall k | 0 <= k < |r| ensures (IsSpace(r[k]) ==> r[k] == ' ') && !SpacePairAt(r, k) {
          if k > 0 { assert r[k] == c[k - 1]; assert !SpacePairAt(c, k - 1); }
        }
      } else {
        var c := CollapseSpace(s[1..]);
        CollapseSpaceSingleSpaced(s[1..]);
        assert r == [s[0]] + c;
        forall k | 0 <= k < |r| ensures (IsSpace(r[k]) ==> r[k] == ' ') && !SpacePairAt(r, k) {
          if k > 0 { assert r[k] == c[k - 1]; assert !SpacePairAt(c, k - 1); }
        }
      }
    }
  }

  /** Text that is already single-spaced is a fixed point of the third pass. */
  lemma {:induction false} CollapseSpaceIdentity(s: string)
    requires SingleSpaced(s)
    decreases |s|
    ensures CollapseSpace(s) == s
  {
    if s != [] {
      var t := s[1..];
      assert SingleSpaced(t) by {
        forall k | 0 <= k < |t| ensures (IsSpace(t[k]) ==> t[k] == ' ') && !SpacePairAt(t, k) {
          assert t[k] == s[k + 1];
          assert !SpacePairAt(s, k + 1);
        }
      }
      if IsSpace(s[0]) {
        assert s[0] == ' ';
        assert LeadingSpace(s) == 1 by {
          assert !SpacePairAt(s, 0);
          if |s| > 1 { assert !IsSpace(s[1]); }
          assert LeadingSpace(s) == 1 + LeadingSpace(t);
        }
      }
      CollapseSpaceIdentity(t);
      assert [s[0]] + t == s;
    }
  }

  /** Collapsing twice is collapsing once. */
  lemma {:induction false} CollapseSpaceIdempotent(s: string)
    ensures CollapseSpace(CollapseSpace(s)) == CollapseSpace(s)
  {
    CollapseSpaceSingleSpaced(s);
    CollapseSpaceIdentity(CollapseSpace(s));
  }

  /** Line feeds are whitespace already, so the second pass does not change the third's result. */
  lemma {:induction false} NewlinesThenCollapse(s: string)
    decreases |s|
    ensures CollapseSpace(NewlinesToSpaces(s)) == CollapseSpace(s)
  {
    if s != [] {
      var n := NewlinesToSpaces(s);
      if IsSpace(s[0]) {
        var i := LeadingSpace(s);
        NewlinesLeadingSpace(s);
        assert n[i..] == NewlinesToSpaces(s[i..]);
        NewlinesThenCollapse(s[i..]);
      } else {
        assert n[1..] == NewlinesToSpaces(s[1..]);
        NewlinesThenCollapse(s[1..]);
      }
    }
  }

  lemma {:induction false} NewlinesLeadingSpace(s: string)
    decreases |s|
    ensures LeadingSpace(NewlinesToSpaces(s)) == LeadingSpace(s)
  {
    if s != [] {
      assert NewlinesToSpaces(s)[1..] == NewlinesToSpaces(s[1..]);
      NewlinesLeadingSpace(s[1..]);
    }
  }

  /** Collapsing cannot make a "/" and a "*" adjacent. */
  lemma {:induction false} CollapseSpaceNoOpen(s: string)
    requires NoOpen(s)
    decreases |s|
    ensures NoOpen(CollapseSpace(s))
  {
    if s != [] {
      var r := CollapseSpace(s);
      var j := if IsSpace(s[0]) then LeadingSpace(s) else 1;
      var t := s[j..];
      assert NoOpen(t) by {
        forall k | 0 <= k < |t| ensures !OpensAt(t, k) { assert !OpensAt(s, j + k); }
      }
      CollapseSpaceNoOpen(t);
      var c := CollapseSpace(t);
      assert r == (if IsSpace(s[0]) then " " else [s[0]]) + c;
      if c != [] && s[0] == '/' {
        CollapseSpaceHead(t);
        assert !OpensAt(s, 0);
      }
      forall k | 0 <= k < |r| ensures !OpensAt(r, k) {
        if k > 0 { assert r[k] == c[k - 1]; assert !OpensAt(c, k - 1); }
      }
    }
  }

  // ---------------------------------------------------------------------------------------
  // Pass 4: `re.sub(r"\/\*.*?\*\/", " ", statement)`. Without DOTALL the body of a match
  // holds no line feed, so it ends at the first closing pair that starts at least two
  // characters after the slash, provided no line feed comes before that pair.
  // ---------------------------------------------------------------------------------------

  /** Length of the `/\*.*?\*\/` match at the start of `s`, if there is one. */
  function BlockCommentLength(s: string): (r: Option<nat>)
    ensures r.Some? ==> 4 <= r.value <= |s|
    ensures r.Some? ==> OpensAt(s, 0) && ClosesAt(s, r.value - 2)
  {
    if |s| >= 2 && s[0] == '/' && s[1] == '*' && FindClose(s, 2).Some? && FindClose(s, 2).value <= 2 + LineEnd(s[2..]) then
      Some(FindClose(s, 2).value + 2)
    else
      None
  }

  function DropBlockComments(s: string): string
    decreases |s|
  {
    if s == [] then []
    else
      match BlockCommentLength(s)
      case Some(n) => " " + DropBlockComments(s[n..])
      case None => [s[0]] + DropBlockComments(s[1..])
  }

  /** The fourth pass inserts only plain spaces, so it keeps the shape of the third. */
  lemma {:induction false} DropBlockCommentsPlain(s: string)
    requires OnlyPlainSpaces(s)
    decreases |s|
    ensures OnlyPlainSpaces(DropBlockComments(s))
  {
    if s != [] {
      var r := DropBlockComments(s);
      match BlockCommentLength(s)
      case Some(n) =>
        var t := s[n..];
        assert OnlyPlainSpaces(t) by {
          forall k | 0 <= k < |t| ensures IsSpace(t[k]) ==> t[k] == ' ' { assert t[k] == s[n + k]; }
        }
        DropBlockCommentsPlain(t);
        var c := DropBlockComments(t);
        assert r == " " + c;
        forall k | 0 <= k < |r| ensures IsSpace(r[k]) ==> r[k] == ' ' {
          if k > 0 { assert r[k] == c[k - 1]; }
        }
      case None =>
        var t := s[1..];
        assert OnlyPlainSpaces(t) by {
          forall k | 0 <= k < |t| ensures IsSpace(t[k]) ==> t[k] == ' ' { assert t[k] == s[k + 1]; }
        }
        DropBlockCommentsPlain(t);
        var c := DropBlockComments(t);
        assert r == [s[0]] + c;
        forall k | 0 <= k < |r| ensures IsSpace(r[k]) ==> r[k] == ' ' {
          if k > 0 { assert r[k] == c[k - 1]; }
        }
    }
  }

  /** Text that opens no block comment is left alone by the fourth pass. */
  lemma {:induction false} DropBlockCommentsIdentity(s: string)
    requires NoOpen(s)
    decreases |s|
    ensures DropBlockComments(s) == s
  {
    if s != [] {
      assert !OpensAt(s, 0);
      var t := s[1..];
      assert NoOpen(t) by {
        forall k | 0 <= k < |t| ensures !OpensAt(t, k) { assert !OpensAt(s, k + 1); }
      }
      DropBlockCommentsIdentity(t);
      assert [s[0]] + t == s;
    }
  }

  /**
   * A block comment on one line becomes a single space; no blanks around it are taken. The
   * text before it opens no block comment and does not end in '/'.
   */
  lemma {:induction false} BlockCommentReplaced(p: string, c: string, q: string)
    requires NoOpen(p) && (p == [] || p[|p| - 1] != '/') && NoChar(c, '\n') && FindClose(c, 0).None?
    ensures DropBlockComments(p + ("/*" + c + "*/" + q)) == p + " " + DropBlockComments(q)
  {
    BlockCommentAtStart(c, q);
    DropBlockCommentsCopiesPrefix(p, "/*" + c + "*/" + q);
  }

  lemma {:induction false} BlockCommentAtStart(c: string, q: string)
    requires NoChar(c, '\n') && FindClose(c, 0).None?
    ensures DropBlockComments("/*" + c + "*/" + q) == " " + DropBlockComments(q)
  {
    var s := "/*" + c + "*/" + q;
    FirstCloseAfterBody(c, q);
    assert s[2..] == c + ("*/" + q);
    LineEndOfPlain(c, "*/" + q);
    assert BlockCommentLength(s) == Some(|c| + 4);
    assert s[|c| + 4..] == q;
  }

  /**
   * No match starts inside a prefix that opens no block comment and does not end in '/',
   * whatever follows it, so the fourth pass copies it.
   */
  lemma {:induction false} DropBlockCommentsCopiesPrefix(p: string, x: string)
    requires NoOpen(p) && (p == [] || p[|p| - 1] != '/')
    ensures DropBlockComments(p + x) == p + DropBlockComments(x)
  {
    if p == [] {
      assert p + x == x;
    } else {
      var s := p + x;
      assert s[0] == p[0];
      if p[0] == '/' {
        assert |p| >= 2 && !OpensAt(p, 0);
        assert s[1] == p[1];
      }
      assert BlockCommentLength(s).None?;
      assert s[1..] == p[1..] + x;
      assert NoOpen(p[1..]) by {
        forall k | 0 <= k < |p[1..]| ensures !OpensAt(p[1..], k) { assert !OpensAt(p, k + 1); }
      }
      DropBlockCommentsCopiesPrefix(p[1..], x);
      AppendAssoc([p[0]], p[1..], DropBlockComments(x));
      assert [p[0]] + p[1..] == p;
    }
  }

  /** `LineEnd` does not stop inside a prefix without line feeds. */
  lemma {:induction false} LineEndOfPlain(c: string, u: string)
    requires NoChar(c, '\n')
    ensures LineEnd(c + u) >= |c|
  {
    if c != [] {
      assert (c + u)[1..] == c[1..] + u;
      assert NoChar(c[1..], '\n') by {
        forall k | 0 <= k < |c[1..]| ensures c[1..][k] != '\n' { assert c[1..][k] == c[k + 1]; }
      }
      LineEndOfPlain(c[1..], u);
    }
  }

  // ---------------------------------------------------------------------------------------
  // The whole function.
  // ---------------------------------------------------------------------------------------

  /** The four passes over one chunk, in the order of the loop body. */
  function NormaliseChunk(chunk: string): (r: string)
    ensures OnlyPlainSpaces(r)
  {
    var collapsed := CollapseSpace(NewlinesToSpaces(DropLineComments(chunk)));
    CollapseSpaceSingleSpaced(NewlinesToSpaces(DropLineComments(chunk)));
    DropBlockCommentsPlain(collapsed);
    DropBlockComments(collapsed)
  }

  /** `"".join(statements)`. */
  function Join(ss: seq<string>): string {
    if ss == [] then [] else ss[0] + Join(ss[1..])
  }

  /** Joining texts of plain spaces gives a text of plain spaces. */
  lemma {:induction false} JoinPlain(ss: seq<string>)
    requires forall i :: 0 <= i < |ss| ==> OnlyPlainSpaces(ss[i])
    ensures OnlyPlainSpaces(Join(ss))
  {
    if ss != [] {
      JoinPlain(ss[1..]);
      var h := ss[0];
      var t := Join(ss[1..]);
      assert OnlyPlainSpaces(h);
      forall k | 0 <= k < |h + t| ensures IsSpace((h + t)[k]) ==> (h + t)[k] == ' ' {
        if k < |h| { assert (h + t)[k] == h[k]; } else { assert (h + t)[k] == t[k - |h|]; }
      }
    }
  }

  /** The list `statements` the loop builds: one normalised chunk per parsed chunk, in order. */
  function Normalised(chunks: seq<string>): (r: seq<string>)
    ensures |r| == |chunks|
  {
    seq(|chunks|, k requires 0 <= k < |chunks| => NormaliseChunk(chunks[k]))
  }

  /**
   * The value `minify_sql` returns for the parsed chunks: no leading or trailing whitespace,
   * no line feed, and every whitespace character left is a plain space.
   */
  function Minified(chunks: seq<string>): (r: string)
    ensures NoOuterSpace(r)
    ensures OnlyPlainSpaces(r)
    ensures NoChar(r, '\n')
  {
    var joined := Join(Normalised(chunks));
    JoinPlain(Normalised(chunks));
    StripKeepsPlain(joined);
    Strip(joined)
  }

  lemma {:induction false} StripKeepsPlain(s: string)
    requires OnlyPlainSpaces(s)
    ensures OnlyPlainSpaces(Strip(s)) && NoChar(Strip(s), '\n')
  {
    var i := LeadingSpace(s);
    var r := Strip(s);
    forall k | 0 <= k < |r| ensures (IsSpace(r[k]) ==> r[k] == ' ') && r[k] != '\n' {
      assert r[k] == s[i + k];
    }
  }

  /** `minify_sql`: the loop over the parsed chunks, then join and strip. */
  method MinifySql(chunks: seq<string>) returns (r: string)
    ensures r == Minified(chunks)
    ensures NoOuterSpace(r) && OnlyPlainSpaces(r) && NoChar(r, '\n')
  {
    var statements: seq<string> := [];
    for i := 0 to |chunks|
      invariant |statements| == i
      invariant forall k :: 0 <= k < i ==> statements[k] == NormaliseChunk(chunks[k])
    {
      var statement := DropLineComments(chunks[i]);
      statement := NewlinesToSpaces(statement);
      statement := CollapseSpace(statement);
      statement := DropBlockComments(statement);
      statements := statements + [statement];
    }
    assert statements == Normalised(chunks);
    r := Strip(Join(statements));
  }

  /** `"".join` of a single statement is that statement. */
  lemma {:induction false} JoinSingle(x: string)
    ensures Join([x]) == x
  {
    assert [x][1..] == [];
    assert x + [] == x;
  }

  // A single chunk with neither "--" nor "/*" only has its whitespace runs collapsed to one
  // space each, and is then stripped.
  lemma {:induction false} PlainChunk(s: string)
    requires NoDoubleDash(s) && NoOpen(s)
    ensures Minified([s]) == Strip(CollapseSpace(s))
  {
    DropLineCommentsIdentity(s);
    NewlinesThenCollapse(s);
    CollapseSpaceNoOpen(s);
    DropBlockCommentsIdentity(CollapseSpace(s));
    assert Normalised([s]) == [CollapseSpace(s)];
    JoinSingle(CollapseSpace(s));
  }

  /** A chunk already in final form (single-spaced, no comment start) is returned unchanged. */
  lemma {:induction false} SettledChunk(s: string)
    requires NoChar(s, '\n') && SingleSpaced(s) && NoOpen(s) && NoOuterSpace(s)
    ensures Minified([s]) == s
  {
    LineCommentWithoutNewlineKept(s);
    assert NewlinesToSpaces(s) == s;
    CollapseSpaceIdentity(s);
    DropBlockCommentsIdentity(s);
    assert Normalised([s]) == [s];
    JoinSingle(s);
    StripNoOuterSpace(s);
  }

  /** `"SELECT 1 -- x"` has no line feed after its "--", so the comment stays. */
  lemma {:induction false} UnterminatedLineCommentKept()
    ensures Minified(["SELECT 1 -- x"]) == "SELECT 1 -- x"
  {
    var s := "SELECT 1 -- x";
    assert SingleSpaced(s) by {
      forall k | 0 <= k < |s| ensures (IsSpace(s[k]) ==> s[k] == ' ') && !SpacePairAt(s, k) {
      }
    }
    SettledChunk(s);
  }

  // Block comments go after the whitespace is collapsed, so the spaces on both sides of the
  // comment and its replacement all stay: "a /* x */ b" becomes "a   b".
  lemma {:induction false} BlockCommentLeavesSpaces()
    ensures Minified(["a /* x */ b"]) == "a   b"
  {
    BlockExampleShape();
    SpacedBlockComment("a ", " x ", " b");
    assert "a " + ("/*" + " x " + "*/" + " b") == "a /* x */ b";
    assert "a " + " " + " b" == "a   b";
  }

  lemma {:induction false} BlockExampleShape()
    ensures NoChar("a ", '/') && NoChar(" x ", '\n') && FindClose(" x ", 0).None?
    ensures NoOpen(" b") && NoOuterSpace("a " + " " + " b")
    ensures NoChar("a " + ("/*" + " x " + "*/" + " b"), '\n')
    ensures SingleSpaced("a " + ("/*" + " x " + "*/" + " b"))
  {
    var s := "a " + ("/*" + " x " + "*/" + " b");
    assert s == "a /* x */ b";
    assert SingleSpaced(s) by {
      forall k | 0 <= k < |s| ensures (IsSpace(s[k]) ==> s[k] == ' ') && !SpacePairAt(s, k) {
      }
    }
  }

  /** A one-line block comment in an already single-spaced chunk becomes one more space. */
  lemma {:induction false} SpacedBlockComment(p: string, c: string, q: string)
    requires NoOpen(p) && (p == [] || p[|p| - 1] != '/') && NoChar(c, '\n') && FindClose(c, 0).None?
    requires NoOpen(q) && NoOuterSpace(p + " " + q)
    requires NoChar(p + ("/*" + c + "*/" + q), '\n') && SingleSpaced(p + ("/*" + c + "*/" + q))
    ensures Minified([p + ("/*" + c + "*/" + q)]) == p + " " + q
  {
    var s := p + ("/*" + c + "*/" + q);
    LineCommentWithoutNewlineKept(s);
    assert NewlinesToSpaces(s) == s;
    CollapseSpaceIdentity(s);
    BlockCommentReplaced(p, c, q);
    DropBlockCommentsIdentity(q);
    assert NormaliseChunk(s) == p + " " + q;
    assert Normalised([s]) == [p + " " + q];
    JoinSingle(p + " " + q);
    StripNoOuterSpace(p + " " + q);
  }

  /** `"a / b /* c */ d"` keeps the division: pass 4 alone gives `"a / b   d"`. */
  lemma {:induction false} DivisionBeforeBlockComment(s: string)
    requires s == "a / b /* c */ d"
    ensures DropBlockComments(s) == "a / b   d"
  {
    var p := "a / b ";
    assert s == p + ("/*" + " c " + "*/" + " d");
    assert NoOpen(p) by {
      forall k | 0 <= k < |p| ensures !OpensAt(p, k) {
        if k == 2 { assert p[3] == ' '; }
      }
    }
    assert FindClose(" c ", 0).None?;
    BlockCommentReplaced(p, " c ", " d");
    DropBlockCommentsIdentity(" d");
  }

  /** Feeding the result back in changes it again: the function is not idempotent. */
  lemma {:induction false} NotIdempotent()
    ensures Minified([Minified(["a /* x */ b"])]) != Minified(["a /* x */ b"])
  {
    BlockCommentLeavesSpaces();
    SpacesCollapsedExample();
  }

  /** `"a   b"` is collapsed to `"a b"`. */
  lemma {:induction false} SpacesCollapsedExample()
    ensures Minified(["a   b"]) == "a b"
  {
    PlainChunk("a   b");
    CollapseExampleStep();
    StripNoOuterSpace("a b");
  }

  lemma {:induction false} CollapseExampleStep()
    ensures CollapseSpace("a   b") == "a b"
  {
    assert LeadingSpace("   b") == 3;
    assert CollapseSpace("b") == "b";
  }
}
