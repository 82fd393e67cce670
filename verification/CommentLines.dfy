/** How xtask/src/comment_width.rs reads one comment line, and the run of comment lines it stands in. */
module CommentLines {
  import opened Text
  import opened TextTheorems
  import opened CommentWidth

  predicate IsMark(c: char) { c == '/' || c == '!' }

  predicate AllMarks(s: string) { forall i :: 0 <= i < |s| ==> IsMark(s[i]) }

  /** White space, two slashes, slashes or exclamation marks as far as they go, white space as far as it
      goes, the body. */
  predicate Reads(line: string, indent: string, marks: string, space: string, body: string) {
    && line == indent + ("//" + (marks + (space + body)))
    && AllWhite(indent) && AllMarks(marks) && AllWhite(space)
    && (space + body == "" || !IsMark((space + body)[0])) && (body == "" || !IsWhite(body[0]))
  }

  ghost predicate Says(line: string, body: string) {
    exists indent, marks, space :: Reads(line, indent, marks, space, body)
  }

  lemma {:induction false} DropSplits(s: string) returns (marks: string)
    ensures s == marks + DropMarks(s) && AllMarks(marks)
    ensures DropMarks(s) == "" || !IsMark(DropMarks(s)[0])
  {
    if s != "" && IsMark(s[0]) {
      var more := DropSplits(s[1..]);
      marks := [s[0]] + more;
    } else {
      marks := "";
    }
  }

  lemma {:induction false} DropOver(marks: string, s: string)
    requires AllMarks(marks) && (s == "" || !IsMark(s[0]))
    ensures DropMarks(marks + s) == s && MarkRun(marks + s) == |marks|
  {
    if marks == "" {
      assert marks + s == s;
    } else {
      assert (marks + s)[1..] == marks[1..] + s;
      DropOver(marks[1..], s);
    }
  }

  lemma {:induction false} WhiteOver(gap: string, s: string)
    requires AllWhite(gap) && (s == "" || !IsWhite(s[0]))
    ensures WhiteRun(gap + s) == |gap|
  {
    if gap == "" {
      assert gap + s == s;
    } else {
      assert (gap + s)[1..] == gap[1..] + s;
      WhiteOver(gap[1..], s);
    }
  }

  lemma BodyRead(line: string, indent: string, marks: string, space: string, body: string)
    requires Reads(line, indent, marks, space, body)
    ensures CommentBody(line) == Some(body)
  {
    TrimOver(indent, "//" + (marks + (space + body)));
    assert TrimStart(line)[2..] == marks + (space + body);
    DropOver(marks, space + body);
    TrimOver(space, body);
  }

  lemma BodyFound(line: string, body: string)
    requires CommentBody(line) == Some(body)
    ensures Says(line, body)
  {
    var t := TrimStart(line);
    var indent := TrimSplits(line);
    var marks := DropSplits(t[2..]);
    var space := TrimSplits(DropMarks(t[2..]));
    assert t == "//" + t[2..];
    assert Reads(line, indent, marks, space, body);
  }

  /** The body of a comment line, and which lines are comments. */
  lemma BodyIff(line: string, body: string)
    ensures CommentBody(line) == Some(body) <==> Says(line, body)
  {
    if CommentBody(line) == Some(body) {
      BodyFound(line, body);
    }
    if Says(line, body) {
      var indent, marks, space :| Reads(line, indent, marks, space, body);
      BodyRead(line, indent, marks, space, body);
    }
  }

  /** The shapes of a comment line, from its body. */
  lemma ShapesAre(line: string, body: string)
    requires Says(line, body)
    ensures IsComment(line)
    ensures IsMarker(line) <==> |body| >= 3 && body[0] == '`' && body[1] == '`' && body[2] == '`'
    ensures IsTableRow(line) <==> body != "" && body[0] == '|' && body[|body| - 1] == '|'
  {
    BodyIff(line, body);
    if body != "" {
      assert body[|body| - 1..] == [body[|body| - 1]];
    }
  }

  /** Without a body a line is no comment. */
  lemma CommentIff(line: string)
    ensures IsComment(line) <==> exists body :: Says(line, body)
    ensures !IsComment(line) ==> !IsMarker(line) && !IsTableRow(line)
  {
    if IsComment(line) {
      BodyIff(line, CommentBody(line).value);
    }
    if body :| Says(line, body) {
      BodyIff(line, body);
    }
  }

  /** What a token would need on a comment line of its own: the indent, every mark, and one space. */
  lemma FreshLineIs(line: string, indent: string, marks: string, space: string, body: string)
    requires Reads(line, indent, marks, space, body)
    ensures FreshLine(line) == |indent| + 2 + |marks| + 1
  {
    var rest := ("//" + marks) + (space + body);
    assert line == indent + rest;
    WhiteOver(indent, rest);
    assert line[|indent|..] == rest;
    DropOver("//" + marks, space + body);
  }

  // -------------------------------------------------------------------------------------------
  // Runs
  // -------------------------------------------------------------------------------------------

  /** The lines from `b` up to `e` are comments, and neither neighbour is. */
  predicate IsRun(lines: seq<string>, b: nat, e: nat) {
    && b <= e <= |lines| && (forall k :: b <= k < e ==> IsComment(lines[k]))
    && (b > 0 ==> !IsComment(lines[b - 1])) && (e < |lines| ==> !IsComment(lines[e]))
  }

  lemma {:induction false} BeginOfRun(lines: seq<string>, n: nat)
    requires n <= |lines|
    ensures forall k :: RunBegin(lines, n) <= k < n ==> IsComment(lines[k])
    ensures RunBegin(lines, n) > 0 ==> !IsComment(lines[RunBegin(lines, n) - 1])
  {
    if n > 0 && IsComment(lines[n - 1]) {
      BeginOfRun(lines, n - 1);
    }
  }

  lemma {:induction false} EndOfRun(lines: seq<string>, n: nat)
    requires n <= |lines|
    ensures forall k :: n <= k < RunEnd(lines, n) ==> IsComment(lines[k])
    ensures RunEnd(lines, n) < |lines| ==> !IsComment(lines[RunEnd(lines, n)])
    decreases |lines| - n
  {
    if n < |lines| && IsComment(lines[n]) {
      EndOfRun(lines, n + 1);
    }
  }

  /** A comment line is fenced exactly when, the markers of its run being paired by position, it stands
      between two partners. */
  lemma {:induction false} FencedIff(lines: seq<string>, b: nat, n: nat, e: nat)
    requires b <= n < e && IsRun(lines, b, e) && !IsMarker(lines[n])
    ensures Fenced(lines, n) <==> BetweenPair(Markers(lines, b, e), n)
  {
    BeginOfRun(lines, n);
    EndOfRun(lines, n);
    assert RunBegin(lines, n) == b && RunEnd(lines, n) == e;
    PairsAreParity(lines, b, n, e);
  }

  /** The marker positions of a stretch. */
  lemma {:induction false} MarkersAre(lines: seq<string>, i: nat, j: nat, n: nat)
    requires j <= |lines|
    ensures n in Markers(lines, i, j) <==> i <= n < j && IsMarker(lines[n])
    decreases j
  {
    if i < j {
      MarkersAre(lines, i, j - 1, n);
    }
  }

  /** In order. */
  lemma {:induction false} MarkersAscend(lines: seq<string>, i: nat, j: nat, a: nat, b: nat)
    requires j <= |lines| && a < b < |Markers(lines, i, j)|
    ensures Markers(lines, i, j)[a] < Markers(lines, i, j)[b]
    decreases j
  {
    var before := Markers(lines, i, j - 1);
    if b < |before| {
      MarkersAscend(lines, i, j - 1, a, b);
    } else {
      MarkersInside(lines, i, j - 1, a);
    }
  }
}
