/** What trimming, splitting and reading lines mean, apart from how they are computed. */
module TextTheorems {
  import opened Text

  predicate AllWhite(s: string) { forall i :: 0 <= i < |s| ==> IsWhite(s[i]) }

  /** No white space at either end. */
  predicate IsTrimmed(s: string) { s == "" || (!IsWhite(s[0]) && !IsWhite(s[|s| - 1])) }

  // -------------------------------------------------------------------------------------------
  // Trimming
  // -------------------------------------------------------------------------------------------

  lemma {:induction false} TrimSplits(s: string) returns (gap: string)
    ensures s == gap + TrimStart(s) && AllWhite(gap)
  {
    if s != "" && IsWhite(s[0]) {
      var more := TrimSplits(s[1..]);
      gap := [s[0]] + more;
    } else {
      gap := "";
    }
  }

  lemma {:induction false} TrimEndSplits(s: string) returns (gap: string)
    ensures s == TrimEnd(s) + gap && AllWhite(gap)
  {
    if s != "" && IsWhite(s[|s| - 1]) {
      var more := TrimEndSplits(s[..|s| - 1]);
      gap := more + [s[|s| - 1]];
    } else {
      gap := "";
    }
  }

  lemma {:induction false} TrimOver(gap: string, s: string)
    requires AllWhite(gap) && (s == "" || !IsWhite(s[0]))
    ensures TrimStart(gap + s) == s
  {
    if gap == "" {
      assert gap + s == s;
    } else {
      assert (gap + s)[1..] == gap[1..] + s;
      TrimOver(gap[1..], s);
    }
  }

  lemma {:induction false} TrimEndOver(s: string, gap: string)
    requires AllWhite(gap) && (s == "" || !IsWhite(s[|s| - 1]))
    ensures TrimEnd(s + gap) == s
  {
    if gap == "" {
      assert s + gap == s;
    } else {
      assert (s + gap)[..|s + gap| - 1] == s + gap[..|gap| - 1];
      TrimEndOver(s, gap[..|gap| - 1]);
    }
  }

  ghost predicate Surrounded(s: string, r: string) {
    exists before, after :: AllWhite(before) && AllWhite(after) && s == before + (r + after)
  }

  /** Trimming leaves the text that white space surrounds and that has none at its own ends. */
  lemma TrimIff(s: string, r: string)
    ensures Trim(s) == r <==> Surrounded(s, r) && IsTrimmed(r)
  {
    if Trim(s) == r {
      TrimmedIsSurrounded(s, r);
    }
    if Surrounded(s, r) && IsTrimmed(r) {
      var before, after :| AllWhite(before) && AllWhite(after) && s == before + (r + after);
      SurroundedIsTrimmed(before, r, after);
    }
  }

  lemma TrimmedIsSurrounded(s: string, r: string)
    requires Trim(s) == r
    ensures Surrounded(s, r) && IsTrimmed(r)
  {
    var before := TrimSplits(s);
    var after := TrimEndSplits(TrimStart(s));
    assert s == before + (r + after);
    if r != "" {
      assert TrimStart(s)[0] == r[0];
    }
  }

  lemma SurroundedIsTrimmed(before: string, r: string, after: string)
    requires AllWhite(before) && AllWhite(after) && IsTrimmed(r)
    ensures Trim(before + (r + after)) == r
  {
    if r == "" {
      assert before + (r + after) == (before + after) + "";
      TrimOver(before + after, "");
    } else {
      TrimOver(before, r + after);
      TrimEndOver(r, after);
    }
  }

  // -------------------------------------------------------------------------------------------
  // Splitting
  // -------------------------------------------------------------------------------------------

  predicate FreeOf(parts: seq<string>, c: char) {
    forall i :: 0 <= i < |parts| ==> c !in parts[i]
  }

  lemma {:induction false} SplitJoins(s: string, c: char)
    ensures FreeOf(Split(s, c), c) && Join(Split(s, c), [c]) == s
  {
    if s != "" {
      SplitJoins(s[1..], c);
    }
  }

  lemma {:induction false} JoinSplits(parts: seq<string>, c: char)
    requires parts != [] && FreeOf(parts, c)
    ensures Split(Join(parts, [c]), c) == parts
  {
    assert c !in parts[0];
    if |parts| == 1 {
      SplitFirst(parts[0], c, "");
    } else {
      JoinSplits(parts[1..], c);
      SplitFirst(parts[0], c, Join(parts[1..], [c]));
    }
  }

  /** The parts hold no separator, and joined by it they are the text. */
  lemma {:induction false} SplitIff(s: string, c: char, parts: seq<string>)
    ensures Split(s, c) == parts <==> parts != [] && FreeOf(parts, c) && Join(parts, [c]) == s
  {
    SplitJoins(s, c);
    if parts != [] && FreeOf(parts, c) && Join(parts, [c]) == s {
      JoinSplits(parts, c);
    }
  }

  // -------------------------------------------------------------------------------------------
  // Lines
  // -------------------------------------------------------------------------------------------

  /** Each text without the one carriage return it may end with. */
  predicate ReturnsGone(parts: seq<string>, ls: seq<string>) {
    |ls| == |parts| && forall i :: 0 <= i < |ls| ==>
      parts[i] == ls[i] + "\r" || (parts[i] == ls[i] && !EndsWith(ls[i], "\r"))
  }

  /** The lines of a text are its parts between newlines, a last part only when it is not empty, and each
      but such a last part without the carriage return at its end. */
  ghost predicate AreLinesOf(text: string, ls: seq<string>) {
    exists parts, last :: LinesFrom(text, ls, parts, last)
  }

  predicate LinesFrom(text: string, ls: seq<string>, parts: seq<string>, last: string) {
    && FreeOf(parts, '\n') && '\n' !in last && Join(parts + [last], "\n") == text
    && if last == "" then ReturnsGone(parts, ls)
       else ls != [] && ls[|ls| - 1] == last && ReturnsGone(parts, ls[..|ls| - 1])
  }

  lemma ReturnGone(part: string)
    ensures ReturnsGone([part], [StripReturn(part)])
  {
    if StripReturn(part) != part {
      assert part == part[..|part| - 1] + "\r";
    }
  }

  lemma OneMoreLine(line: string, parts: seq<string>, last: string, rest: string, text: string, ls: seq<string>)
    requires text == line + "\n" + rest && '\n' !in line
    requires LinesFrom(rest, ls, parts, last)
    ensures LinesFrom(text, [StripReturn(line)] + ls, [line] + parts, last)
  {
    assert [line] + parts + [last] == [line] + (parts + [last]);
    ReturnGone(line);
    var all := [StripReturn(line)] + ls;
    assert last != "" ==> all[..|all| - 1] == [StripReturn(line)] + ls[..|ls| - 1];
  }

  lemma {:induction false} LinesAre(text: string)
    ensures AreLinesOf(text, Lines(text))
  {
    var parts, last := LinesParts(text);
  }

  lemma {:induction false} LinesParts(text: string) returns (parts: seq<string>, last: string)
    ensures LinesFrom(text, Lines(text), parts, last)
  {
    var n := LineLength(text);
    if n == |text| {
      parts, last := [], text;
      assert text[..n] == text && parts + [last] == [text];
    } else {
      var more, end := LinesParts(text[n + 1..]);
      OneMoreLine(text[..n], more, end, text[n + 1..], text, Lines(text[n + 1..]));
      parts, last := [text[..n]] + more, end;
    }
  }
}
