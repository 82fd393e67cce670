/** The comment-width scan of xtask/src/comment_width.rs. */
module CommentWidth {
  import opened Text

  const MAX_WIDTH: nat := 100

  function DropMarks(s: string): string {
    if s != "" && (s[0] == '/' || s[0] == '!') then DropMarks(s[1..]) else s
  }

  function CommentBody(line: string): Option<string> {
    var t := TrimStart(line);
    if "//" <= t then Some(TrimStart(DropMarks(t[2..]))) else None
  }

  predicate IsComment(line: string) { CommentBody(line).Some? }

  predicate IsMarker(line: string) { IsComment(line) && "```" <= CommentBody(line).value }

  predicate IsTableRow(line: string) {
    IsComment(line) && "|" <= CommentBody(line).value && EndsWith(CommentBody(line).value, "|")
  }

  // -------------------------------------------------------------------------------------------
  // The token at the limit
  // -------------------------------------------------------------------------------------------

  function WhiteRun(chars: string): nat {
    if chars != "" && IsWhite(chars[0]) then 1 + WhiteRun(chars[1..]) else 0
  }

  function MarkRun(chars: string): nat {
    if chars != "" && (chars[0] == '/' || chars[0] == '!') then 1 + MarkRun(chars[1..]) else 0
  }

  lemma {:induction false} WhiteRunInside(chars: string)
    ensures WhiteRun(chars) <= |chars|
  {
    if chars != "" && IsWhite(chars[0]) {
      WhiteRunInside(chars[1..]);
    }
  }

  /** `[start, end)` is the unbroken stretch that reaches the limit from both sides. */
  predicate IsToken(chars: string, start: nat, end: nat) {
    && start <= MAX_WIDTH <= end <= |chars|
    && (forall i :: start <= i < end ==> !IsWhite(chars[i]))
    && (start > 0 ==> IsWhite(chars[start - 1])) && (end < |chars| ==> IsWhite(chars[end]))
  }

  function FreshLine(chars: string): nat {
    WhiteRunInside(chars);
    WhiteRun(chars) + MarkRun(chars[WhiteRun(chars)..]) + 1
  }

  /** The token at the limit would not fit on a comment line of its own. */
  ghost predicate Unbreakable(chars: string) {
    exists start: nat, end: nat :: IsToken(chars, start, end) && FreshLine(chars) + (end - start) > MAX_WIDTH
  }

  lemma TokenIsUnique(chars: string, a: nat, b: nat, c: nat, d: nat)
    requires IsToken(chars, a, b) && IsToken(chars, c, d)
    ensures a == c && b == d
  {
  }

  method OverflowIsUnbreakable(chars: string) returns (r: bool)
    requires |chars| > MAX_WIDTH
    ensures r <==> Unbreakable(chars)
  {
    var start: nat := MAX_WIDTH;
    while start > 0 && !IsWhite(chars[start - 1])
      invariant start <= MAX_WIDTH && forall i :: start <= i < MAX_WIDTH ==> !IsWhite(chars[i])
    {
      start := start - 1;
    }
    var end := MAX_WIDTH;
    while end < |chars| && !IsWhite(chars[end])
      invariant MAX_WIDTH <= end <= |chars| && forall i :: MAX_WIDTH <= i < end ==> !IsWhite(chars[i])
    {
      end := end + 1;
    }
    assert IsToken(chars, start, end);
    r := FreshLine(chars) + (end - start) > MAX_WIDTH;
    if Unbreakable(chars) {
      var c: nat, d: nat :| IsToken(chars, c, d) && FreshLine(chars) + (d - c) > MAX_WIDTH;
      TokenIsUnique(chars, start, end, c, d);
    }
  }

  // -------------------------------------------------------------------------------------------
  // Which lines are reported
  // -------------------------------------------------------------------------------------------

  /** The first line of the comment run that line `n` continues. */
  function RunBegin(lines: seq<string>, n: nat): (b: nat)
    requires n <= |lines|
    ensures b <= n
  {
    if n > 0 && IsComment(lines[n - 1]) then RunBegin(lines, n - 1) else n
  }

  function RunEnd(lines: seq<string>, n: nat): (e: nat)
    requires n <= |lines|
    ensures n <= e <= |lines|
    decreases |lines| - n
  {
    if n < |lines| && IsComment(lines[n]) then RunEnd(lines, n + 1) else n
  }

  function MarkerCount(lines: seq<string>, i: nat, j: nat): nat
    requires j <= |lines|
    decreases j
  {
    if j <= i then 0 else MarkerCount(lines, i, j - 1) + if IsMarker(lines[j - 1]) then 1 else 0
  }

  /** An odd number of markers precede the line in its run, and some marker follows it there. */
  predicate Fenced(lines: seq<string>, n: nat)
    requires n < |lines|
  {
    MarkerCount(lines, RunBegin(lines, n), n) % 2 == 1 && MarkerCount(lines, n, RunEnd(lines, n)) > 0
  }

  ghost predicate Reported(lines: seq<string>, n: nat)
    requires n < |lines|
  {
    && IsComment(lines[n]) && |lines[n]| > MAX_WIDTH
    && !IsMarker(lines[n]) && !IsTableRow(lines[n]) && !Fenced(lines, n) && !Unbreakable(lines[n])
  }

  type Hit = (nat, nat)

  /** The hits among the first `n` lines, given each line's width and whether it is reported. */
  function Gather(widths: seq<nat>, marks: seq<bool>, n: nat): seq<Hit>
    requires n <= |widths| == |marks|
  {
    if n == 0 then [] else Gather(widths, marks, n - 1) + if marks[n - 1] then [(n, widths[n - 1])] else []
  }

  function Widths(lines: seq<string>): seq<nat> {
    seq(|lines|, n requires 0 <= n < |lines| => |lines[n]|)
  }

  ghost function Marks(lines: seq<string>): seq<bool> {
    seq(|lines|, n requires 0 <= n < |lines| => Reported(lines, n))
  }

  ghost function Hits(lines: seq<string>, n: nat): seq<Hit>
    requires n <= |lines|
  {
    Gather(Widths(lines), Marks(lines), n)
  }

  // -------------------------------------------------------------------------------------------
  // Positional pairs
  // -------------------------------------------------------------------------------------------

  /** The marker positions from `i` up to `j`. */
  function Markers(lines: seq<string>, i: nat, j: nat): (r: seq<nat>)
    requires j <= |lines|
    ensures |r| == MarkerCount(lines, i, j)
    decreases j
  {
    if j <= i then [] else Markers(lines, i, j - 1) + if IsMarker(lines[j - 1]) then [j - 1] else []
  }

  lemma {:induction false} MarkersInside(lines: seq<string>, i: nat, j: nat, k: nat)
    requires j <= |lines| && k < |Markers(lines, i, j)|
    ensures i <= Markers(lines, i, j)[k] < j && IsMarker(lines[Markers(lines, i, j)[k]])
    decreases j
  {
    if k < |Markers(lines, i, j - 1)| { MarkersInside(lines, i, j - 1, k); }
  }

  lemma {:induction false} MarkersSplit(lines: seq<string>, i: nat, n: nat, j: nat)
    requires i <= n <= j <= |lines|
    ensures Markers(lines, i, j) == Markers(lines, i, n) + Markers(lines, n, j)
    decreases j
  {
    if n < j { MarkersSplit(lines, i, n, j - 1); }
  }

  /** Line `n` lies strictly between some marker and its partner, the markers being paired by position. */
  predicate BetweenPair(fences: seq<nat>, n: nat) {
    exists k :: 0 <= k < |fences| && 2 * k + 1 < |fences| && fences[2 * k] < n < fences[2 * k + 1]
  }

  lemma PairParity(fences: seq<nat>, n: nat, c: nat)
    requires forall k :: 0 <= k < |fences| ==> fences[k] != n && (fences[k] < n <==> k < c)
    ensures BetweenPair(fences, n) <==> c % 2 == 1 && c < |fences|
  {
    if c % 2 == 1 && c < |fences| {
      var k := c / 2;
      assert k < |fences| && 2 * k + 1 == c;
      assert fences[2 * k] < n && !(fences[2 * k + 1] < n);
    }
    if BetweenPair(fences, n) {
      var k :| 0 <= k < |fences| && 2 * k + 1 < |fences| && fences[2 * k] < n < fences[2 * k + 1];
      assert 2 * k < c <= 2 * k + 1;
    }
  }

  lemma {:induction false} MarkersAround(lines: seq<string>, b: nat, n: nat, e: nat)
    requires b <= n < e <= |lines| && !IsMarker(lines[n])
    ensures var f := Markers(lines, b, e);
            |f| == MarkerCount(lines, b, n) + MarkerCount(lines, n, e)
            && forall k :: 0 <= k < |f| ==> f[k] != n && (f[k] < n <==> k < MarkerCount(lines, b, n))
  {
    MarkersSplit(lines, b, n, e);
    var f, c := Markers(lines, b, e), MarkerCount(lines, b, n);
    forall k | 0 <= k < |f| ensures f[k] != n && (f[k] < n <==> k < c) {
      MarkerSide(lines, b, n, e, k);
    }
  }

  lemma {:induction false} MarkerSide(lines: seq<string>, b: nat, n: nat, e: nat, k: nat)
    requires b <= n < e <= |lines| && !IsMarker(lines[n]) && k < |Markers(lines, b, n) + Markers(lines, n, e)|
    ensures var m := (Markers(lines, b, n) + Markers(lines, n, e))[k];
            m != n && (m < n <==> k < MarkerCount(lines, b, n))
  {
    var c := MarkerCount(lines, b, n);
    if k < c { MarkersInside(lines, b, n, k); } else { MarkersInside(lines, n, e, k - c); }
  }

  /** Being between a positional pair is a matter of parity. */
  lemma {:induction false} PairsAreParity(lines: seq<string>, b: nat, n: nat, e: nat)
    requires b <= n < e <= |lines| && !IsMarker(lines[n])
    ensures BetweenPair(Markers(lines, b, e), n) <==> MarkerCount(lines, b, n) % 2 == 1 && MarkerCount(lines, n, e) > 0
  {
    MarkersAround(lines, b, n, e);
    PairParity(Markers(lines, b, e), n, MarkerCount(lines, b, n));
  }

  // -------------------------------------------------------------------------------------------
  // The scan
  // -------------------------------------------------------------------------------------------

  method FindFences(lines: seq<string>, begin: nat, end: nat) returns (fences: seq<nat>)
    requires begin <= end <= |lines|
    ensures fences == Markers(lines, begin, end)
  {
    fences := [];
    for n := begin to end
      invariant fences == Markers(lines, begin, n)
    {
      if IsMarker(lines[n]) { fences := fences + [n]; }
    }
  }

  /** A contiguous run of comments, with none right before or right after it. */
  predicate IsRun(lines: seq<string>, begin: nat, end: nat) {
    && begin <= end <= |lines| && (forall i :: begin <= i < end ==> IsComment(lines[i]))
    && (begin > 0 ==> !IsComment(lines[begin - 1])) && (end < |lines| ==> !IsComment(lines[end]))
  }

  lemma {:induction false} RunBeginIs(lines: seq<string>, begin: nat, n: nat, end: nat)
    requires IsRun(lines, begin, end) && begin <= n <= end
    ensures RunBegin(lines, n) == begin
  {
    if begin < n { RunBeginIs(lines, begin, n - 1, end); }
  }

  lemma {:induction false} RunEndIs(lines: seq<string>, begin: nat, n: nat, end: nat)
    requires IsRun(lines, begin, end) && begin <= n <= end
    ensures RunEnd(lines, n) == end
    decreases end - n
  {
    if n < end { RunEndIs(lines, begin, n + 1, end); }
  }

  lemma {:induction false} SameRun(lines: seq<string>, begin: nat, n: nat, end: nat)
    requires IsRun(lines, begin, end) && begin <= n < end
    ensures RunBegin(lines, n) == begin && RunEnd(lines, n) == end
  {
    RunBeginIs(lines, begin, n, end);
    RunEndIs(lines, begin, n, end);
  }

  /** What the loop tests for line `n` of a run is what makes it reported. */
  lemma {:induction false} ReportedInRun(lines: seq<string>, begin: nat, n: nat, end: nat)
    requires IsRun(lines, begin, end) && begin <= n < end
    ensures Reported(lines, n) <==>
      && !(BetweenPair(Markers(lines, begin, end), n) || IsMarker(lines[n]) || IsTableRow(lines[n]))
      && |lines[n]| > MAX_WIDTH && !Unbreakable(lines[n])
  {
    SameRun(lines, begin, n, end);
    if !IsMarker(lines[n]) { PairsAreParity(lines, begin, n, end); }
  }

  /** The loop's body: what it reports of line `n`. */
  method CheckLine(lines: seq<string>, begin: nat, n: nat, end: nat, fences: seq<nat>) returns (hit: seq<Hit>)
    requires IsRun(lines, begin, end) && begin <= n < end && fences == Markers(lines, begin, end)
    ensures hit == if Reported(lines, n) then [(n + 1, |lines[n]|)] else []
  {
    ReportedInRun(lines, begin, n, end);
    var exempt := BetweenPair(fences, n) || IsMarker(lines[n]) || IsTableRow(lines[n]);
    hit := [];
    if !exempt && |lines[n]| > MAX_WIDTH {
      exempt := OverflowIsUnbreakable(lines[n]);
      if !exempt { hit := [(n + 1, |lines[n]|)]; }
    }
  }

  method ScanRun(lines: seq<string>, begin: nat, end: nat, before: seq<Hit>) returns (hits: seq<Hit>)
    requires IsRun(lines, begin, end) && before == Hits(lines, begin)
    ensures hits == Hits(lines, end)
  {
    hits := before;
    var fences := FindFences(lines, begin, end);
    for n := begin to end
      invariant hits == Hits(lines, n)
    {
      var hit := CheckLine(lines, begin, n, end, fences);
      assert Marks(lines)[n] == Reported(lines, n);
      hits := hits + hit;
    }
  }

  method ScanOverWidth(lines: seq<string>) returns (hits: seq<Hit>)
    ensures hits == Hits(lines, |lines|)
  {
    hits := [];
    var i := 0;
    while i < |lines|
      invariant i <= |lines| && hits == Hits(lines, i)
      invariant i == 0 || i == |lines| || !IsComment(lines[i - 1]) || !IsComment(lines[i])
    {
      if !IsComment(lines[i]) {
        i := i + 1;
      } else {
        var end := i;
        while end < |lines| && IsComment(lines[end])
          invariant i <= end <= |lines| && forall k :: i <= k < end ==> IsComment(lines[k])
        {
          end := end + 1;
        }
        hits := ScanRun(lines, i, end, hits);
        i := end;
      }
    }
  }

  lemma {:induction false} GatherIs(widths: seq<nat>, marks: seq<bool>, n: nat, line: nat, width: nat)
    requires n <= |widths| == |marks|
    ensures (line, width) in Gather(widths, marks, n) <==> 0 < line <= n && width == widths[line - 1] && marks[line - 1]
  {
    if n > 0 { GatherIs(widths, marks, n - 1, line, width); }
  }

  /** The reported lines are exactly those that are over width and meet none of the exemptions, each
      with its one-based number and its width. */
  lemma HitsAreExact(lines: seq<string>, n: nat, line: nat, width: nat)
    requires n <= |lines|
    ensures (line, width) in Hits(lines, n) <==>
            0 < line <= n && width == |lines[line - 1]| && Reported(lines, line - 1)
  {
    GatherIs(Widths(lines), Marks(lines), n, line, width);
  }

  // -------------------------------------------------------------------------------------------
  // Locality
  // -------------------------------------------------------------------------------------------

  function Shift(hits: seq<Hit>, shift: nat): seq<Hit> {
    seq(|hits|, i requires 0 <= i < |hits| => (hits[i].0 + shift, hits[i].1))
  }

  /** `b` holds `a` from position `shift` on, with no comment right before or right after it. */
  predicate Embeds(a: seq<string>, b: seq<string>, shift: nat) {
    && shift + |a| <= |b| && (forall k :: 0 <= k < |a| ==> b[shift + k] == a[k])
    && (shift > 0 ==> !IsComment(b[shift - 1])) && (shift + |a| < |b| ==> !IsComment(b[shift + |a|]))
  }

  lemma {:induction false} SameCount(a: seq<string>, b: seq<string>, i: nat, j: nat, shift: nat)
    requires j <= |a| && Embeds(a, b, shift)
    ensures MarkerCount(b, shift + i, shift + j) == MarkerCount(a, i, j)
    decreases j
  {
    if i < j {
      SameCount(a, b, i, j - 1, shift);
      assert b[shift + (j - 1)] == a[j - 1];
    }
  }

  lemma RunInside(a: seq<string>, b: seq<string>, begin: nat, end: nat, shift: nat)
    requires Embeds(a, b, shift) && IsRun(a, begin, end)
    ensures IsRun(b, shift + begin, shift + end)
  {
    forall i | shift + begin <= i < shift + end ensures IsComment(b[i]) {
      assert b[shift + (i - shift)] == a[i - shift];
    }
    if begin > 0 { assert b[shift + (begin - 1)] == a[begin - 1]; }
    if end < |a| { assert b[shift + end] == a[end]; }
  }

  lemma {:induction false} RunAround(a: seq<string>, n: nat)
    requires n < |a| && IsComment(a[n])
    ensures IsRun(a, RunBegin(a, n), RunEnd(a, n)) && RunBegin(a, n) <= n < RunEnd(a, n)
  {
    RunBefore(a, n);
    RunBehind(a, n);
    assert RunEnd(a, n) == RunEnd(a, n + 1);
  }

  lemma {:induction false} RunBefore(a: seq<string>, n: nat)
    requires n <= |a|
    ensures forall i :: RunBegin(a, n) <= i < n ==> IsComment(a[i])
    ensures RunBegin(a, n) > 0 ==> !IsComment(a[RunBegin(a, n) - 1])
  {
    if n > 0 && IsComment(a[n - 1]) { RunBefore(a, n - 1); }
  }

  lemma {:induction false} RunBehind(a: seq<string>, n: nat)
    requires n <= |a|
    ensures forall i :: n <= i < RunEnd(a, n) ==> IsComment(a[i])
    ensures RunEnd(a, n) < |a| ==> !IsComment(a[RunEnd(a, n)])
    decreases |a| - n
  {
    if n < |a| && IsComment(a[n]) { RunBehind(a, n + 1); }
  }

  lemma {:induction false} FencedIn(lines: seq<string>, begin: nat, n: nat, end: nat)
    requires IsRun(lines, begin, end) && begin <= n < end
    ensures Fenced(lines, n) <==> MarkerCount(lines, begin, n) % 2 == 1 && MarkerCount(lines, n, end) > 0
  {
    SameRun(lines, begin, n, end);
  }

  lemma FencedInside(a: seq<string>, b: seq<string>, begin: nat, n: nat, end: nat, shift: nat)
    requires IsRun(a, begin, end) && IsRun(b, shift + begin, shift + end) && begin <= n < end
    requires MarkerCount(b, shift + begin, shift + n) == MarkerCount(a, begin, n)
    requires MarkerCount(b, shift + n, shift + end) == MarkerCount(a, n, end)
    ensures Fenced(b, shift + n) <==> Fenced(a, n)
  {
    FencedIn(a, begin, n, end);
    FencedIn(b, shift + begin, shift + n, shift + end);
  }

  lemma ReportedInside(a: seq<string>, b: seq<string>, n: nat, shift: nat)
    requires n < |a| && Embeds(a, b, shift)
    ensures b[shift + n] == a[n] && (Reported(b, shift + n) <==> Reported(a, n))
  {
    SameLine(a[n], b[shift + n]);
    if IsComment(a[n]) {
      var begin, end := RunBegin(a, n), RunEnd(a, n);
      RunAround(a, n);
      RunInside(a, b, begin, end, shift);
      SameCount(a, b, begin, n, shift);
      SameCount(a, b, n, end, shift);
      FencedInside(a, b, begin, n, end, shift);
    }
  }

  lemma SameLine(a: string, b: string)
    requires a == b
    ensures IsComment(a) == IsComment(b) && IsMarker(a) == IsMarker(b)
    ensures IsTableRow(a) == IsTableRow(b) && Unbreakable(a) == Unbreakable(b)
  {
  }

  lemma ShiftAppend(x: seq<Hit>, y: seq<Hit>, shift: nat)
    ensures Shift(x + y, shift) == Shift(x, shift) + Shift(y, shift)
  {
  }

  /** Hits move along with the lines they are about. */
  lemma {:induction false} GatherInside(wa: seq<nat>, ma: seq<bool>, wb: seq<nat>, mb: seq<bool>, n: nat, shift: nat)
    requires n <= |wa| == |ma| && shift + n <= |wb| == |mb|
    requires forall k :: 0 <= k < n ==> wb[shift + k] == wa[k] && mb[shift + k] == ma[k]
    ensures Gather(wb, mb, shift + n) == Gather(wb, mb, shift) + Shift(Gather(wa, ma, n), shift)
  {
    if n > 0 {
      var m := n - 1;
      GatherInside(wa, ma, wb, mb, m, shift);
      assert wb[shift + m] == wa[m] && mb[shift + m] == ma[m];
      OneMoreShifted(Gather(wb, mb, shift), Gather(wa, ma, m), if ma[m] then [(n, wa[m])] else [], shift);
    }
  }

  lemma OneMoreShifted(base: seq<Hit>, x: seq<Hit>, y: seq<Hit>, shift: nat)
    ensures base + Shift(x, shift) + Shift(y, shift) == base + Shift(x + y, shift)
  {
    ShiftAppend(x, y, shift);
  }

  lemma HitsInside(a: seq<string>, b: seq<string>, shift: nat)
    requires Embeds(a, b, shift)
    ensures Hits(b, shift + |a|) == Hits(b, shift) + Shift(Hits(a, |a|), shift)
  {
    forall k | 0 <= k < |a| ensures Widths(b)[shift + k] == Widths(a)[k] && Marks(b)[shift + k] == Marks(a)[k] {
      SameAt(a, b, k, shift);
    }
    GatherInside(Widths(a), Marks(a), Widths(b), Marks(b), |a|, shift);
  }

  lemma SameAt(a: seq<string>, b: seq<string>, k: nat, shift: nat)
    requires k < |a| && Embeds(a, b, shift)
    ensures Widths(b)[shift + k] == Widths(a)[k] && Marks(b)[shift + k] == Marks(a)[k]
  {
    ReportedInside(a, b, k, shift);
  }

  /** A line that is not a comment separates: scanning around it is scanning each side on its own. */
  lemma ScanIsLocal(a: seq<string>, line: string, b: seq<string>)
    requires !IsComment(line)
    ensures var all := a + [line] + b;
            Hits(all, |all|) == Hits(a, |a|) + Shift(Hits(b, |b|), |a| + 1)
  {
    var all := a + [line] + b;
    EmbedsBoth(a, line, b);
    HitsBefore(a, all);
    HitsInside(b, all, |a| + 1);
    assert |a| + 1 + |b| == |all|;
    NoHit(all, |a|);
  }

  lemma HitsBefore(a: seq<string>, all: seq<string>)
    requires Embeds(a, all, 0)
    ensures Hits(all, |a|) == Hits(a, |a|)
  {
    HitsInside(a, all, 0);
    ShiftZero(Hits(a, |a|));
  }

  lemma NoHit(lines: seq<string>, n: nat)
    requires n < |lines| && !IsComment(lines[n])
    ensures Hits(lines, n + 1) == Hits(lines, n)
  {
    assert !Marks(lines)[n];
  }

  lemma ShiftZero(hits: seq<Hit>)
    ensures Shift(hits, 0) == hits
  {
  }

  lemma EmbedsBoth(a: seq<string>, line: string, b: seq<string>)
    requires !IsComment(line)
    ensures Embeds(a, a + [line] + b, 0) && Embeds(b, a + [line] + b, |a| + 1) && (a + [line] + b)[|a|] == line
  {
  }
}
