/** Requirement ids in prose: the scanner, the recogniser and the declaration block of
    xtask/src/traceability.rs. */
module RequirementIds {
  import opened Text

  // -------------------------------------------------------------------------------------------
  // The recogniser
  // -------------------------------------------------------------------------------------------

  predicate AllUpper(s: string) { forall i :: 0 <= i < |s| ==> IsUpper(s[i]) }

  /** The text after the prefix of an id. */
  function IdBody(token: string): Option<string> {
    if "NFR-" <= token then Some(token[4..]) else if "FR-" <= token then Some(token[3..]) else None
  }

  /** The position of the last `c`. */
  function LastIndex(s: string, c: char): (r: Option<nat>)
    ensures r.Some? ==> r.value < |s| && s[r.value] == c && forall i :: r.value < i < |s| ==> s[i] != c
    ensures r.None? ==> c !in s
  {
    if s == "" then None
    else if s[|s| - 1] == c then Some(|s| - 1)
    else LastIndex(s[..|s| - 1], c)
  }

  predicate IsRequirementId(token: string) {
    var body := IdBody(token);
    body.Some? &&
    var dash := LastIndex(body.value, '-');
    dash.Some? &&
    var area, number := body.value[..dash.value], body.value[dash.value + 1..];
    area != "" && AllUpper(area) && |number| == 3 && AllDigits(number)
  }

  // -------------------------------------------------------------------------------------------
  // The scanner
  // -------------------------------------------------------------------------------------------

  /** How many characters of class `upper` or digit `s` starts with from `k`. */
  function UpperRun(s: string, k: nat): (e: nat)
    requires k <= |s|
    ensures k <= e <= |s| && (forall i :: k <= i < e ==> IsUpper(s[i])) && (e < |s| ==> !IsUpper(s[e]))
    decreases |s| - k
  {
    if k < |s| && IsUpper(s[k]) then UpperRun(s, k + 1) else k
  }

  function DigitRun(s: string, k: nat): (e: nat)
    requires k <= |s|
    ensures k <= e <= |s| && (forall i :: k <= i < e ==> IsDigit(s[i])) && (e < |s| ==> !IsDigit(s[e]))
    decreases |s| - k
  {
    if k < |s| && IsDigit(s[k]) then DigitRun(s, k + 1) else k
  }

  /** The end of an id whose prefix ends at `k`, the trailing boundary included in the check. */
  function IdEnd(rest: string, k: nat): Option<nat>
    requires k <= |rest|
  {
    var area := UpperRun(rest, k);
    if area == k || area == |rest| || rest[area] != '-' then None
    else
      var digits := DigitRun(rest, area + 1);
      if digits - (area + 1) != 3 || (digits < |rest| && IsAlnum(rest[digits]))
      then None else Some(digits)
  }

  function RequirementIdLength(rest: string): Option<nat> {
    if "NFR-" <= rest && IdEnd(rest, 4).Some? then IdEnd(rest, 4)
    else if "FR-" <= rest && IdEnd(rest, 3).Some? then IdEnd(rest, 3)
    else None
  }

  /** The two runs after a prefix that ends at `start`. */
  method MeasureFrom(rest: string, start: nat) returns (r: Option<nat>)
    requires start <= |rest|
    ensures r == IdEnd(rest, start)
  {
    var k := start;
    while k < |rest| && IsUpper(rest[k])
      invariant start <= k <= |rest| && UpperRun(rest, k) == UpperRun(rest, start)
    {
      k := k + 1;
    }
    if k == start || k == |rest| || rest[k] != '-' {
      return None;
    }
    k := k + 1;
    var digitsStart := k;
    while k < |rest| && IsDigit(rest[k])
      invariant digitsStart <= k <= |rest| && DigitRun(rest, k) == DigitRun(rest, digitsStart)
    {
      k := k + 1;
    }
    if k - digitsStart != 3 || (k < |rest| && IsAlnum(rest[k])) {
      return None;
    }
    return Some(k);
  }

  method MeasureId(rest: string) returns (r: Option<nat>)
    ensures r == RequirementIdLength(rest)
  {
    for p := 0 to 2
      invariant forall q :: 0 <= q < p ==> !(Prefix(q) <= rest && IdEnd(rest, |Prefix(q)|).Some?)
    {
      if Prefix(p) <= rest {
        r := MeasureFrom(rest, |Prefix(p)|);
        if r.Some? {
          return;
        }
      }
    }
    assert !(Prefix(0) <= rest && IdEnd(rest, |Prefix(0)|).Some?);
    assert !(Prefix(1) <= rest && IdEnd(rest, |Prefix(1)|).Some?);
    return None;
  }

  function Prefix(p: nat): string { if p == 0 then "NFR-" else "FR-" }

  predicate AtBoundary(line: string, i: nat)
    requires i <= |line|
  {
    i == 0 || !IsAlnum(line[i - 1])
  }

  predicate Found(line: string, i: nat)
    requires i <= |line|
  {
    AtBoundary(line, i) && RequirementIdLength(line[i..]).Some?
  }

  function FoundEnd(line: string, i: nat): (e: nat)
    requires i <= |line| && Found(line, i)
    ensures i < e <= |line|
  {
    IdLengthInside(line[i..]);
    i + RequirementIdLength(line[i..]).value
  }

  /** The spans the greedy scan reports from `i` on. */
  function Spans(line: string, i: nat): seq<(nat, nat)>
    requires i <= |line|
    decreases |line| - i
  {
    if i == |line| then []
    else if Found(line, i) then [(i, FoundEnd(line, i))] + Spans(line, FoundEnd(line, i))
    else Spans(line, i + 1)
  }

  lemma IdLengthInside(rest: string)
    ensures RequirementIdLength(rest).Some? ==> 0 < RequirementIdLength(rest).value <= |rest|
  {
  }

  function Slice(line: string, span: (nat, nat)): string {
    if span.0 <= span.1 <= |line| then line[span.0..span.1] else ""
  }

  function Slices(line: string, spans: seq<(nat, nat)>): seq<string> {
    seq(|spans|, k requires 0 <= k < |spans| => Slice(line, spans[k]))
  }

  /** One step of the scan: the span it reports at `i`, if any, and where it goes on. */
  lemma ScanStep(line: string, i: nat)
    requires i < |line|
    ensures if Found(line, i) then
              i < FoundEnd(line, i) <= |line|
              && Spans(line, i) == [(i, FoundEnd(line, i))] + Spans(line, FoundEnd(line, i))
            else Spans(line, i) == Spans(line, i + 1)
  {
  }

  lemma SlicesStep(line: string, span: (nat, nat), spans: seq<(nat, nat)>, out: seq<string>)
    requires span.0 <= span.1 <= |line|
    ensures out + Slices(line, [span] + spans) == out + [line[span.0..span.1]] + Slices(line, spans)
  {
    assert Slices(line, [span] + spans) == [line[span.0..span.1]] + Slices(line, spans);
  }

  /** Where the id that starts at `i` ends, if one does at a boundary. */
  method MeasureAt(line: string, i: nat) returns (end: Option<nat>)
    requires i <= |line|
    ensures end == if Found(line, i) then Some(FoundEnd(line, i)) else None
  {
    var length := MeasureId(line[i..]);
    if AtBoundary(line, i) && length.Some? {
      return Some(i + length.value);
    }
    return None;
  }

  method ScanRequirementIds(line: string) returns (out: seq<string>)
    ensures out == Slices(line, Spans(line, 0))
  {
    out := [];
    var i := 0;
    while i < |line|
      invariant i <= |line| && out + Slices(line, Spans(line, i)) == Slices(line, Spans(line, 0))
    {
      ScanStep(line, i);
      var end := MeasureAt(line, i);
      if end.Some? {
        SlicesStep(line, (i, end.value), Spans(line, end.value), out);
        out := out + [line[i..end.value]];
        i := end.value;
      } else {
        i := i + 1;
      }
    }
    assert Slices(line, []) == [] && out + [] == out;
  }

  // -------------------------------------------------------------------------------------------
  // What an occurrence is
  // -------------------------------------------------------------------------------------------

  /** `line[i..j]` is an id delimited on both sides. */
  predicate Occurs(line: string, i: nat, j: nat) {
    && i < j <= |line| && AtBoundary(line, i) && IsRequirementId(line[i..j])
    && (j < |line| ==> !IsAlnum(line[j]))
  }

  /** `s` from `k` on is an area, a dash at `area` and digits up to the end. */
  predicate IsShape(s: string, k: nat, area: nat) {
    && k < area < |s| && s[area] == '-'
    && (forall i :: k <= i < area ==> IsUpper(s[i]))
    && forall i :: area < i < |s| ==> IsDigit(s[i])
  }

  /** The body of an id, split where the recogniser splits it. */
  lemma BodyShape(s: string, k: nat, area: nat)
    requires IsShape(s, k, area)
    ensures LastIndex(s[k..], '-') == Some(area - k)
    ensures AllUpper(s[k..][..area - k]) && AllDigits(s[k..][area - k + 1..])
  {
    var body := s[k..];
    assert body[area - k] == '-';
    assert forall i :: area - k < i < |body| ==> IsDigit(body[i]);
  }

  lemma ShapeOfBody(s: string, k: nat, d: nat)
    requires k + d < |s| && s[k..][d] == '-' && d > 0
    requires AllUpper(s[k..][..d]) && AllDigits(s[k..][d + 1..])
    ensures IsShape(s, k, k + d)
  {
    var area, number := s[k..][..d], s[k..][d + 1..];
    assert forall i :: k <= i < k + d ==> s[i] == area[i - k];
    assert forall i :: k + d < i < |s| ==> s[i] == number[i - (k + d + 1)];
  }

  /** The scanner's length is the recogniser's verdict on the text up to a boundary. */
  lemma LengthIsRecognised(rest: string, n: nat)
    requires n <= |rest|
    ensures RequirementIdLength(rest) == Some(n) <==> IsRequirementId(rest[..n]) && (n < |rest| ==> !IsAlnum(rest[n]))
  {
    var token := rest[..n];
    if IsRequirementId(token) && (n < |rest| ==> !IsAlnum(rest[n])) {
      RecognisedIsMeasured(rest, n);
    }
    if RequirementIdLength(rest) == Some(n) {
      MeasuredIsRecognised(rest, n);
    }
  }

  lemma RecognisedIsMeasured(rest: string, n: nat)
    requires n <= |rest| && IsRequirementId(rest[..n]) && (n < |rest| ==> !IsAlnum(rest[n]))
    ensures RequirementIdLength(rest) == Some(n)
  {
    var token := rest[..n];
    var k := if "NFR-" <= token then 4 else 3;
    var d := LastIndex(token[k..], '-').value;
    ShapeOfBody(token, k, d);
    ShapeEnds(rest, n, k, k + d);
    assert ("NFR-" <= token) == ("NFR-" <= rest);
  }

  lemma ShapeEnds(rest: string, n: nat, k: nat, area: nat)
    requires n <= |rest| && (n < |rest| ==> !IsAlnum(rest[n])) && IsShape(rest[..n], k, area) && area + 4 == n
    ensures IdEnd(rest, k) == Some(n)
  {
    assert forall i :: 0 <= i < n ==> rest[i] == rest[..n][i];
    UpperRunIs(rest, k, area);
    DigitRunIs(rest, area + 1, n);
  }

  lemma {:induction false} UpperRunIs(s: string, k: nat, e: nat)
    requires k <= e <= |s| && (forall i :: k <= i < e ==> IsUpper(s[i])) && (e < |s| ==> !IsUpper(s[e]))
    ensures UpperRun(s, k) == e
    decreases e - k
  {
    if k < e { UpperRunIs(s, k + 1, e); }
  }

  lemma {:induction false} DigitRunIs(s: string, k: nat, e: nat)
    requires k <= e <= |s| && (forall i :: k <= i < e ==> IsDigit(s[i])) && (e < |s| ==> !IsDigit(s[e]))
    ensures DigitRun(s, k) == e
    decreases e - k
  {
    if k < e { DigitRunIs(s, k + 1, e); }
  }

  lemma MeasuredIsRecognised(rest: string, n: nat)
    requires n <= |rest| && RequirementIdLength(rest) == Some(n)
    ensures IsRequirementId(rest[..n]) && (n < |rest| ==> !IsAlnum(rest[n]))
  {
    var k := if "NFR-" <= rest && IdEnd(rest, 4).Some? then 4 else 3;
    var token := rest[..n];
    var area := UpperRun(rest, k);
    EndsShape(rest, n, k);
    BodyShape(token, k, area);
    assert k == 3 ==> "FR-" <= token && !("NFR-" <= token);
    assert k == 4 ==> "NFR-" <= token;
  }

  lemma {:induction false} EndsShape(rest: string, n: nat, k: nat)
    requires k <= |rest| && n <= |rest| && IdEnd(rest, k) == Some(n)
    ensures IsShape(rest[..n], k, UpperRun(rest, k)) && UpperRun(rest, k) + 4 == n
    ensures n < |rest| ==> !IsAlnum(rest[n])
  {
    assert forall i :: 0 <= i < n ==> rest[i] == rest[..n][i];
  }

  /** Nothing inside an id, or right after its dash, is the start of another. */
  lemma NoneInside(line: string, i: nat, n: nat, j: nat)
    requires i < j < i + n <= |line| && RequirementIdLength(line[i..]) == Some(n) && AtBoundary(line, j)
    ensures RequirementIdLength(line[j..]).None?
  {
    var rest := line[i..];
    var k := if "NFR-" <= rest && IdEnd(rest, 4).Some? then 4 else 3;
    var area := UpperRun(rest, k);
    assert DigitRun(rest, area + 1) == n && area + 4 == n;
    assert rest[j - i - 1] == line[j - 1] && rest[j - i] == line[j];
    assert forall m :: 0 <= m < |line| - j ==> line[j..][m] == rest[j - i + m];
    if j - i >= area {
      assert !IsUpper(line[j..][0]);
    } else {
      assert j - i == k;
      InsideArea(rest, line[j..], k, area);
    }
  }

  /** From the start of the area on there is `AREA-` and then a digit, which is no id. */
  lemma InsideArea(rest: string, inner: string, k: nat, area: nat)
    requires k < area && area + 1 < |rest| && k + |inner| == |rest| && inner == rest[k..]
    requires (forall i :: k <= i < area ==> IsUpper(rest[i])) && rest[area] == '-' && IsDigit(rest[area + 1])
    ensures RequirementIdLength(inner).None?
  {
    forall p | 0 <= p < 2 && Prefix(p) <= inner ensures IdEnd(inner, |Prefix(p)|).None? {
      var m := |Prefix(p)|;
      assert inner[m - 1] == '-';
      assert rest[k + m - 1] == '-';
      assert forall i :: 0 <= i < m - 1 ==> inner[i] != '-';
      assert inner[area - k] == rest[area] == '-';
      assert !(area < k + m - 1);
      assert k + m - 1 == area;
      assert !IsUpper(inner[m]) by { assert inner[m] == rest[area + 1]; }
    }
    assert Prefix(0) == "NFR-" && Prefix(1) == "FR-";
  }

  /** The spans are in order, apart, and exactly the delimited ids from `i` on. */
  ghost predicate Exact(line: string, spans: seq<(nat, nat)>, i: nat) {
    InOrder(line, spans, i) && AllOccur(line, spans) && Complete(line, spans, i)
  }

  predicate AllOccur(line: string, spans: seq<(nat, nat)>) {
    forall k :: 0 <= k < |spans| ==> Occurs(line, spans[k].0, spans[k].1)
  }

  ghost predicate Complete(line: string, spans: seq<(nat, nat)>, i: nat) {
    forall a: nat, b: nat :: i <= a && Occurs(line, a, b) ==> (a, b) in spans
  }

  predicate InOrder(line: string, spans: seq<(nat, nat)>, i: nat) {
    && (forall k :: 0 <= k < |spans| ==> i <= spans[k].0 < spans[k].1 <= |line|)
    && forall k, m :: 0 <= k < m < |spans| ==> spans[k].1 <= spans[m].0
  }

  /** The greedy scan reports, in order, exactly the delimited ids of the line: it invents none, and
      skipping past one never hides another. */
  lemma {:induction false} ScanIsExact(line: string, i: nat)
    requires i <= |line|
    ensures Exact(line, Spans(line, i), i)
    decreases |line| - i
  {
    if i < |line| {
      ScanStep(line, i);
      if Found(line, i) {
        ScanIsExact(line, FoundEnd(line, i));
        FoundExact(line, i, FoundEnd(line, i) - i, Spans(line, FoundEnd(line, i)), Spans(line, i));
      } else {
        ScanIsExact(line, i + 1);
        SkippedExact(line, i, Spans(line, i + 1));
      }
    }
  }

  lemma FoundExact(line: string, i: nat, n: nat, spans: seq<(nat, nat)>, all: seq<(nat, nat)>)
    requires 0 < n && i + n <= |line| && AtBoundary(line, i) && RequirementIdLength(line[i..]) == Some(n)
    requires Exact(line, spans, i + n) && all == [(i, i + n)] + spans
    ensures Exact(line, all, i)
  {
    FoundOccurs(line, i, n);
    FoundInOrder(line, i, i + n, spans);
    FoundAllOccur(line, (i, i + n), spans);
    FoundCompletes(line, i, n, spans);
  }

  lemma FoundAllOccur(line: string, span: (nat, nat), spans: seq<(nat, nat)>)
    requires Occurs(line, span.0, span.1) && AllOccur(line, spans)
    ensures AllOccur(line, [span] + spans)
  {
    var all := [span] + spans;
    forall k | 0 <= k < |all| ensures Occurs(line, all[k].0, all[k].1) {
      if k > 0 { assert all[k] == spans[k - 1]; }
    }
  }

  lemma FoundCompletes(line: string, i: nat, n: nat, spans: seq<(nat, nat)>)
    requires 0 < n && i + n <= |line| && RequirementIdLength(line[i..]) == Some(n) && Exact(line, spans, i + n)
    ensures Complete(line, [(i, i + n)] + spans, i)
  {
    forall a: nat, b: nat | i <= a && Occurs(line, a, b) ensures (a, b) in [(i, i + n)] + spans {
      FoundComplete(line, i, n, spans, a, b);
      InOneMore((i, i + n), spans, (a, b));
    }
  }

  lemma InOneMore(span: (nat, nat), spans: seq<(nat, nat)>, x: (nat, nat))
    requires x == span || x in spans
    ensures x in [span] + spans
  {
  }

  lemma FoundInOrder(line: string, i: nat, j: nat, spans: seq<(nat, nat)>)
    requires i < j <= |line| && InOrder(line, spans, j)
    ensures InOrder(line, [(i, j)] + spans, i)
  {
    var all := [(i, j)] + spans;
    assert forall k :: 0 < k < |all| ==> all[k] == spans[k - 1];
  }

  lemma FoundOccurs(line: string, i: nat, n: nat)
    requires 0 < n && i + n <= |line| && AtBoundary(line, i) && RequirementIdLength(line[i..]) == Some(n)
    ensures Occurs(line, i, i + n)
  {
    assert line[i..][..n] == line[i..i + n];
    LengthIsRecognised(line[i..], n);
  }

  lemma FoundComplete(line: string, i: nat, n: nat, spans: seq<(nat, nat)>, a: nat, b: nat)
    requires 0 < n && i + n <= |line| && RequirementIdLength(line[i..]) == Some(n)
    requires Exact(line, spans, i + n) && i <= a && Occurs(line, a, b)
    ensures (a, b) == (i, i + n) || (a, b) in spans
  {
    OccursIsMeasured(line, a, b);
    if i < a < i + n {
      NoneInside(line, i, n, a);
    }
  }

  lemma SkippedExact(line: string, i: nat, spans: seq<(nat, nat)>)
    requires i < |line| && !Found(line, i)
    requires Exact(line, spans, i + 1)
    ensures Exact(line, spans, i)
  {
    forall a: nat, b: nat | i <= a && Occurs(line, a, b) ensures (a, b) in spans {
      OccursIsMeasured(line, a, b);
    }
  }

  lemma OccursIsMeasured(line: string, a: nat, b: nat)
    requires Occurs(line, a, b)
    ensures RequirementIdLength(line[a..]) == Some(b - a)
  {
    assert line[a..][..b - a] == line[a..b];
    LengthIsRecognised(line[a..], b - a);
  }

  /** The recogniser and the scanner agree: a token is an id exactly when scanning it finds it whole. */
  lemma {:induction false} RecogniserAgrees(token: string)
    ensures IsRequirementId(token) <==> Spans(token, 0) == [(0, |token|)]
  {
    ScanIsExact(token, 0);
    assert token[0..|token|] == token;
    if IsRequirementId(token) {
      assert Occurs(token, 0, |token|);
      OccursIsMeasured(token, 0, |token|);
      assert token[0..] == token;
    }
    if Spans(token, 0) == [(0, |token|)] {
      assert Occurs(token, Spans(token, 0)[0].0, Spans(token, 0)[0].1);
    }
  }
}
