/** The asset manifest of xtask/src/assets.rs: what is written reads back, a write carries provenance
    forward, and a check is clean exactly on a fresh, fully declared manifest. */
module Assets {
  import opened Text
  import opened Sorting

  const MANIFEST := "crates/namir-fixtures/assets.lock"
  const UNRECORDED := "unrecorded"
  const VERSION_TAG := "format_version"
  const VERSION_LINE := "format_version 1"
  const U64_END: nat := 0x1_0000_0000_0000_0000

  datatype Entry = Entry(path: string, bytes: nat, hash: string, provenance: string)

  function PathOf(e: Entry): string { e.path }

  /** The paths of the entries, none twice. */
  predicate Distinct(es: seq<Entry>) {
    DistinctBy(es, PathOf)
  }

  // -------------------------------------------------------------------------------------------
  // Numbers
  // -------------------------------------------------------------------------------------------

  function Decimal(n: nat): (s: string)
    ensures s != "" && AllDigits(s) && Value(s) == n
  {
    if n < 10 then [DigitOf(n)]
    else
      var init := Decimal(n / 10);
      var s := init + [DigitOf(n % 10)];
      assert s[..|s| - 1] == init;
      s
  }

  function DigitOf(d: nat): (c: char)
    requires d < 10
    ensures IsDigit(c) && c as int - '0' as int == d
  {
    ('0' as int + d) as char
  }

  function Value(s: string): nat
    requires AllDigits(s)
  {
    if s == "" then 0 else Value(s[..|s| - 1]) * 10 + (s[|s| - 1] as int - '0' as int)
  }

  /** `str::parse::<u64>`: an optional plus sign, digits, no overflow. */
  function ParseU64(s: string): (r: Option<nat>)
    ensures r.Some? ==> r.value < U64_END
  {
    var d := if |s| > 1 && s[0] == '+' then s[1..] else s;
    if d == "" || !AllDigits(d) || Value(d) >= U64_END then None else Some(Value(d))
  }

  // -------------------------------------------------------------------------------------------
  // Fields of a line
  // -------------------------------------------------------------------------------------------

  predicate IsWord(s: string) {
    s != "" && forall i :: 0 <= i < |s| ==> !IsWhite(s[i])
  }

  function WordLength(s: string): (n: nat)
    ensures n <= |s| && (forall i :: 0 <= i < n ==> !IsWhite(s[i])) && (n < |s| ==> IsWhite(s[n]))
  {
    if s == "" || IsWhite(s[0]) then 0 else 1 + WordLength(s[1..])
  }

  /** `str::split_whitespace`. */
  function Fields(s: string): seq<string>
    decreases |s|
  {
    var t := TrimStart(s);
    if t == "" then [] else [t[..WordLength(t)]] + Fields(t[WordLength(t)..])
  }

  lemma {:induction false} FieldsAreWords(s: string, k: nat)
    requires k < |Fields(s)|
    ensures IsWord(Fields(s)[k])
    decreases |s|
  {
    var t := TrimStart(s);
    if k > 0 {
      FieldsAreWords(t[WordLength(t)..], k - 1);
    }
  }

  lemma {:induction false} WordThenSpace(w: string, rest: string)
    requires IsWord(w)
    ensures WordLength(w + (" " + rest)) == |w|
  {
    var t := w + (" " + rest);
    var n := WordLength(t);
    assert forall i :: 0 <= i < |w| ==> t[i] == w[i];
    assert t[|w|] == ' ';
  }

  /** A word and a space in front of a text are one field more. */
  lemma {:induction false} FieldsOfWord(w: string, rest: string)
    requires IsWord(w)
    ensures Fields(w + (" " + rest)) == [w] + Fields(rest)
  {
    var t := w + (" " + rest);
    assert t[0] == w[0];
    TrimStartId(t);
    WordThenSpace(w, rest);
    assert t[..|w|] == w && t[|w|..] == " " + rest;
    FieldsAfterSpace(rest);
  }

  lemma {:induction false} FieldsAfterSpace(rest: string)
    ensures Fields(" " + rest) == Fields(rest)
  {
    assert (" " + rest)[1..] == rest;
    assert TrimStart(" " + rest) == TrimStart(rest);
  }

  lemma {:induction false} FieldsOfLast(w: string)
    requires IsWord(w)
    ensures Fields(w) == [w]
  {
    TrimStartId(w);
    assert WordLength(w) == |w| && w[..|w|] == w && w[|w|..] == "";
    assert TrimStart("") == "";
  }

  // -------------------------------------------------------------------------------------------
  // The manifest's text
  // -------------------------------------------------------------------------------------------

  function RenderLine(e: Entry): string {
    e.path + (" " + (Decimal(e.bytes) + (" " + (e.hash + (" " + e.provenance)))))
  }

  function RenderLines(es: seq<Entry>): (ls: seq<string>)
    ensures |ls| == |es|
  {
    if es == [] then [] else [RenderLine(es[0])] + RenderLines(es[1..])
  }

  /** The comment lines at the top. */
  predicate IsHeader(header: seq<string>) {
    forall i :: 0 <= i < |header| ==> |header[i]| > 0 && header[i][0] == '#' && OneLine(header[i])
  }

  predicate OneLine(l: string) {
    forall i :: 0 <= i < |l| ==> l[i] != '\n' && l[i] != '\r'
  }

  function RenderSpec(header: seq<string>, es: seq<Entry>): string {
    Unlines(header + [VERSION_LINE] + RenderLines(Sort(es, PathOf)))
  }

  /** The manifest of `es`, sorted by path. */
  method Render(header: seq<string>, es: seq<Entry>) returns (out: string)
    ensures out == RenderSpec(header, es)
  {
    var sorted := Sort(es, PathOf);
    out := Unlines(header + [VERSION_LINE]);
    UnlinesAppend(header + [VERSION_LINE], RenderLines(sorted));
    assert sorted[0..] == sorted;
    for i := 0 to |sorted|
      invariant out + Unlines(RenderLines(sorted[i..])) == RenderSpec(header, es)
    {
      assert sorted[i..][1..] == sorted[i + 1..];
      UnlinesFirst(out, RenderLine(sorted[i]), RenderLines(sorted[i + 1..]));
      out := out + (RenderLine(sorted[i]) + "\n");
    }
    assert out + "" == out;
  }

  lemma {:induction false} UnlinesAppend(a: seq<string>, b: seq<string>)
    ensures Unlines(a + b) == Unlines(a) + Unlines(b)
  {
    if a == [] {
      assert a + b == b;
    } else {
      assert (a + b)[1..] == a[1..] + b;
      UnlinesAppend(a[1..], b);
    }
  }

  lemma {:induction false} UnlinesFirst(out: string, l: string, ls: seq<string>)
    ensures out + Unlines([l] + ls) == out + (l + "\n") + Unlines(ls)
  {
    assert ([l] + ls)[1..] == ls;
  }

  /** What one line of a manifest says. */
  datatype Line = Skip | Bad | Read(e: Entry)

  function ParseLine(line: string): Line {
    var t := Trim(line);
    if Skipped(t) then Skip else ParseFields(Fields(t))
  }

  /** Empty, a comment, or the version line. */
  predicate Skipped(t: string) {
    t == "" || t[0] == '#' || VERSION_TAG <= t
  }

  function ParseFields(f: seq<string>): Line {
    if |f| != 4 then Bad
    else match ParseU64(f[1])
      case None => Bad
      case Some(n) => Read(Entry(f[0], n, f[2], f[3]))
  }

  /** The entries of the lines in order, or the number of the first line that is not one. */
  function ParseLines(ls: seq<string>, at: nat): Result<seq<Entry>, nat> {
    if ls == [] then Ok([])
    else match ParseLine(ls[0])
      case Skip => ParseLines(ls[1..], at + 1)
      case Bad => Err(at)
      case Read(e) => Prepend([e], ParseLines(ls[1..], at + 1))
  }

  function ParseSpec(text: string): Result<seq<Entry>, nat> {
    ParseLines(Lines(text), 1)
  }

  /** `Ok` of the entries so far followed by what the rest gives. */
  function Prepend(es: seq<Entry>, r: Result<seq<Entry>, nat>): Result<seq<Entry>, nat> {
    match r
    case Ok(more) => Ok(es + more)
    case Err(n) => Err(n)
  }

  method Parse(text: string) returns (r: Result<seq<Entry>, nat>)
    ensures r == ParseSpec(text)
  {
    var lines := Lines(text);
    var entries := [];
    assert lines[0..] == lines;
    PrependNone(ParseSpec(text));
    for i := 0 to |lines|
      invariant Prepend(entries, ParseLines(lines[i..], i + 1)) == ParseSpec(text)
    {
      assert lines[i..][1..] == lines[i + 1..];
      match ParseLine(lines[i])
      case Skip =>
      case Bad => return Err(i + 1);
      case Read(e) =>
        PrependTwice(entries, [e], ParseLines(lines[i + 1..], i + 2));
        entries := entries + [e];
    }
    assert entries + [] == entries;
    r := Ok(entries);
  }

  lemma PrependNone(r: Result<seq<Entry>, nat>)
    ensures Prepend([], r) == r
  {
    if r.Ok? { assert [] + r.value == r.value; }
  }

  lemma PrependTwice(a: seq<Entry>, b: seq<Entry>, r: Result<seq<Entry>, nat>)
    ensures Prepend(a, Prepend(b, r)) == Prepend(a + b, r)
  {
    if r.Ok? {
      assert a + (b + r.value) == a + b + r.value;
      assert Prepend(a, Prepend(b, r)) == Ok(a + (b + r.value));
    }
  }

  // -------------------------------------------------------------------------------------------
  // Reading back
  // -------------------------------------------------------------------------------------------

  /** An entry whose line reads back: words, a 64-bit size, a path that does not look like a line to skip. */
  predicate Plain(e: Entry) {
    IsWord(e.path) && IsWord(e.hash) && IsWord(e.provenance) && e.bytes < U64_END && !Skipped(e.path)
  }

  predicate AllPlain(es: seq<Entry>) {
    forall i :: 0 <= i < |es| ==> Plain(es[i])
  }

  lemma PrefixOfWord(tag: string, w: string, rest: string)
    requires IsWord(tag) && tag <= w + (" " + rest)
    ensures tag <= w
  {
    var t := w + (" " + rest);
    assert t[|w|] == ' ' && IsWhite(t[|w|]);
    assert forall i :: 0 <= i < |tag| ==> tag[i] == t[i];
    assert tag == w[..|tag|];
  }

  lemma {:induction false} FieldsOfLine(path: string, bytes: string, hash: string, provenance: string)
    requires IsWord(path) && IsWord(bytes) && IsWord(hash) && IsWord(provenance)
    ensures Fields(path + (" " + (bytes + (" " + (hash + (" " + provenance)))))) == [path, bytes, hash, provenance]
  {
    FieldsOfLast(provenance);
    FieldsOfWord(hash, provenance);
    FieldsOfWord(bytes, hash + (" " + provenance));
    FieldsOfWord(path, bytes + (" " + (hash + (" " + provenance))));
  }

  lemma {:induction false} DecimalReadsBack(n: nat)
    requires n < U64_END
    ensures IsWord(Decimal(n)) && ParseU64(Decimal(n)) == Some(n)
  {
    var d := Decimal(n);
    assert IsDigit(d[0]);
  }

  lemma LineReadsBack(e: Entry)
    requires Plain(e)
    ensures ParseLine(RenderLine(e)) == Read(e)
  {
    DecimalReadsBack(e.bytes);
    FieldsOfLine(e.path, Decimal(e.bytes), e.hash, e.provenance);
    LineIsTrimmed(e);
    LineIsNotSkipped(e.path, Decimal(e.bytes) + (" " + (e.hash + (" " + e.provenance))));
  }

  lemma LineIsTrimmed(e: Entry)
    requires e.path != "" && !IsWhite(e.path[0]) && IsWord(e.provenance)
    ensures Trim(RenderLine(e)) == RenderLine(e)
  {
    var line := RenderLine(e);
    assert line[0] == e.path[0];
    LastOfLine(e);
    TrimStartId(line);
    TrimEndId(line);
  }

  lemma VersionTagIsWord()
    ensures IsWord(VERSION_TAG)
  {
  }

  lemma LineIsNotSkipped(path: string, rest: string)
    requires IsWord(path) && !Skipped(path)
    ensures !Skipped(path + (" " + rest))
  {
    VersionTagIsWord();
    var tag := VERSION_TAG;
    if tag <= path + (" " + rest) {
      PrefixOfWord(tag, path, rest);
    }
  }

  lemma LastOfLine(e: Entry)
    requires e.provenance != ""
    ensures RenderLine(e) != "" && RenderLine(e)[|RenderLine(e)| - 1] == e.provenance[|e.provenance| - 1]
  {
  }

  /** A path of two words makes a line of five fields. */
  lemma SpacedLineIsBad(a: string, b: string, e: Entry)
    requires e.path == a + (" " + b) && IsWord(a) && IsWord(b) && !Skipped(a)
    requires IsWord(e.hash) && IsWord(e.provenance) && e.bytes < U64_END
    ensures ParseLine(RenderLine(e)) == Bad && OneLine(RenderLine(e))
  {
    var size := Decimal(e.bytes);
    var rest := b + (" " + (size + (" " + (e.hash + (" " + e.provenance)))));
    assert RenderLine(e) == a + (" " + rest);
    DecimalReadsBack(e.bytes);
    FieldsOfLine(b, size, e.hash, e.provenance);
    FieldsOfWord(a, rest);
    LineIsNotSkipped(a, rest);
    LineIsTrimmed(e);
    WordIsOneLine(a);
    WordIsOneLine(b);
    JoinIsOneLine(a, b);
    RenderedLineIsOneLine(e);
  }

  lemma {:induction false} LinesReadBack(es: seq<Entry>, at: nat)
    requires AllPlain(es)
    ensures ParseLines(RenderLines(es), at) == Ok(es)
  {
    if es != [] {
      LineReadsBack(es[0]);
      LinesReadBack(es[1..], at + 1);
      FirstLineRead(RenderLines(es), es[0], es[1..], at);
      assert es == [es[0]] + es[1..];
    }
  }

  lemma {:induction false} FirstLineRead(ls: seq<string>, e: Entry, es: seq<Entry>, at: nat)
    requires ls != [] && ParseLine(ls[0]) == Read(e) && ParseLines(ls[1..], at + 1) == Ok(es)
    ensures ParseLines(ls, at) == Ok([e] + es)
  {
  }

  lemma {:induction false} TrimEndIsPrefix(s: string)
    ensures TrimEnd(s) <= s
    ensures s != "" && !IsWhite(s[0]) ==> TrimEnd(s) != "" && TrimEnd(s)[0] == s[0]
  {
    if s != "" && IsWhite(s[|s| - 1]) {
      TrimEndIsPrefix(s[..|s| - 1]);
    }
  }

  lemma HeaderIsSkipped(line: string)
    requires line != "" && line[0] == '#'
    ensures ParseLine(line).Skip?
  {
    TrimStartId(line);
    TrimEndIsPrefix(line);
  }

  lemma VersionIsSkipped()
    ensures ParseLine(VERSION_LINE).Skip?
  {
    TrimStartId(VERSION_LINE);
    TrimEndId(VERSION_LINE);
  }

  lemma {:induction false} SkipPrefix(skipped: seq<string>, rest: seq<string>, at: nat)
    requires forall i :: 0 <= i < |skipped| ==> ParseLine(skipped[i]).Skip?
    ensures ParseLines(skipped + rest, at) == ParseLines(rest, at + |skipped|)
  {
    if skipped == [] {
      assert skipped + rest == rest;
    } else {
      assert (skipped + rest)[1..] == skipped[1..] + rest;
      SkipPrefix(skipped[1..], rest, at + 1);
    }
  }

  lemma RenderedLineIsOneLine(e: Entry)
    requires OneLine(e.path) && IsWord(e.hash) && IsWord(e.provenance) && e.bytes < U64_END
    ensures OneLine(RenderLine(e))
  {
    var d := Decimal(e.bytes);
    DecimalReadsBack(e.bytes);
    WordIsOneLine(d);
    WordIsOneLine(e.hash);
    WordIsOneLine(e.provenance);
    JoinIsOneLine(e.hash, e.provenance);
    JoinIsOneLine(d, e.hash + (" " + e.provenance));
    JoinIsOneLine(e.path, d + (" " + (e.hash + (" " + e.provenance))));
  }

  lemma WordIsOneLine(w: string)
    requires IsWord(w)
    ensures OneLine(w)
  {
  }

  lemma JoinIsOneLine(a: string, b: string)
    requires OneLine(a) && OneLine(b)
    ensures OneLine(a + (" " + b))
  {
  }

  lemma {:induction false} RenderLinesAt(es: seq<Entry>, i: nat)
    requires i < |es|
    ensures RenderLines(es)[i] == RenderLine(es[i])
  {
    if i > 0 { RenderLinesAt(es[1..], i - 1); }
  }

  lemma {:induction false} LinesOf(ls: seq<string>)
    requires forall i :: 0 <= i < |ls| ==> OneLine(ls[i])
    ensures Lines(Unlines(ls)) == ls
  {
    LinesOfUnlines(ls);
  }

  lemma {:induction false} RenderedLines(header: seq<string>, es: seq<Entry>)
    requires IsHeader(header) && forall i :: 0 <= i < |es| ==> OneLine(RenderLine(es[i]))
    ensures Lines(Unlines(header + [VERSION_LINE] + RenderLines(es))) == header + [VERSION_LINE] + RenderLines(es)
  {
    forall i | 0 <= i < |es| ensures OneLine(RenderLines(es)[i]) {
      RenderLinesAt(es, i);
    }
    OneLineEach(header, VERSION_LINE, RenderLines(es));
    LinesOf(header + [VERSION_LINE] + RenderLines(es));
  }

  lemma OneLineEach(a: seq<string>, l: string, b: seq<string>)
    requires OneLine(l) && (forall i :: 0 <= i < |a| ==> OneLine(a[i])) && forall i :: 0 <= i < |b| ==> OneLine(b[i])
    ensures forall i :: 0 <= i < |a + [l] + b| ==> OneLine((a + [l] + b)[i])
  {
  }

  lemma {:induction false} SortedPlain(es: seq<Entry>)
    requires AllPlain(es)
    ensures AllPlain(Sort(es, PathOf))
  {
    var s := Sort(es, PathOf);
    forall i | 0 <= i < |s| ensures Plain(s[i]) {
      SortMembers(es, PathOf, s[i]);
    }
  }

  lemma {:induction false} PlainReadsBack(header: seq<string>, es: seq<Entry>)
    requires IsHeader(header) && AllPlain(es)
    ensures ParseSpec(RenderSpec(header, es)) == Ok(Sort(es, PathOf))
  {
    var s := Sort(es, PathOf);
    SortedPlain(es);
    forall i | 0 <= i < |s| ensures OneLine(RenderLine(s[i])) {
      WordIsOneLine(s[i].path);
      RenderedLineIsOneLine(s[i]);
    }
    RenderedLines(header, s);
    TopIsSkipped(header, RenderLines(s));
    LinesReadBack(s, 2 + |header|);
  }

  lemma {:induction false} TopIsSkipped(header: seq<string>, rest: seq<string>)
    requires IsHeader(header)
    ensures ParseLines(header + [VERSION_LINE] + rest, 1) == ParseLines(rest, 2 + |header|)
  {
    var version := VERSION_LINE;
    VersionIsSkipped();
    var top := header + [version];
    forall i | 0 <= i < |top| ensures ParseLine(top[i]).Skip? {
      if i < |header| { HeaderIsSkipped(header[i]); }
    }
    SkipPrefix(top, rest, 1);
  }

  lemma ReadIsPlain(line: string)
    requires ParseLine(line).Read?
    ensures Plain(ParseLine(line).e)
  {
    var t := Trim(line);
    TrimEndIsPrefix(TrimStart(line));
    TrimStartId(t);
    var f := Fields(t);
    FieldsAreWords(t, 0);
    FieldsAreWords(t, 2);
    FieldsAreWords(t, 3);
    assert f[0] == t[..WordLength(t)];
    assert f[0] <= t;
  }

  lemma {:induction false} ParsedIsPlain(ls: seq<string>, at: nat)
    requires ParseLines(ls, at).Ok?
    ensures AllPlain(ParseLines(ls, at).value)
  {
    if ls != [] {
      ParsedIsPlain(ls[1..], at + 1);
      if ParseLine(ls[0]).Read? { ReadIsPlain(ls[0]); }
    }
  }

  /** What is written reads back as the entries sorted by path exactly when every entry is plain. */
  lemma {:induction false} RoundTrip(header: seq<string>, es: seq<Entry>)
    requires IsHeader(header)
    ensures ParseSpec(RenderSpec(header, es)) == Ok(Sort(es, PathOf)) <==> AllPlain(es)
  {
    if AllPlain(es) {
      PlainReadsBack(header, es);
    } else if ParseSpec(RenderSpec(header, es)) == Ok(Sort(es, PathOf)) {
      ParsedIsPlain(Lines(RenderSpec(header, es)), 1);
      forall i | 0 <= i < |es| ensures Plain(es[i]) {
        SortMembers(es, PathOf, es[i]);
      }
    }
  }

  /** The order the entries come in leaves no trace when their paths are different. */
  lemma RenderIgnoresOrder(header: seq<string>, a: seq<Entry>, b: seq<Entry>)
    requires multiset(a) == multiset(b) && Distinct(a)
    ensures RenderSpec(header, a) == RenderSpec(header, b)
  {
    SortSorts(a, PathOf);
    SortSorts(b, PathOf);
    DistinctByMembers(a, Sort(a, PathOf), PathOf);
    SortedUnique(Sort(a, PathOf), Sort(b, PathOf), PathOf);
  }
}
