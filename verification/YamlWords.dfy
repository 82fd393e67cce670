/**
  How the one-line texts of a printed document read back: scanning over plain and quoted words, splitting a
  line at its key, finding a comment, unquoting a value, telling a block header from a scalar, and reading a
  flow sequence. Each scan is shown to stop exactly where the printer stopped writing.
*/
module YamlWords {
  import opened Text
  import opened Yaml
  import opened YamlPrint

  // Where the scans stop, against the declarative reading of the quotes.

  /** `KeyLength` finds the first separating colon outside quotes, if there is one. */
  lemma {:induction false} KeyLengthIsFirst(s: string, i: nat)
    requires i <= |s| && forall j :: 0 <= j < i ==> !Separates(s, j)
    ensures var n := i + KeyLength(s[i..], QuoteAfter(s[..i]));
            (n < |s| ==> Separates(s, n)) && forall j :: 0 <= j < n <= |s| ==> !Separates(s, j)
    decreases |s| - i
  {
    if i < |s| && !Separates(s, i) {
      assert s[..i + 1][..i] == s[..i];
      assert s[i..][1..] == s[i + 1..];
      KeyLengthIsFirst(s, i + 1);
    }
  }

  /** `CodeLength` finds the first comment outside quotes, if there is one. */
  lemma {:induction false} CodeLengthIsFirst(s: string, i: nat)
    requires i <= |s| && forall j :: 0 <= j < i ==> !Comments(s, j)
    ensures var n := i + CodeLength(s[i..], QuoteAfter(s[..i]), i == 0 || s[i - 1] == ' ');
            (n < |s| ==> Comments(s, n)) && forall j :: 0 <= j < n <= |s| ==> !Comments(s, j)
    decreases |s| - i
  {
    if i < |s| && !Comments(s, i) {
      assert s[..i + 1][..i] == s[..i];
      assert s[i..][1..] == s[i + 1..];
      CodeLengthIsFirst(s, i + 1);
    }
  }

  predicate FirstSeparator(s: string, n: nat) {
    n < |s| && Separates(s, n) && forall j :: 0 <= j < n ==> !Separates(s, j)
  }

  predicate FirstComment(s: string, n: nat) {
    n < |s| && Comments(s, n) && forall j :: 0 <= j < n ==> !Comments(s, j)
  }

  /** A line splits at its first unquoted colon that a space or the end follows, and only there. */
  lemma SplitsAtFirst(s: string, n: nat)
    ensures SplitKey(s) == Err(NotAnEntry) <==> forall j :: 0 <= j < |s| ==> !Separates(s, j)
    ensures FirstSeparator(s, n) ==>
              var key := Unquote(Trim(s[..n]));
              SplitKey(s) == if key == "" then Err(EmptyKey) else Ok((key, Trim(s[n + 1..])))
  {
    assert s[0..] == s && s[..0] == "";
    KeyLengthIsFirst(s, 0);
  }

  /** A line ends before its first unquoted hash at the start or behind a space, and only there. */
  lemma CutsAtFirst(s: string, n: nat)
    ensures (forall j :: 0 <= j < |s| ==> !Comments(s, j)) ==> StripComment(s) == s
    ensures FirstComment(s, n) ==> StripComment(s) == TrimEnd(s[..n])
  {
    assert s[0..] == s && s[..0] == "";
    CodeLengthIsFirst(s, 0);
  }

  // Scanning over a printed word.

  /** The quote that is open at the end of `s`, scanning on with quote `q` open. */
  function EndQuote(s: string, q: Option<char>): Option<char> {
    if s == "" then q else EndQuote(s[1..], NextQuote(q, s[0]))
  }

  lemma {:induction false} EndQuoteIsAfter(s: string, i: nat)
    requires i <= |s|
    ensures EndQuote(s[i..], QuoteAfter(s[..i])) == QuoteAfter(s)
    decreases |s| - i
  {
    if i == |s| {
      assert s[..i] == s;
    } else {
      assert s[..i + 1][..i] == s[..i];
      assert s[i..][1..] == s[i + 1..];
      EndQuoteIsAfter(s, i + 1);
    }
  }

  /** A text without a comment is scanned to its end, whatever follows it. */
  lemma {:induction false} CodeScan(s: string, rest: string, q: Option<char>, sp: bool)
    requires s != "" && CodeLength(s, q, sp) == |s|
    ensures CodeLength(s + rest, q, sp) == |s| + CodeLength(rest, EndQuote(s, q), s[|s| - 1] == ' ')
    ensures CodeLength(s + rest, q, false) == CodeLength(s + rest, q, sp)
  {
    assert (s + rest)[1..] == s[1..] + rest;
    if |s| == 1 {
      assert s[1..] + rest == rest;
    } else {
      CodeScan(s[1..], rest, NextQuote(q, s[0]), s[0] == ' ');
    }
  }

  /** The colon that ends a key also ends it with its value behind it. */
  lemma {:induction false} KeyScanOn(s: string, tail: string, q: Option<char>)
    requires KeyLength(s + ":", q) == |s| && (tail == "" || tail[0] == ' ')
    ensures KeyLength(s + ":" + tail, q) == |s| && EndQuote(s, q) == None
  {
    if s == "" {
      assert s + ":" == ":" && s + ":" + tail == ":" + tail;
      assert ":"[1..] == "";
    } else {
      assert (s + ":")[1..] == s[1..] + ":";
      assert (s + ":" + tail)[1..] == s[1..] + ":" + tail;
      KeyScanOn(s[1..], tail, NextQuote(q, s[0]));
    }
  }

  lemma WordEnds(w: Word)
    requires WordOk(w)
    ensures var t := WordText(w);
            t != "" && !IsWhite(t[0]) && !IsWhite(t[|t| - 1]) && '\n' !in t && t[0] != '#' && Trim(t) == t
  {
    TrimStartId(WordText(w));
    TrimEndId(WordText(w));
  }

  // Words that can always be written.

  lemma {:induction false} QuotedScan(q: char, t: string, rest: string, sp: bool)
    requires (q == '"' || q == '\'') && q !in t
    ensures CodeLength(t + [q] + rest, Some(q), sp) == |t| + 1 + CodeLength(rest, None, false)
    ensures KeyLength(t + [q] + rest, Some(q)) == |t| + 1 + KeyLength(rest, None)
  {
    var s := t + [q] + rest;
    if t == "" {
      assert s[1..] == rest;
    } else {
      QuotedScan(q, t[1..], rest, t[0] == ' ');
      assert s[1..] == t[1..] + [q] + rest;
    }
  }

  /** Between quotes it does not contain, a text without a line break can be written in any position. */
  lemma QuotedIsOk(q: char, t: string)
    requires (q == '"' || q == '\'') && q !in t && '\n' !in t
    ensures ItemWordOk(Quoted(q, t)) && ValueWordOk(Quoted(q, t)) && (t != "" ==> KeyOk(Quoted(q, t)))
  {
    QuotedUnquotes(q, t);
    QuotedScans(q, t);
  }

  lemma QuotedUnquotes(q: char, t: string)
    requires q == '"' || q == '\''
    ensures var s := [q] + t + [q]; Trim(s) == s && Unquote(s) == t
  {
    var s := [q] + t + [q];
    TrimStartId(s);
    TrimEndId(s);
    assert s[1..|s| - 1] == t;
  }

  lemma QuotedScans(q: char, t: string)
    requires (q == '"' || q == '\'') && q !in t
    ensures var s := [q] + t + [q];
            CodeLength(s, None, true) == |s| && KeyLength(s, None) == |s| && KeyLength(s + ":", None) == |s|
  {
    var s := [q] + t + [q];
    assert s[1..] == t + [q] + "" && (s + ":")[1..] == t + [q] + ":";
    QuotedScan(q, t, "", false);
    QuotedScan(q, t, ":", false);
    assert ":"[1..] == "";
  }

  /** Bare text that nothing in is special: no quote, no comment, no colon that separates. */
  predicate Calm(s: string) {
    && s != "" && !IsWhite(s[0]) && !IsWhite(s[|s| - 1])
    && '\n' !in s && '"' !in s && '\'' !in s
    && s[0] != '#' && s[|s| - 1] != ':'
    && forall i :: 0 < i < |s| ==> CalmAt(s, i)
  }

  /** No comment and no value starts at position `i`. */
  predicate CalmAt(s: string, i: nat)
    requires 0 < i < |s|
  {
    !(s[i] == '#' && s[i - 1] == ' ') && !(s[i] == ' ' && s[i - 1] == ':')
  }

  /** A suffix of such a text. */
  predicate Bare(s: string) {
    && s != "" && s[|s| - 1] != ' ' && s[|s| - 1] != ':' && '"' !in s && '\'' !in s
    && forall i :: 0 < i < |s| ==> CalmAt(s, i)
  }

  lemma {:induction false} BareScan(s: string, rest: string, sp: bool)
    requires Bare(s) && (sp ==> s[0] != '#')
    ensures CodeLength(s + rest, None, sp) == |s| + CodeLength(rest, None, false)
    ensures KeyLength(s + rest, None) == |s| + KeyLength(rest, None)
  {
    if |s| == 1 {
      assert (s + rest)[1..] == rest;
    } else {
      assert (s + rest)[1..] == s[1..] + rest;
      assert CalmAt(s, 1);
      forall i | 0 < i < |s| - 1
        ensures CalmAt(s[1..], i)
      {
        assert CalmAt(s, i + 1);
      }
      BareScan(s[1..], rest, s[0] == ' ');
    }
  }

  lemma CalmIsOk(s: string)
    requires Calm(s)
    ensures ItemWordOk(Plain(s)) && (!("- " <= s) ==> KeyOk(Plain(s)))
  {
    TrimStartId(s);
    TrimEndId(s);
    BareScan(s, "", true);
    BareScan(s, ":", true);
    assert s + "" == s && ":"[1..] == "";
    assert s[0] in s;
  }

  // Flow sequences.

  lemma {:induction false} FlowStep(w: Word, more: string, sp: bool)
    requires FlowWordOk(w)
    ensures CodeLength(WordText(w) + ", " + more, None, sp) == |WordText(w)| + 2 + CodeLength(more, None, true)
    ensures CodeLength(WordText(w) + "]", None, sp) == |WordText(w)| + 1
  {
    var t := WordText(w);
    FlowWordScan(w, ", " + more, sp);
    FlowWordScan(w, "]", sp);
    assert t + ", " + more == t + (", " + more);
    assert (", " + more)[1..] == " " + more && (" " + more)[1..] == more;
    assert "]"[1..] == "";
  }

  lemma {:induction false} FlowWordScan(w: Word, rest: string, sp: bool)
    requires FlowWordOk(w)
    ensures CodeLength(WordText(w) + rest, None, sp) == |WordText(w)| + CodeLength(rest, None, false)
  {
    var t := WordText(w);
    CodeScan(t, rest, None, true);
    EndQuoteIsAfter(t, 0);
    assert t[0..] == t && t[..0] == "";
  }

  lemma {:induction false} FlowScan(words: seq<Word>, sp: bool)
    requires forall i :: 0 <= i < |words| ==> FlowWordOk(words[i])
    ensures CodeLength(FlowInner(words) + "]", None, sp) == |FlowInner(words)| + 1
  {
    if |words| == 1 {
      FlowStep(words[0], "", sp);
    } else if |words| > 1 {
      var more := FlowInner(words[1..]) + "]";
      FlowScan(words[1..], true);
      FlowStep(words[0], more, sp);
      assert FlowInner(words) + "]" == WordText(words[0]) + ", " + more;
    }
  }

  /** One word of a flow sequence, after `pad` spaces, at the end of it or before a comma. */
  lemma {:induction false} FlowWordReads(w: Word, pad: nat, rest: string)
    requires FlowWordOk(w)
    ensures FlowItems(Split(Spaces(pad) + WordText(w), ',')) == [Scalar(w.text)]
    ensures FlowItems(Split(Spaces(pad) + WordText(w) + "," + rest, ','))
            == [Scalar(w.text)] + FlowItems(Split(rest, ','))
  {
    var part := Spaces(pad) + WordText(w);
    WordEnds(w);
    TrimPad(pad, WordText(w));
    SplitFirst(part, ',', rest);
    assert ([part] + Split(rest, ','))[1..] == Split(rest, ',');
    assert FlowItems([part]) == [Scalar(w.text)] + FlowItems([]);
  }

  /** The words of a flow sequence come back, the first one after `pad` spaces. */
  lemma {:induction false} FlowReads(words: seq<Word>, pad: nat)
    requires forall i :: 0 <= i < |words| ==> FlowWordOk(words[i])
    ensures FlowItems(Split(Spaces(pad) + FlowInner(words), ',')) == WordItems(words)
  {
    if words == [] {
      NoWordReads(pad);
      assert Spaces(pad) + FlowInner(words) == Spaces(pad);
    } else {
      var w := words[0];
      var more := Spaces(1) + FlowInner(words[1..]);
      FlowWordReads(w, pad, more);
      if |words| == 1 {
        assert WordItems(words) == [Scalar(w.text)];
      } else {
        FlowReads(words[1..], 1);
        FlowInnerStep(words, pad, more);
      }
    }
  }

  lemma NoWordReads(pad: nat)
    ensures FlowItems(Split(Spaces(pad), ',')) == []
  {
    SplitFirst(Spaces(pad), ',', "");
    assert Spaces(pad) + "" == Spaces(pad);
    TrimStartPad(pad, "");
  }

  lemma {:induction false} FlowInnerStep(words: seq<Word>, pad: nat, more: string)
    requires |words| > 1 && more == Spaces(1) + FlowInner(words[1..])
    ensures Spaces(pad) + FlowInner(words) == Spaces(pad) + WordText(words[0]) + "," + more
  {
    CommaSpace(Spaces(pad), WordText(words[0]), FlowInner(words[1..]));
  }

  lemma CommaSpace(a: string, b: string, c: string)
    ensures a + (b + ", " + c) == a + b + "," + (Spaces(1) + c)
  {
    assert ", " == "," + Spaces(1);
    assert b + ", " + c == b + "," + (Spaces(1) + c);
  }

  lemma {:induction false} FlowIsFlat(words: seq<Word>)
    requires forall i :: 0 <= i < |words| ==> FlowWordOk(words[i])
    ensures '[' !in FlowInner(words) && '{' !in FlowInner(words)
  {
    if |words| > 1 {
      FlowIsFlat(words[1..]);
    }
  }

  lemma {:induction false} FlowSeqReads(words: seq<Word>)
    requires forall i :: 0 <= i < |words| ==> FlowWordOk(words[i])
    ensures FlowSeq(FlowText(words)) == Ok(Seq(WordItems(words)))
  {
    var t := FlowText(words);
    TrimStartId(t);
    TrimEndId(t);
    FlowReads(words, 0);
    FlowIsFlat(words);
    assert t[1..|t| - 1] == FlowInner(words);
    assert Spaces(0) + FlowInner(words) == FlowInner(words);
  }

  // Block headers.

  lemma {:induction false} IndicatorsAreQuiet(s: string, seenChomp: bool, seenIndent: bool)
    requires IndicatorsOk(s, seenChomp, seenIndent)
    ensures CodeLength(s, None, false) == |s|
    ensures forall i :: 0 <= i < |s| ==> !IsWhite(s[i])
  {
    if s != "" {
      var chomp := (s[0] == '-' || s[0] == '+') && !seenChomp;
      IndicatorsAreQuiet(s[1..], seenChomp || chomp, seenIndent || !chomp);
    }
  }

  /** The indicators accepted: none, one of a kind, or one of each in either order. */
  lemma {:induction false} IndicatorsAre(s: string)
    ensures IndicatorsOk(s, false, false) <==>
            || s == ""
            || (|s| == 1 && (IsChomp(s[0]) || IsIndentation(s[0])))
            || (|s| == 2 && ((IsChomp(s[0]) && IsIndentation(s[1])) || (IsIndentation(s[0]) && IsChomp(s[1]))))
  {
    if |s| > 0 {
      OneKindLeft(s[1..]);
    }
  }

  lemma {:induction false} OneKindLeft(s: string)
    ensures IndicatorsOk(s, true, false) <==> s == "" || (|s| == 1 && IsIndentation(s[0]))
    ensures IndicatorsOk(s, false, true) <==> s == "" || (|s| == 1 && IsChomp(s[0]))
  {
    if |s| > 0 {
      assert IndicatorsOk(s[1..], true, true) <==> s[1..] == "";
    }
  }

  /** Which texts are block headers, and which of them fold. */
  lemma HeaderIff(text: string)
    ensures BlockIndicator(text).Some? <==> HeaderOk(Trim(text))
    ensures BlockIndicator(text).Some? ==> (BlockIndicator(text) == Some(true) <==> Trim(text)[0] == '>')
  {
    var t := Trim(text);
    if t != "" { IndicatorsAre(t[1..]); }
  }

  lemma HeaderTrims(header: string)
    requires HeaderOk(header)
    ensures Trim(header) == header && BlockIndicator(header) == Some(header[0] == '>')
  {
    TrimStartId(header);
    TrimEndId(header);
    HeaderIff(header);
  }

  lemma {:induction false} HeaderIsQuiet(header: string)
    requires HeaderOk(header)
    ensures header != "" && CodeLength(header, None, true) == |header|
    ensures forall i :: 0 <= i < |header| ==> !IsWhite(header[i])
  {
    HeaderTrims(header);
    IndicatorsAreQuiet(header[1..], false, false);
  }

  // Key lines.

  lemma {:induction false} ValueTextScan(d: Doc)
    requires WfValue(d)
    ensures var v := ValueText(d);
            CodeLength(v, None, true) == |v| && Trim(v) == v && (v != "" ==> !IsWhite(v[0]) && !IsWhite(v[|v| - 1]))
  {
    var v := ValueText(d);
    match d
    case Inline(w) =>
      WordEnds(w);
    case Block(header, lines) =>
      assert BlockOk(header, lines);
      HeaderIsQuiet(header);
    case Flow(words) =>
      FlowTextScan(words);
    case _ =>
  }

  lemma {:induction false} FlowTextScan(words: seq<Word>)
    requires forall i :: 0 <= i < |words| ==> FlowWordOk(words[i])
    ensures var v := FlowText(words);
            CodeLength(v, None, true) == |v| && Trim(v) == v && v != "" && !IsWhite(v[0]) && !IsWhite(v[|v| - 1])
  {
    var v := FlowText(words);
    FlowScan(words, false);
    assert v[1..] == FlowInner(words) + "]";
    TrimStartId(v);
    TrimEndId(v);
  }

  /** What a key line holds after its colon. */
  function AfterColon(v: string): string {
    if v == "" then "" else " " + v
  }

  lemma {:induction false} AfterColonReads(v: string)
    requires CodeLength(v, None, true) == |v| && Trim(v) == v && (v != "" ==> !IsWhite(v[0]) && !IsWhite(v[|v| - 1]))
    ensures Trim(AfterColon(v)) == v
    ensures CodeLength(":" + AfterColon(v), None, false) == 1 + |AfterColon(v)|
  {
    var tail := AfterColon(v);
    assert (":" + tail)[1..] == tail;
    if v != "" {
      TrimPad(1, v);
      assert Spaces(1) + v == tail;
      assert tail[1..] == v;
    }
  }

  lemma KeyLineEnds(f: Field)
    requires KeyOk(f.key)
    requires var v := ValueText(f.value); v != "" ==> !IsWhite(v[|v| - 1])
    ensures var t := KeyLine(f);
            t != "" && !IsWhite(t[0]) && !IsWhite(t[|t| - 1]) && t[0] != '#' && !("- " <= t) && t != "-"
  {
    var k, t := WordText(f.key), KeyLine(f);
    WordEnds(f.key);
    assert t[0] == k[0] && t[|k|] == ':';
    if t[0] == '-' {
      assert |k| > 1 ==> t[1] == k[1];
    }
  }

  lemma {:induction false} KeyScan(w: Word, tail: string)
    requires KeyOk(w) && (tail == "" || tail[0] == ' ')
    requires CodeLength(":" + tail, None, false) == 1 + |tail|
    ensures var t := WordText(w) + ":" + tail;
            CodeLength(t, None, true) == |t| && KeyLength(t, None) == |WordText(w)| < |t|
  {
    TextScan(WordText(w), tail);
  }

  lemma {:induction false} TextScan(s: string, tail: string)
    requires s != "" && s[|s| - 1] != ' ' && CodeLength(s, None, true) == |s| && KeyLength(s + ":", None) == |s|
    requires (tail == "" || tail[0] == ' ') && CodeLength(":" + tail, None, false) == 1 + |tail|
    ensures CodeLength(s + ":" + tail, None, true) == |s| + 1 + |tail| && KeyLength(s + ":" + tail, None) == |s|
  {
    KeyScanOn(s, tail, None);
    CodeScan(s, ":" + tail, None, true);
    assert s + ":" + tail == s + (":" + tail);
  }

  /** Splitting a text whose first separating colon is known. */
  lemma {:induction false} SplitAt(t: string, k: string, key: string, tail: string, v: string)
    requires t == k + ":" + tail && CodeLength(t, None, true) == |t| && KeyLength(t, None) == |k|
    requires Trim(k) == k && Unquote(k) == key != "" && Trim(tail) == v
    ensures SplitKey(StripComment(t)) == Ok((key, v))
  {
    assert t[..|k|] == k && t[|k| + 1..] == tail;
    assert StripComment(t) == t;
  }

  /** A key line has no comment in it and splits into its key and its value's text. */
  lemma {:induction false} KeyLineReads(f: Field)
    requires WfField(f)
    ensures SplitKey(StripComment(KeyLine(f))) == Ok((f.key.text, ValueText(f.value)))
    ensures var t := KeyLine(f);
            t != "" && !IsWhite(t[0]) && !IsWhite(t[|t| - 1]) && t[0] != '#' && !("- " <= t) && t != "-"
  {
    var k, v := WordText(f.key), ValueText(f.value);
    ValueTextScan(f.value);
    KeyLineEnds(f);
    AfterColonReads(v);
    KeyScan(f.key, AfterColon(v));
    WordEnds(f.key);
    SplitAt(KeyLine(f), k, f.key.text, AfterColon(v), v);
  }

  /** An item's word is neither an entry nor a comment. */
  lemma ItemWordReads(w: Word)
    requires ItemWordOk(w)
    ensures var t := WordText(w); SplitKey(StripComment(t)).Err? && Unquote(StripComment(t)) == w.text
  {
  }
}
