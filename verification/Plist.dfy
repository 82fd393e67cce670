/** The property lists of xtask/src/bundle.rs: escaped text reads back, the order the entries are given in
    leaves no trace, and no two dictionaries are written alike. */
module Plist {
  import opened Sorting

  datatype Value = Words(text: string) | Flag(on: bool)

  datatype Entry = Entry(key: string, value: Value)

  function KeyOf(e: Entry): string { e.key }

  // -------------------------------------------------------------------------------------------
  // Escaping
  // -------------------------------------------------------------------------------------------

  /** `str::replace` of one character. */
  function Replace(s: string, c: char, entity: string): string {
    if s == "" then "" else (if s[0] == c then entity else [s[0]]) + Replace(s[1..], c, entity)
  }

  function Escape(text: string): string {
    Replace(Replace(Replace(text, '&', "&amp;"), '<', "&lt;"), '>', "&gt;")
  }

  /** One character, escaped: what XML 1.0, section 2.4, asks of character data. */
  function EscapeChar(c: char): (s: string)
    ensures s != ""
  {
    if c == '&' then "&amp;" else if c == '<' then "&lt;" else if c == '>' then "&gt;" else [c]
  }

  lemma {:induction false} ReplaceAppend(a: string, b: string, c: char, entity: string)
    ensures Replace(a + b, c, entity) == Replace(a, c, entity) + Replace(b, c, entity)
  {
    if a == "" {
      assert a + b == b;
    } else {
      assert (a + b)[1..] == a[1..] + b;
      ReplaceAppend(a[1..], b, c, entity);
    }
  }

  lemma {:induction false} ReplaceNone(s: string, c: char, entity: string)
    requires forall i :: 0 <= i < |s| ==> s[i] != c
    ensures Replace(s, c, entity) == s
  {
    if s != "" {
      ReplaceNone(s[1..], c, entity);
      assert s == [s[0]] + s[1..];
    }
  }

  lemma {:induction false} ReplaceOne(d: char, c: char, entity: string)
    ensures Replace([d], c, entity) == if d == c then entity else [d]
  {
    assert [d][1..] == "";
    assert entity + "" == entity;
  }

  lemma EscapeOne(c: char)
    ensures Escape([c]) == EscapeChar(c)
  {
    EscapePiece(c, "&amp;", "&lt;", "&gt;");
  }

  /** The later replacements leave alone what the earlier ones put in. */
  lemma {:induction false} EscapePiece(c: char, amp: string, lt: string, gt: string)
    requires forall i :: 0 <= i < |amp| ==> amp[i] != '<' && amp[i] != '>'
    requires forall i :: 0 <= i < |lt| ==> lt[i] != '>'
    ensures Replace(Replace(Replace([c], '&', amp), '<', lt), '>', gt)
         == if c == '&' then amp else if c == '<' then lt else if c == '>' then gt else [c]
  {
    ReplaceOne(c, '&', amp);
    ReplaceOne(c, '<', lt);
    ReplaceOne(c, '>', gt);
    ReplaceNone(amp, '<', lt);
    ReplaceNone(amp, '>', gt);
    ReplaceNone(lt, '>', gt);
  }

  lemma EscapeAppend(a: string, b: string)
    ensures Escape(a + b) == Escape(a) + Escape(b)
  {
    var one := Replace(a, '&', "&amp;");
    var two := Replace(b, '&', "&amp;");
    ReplaceAppend(a, b, '&', "&amp;");
    ReplaceAppend(one, two, '<', "&lt;");
    ReplaceAppend(Replace(one, '<', "&lt;"), Replace(two, '<', "&lt;"), '>', "&gt;");
  }

  /** The three replacements one after another work character by character. */
  lemma EscapeFirst(text: string)
    requires text != ""
    ensures Escape(text) == EscapeChar(text[0]) + Escape(text[1..])
  {
    assert text == [text[0]] + text[1..];
    EscapeAppend([text[0]], text[1..]);
    EscapeOne(text[0]);
  }

  /** Reading character data: the three entities. */
  function Unescape(s: string): string
    decreases |s|
  {
    if s == "" then ""
    else if "&amp;" <= s then ['&'] + Unescape(s[5..])
    else if "&lt;" <= s then ['<'] + Unescape(s[4..])
    else if "&gt;" <= s then ['>'] + Unescape(s[4..])
    else [s[0]] + Unescape(s[1..])
  }

  lemma {:induction false} UnescapeFirst(c: char, rest: string)
    ensures Unescape(EscapeChar(c) + rest) == [c] + Unescape(rest)
  {
    var s := EscapeChar(c) + rest;
    assert s[|EscapeChar(c)|..] == rest;
    if c == '&' {
      assert s[..5] == "&amp;";
    } else if c == '<' {
      assert s[..4] == "&lt;" && s[1] == 'l';
    } else if c == '>' {
      assert s[..4] == "&gt;" && s[1] == 'g';
    } else {
      assert s[0] == c;
    }
  }

  /** What is escaped reads back. */
  lemma {:induction false} EscapeReadsBack(text: string)
    ensures Unescape(Escape(text)) == text
  {
    if text != "" {
      EscapeFirst(text);
      EscapeReadsBack(text[1..]);
      UnescapeFirst(text[0], Escape(text[1..]));
    }
  }

  /** Nothing escaped can be taken for markup. */
  lemma {:induction false} EscapeHasNoMarkup(text: string, i: nat)
    requires i < |Escape(text)|
    ensures Escape(text)[i] != '<' && Escape(text)[i] != '>'
  {
    if text != "" {
      EscapeFirst(text);
      if i >= |EscapeChar(text[0])| {
        EscapeHasNoMarkup(text[1..], i - |EscapeChar(text[0])|);
      }
    }
  }

  // -------------------------------------------------------------------------------------------
  // The document
  // -------------------------------------------------------------------------------------------

  const OPENING := XML_LINE + DOCTYPE_LINE + "<plist version=\"1.0\">\n<dict>\n"
  const XML_LINE := "<?xml version=\"1.0\" encoding=\"UTF-8\"?>\n"
  const DOCTYPE_LINE := "<!DOCTYPE plist PUBLIC " + PUBLIC_ID + " " + SYSTEM_ID + ">\n"
  const PUBLIC_ID := "\"-//Apple//DTD PLIST 1.0//EN\""
  const SYSTEM_ID := "\"http://www.apple.com/DTDs/PropertyList-1.0.dtd\""
  const CLOSING := "</dict>\n</plist>\n"

  const KEY_OPEN := "\t<key>"
  const KEY_CLOSE := "</key>\n\t"
  const TEXT_OPEN := "<string>"
  const TEXT_CLOSE := "</string>"
  const ON := "<true/>"
  const OFF := "<false/>"

  function ValueText(v: Value): string {
    match v
    case Words(text) => TEXT_OPEN + (Escape(text) + TEXT_CLOSE)
    case Flag(on) => if on then ON else OFF
  }

  function EntryText(e: Entry): string {
    KEY_OPEN + (Escape(e.key) + (KEY_CLOSE + (ValueText(e.value) + "\n")))
  }

  function Body(es: seq<Entry>): string {
    if es == [] then "" else EntryText(es[0]) + Body(es[1..])
  }

  function PlistSpec(es: seq<Entry>): string {
    OPENING + Body(Sort(es, KeyOf)) + CLOSING
  }

  method Render(es: seq<Entry>) returns (out: string)
    ensures out == PlistSpec(es)
  {
    var sorted := Sort(es, KeyOf);
    out := OPENING;
    for i := 0 to |sorted|
      invariant out + Body(sorted[i..]) == OPENING + Body(sorted)
    {
      assert sorted[i..][1..] == sorted[i + 1..];
      Regroup(out, EntryText(sorted[i]), Body(sorted[i + 1..]));
      out := out + EntryText(sorted[i]);
    }
    assert out + "" == out;
    out := out + CLOSING;
  }

  lemma Regroup(a: string, b: string, c: string)
    ensures a + (b + c) == a + b + c
  {
  }

  /** Two orders of the same entries, with different keys, give the same bytes. */
  lemma OrderLeavesNoTrace(a: seq<Entry>, b: seq<Entry>)
    requires multiset(a) == multiset(b) && DistinctBy(a, KeyOf)
    ensures PlistSpec(a) == PlistSpec(b)
  {
    SortSorts(a, KeyOf);
    SortSorts(b, KeyOf);
    DistinctByMembers(a, Sort(a, KeyOf), KeyOf);
    SortedUnique(Sort(a, KeyOf), Sort(b, KeyOf), KeyOf);
  }

  // -------------------------------------------------------------------------------------------
  // No two dictionaries are written alike
  // -------------------------------------------------------------------------------------------

  lemma CancelLeft(p: string, x: string, y: string)
    requires p + x == p + y
    ensures x == y
  {
    assert x == (p + x)[|p|..] && y == (p + y)[|p|..];
  }

  lemma CancelRight(x: string, y: string, q: string)
    requires x + q == y + q
    ensures x == y
  {
    assert |x + q| == |y + q|;
    assert x == (x + q)[..|x|] && y == (y + q)[..|y|];
  }

  predicate NoOpen(s: string) {
    forall i :: 0 <= i < |s| ==> s[i] != '<'
  }

  /** Text without a `<`, up to the first `<`, is determined. */
  lemma UpToOpen(x: string, y: string, r: string, s: string)
    requires x + r == y + s && NoOpen(x) && NoOpen(y)
    requires r != "" && r[0] == '<' && s != "" && s[0] == '<'
    ensures x == y && r == s
  {
    var t := x + r;
    assert t[|x|] == '<' && t[|y|] == '<';
    assert forall i :: 0 <= i < |x| ==> t[i] != '<';
    assert forall i :: 0 <= i < |y| ==> t[i] != '<';
    assert |x| == |y|;
    assert x == t[..|x|] && y == t[..|y|];
    CancelLeft(x, r, s);
  }

  lemma EscapeNoOpen(text: string)
    ensures NoOpen(Escape(text))
  {
    forall i | 0 <= i < |Escape(text)| ensures Escape(text)[i] != '<' {
      EscapeHasNoMarkup(text, i);
    }
  }

  lemma EscapeIsInjective(a: string, b: string)
    requires Escape(a) == Escape(b)
    ensures a == b
  {
    EscapeReadsBack(a);
    EscapeReadsBack(b);
  }

  /** Escaped text up to the next tag is determined, and so is the text. */
  lemma SameEscaped(a: string, b: string, r: string, s: string)
    requires Escape(a) + r == Escape(b) + s
    requires r != "" && r[0] == '<' && s != "" && s[0] == '<'
    ensures a == b && r == s
  {
    EscapeNoOpen(a);
    EscapeNoOpen(b);
    UpToOpen(Escape(a), Escape(b), r, s);
    EscapeIsInjective(a, b);
  }

  /** The second character of a value's text tells its kind. */
  lemma ValueKind(v: Value)
    ensures |ValueText(v)| > 1 && ValueText(v)[0] == '<'
    ensures ValueText(v)[1] == (match v case Words(_) => 's' case Flag(on) => if on then 't' else 'f')
  {
  }

  lemma SameValue(v: Value, w: Value, r: string, s: string)
    requires ValueText(v) + r == ValueText(w) + s
    ensures v == w && r == s
  {
    ValueKind(v);
    ValueKind(w);
    assert (ValueText(v) + r)[1] == ValueText(v)[1] && (ValueText(w) + s)[1] == ValueText(w)[1];
    if v.Words? && w.Words? {
      SameWords(v.text, w.text, TEXT_OPEN, TEXT_CLOSE, r, s);
    } else {
      CancelLeft(ValueText(v), r, s);
    }
  }

  lemma SameWords(a: string, b: string, open: string, close: string, r: string, s: string)
    requires open + (Escape(a) + close) + r == open + (Escape(b) + close) + s && close != "" && close[0] == '<'
    ensures a == b && r == s
  {
    assert open + (Escape(a) + close) + r == open + (Escape(a) + (close + r));
    assert open + (Escape(b) + close) + s == open + (Escape(b) + (close + s));
    CancelLeft(open, Escape(a) + (close + r), Escape(b) + (close + s));
    SameEscaped(a, b, close + r, close + s);
    CancelLeft(close, r, s);
  }

  /** An entry's text ends where the next begins. */
  lemma SameEntry(d: Entry, e: Entry, r: string, s: string)
    requires EntryText(d) + r == EntryText(e) + s
    ensures d == e && r == s
  {
    EntryRegroup(d, r, KEY_OPEN, KEY_CLOSE);
    EntryRegroup(e, s, KEY_OPEN, KEY_CLOSE);
    var x, y := ValueText(d.value) + ("\n" + r), ValueText(e.value) + ("\n" + s);
    CancelLeft(KEY_OPEN, Escape(d.key) + (KEY_CLOSE + x), Escape(e.key) + (KEY_CLOSE + y));
    SameEscaped(d.key, e.key, KEY_CLOSE + x, KEY_CLOSE + y);
    CancelLeft(KEY_CLOSE, x, y);
    SameValue(d.value, e.value, "\n" + r, "\n" + s);
    CancelLeft("\n", r, s);
  }

  lemma EntryRegroup(e: Entry, r: string, open: string, close: string)
    ensures open + (Escape(e.key) + (close + (ValueText(e.value) + "\n"))) + r
         == open + (Escape(e.key) + (close + (ValueText(e.value) + ("\n" + r))))
  {
  }

  lemma {:induction false} SameBody(a: seq<Entry>, b: seq<Entry>)
    requires Body(a) == Body(b)
    ensures a == b
  {
    NothingWritten(a);
    NothingWritten(b);
    if a != [] {
      SameEntry(a[0], b[0], Body(a[1..]), Body(b[1..]));
      SameBody(a[1..], b[1..]);
      assert a == [a[0]] + a[1..] && b == [b[0]] + b[1..];
    }
  }

  lemma {:induction false} NothingWritten(es: seq<Entry>)
    ensures Body(es) == "" <==> es == []
  {
    if es != [] {
      assert |EntryText(es[0])| > 0;
    }
  }

  /** The document is the same exactly when the sorted entries are. */
  lemma {:induction false} PlistIsUnambiguous(a: seq<Entry>, b: seq<Entry>)
    ensures PlistSpec(a) == PlistSpec(b) <==> Sort(a, KeyOf) == Sort(b, KeyOf)
  {
    if PlistSpec(a) == PlistSpec(b) {
      CancelRight(OPENING + Body(Sort(a, KeyOf)), OPENING + Body(Sort(b, KeyOf)), CLOSING);
      CancelLeft(OPENING, Body(Sort(a, KeyOf)), Body(Sort(b, KeyOf)));
      SameBody(Sort(a, KeyOf), Sort(b, KeyOf));
    }
  }
}
