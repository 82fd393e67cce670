/** What the parser of xtask/src/release_workflow.rs refuses on one line rather than guess. */
module YamlRefusals {
  import opened Text
  import opened TextTheorems
  import opened Yaml

  // -------------------------------------------------------------------------------------------
  // Tabs
  // -------------------------------------------------------------------------------------------

  /** Something stands on the line, and the first thing that is no space is a tab. */
  ghost predicate TabFirst(text: string) {
    Trim(text) != "" && exists n: nat :: n < |text| && text[n] == '\t' && forall i :: 0 <= i < n ==> text[i] == ' '
  }

  lemma {:induction false} SpacesDropped(s: string) returns (n: nat)
    ensures n <= |s| && (forall i :: 0 <= i < n ==> s[i] == ' ') && TrimStartChar(s, ' ') == s[n..]
    ensures n < |s| ==> s[n] != ' '
  {
    n := 0;
    if s != "" && s[0] == ' ' {
      var m := SpacesDropped(s[1..]);
      n := m + 1;
    }
  }

  lemma {:induction false} ReturnsDropped(s: string) returns (n: nat)
    ensures n <= |s| && TrimEndChar(s, '\r') == s[..n] && forall i :: n <= i < |s| ==> s[i] == '\r'
    ensures n == 0 || s[n - 1] != '\r'
  {
    n := |s|;
    if s != "" && s[|s| - 1] == '\r' { n := ReturnsDropped(s[..|s| - 1]); }
  }

  /** Carriage returns at the end say nothing about whether something stands on a line. */
  lemma TrimWithout(s: string, n: nat)
    requires n <= |s| && forall i :: n <= i < |s| ==> s[i] == '\r'
    ensures Trim(s) == Trim(s[..n])
  {
    TrimIff(s[..n], Trim(s[..n]));
    StillSurrounded(s, n, Trim(s[..n]));
    TrimIff(s, Trim(s[..n]));
  }

  lemma StillSurrounded(s: string, n: nat, r: string)
    requires n <= |s| && (forall i :: n <= i < |s| ==> s[i] == '\r') && Surrounded(s[..n], r)
    ensures Surrounded(s, r)
  {
    var before, after :| AllWhite(before) && AllWhite(after) && s[..n] == before + (r + after);
    WhiteTail(after, s[n..]);
    assert s == before + (r + (after + s[n..]));
  }

  lemma WhiteTail(after: string, tail: string)
    requires AllWhite(after) && forall i :: 0 <= i < |tail| ==> tail[i] == '\r'
    ensures AllWhite(after + tail)
  {
  }

  lemma {:induction false} TabIs(raw: string)
    ensures "\t" <= raw || "\t" <= TrimStartChar(raw, ' ') <==>
            exists n: nat :: n < |raw| && raw[n] == '\t' && forall i :: 0 <= i < n ==> raw[i] == ' '
  {
    var m := SpacesDropped(raw);
    if "\t" <= raw {
      assert raw[0] == '\t';
    }
    if "\t" <= TrimStartChar(raw, ' ') {
      assert raw[m..][0] == raw[m];
    }
    if n: nat :| n < |raw| && raw[n] == '\t' && forall i :: 0 <= i < n ==> raw[i] == ' ' {
      assert n == m;
      assert raw[m..][0] == '\t';
    }
  }

  /** A line is refused exactly when it is indented with a tab; what else is on it does not matter. */
  lemma TabIff(text: string)
    ensures ReadLine(text).Err? <==> TabFirst(text)
    ensures ReadLine(text).Err? ==> ReadLine(text) == Err(TabIndentation)
  {
    var n := ReturnsDropped(text);
    TrimWithout(text, n);
    TabIs(text[..n]);
    if m: nat :| m < |text| && text[m] == '\t' && forall i :: 0 <= i < m ==> text[i] == ' ' {
      assert text[..n][m] == '\t';
    }
  }

  lemma {:induction false} TabsAre(texts: seq<string>)
    ensures ReadLines(texts).Ok? <==> forall i :: 0 <= i < |texts| ==> !TabFirst(texts[i])
    ensures ReadLines(texts).Err? ==> ReadLines(texts) == Err(TabIndentation)
  {
    if texts != [] {
      TabIff(texts[0]);
      TabsAre(texts[1..]);
      assert forall i :: 0 < i < |texts| ==> texts[i] == texts[1..][i - 1];
    }
  }

  /** A text with a line that a tab indents is refused for it, wherever the line is. */
  lemma {:induction false} TabIsRefused(text: string)
    ensures (exists i :: 0 <= i < |Lines(text)| && TabFirst(Lines(text)[i])) ==> ParseSpec(text) == Err(TabIndentation)
  {
    TabsAre(Lines(text));
  }

  // -------------------------------------------------------------------------------------------
  // Flow collections
  // -------------------------------------------------------------------------------------------

  /** Text between one pair of brackets, with no collection inside. */
  predicate IsFlow(t: string, inner: string) {
    t == "[" + (inner + "]") && '[' !in inner && '{' !in inner
  }

  /** A flow sequence is read exactly when its brackets close and hold no other collection; its items are the
      parts between commas that are not blank, trimmed and unquoted. */
  lemma FlowIff(text: string, node: Yaml)
    ensures FlowSeq(text) == Ok(node) <==>
            exists inner :: IsFlow(Trim(text), inner) && node == Seq(FlowItems(Split(inner, ',')))
  {
    var t := Trim(text);
    if FlowSeq(text).Ok? {
      var inner := t[1..|t| - 1];
      assert t == "[" + (inner + "]");
      assert IsFlow(t, inner);
    }
    if inner :| IsFlow(t, inner) && node == Seq(FlowItems(Split(inner, ','))) {
      assert t[1..|t| - 1] == inner && t[|t| - 1] == ']';
      assert t[1..] == inner + "]";
    }
  }

  lemma {:induction false} FlowItemsJoin(a: seq<string>, b: seq<string>)
    ensures FlowItems(a + b) == FlowItems(a) + FlowItems(b)
  {
    if a == [] {
      assert a + b == b;
    } else {
      FlowItemsJoin(a[1..], b);
      FlowFirst(a);
      FirstOfBoth(a, b);
      Together(FlowItem(a[0]), FlowItems(a[1..]), FlowItems(b));
    }
  }

  lemma {:induction false} FirstOfBoth(a: seq<string>, b: seq<string>)
    requires a != []
    ensures FlowItems(a + b) == FlowItem(a[0]) + FlowItems(a[1..] + b)
  {
    assert (a + b)[1..] == a[1..] + b;
    FlowFirst(a + b);
  }

  lemma Together(x: seq<Yaml>, y: seq<Yaml>, z: seq<Yaml>)
    ensures x + (y + z) == (x + y) + z
  {
  }

  /** One part. */
  function FlowItem(part: string): seq<Yaml> {
    if Trim(part) == "" then [] else [Scalar(Unquote(Trim(part)))]
  }

  lemma {:induction false} FlowFirst(parts: seq<string>)
    requires parts != []
    ensures FlowItems(parts) == FlowItem(parts[0]) + FlowItems(parts[1..])
  {
  }

  /** What may stand behind a key on its own line, a block's header aside: anything but a flow mapping and a
      flow sequence that does not close or holds another collection. */
  lemma {:induction false} OneLineIff(ls: seq<Line>, indent: nat, value: string)
    requires value != "" && BlockIndicator(value).None?
    ensures ValueSpec(ls, indent, value).Parsed? <==>
            value[0] != '{' && (value[0] == '[' ==> exists inner :: IsFlow(Trim(value), inner))
    ensures value[0] == '{' ==> ValueSpec(ls, indent, value) == Refused(FlowMapping)
    ensures ValueSpec(ls, indent, value).Parsed? ==> ValueSpec(ls, indent, value).rest == ls
  {
    if FlowSeq(value).Ok? {
      FlowIff(value, FlowSeq(value).value);
    }
    if inner :| IsFlow(Trim(value), inner) {
      FlowIff(value, Seq(FlowItems(Split(inner, ','))));
    }
  }
}
