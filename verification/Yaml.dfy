/**
  The block-style YAML subset of xtask/src/release_workflow.rs: what its parser accepts and which tree it
  returns, as functions on the lines still to be read. `YamlParser` holds the parser itself, with its cursor
  and loops, proved against these functions.
*/
module Yaml {
  import opened Text

  datatype Yaml =
    | Scalar(text: string)
    | Seq(items: seq<Yaml>)
    | Map(entries: seq<(string, Yaml)>)

  /** The parser's refusals. */
  datatype Error =
    | TabIndentation
    | TrailingContent
    | UnexpectedIndent
    | ItemInMapping
    | DuplicateKey
    | FlowMapping
    | UnexpectedItemIndent
    | NeitherScalarNorMapping
    | UnterminatedFlow
    | NestedFlow
    | EmptyKey
    | NotAnEntry

  /** One source line, kept raw. */
  datatype Line = Line(indent: nat, raw: string)

  predicate Ignorable(l: Line) {
    var t := Trim(l.raw);
    t == "" || t[0] == '#'
  }

  predicate IsItem(l: Line) {
    var t := TrimStart(l.raw);
    t == "-" || "- " <= t
  }

  // -------------------------------------------------------------------------------------------
  // Within one line
  // -------------------------------------------------------------------------------------------

  /** The quote that is open after reading `c`, given the one that was open before it. */
  function NextQuote(q: Option<char>, c: char): Option<char> {
    match q
    case Some(open) => if c == open then None else q
    case None => if c == '"' || c == '\'' then Some(c) else None
  }

  /** The quote that is open at the end of `s`. */
  function QuoteAfter(s: string): Option<char> {
    if s == "" then None else NextQuote(QuoteAfter(s[..|s| - 1]), s[|s| - 1])
  }

  /** Position `i` of `s` holds the colon of a `key: value`. */
  predicate Separates(s: string, i: nat)
    requires i < |s|
  {
    QuoteAfter(s[..i]) == None && s[i] == ':' && (i + 1 == |s| || s[i + 1] == ' ')
  }

  /** Position `i` of `s` begins a comment. */
  predicate Comments(s: string, i: nat)
    requires i < |s|
  {
    QuoteAfter(s[..i]) == None && s[i] == '#' && (i == 0 || s[i - 1] == ' ')
  }

  /** The length of the text before the first separating colon, scanning on with quote `q` open. */
  function KeyLength(s: string, q: Option<char>): (n: nat)
    ensures n <= |s|
  {
    if s == "" then 0
    else if q == None && s[0] == ':' && (|s| == 1 || s[1] == ' ') then 0
    else 1 + KeyLength(s[1..], NextQuote(q, s[0]))
  }

  /** The length of the text before the first comment. */
  function CodeLength(s: string, q: Option<char>, afterSpace: bool): (n: nat)
    ensures n <= |s|
  {
    if s == "" then 0
    else if q == None && s[0] == '#' && afterSpace then 0
    else 1 + CodeLength(s[1..], NextQuote(q, s[0]), s[0] == ' ')
  }

  function StripComment(content: string): string {
    var n := CodeLength(content, None, true);
    if n == |content| then content else TrimEnd(content[..n])
  }

  function Unquote(value: string): string {
    var t := Trim(value);
    if |t| >= 2 && t[0] == '"' && t[|t| - 1] == '"' then t[1..|t| - 1]
    else if |t| >= 2 && t[0] == '\'' && t[|t| - 1] == '\'' then t[1..|t| - 1]
    else t
  }

  function SplitKey(content: string): Result<(string, string), Error> {
    var n := KeyLength(content, None);
    if n == |content| then Err(NotAnEntry)
    else
      var key := Unquote(Trim(content[..n]));
      if key == "" then Err(EmptyKey) else Ok((key, Trim(content[n + 1..])))
  }

  /** `|` or `>` with at most one chomping and one indentation indicator; `Some(true)` is folded. */
  function BlockIndicator(text: string): Option<bool> {
    var rest := Trim(text);
    if rest == "" || (rest[0] != '>' && rest[0] != '|') then None
    else if IndicatorsOk(rest[1..], false, false) then Some(rest[0] == '>') else None
  }

  predicate IndicatorsOk(s: string, seenChomp: bool, seenIndent: bool) {
    s != "" ==>
      if (s[0] == '-' || s[0] == '+') && !seenChomp then IndicatorsOk(s[1..], true, seenIndent)
      else '1' <= s[0] <= '9' && !seenIndent && IndicatorsOk(s[1..], seenChomp, true)
  }

  /** The trimmed, non-empty, unquoted parts of a flow sequence. */
  function FlowItems(parts: seq<string>): seq<Yaml> {
    if parts == [] then []
    else
      var item := Trim(parts[0]);
      (if item == "" then [] else [Scalar(Unquote(item))]) + FlowItems(parts[1..])
  }

  function FlowSeq(text: string): Result<Yaml, Error> {
    var t := Trim(text);
    if t == "" || t[0] != '[' || t[1..] == "" || t[|t| - 1] != ']' then Err(UnterminatedFlow)
    else
      var inner := t[1..|t| - 1];
      if '[' in inner || '{' in inner then Err(NestedFlow)
      else Ok(Seq(FlowItems(Split(inner, ','))))
  }

  // -------------------------------------------------------------------------------------------
  // Across lines
  // -------------------------------------------------------------------------------------------

  /** A node and the lines that follow it. */
  datatype Parsed = Parsed(node: Yaml, rest: seq<Line>) | Refused(error: Error)

  datatype ParsedEntry = Entry(key: string, node: Yaml, rest: seq<Line>) | BadEntry(error: Error)

  function SkipIgnorable(ls: seq<Line>): (r: seq<Line>)
    ensures |r| <= |ls|
    ensures r != [] ==> !Ignorable(r[0])
  {
    if ls != [] && Ignorable(ls[0]) then SkipIgnorable(ls[1..]) else ls
  }

  /** The text of one block-scalar line once the block's indentation is taken off. */
  function Dedent(l: Line, base: nat): string {
    if |l.raw| >= base then l.raw[base..] else TrimStart(l.raw)
  }

  /** The lines of a block scalar under a key at `indent`, and the lines after it. `base` is the
      block's own indentation once its first line with text has been read. */
  function BlockLines(ls: seq<Line>, indent: nat, base: Option<nat>): (r: (seq<string>, seq<Line>))
    ensures |r.1| <= |ls|
  {
    if ls == [] then ([], [])
    else if Trim(ls[0].raw) == "" then
      var (lines, rest) := BlockLines(ls[1..], indent, base);
      ([""] + lines, rest)
    else if ls[0].indent <= indent then ([], ls)
    else
      var b := if base.Some? then base.value else ls[0].indent;
      var (lines, rest) := BlockLines(ls[1..], indent, Some(b));
      ([Dedent(ls[0], b)] + lines, rest)
  }

  function DropBlank(lines: seq<string>): (r: seq<string>)
    ensures r <= lines
  {
    if lines != [] && lines[|lines| - 1] == "" then DropBlank(lines[..|lines| - 1]) else lines
  }

  function BlockText(fold: bool, lines: seq<string>): string {
    Join(DropBlank(lines), if fold then " " else "\n")
  }

  /** How many of the lines after a dash line belong to its item, whose content is at `column`. */
  function ItemExtent(ls: seq<Line>, column: nat): (n: nat)
    ensures n <= |ls|
  {
    if ls != [] && (Ignorable(ls[0]) || ls[0].indent >= column) then 1 + ItemExtent(ls[1..], column) else 0
  }

  function DropIgnorable(ls: seq<Line>): (r: seq<Line>)
    ensures |r| <= |ls|
  {
    if ls != [] && Ignorable(ls[|ls| - 1]) then DropIgnorable(ls[..|ls| - 1]) else ls
  }

  predicate HasKey(entries: seq<(string, Yaml)>, key: string) {
    exists i :: 0 <= i < |entries| && entries[i].0 == key
  }

  function NodeSpec(ls: seq<Line>, indent: nat): (p: Parsed)
    ensures p.Parsed? ==> |p.rest| <= |ls|
    decreases |ls|, 4
  {
    var next := SkipIgnorable(ls);
    if next == [] then Parsed(Scalar(""), next)
    else if IsItem(next[0]) then SeqSpec(next, indent, [])
    else MapSpec(next, indent, [])
  }

  /** The rest of a mapping at `indent` whose entries so far are `entries`. */
  function MapSpec(ls: seq<Line>, indent: nat, entries: seq<(string, Yaml)>): (p: Parsed)
    ensures p.Parsed? ==> |p.rest| <= |ls|
    decreases |ls|, 1
  {
    var next := SkipIgnorable(ls);
    if next == [] || next[0].indent < indent then Parsed(Map(entries), next)
    else if next[0].indent > indent then Refused(UnexpectedIndent)
    else if IsItem(next[0]) then Refused(ItemInMapping)
    else
      match EntrySpec(next, indent, entries)
      case BadEntry(e) => Refused(e)
      case Entry(key, node, rest) => MapSpec(rest, indent, entries + [(key, node)])
  }

  /** The `key: value` on a line. */
  function KeyAndValue(l: Line): Result<(string, string), Error> {
    SplitKey(StripComment(Trim(l.raw)))
  }

  /** The entry whose key line is the first of `ls`, after `entries`. */
  function EntrySpec(ls: seq<Line>, indent: nat, entries: seq<(string, Yaml)>): (p: ParsedEntry)
    requires ls != []
    ensures p.Entry? ==> |p.rest| < |ls|
    decreases |ls|, 0
  {
    match KeyAndValue(ls[0])
    case Err(e) => BadEntry(e)
    case Ok((key, value)) =>
      if HasKey(entries, key) then BadEntry(DuplicateKey)
      else
        match ValueSpec(ls[1..], indent, value)
        case Refused(e) => BadEntry(e)
        case Parsed(node, rest) => Entry(key, node, rest)
  }

  /** The value of a key at `indent` whose own line carries `value`; `ls` are the lines after it. */
  function ValueSpec(ls: seq<Line>, indent: nat, value: string): (p: Parsed)
    ensures p.Parsed? ==> |p.rest| <= |ls|
    decreases |ls|, 6
  {
    var block := BlockIndicator(value);
    if block.Some? then
      var (lines, rest) := BlockLines(ls, indent, None);
      Parsed(Scalar(BlockText(block.value, lines)), rest)
    else if value == "" then ChildSpec(ls, indent)
    else if value[0] == '[' then
      match FlowSeq(value)
      case Ok(node) => Parsed(node, ls)
      case Err(e) => Refused(e)
    else if value[0] == '{' then Refused(FlowMapping)
    else Parsed(Scalar(Unquote(value)), ls)
  }

  /** A value on the lines below its key: a deeper block, a sequence at the key's own indentation, or
      nothing. */
  function ChildSpec(ls: seq<Line>, indent: nat): (p: Parsed)
    ensures p.Parsed? ==> |p.rest| <= |ls|
    decreases |ls|, 5
  {
    var next := SkipIgnorable(ls);
    if next == [] then Parsed(Scalar(""), ls)
    else if next[0].indent > indent then NodeSpec(next, next[0].indent)
    else if next[0].indent == indent && IsItem(next[0]) then SeqSpec(next, indent, [])
    else Parsed(Scalar(""), ls)
  }

  /** The rest of a sequence at `indent` whose items so far are `items`. */
  function SeqSpec(ls: seq<Line>, indent: nat, items: seq<Yaml>): (p: Parsed)
    ensures p.Parsed? ==> |p.rest| <= |ls|
    decreases |ls|, 3
  {
    var next := SkipIgnorable(ls);
    if next == [] || next[0].indent < indent || !IsItem(next[0]) then Parsed(Seq(items), next)
    else if next[0].indent > indent then Refused(UnexpectedItemIndent)
    else
      match ItemSpec(next, indent)
      case Refused(e) => Refused(e)
      case Parsed(node, rest) => SeqSpec(rest, indent, items + [node])
  }

  /** What follows the dash of an item line, and the column it starts at. */
  function AfterDash(l: Line): string {
    TrimStart(if l.indent + 1 <= |l.raw| then l.raw[l.indent + 1..] else "")
  }

  function ItemColumn(l: Line): nat {
    |l.raw| - |AfterDash(l)|
  }

  /** The item whose dash line is the first of `ls`. */
  function ItemSpec(ls: seq<Line>, indent: nat): (p: Parsed)
    requires ls != []
    ensures p.Parsed? ==> |p.rest| < |ls|
    decreases |ls|, 2
  {
    var content := AfterDash(ls[0]);
    if content == "" then ChildSpec(ls[1..], indent)
    else
      var column := ItemColumn(ls[0]);
      var item := ItemLines(ls);
      if SplitKey(StripComment(content)).Ok? then
        ItemKeepsDashLine(ls);
        match MapSpec(item, column, [])
        case Refused(e) => Refused(e)
        case Parsed(node, _) => Parsed(node, ls[|item|..])
      else if |item| == 1 then Parsed(Scalar(Unquote(StripComment(content))), ls[1..])
      else Refused(NeitherScalarNorMapping)
  }

  /** The item's own line list: the dash line re-projected so that its content sits at the content
      column, then the lines that belong to it, without the ignorable ones at the end. */
  function ItemLines(ls: seq<Line>): (r: seq<Line>)
    requires ls != []
    ensures |r| <= |ls|
  {
    var column := ItemColumn(ls[0]);
    var first := Line(column, Spaces(column) + AfterDash(ls[0]));
    DropIgnorable([first] + ls[1..][..ItemExtent(ls[1..], column)])
  }

  /** Dropping the ignorable lines at the end of an item leaves a dash line that carries a key. */
  lemma ItemKeepsDashLine(ls: seq<Line>)
    requires ls != [] && SplitKey(StripComment(AfterDash(ls[0]))).Ok?
    ensures ItemLines(ls) != [] && !Ignorable(ItemLines(ls)[0])
  {
    var content, column := AfterDash(ls[0]), ItemColumn(ls[0]);
    assert content != "" && content[0] != '#';
    TrimStartPad(column, content);
    TrimStartId(content);
    TrimEndKeepsHead(content);
    DropIgnorableKeepsHead([Line(column, Spaces(column) + content)] + ls[1..][..ItemExtent(ls[1..], column)]);
  }

  lemma {:induction false} TrimEndKeepsHead(s: string)
    requires s != "" && !IsWhite(s[0])
    ensures TrimEnd(s) != "" && TrimEnd(s)[0] == s[0]
  {
    if IsWhite(s[|s| - 1]) {
      TrimEndKeepsHead(s[..|s| - 1]);
    }
  }

  lemma {:induction false} DropIgnorableKeepsHead(ls: seq<Line>)
    requires ls != [] && !Ignorable(ls[0])
    ensures DropIgnorable(ls) != [] && DropIgnorable(ls)[0] == ls[0]
  {
    if |ls| > 1 && Ignorable(ls[|ls| - 1]) {
      DropIgnorableKeepsHead(ls[..|ls| - 1]);
    }
  }

  /** The source lines with their indentation, or the tab that makes one unreadable. */
  function ReadLine(text: string): Result<Line, Error> {
    var raw := TrimEndChar(text, '\r');
    if Trim(raw) == "" then Ok(Line(0, raw))
    else if "\t" <= raw || "\t" <= TrimStartChar(raw, ' ') then Err(TabIndentation)
    else Ok(Line(|raw| - |TrimStart(raw)|, raw))
  }

  function ReadLines(texts: seq<string>): (r: Result<seq<Line>, Error>)
    ensures r.Ok? ==> |r.value| == |texts|
  {
    if texts == [] then Ok([])
    else
      match ReadLine(texts[0])
      case Err(e) => Err(e)
      case Ok(line) =>
        match ReadLines(texts[1..])
        case Err(e) => Err(e)
        case Ok(lines) => Ok([line] + lines)
  }

  /** The lines after an optional `---` marker at the head of the document. */
  function AfterMarker(ls: seq<Line>): (r: seq<Line>)
    ensures |r| <= |ls|
  {
    var next := SkipIgnorable(ls);
    if next != [] && Trim(next[0].raw) == "---" then next[1..] else next
  }

  function ParseSpec(text: string): Result<Yaml, Error> {
    match ReadLines(Lines(text))
    case Err(e) => Err(e)
    case Ok(ls) =>
      match NodeSpec(AfterMarker(ls), 0)
      case Refused(e) => Err(e)
      case Parsed(node, rest) => if SkipIgnorable(rest) == [] then Ok(node) else Err(TrailingContent)
  }
}
