/**
  Documents of the YAML subset with their layout choices made: bare, quoted, literal, folded, flow, nested
  and flush. How each is written, which tree it stands for, which tree the parser reads in its place, and
  when the two are not the same.
*/
module YamlPrint {
  import opened Text
  import opened Yaml

  /** A scalar written on one line, bare or quoted. */
  datatype Word = Plain(text: string) | Quoted(quote: char, text: string)

  datatype Doc =
    | Inline(word: Word)
    | Absent                                       // a key with nothing after its colon
    | Block(header: string, lines: seq<string>)    // `|` or `>` and the indented lines under it
    | Flow(words: seq<Word>)
    | Mapping(fields: seq<Field>)
    | Sequence(flush: bool, items: seq<Doc>)       // `flush` puts the dashes at the key's own column

  datatype Field = Field(key: Word, value: Doc)

  // -------------------------------------------------------------------------------------------
  // Which documents can be written
  // -------------------------------------------------------------------------------------------

  /** A word that fits on one line: nothing in it is cut off as a comment, and unquoting it gives its text. */
  predicate WordOk(w: Word) {
    var s := WordText(w);
    && (w.Quoted? ==> w.quote == '"' || w.quote == '\'')
    && s != "" && !IsWhite(s[0]) && !IsWhite(s[|s| - 1]) && '\n' !in s
    && CodeLength(s, None, true) == |s| && Unquote(s) == w.text
  }

  /** The colon put behind a key is the first that separates. */
  predicate KeyOk(w: Word) {
    WordOk(w) && w.text != "" && !("- " <= WordText(w)) && KeyLength(WordText(w) + ":", None) == |WordText(w)|
  }

  predicate ItemWordOk(w: Word) {
    WordOk(w) && SplitKey(WordText(w)).Err?
  }

  predicate ValueWordOk(w: Word) {
    WordOk(w) && WordText(w)[0] != '[' && WordText(w)[0] != '{' && BlockIndicator(WordText(w)).None?
  }

  /** No quote stays open behind a word of a flow sequence. */
  predicate FlowWordOk(w: Word) {
    WordOk(w) && ',' !in WordText(w) && '[' !in WordText(w) && '{' !in WordText(w) && QuoteAfter(WordText(w)) == None
  }

  predicate BlockLineOk(l: string) {
    && '\n' !in l
    && (l != "" ==> Trim(l) != "" && l[|l| - 1] != '\r' && !("\t" <= TrimStartChar(l, ' ')))
  }

  /** The first line with text sets the block's indentation. */
  predicate StartsFlush(lines: seq<string>) {
    lines != [] ==> if lines[0] == "" then StartsFlush(lines[1..]) else !IsWhite(lines[0][0])
  }

  predicate IsChomp(c: char) { c == '-' || c == '+' }

  predicate IsIndentation(c: char) { '1' <= c <= '9' }

  /** `|` or `>`, then at most one chomping and at most one indentation indicator, in either order. */
  predicate HeaderOk(header: string) {
    && 1 <= |header| <= 3 && (header[0] == '|' || header[0] == '>')
    && (|header| == 2 ==> IsChomp(header[1]) || IsIndentation(header[1]))
    && (|header| == 3 ==>
          || (IsChomp(header[1]) && IsIndentation(header[2]))
          || (IsIndentation(header[1]) && IsChomp(header[2])))
  }

  predicate BlockOk(header: string, lines: seq<string>) {
    && HeaderOk(header)
    && (forall i :: 0 <= i < |lines| ==> BlockLineOk(lines[i]))
    && StartsFlush(lines)
    && (lines != [] ==> lines[|lines| - 1] != "")
  }

  predicate DistinctKeys(fields: seq<Field>) {
    forall i, j :: 0 <= i < j < |fields| ==> fields[i].key.text != fields[j].key.text
  }

  predicate WfFields(fields: seq<Field>) {
    && DistinctKeys(fields)
    && forall i :: 0 <= i < |fields| ==> WfField(fields[i])
  }

  predicate WfField(f: Field) {
    KeyOk(f.key) && WfValue(f.value)
  }

  predicate WfValue(d: Doc) {
    match d
    case Inline(w) => ValueWordOk(w)
    case Absent => true
    case Block(header, lines) => BlockOk(header, lines)
    case Flow(words) => forall i :: 0 <= i < |words| ==> FlowWordOk(words[i])
    case Mapping(fields) => fields != [] && WfFields(fields)
    case Sequence(_, items) => items != [] && WfItems(items)
  }

  predicate WfItems(items: seq<Doc>) {
    forall i :: 0 <= i < |items| ==> WfItem(items[i])
  }

  predicate WfItem(d: Doc) {
    match d
    case Inline(w) => ItemWordOk(w)
    case Mapping(fields) => fields != [] && WfFields(fields)
    case Sequence(flush, items) => !flush && items != [] && WfItems(items)
    case _ => false
  }

  predicate WfDocument(d: Doc) {
    (d.Mapping? || d.Sequence?) && WfValue(d)
  }

  // -------------------------------------------------------------------------------------------
  // Writing them
  // -------------------------------------------------------------------------------------------

  function WordText(w: Word): string {
    match w
    case Plain(text) => text
    case Quoted(quote, text) => [quote] + text + [quote]
  }

  function FlowText(words: seq<Word>): string {
    "[" + FlowInner(words) + "]"
  }

  function FlowInner(words: seq<Word>): string {
    if words == [] then ""
    else if |words| == 1 then WordText(words[0])
    else WordText(words[0]) + ", " + FlowInner(words[1..])
  }

  /** What a value puts on its key's line, after the colon. */
  function ValueText(d: Doc): string {
    match d
    case Inline(w) => WordText(w)
    case Block(header, _) => header
    case Flow(words) => FlowText(words)
    case _ => ""
  }

  function KeyLine(f: Field): string {
    var v := ValueText(f.value);
    WordText(f.key) + ":" + if v == "" then "" else " " + v
  }

  function LineAt(indent: nat, content: string): Line {
    Line(indent, Spaces(indent) + content)
  }

  function BlockLine(indent: nat, l: string): Line {
    if l == "" then Line(0, "") else Line(indent + |l| - |TrimStart(l)|, Spaces(indent) + l)
  }

  function PrintBlock(lines: seq<string>, indent: nat): seq<Line> {
    if lines == [] then [] else [BlockLine(indent, lines[0])] + PrintBlock(lines[1..], indent)
  }

  function PrintFields(fields: seq<Field>, indent: nat): seq<Line>
    decreases fields, 1
  {
    if fields == [] then [] else [LineAt(indent, KeyLine(fields[0]))] + PrintAfter(fields, indent)
  }

  /** Everything after the first key's line. */
  function PrintAfter(fields: seq<Field>, indent: nat): seq<Line>
    requires fields != []
    decreases fields, 0
  {
    PrintUnder(fields[0], indent) + PrintFields(fields[1..], indent)
  }

  function PrintUnder(f: Field, indent: nat): seq<Line> {
    PrintBelow(f.value, indent)
  }

  /** The lines of a value under its key at `indent`. */
  function PrintBelow(d: Doc, indent: nat): seq<Line> {
    match d
    case Block(_, lines) => PrintBlock(lines, indent + 2)
    case Mapping(fields) => PrintFields(fields, indent + 2)
    case Sequence(flush, items) => PrintItems(items, if flush then indent else indent + 2)
    case _ => []
  }

  function PrintItems(items: seq<Doc>, indent: nat): seq<Line> {
    if items == [] then [] else PrintItem(items[0], indent) + PrintItems(items[1..], indent)
  }

  function PrintItem(d: Doc, indent: nat): seq<Line> {
    match d
    case Inline(w) => [LineAt(indent, "- " + WordText(w))]
    case Mapping(fields) =>
      if fields == [] then [] else [LineAt(indent, "- " + KeyLine(fields[0]))] + PrintAfter(fields, indent + 2)
    case Sequence(_, items) => [LineAt(indent, "-")] + PrintItems(items, indent + 2)
    case _ => []
  }

  function PrintDocument(d: Doc): seq<Line> {
    match d
    case Mapping(fields) => PrintFields(fields, 0)
    case Sequence(_, items) => PrintItems(items, 0)
    case _ => []
  }

  function RawLines(ls: seq<Line>): seq<string> {
    if ls == [] then [] else [ls[0].raw] + RawLines(ls[1..])
  }

  function Print(d: Doc): string {
    Unlines(RawLines(PrintDocument(d)))
  }

  // -------------------------------------------------------------------------------------------
  // What they stand for
  // -------------------------------------------------------------------------------------------

  function WordItems(words: seq<Word>): seq<Yaml> {
    if words == [] then [] else [Scalar(words[0].text)] + WordItems(words[1..])
  }

  /** A `>` block is folded: its lines are joined by spaces. */
  function Separator(header: string): string {
    if header != "" && header[0] == '>' then " " else "\n"
  }

  /** The tree a document stands for. */
  function Denote(d: Doc): Yaml {
    match d
    case Inline(w) => Scalar(w.text)
    case Absent => Scalar("")
    case Block(header, lines) => Scalar(Join(lines, Separator(header)))
    case Flow(words) => Seq(WordItems(words))
    case Mapping(fields) => Map(DenoteFields(fields))
    case Sequence(_, items) => Seq(DenoteItems(items))
  }

  function DenoteFields(fields: seq<Field>): seq<(string, Yaml)> {
    if fields == [] then [] else [DenoteField(fields[0])] + DenoteFields(fields[1..])
  }

  function DenoteField(f: Field): (string, Yaml) {
    (f.key.text, Denote(f.value))
  }

  function DenoteItems(items: seq<Doc>): seq<Yaml> {
    if items == [] then [] else [Denote(items[0])] + DenoteItems(items[1..])
  }

  /** A block line that reads as a comment or as blank when it is looked at as a line of the document. */
  predicate LooksIgnorable(l: string) {
    Trim(l) == "" || Trim(l)[0] == '#'
  }

  function DropComments(lines: seq<string>): (r: seq<string>)
    ensures |r| <= |lines|
  {
    if lines != [] && LooksIgnorable(lines[|lines| - 1]) then DropComments(lines[..|lines| - 1]) else lines
  }

  /** The tree the parser makes of a document. `tail` says that the document's last line is the last
      line of a sequence item: a block scalar there is read without the comment-like lines at its end. */
  function Read(d: Doc, tail: bool): Yaml {
    match d
    case Inline(w) => Scalar(w.text)
    case Absent => Scalar("")
    case Block(header, lines) => Scalar(Join(if tail then DropComments(lines) else lines, Separator(header)))
    case Flow(words) => Seq(WordItems(words))
    case Mapping(fields) => Map(ReadFields(fields, tail))
    case Sequence(_, items) => Seq(ReadItems(items))
  }

  function ReadFields(fields: seq<Field>, tail: bool): seq<(string, Yaml)> {
    if fields == [] then [] else [ReadField(fields[0], tail && |fields| == 1)] + ReadFields(fields[1..], tail)
  }

  function ReadField(f: Field, tail: bool): (string, Yaml) {
    (f.key.text, Read(f.value, tail))
  }

  function ReadItems(items: seq<Doc>): seq<Yaml> {
    if items == [] then [] else [Read(items[0], true)] + ReadItems(items[1..])
  }

  /** The document's last lines are those of a block scalar that ends in a comment-like line. */
  predicate EndsInComment(d: Doc) {
    match d
    case Block(_, lines) => lines != [] && LooksIgnorable(lines[|lines| - 1])
    case Mapping(fields) => fields != [] && FieldEndsInComment(fields[|fields| - 1])
    case _ => false
  }

  predicate FieldEndsInComment(f: Field) {
    EndsInComment(f.value)
  }

  /** Some sequence item in the document ends in such a block scalar. */
  predicate LosesLines(d: Doc) {
    match d
    case Mapping(fields) => exists i :: 0 <= i < |fields| && FieldLosesLines(fields[i])
    case Sequence(_, items) => exists i :: 0 <= i < |items| && (EndsInComment(items[i]) || LosesLines(items[i]))
    case _ => false
  }

  predicate FieldLosesLines(f: Field) {
    LosesLines(f.value)
  }
}
