/** Reading an `ErrorCode::new(...)` call in xtask/src/error_catalogue.rs: the string-aware, depth-aware
    argument splitter and the placeholder check. */
module ErrorCatalogue {
  import opened Text

  const TOKEN := "ErrorCode::new("
  const LOOKAHEAD: nat := 40

  predicate StartsAt(s: string, needle: string, i: nat) { i <= |s| && needle <= s[i..] }

  /** `str::find`: the first place from `i` on, if there is one. */
  function FindFrom(s: string, needle: string, i: nat): (r: Option<nat>)
    requires i <= |s|
    ensures r.Some? ==> i <= r.value && r.value + |needle| <= |s|
    ensures r.Some? ==> StartsAt(s, needle, r.value) && forall j :: i <= j < r.value ==> !StartsAt(s, needle, j)
    ensures r.None? ==> forall j :: i <= j <= |s| ==> !StartsAt(s, needle, j)
    decreases |s| - i
  {
    if needle <= s[i..] then Some(i) else if i == |s| then None else FindFrom(s, needle, i + 1)
  }

  // -------------------------------------------------------------------------------------------
  // The splitter
  // -------------------------------------------------------------------------------------------

  /** Where the splitter is: the arguments so far, the one being read, the bracket depth, the literal. */
  datatype Scan =
    | Reading(args: seq<string>, current: string, depth: nat, inString: bool, escaped: bool)
    | Closed(args: seq<string>)

  function Step(s: Scan, c: char): (r: Scan)
    ensures s.Reading? && s.depth > 0 && r.Reading? ==> r.depth > 0
    ensures s.Closed? ==> r == s
  {
    match s
    case Closed(_) => s
    case Reading(args, current, depth, inString, escaped) =>
      if inString then
        if escaped then Reading(args, current + [c], depth, true, false)
        else if c == '\\' then Reading(args, current + [c], depth, true, true)
        else Reading(args, current + [c], depth, c != '"', false)
      else if c == '"' then Reading(args, current + [c], depth, true, escaped)
      else if Opens(c) then Reading(args, current + [c], depth + 1, false, escaped)
      else if Closes(c) then
        if depth <= 1 then Closed(args + [Trim(current)]) else Reading(args, current + [c], depth - 1, false, escaped)
      else if c == ',' && depth == 1 then Reading(args + [Trim(current)], "", depth, false, escaped)
      else Reading(args, current + [c], depth, false, escaped)
  }

  predicate Opens(c: char) { c == '(' || c == '[' || c == '{' }

  predicate Closes(c: char) { c == ')' || c == ']' || c == '}' }

  function Feed(s: Scan, text: string): (r: Scan)
    ensures s.Reading? && s.depth > 0 && r.Reading? ==> r.depth > 0
    ensures s.Closed? ==> r == s
    decreases |text|
  {
    if text == "" then s else Feed(Step(s, text[0]), text[1..])
  }

  /** The text the splitter sees of line `k`, counted from the line the call opens on. */
  function LineText(lines: seq<string>, open: nat, start: nat, k: nat): string
    requires open + k < |lines| && start <= |lines[open]|
  {
    if k == 0 then lines[open][start..] else TrimStart(lines[open + k])
  }

  /** How many lines are looked at. */
  function Window(lines: seq<string>, open: nat): (n: nat)
    requires open < |lines|
    ensures open + n <= |lines| && n <= 40
    ensures n < 40 ==> open + n == |lines|
  {
    if |lines| - open < LOOKAHEAD then |lines| - open else LOOKAHEAD
  }

  function FeedLines(s: Scan, lines: seq<string>, open: nat, start: nat, k: nat): Scan
    requires open < |lines| && start <= |lines[open]| && k <= Window(lines, open)
  {
    if k == 0 then s
    else Feed(FeedLines(s, lines, open, start, k - 1), LineText(lines, open, start, k - 1))
  }

  function NonEmpty(args: seq<string>): seq<string> {
    if args == [] then []
    else NonEmpty(args[..|args| - 1]) + if args[|args| - 1] == "" then [] else [args[|args| - 1]]
  }

  /** The arguments that are not empty, in order. */
  lemma {:induction false} NonEmptyJoins(a: seq<string>, b: seq<string>)
    ensures NonEmpty(a + b) == NonEmpty(a) + NonEmpty(b)
    ensures |a| == 1 ==> NonEmpty(a) == if a[0] == "" then [] else a
  {
    if b == [] {
      assert a + b == a;
    } else {
      assert (a + b)[..|a + b| - 1] == a + b[..|b| - 1];
      NonEmptyJoins(a, b[..|b| - 1]);
    }
  }

  const START := Reading([], "", 1, false, false)

  function CallArguments(lines: seq<string>, open: nat): Option<seq<string>>
    requires open < |lines|
  {
    match FindFrom(lines[open], TOKEN, 0)
    case None => None
    case Some(at) => ArgumentsFrom(lines, open, at + |TOKEN|)
  }

  /** The arguments of the call whose bracket opens before column `start`. */
  function ArgumentsFrom(lines: seq<string>, open: nat, start: nat): Option<seq<string>>
    requires open < |lines| && start <= |lines[open]|
  {
    match FeedLines(START, lines, open, start, Window(lines, open))
    case Closed(args) => Some(NonEmpty(args))
    case _ => None
  }

  lemma {:induction false} FeedLinesClosed(s: Scan, lines: seq<string>, open: nat, start: nat, k: nat, n: nat)
    requires open < |lines| && start <= |lines[open]| && k <= n <= Window(lines, open)
    requires FeedLines(s, lines, open, start, k).Closed?
    ensures FeedLines(s, lines, open, start, n) == FeedLines(s, lines, open, start, k)
    decreases n
  {
    if k < n {
      FeedLinesClosed(s, lines, open, start, k, n - 1);
      ClosedStays(FeedLines(s, lines, open, start, n - 1), LineText(lines, open, start, n - 1));
    }
  }

  lemma {:induction false} ClosedStays(s: Scan, text: string)
    requires s.Closed?
    ensures Feed(s, text) == s
  {
  }

  lemma {:induction false} FeedAppend(s: Scan, a: string, b: string)
    ensures Feed(s, a + b) == Feed(Feed(s, a), b)
    decreases |a|
  {
    if a == "" {
      assert a + b == b;
    } else {
      assert (a + b)[1..] == a[1..] + b;
      FeedAppend(Step(s, a[0]), a[1..], b);
    }
  }

  /** The loop over the characters of one line. */
  method SplitLine(body: string, from: Scan) returns (s: Scan)
    requires from.Reading? && from.depth > 0
    ensures s == Feed(from, body)
  {
    var args, current, depth, inString, escaped := from.args, from.current, from.depth, from.inString, from.escaped;
    for i := 0 to |body|
      invariant depth > 0
      invariant Feed(Reading(args, current, depth, inString, escaped), body[i..]) == Feed(from, body)
    {
      var c := body[i];
      assert body[i..][1..] == body[i + 1..];
      if inString {
        if escaped {
          escaped := false;
        } else if c == '\\' {
          escaped := true;
        } else if c == '"' {
          inString := false;
        }
        current := current + [c];
      } else if c == '"' {
        inString := true;
        current := current + [c];
      } else if Opens(c) {
        depth := depth + 1;
        current := current + [c];
      } else if Closes(c) {
        depth := depth - 1;
        if depth == 0 {
          args := args + [Trim(current)];
          return Closed(args);
        }
        current := current + [c];
      } else if c == ',' && depth == 1 {
        args := args + [Trim(current)];
        current := "";
      } else {
        current := current + [c];
      }
    }
    s := Reading(args, current, depth, inString, escaped);
  }

  method ReadCallArguments(lines: seq<string>, open: nat) returns (r: Option<seq<string>>)
    requires open < |lines|
    ensures r == CallArguments(lines, open)
  {
    var at := FindFrom(lines[open], TOKEN, 0);
    if at.None? {
      return None;
    }
    r := ReadArgumentsFrom(lines, open, at.value + |TOKEN|);
  }

  lemma {:induction false} ClosedEarly(lines: seq<string>, open: nat, start: nat, k: nat)
    requires open < |lines| && start <= |lines[open]| && k <= Window(lines, open)
    requires FeedLines(START, lines, open, start, k).Closed?
    ensures ArgumentsFrom(lines, open, start) == Some(NonEmpty(FeedLines(START, lines, open, start, k).args))
  {
    FeedLinesClosed(START, lines, open, start, k, Window(lines, open));
  }

  lemma OneMoreLine(lines: seq<string>, open: nat, start: nat, k: nat)
    requires open < |lines| && start <= |lines[open]| && k < Window(lines, open)
    ensures FeedLines(START, lines, open, start, k + 1)
            == Feed(FeedLines(START, lines, open, start, k), LineText(lines, open, start, k))
  {
  }

  /** The loop over the lines. */
  method ReadArgumentsFrom(lines: seq<string>, open: nat, start: nat) returns (r: Option<seq<string>>)
    requires open < |lines| && start <= |lines[open]|
    ensures r == ArgumentsFrom(lines, open, start)
  {
    var s := START;
    for k := 0 to Window(lines, open)
      invariant s.Reading? && s.depth > 0 && s == FeedLines(START, lines, open, start, k)
    {
      OneMoreLine(lines, open, start, k);
      s := SplitLine(LineText(lines, open, start, k), s);
      if s.Closed? {
        ClosedEarly(lines, open, start, k + 1);
        return Some(NonEmpty(s.args));
      }
    }
    return None;
  }

  // -------------------------------------------------------------------------------------------
  // Calls as they are written
  // -------------------------------------------------------------------------------------------

  /** A character of a string literal, written as itself or after a backslash; `Escaped('\n')` is the
      backslash that continues the literal on the next line. */
  datatype StrChar = Raw(c: char) | Escaped(c: char)

  /** A piece of an argument: a plain character, a string literal, a bracketed group. */
  datatype Piece = Plain(c: char) | Literal(chars: seq<StrChar>) | Group(open: char, inner: seq<Piece>, close: char)

  /** The source text of the first `n` lines from where the arguments start, line ends included. */
  function CallSource(lines: seq<string>, open: nat, start: nat, n: nat): string
    requires open + n <= |lines| && open < |lines| && start <= |lines[open]|
  {
    if n == 0 then ""
    else CallSource(lines, open, start, n - 1) + (RawLine(lines, open, start, n - 1) + "\n")
  }

  function RawLine(lines: seq<string>, open: nat, start: nat, k: nat): string
    requires open + k < |lines| && start <= |lines[open]|
  {
    if k == 0 then lines[open][start..] else lines[open + k]
  }

  /** What the splitter sees of source text: no line ends, no white space at the start of a line. */
  function Seen(t: string, atStart: bool): string {
    if t == "" then ""
    else if Unseen(t[0], atStart) then Seen(t[1..], true)
    else [t[0]] + Seen(t[1..], false)
  }

  predicate Unseen(c: char, atStart: bool) { c == '\n' || (atStart && IsWhite(c)) }

  /** Whether the text after `t` is still at the start of its line. */
  function StartAfter(t: string, atStart: bool): bool {
    if t == "" then atStart else StartAfter(t[1..], Unseen(t[0], atStart))
  }

  predicate CharOk(ch: StrChar) {
    ch.Raw? ==> ch.c != '"' && ch.c != '\\'
  }

  /** Whether the backslash of a line end is still waiting for the character it escapes after `ch`. */
  function Carry(ch: StrChar, waiting: bool, atStart: bool): bool {
    match ch
    case Raw(c) => waiting && Unseen(c, atStart)
    case Escaped(c) => if c == '\n' then !waiting else waiting && c == '\\'
  }

  /** The splitter takes the first character it sees after a line end's backslash for an escaped one. The
      literal survives that as long as it is neither the closing quote nor the backslash of a `\"`. */
  predicate Joins(chars: seq<StrChar>, waiting: bool, atStart: bool) {
    if chars == [] then !waiting
    else
      && !(waiting && chars[0] == Escaped('"'))
      && Joins(chars[1..], Carry(chars[0], waiting, atStart), StartAfter(CharText(chars[0]), atStart))
  }

  predicate LiteralOk(chars: seq<StrChar>) {
    forall i :: 0 <= i < |chars| ==> CharOk(chars[i])
  }

  /** Brackets balance; a comma outside a literal stands only inside brackets; literals join. */
  predicate PieceOk(p: Piece, top: bool) {
    match p
    case Plain(c) => c != '"' && !Opens(c) && !Closes(c) && (top ==> c != ',')
    case Literal(chars) => LiteralOk(chars) && Joins(chars, false, false)
    case Group(open, inner, close) => Opens(open) && Closes(close) && PiecesOk(inner, false)
  }

  predicate PiecesOk(ps: seq<Piece>, top: bool) {
    forall i :: 0 <= i < |ps| ==> PieceOk(ps[i], top)
  }

  function CharText(ch: StrChar): string {
    match ch
    case Raw(c) => [c]
    case Escaped(c) => ['\\'] + [c]
  }

  function LiteralText(chars: seq<StrChar>): string {
    if chars == [] then ""
    else CharText(chars[0]) + LiteralText(chars[1..])
  }

  function PieceText(p: Piece): string {
    match p
    case Plain(c) => [c]
    case Literal(chars) => "\"" + (LiteralText(chars) + "\"")
    case Group(open, inner, close) => [open] + (PiecesText(inner) + [close])
  }

  function PiecesText(ps: seq<Piece>): string {
    if ps == [] then "" else PieceText(ps[0]) + PiecesText(ps[1..])
  }

  /** Pieces are written one after the other. */
  lemma {:induction false} PiecesJoin(a: seq<Piece>, b: seq<Piece>)
    ensures PiecesText(a + b) == PiecesText(a) + PiecesText(b)
    ensures |a| == 1 ==> PiecesText(a) == PieceText(a[0])
  {
    if a == [] {
      assert a + b == b;
    } else {
      assert (a + b)[1..] == a[1..] + b;
      PiecesJoin(a[1..], b);
    }
  }

  /** The splitter outside a literal, having read `current`. */
  function At(args: seq<string>, current: string, depth: nat): Scan {
    Reading(args, current, depth, false, false)
  }

  /** The splitter inside a literal. */
  function Inside(args: seq<string>, current: string, depth: nat, escaped: bool): Scan {
    Reading(args, current, depth, true, escaped)
  }

  // What is seen of two texts one after the other.

  lemma {:induction false} SeenAppend(a: string, b: string, atStart: bool)
    ensures Seen(a + b, atStart) == Seen(a, atStart) + Seen(b, StartAfter(a, atStart))
    ensures StartAfter(a + b, atStart) == StartAfter(b, StartAfter(a, atStart))
    decreases |a|
  {
    if a == "" {
      assert a + b == b;
    } else {
      assert (a + b)[1..] == a[1..] + b;
      SeenAppend(a[1..], b, Unseen(a[0], atStart));
    }
  }

  /** The splitter after two texts. */
  lemma {:induction false} FeedSeen(s: Scan, a: string, b: string, atStart: bool)
    ensures Feed(s, Seen(a + b, atStart)) == Feed(Feed(s, Seen(a, atStart)), Seen(b, StartAfter(a, atStart)))
  {
    SeenAppend(a, b, atStart);
    FeedAppend(s, Seen(a, atStart), Seen(b, StartAfter(a, atStart)));
  }

  lemma {:induction false} FeedOne(s: Scan, c: char)
    ensures Feed(s, [c]) == Step(s, c)
  {
    assert [c][1..] == "";
  }

  lemma {:induction false} SeenOne(s: Scan, c: char, atStart: bool)
    ensures Seen([c], atStart) == if Unseen(c, atStart) then "" else [c]
    ensures StartAfter([c], atStart) == Unseen(c, atStart)
    ensures Feed(s, Seen([c], atStart)) == if Unseen(c, atStart) then s else Step(s, c)
  {
    assert [c][1..] == "";
  }

  // Literals.

  lemma {:induction false} FeedChar(args: seq<string>, current: string, depth: nat, ch: StrChar, waiting: bool,
                                    atStart: bool)
    requires CharOk(ch)
    ensures var r := Feed(Inside(args, current, depth, waiting), Seen(CharText(ch), atStart));
            if waiting && ch == Escaped('"') then r.Reading? && !r.inString
            else r == Inside(args, current + Seen(CharText(ch), atStart), depth, Carry(ch, waiting, atStart))
  {
    var s := Inside(args, current, depth, waiting);
    if ch.Raw? {
      SeenOne(s, ch.c, atStart);
      assert current + "" == current;
    } else {
      SeenOne(s, '\\', atStart);
      FeedSeen(s, ['\\'], [ch.c], atStart);
      SeenAppend(['\\'], [ch.c], atStart);
      SeenOne(Step(s, '\\'), ch.c, false);
      Regroup(current, ['\\'], Seen([ch.c], false));
    }
  }

  lemma Regroup(a: string, b: string, c: string)
    ensures a + b + c == a + (b + c)
  {
  }

  lemma {:induction false} FeedLiteral(args: seq<string>, current: string, depth: nat, chars: seq<StrChar>,
                                       waiting: bool, atStart: bool)
    requires LiteralOk(chars) && Joins(chars, waiting, atStart)
    ensures Feed(Inside(args, current, depth, waiting), Seen(LiteralText(chars), atStart))
         == Inside(args, current + Seen(LiteralText(chars), atStart), depth, false)
    decreases |chars|
  {
    if chars == [] {
      assert current + "" == current;
    } else {
      var t, next := CharText(chars[0]), StartAfter(CharText(chars[0]), atStart);
      FeedChar(args, current, depth, chars[0], waiting, atStart);
      FeedLiteral(args, current + Seen(t, atStart), depth, chars[1..], Carry(chars[0], waiting, atStart), next);
      FeedSeen(Inside(args, current, depth, waiting), t, LiteralText(chars[1..]), atStart);
      SeenAppend(t, LiteralText(chars[1..]), atStart);
      Regroup(current, Seen(t, atStart), Seen(LiteralText(chars[1..]), next));
    }
  }

  /** The splitter takes the literal for one literal: it is inside at every character, and the closing quote
      ends it. */
  predicate ReadAsOne(s: Scan, chars: seq<StrChar>, atStart: bool)
    decreases |chars|
  {
    && s.Reading? && s.inString
    && if chars == [] then Step(s, '"').Reading? && !Step(s, '"').inString
       else ReadAsOne(Feed(s, Seen(CharText(chars[0]), atStart)), chars[1..], StartAfter(CharText(chars[0]), atStart))
  }

  /** Which literals the joining of continued lines reads as they are. */
  lemma {:induction false} JoinsIff(args: seq<string>, current: string, depth: nat, chars: seq<StrChar>, waiting: bool,
                                    atStart: bool)
    requires LiteralOk(chars)
    ensures ReadAsOne(Inside(args, current, depth, waiting), chars, atStart) <==> Joins(chars, waiting, atStart)
    decreases |chars|
  {
    if chars != [] {
      var t, next := CharText(chars[0]), StartAfter(CharText(chars[0]), atStart);
      FeedChar(args, current, depth, chars[0], waiting, atStart);
      if !(waiting && chars[0] == Escaped('"')) {
        JoinsIff(args, current + Seen(t, atStart), depth, chars[1..], Carry(chars[0], waiting, atStart), next);
      }
    }
  }

  /** Some continued line starts with a backslash. */
  predicate BackslashFirst(chars: seq<StrChar>, waiting: bool, atStart: bool) {
    chars != [] &&
      (|| (waiting && chars[0].Escaped?)
       || BackslashFirst(chars[1..], Carry(chars[0], waiting, atStart), StartAfter(CharText(chars[0]), atStart)))
  }

  predicate BlankFrom(chars: seq<StrChar>, k: nat) {
    forall j :: k <= j < |chars| ==> chars[j].Raw? && IsWhite(chars[j].c)
  }

  /** The closing quote is the first visible character of a continued line. */
  predicate QuoteFirst(chars: seq<StrChar>) {
    exists k: nat :: k < |chars| && chars[k] == Escaped('\n') && BlankFrom(chars, k + 1)
  }

  lemma QuoteFirstStep(chars: seq<StrChar>)
    requires chars != []
    ensures QuoteFirst(chars) <==> (chars[0] == Escaped('\n') && BlankFrom(chars[1..], 0)) || QuoteFirst(chars[1..])
    ensures BlankFrom(chars, 0) <==> chars[0].Raw? && IsWhite(chars[0].c) && BlankFrom(chars[1..], 0)
  {
    assert forall j :: 0 < j < |chars| ==> chars[j] == chars[1..][j - 1];
    if k: nat :| k < |chars| && chars[k] == Escaped('\n') && BlankFrom(chars, k + 1) {
      assert k > 0 ==> BlankFrom(chars[1..], k);
    }
    if k: nat :| k < |chars[1..]| && chars[1..][k] == Escaped('\n') && BlankFrom(chars[1..], k + 1) {
      assert BlankFrom(chars, k + 2) && chars[k + 1] == Escaped('\n');
    }
    if chars[0] == Escaped('\n') && BlankFrom(chars[1..], 0) {
      assert BlankFrom(chars, 0 + 1);
    }
  }

  /** Where no continued line starts with a backslash, joining fails exactly when one starts with the
      closing quote. */
  lemma {:induction false} QuoteFirstIff(args: seq<string>, current: string, depth: nat, chars: seq<StrChar>)
    requires LiteralOk(chars) && !BackslashFirst(chars, false, false)
    ensures ReadAsOne(Inside(args, current, depth, false), chars, false) <==> !QuoteFirst(chars)
  {
    JoinsIff(args, current, depth, chars, false, false);
    JoinsUnlessQuoteFirst(chars, false, false);
  }

  lemma {:induction false} JoinsUnlessQuoteFirst(chars: seq<StrChar>, waiting: bool, atStart: bool)
    requires LiteralOk(chars) && !BackslashFirst(chars, waiting, atStart) && (waiting ==> atStart)
    ensures Joins(chars, waiting, atStart) <==> !((waiting && BlankFrom(chars, 0)) || QuoteFirst(chars))
    decreases |chars|
  {
    if chars != [] {
      QuoteFirstStep(chars);
      NextStart(chars[0], atStart);
      JoinsUnlessQuoteFirst(chars[1..], Carry(chars[0], waiting, atStart), StartAfter(CharText(chars[0]), atStart));
    }
  }

  lemma {:induction false} NextStart(ch: StrChar, atStart: bool)
    ensures StartAfter(CharText(ch), atStart) == Unseen(ch.c, ch.Raw? && atStart)
  {
    assert CharText(ch)[1..] == if ch.Raw? then "" else [ch.c];
    SeenOne(START, ch.c, false);
  }

  // Pieces.

  /** A balanced stretch, however it is laid out over lines, is read into the current argument, and the
      depth comes back to what it was. */
  lemma {:induction false} FeedPieces(args: seq<string>, current: string, depth: nat, ps: seq<Piece>, atStart: bool)
    requires depth > 0 && PiecesOk(ps, depth == 1)
    ensures Feed(At(args, current, depth), Seen(PiecesText(ps), atStart))
         == At(args, current + Seen(PiecesText(ps), atStart), depth)
    decreases ps
  {
    if ps == [] {
      assert current + "" == current;
    } else {
      var t, more := PieceText(ps[0]), PiecesText(ps[1..]);
      var next := StartAfter(t, atStart);
      FeedPiece(args, current, depth, ps[0], atStart);
      FeedSeen(At(args, current, depth), t, more, atStart);
      FeedPieces(args, current + Seen(t, atStart), depth, ps[1..], next);
      SeenAppend(t, more, atStart);
      Regroup(current, Seen(t, atStart), Seen(more, next));
    }
  }

  lemma {:induction false} FeedPiece(args: seq<string>, current: string, depth: nat, p: Piece, atStart: bool)
    requires depth > 0 && PieceOk(p, depth == 1)
    ensures Feed(At(args, current, depth), Seen(PieceText(p), atStart))
         == At(args, current + Seen(PieceText(p), atStart), depth)
    decreases p
  {
    match p
    case Plain(c) =>
      SeenOne(At(args, current, depth), c, atStart);
      assert current + "" == current;
    case Literal(chars) =>
      FeedLiteral(args, current + "\"", depth, chars, false, false);
      FeedQuoted(args, current, depth, LiteralText(chars), atStart);
    case Group(open, inner, close) =>
      FeedPieces(args, current + [open], depth + 1, inner, false);
      FeedGroup(args, current, depth, open, PiecesText(inner), close, atStart);
  }

  /** What is seen of text between two characters that are no white space. */
  lemma {:induction false} SeenBetween(s: Scan, open: char, text: string, close: char, atStart: bool)
    requires !IsWhite(open) && !IsWhite(close)
    ensures Seen([open] + (text + [close]), atStart) == [open] + Seen(text, false) + [close]
    ensures Feed(s, Seen([open] + (text + [close]), atStart)) == Step(Feed(Step(s, open), Seen(text, false)), close)
  {
    SeenOne(s, open, atStart);
    FeedSeen(s, [open], text + [close], atStart);
    SeenAppend([open], text + [close], atStart);
    FeedSeen(Step(s, open), text, [close], false);
    SeenAppend(text, [close], false);
    SeenOne(Feed(Step(s, open), Seen(text, false)), close, StartAfter(text, false));
  }

  lemma {:induction false} FeedQuoted(args: seq<string>, current: string, depth: nat, text: string, atStart: bool)
    requires Feed(Inside(args, current + "\"", depth, false), Seen(text, false))
             == Inside(args, current + "\"" + Seen(text, false), depth, false)
    ensures Feed(At(args, current, depth), Seen("\"" + (text + "\""), atStart))
         == At(args, current + Seen("\"" + (text + "\""), atStart), depth)
  {
    SeenBetween(At(args, current, depth), '"', text, '"', atStart);
    RegroupBetween(current, "\"", Seen(text, false), "\"");
  }

  lemma RegroupBetween(current: string, open: string, text: string, close: string)
    ensures current + open + text + close == current + (open + text + close)
  {
  }

  lemma {:induction false} FeedGroup(args: seq<string>, current: string, depth: nat, open: char, text: string,
                                     close: char, atStart: bool)
    requires depth > 0 && Opens(open) && Closes(close)
    requires Feed(At(args, current + [open], depth + 1), Seen(text, false))
             == At(args, current + [open] + Seen(text, false), depth + 1)
    ensures Feed(At(args, current, depth), Seen([open] + (text + [close]), atStart))
         == At(args, current + Seen([open] + (text + [close]), atStart), depth)
  {
    SeenBetween(At(args, current, depth), open, text, close, atStart);
    RegroupBetween(current, [open], Seen(text, false), [close]);
  }

  // Calls.

  /** The arguments, a comma between any two, up to the bracket that closes the call. What stands between
      two commas may be laid out in any way, and may be nothing, as it is behind a trailing comma. */
  function ArgumentList(ps: seq<seq<Piece>>): string
    requires ps != []
  {
    PiecesText(ps[0]) + if |ps| == 1 then ")" else "," + ArgumentList(ps[1..])
  }

  /** The joined text of each argument, without the white space around it. */
  function Arguments(ps: seq<seq<Piece>>): seq<string> {
    if ps == [] then [] else [Trim(Seen(PiecesText(ps[0]), false))] + Arguments(ps[1..])
  }

  predicate CallOk(ps: seq<seq<Piece>>) {
    ps != [] && forall i :: 0 <= i < |ps| ==> PiecesOk(ps[i], true)
  }

  lemma {:induction false} FeedArgument(args: seq<string>, ps: seq<Piece>, c: char, more: string)
    requires PiecesOk(ps, true) && !IsWhite(c)
    ensures Feed(At(args, "", 1), Seen(PiecesText(ps) + ([c] + more), false))
         == Feed(Step(At(args, Seen(PiecesText(ps), false), 1), c), Seen(more, false))
  {
    var t := PiecesText(ps);
    FeedPieces(args, "", 1, ps, false);
    assert "" + Seen(t, false) == Seen(t, false);
    FeedSeen(At(args, "", 1), t, [c] + more, false);
    FeedSeen(At(args, Seen(t, false), 1), [c], more, StartAfter(t, false));
    SeenOne(At(args, Seen(t, false), 1), c, StartAfter(t, false));
  }

  lemma {:induction false} FeedLast(args: seq<string>, ps: seq<Piece>, after: string)
    requires PiecesOk(ps, true)
    ensures Feed(At(args, "", 1), Seen(PiecesText(ps) + ")" + after, false))
            == Closed(args + [Trim(Seen(PiecesText(ps), false))])
  {
    FeedArgument(args, ps, ')', after);
    Regroup(PiecesText(ps), ")", after);
  }

  lemma {:induction false} FeedFirst(args: seq<string>, ps: seq<Piece>, list: string, after: string)
    requires PiecesOk(ps, true)
    ensures Feed(At(args, "", 1), Seen(PiecesText(ps) + ("," + list) + after, false))
         == Feed(At(args + [Trim(Seen(PiecesText(ps), false))], "", 1), Seen(list + after, false))
  {
    FeedArgument(args, ps, ',', list + after);
    CommaFirst(PiecesText(ps), list, after);
  }

  lemma {:induction false} FeedCall(args: seq<string>, ps: seq<seq<Piece>>, after: string)
    requires CallOk(ps)
    ensures Feed(At(args, "", 1), Seen(ArgumentList(ps) + after, false)) == Closed(args + Arguments(ps))
    decreases |ps|
  {
    var text, rest := Trim(Seen(PiecesText(ps[0]), false)), ps[1..];
    if |ps| == 1 {
      FeedLast(args, ps[0], after);
      assert Arguments(rest) == [];
    } else {
      FeedFirst(args, ps[0], ArgumentList(rest), after);
      FeedCall(args + [text], rest, after);
      PutFirst(args, text, Arguments(rest));
    }
  }

  lemma CommaFirst(t: string, list: string, after: string)
    ensures t + ("," + list) + after == t + ([','] + (list + after))
  {
  }

  lemma PutFirst(args: seq<string>, t: string, more: seq<string>)
    ensures args + [t] + more == args + ([t] + more)
  {
  }

  predicate AreLines(lines: seq<string>) {
    forall i :: 0 <= i < |lines| ==> '\n' !in lines[i]
  }

  lemma {:induction false} SeenLine(line: string, atStart: bool)
    requires '\n' !in line
    ensures Seen(line, atStart) == if atStart then TrimStart(line) else line
  {
    if line != "" {
      assert '\n' !in line[1..];
      SeenLine(line[1..], Unseen(line[0], atStart));
    }
  }

  /** Reading line by line is reading what is seen of the source text. */
  lemma {:induction false} LinesAreSeen(lines: seq<string>, open: nat, start: nat, n: nat)
    requires open < |lines| && start <= |lines[open]| && n <= Window(lines, open) && AreLines(lines)
    ensures FeedLines(START, lines, open, start, n) == Feed(START, Seen(CallSource(lines, open, start, n), false))
    ensures StartAfter(CallSource(lines, open, start, n), false) == (n > 0)
    decreases n
  {
    if n > 0 {
      var line := RawLine(lines, open, start, n - 1);
      LinesAreSeen(lines, open, start, n - 1);
      RawLineOk(lines, open, start, n - 1);
      LineIsSeen(START, CallSource(lines, open, start, n - 1), line, n > 1);
    }
  }

  lemma RawLineOk(lines: seq<string>, open: nat, start: nat, k: nat)
    requires open + k < |lines| && start <= |lines[open]| && AreLines(lines)
    ensures '\n' !in RawLine(lines, open, start, k)
    ensures LineText(lines, open, start, k) == Seen(RawLine(lines, open, start, k), k > 0)
  {
    SeenLine(RawLine(lines, open, start, k), k > 0);
  }

  /** One more line of source text, read behind the text `t` of those before it. */
  lemma {:induction false} LineIsSeen(s: Scan, t: string, line: string, atStart: bool)
    requires StartAfter(t, false) == atStart
    ensures Feed(s, Seen(t + (line + "\n"), false)) == Feed(Feed(s, Seen(t, false)), Seen(line, atStart))
    ensures StartAfter(t + (line + "\n"), false)
  {
    var mid := Feed(s, Seen(t, false));
    FeedSeen(s, t, line + "\n", false);
    SeenAppend(t, line + "\n", false);
    FeedSeen(mid, line, "\n", atStart);
    SeenAppend(line, "\n", atStart);
    SeenOne(Feed(mid, Seen(line, atStart)), '\n', StartAfter(line, atStart));
  }

  /** A call that closes within the window splits into exactly its arguments, whatever stands around it and
      however it is laid out: on one line, one argument to a line, literals continued over lines, the
      closing bracket indented or not. */
  lemma CallSplits(lines: seq<string>, open: nat, at: nat, n: nat, ps: seq<seq<Piece>>, after: string)
    requires CallOk(ps) && AreLines(lines) && open < |lines| && FindFrom(lines[open], TOKEN, 0) == Some(at)
    requires n <= Window(lines, open)
    requires CallSource(lines, open, at + |TOKEN|, n) == ArgumentList(ps) + after
    ensures CallArguments(lines, open) == Some(NonEmpty(Arguments(ps)))
  {
    CallFrom(lines, open, at);
    ArgumentsSplit(lines, open, at + |TOKEN|, n, ps, after);
  }

  lemma CallFrom(lines: seq<string>, open: nat, at: nat)
    requires open < |lines| && FindFrom(lines[open], TOKEN, 0) == Some(at)
    ensures CallArguments(lines, open) == ArgumentsFrom(lines, open, at + |TOKEN|)
  {
  }

  lemma {:induction false} ArgumentsSplit(lines: seq<string>, open: nat, start: nat, n: nat, ps: seq<seq<Piece>>,
                                          after: string)
    requires CallOk(ps) && AreLines(lines) && open < |lines| && start <= |lines[open]| && n <= Window(lines, open)
    requires CallSource(lines, open, start, n) == ArgumentList(ps) + after
    ensures ArgumentsFrom(lines, open, start) == Some(NonEmpty(Arguments(ps)))
  {
    LinesAreSeen(lines, open, start, n);
    FeedCall([], ps, after);
    assert [] + Arguments(ps) == Arguments(ps);
    ClosedEarly(lines, open, start, n);
  }

  lemma {:induction false} FeedTwo(s: Scan, t: string)
    requires |t| == 2
    ensures Feed(s, t) == Step(Step(s, t[0]), t[1])
  {
    assert t == [t[0]] + [t[1]];
    FeedAppend(s, [t[0]], [t[1]]);
    FeedOne(s, t[0]);
    FeedOne(Step(s, t[0]), t[1]);
  }

  lemma {:induction false} FeedFour(s: Scan, t: string)
    requires |t| == 4
    ensures Feed(s, t) == Step(Step(Step(Step(s, t[0]), t[1]), t[2]), t[3])
  {
    assert t == t[..2] + t[2..];
    FeedAppend(s, t[..2], t[2..]);
    FeedTwo(s, t[..2]);
    FeedTwo(Feed(s, t[..2]), t[2..]);
  }

  /** The lines behind one that ends with the opening bracket. */
  lemma ThreeLines(lines: seq<string>)
    requires |lines| == 4 && lines[0] == TOKEN
    requires forall k :: 1 <= k < 4 ==> lines[k] != "" && !IsWhite(lines[k][0])
    ensures var s := Feed(Feed(Feed(START, lines[1]), lines[2]), lines[3]);
            CallArguments(lines, 0) == if s.Closed? then Some(NonEmpty(s.args)) else None
  {
    FoundAtOnce(lines[0]);
    CallFrom(lines, 0, 0);
    ThreeLinesFrom(lines, |TOKEN|);
  }

  lemma {:induction false} FoundAtOnce(line: string)
    ensures line == TOKEN ==> FindFrom(line, TOKEN, 0) == Some(0)
  {
    assert line[0..] == line;
  }

  lemma {:induction false} ThreeLinesFrom(lines: seq<string>, start: nat)
    requires |lines| == 4 && start == |lines[0]|
    requires forall k :: 1 <= k < 4 ==> lines[k] != "" && !IsWhite(lines[k][0])
    ensures FeedLines(START, lines, 0, start, 4) == Feed(Feed(Feed(START, lines[1]), lines[2]), lines[3])
  {
    assert lines[0][start..] == "";
    assert FeedLines(START, lines, 0, start, 0) == START;
    assert FeedLines(START, lines, 0, start, 1) == START;
    assert FeedLines(START, lines, 0, start, 2) == Feed(START, lines[1]);
    assert FeedLines(START, lines, 0, start, 3) == Feed(Feed(START, lines[1]), lines[2]);
  }

  /** `"a \` continued by a line `",`: the closing quote is read as an escaped one, and the call is never
      seen to close. */
  lemma QuoteFirstIsMissed()
    ensures CallArguments([TOKEN, "\"a \\", "\",", ")"], 0) == None
    ensures QuoteFirst([Raw('a'), Raw(' '), Escaped('\n')])
  {
    var chars := [Raw('a'), Raw(' '), Escaped('\n')];
    assert chars[2] == Escaped('\n') && BlankFrom(chars, 2 + 1);
    var lines := [TOKEN, "\"a \\", "\",", ")"];
    ThreeLines(lines);
    var s := Inside([], "\"a \\", 1, true);
    FeedFour(START, "\"a \\");
    assert Feed(START, "\"a \\") == s;
    FeedTwo(s, "\",");
    FeedOne(Inside([], "\"a \\\",", 1, false), ')');
  }

  lemma TrimId(t: string)
    requires t != "" && !IsWhite(t[0]) && !IsWhite(t[|t| - 1])
    ensures Trim(t) == t
  {
    TrimStartId(t);
    TrimEndId(t);
  }

  /** A continued line that starts with an escaped quote ends the literal there, so that a comma inside the
      literal splits the argument in two. */
  lemma EscapedQuoteSplits()
    ensures CallArguments([TOKEN, "\"\\", "\\\",\\\"\"", ")"], 0) == Some(["\"\\\\\"", "\\\"\""])
    ensures !Joins([Escaped('\n'), Escaped('"'), Raw(','), Escaped('"')], false, false)
  {
    var lines := [TOKEN, "\"\\", "\\\",\\\"\"", ")"];
    ThreeLines(lines);
    FeedTwo(START, "\"\\");
    assert Feed(START, "\"\\") == Inside([], "\"\\", 1, true);
    EarlyClose();
    FeedOne(At(["\"\\\\\""], "\\\"\"", 1), ')');
    TrimId("\\\"\"");
    NonEmptyTwo("\"\\\\\"", "\\\"\"");
    EscapedQuoteFirst([Escaped('\n'), Escaped('"'), Raw(','), Escaped('"')]);
  }

  lemma {:induction false} EscapedQuoteFirst(chars: seq<StrChar>)
    requires |chars| >= 2 && chars[0] == Escaped('\n') && chars[1] == Escaped('"')
    ensures !Joins(chars, false, false)
  {
    assert chars[1..][0] == Escaped('"');
  }

  lemma EarlyClose()
    ensures Feed(Inside([], "\"\\", 1, true), "\\\",\\\"\"") == At(["\"\\\\\""], "\\\"\"", 1)
  {
    var s, closed := Inside([], "\"\\", 1, true), At([], "\"\\\\\"", 1);
    ThreeTwos(s, "\\\"", ",\\", "\"\"");
    FeedTwo(s, "\\\"");
    assert Feed(s, "\\\"") == closed;
    SplitsAtComma("\"\\\\\"");
    FeedTwo(At(["\"\\\\\""], "\\", 1), "\"\"");
  }

  lemma {:induction false} ThreeTwos(s: Scan, a: string, b: string, c: string)
    ensures Feed(s, a + b + c) == Feed(Feed(Feed(s, a), b), c)
  {
    FeedAppend(s, a + b, c);
    FeedAppend(s, a, b);
  }

  lemma SplitsAtComma(t: string)
    requires t != "" && !IsWhite(t[0]) && !IsWhite(t[|t| - 1])
    ensures Feed(At([], t, 1), ",\\") == At([t], "\\", 1)
  {
    FeedTwo(At([], t, 1), ",\\");
    TrimId(t);
  }

  lemma NonEmptyTwo(a: string, b: string)
    requires a != "" && b != ""
    ensures NonEmpty([a] + [b]) == [a, b]
  {
    assert ([a] + [b])[..1] == [a];
    assert [a][..0] == [];
    assert NonEmpty([a]) == [a];
  }

  // -------------------------------------------------------------------------------------------
  // Placeholders
  // -------------------------------------------------------------------------------------------

  const DETAIL := "{detail}"

  /** An opening brace with no other opening brace since the last closing one. */
  predicate StartsToken(t: string, i: nat) {
    i < |t| && t[i] == '{' && exists p :: 0 <= p <= i && (p == 0 || t[p - 1] == '}') && NoneIn(t, '{', p, i)
  }

  predicate NoneIn(t: string, c: char, p: nat, i: nat)
    requires i <= |t|
  {
    forall k :: p <= k < i ==> t[k] != c
  }

  predicate IsToken(t: string, i: nat, j: nat) {
    StartsToken(t, i) && i < j < |t| && t[j] == '}' && forall k :: i < k < j ==> t[k] != '}'
  }

  ghost predicate HasForeign(t: string) {
    exists i: nat, j: nat :: IsToken(t, i, j) && t[i..j + 1] != DETAIL
  }

  function IndexOf(s: string, c: char, i: nat): (r: nat)
    requires i <= |s|
    ensures i <= r <= |s| && (forall k :: i <= k < r ==> s[k] != c) && (r < |s| ==> s[r] == c)
    decreases |s| - i
  {
    if i == |s| || s[i] == c then i else IndexOf(s, c, i + 1)
  }

  lemma NextToken(t: string, p: nat, i: nat, j: nat)
    requires p <= |t| && (p == 0 || t[p - 1] == '}')
    requires p <= i < |t| && t[i] == '{' && forall k :: p <= k < i ==> t[k] != '{'
    requires i < j <= |t| && (forall k :: i < k < j ==> t[k] != '}') && (j < |t| ==> t[j] == '}')
    ensures j < |t| ==> IsToken(t, i, j)
    ensures forall a: nat, b: nat :: p <= a <= j && IsToken(t, a, b) ==> a == i && b == j
  {
    assert NoneIn(t, '{', p, i);
    assert StartsToken(t, i);
    forall a: nat, b: nat | p <= a <= j && IsToken(t, a, b) ensures a == i && b == j {
      var q :| 0 <= q <= a && (q == 0 || t[q - 1] == '}') && NoneIn(t, '{', q, a);
      assert q == 0 || t[q - 1] == '}';
      assert q <= i;
      assert a <= i;
    }
  }

  /** Some `{...}` of the template, the braces paired from the left, is not the detail placeholder. */
  method HasForeignPlaceholder(t: string) returns (r: bool)
    ensures r <==> HasForeign(t)
  {
    var p := 0;
    while true
      invariant p <= |t| && (p == 0 || t[p - 1] == '}')
      invariant forall a: nat, b: nat :: a < p && IsToken(t, a, b) ==> t[a..b + 1] == DETAIL
      decreases |t| - p
    {
      var open := IndexOf(t, '{', p);
      if open == |t| {
        return false;
      }
      var close := IndexOf(t, '}', open + 1);
      NextToken(t, p, open, close);
      if close == |t| {
        return false;
      }
      if t[open..close + 1] != DETAIL {
        return true;
      }
      p := close + 1;
    }
  }
}
