/** What the lexer reads, scanner by scanner: src/shell/lex.rs. */
module LexSpec {
  import opened Base
  import opened Shell

  const MaxFd := 0xFFFF_FFFF

  function PushLiteral(segments: seq<Segment>, literal: string, quoted: bool): seq<Segment> {
    if literal == "" && !quoted then segments
    else if literal != "" && segments != [] && segments[|segments| - 1].Literal? && segments[|segments| - 1].quoted == quoted
    then segments[..|segments| - 1] + [Literal(segments[|segments| - 1].value + literal, quoted)]
    else segments + [Literal(literal, quoted)]
  }

  predicate At(input: string, p: nat, c: char) { p < |input| && input[p] == c }

  function SkipBlanks(input: string, p: nat): (end: nat)
    requires p <= |input|
    ensures p <= end <= |input|
    decreases |input| - p
  {
    if p < |input| && IsBlank(input[p]) then SkipBlanks(input, p + 1) else p
  }

  function SkipComment(input: string, p: nat): (end: nat)
    requires p <= |input|
    ensures p <= end <= |input| && (p < |input| && input[p] != '\n' ==> p < end)
    decreases |input| - p
  {
    if p < |input| && input[p] != '\n' then SkipComment(input, p + 1) else p
  }

  function DigitsEnd(input: string, p: nat): (end: nat)
    requires p <= |input|
    ensures p <= end <= |input| && forall i :: p <= i < end ==> IsDigit(input[i])
    decreases |input| - p
  {
    if p < |input| && IsDigit(input[p]) then DigitsEnd(input, p + 1) else p
  }

  function NameEnd(input: string, p: nat): (end: nat)
    requires p <= |input|
    ensures p <= end <= |input|
    decreases |input| - p
  {
    if p < |input| && IsNameContinue(input[p]) then NameEnd(input, p + 1) else p
  }

  /** A `]` before the word ends. */
  predicate ClosesBracket(input: string, p: nat)
    requires p <= |input|
    decreases |input| - p
  {
    p < |input| && (input[p] == ']' || (!IsWordBreak(input[p]) && ClosesBracket(input, p + 1)))
  }

  function DigitValue(c: char): nat
    requires IsDigit(c)
  {
    (c - '0') as int
  }

  function Decimal(digits: string): nat
    requires forall i :: 0 <= i < |digits| ==> IsDigit(digits[i])
  {
    if digits == "" then 0 else Decimal(digits[..|digits| - 1]) * 10 + DigitValue(digits[|digits| - 1])
  }

  function ParseFd(input: string, start: nat, end: nat): Parsed<nat>
    requires start <= end <= |input| && forall i :: start <= i < end ==> IsDigit(input[i])
  {
    if start == end || Decimal(input[start..end]) > MaxFd then Fail(ParseError(start, InvalidFileDescriptor))
    else Done(Decimal(input[start..end]))
  }

  // -------------------------------------------------------------------- redirects

  /** The operator at `scan`, if it is one, and where it ends. */
  function ScanOperator(input: string, scan: nat): (r: Parsed<Option<(RedirectOp, nat)>>)
    requires scan <= |input|
    ensures r.Done? && r.value.Some? ==> scan < r.value.value.1 <= |input|
    ensures r == Done(None) ==> !At(input, scan, '<') && !At(input, scan, '>')
  {
    if At(input, scan, '<') then
      if At(input, scan + 1, '<') then Refuse(scan, Heredoc) else Done(Some((Read, scan + 1)))
    else if At(input, scan, '>') then
      if At(input, scan + 1, '>') then Done(Some((Append, scan + 2))) else Done(Some((Write, scan + 1)))
    else Done(None)
  }

  /** `&n` after an operator at `at` that ended at `next`. */
  function ScanTarget(input: string, at: nat, op: RedirectOp, next: nat): (r: Parsed<(Option<nat>, nat)>)
    requires next <= |input|
    ensures r.Done? ==> next <= r.value.1 <= |input|
  {
    if !At(input, next, '&') then Done((None, next))
    else if op != Write then Refuse(at, RedirectFdDup)
    else
      var end := DigitsEnd(input, next + 1);
      if end == next + 1 then Refuse(at, RedirectFdDup)
      else if end < |input| && !IsWordBreak(input[end]) then Fail(ParseError(at, AmbiguousRedirect))
      else
        var fd := ParseFd(input, next + 1, end);
        if fd.Fail? then Fail(fd.error) else Done((Some(fd.value), end))
  }

  function ScanRedirect(input: string, p: nat): (r: Parsed<Option<(RedirectToken, nat)>>)
    requires p < |input|
    ensures r.Done? && r.value.Some? ==> p < r.value.value.1 <= |input|
    ensures r == Done(None) ==> input[p] != '<' && input[p] != '>'
  {
    var end := DigitsEnd(input, p);
    var numbered := end > p && (At(input, end, '<') || At(input, end, '>'));
    var fd: Parsed<nat> := if numbered then ParseFd(input, p, end) else Done(0);
    if fd.Fail? then Fail(fd.error) else
    var scan := if numbered then end else p;
    var op := ScanOperator(input, scan);
    if op.Fail? then Fail(op.error)
    else if op.value.None? then Done(None)
    else
      var target := ScanTarget(input, scan, op.value.value.0, op.value.value.1);
      if target.Fail? then Fail(target.error)
      else Done(Some((RedirectToken(if numbered then Some(fd.value) else None, op.value.value.0, target.value.0), target.value.1)))
  }

  // ------------------------------------------------------------------------ words

  /** What a scanner inside a word leaves behind. */
  datatype Piece = Piece(segments: seq<Segment>, literal: string, cursor: nat)

  function ScanSingleQuoted(input: string, quote: nat, p: nat, literal: string, segments: seq<Segment>): (r: Parsed<Piece>)
    requires p <= |input|
    ensures r.Done? ==> p < r.value.cursor <= |input| && r.value.literal == ""
    decreases |input| - p
  {
    if p >= |input| then Fail(ParseError(quote, UnterminatedSingle))
    else if input[p] == '\'' then Done(Piece(PushLiteral(segments, literal, true), "", p + 1))
    else ScanSingleQuoted(input, quote, p + 1, literal + [input[p]], segments)
  }

  /** A backslash outside quotes: a newline after it vanishes with it. */
  function ScanEscape(input: string, p: nat): (r: (nat, Option<char>))
    requires p < |input|
    ensures p < r.0 <= |input|
  {
    if p + 1 >= |input| then (p + 1, None)
    else if input[p + 1] == '\n' then (p + 2, None)
    else (p + 2, Some(input[p + 1]))
  }

  function BeforeExpansion(segments: seq<Segment>, literal: string, quoted: bool): seq<Segment> {
    if literal == "" then segments else PushLiteral(segments, literal, quoted)
  }

  function Expands(segments: seq<Segment>, literal: string, name: string, quoted: bool, cursor: nat): Parsed<Piece> {
    Done(Piece(BeforeExpansion(segments, literal, quoted) + [Expansion(name, quoted)], "", cursor))
  }

  function ScanBraced(input: string, p: nat, quoted: bool, segments: seq<Segment>, literal: string): (r: Parsed<Piece>)
    requires p + 1 < |input|
    ensures r.Done? ==> p < r.value.cursor <= |input|
  {
    var start := p + 2;
    if start >= |input| then Fail(ParseError(p, UnterminatedBracedExpansion))
    else if input[start] == '?' then
      if At(input, start + 1, '}') then Expands(segments, literal, "?", quoted, start + 2)
      else Fail(ParseError(p, InvalidParameterExpansion))
    else if IsDigit(input[start]) || IsRejectedSpecial(input[start]) then Refuse(p, ParameterExpansion)
    else if !IsNameStart(input[start]) then Fail(ParseError(p, InvalidParameterExpansion))
    else
      var end := NameEnd(input, start + 1);
      if end >= |input| then Fail(ParseError(p, UnterminatedBracedExpansion))
      else if input[end] != '}' then Fail(ParseError(p, InvalidParameterExpansion))
      else if input[start..end] == "_" then Refuse(p, ParameterExpansion)
      else Expands(segments, literal, input[start..end], quoted, end + 1)
  }

  function ScanExpansion(input: string, p: nat, quoted: bool, segments: seq<Segment>, literal: string): (r: Parsed<Piece>)
    requires p < |input|
    ensures r.Done? ==> p < r.value.cursor <= |input|
  {
    if p + 1 >= |input| then Done(Piece(segments, literal + "$", p + 1)) else
    var next := input[p + 1];
    if next == '(' then Refuse(p, CommandSubstitution)
    else if next == '\'' && !quoted then Refuse(p, AnsiCString)
    else if next == '"' && !quoted then Refuse(p, LocaleTranslation)
    else if next == '{' then ScanBraced(input, p, quoted, segments, literal)
    else if next == '?' then Expands(segments, literal, "?", quoted, p + 2)
    else if IsNameStart(next) then
      var end := NameEnd(input, p + 2);
      if input[p + 1..end] == "_" then Refuse(p, ParameterExpansion)
      else Expands(segments, literal, input[p + 1..end], quoted, end)
    else if IsDigit(next) || IsRejectedSpecial(next) then Refuse(p, ParameterExpansion)
    else Done(Piece(segments, literal + "$", p + 1))
  }

  /** A backslash in double quotes; gives the literal and where it ends. */
  function ScanQuotedEscape(input: string, p: nat, literal: string): (r: Parsed<(string, nat)>)
    requires p < |input|
    ensures r.Done? ==> p < r.value.1 <= |input|
  {
    if p + 1 >= |input| then Fail(ParseError(p, UnterminatedEscape)) else
    var next := input[p + 1];
    if next == '\n' then Done((literal, p + 2))
    else if next == '$' || next == '`' || next == '"' || next == '\\' then Done((literal + [next], p + 2))
    else Done((literal + ['\\', next], p + 2))
  }

  function ScanDoubleQuoted(input: string, quote: nat, p: nat, had: bool, literal: string, segments: seq<Segment>): (r: Parsed<Piece>)
    requires p <= |input|
    ensures r.Done? ==> p < r.value.cursor <= |input| && r.value.literal == ""
    decreases |input| - p
  {
    if p >= |input| then Fail(ParseError(quote, UnterminatedDouble))
    else if input[p] == '"' then
      Done(Piece(if literal != "" || !had then PushLiteral(segments, literal, true) else segments, "", p + 1))
    else if input[p] == '\\' then
      var e := ScanQuotedEscape(input, p, literal);
      if e.Fail? then Fail(e.error)
      else ScanDoubleQuoted(input, quote, e.value.1, had || |e.value.0| != |literal|, e.value.0, segments)
    else if input[p] == '$' then
      var e := ScanExpansion(input, p, true, segments, literal);
      if e.Fail? then Fail(e.error)
      else ScanDoubleQuoted(input, quote, e.value.cursor, true, e.value.literal, e.value.segments)
    else if input[p] == '`' then Refuse(p, Backticks)
    else ScanDoubleQuoted(input, quote, p + 1, true, literal + [input[p]], segments)
  }

  /** The state of `scan_word`'s loop. */
  datatype Scan = Scan(piece: Piece, had: bool, last: Option<char>, hasEquals: bool)

  function Plain(s: Scan, c: char): Scan {
    Scan(Piece(s.piece.segments, s.piece.literal + [c], s.piece.cursor + 1), true, Some(c), s.hasEquals || c == '=')
  }

  function AfterQuote(s: Scan, p: Piece): Scan { Scan(p, true, None, s.hasEquals) }

  function AfterEscape(s: Scan, e: (nat, Option<char>)): Scan {
    if e.1.None? then s.(piece := s.piece.(cursor := e.0))
    else AfterQuote(s, Piece(PushLiteral(PushLiteral(s.piece.segments, s.piece.literal, false), [e.1.value], true), "", e.0))
  }

  predicate TildeExpands(s: Scan) {
    || (!s.had && s.piece.segments == [] && s.piece.literal == "")
    || s.last == Some('=')
    || (s.last == Some(':') && s.hasEquals)
  }

  /** One turn of `scan_word`'s loop. */
  function WordStep(input: string, s: Scan): (r: Parsed<Scan>)
    requires s.piece.cursor < |input|
    ensures r.Done? ==> s.piece.cursor < r.value.piece.cursor <= |input|
  {
    var p, c := s.piece.cursor, input[s.piece.cursor];
    var before := PushLiteral(s.piece.segments, s.piece.literal, false);
    if c == '\'' || c == '"' then
      var q := if c == '\'' then ScanSingleQuoted(input, p, p + 1, "", before) else ScanDoubleQuoted(input, p, p + 1, false, "", before);
      if q.Fail? then Fail(q.error) else Done(AfterQuote(s, q.value))
    else if c == '\\' then Done(AfterEscape(s, ScanEscape(input, p)))
    else if c == '$' then
      var q := ScanExpansion(input, p, false, s.piece.segments, s.piece.literal);
      if q.Fail? then Fail(q.error) else Done(AfterQuote(s, q.value))
    else if c == '*' || c == '?' || (c == '[' && ClosesBracket(input, p + 1)) then Refuse(p, Glob)
    else if c == '`' then Refuse(p, Backticks)
    else if c == '(' || c == ')' then Refuse(p, Subshell)
    else if c == '{' || c == '}' then Refuse(p, BraceExpansion)
    else if c == '~' && TildeExpands(s) then Refuse(p, TildeExpansion)
    else Done(Plain(s, c))
  }

  function ScanWordFrom(input: string, s: Scan): (r: Parsed<Scan>)
    requires s.piece.cursor <= |input|
    ensures r.Done? ==> s.piece.cursor <= r.value.piece.cursor <= |input|
    ensures r.Done? && s.piece.cursor < |input| && !IsWordBreak(input[s.piece.cursor]) ==> s.piece.cursor < r.value.piece.cursor
    decreases |input| - s.piece.cursor
  {
    if s.piece.cursor >= |input| || IsWordBreak(input[s.piece.cursor]) then Done(s) else
    var t := WordStep(input, s);
    if t.Fail? then t else ScanWordFrom(input, t.value)
  }

  function StartScan(p: nat): Scan { Scan(Piece([], "", p), false, None, false) }

  function FinishScan(s: Scan): (Option<Word>, nat) {
    (if s.had then Some(Word(PushLiteral(s.piece.segments, s.piece.literal, false))) else None, s.piece.cursor)
  }

  function ScanWord(input: string, p: nat): (r: Parsed<(Option<Word>, nat)>)
    requires p < |input| && !IsWordBreak(input[p])
    ensures r.Done? ==> p < r.value.1 <= |input|
  {
    var s := ScanWordFrom(input, StartScan(p));
    if s.Fail? then Fail(s.error) else Done(FinishScan(s.value))
  }

  // ----------------------------------------------------------------------- tokens

  /** The token at `p`, which is not blank, if there is one, and where it ends. */
  function ScanToken(input: string, p: nat): (r: Parsed<(Option<TokenKind>, nat)>)
    requires p < |input| && !IsBlank(input[p])
    ensures r.Done? ==> p < r.value.1 <= |input|
  {
    var c := input[p];
    if c == '#' then Done((None, SkipComment(input, p))) else
    var redirect := ScanRedirect(input, p);
    if redirect.Fail? then Fail(redirect.error)
    else if redirect.value.Some? then Done((Some(RedirectKind(redirect.value.value.0)), redirect.value.value.1))
    else if c == '\n' then Done((Some(Newline), p + 1))
    else if c == ';' then Done((Some(Semi), p + 1))
    else if c == '|' then if At(input, p + 1, '|') then Done((Some(OrIf), p + 2)) else Done((Some(Pipe), p + 1))
    else if c == '&' then if At(input, p + 1, '&') then Done((Some(AndIf), p + 2)) else Refuse(p, Background)
    else
      var word := ScanWord(input, p);
      if word.Fail? then Fail(word.error)
      else Done((if word.value.0.Some? then Some(WordToken(word.value.0.value)) else None, word.value.1))
  }

  function Listed(kind: Option<TokenKind>, p: nat): seq<Token> { if kind.Some? then [Token(kind.value, p)] else [] }

  function LexFrom(input: string, p: nat, tokens: seq<Token>): Parsed<seq<Token>>
    requires p <= |input|
    decreases |input| - p
  {
    var q := SkipBlanks(input, p);
    if q >= |input| then Done(tokens)
    else if IsBlank(input[q]) then Done(tokens)
    else
      var t := ScanToken(input, q);
      if t.Fail? then Fail(t.error) else LexFrom(input, t.value.1, tokens + Listed(t.value.0, q))
  }

  function Lex(input: string): Parsed<seq<Token>> { LexFrom(input, 0, []) }
}
