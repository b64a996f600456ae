/** The lexer's cursor loops: src/shell/lex.rs. */
module Lexer {
  import opened Base
  import opened Shell
  import opened LexSpec

  method SkipBlanks(input: string, position: nat) returns (p: nat)
    requires position <= |input|
    ensures p == LexSpec.SkipBlanks(input, position)
    ensures p == |input| || !IsBlank(input[p])
  {
    p := position;
    while p < |input| && IsBlank(input[p])
      invariant p <= |input| && LexSpec.SkipBlanks(input, p) == LexSpec.SkipBlanks(input, position)
    {
      p := p + 1;
    }
  }

  method SkipComment(input: string, position: nat) returns (p: nat)
    requires position <= |input|
    ensures p == LexSpec.SkipComment(input, position)
  {
    p := position;
    while p < |input| && input[p] != '\n'
      invariant p <= |input| && LexSpec.SkipComment(input, p) == LexSpec.SkipComment(input, position)
    {
      p := p + 1;
    }
  }

  method ScanDigits(input: string, position: nat) returns (p: nat)
    requires position <= |input|
    ensures p == DigitsEnd(input, position)
  {
    p := position;
    while p < |input| && IsDigit(input[p])
      invariant p <= |input| && DigitsEnd(input, p) == DigitsEnd(input, position)
    {
      p := p + 1;
    }
  }

  method ScanName(input: string, position: nat) returns (p: nat)
    requires position <= |input|
    ensures p == NameEnd(input, position)
  {
    p := position;
    while p < |input| && IsNameContinue(input[p])
      invariant p <= |input| && NameEnd(input, p) == NameEnd(input, position)
    {
      p := p + 1;
    }
  }

  method HasClosingBracket(input: string, position: nat) returns (found: bool)
    requires position <= |input|
    ensures found == ClosesBracket(input, position)
  {
    var p := position;
    while p < |input|
      invariant p <= |input| && ClosesBracket(input, p) == ClosesBracket(input, position)
    {
      if input[p] == ']' { return true; }
      if IsWordBreak(input[p]) { return false; }
      p := p + 1;
    }
    found := false;
  }

  method ScanRedirect(input: string, p: nat) returns (r: Parsed<Option<(RedirectToken, nat)>>)
    requires p < |input|
    ensures r == LexSpec.ScanRedirect(input, p)
  {
    var end := ScanDigits(input, p);
    var scan, fd := p, None;
    if end > p && (At(input, end, '<') || At(input, end, '>')) {
      var parsed := ParseFd(input, p, end);
      if parsed.Fail? { return Fail(parsed.error); }
      scan, fd := end, Some(parsed.value);
    }
    var op := ScanOperator(input, scan);
    if op.Fail? { return Fail(op.error); }
    if op.value.None? { return Done(None); }
    var target := ScanTargetFd(input, scan, op.value.value.0, op.value.value.1);
    if target.Fail? { return Fail(target.error); }
    r := Done(Some((RedirectToken(fd, op.value.value.0, target.value.0), target.value.1)));
  }

  method ScanTargetFd(input: string, at: nat, op: RedirectOp, next: nat) returns (r: Parsed<(Option<nat>, nat)>)
    requires next <= |input|
    ensures r == ScanTarget(input, at, op, next)
  {
    if !At(input, next, '&') { return Done((None, next)); }
    if op != Write { return Refuse(at, RedirectFdDup); }
    var end := ScanDigits(input, next + 1);
    if end == next + 1 { return Refuse(at, RedirectFdDup); }
    if end < |input| && !IsWordBreak(input[end]) { return Fail(ParseError(at, AmbiguousRedirect)); }
    var fd := ParseFd(input, next + 1, end);
    if fd.Fail? { return Fail(fd.error); }
    r := Done((Some(fd.value), end));
  }

  method ScanSingleQuoted(input: string, position: nat, segments: seq<Segment>) returns (r: Parsed<Piece>)
    requires position < |input|
    ensures r == LexSpec.ScanSingleQuoted(input, position, position + 1, "", segments)
  {
    var p, literal := position + 1, "";
    while p < |input|
      invariant p <= |input|
      invariant LexSpec.ScanSingleQuoted(input, position, p, literal, segments)
        == LexSpec.ScanSingleQuoted(input, position, position + 1, "", segments)
    {
      if input[p] == '\'' { return Done(Piece(PushLiteral(segments, literal, true), "", p + 1)); }
      literal := literal + [input[p]];
      p := p + 1;
    }
    r := Fail(ParseError(position, UnterminatedSingle));
  }

  method ScanExpansion(input: string, p: nat, quoted: bool, segments: seq<Segment>, literal: string) returns (r: Parsed<Piece>)
    requires p < |input|
    ensures r == LexSpec.ScanExpansion(input, p, quoted, segments, literal)
  {
    if p + 1 >= |input| { return Done(Piece(segments, literal + "$", p + 1)); }
    var next := input[p + 1];
    if next == '(' { return Refuse(p, CommandSubstitution); }
    if next == '\'' && !quoted { return Refuse(p, AnsiCString); }
    if next == '"' && !quoted { return Refuse(p, LocaleTranslation); }
    if next == '{' { r := ScanBraced(input, p, quoted, segments, literal); return; }
    if next == '?' { return Expands(segments, literal, "?", quoted, p + 2); }
    if IsNameStart(next) {
      var end := ScanName(input, p + 2);
      if input[p + 1..end] == "_" { return Refuse(p, ParameterExpansion); }
      return Expands(segments, literal, input[p + 1..end], quoted, end);
    }
    if IsDigit(next) || IsRejectedSpecial(next) { return Refuse(p, ParameterExpansion); }
    r := Done(Piece(segments, literal + "$", p + 1));
  }

  method ScanBraced(input: string, p: nat, quoted: bool, segments: seq<Segment>, literal: string) returns (r: Parsed<Piece>)
    requires p + 1 < |input|
    ensures r == LexSpec.ScanBraced(input, p, quoted, segments, literal)
  {
    var start := p + 2;
    if start >= |input| { return Fail(ParseError(p, UnterminatedBracedExpansion)); }
    var first := input[start];
    if first == '?' {
      if !At(input, start + 1, '}') { return Fail(ParseError(p, InvalidParameterExpansion)); }
      return Expands(segments, literal, "?", quoted, start + 2);
    }
    if IsDigit(first) || IsRejectedSpecial(first) { return Refuse(p, ParameterExpansion); }
    if !IsNameStart(first) { return Fail(ParseError(p, InvalidParameterExpansion)); }
    var end := ScanName(input, start + 1);
    if end >= |input| { return Fail(ParseError(p, UnterminatedBracedExpansion)); }
    if input[end] != '}' { return Fail(ParseError(p, InvalidParameterExpansion)); }
    if input[start..end] == "_" { return Refuse(p, ParameterExpansion); }
    r := Expands(segments, literal, input[start..end], quoted, end + 1);
  }

  method ScanDoubleQuoted(input: string, position: nat, before: seq<Segment>) returns (r: Parsed<Piece>)
    requires position < |input|
    ensures r == LexSpec.ScanDoubleQuoted(input, position, position + 1, false, "", before)
  {
    var p, had, literal, segments := position + 1, false, "", before;
    while p < |input|
      invariant p <= |input|
      invariant LexSpec.ScanDoubleQuoted(input, position, p, had, literal, segments)
        == LexSpec.ScanDoubleQuoted(input, position, position + 1, false, "", before)
      decreases |input| - p
    {
      if input[p] == '"' {
        return Done(Piece(if literal != "" || !had then PushLiteral(segments, literal, true) else segments, "", p + 1));
      } else if input[p] == '\\' {
        var e := ScanQuotedEscape(input, p, literal);
        if e.Fail? { return Fail(e.error); }
        had, literal, p := had || |e.value.0| != |literal|, e.value.0, e.value.1;
      } else if input[p] == '$' {
        var e := ScanExpansion(input, p, true, segments, literal);
        if e.Fail? { return Fail(e.error); }
        had, segments, literal, p := true, e.value.segments, e.value.literal, e.value.cursor;
      } else if input[p] == '`' {
        return Refuse(p, Backticks);
      } else {
        had, literal, p := true, literal + [input[p]], p + 1;
      }
    }
    r := Fail(ParseError(position, UnterminatedDouble));
  }

  /** One turn of the loop of `ScanWord`. */
  method ScanStep(input: string, s: Scan) returns (r: Parsed<Scan>)
    requires s.piece.cursor < |input|
    ensures r == WordStep(input, s)
  {
    var p := s.piece.cursor;
    var c := input[p];
    if c == '\'' || c == '"' {
      var before := PushLiteral(s.piece.segments, s.piece.literal, false);
      var q;
      if c == '\'' { q := ScanSingleQuoted(input, p, before); } else { q := ScanDoubleQuoted(input, p, before); }
      if q.Fail? { return Fail(q.error); }
      return Done(AfterQuote(s, q.value));
    }
    if c == '\\' { return Done(AfterEscape(s, ScanEscape(input, p))); }
    if c == '$' {
      var q := ScanExpansion(input, p, false, s.piece.segments, s.piece.literal);
      if q.Fail? { return Fail(q.error); }
      return Done(AfterQuote(s, q.value));
    }
    var bracket := HasClosingBracket(input, p + 1);
    if c == '*' || c == '?' || (c == '[' && bracket) { return Refuse(p, Glob); }
    if c == '`' { return Refuse(p, Backticks); }
    if c == '(' || c == ')' { return Refuse(p, Subshell); }
    if c == '{' || c == '}' { return Refuse(p, BraceExpansion); }
    if c == '~' && TildeExpands(s) { return Refuse(p, TildeExpansion); }
    r := Done(Plain(s, c));
  }

  method ScanWord(input: string, position: nat) returns (r: Parsed<(Option<Word>, nat)>)
    requires position < |input| && !IsWordBreak(input[position])
    ensures r == LexSpec.ScanWord(input, position)
  {
    hide WordStep;
    var s := StartScan(position);
    while s.piece.cursor < |input| && !IsWordBreak(input[s.piece.cursor])
      invariant s.piece.cursor <= |input| && ScanWordFrom(input, s) == ScanWordFrom(input, StartScan(position))
      decreases |input| - s.piece.cursor
    {
      var t := ScanStep(input, s);
      if t.Fail? { return Fail(t.error); }
      s := t.value;
    }
    r := Done(FinishScan(s));
  }

  method NextToken(input: string, p: nat) returns (r: Parsed<(Option<TokenKind>, nat)>)
    requires p < |input| && !IsBlank(input[p])
    ensures r == ScanToken(input, p)
  {
    hide LexSpec.ScanRedirect, LexSpec.ScanWord;
    var c := input[p];
    if c == '#' {
      var end := SkipComment(input, p);
      return Done((None, end));
    }
    var redirect := ScanRedirect(input, p);
    if redirect.Fail? { return Fail(redirect.error); }
    if redirect.value.Some? { return Done((Some(RedirectKind(redirect.value.value.0)), redirect.value.value.1)); }
    if c == '\n' { return Done((Some(Newline), p + 1)); }
    if c == ';' { return Done((Some(Semi), p + 1)); }
    if c == '|' { return if At(input, p + 1, '|') then Done((Some(OrIf), p + 2)) else Done((Some(Pipe), p + 1)); }
    if c == '&' { return if At(input, p + 1, '&') then Done((Some(AndIf), p + 2)) else Refuse(p, Background); }
    var word := ScanWord(input, p);
    if word.Fail? { return Fail(word.error); }
    r := Done((if word.value.0.Some? then Some(WordToken(word.value.0.value)) else None, word.value.1));
  }

  method Lex(input: string) returns (r: Parsed<seq<Token>>)
    ensures r == LexSpec.Lex(input)
  {
    hide ScanToken;
    var tokens, position := [], 0;
    while position < |input|
      invariant position <= |input| && LexFrom(input, position, tokens) == LexSpec.Lex(input)
      decreases |input| - position
    {
      var p := SkipBlanks(input, position);
      if p >= |input| { return Done(tokens); }
      var t := NextToken(input, p);
      if t.Fail? { return Fail(t.error); }
      tokens, position := tokens + Listed(t.value.0, p), t.value.1;
    }
    r := Done(tokens);
  }
}
