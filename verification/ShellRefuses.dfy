/** What the lexer passes over and what it refuses, said of the text alone. */
module ShellRefuses {
  import opened Base
  import opened Shell
  import opened LexSpec
  import opened ParseSpec
  import opened ShellRoundTrip
  import opened ShellText
  import opened ShellShow
  import ExpandSpec
  import ExpandMeaning

  // ----------------------------------------------------------------------- comments

  ghost predicate LineEndsAt(input: string, p: nat, end: nat) {
    p <= end <= |input| && (forall i :: p <= i < end ==> input[i] != '\n') && (end < |input| ==> input[end] == '\n')
  }

  lemma {:induction false} CommentEnds(input: string, p: nat, end: nat)
    requires LineEndsAt(input, p, end)
    ensures SkipComment(input, p) == end
    decreases end - p
  {
    if p < end { CommentEnds(input, p + 1, end); }
  }

  /** From a `#` where a token would begin, the text up to the newline, or to the end, is passed
      over and leaves no token. */
  lemma CommentSkipped(input: string, p: nat, end: nat, tokens: Tokens)
    requires p < |input| && input[p] == '#' && LineEndsAt(input, p, end)
    ensures LexFrom(input, p, tokens) == LexFrom(input, end, tokens)
  {
    CommentEnds(input, p, end);
    assert tokens + [] == tokens;
  }

  // ------------------------------------------------------------------------ escapes

  /** Outside quotes a backslash and any character but a newline is that character, quoted. */
  lemma EscapedCharReads(input: string, s: Scan, done: seq<Segment>, c: char) returns (t: Scan)
    requires HasRead(s, done) && c != '\n' && Reads(input, s.piece.cursor, ['\\', c])
    ensures t.piece == Piece(PushLiteral(done, [c], true), "", s.piece.cursor + 2) && t.had && t.piece.cursor <= |input|
    ensures ScanWordFrom(input, s) == ScanWordFrom(input, t)
  {
    hide HasRead, PushLiteral;
    var p := s.piece.cursor;
    Flushed(s, done);
    assert input[p] == input[p..p + 2][0] && input[p + 1] == input[p..p + 2][1];
    t := AfterEscape(s, ScanEscape(input, p));
    assert WordStep(input, s) == Done(t);
  }

  /** A backslash and a newline are nothing at all, and so is a backslash at the very end. */
  lemma ContinuationReads(input: string, s: Scan)
    requires s.piece.cursor < |input| && input[s.piece.cursor] == '\\'
    requires s.piece.cursor + 1 < |input| ==> input[s.piece.cursor + 1] == '\n'
    ensures var end := if s.piece.cursor + 1 < |input| then s.piece.cursor + 2 else |input|;
      ScanWordFrom(input, s) == ScanWordFrom(input, s.(piece := s.piece.(cursor := end)))
  {
    assert WordStep(input, s) == Done(AfterEscape(s, ScanEscape(input, s.piece.cursor)));
  }

  // ------------------------------------------------------------- words that go wrong

  /** The loop when it has read only plain text. */
  function AfterPlain(p: nat, text: string): Scan {
    Scan(Piece([], text, p + |text|), text != "", if text == "" then None else Some(text[|text| - 1]), '=' in text)
  }

  /** Plain text that a word begins with, and a character after it that belongs to the word. */
  ghost predicate WordAt(input: string, p: nat, text: string, c: char) {
    && Reads(input, p, text + [c]) && (forall i :: 0 <= i < |text| ==> IsPlain(text[i]))
    && !IsWordBreak(c) && !IsDigit(c) && (text + [c])[0] != '#'
  }

  lemma WordAtParts(input: string, p: nat, text: string, c: char)
    requires WordAt(input, p, text, c)
    ensures Reads(input, p, text) && p + |text| < |input| && input[p + |text|] == c
    ensures input[p] != '#' && forall i :: p <= i <= p + |text| ==> !IsWordBreak(input[i])
  {
    var all := text + [c];
    ReadsSplit(input, p, text, [c]);
    forall i | p <= i <= p + |text| ensures input[i] == all[i - p] {
      assert input[i] == input[p..p + |all|][i - p];
    }
  }

  /** If the loop fails on what comes after the plain text, so does the lexer. */
  lemma WordFails(input: string, p: nat, text: string, c: char, tokens: Tokens, e: ParseError)
    requires WordAt(input, p, text, c) && p + |text| < |input| && WordStep(input, AfterPlain(p, text)) == Fail(e)
    ensures LexFrom(input, p, tokens) == Fail(e)
  {
    hide Reads, WordStep, ScanRedirect;
    WordAtParts(input, p, text, c);
    NotRedirect(input, p, |text|);
    var t := PlainReads(input, StartScan(p), text);
    assert "" + text == text;
    assert t == AfterPlain(p, text);
    assert ScanWordFrom(input, t) == Fail(e);
  }

  /** What is refused anywhere in a word outside quotes. */
  function Refused(c: char): Option<Construct> {
    if c == '*' || c == '?' then Some(Glob)
    else if c == '`' then Some(Backticks)
    else if c == '(' || c == ')' then Some(Subshell)
    else if c == '{' || c == '}' then Some(BraceExpansion)
    else None
  }

  lemma SpecialRefused(input: string, p: nat, text: string, c: char, tokens: Tokens)
    requires WordAt(input, p, text, c) && Refused(c).Some?
    ensures LexFrom(input, p, tokens) == Refuse(p + |text|, Refused(c).value)
  {
    hide Reads, LexFrom;
    WordAtParts(input, p, text, c);
    WordFails(input, p, text, c, tokens, ParseError(p + |text|, Unsupported(Refused(c).value)));
  }

  lemma {:induction false} ClosesIs(input: string, p: nat)
    requires p <= |input|
    ensures ClosesBracket(input, p) <==> exists q :: p <= q < |input| && input[q] == ']' && forall i :: p <= i < q ==> !IsWordBreak(input[i])
    decreases |input| - p
  {
    if p < |input| && input[p] != ']' && !IsWordBreak(input[p]) { ClosesIs(input, p + 1); }
  }

  /** A `[` is refused as a pattern exactly if a `]` comes before the word ends. */
  lemma BracketRefused(input: string, p: nat, text: string, tokens: Tokens)
    requires WordAt(input, p, text, '[')
    ensures var at := p + |text|;
      if exists q :: at < q < |input| && input[q] == ']' && forall i :: at < i < q ==> !IsWordBreak(input[i])
      then LexFrom(input, p, tokens) == Refuse(at, Glob)
      else ScanWordFrom(input, AfterPlain(p, text)) == ScanWordFrom(input, Plain(AfterPlain(p, text), '['))
  {
    hide Reads, LexFrom, ClosesBracket;
    WordAtParts(input, p, text, '[');
    var at := p + |text|;
    ClosesIs(input, at + 1);
    if ClosesBracket(input, at + 1) { WordFails(input, p, text, '[', tokens, ParseError(at, Unsupported(Glob))); }
  }

  /** A `~` is refused at the start of a word, after a `=`, and after a `:` if there was a `=`. */
  lemma TildeRefused(input: string, p: nat, text: string, tokens: Tokens)
    requires WordAt(input, p, text, '~')
    ensures var at := p + |text|;
      if text == "" || text[|text| - 1] == '=' || (text[|text| - 1] == ':' && '=' in text)
      then LexFrom(input, p, tokens) == Refuse(at, TildeExpansion)
      else ScanWordFrom(input, AfterPlain(p, text)) == ScanWordFrom(input, Plain(AfterPlain(p, text), '~'))
  {
    hide Reads, LexFrom;
    WordAtParts(input, p, text, '~');
    if TildeExpands(AfterPlain(p, text)) { WordFails(input, p, text, '~', tokens, ParseError(p + |text|, Unsupported(TildeExpansion))); }
  }

  /** What a `$` outside quotes is refused before. */
  function RefusedAfterDollar(c: char): Option<Construct> {
    if c == '(' then Some(CommandSubstitution)
    else if c == '\'' then Some(AnsiCString)
    else if c == '"' then Some(LocaleTranslation)
    else if IsDigit(c) || c == '$' || c == '!' || c == '#' || c == '*' || c == '@' || c == '-' then Some(ParameterExpansion)
    else None
  }

  lemma DollarRefused(input: string, p: nat, text: string, tokens: Tokens)
    requires WordAt(input, p, text, '$') && p + |text| + 1 < |input| && RefusedAfterDollar(input[p + |text| + 1]).Some?
    ensures LexFrom(input, p, tokens) == Refuse(p + |text|, RefusedAfterDollar(input[p + |text| + 1]).value)
  {
    hide Reads, LexFrom;
    WordAtParts(input, p, text, '$');
    WordFails(input, p, text, '$', tokens, ParseError(p + |text|, Unsupported(RefusedAfterDollar(input[p + |text| + 1]).value)));
  }

  /** A single quote that nothing closes is an error where it stands. */
  lemma {:induction false} SingleNeverCloses(input: string, quote: nat, p: nat, literal: string, segments: seq<Segment>)
    requires p <= |input| && forall i :: p <= i < |input| ==> input[i] != '\''
    ensures ScanSingleQuoted(input, quote, p, literal, segments) == Fail(ParseError(quote, UnterminatedSingle))
    decreases |input| - p
  {
    if p < |input| { SingleNeverCloses(input, quote, p + 1, literal + [input[p]], segments); }
  }

  lemma SingleUnclosed(input: string, p: nat, text: string, tokens: Tokens)
    requires WordAt(input, p, text, '\'') && forall i :: p + |text| < i < |input| ==> input[i] != '\''
    ensures LexFrom(input, p, tokens) == Fail(ParseError(p + |text|, UnterminatedSingle))
  {
    hide Reads, LexFrom, ScanSingleQuoted;
    WordAtParts(input, p, text, '\'');
    SingleNeverCloses(input, p + |text|, p + |text| + 1, "", PushLiteral([], text, false));
    WordFails(input, p, text, '\'', tokens, ParseError(p + |text|, UnterminatedSingle));
  }

  /** And so is a double quote, whatever is written in it. */
  lemma {:induction false} DoubleNeverCloses(input: string, quote: nat, p: nat, had: bool, literal: string, segments: seq<Segment>, s: string)
    requires Reads(input, p, Escaped(s)) && p + |Escaped(s)| == |input|
    ensures ScanDoubleQuoted(input, quote, p, had, literal, segments) == Fail(ParseError(quote, UnterminatedDouble))
    decreases |s|
  {
    if s != "" {
      hide ScanDoubleQuoted, Escaped, Reads;
      var c, e := s[0], Escaped(s[1..]);
      EscapedFirst(s, "");
      assert Escaped(s) + "" == Escaped(s) && e + "" == e;
      if IsEscaped(c) {
        ReadsFirst(input, p, '\\', [c] + e);
        ReadsFirst(input, p + 1, c, e);
        EscapedStep(input, quote, p, had, literal, segments, c, 2);
        DoubleNeverCloses(input, quote, p + 2, true, literal + [c], segments, s[1..]);
      } else {
        ReadsFirst(input, p, c, e);
        EscapedStep(input, quote, p, had, literal, segments, c, 1);
        DoubleNeverCloses(input, quote, p + 1, true, literal + [c], segments, s[1..]);
      }
    }
  }

  lemma DoubleUnclosed(input: string, p: nat, text: string, s: string, tokens: Tokens)
    requires WordAt(input, p, text, '"') && Reads(input, p + |text| + 1, Escaped(s)) && p + |text| + 1 + |Escaped(s)| == |input|
    ensures LexFrom(input, p, tokens) == Fail(ParseError(p + |text|, UnterminatedDouble))
  {
    hide Reads, LexFrom, ScanDoubleQuoted, Escaped;
    WordAtParts(input, p, text, '"');
    DoubleNeverCloses(input, p + |text|, p + |text| + 1, false, "", PushLiteral([], text, false), s);
    WordFails(input, p, text, '"', tokens, ParseError(p + |text|, UnterminatedDouble));
  }

  /** In double quotes a backslash before a newline vanishes with it; before anything else that is
      not special there it stays, and so does what follows. A backtick is refused. */
  lemma DoubleKeeps(input: string, quote: nat, p: nat, had: bool, literal: string, segments: seq<Segment>)
    requires p < |input|
    ensures var r := ScanDoubleQuoted(input, quote, p, had, literal, segments);
      && (input[p] == '`' ==> r == Refuse(p, Backticks))
      && (input[p] == '\\' && p + 1 == |input| ==> r == Fail(ParseError(p, UnterminatedEscape)))
      && (input[p] == '\\' && p + 1 < |input| ==>
            && (input[p + 1] == '\n' ==> r == ScanDoubleQuoted(input, quote, p + 2, had, literal, segments))
            && (!IsEscaped(input[p + 1]) && input[p + 1] != '\n' ==>
                  r == ScanDoubleQuoted(input, quote, p + 2, true, literal + input[p..p + 2], segments)))
  {
    if p + 1 < |input| { assert input[p..p + 2] == [input[p], input[p + 1]]; }
  }

  /** A `$` with no name, brace or special character after it is a `$`. */
  lemma DollarAlone(input: string, p: nat, quoted: bool, segments: seq<Segment>, literal: string)
    requires p < |input| && input[p] == '$'
    requires p + 1 < |input| ==>
      var c := input[p + 1];
      && !IsNameStart(c) && c != '{' && c != '?' && (RefusedAfterDollar(c).None? || (quoted && (c == '\'' || c == '"')))
    ensures ScanExpansion(input, p, quoted, segments, literal) == Done(Piece(segments, literal + "$", p + 1))
  {
  }

  // ----------------------------------------------------------------- operators that do

  /** One `&` alone is refused. */
  lemma BackgroundRefused(input: string, p: nat, tokens: Tokens)
    requires p < |input| && input[p] == '&' && (p + 1 < |input| ==> input[p + 1] != '&')
    ensures LexFrom(input, p, tokens) == Refuse(p, Background)
  {
    NotRedirect(input, p, 0);
  }

  /** Redirects that are refused, behind a descriptor or not. */
  function RefusedRedirect(next: string): Option<ErrorKind> {
    if |next| >= 2 && next[..2] == "<<" then Some(Unsupported(Heredoc))
    else if |next| >= 2 && next[..2] == "<&" then Some(Unsupported(RedirectFdDup))
    else if |next| >= 3 && next[..3] == ">>&" then Some(Unsupported(RedirectFdDup))
    else if |next| >= 2 && next[..2] == ">&" && (|next| == 2 || !IsDigit(next[2])) then Some(Unsupported(RedirectFdDup))
    else None
  }

  lemma OperatorFails(input: string, p: nat)
    requires p <= |input| && RefusedRedirect(input[p..]).Some?
    ensures p < |input| && (input[p] == '<' || input[p] == '>')
    ensures var e, op := ParseError(p, RefusedRedirect(input[p..]).value), ScanOperator(input, p);
      op == Fail(e) || (op.Done? && op.value.Some? && ScanTarget(input, p, op.value.value.0, op.value.value.1) == Fail(e))
  {
    var next := input[p..];
    assert forall i :: 0 <= i < |next| ==> next[i] == input[p + i];
    assert |next| >= 2 ==> next[..2] == [next[0], next[1]];
    assert |next| >= 3 ==> next[..3] == [next[0], next[1], next[2]];
    if |next| >= 2 { StopsAtOnce(input, p + 2); }
  }

  lemma StopsAtOnce(input: string, p: nat)
    requires p <= |input|
    ensures p == |input| || !IsDigit(input[p]) ==> DigitsEnd(input, p) == p
  {
  }

  /** A redirect whose operator or target fails, behind a descriptor or not. */
  lemma RedirectFails(input: string, p: nat, fd: Option<nat>, e: ParseError)
    requires (fd.Some? ==> fd.value <= 0xFFFF_FFFF) && Reads(input, p, ShowFd(fd))
    requires var at := p + |ShowFd(fd)|; at < |input| && (input[at] == '<' || input[at] == '>')
    requires var at := p + |ShowFd(fd)|; var op := ScanOperator(input, at);
      op == Fail(e) || (op.Done? && op.value.Some? && ScanTarget(input, at, op.value.value.0, op.value.value.1) == Fail(e))
    ensures p < |input| && !IsBlank(input[p]) && input[p] != '#' && ScanRedirect(input, p) == Fail(e)
  {
    hide Reads, ExpandSpec.Digits, ScanTarget, ScanOperator, ParseFd, DigitsEnd;
    if fd.Some? {
      FdReads(input, p, fd.value);
      ExpandMeaning.DigitsAre(fd.value);
      FirstRead(input, p, ShowFd(fd));
    } else {
      NoDigits(input, p);
    }
  }

  lemma LexFails(input: string, p: nat, tokens: Tokens, e: ParseError)
    requires p < |input| && !IsBlank(input[p]) && input[p] != '#' && ScanRedirect(input, p) == Fail(e)
    ensures LexFrom(input, p, tokens) == Fail(e)
  {
    hide ScanRedirect;
  }

  lemma RedirectRefused(input: string, p: nat, fd: Option<nat>, tokens: Tokens)
    requires (fd.Some? ==> fd.value <= 0xFFFF_FFFF) && Reads(input, p, ShowFd(fd)) && RefusedRedirect(input[p + |ShowFd(fd)|..]).Some?
    ensures LexFrom(input, p, tokens) == Fail(ParseError(p + |ShowFd(fd)|, RefusedRedirect(input[p + |ShowFd(fd)|..]).value))
  {
    hide LexFrom, ExpandSpec.Digits, ScanTarget, ScanOperator, ScanRedirect, RefusedRedirect;
    var at := p + |ShowFd(fd)|;
    var e := ParseError(at, RefusedRedirect(input[at..]).value);
    OperatorFails(input, at);
    RedirectFails(input, p, fd, e);
    LexFails(input, p, tokens, e);
  }

  /** A descriptor that does not fit 32 bits is an error where it begins. */
  lemma FdTooLarge(input: string, p: nat, n: nat, tokens: Tokens)
    requires n > 0xFFFF_FFFF && Reads(input, p, ExpandSpec.Digits(n))
    requires var at := p + |ExpandSpec.Digits(n)|; at < |input| && (input[at] == '<' || input[at] == '>')
    ensures LexFrom(input, p, tokens) == Fail(ParseError(p, InvalidFileDescriptor))
  {
    hide ExpandSpec.Digits, ScanTarget, ScanOperator;
    ExpandMeaning.DigitsAre(n);
    DigitsRead(input, p, ExpandSpec.Digits(n));
    FirstRead(input, p, ExpandSpec.Digits(n));
  }
}
