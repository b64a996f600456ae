/** Writing shell syntax as text, and what each scanner of the lexer reads it back as. */
module ShellText {
  import opened Base
  import opened Shell
  import opened LexSpec
  import opened ShellRoundTrip
  import ExpandSpec
  import ExpandMeaning

  // ------------------------------------------------------------------ double quotes

  predicate IsEscaped(c: char) { c == '$' || c == '`' || c == '"' || c == '\\' }

  function Escaped(s: string): string {
    if s == "" then "" else (if IsEscaped(s[0]) then ['\\', s[0]] else [s[0]]) + Escaped(s[1..])
  }

  /** Double quotes around the string, and a backslash before what they do not take literally. */
  function ShowDouble(s: string): string { "\"" + (Escaped(s) + "\"") }

  lemma ReadsFirst(input: string, p: nat, c: char, rest: string)
    requires Reads(input, p, [c] + rest)
    ensures p < |input| && input[p] == c && Reads(input, p + 1, rest)
  {
    ReadsSplit(input, p, [c], rest);
    assert input[p..p + 1][0] == c;
  }

  /** One character between the quotes, with or without its backslash. */
  lemma EscapedStep(input: string, quote: nat, p: nat, had: bool, literal: string, segments: seq<Segment>, c: char, n: nat)
    requires p + n <= |input| && n == (if IsEscaped(c) then 2 else 1) && input[p + n - 1] == c && (n == 2 ==> input[p] == '\\')
    ensures ScanDoubleQuoted(input, quote, p, had, literal, segments)
      == ScanDoubleQuoted(input, quote, p + n, true, literal + [c], segments)
  {
    if n == 2 { assert ScanQuotedEscape(input, p, literal) == Done((literal + [c], p + 2)); }
  }

  lemma EscapedFirst(s: string, tail: string)
    requires s != ""
    ensures Escaped(s) + tail == if IsEscaped(s[0]) then ['\\'] + ([s[0]] + (Escaped(s[1..]) + tail)) else [s[0]] + (Escaped(s[1..]) + tail)
    ensures |Escaped(s)| == |Escaped(s[1..])| + if IsEscaped(s[0]) then 2 else 1
  {
    var c, e := s[0], Escaped(s[1..]);
    if IsEscaped(c) {
      assert ['\\', c] == ['\\'] + [c];
      Assoc(['\\'] + [c], e, tail);
      Assoc(['\\'], [c], e + tail);
    } else {
      Assoc([c], e, tail);
    }
  }

  /** The text between the quotes is read back character by character. */
  lemma {:induction false} EscapedReads(input: string, quote: nat, p: nat, had: bool, literal: string, segments: seq<Segment>, s: string)
    requires Reads(input, p, Escaped(s) + "\"")
    ensures p + |Escaped(s)| < |input| && input[p + |Escaped(s)|] == '"'
    ensures ScanDoubleQuoted(input, quote, p, had, literal, segments)
      == ScanDoubleQuoted(input, quote, p + |Escaped(s)|, had || s != "", literal + s, segments)
    decreases |s|
  {
    hide ScanDoubleQuoted, Reads;
    if s == "" {
      assert Escaped(s) + "\"" == ['"'] + "";
      ReadsFirst(input, p, '"', "");
      assert literal + s == literal;
    } else {
      hide Escaped;
      var c, rest := s[0], Escaped(s[1..]) + "\"";
      EscapedFirst(s, "\"");
      Rest(literal, s);
      if IsEscaped(c) {
        ReadsFirst(input, p, '\\', [c] + rest);
        ReadsFirst(input, p + 1, c, rest);
        EscapedStep(input, quote, p, had, literal, segments, c, 2);
        EscapedReads(input, quote, p + 2, true, literal + [c], segments, s[1..]);
      } else {
        ReadsFirst(input, p, c, rest);
        EscapedStep(input, quote, p, had, literal, segments, c, 1);
        EscapedReads(input, quote, p + 1, true, literal + [c], segments, s[1..]);
      }
    }
  }

  lemma Rest(literal: string, s: string)
    requires s != ""
    ensures literal + [s[0]] + s[1..] == literal + s
  {
  }

  /** A string in double quotes is that string, as one quoted literal. */
  lemma DoubleReads(input: string, p: nat, segments: seq<Segment>, s: string)
    requires Reads(input, p, ShowDouble(s))
    ensures p < |input| && input[p] == '"' && p + |ShowDouble(s)| <= |input|
    ensures ScanDoubleQuoted(input, p, p + 1, false, "", segments)
      == Done(Piece(PushLiteral(segments, s, true), "", p + |ShowDouble(s)|))
  {
    hide Reads, Escaped, PushLiteral;
    ReadsFirst(input, p, '"', Escaped(s) + "\"");
    EscapedReads(input, p, p + 1, false, "", segments, s);
    assert "" + s == s;
    QuoteCloses(input, p, p + 1 + |Escaped(s)|, s != "", s, segments);
  }

  lemma QuoteCloses(input: string, quote: nat, p: nat, had: bool, literal: string, segments: seq<Segment>)
    requires p < |input| && input[p] == '"'
    ensures ScanDoubleQuoted(input, quote, p, had, literal, segments)
      == Done(Piece(if literal != "" || !had then PushLiteral(segments, literal, true) else segments, "", p + 1))
  {
  }

  // --------------------------------------------------------------------- expansions

  /** What can be written `$name`: a name other than `_`. */
  predicate IsVariable(name: string) {
    name != "" && name != "_" && IsNameStart(name[0]) && forall i :: 0 <= i < |name| ==> IsNameContinue(name[i])
  }

  predicate IsParameter(name: string) { name == "?" || IsVariable(name) }

  lemma {:induction false} NameReads(input: string, p: nat, name: string)
    requires Reads(input, p, name) && forall i :: 0 <= i < |name| ==> IsNameContinue(name[i])
    requires p + |name| < |input| ==> !IsNameContinue(input[p + |name|])
    ensures NameEnd(input, p) == p + |name|
    decreases |name|
  {
    if name != "" {
      assert name == [name[0]] + name[1..];
      ReadsFirst(input, p, name[0], name[1..]);
      NameReads(input, p + 1, name[1..]);
    }
  }

  function Braced(name: string): (s: string)
    ensures |s| == |name| + 3
  {
    "${" + (name + "}")
  }

  lemma BracedParts(input: string, p: nat, name: string)
    requires name != "" && Reads(input, p, Braced(name))
    ensures p + |name| + 3 <= |input| && input[p] == '$' && input[p + 1] == '{' && input[p + 2 + |name|] == '}'
    ensures input[p + 2] == name[0] && input[p + 2..p + 2 + |name|] == name && Reads(input, p + 3, name[1..])
  {
    var tail := name + "}";
    assert Braced(name) == ['$'] + (['{'] + tail);
    ReadsFirst(input, p, '$', ['{'] + tail);
    ReadsFirst(input, p + 1, '{', tail);
    ReadsSplit(input, p + 2, name, "}");
    ReadsFirst(input, p + 2 + |name|, '}', "");
    assert name == [name[0]] + name[1..];
    ReadsFirst(input, p + 2, name[0], name[1..]);
  }

  /** `${name}` and `${?}` are the expansion of that name, quoted or not. */
  lemma BracedReads(input: string, p: nat, quoted: bool, segments: seq<Segment>, literal: string, name: string)
    requires IsParameter(name) && Reads(input, p, Braced(name))
    ensures p + |name| + 3 <= |input|
    ensures ScanExpansion(input, p, quoted, segments, literal)
      == Done(Piece(BeforeExpansion(segments, literal, quoted) + [Expansion(name, quoted)], "", p + |name| + 3))
  {
    hide BeforeExpansion;
    BracedParts(input, p, name);
    if name != "?" { NameReads(input, p + 3, name[1..]); }
  }

  /** So is `$name`, if what follows is no part of a name. */
  lemma BareReads(input: string, p: nat, quoted: bool, segments: seq<Segment>, literal: string, name: string)
    requires IsVariable(name) && Reads(input, p, "$" + name)
    requires p + 1 + |name| < |input| ==> !IsNameContinue(input[p + 1 + |name|])
    ensures p + |name| + 1 <= |input|
    ensures ScanExpansion(input, p, quoted, segments, literal)
      == Done(Piece(BeforeExpansion(segments, literal, quoted) + [Expansion(name, quoted)], "", p + |name| + 1))
  {
    ReadsFirst(input, p, '$', name);
    assert name == [name[0]] + name[1..];
    ReadsFirst(input, p + 1, name[0], name[1..]);
    NameReads(input, p + 2, name[1..]);
  }

  // ---------------------------------------------------------------------- redirects

  lemma {:induction false} DigitsRead(input: string, p: nat, d: string)
    requires Reads(input, p, d) && forall i :: 0 <= i < |d| ==> IsDigit(d[i])
    requires p + |d| < |input| ==> !IsDigit(input[p + |d|])
    ensures DigitsEnd(input, p) == p + |d|
    decreases |d|
  {
    if d != "" {
      assert d == [d[0]] + d[1..];
      ReadsFirst(input, p, d[0], d[1..]);
      DigitsRead(input, p + 1, d[1..]);
    }
  }

  function ShowFd(fd: Option<nat>): string { if fd.None? then "" else ExpandSpec.Digits(fd.value) }
  function ShowOp(op: RedirectOp): string { match op case Read => "<" case Write => ">" case Append => ">>" }

  /** A redirect as it is written: its descriptor, the operator, and `&n` for a descriptor target. */
  function ShowRedirect(r: RedirectToken): string {
    ShowFd(r.fd) + (ShowOp(r.op) + (if r.targetFd.None? then "" else "&" + ShowFd(r.targetFd)))
  }

  /** Descriptors are 32-bit, and only `>` takes a descriptor for a target. */
  predicate IsRedirect(r: RedirectToken) {
    && (r.fd.Some? ==> r.fd.value <= 0xFFFF_FFFF) && (r.targetFd.Some? ==> r.targetFd.value <= 0xFFFF_FFFF && r.op == Write)
  }

  predicate BlankAt(input: string, p: nat) { p < |input| ==> IsBlank(input[p]) }

  lemma FdReads(input: string, p: nat, n: nat)
    requires n <= MaxFd && Reads(input, p, ExpandSpec.Digits(n))
    requires p + |ExpandSpec.Digits(n)| < |input| ==> !IsDigit(input[p + |ExpandSpec.Digits(n)|])
    ensures var end := p + |ExpandSpec.Digits(n)|;
      p < end <= |input| && DigitsEnd(input, p) == end && ParseFd(input, p, end) == Done(n)
  {
    hide ExpandSpec.Digits;
    ExpandMeaning.DigitsAre(n);
    DigitsRead(input, p, ExpandSpec.Digits(n));
  }

  /** An operator, with no `<`, `>` or `&` after it that would belong to it. */
  lemma OperatorReads(input: string, p: nat, op: RedirectOp)
    requires Reads(input, p, ShowOp(op))
    requires var end := p + |ShowOp(op)|; end < |input| ==> input[end] != '<' && input[end] != '>'
    ensures p < |input| && (input[p] == '<' || input[p] == '>')
    ensures ScanOperator(input, p) == Done(Some((op, p + |ShowOp(op)|)))
  {
    assert input[p] == input[p..p + |ShowOp(op)|][0];
    if op.Append? { assert input[p + 1] == input[p..p + 2][1]; }
  }

  lemma TargetReads(input: string, at: nat, op: RedirectOp, p: nat, target: Option<nat>)
    requires target.Some? ==> target.value <= MaxFd && op == Write && Reads(input, p, "&" + ShowFd(target))
    requires p <= |input| && BlankAt(input, if target.None? then p else p + 1 + |ShowFd(target)|)
    ensures ScanTarget(input, at, op, p) == Done((target, if target.None? then p else p + 1 + |ShowFd(target)|))
  {
    if target.Some? {
      hide ExpandSpec.Digits, Reads;
      ReadsFirst(input, p, '&', ShowFd(target));
      FdReads(input, p + 1, target.value);
    }
  }

  function ShowTarget(target: Option<nat>): string { if target.None? then "" else "&" + ShowFd(target) }

  lemma RedirectParts(input: string, p: nat, r: RedirectToken)
    requires Reads(input, p, ShowRedirect(r))
    ensures var at := p + |ShowFd(r.fd)|; var next := at + |ShowOp(r.op)|;
      && Reads(input, p, ShowFd(r.fd)) && Reads(input, at, ShowOp(r.op)) && Reads(input, next, ShowTarget(r.targetFd))
      && next + |ShowTarget(r.targetFd)| == p + |ShowRedirect(r)| <= |input|
      && (r.targetFd.Some? ==> next < |input| && input[next] == '&')
  {
    hide ShowFd, ShowOp;
    ReadsSplit(input, p, ShowFd(r.fd), ShowOp(r.op) + ShowTarget(r.targetFd));
    ReadsSplit(input, p + |ShowFd(r.fd)|, ShowOp(r.op), ShowTarget(r.targetFd));
    if r.targetFd.Some? { ReadsFirst(input, p + |ShowFd(r.fd)| + |ShowOp(r.op)|, '&', ShowFd(r.targetFd)); }
  }

  /** A redirect written out, with a blank or the end after it, is read as its token. */
  lemma RedirectReads(input: string, p: nat, r: RedirectToken)
    requires IsRedirect(r) && Reads(input, p, ShowRedirect(r)) && BlankAt(input, p + |ShowRedirect(r)|)
    ensures p < |input| && ScanRedirect(input, p) == Done(Some((r, p + |ShowRedirect(r)|)))
  {
    hide Reads, ExpandSpec.Digits, ShowOp, ShowRedirect, ScanTarget, ScanOperator, ParseFd, DigitsEnd;
    RedirectParts(input, p, r);
    var at := p + |ShowFd(r.fd)|;
    var next := at + |ShowOp(r.op)|;
    OperatorReads(input, at, r.op);
    TargetReads(input, at, r.op, next, r.targetFd);
    if r.fd.Some? { FdReads(input, p, r.fd.value); } else { NoDigits(input, p); }
  }

  lemma NoDigits(input: string, p: nat)
    requires p < |input| && !IsDigit(input[p])
    ensures DigitsEnd(input, p) == p
  {
  }

  // -------------------------------------------------------------------------- words

  /** Characters that stand for themselves outside quotes. */
  predicate IsPlain(c: char) {
    && !IsWordBreak(c) && c != '\'' && c != '"' && c != '\\' && c != '$' && c != '*' && c != '?' && c != '[' && c != '`'
    && c != '(' && c != ')' && c != '{' && c != '}' && c != '~'
  }

  predicate IsPlainText(s: string) { s != "" && forall i :: 0 <= i < |s| ==> IsPlain(s[i]) }

  /** A quoted literal is written behind `""`, which keeps it apart from a quoted literal before it. */
  function ShowSegment(s: Segment): string {
    match s
    case Literal(value, true) => if value == "" then ShowDouble("") else ShowDouble("") + ShowDouble(value)
    case Literal(value, false) => value
    case Expansion(name, true) => "\"" + (Braced(name) + "\"")
    case Expansion(name, false) => Braced(name)
  }

  predicate IsUnquoted(s: Segment) { s.Literal? && !s.quoted }

  predicate CanShow(s: Segment) {
    match s
    case Literal(value, quoted) => quoted || IsPlainText(value)
    case Expansion(name, _) => IsParameter(name)
  }

  /** Words of quoted literals, expansions and plain text, no two pieces of plain text in a row,
      and not beginning as a comment does. */
  predicate IsWritable(segments: seq<Segment>) {
    && segments != [] && (IsUnquoted(segments[0]) && segments[0].value != "" ==> segments[0].value[0] != '#')
    && (forall i :: 0 <= i < |segments| ==> CanShow(segments[i]))
    && (forall i :: 0 < i < |segments| ==> !(IsUnquoted(segments[i - 1]) && IsUnquoted(segments[i])))
  }

  function ShowSegments(segments: seq<Segment>): string {
    if segments == [] then "" else ShowSegment(segments[0]) + ShowSegments(segments[1..])
  }

  /** The loop has read these segments: all pushed, or the last still pending as a literal. */
  predicate HasRead(s: Scan, done: seq<Segment>) {
    || (s.piece.literal == "" && s.piece.segments == done)
    || (s.piece.literal != "" && done == s.piece.segments + [Literal(s.piece.literal, false)]
        && (s.piece.segments != [] ==> !IsUnquoted(s.piece.segments[|s.piece.segments| - 1])))
  }

  /** Pushing what is pending gives exactly what has been read. */
  lemma Flushed(s: Scan, done: seq<Segment>)
    requires HasRead(s, done)
    ensures PushLiteral(s.piece.segments, s.piece.literal, false) == done
    ensures BeforeExpansion(s.piece.segments, s.piece.literal, false) == done
  {
  }

  lemma {:induction false} PlainReads(input: string, s: Scan, text: string) returns (t: Scan)
    requires Reads(input, s.piece.cursor, text) && forall i :: 0 <= i < |text| ==> IsPlain(text[i])
    ensures t.piece == Piece(s.piece.segments, s.piece.literal + text, s.piece.cursor + |text|) && t.piece.cursor <= |input|
    ensures t.had == (text != "" || s.had) && t.last == (if text == "" then s.last else Some(text[|text| - 1]))
    ensures t.hasEquals == (s.hasEquals || '=' in text) && ScanWordFrom(input, s) == ScanWordFrom(input, t)
    decreases |text|
  {
    if text == "" {
      t := s;
      assert s.piece.literal + "" == s.piece.literal;
    } else {
      hide Reads;
      assert text == [text[0]] + text[1..];
      ReadsFirst(input, s.piece.cursor, text[0], text[1..]);
      var next := Plain(s, text[0]);
      assert WordStep(input, s) == Done(next);
      t := PlainReads(input, next, text[1..]);
      assert '=' in text <==> text[0] == '=' || '=' in text[1..];
      Rest(s.piece.literal, text);
    }
  }

  /** One double-quoted literal in the word's loop. */
  lemma QuoteStep(input: string, s: Scan, done: seq<Segment>, value: string) returns (t: Scan)
    requires HasRead(s, done) && Reads(input, s.piece.cursor, ShowDouble(value))
    ensures t.piece == Piece(PushLiteral(done, value, true), "", s.piece.cursor + |ShowDouble(value)|) && t.had
    ensures t.piece.cursor <= |input| && ScanWordFrom(input, s) == ScanWordFrom(input, t)
  {
    hide Reads, ShowDouble, HasRead, PushLiteral;
    Flushed(s, done);
    DoubleReads(input, s.piece.cursor, done, value);
    t := AfterQuote(s, Piece(PushLiteral(done, value, true), "", s.piece.cursor + |ShowDouble(value)|));
    assert WordStep(input, s) == Done(t);
  }

  lemma QuotedSegmentReads(input: string, s: Scan, done: seq<Segment>, value: string) returns (t: Scan)
    requires HasRead(s, done) && Reads(input, s.piece.cursor, ShowSegment(Literal(value, true)))
    ensures HasRead(t, done + [Literal(value, true)]) && t.had
    ensures t.piece.cursor == s.piece.cursor + |ShowSegment(Literal(value, true))| <= |input|
    ensures ScanWordFrom(input, s) == ScanWordFrom(input, t)
  {
    hide Reads, ShowDouble, ScanWordFrom;
    if value == "" {
      t := QuoteStep(input, s, done, "");
    } else {
      ReadsSplit(input, s.piece.cursor, ShowDouble(""), ShowDouble(value));
      var begun := QuoteStep(input, s, done, "");
      var apart := done + [Literal("", true)];
      t := QuoteStep(input, begun, apart, value);
      assert apart[..|done|] == done && "" + value == value;
    }
  }

  lemma ExpansionSegmentReads(input: string, s: Scan, done: seq<Segment>, name: string) returns (t: Scan)
    requires HasRead(s, done) && IsParameter(name) && Reads(input, s.piece.cursor, ShowSegment(Expansion(name, false)))
    ensures HasRead(t, done + [Expansion(name, false)]) && t.had
    ensures t.piece.cursor == s.piece.cursor + |ShowSegment(Expansion(name, false))| <= |input|
    ensures ScanWordFrom(input, s) == ScanWordFrom(input, t)
  {
    hide Reads, ScanExpansion, BeforeExpansion, IsParameter, Braced;
    Flushed(s, done);
    ParameterNamed(name);
    BracedParts(input, s.piece.cursor, name);
    BracedReads(input, s.piece.cursor, false, s.piece.segments, s.piece.literal, name);
    t := AfterQuote(s, Piece(done + [Expansion(name, false)], "", s.piece.cursor + |name| + 3));
    assert WordStep(input, s) == Done(t);
  }

  lemma ParameterNamed(name: string)
    requires IsParameter(name)
    ensures name != ""
  {
  }

  /** An expansion alone in double quotes. */
  lemma QuotedExpansionReads(input: string, s: Scan, done: seq<Segment>, name: string) returns (t: Scan)
    requires HasRead(s, done) && IsParameter(name) && Reads(input, s.piece.cursor, ShowSegment(Expansion(name, true)))
    ensures HasRead(t, done + [Expansion(name, true)]) && t.had
    ensures t.piece.cursor == s.piece.cursor + |ShowSegment(Expansion(name, true))| <= |input|
    ensures ScanWordFrom(input, s) == ScanWordFrom(input, t)
  {
    hide Reads, ScanDoubleQuoted, PushLiteral, IsParameter, Braced;
    var p := s.piece.cursor;
    Flushed(s, done);
    QuotesAround(input, p, Braced(name));
    QuotedExpansionScans(input, p, done, name);
    t := AfterQuote(s, Piece(done + [Expansion(name, true)], "", p + 5 + |name|));
    assert WordStep(input, s) == Done(t);
  }

  lemma QuotedExpansionScans(input: string, p: nat, done: seq<Segment>, name: string)
    requires IsParameter(name) && p + 5 + |name| <= |input| && input[p] == '"' && input[p + 4 + |name|] == '"'
    requires Reads(input, p + 1, Braced(name))
    ensures ScanDoubleQuoted(input, p, p + 1, false, "", done) == Done(Piece(done + [Expansion(name, true)], "", p + 5 + |name|))
  {
    hide Reads, ScanExpansion, ScanDoubleQuoted, PushLiteral, IsParameter, BeforeExpansion;
    var end, segments := p + 4 + |name|, done + [Expansion(name, true)];
    ParameterNamed(name);
    BracedParts(input, p + 1, name);
    BracedReads(input, p + 1, true, done, "", name);
    NothingBefore(done);
    assert ScanExpansion(input, p + 1, true, done, "") == Done(Piece(segments, "", end));
    DollarInQuotes(input, p, p + 1, done);
    QuoteCloses(input, p, end, true, "", segments);
  }

  lemma QuotesAround(input: string, p: nat, inner: string)
    requires Reads(input, p, "\"" + (inner + "\""))
    ensures p + 2 + |inner| <= |input| && input[p] == '"' && input[p + 1 + |inner|] == '"' && Reads(input, p + 1, inner)
  {
    ReadsFirst(input, p, '"', inner + "\"");
    ReadsSplit(input, p + 1, inner, "\"");
    assert "\"" == ['"'] + "";
    ReadsFirst(input, p + 1 + |inner|, '"', "");
  }

  lemma DollarInQuotes(input: string, quote: nat, p: nat, done: seq<Segment>)
    requires p < |input| && input[p] == '$' && ScanExpansion(input, p, true, done, "").Done?
    ensures var e := ScanExpansion(input, p, true, done, "").value;
      ScanDoubleQuoted(input, quote, p, false, "", done) == ScanDoubleQuoted(input, quote, e.cursor, true, e.literal, e.segments)
  {
    hide ScanExpansion;
  }

  lemma NothingBefore(done: seq<Segment>)
    ensures BeforeExpansion(done, "", true) == done
  {
  }

  lemma SegmentReads(input: string, s: Scan, done: seq<Segment>, seg: Segment) returns (t: Scan)
    requires HasRead(s, done) && CanShow(seg) && Reads(input, s.piece.cursor, ShowSegment(seg))
    requires IsUnquoted(seg) && done != [] ==> !IsUnquoted(done[|done| - 1])
    ensures HasRead(t, done + [seg]) && t.had
    ensures t.piece.cursor == s.piece.cursor + |ShowSegment(seg)| <= |input|
    ensures ScanWordFrom(input, s) == ScanWordFrom(input, t)
  {
    hide Reads, ScanWordFrom, ShowDouble, IsParameter;
    match seg
    case Literal(value, true) => t := QuotedSegmentReads(input, s, done, value);
    case Expansion(name, false) => t := ExpansionSegmentReads(input, s, done, name);
    case Expansion(name, true) => t := QuotedExpansionReads(input, s, done, name);
    case Literal(value, false) =>
      t := PlainReads(input, s, value);
      assert s.piece.literal == "" && "" + value == value;
  }

  lemma {:induction false} SegmentsRead(input: string, s: Scan, done: seq<Segment>, rest: seq<Segment>) returns (t: Scan)
    requires HasRead(s, done) && IsWritable(done + rest) && Reads(input, s.piece.cursor, ShowSegments(rest))
    ensures HasRead(t, done + rest) && (rest != [] || s.had ==> t.had)
    ensures t.piece.cursor == s.piece.cursor + |ShowSegments(rest)| <= |input|
    ensures ScanWordFrom(input, s) == ScanWordFrom(input, t)
    decreases |rest|
  {
    hide ScanWordFrom, ShowSegment, CanShow, HasRead;
    if rest == [] {
      t := s;
      assert done + rest == done;
    } else {
      var all := done + rest;
      assert all[|done|] == rest[0];
      assert done != [] ==> all[|done| - 1] == done[|done| - 1];
      ReadsSplit(input, s.piece.cursor, ShowSegment(rest[0]), ShowSegments(rest[1..]));
      hide Reads;
      var next := SegmentReads(input, s, done, rest[0]);
      assert done + [rest[0]] + rest[1..] == all;
      t := SegmentsRead(input, next, done + [rest[0]], rest[1..]);
    }
  }
}
