/** Whole programs written as text and parsed again. */
module ShellShow {
  import opened Base
  import opened Shell
  import opened LexSpec
  import opened ParseSpec
  import opened ParseRoundTrip
  import opened ParseImage
  import opened ShellRoundTrip
  import opened ShellText
  import ExpandSpec
  import ExpandMeaning

  function ShowKind(k: TokenKind): string {
    match k
    case WordToken(word) => ShowSegments(word.segments)
    case RedirectKind(r) => ShowRedirect(r)
    case Pipe => "|"
    case AndIf => "&&"
    case OrIf => "||"
    case Semi => ";"
    case Newline => "\n"
  }

  predicate CanShowKind(k: TokenKind) {
    match k
    case WordToken(word) => IsWritable(word.segments)
    case RedirectKind(r) => IsRedirect(r)
    case _ => true
  }

  /** Tokens with a blank after each. */
  function ShowKinds(kinds: Kinds): string {
    if kinds == [] then "" else ShowKind(kinds[0]) + (" " + ShowKinds(kinds[1..]))
  }

  // ---------------------------------------------------------------------- one token

  /** Digits that no operator follows are no descriptor. */
  lemma NotRedirect(input: string, p: nat, m: nat)
    requires p + m < |input| && !IsDigit(input[p + m]) && forall i :: p <= i <= p + m ==> input[i] != '<' && input[i] != '>'
    ensures ScanRedirect(input, p) == Done(None)
  {
    DigitsStop(input, p, p + m);
  }

  lemma {:induction false} DigitsStop(input: string, p: nat, q: nat)
    requires p <= q < |input| && !IsDigit(input[q])
    ensures DigitsEnd(input, p) <= q
    decreases q - p
  {
    if p < q && IsDigit(input[p]) { DigitsStop(input, p + 1, q); }
  }

  /** How a written segment begins. */
  lemma SegmentStarts(s: Segment)
    requires CanShow(s)
    ensures ShowSegment(s) != ""
    ensures !IsUnquoted(s) ==> ShowSegment(s)[0] == '"' || ShowSegment(s)[0] == '$'
  {
  }

  /** What follows the plain text at the start of a word is no digit and no operator. */
  lemma WordStarts(input: string, p: nat, segments: seq<Segment>) returns (m: nat)
    requires IsWritable(segments) && Reads(input, p, ShowSegments(segments))
    requires p + |ShowSegments(segments)| < |input| && input[p + |ShowSegments(segments)|] == ' '
    ensures p + m < |input| && !IsDigit(input[p + m]) && forall i :: p <= i <= p + m ==> input[i] != '<' && input[i] != '>'
    ensures (IsPlain(input[p]) && input[p] != '#') || input[p] == '"' || input[p] == '$'
  {
    hide Reads, ShowSegment, CanShow;
    var first, rest := ShowSegment(segments[0]), ShowSegments(segments[1..]);
    SegmentStarts(segments[0]);
    ReadsSplit(input, p, first, rest);
    FirstRead(input, p, first);
    m := 0;
    if IsUnquoted(segments[0]) {
      m := |first|;
      PlainStart(input, p, segments[0]);
      if |segments| > 1 {
        assert !(IsUnquoted(segments[1 - 1]) && IsUnquoted(segments[1]));
        SegmentStarts(segments[1]);
        FirstRead(input, p + m, rest);
      }
    }
  }

  lemma PlainStart(input: string, p: nat, s: Segment)
    requires IsUnquoted(s) && CanShow(s) && Reads(input, p, ShowSegment(s))
    ensures ShowSegment(s) == s.value != "" && p + |s.value| <= |input|
    ensures forall i :: p <= i < p + |ShowSegment(s)| ==> IsPlain(input[i])
  {
    forall i | p <= i < p + |s.value| ensures IsPlain(input[i]) {
      assert input[i] == input[p..p + |s.value|][i - p];
    }
  }

  lemma WordTokenReads(input: string, p: nat, w: Word)
    requires IsWritable(w.segments) && Reads(input, p, ShowSegments(w.segments))
    requires p + |ShowSegments(w.segments)| < |input| && input[p + |ShowSegments(w.segments)|] == ' '
    ensures p < |input| && !IsBlank(input[p])
    ensures ScanToken(input, p) == Done((Some(WordToken(w)), p + |ShowSegments(w.segments)|))
  {
    hide Reads, ShowSegments, IsWritable, ScanRedirect, ScanWord, ScanToken;
    var m := WordStarts(input, p, w.segments);
    NotRedirect(input, p, m);
    WordScans(input, p, w);
    WordTokenIs(input, p, w, p + |ShowSegments(w.segments)|);
  }

  lemma WordTokenIs(input: string, p: nat, w: Word, end: nat)
    requires p < |input| && ((IsPlain(input[p]) && input[p] != '#') || input[p] == '"' || input[p] == '$')
    requires ScanRedirect(input, p) == Done(None) && ScanWord(input, p) == Done((Some(w), end))
    ensures !IsBlank(input[p]) && ScanToken(input, p) == Done((Some(WordToken(w)), end))
  {
    hide ScanRedirect, ScanWord;
  }

  lemma WordScans(input: string, p: nat, w: Word)
    requires IsWritable(w.segments) && Reads(input, p, ShowSegments(w.segments))
    requires p + |ShowSegments(w.segments)| < |input| && input[p + |ShowSegments(w.segments)|] == ' '
    requires p < |input| && !IsWordBreak(input[p])
    ensures ScanWord(input, p) == Done((Some(w), p + |ShowSegments(w.segments)|))
  {
    hide Reads, ShowSegments, IsWritable, HasRead, ScanWordFrom, PushLiteral;
    assert [] + w.segments == w.segments;
    StartsEmpty(p);
    var t := SegmentsRead(input, StartScan(p), [], w.segments);
    WritableSome(w.segments);
    Flushed(t, w.segments);
    WordEnds(input, t);
  }

  lemma StartsEmpty(p: nat)
    ensures HasRead(StartScan(p), [])
  {
  }

  lemma WritableSome(segments: seq<Segment>)
    requires IsWritable(segments)
    ensures segments != []
  {
  }

  lemma WordEnds(input: string, t: Scan)
    requires t.piece.cursor < |input| && input[t.piece.cursor] == ' '
    ensures ScanWordFrom(input, t) == Done(t)
  {
  }

  /** Every token written with a blank after it is read as itself. */
  lemma KindReads(input: string, p: nat, k: TokenKind)
    requires CanShowKind(k) && Reads(input, p, ShowKind(k))
    requires p + |ShowKind(k)| < |input| && input[p + |ShowKind(k)|] == ' '
    ensures p < |input| && !IsBlank(input[p])
    ensures ScanToken(input, p) == Done((Some(k), p + |ShowKind(k)|))
  {
    match k
    case WordToken(w) => WordTokenReads(input, p, w);
    case RedirectKind(r) => RedirectTokenReads(input, p, r);
    case _ => SignReads(input, p, k);
  }

  lemma RedirectTokenReads(input: string, p: nat, r: RedirectToken)
    requires IsRedirect(r) && Reads(input, p, ShowRedirect(r))
    requires p + |ShowRedirect(r)| < |input| && input[p + |ShowRedirect(r)|] == ' '
    ensures p < |input| && !IsBlank(input[p])
    ensures ScanToken(input, p) == Done((Some(RedirectKind(r)), p + |ShowRedirect(r)|))
  {
    hide Reads, ShowRedirect, ScanRedirect;
    RedirectReads(input, p, r);
    RedirectStarts(input, p, r);
  }

  lemma RedirectStarts(input: string, p: nat, r: RedirectToken)
    requires Reads(input, p, ShowRedirect(r))
    ensures p < |input| && (IsDigit(input[p]) || input[p] == '<' || input[p] == '>')
  {
    hide Reads, ExpandSpec.Digits;
    RedirectParts(input, p, r);
    if r.fd.Some? {
      ExpandMeaning.DigitsAre(r.fd.value);
      FirstRead(input, p, ShowFd(r.fd));
    } else {
      FirstRead(input, p, ShowOp(r.op));
    }
  }

  lemma FirstRead(input: string, p: nat, s: string)
    requires s != "" && Reads(input, p, s)
    ensures p < |input| && input[p] == s[0]
  {
    assert input[p..p + |s|][0] == s[0];
  }

  lemma SignReads(input: string, p: nat, k: TokenKind)
    requires !k.WordToken? && !k.RedirectKind? && Reads(input, p, ShowKind(k))
    requires p + |ShowKind(k)| < |input| && input[p + |ShowKind(k)|] == ' '
    ensures p < |input| && !IsBlank(input[p])
    ensures ScanToken(input, p) == Done((Some(k), p + |ShowKind(k)|))
  {
    FirstRead(input, p, ShowKind(k));
    if k.AndIf? || k.OrIf? { assert input[p + 1] == input[p..p + 2][1]; }
    NotRedirect(input, p, 0);
  }

  // --------------------------------------------------------------------- all tokens

  ghost predicate AreKinds(tokens: Tokens, kinds: Kinds) {
    |tokens| == |kinds| && forall i :: 0 <= i < |kinds| ==> tokens[i].kind == kinds[i]
  }

  lemma {:induction false} KindsRead(input: string, p: nat, tokens: Tokens, kinds: Kinds) returns (ts: Tokens)
    requires p <= |input| && (forall i :: 0 <= i < |kinds| ==> CanShowKind(kinds[i])) && ReadsToEnd(input, p, ShowKinds(kinds))
    ensures LexFrom(input, p, tokens) == Done(tokens + ts) && AreKinds(ts, kinds)
    decreases |kinds|
  {
    hide LexFrom, ScanToken, ShowKind, CanShowKind, Reads, ReadsToEnd;
    if kinds == [] {
      LexEnds(input, p, tokens, "");
      ts := [];
      assert tokens + ts == tokens;
    } else {
      var k, first := kinds[0], ShowKind(kinds[0]);
      TokenThenRest(input, p, first, ShowKinds(kinds[1..]));
      KindReads(input, p, k);
      var t, end := Token(k, p), p + |first|;
      KindStep(input, p, tokens, k, end);
      BlankSkipped(input, end, tokens + [t]);
      var more := KindsRead(input, end + 1, tokens + [t], kinds[1..]);
      ts := [t] + more;
      Assemble(tokens, t, more);
    }
  }

  lemma TokenThenRest(input: string, p: nat, first: string, rest: string)
    requires ReadsToEnd(input, p, first + (" " + rest))
    ensures Reads(input, p, first) && p + |first| < |input| && input[p + |first|] == ' '
    ensures ReadsToEnd(input, p + |first| + 1, rest)
  {
    ReadsSplit(input, p, first, " " + rest);
    ReadsFirst(input, p + |first|, ' ', rest);
  }

  lemma KindStep(input: string, p: nat, tokens: Tokens, k: TokenKind, end: nat)
    requires p < |input| && !IsBlank(input[p]) && ScanToken(input, p) == Done((Some(k), end))
    ensures LexFrom(input, p, tokens) == LexFrom(input, end, tokens + [Token(k, p)])
  {
  }

  lemma BlankSkipped(input: string, p: nat, tokens: Tokens)
    requires p < |input| && IsBlank(input[p])
    ensures LexFrom(input, p, tokens) == LexFrom(input, p + 1, tokens)
  {
  }

  /** Lexing what tokens are written as gives the tokens. */
  lemma ShowLexes(kinds: Kinds) returns (ts: Tokens)
    requires forall i :: 0 <= i < |kinds| ==> CanShowKind(kinds[i])
    ensures Lex(ShowKinds(kinds)) == Done(ts) && AreKinds(ts, kinds)
  {
    hide LexFrom, ShowKinds, CanShowKind;
    var input := ShowKinds(kinds);
    assert input[0..|input|] == input;
    ts := KindsRead(input, 0, [], kinds);
    assert [] + ts == ts;
  }

  // ---------------------------------------------------------------------- programs

  /** A program as text. */
  function Show(program: Program, blank: nat, layout: Layout): string { ShowKinds(PrintProgram(program, blank, layout)) }

  /** Its words are of quoted literals, expansions and plain text, its descriptors 32-bit. */
  ghost predicate CanShowProgram(program: Program, blank: nat, layout: Layout) {
    var kinds := PrintProgram(program, blank, layout);
    forall i :: 0 <= i < |kinds| ==> CanShowKind(kinds[i])
  }

  /** A program written as text is parsed as itself, however it is laid out. */
  lemma ShowParses(program: Program, blank: nat, layout: Layout)
    requires IsProgram(program) && CanShowProgram(program, blank, layout)
    ensures Parse(Show(program, blank, layout)) == Done(program)
  {
    hide LexFrom, ShowKinds, CanShowKind, ProgramFrom, PrintProgram, IsList;
    var input := Show(program, blank, layout);
    var ts := ShowLexes(PrintProgram(program, blank, layout));
    LexInBounds(input, 0, []);
    assert Begins(ts, 0, PrintProgram(program, blank, layout));
    PrintParses(input, ts, program, blank, layout);
  }

  /** Parse any text, write the program as text, parse that: it is the same program. */
  lemma TextReparses(text: string, program: Program, blank: nat, layout: Layout)
    requires Parse(text) == Done(program) && CanShowProgram(program, blank, layout)
    ensures Parse(Show(program, blank, layout)) == Done(program)
  {
    hide LexFrom, ShowKinds, CanShowKind, ProgramFrom, PrintProgram, IsList, CanShowProgram;
    LexInBounds(text, 0, []);
    LexClean(text, 0, []);
    var read := Lex(text).value;
    ProgramIs(text, read, SkipNewlines(read, 0), []);
    ShowParses(program, blank, layout);
  }
}
