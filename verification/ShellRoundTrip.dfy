/** Quoting a list of strings for the shell and reading it back. */
module ShellRoundTrip {
  import opened Base
  import opened Shell
  import opened LexSpec
  import opened ParseSpec

  function Escape(s: string): string {
    if s == "" then "" else (if s[0] == '\'' then "'\\''" else [s[0]]) + Escape(s[1..])
  }

  /** Single quotes around the string, and `'\''` for each quote in it. */
  function Quote(s: string): string { "'" + Escape(s) + "'" }

  predicate NoQuote(s: string) { forall i :: 0 <= i < |s| ==> s[i] != '\'' }

  lemma {:induction false} EscapePlain(a: string, t: string)
    requires NoQuote(a)
    ensures Escape(a + t) == a + Escape(t)
  {
    if a == "" {
      assert a + t == t;
    } else {
      assert (a + t)[1..] == a[1..] + t;
      EscapePlain(a[1..], t);
      assert a == [a[0]] + a[1..];
    }
  }

  function FirstQuote(s: string): (k: nat)
    ensures k <= |s| && NoQuote(s[..k]) && (k < |s| ==> s[k] == '\'')
  {
    if s == "" || s[0] == '\'' then 0 else
    var k := FirstQuote(s[1..]);
    assert s[..k + 1] == [s[0]] + s[1..][..k];
    k + 1
  }

  lemma Assoc(a: string, b: string, c: string)
    ensures a + b + c == a + (b + c)
  {
  }

  lemma SplitAt(s: string, k: nat)
    requires k <= |s|
    ensures s == s[..k] + s[k..]
    ensures k < |s| ==> s[k..][0] == s[k] && s[k..][1..] == s[k + 1..]
  {
  }

  lemma Regroup(q: string, a: string, b: string, e: string)
    ensures q + (a + (q + b + q + e)) + q == (q + a + q) + (b + (q + e + q))
  {
    Assoc(q, a, q + b + q + e);
    Assoc(q + a, q + b + q + e, q);
    calc {
      q + b + q + e + q;
      { Assoc(q + b + q, e, q); Assoc(q + b, q, e + q); Assoc(q, e, q); }
      q + b + (q + e + q);
      { Assoc(q, b, q + e + q); }
      q + (b + (q + e + q));
    }
    Assoc(q + a, q, b + (q + e + q));
  }

  /** Up to its first quote a string is quoted as it is; from there the quote of the rest follows. */
  lemma QuoteSplits(s: string)
    ensures var k := FirstQuote(s); var a := s[..k];
      Quote(s) == if k == |s| then "'" + a + "'" else ("'" + a + "'") + ("\\'" + Quote(s[k + 1..]))
  {
    hide Escape, NoQuote;
    var k := FirstQuote(s);
    var a, t := s[..k], s[k..];
    SplitAt(s, k);
    EscapePlain(a, t);
    EscapeCases(t);
    if k < |s| {
      Regroup("'", a, "\\'", Escape(t[1..]));
    } else {
      assert Escape(s) == a + "" == a;
    }
  }

  lemma EscapeCases(t: string)
    ensures t == "" ==> Escape(t) == ""
    ensures t != "" && t[0] == '\'' ==> Escape(t) == "'" + "\\'" + "'" + Escape(t[1..])
  {
    assert "'\\''" == "'" + "\\'" + "'";
  }

  // ------------------------------------------------------------------- one word

  lemma {:induction false} TextAppend(a: seq<Segment>, b: seq<Segment>)
    ensures Text(a + b) == Text(a) + Text(b)
  {
    if a == [] {
      assert a + b == b;
    } else {
      assert (a + b)[1..] == a[1..] + b;
      TextAppend(a[1..], b);
    }
  }

  lemma TextLast(a: seq<Segment>, x: Segment)
    requires x.Literal?
    ensures Text(a + [x]) == Text(a) + x.value
  {
    TextAppend(a, [x]);
    assert Text([x]) == x.value + Text([]) == x.value;
  }

  /** Pushing a quoted literal adds its text, whether it joins the segment before it or not. */
  lemma PushQuoted(segments: seq<Segment>, literal: string)
    requires AllQuoted(segments)
    ensures var r := PushLiteral(segments, literal, true);
      r != [] && AllQuoted(r) && Text(r) == Text(segments) + literal
  {
    if literal != "" && segments != [] {
      var n := |segments| - 1;
      var before, last := segments[..n], segments[n];
      assert segments == before + [last];
      TextLast(before, last);
      TextLast(before, Literal(last.value + literal, true));
      Assoc(Text(before), last.value, literal);
    } else {
      TextLast(segments, Literal(literal, true));
    }
  }

  lemma {:induction false} SingleQuotedReads(input: string, quote: nat, p: nat, n: nat, literal: string, segments: seq<Segment>)
    requires p + n < |input| && input[p + n] == '\'' && NoQuote(input[p..p + n])
    ensures ScanSingleQuoted(input, quote, p, literal, segments)
      == Done(Piece(PushLiteral(segments, literal + input[p..p + n], true), "", p + n + 1))
    decreases n
  {
    if n == 0 {
      assert literal + input[p..p + n] == literal;
    } else {
      assert input[p..p + n][0] == input[p];
      assert input[p + 1..p + n] == input[p..p + n][1..];
      SingleQuotedReads(input, quote, p + 1, n - 1, literal + [input[p]], segments);
      assert literal + [input[p]] + input[p + 1..p + n] == literal + input[p..p + n];
    }
  }

  ghost predicate Reads(input: string, p: nat, s: string) {
    p + |s| <= |input| && input[p..p + |s|] == s
  }

  lemma ReadsSplit(input: string, p: nat, a: string, b: string)
    requires Reads(input, p, a + b)
    ensures Reads(input, p, a) && Reads(input, p + |a|, b)
  {
    assert input[p..p + |a|] == (a + b)[..|a|];
    assert input[p + |a|..p + |a| + |b|] == (a + b)[|a|..];
  }

  /** The loop's state after quoted text, with nothing unquoted pending. */
  ghost predicate InQuotes(s: Scan, text: string) {
    AllQuoted(s.piece.segments) && s.piece.literal == "" && Text(s.piece.segments) == text
  }

  /** One quoted run `'a'`. */
  lemma RunReads(input: string, s: Scan, text: string, a: string) returns (t: Scan)
    requires InQuotes(s, text) && NoQuote(a) && Reads(input, s.piece.cursor, "'" + a + "'")
    ensures InQuotes(t, text + a) && t.had && t.piece.segments != [] && t.piece.cursor == s.piece.cursor + |a| + 2 <= |input|
    ensures ScanWordFrom(input, s) == ScanWordFrom(input, t)
  {
    var p := s.piece.cursor;
    ReadsSplit(input, p, "'" + a, "'");
    ReadsSplit(input, p, "'", a);
    assert input[p] == input[p..p + 1][0] == '\'';
    assert input[p + 1 + |a|] == input[p + 1 + |a|..p + |a| + 2][0] == '\'';
    SingleQuotedReads(input, p, p + 1, |a|, "", s.piece.segments);
    assert "" + input[p + 1..p + 1 + |a|] == a;
    PushQuoted(s.piece.segments, a);
    t := AfterQuote(s, Piece(PushLiteral(s.piece.segments, a, true), "", p + |a| + 2));
    assert WordStep(input, s) == Done(t);
  }

  /** An escaped quote between two runs. */
  lemma EscapeReads(input: string, s: Scan, text: string) returns (t: Scan)
    requires InQuotes(s, text) && Reads(input, s.piece.cursor, "\\'")
    ensures InQuotes(t, text + "'") && t.piece.cursor == s.piece.cursor + 2 <= |input|
    ensures ScanWordFrom(input, s) == ScanWordFrom(input, t)
  {
    var p := s.piece.cursor;
    assert input[p] == input[p..p + 2][0] == '\\';
    assert input[p + 1] == input[p..p + 2][1] == '\'';
    PushQuoted(s.piece.segments, "'");
    t := AfterEscape(s, ScanEscape(input, p));
    assert WordStep(input, s) == Done(t);
  }

  lemma Rejoin(text: string, x: string, k: nat)
    requires k < |x| && x[k] == '\''
    ensures text + x[..k] + "'" + x[k + 1..] == text + x
  {
    assert x == x[..k] + "'" + x[k + 1..];
    Assoc(x[..k], "'", x[k + 1..]);
    Assoc(text, x[..k], "'");
    Assoc(text, x[..k] + "'", x[k + 1..]);
  }

  lemma {:induction false} WordReads(input: string, s: Scan, text: string, x: string) returns (t: Scan)
    requires InQuotes(s, text) && Reads(input, s.piece.cursor, Quote(x))
    ensures InQuotes(t, text + x) && t.had && t.piece.segments != [] && t.piece.cursor == s.piece.cursor + |Quote(x)| <= |input|
    ensures ScanWordFrom(input, s) == ScanWordFrom(input, t)
    decreases |x|
  {
    hide Quote, Reads, InQuotes, ScanWordFrom;
    QuoteSplits(x);
    var k := FirstQuote(x);
    var a := x[..k];
    var p := s.piece.cursor;
    if k == |x| {
      t := RunReads(input, s, text, a);
      assert a == x;
    } else {
      var rest := x[k + 1..];
      var run, tail := "'" + a + "'", "\\'" + Quote(rest);
      assert |Quote(x)| == |run| + 2 + |Quote(rest)|;
      ReadsSplit(input, p, run, tail);
      var s1 := RunReads(input, s, text, a);
      ReadsSplit(input, s1.piece.cursor, "\\'", Quote(rest));
      var s2 := EscapeReads(input, s1, text + a);
      t := WordReads(input, s2, text + a + "'", rest);
      Rejoin(text, x, k);
    }
  }

  // --------------------------------------------------------------------- a line

  predicate Blank(s: string) { forall i :: 0 <= i < |s| ==> IsBlank(s[i]) }

  /** Blanks around and between the words; between two words at least one. */
  predicate IsSpacing(gaps: seq<string>, n: nat) {
    && |gaps| == n + 1
    && (forall i :: 0 <= i <= n ==> Blank(gaps[i]))
    && (forall i :: 0 < i < n ==> gaps[i] != "")
  }

  function Line(xs: seq<string>, gaps: seq<string>): string
    requires |gaps| == |xs| + 1
  {
    if xs == [] then gaps[0] else gaps[0] + (Quote(xs[0]) + Line(xs[1..], gaps[1..]))
  }

  ghost predicate IsQuotedWord(w: Word, x: string) { w.segments != [] && AllQuoted(w.segments) && Text(w.segments) == x }

  ghost predicate QuotedWords(tokens: Tokens, xs: seq<string>) {
    |tokens| == |xs| && forall i :: 0 <= i < |xs| ==> tokens[i].kind.WordToken? && IsQuotedWord(tokens[i].kind.word, xs[i])
  }

  lemma {:induction false} BlanksSkipped(input: string, p: nat, n: nat)
    requires p + n <= |input| && Blank(input[p..p + n]) && (p + n < |input| ==> !IsBlank(input[p + n]))
    ensures SkipBlanks(input, p) == p + n
    decreases n
  {
    if n > 0 {
      assert input[p..p + n][0] == input[p];
      assert input[p + 1..p + n] == input[p..p + n][1..];
      BlanksSkipped(input, p + 1, n - 1);
    }
  }

  /** A quoted string at `p`, with a break or the end after it, is one word. */
  lemma QuotedTokenReads(input: string, p: nat, x: string) returns (w: Word)
    requires Reads(input, p, Quote(x))
    requires p + |Quote(x)| < |input| ==> IsWordBreak(input[p + |Quote(x)|])
    ensures IsQuotedWord(w, x) && p < |input| && input[p] == '\''
    ensures ScanToken(input, p) == Done((Some(WordToken(w)), p + |Quote(x)|))
  {
    assert input[p] == input[p..p + |Quote(x)|][0] == '\'';
    assert ScanRedirect(input, p) == Done(None);
    var t := WordReads(input, StartScan(p), "", x);
    assert "" + x == x;
    w := Word(t.piece.segments);
    hide WordStep, Quote;
    assert ScanWordFrom(input, t) == Done(t);
    assert ScanWord(input, p) == Done((Some(w), p + |Quote(x)|));
  }

  lemma LineStart(xs: seq<string>, gaps: seq<string>)
    requires IsSpacing(gaps, |xs|) && xs != []
    ensures IsSpacing(gaps[1..], |xs| - 1)
    ensures var rest := Line(xs[1..], gaps[1..]); rest != "" ==> IsBlank(rest[0])
  {
    var rest := Line(xs[1..], gaps[1..]);
    if |xs| > 1 {
      assert gaps[1] != "" && rest[0] == gaps[1][0];
    } else {
      assert rest == gaps[1];
    }
  }

  ghost predicate ReadsToEnd(input: string, p: nat, s: string) { Reads(input, p, s) && p + |s| == |input| }

  /** Past the blanks, the first word of a line, and the rest of the line after it. */
  lemma FirstWord(input: string, p: nat, xs: seq<string>, gaps: seq<string>) returns (q: nat, w: Word)
    requires xs != [] && IsSpacing(gaps, |xs|) && ReadsToEnd(input, p, Line(xs, gaps))
    ensures SkipBlanks(input, p) == q < |input| && !IsBlank(input[q]) && IsQuotedWord(w, xs[0])
    ensures ScanToken(input, q) == Done((Some(WordToken(w)), q + |Quote(xs[0])|))
    ensures IsSpacing(gaps[1..], |xs| - 1)
    ensures ReadsToEnd(input, q + |Quote(xs[0])|, Line(xs[1..], gaps[1..]))
  {
    hide Quote, ScanToken, IsQuotedWord;
    q := p + |gaps[0]|;
    var quote, rest := Quote(xs[0]), Line(xs[1..], gaps[1..]);
    LineStart(xs, gaps);
    ReadsSplit(input, p, gaps[0], quote + rest);
    ReadsSplit(input, q, quote, rest);
    assert q + |quote| < |input| ==> input[q + |quote|] == rest[0];
    w := QuotedTokenReads(input, q, xs[0]);
    BlanksSkipped(input, p, |gaps[0]|);
  }

  lemma LexStep(input: string, p: nat, tokens: Tokens, q: nat, w: Word, end: nat)
    requires p <= |input| && SkipBlanks(input, p) == q < |input| && !IsBlank(input[q])
    requires ScanToken(input, q) == Done((Some(WordToken(w)), end))
    ensures LexFrom(input, p, tokens) == LexFrom(input, end, tokens + [Token(WordToken(w), q)])
  {
  }

  lemma LexEnds(input: string, p: nat, tokens: Tokens, gap: string)
    requires Blank(gap) && ReadsToEnd(input, p, gap)
    ensures LexFrom(input, p, tokens) == Done(tokens)
  {
    BlanksSkipped(input, p, |gap|);
  }

  lemma {:induction false} LineReads(input: string, p: nat, tokens: Tokens, xs: seq<string>, gaps: seq<string>) returns (ts: Tokens)
    requires IsSpacing(gaps, |xs|) && ReadsToEnd(input, p, Line(xs, gaps))
    ensures LexFrom(input, p, tokens) == Done(tokens + ts) && QuotedWords(ts, xs)
    decreases |xs|
  {
    hide Quote, LexFrom, ScanToken, ReadsToEnd, IsQuotedWord, SkipBlanks;
    PastStart(input, p, Line(xs, gaps));
    if xs == [] {
      LexEnds(input, p, tokens, gaps[0]);
      ts := [];
      assert tokens + ts == tokens;
    } else {
      var q, w := FirstWord(input, p, xs, gaps);
      var t, end := Token(WordToken(w), q), q + |Quote(xs[0])|;
      LexStep(input, p, tokens, q, w, end);
      var more := LineReads(input, end, tokens + [t], xs[1..], gaps[1..]);
      ts := [t] + more;
      Assemble(tokens, t, more);
      assert forall i :: 0 < i < |xs| ==> ts[i] == more[i - 1] && xs[i] == xs[1..][i - 1];
    }
  }

  lemma PastStart(input: string, p: nat, s: string)
    requires ReadsToEnd(input, p, s)
    ensures p <= |input|
  {
  }

  lemma Assemble(tokens: Tokens, t: Token, more: Tokens)
    ensures tokens + [t] + more == tokens + ([t] + more)
    ensures Listed(Some(t.kind), t.position) == [t]
  {
  }

  // -------------------------------------------------------------------- parsing

  /** A quoted word is neither an assignment nor a negation. */
  lemma QuotedIsPlain(input: string, w: Word, x: string, p: nat)
    requires IsQuotedWord(w, x) && p <= |input|
    ensures AssignmentFromWord(input, w, p) == Done(None) && !IsNegation(WordToken(w))
  {
  }

  function WordsOf(tokens: Tokens): seq<Word>
    requires forall i :: 0 <= i < |tokens| ==> tokens[i].kind.WordToken?
  {
    seq(|tokens|, i requires 0 <= i < |tokens| => tokens[i].kind.word)
  }

  lemma {:induction false} CommandReads(input: string, tokens: Tokens, c: nat, xs: seq<string>, cmd: SimpleCommand)
    requires c <= |tokens| && InBounds(input, tokens) && QuotedWords(tokens, xs)
    requires cmd == SimpleCommand([], WordsOf(tokens)[..c], [])
    ensures CommandFrom(input, tokens, c, cmd) == Done((SimpleCommand([], WordsOf(tokens), []), |tokens|))
    decreases |tokens| - c
  {
    if c == |tokens| {
      assert WordsOf(tokens)[..c] == WordsOf(tokens);
    } else {
      QuotedIsPlain(input, tokens[c].kind.word, xs[c], tokens[c].position);
      var next := cmd.(words := cmd.words + [tokens[c].kind.word]);
      assert next.words == WordsOf(tokens)[..c + 1];
      assert cmd.words == [] ==> [tokens[c].kind.word] == next.words;
      assert WithWord(input, tokens, c, cmd) == Done(next);
      CommandReads(input, tokens, c + 1, xs, next);
    }
  }

  lemma TokensParse(input: string, tokens: Tokens, xs: seq<string>)
    requires InBounds(input, tokens) && QuotedWords(tokens, xs) && xs != []
    ensures var cmd := SimpleCommand([], WordsOf(tokens), []);
      ProgramFrom(input, tokens, SkipNewlines(tokens, 0), []) == Done(Program([AndOrList(Pipeline([cmd]), [])]))
  {
    var cmd := SimpleCommand([], WordsOf(tokens), []);
    QuotedIsPlain(input, tokens[0].kind.word, xs[0], tokens[0].position);
    assert WordsOf(tokens)[..0] == [];
    CommandReads(input, tokens, 0, xs, SimpleCommand([], [], []));
    hide CommandFrom;
    assert ParseCommand(input, tokens, 0) == Done((cmd, |tokens|));
    assert ParsePipeline(input, tokens, 0) == Done((Pipeline([cmd]), |tokens|));
    assert ParseAndOr(input, tokens, 0) == Done((AndOrList(Pipeline([cmd]), []), |tokens|));
    assert [] + [AndOrList(Pipeline([cmd]), [])] == [AndOrList(Pipeline([cmd]), [])];
  }

  /** Every non-empty list of strings, quoted and spaced with blanks, parses to one simple
      command whose words are the strings, quoted. */
  lemma QuotedLineParses(xs: seq<string>, gaps: seq<string>) returns (words: seq<Word>)
    requires xs != [] && IsSpacing(gaps, |xs|)
    ensures Parse(Line(xs, gaps)) == Done(Program([AndOrList(Pipeline([SimpleCommand([], words, [])]), [])]))
    ensures |words| == |xs| && forall i :: 0 <= i < |xs| ==> IsQuotedWord(words[i], xs[i])
  {
    hide Line, LexFrom, ProgramFrom;
    var input := Line(xs, gaps);
    assert input[0..|input|] == input;
    var ts := LineReads(input, 0, [], xs, gaps);
    assert [] + ts == ts;
    LexInBounds(input, 0, []);
    TokensParse(input, ts, xs);
    words := WordsOf(ts);
  }
}
