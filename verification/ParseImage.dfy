/** Every program that parsing gives can be written out again. */
module ParseImage {
  import opened Base
  import opened Shell
  import opened LexSpec
  import opened ParseSpec
  import opened ParseRoundTrip

  // ------------------------------------------------------------- what the lexer makes

  /** No unquoted literal is empty. */
  predicate Clean(segments: seq<Segment>) {
    forall i :: 0 <= i < |segments| ==> segments[i].Literal? && !segments[i].quoted ==> segments[i].value != ""
  }

  lemma PushClean(segments: seq<Segment>, literal: string, quoted: bool)
    requires Clean(segments)
    ensures Clean(PushLiteral(segments, literal, quoted))
  {
  }

  lemma {:induction false} SingleClean(input: string, quote: nat, p: nat, literal: string, segments: seq<Segment>)
    requires Clean(segments) && p <= |input|
    ensures var r := ScanSingleQuoted(input, quote, p, literal, segments); r.Done? ==> Clean(r.value.segments)
    decreases |input| - p
  {
    hide Clean, PushLiteral;
    PushClean(segments, literal, true);
    if p < |input| { SingleClean(input, quote, p + 1, literal + [input[p]], segments); }
  }

  lemma ExpandsClean(segments: seq<Segment>, literal: string, name: string, quoted: bool)
    requires Clean(segments)
    ensures Clean(BeforeExpansion(segments, literal, quoted) + [Expansion(name, quoted)])
  {
    hide PushLiteral;
    PushClean(segments, literal, quoted);
  }

  lemma ExpansionClean(input: string, p: nat, quoted: bool, segments: seq<Segment>, literal: string)
    requires Clean(segments) && p < |input|
    ensures var r := ScanExpansion(input, p, quoted, segments, literal); r.Done? ==> Clean(r.value.segments)
  {
    hide Clean;
    forall name ensures Clean(BeforeExpansion(segments, literal, quoted) + [Expansion(name, quoted)]) {
      ExpandsClean(segments, literal, name, quoted);
    }
  }

  lemma {:induction false} DoubleClean(input: string, quote: nat, p: nat, had: bool, literal: string, segments: seq<Segment>)
    requires Clean(segments) && p <= |input|
    ensures var r := ScanDoubleQuoted(input, quote, p, had, literal, segments); r.Done? ==> Clean(r.value.segments)
    decreases |input| - p
  {
    hide Clean, PushLiteral, ScanExpansion, ScanQuotedEscape;
    PushClean(segments, literal, true);
    if p < |input| && input[p] == '\\' {
      var e := ScanQuotedEscape(input, p, literal);
      if e.Done? { DoubleClean(input, quote, e.value.1, had || |e.value.0| != |literal|, e.value.0, segments); }
    } else if p < |input| && input[p] == '$' {
      ExpansionClean(input, p, true, segments, literal);
      var e := ScanExpansion(input, p, true, segments, literal);
      if e.Done? { DoubleClean(input, quote, e.value.cursor, true, e.value.literal, e.value.segments); }
    } else if p < |input| && input[p] != '"' && input[p] != '`' {
      DoubleClean(input, quote, p + 1, true, literal + [input[p]], segments);
    }
  }

  lemma StepClean(input: string, s: Scan)
    requires Clean(s.piece.segments) && s.piece.cursor < |input|
    ensures var r := WordStep(input, s); r.Done? ==> Clean(r.value.piece.segments)
  {
    hide Clean, PushLiteral, ScanSingleQuoted, ScanDoubleQuoted, ScanExpansion, ClosesBracket;
    var p, before := s.piece.cursor, PushLiteral(s.piece.segments, s.piece.literal, false);
    PushClean(s.piece.segments, s.piece.literal, false);
    SingleClean(input, p, p + 1, "", before);
    DoubleClean(input, p, p + 1, false, "", before);
    ExpansionClean(input, p, false, s.piece.segments, s.piece.literal);
    var e := ScanEscape(input, p);
    if e.1.Some? { PushClean(before, [e.1.value], true); }
  }

  lemma {:induction false} WordClean(input: string, s: Scan)
    requires Clean(s.piece.segments) && s.piece.cursor <= |input|
    ensures var r := ScanWordFrom(input, s); r.Done? ==> Clean(r.value.piece.segments)
    decreases |input| - s.piece.cursor
  {
    hide Clean, WordStep;
    if s.piece.cursor < |input| && !IsWordBreak(input[s.piece.cursor]) {
      StepClean(input, s);
      var t := WordStep(input, s);
      if t.Done? { WordClean(input, t.value); }
    }
  }

  predicate CleanKind(k: TokenKind) { k.WordToken? ==> Clean(k.word.segments) }

  lemma TokenClean(input: string, p: nat)
    requires p < |input| && !IsBlank(input[p])
    ensures var r := ScanToken(input, p); r.Done? && r.value.0.Some? ==> CleanKind(r.value.0.value)
  {
    hide Clean, ScanWordFrom, ScanRedirect, PushLiteral;
    assert Clean([]) by { NothingClean(); }
    WordClean(input, StartScan(p));
    var s := ScanWordFrom(input, StartScan(p));
    if s.Done? { PushClean(s.value.piece.segments, s.value.piece.literal, false); }
  }

  lemma NothingClean()
    ensures Clean([])
  {
  }

  ghost predicate CleanTokens(tokens: Tokens) { forall i :: 0 <= i < |tokens| ==> CleanKind(tokens[i].kind) }

  lemma {:induction false} LexClean(input: string, p: nat, tokens: Tokens)
    requires p <= |input| && CleanTokens(tokens)
    ensures LexFrom(input, p, tokens).Done? ==> CleanTokens(LexFrom(input, p, tokens).value)
    decreases |input| - p
  {
    hide CleanKind, ScanToken;
    var q := SkipBlanks(input, p);
    if q < |input| && !IsBlank(input[q]) {
      TokenClean(input, q);
      var t := ScanToken(input, q);
      if t.Done? { LexClean(input, t.value.1, tokens + Listed(t.value.0, q)); }
    }
  }

  // ------------------------------------------------------------ what the parser makes

  lemma AssignmentIs(input: string, w: Word, p: nat)
    requires Clean(w.segments) && p <= |input|
    ensures var r := AssignmentFromWord(input, w, p);
      && (r.Done? && r.value.Some? ==> IsAssignment(r.value.value))
      && (r == Done(None) ==> IsPlainWord(w))
  {
    hide FindAppend, FindEquals, SourcePosition;
  }

  /** A command under construction. */
  ghost predicate Building(cmd: SimpleCommand) {
    && (forall i :: 0 <= i < |cmd.assignments| ==> IsAssignment(cmd.assignments[i]))
    && (cmd.words != [] ==> IsPlainWord(cmd.words[0]))
  }

  /** What more tokens do to it. */
  ghost predicate Grows(cmd: SimpleCommand, cmd': SimpleCommand) {
    && |cmd.assignments| <= |cmd'.assignments| && |cmd.redirects| <= |cmd'.redirects|
    && |cmd.words| <= |cmd'.words| && (cmd.words != [] ==> cmd'.words[0] == cmd.words[0])
  }

  lemma WordBuilds(input: string, tokens: Tokens, c: nat, cmd: SimpleCommand)
    requires c < |tokens| && tokens[c].kind.WordToken? && InBounds(input, tokens) && CleanTokens(tokens) && Building(cmd)
    ensures var r := WithWord(input, tokens, c, cmd);
      && (r.Done? ==> Building(r.value) && Grows(cmd, r.value))
      && (r.Done? ==> |r.value.assignments| > |cmd.assignments| || |r.value.words| > |cmd.words|)
      && (r.Done? && cmd.words == [] && r.value.words != [] ==> r.value.words == [tokens[c].kind.word])
  {
    hide AssignmentFromWord, IsAssignment, IsPlainWord;
    assert CleanKind(tokens[c].kind);
    AssignmentIs(input, tokens[c].kind.word, tokens[c].position);
  }

  lemma {:induction false} CommandBuilds(input: string, tokens: Tokens, c: nat, cmd: SimpleCommand)
    requires c <= |tokens| && InBounds(input, tokens) && CleanTokens(tokens) && Building(cmd)
    ensures var r := CommandFrom(input, tokens, c, cmd); r.Done? ==> Building(r.value.0) && Grows(cmd, r.value.0)
    decreases |tokens| - c
  {
    hide WithWord, ParseRedirect, Building, CleanTokens;
    if StartsCommand(tokens, c) {
      if tokens[c].kind.WordToken? {
        WordBuilds(input, tokens, c, cmd);
        var w := WithWord(input, tokens, c, cmd);
        if w.Done? { CommandBuilds(input, tokens, c + 1, w.value); }
      } else {
        var r := ParseRedirect(tokens, c + 1, tokens[c].kind.redirect);
        if r.Done? {
          RedirectBuilds(cmd, r.value.0);
          CommandBuilds(input, tokens, r.value.1, cmd.(redirects := cmd.redirects + [r.value.0]));
        }
      }
    }
  }

  lemma RedirectBuilds(cmd: SimpleCommand, r: Redirect)
    requires Building(cmd)
    ensures Building(cmd.(redirects := cmd.redirects + [r]))
  {
  }

  lemma CommandIs(input: string, tokens: Tokens, c: nat)
    requires c <= |tokens| && InBounds(input, tokens) && CleanTokens(tokens)
    ensures var r := ParseCommand(input, tokens, c); r.Done? ==> IsCommand(r.value.0)
  {
    hide WithWord, ParseRedirect, CleanTokens, IsAssignment, IsPlainWord;
    var empty := SimpleCommand([], [], []);
    if StartsCommand(tokens, c) && !IsNegation(tokens[c].kind) {
      CommandBuilds(input, tokens, c, empty);
      if tokens[c].kind.WordToken? {
        WordBuilds(input, tokens, c, empty);
        var w := WithWord(input, tokens, c, empty);
        if w.Done? { CommandBuilds(input, tokens, c + 1, w.value); }
      } else {
        var r := ParseRedirect(tokens, c + 1, tokens[c].kind.redirect);
        if r.Done? { CommandBuilds(input, tokens, r.value.1, empty.(redirects := [] + [r.value.0])); }
      }
    }
  }

  lemma {:induction false} PipedAre(input: string, tokens: Tokens, c: nat, commands: seq<SimpleCommand>)
    requires c <= |tokens| && InBounds(input, tokens) && CleanTokens(tokens)
    requires commands != [] && forall i :: 0 <= i < |commands| ==> IsCommand(commands[i])
    ensures var r := PipelineFrom(input, tokens, c, commands); r.Done? ==> IsPipeline(r.value.0)
    decreases |tokens| - c
  {
    hide IsCommand, ParseCommand, CleanTokens;
    if IsAt(tokens, c, Pipe) {
      var next := SkipNewlines(tokens, c + 1);
      CommandIs(input, tokens, next);
      var cmd := ParseCommand(input, tokens, next);
      if cmd.Done? { PipedAre(input, tokens, cmd.value.1, commands + [cmd.value.0]); }
    }
  }

  lemma PipelineIs(input: string, tokens: Tokens, c: nat)
    requires c <= |tokens| && InBounds(input, tokens) && CleanTokens(tokens)
    ensures var r := ParsePipeline(input, tokens, c); r.Done? ==> IsPipeline(r.value.0)
  {
    hide IsCommand, ParseCommand, CleanTokens, PipelineFrom;
    CommandIs(input, tokens, c);
    var first := ParseCommand(input, tokens, c);
    if first.Done? { PipedAre(input, tokens, first.value.1, [first.value.0]); }
  }

  lemma {:induction false} RestIs(input: string, tokens: Tokens, c: nat, list: AndOrList)
    requires c <= |tokens| && InBounds(input, tokens) && CleanTokens(tokens) && IsList(list)
    ensures var r := AndOrFrom(input, tokens, c, list); r.Done? ==> IsList(r.value.0)
    decreases |tokens| - c
  {
    hide IsPipeline, ParsePipeline, CleanTokens;
    if IsAt(tokens, c, AndIf) || IsAt(tokens, c, OrIf) {
      var op, next := if IsAt(tokens, c, AndIf) then And else Or, SkipNewlines(tokens, c + 1);
      PipelineIs(input, tokens, next);
      var p := ParsePipeline(input, tokens, next);
      if p.Done? { RestIs(input, tokens, p.value.1, list.(rest := list.rest + [AndOr(op, p.value.0)])); }
    }
  }

  lemma ListIs(input: string, tokens: Tokens, c: nat)
    requires c <= |tokens| && InBounds(input, tokens) && CleanTokens(tokens)
    ensures var r := ParseAndOr(input, tokens, c); r.Done? ==> IsList(r.value.0)
  {
    hide IsPipeline, ParsePipeline, CleanTokens, AndOrFrom;
    PipelineIs(input, tokens, c);
    var first := ParsePipeline(input, tokens, c);
    if first.Done? { RestIs(input, tokens, first.value.1, AndOrList(first.value.0, [])); }
  }

  ghost predicate IsProgram(p: Program) { forall i :: 0 <= i < |p.lists| ==> IsList(p.lists[i]) }

  lemma {:induction false} ProgramIs(input: string, tokens: Tokens, c: nat, lists: seq<AndOrList>)
    requires c <= |tokens| && InBounds(input, tokens) && CleanTokens(tokens) && IsProgram(Program(lists))
    ensures var r := ProgramFrom(input, tokens, c, lists); r.Done? ==> IsProgram(r.value)
    decreases |tokens| - c
  {
    hide IsList, ParseAndOr, CleanTokens;
    if c < |tokens| {
      ListIs(input, tokens, c);
      var list := ParseAndOr(input, tokens, c);
      if list.Done? {
        var next := list.value.1;
        if IsAt(tokens, next, Semi) || IsAt(tokens, next, Newline) {
          ProgramIs(input, tokens, SkipNewlines(tokens, next + 1), lists + [list.value.0]);
        }
      }
    }
  }

  /** Parse any text, write the program out as tokens, parse those: it is the same program. */
  lemma Reparses(text: string, program: Program, input: string, tokens: Tokens, blank: nat, layout: Layout)
    requires Parse(text) == Done(program) && InBounds(input, tokens)
    requires |tokens| == |PrintProgram(program, blank, layout)| && Begins(tokens, 0, PrintProgram(program, blank, layout))
    ensures ProgramFrom(input, tokens, SkipNewlines(tokens, 0), []) == Done(program)
  {
    hide ProgramFrom, LexFrom, PrintProgram, IsList;
    LexInBounds(text, 0, []);
    LexClean(text, 0, []);
    var read := Lex(text).value;
    ProgramIs(text, read, SkipNewlines(read, 0), []);
    PrintParses(input, tokens, program, blank, layout);
  }
}
