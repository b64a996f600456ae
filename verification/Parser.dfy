/** The parser, which advances a cursor over its tokens: src/shell/parse.rs. */
module Parser {
  import opened Base
  import opened Shell
  import opened LexSpec
  import opened ParseSpec
  import Lexer

  method FindSource(input: string, position: nat, target: nat) returns (p: nat)
    requires position <= |input|
    ensures p == SourcePosition(input, position, 0, target)
  {
    p := position;
    var literal := 0;
    while p < |input|
      invariant p <= |input| && SourcePosition(input, p, literal, target) == SourcePosition(input, position, 0, target)
      decreases |input| - p
    {
      if literal == target || IsWordBreak(input[p]) { return; }
      if input[p] == '\\' && At(input, p + 1, '\n') { p := p + 2; } else { p, literal := p + 1, literal + 1; }
    }
  }

  method AssignmentOf(input: string, word: Word, position: nat) returns (r: Parsed<Option<Assignment>>)
    requires position <= |input|
    ensures r == AssignmentFromWord(input, word, position)
  {
    if word.segments == [] || !word.segments[0].Literal? || word.segments[0].quoted { return Done(None); }
    var value := word.segments[0].value;
    var append := FindAppend(value);
    if append < |value| && IsAssignmentName(value[..append]) {
      var at := FindSource(input, position, append);
      return Refuse(at, AppendAssignment);
    }
    var equals := FindEquals(value);
    if equals == |value| || !IsAssignmentName(value[..equals]) { return Done(None); }
    var segments := if equals + 1 < |value| then [Literal(value[equals + 1..], false)] else [];
    r := Done(Some(Assignment(value[..equals], Word(segments + word.segments[1..]))));
  }

  class Cursor {
    const input: string
    const tokens: Tokens
    var at: nat

    predicate Valid()
      reads this
    {
      at <= |tokens| && InBounds(input, tokens)
    }

    constructor (input: string, tokens: Tokens)
      requires InBounds(input, tokens)
      ensures Valid() && this.input == input && this.tokens == tokens && at == 0
    {
      this.input, this.tokens, at := input, tokens, 0;
    }

    method ConsumeIf(kind: TokenKind) returns (consumed: bool)
      requires Valid()
      modifies this
      ensures Valid() && consumed == IsAt(tokens, old(at), kind) && at == old(at) + if consumed then 1 else 0
    {
      consumed := IsAt(tokens, at, kind);
      if consumed { at := at + 1; }
    }

    method ConsumeNewlines()
      requires Valid()
      modifies this
      ensures Valid() && at == SkipNewlines(tokens, old(at))
    {
      var more := true;
      while more
        invariant Valid() && SkipNewlines(tokens, at) == SkipNewlines(tokens, old(at))
        invariant !more ==> !IsAt(tokens, at, Newline)
        decreases |tokens| - at, more
      {
        more := ConsumeIf(Newline);
      }
    }

    /** The command at the cursor; past it on success. */
    method ParseCommand() returns (r: Parsed<SimpleCommand>)
      requires Valid()
      modifies this
      ensures Valid() && Agrees(r, ParseSpec.ParseCommand(input, tokens, old(at)), at)
    {
      if !StartsCommand(tokens, at) { return Unexpected(input, tokens, at); }
      if IsNegation(tokens[at].kind) { return Refuse(tokens[at].position, PipelineNegation); }
      var cmd := SimpleCommand([], [], []);
      while StartsCommand(tokens, at)
        invariant Valid() && CommandFrom(input, tokens, at, cmd) == CommandFrom(input, tokens, old(at), SimpleCommand([], [], []))
        decreases |tokens| - at
      {
        if tokens[at].kind.WordToken? {
          var word, a := tokens[at].kind.word, Done(None);
          if cmd.words == [] { a := AssignmentOf(input, word, tokens[at].position); }
          if a.Fail? { return Fail(a.error); }
          if a.value.Some? {
            cmd := cmd.(assignments := cmd.assignments + [a.value.value]);
          } else {
            assert [] + [word] == [word];
            cmd := cmd.(words := cmd.words + [word]);
          }
          at := at + 1;
        } else {
          var redirect := ParseRedirect(tokens, at + 1, tokens[at].kind.redirect);
          if redirect.Fail? { return Fail(redirect.error); }
          cmd, at := cmd.(redirects := cmd.redirects + [redirect.value.0]), redirect.value.1;
        }
      }
      r := Done(cmd);
    }

    method ParsePipeline() returns (r: Parsed<Pipeline>)
      requires Valid()
      modifies this
      ensures Valid() && Agrees(r, ParseSpec.ParsePipeline(input, tokens, old(at)), at)
    {
      hide ParseSpec.ParseCommand;
      var first := ParseCommand();
      if first.Fail? { return Fail(first.error); }
      var commands := [first.value];
      var piped := ConsumeIf(Pipe);
      while piped
        invariant Valid() && (piped ==> at > 0 && IsAt(tokens, at - 1, Pipe)) && (!piped ==> !IsAt(tokens, at, Pipe))
        invariant PipelineFrom(input, tokens, if piped then at - 1 else at, commands) == ParseSpec.ParsePipeline(input, tokens, old(at))
        decreases |tokens| - at, piped
      {
        ConsumeNewlines();
        var command := ParseCommand();
        if command.Fail? { return Fail(command.error); }
        commands := commands + [command.value];
        piped := ConsumeIf(Pipe);
      }
      r := Done(Pipeline(commands));
    }

    method ParseAndOrList() returns (r: Parsed<AndOrList>)
      requires Valid()
      modifies this
      ensures Valid() && Agrees(r, ParseAndOr(input, tokens, old(at)), at)
    {
      hide ParseSpec.ParsePipeline;
      var first := ParsePipeline();
      if first.Fail? { return Fail(first.error); }
      var list := AndOrList(first.value, []);
      while IsAt(tokens, at, AndIf) || IsAt(tokens, at, OrIf)
        invariant Valid() && AndOrFrom(input, tokens, at, list) == ParseAndOr(input, tokens, old(at))
        decreases |tokens| - at
      {
        var op := if IsAt(tokens, at, AndIf) then And else Or;
        at := at + 1;
        ConsumeNewlines();
        var pipeline := ParsePipeline();
        if pipeline.Fail? { return Fail(pipeline.error); }
        list := list.(rest := list.rest + [AndOr(op, pipeline.value)]);
      }
      r := Done(list);
    }

    method ParseProgram() returns (r: Parsed<Program>)
      requires Valid() && at == 0
      modifies this
      ensures r == ProgramFrom(input, tokens, SkipNewlines(tokens, 0), [])
    {
      hide ParseAndOr;
      var lists := [];
      ConsumeNewlines();
      while at < |tokens|
        invariant Valid() && ProgramFrom(input, tokens, at, lists) == ProgramFrom(input, tokens, SkipNewlines(tokens, 0), [])
        decreases |tokens| - at
      {
        var list := ParseAndOrList();
        if list.Fail? { return Fail(list.error); }
        lists := lists + [list.value];
        var semi := ConsumeIf(Semi);
        if semi {
          ConsumeNewlines();
          if at >= |tokens| { break; }
        } else {
          var newline := ConsumeIf(Newline);
          if newline {
            ConsumeNewlines();
          } else if at < |tokens| {
            return Unexpected(input, tokens, at);
          }
        }
      }
      r := Done(Program(lists));
    }
  }

  /** A parsing method's result and where it left the cursor, against the specification's pair. */
  ghost predicate Agrees<T>(r: Parsed<T>, spec: Parsed<(T, nat)>, at: nat) {
    if spec.Fail? then r == Fail(spec.error) else r == Done(spec.value.0) && at == spec.value.1
  }

  method ParseInput(input: string) returns (r: Parsed<Program>)
    ensures r == Parse(input)
  {
    hide LexSpec.Lex, ProgramFrom;
    var tokens := Lexer.Lex(input);
    if tokens.Fail? { return Fail(tokens.error); }
    assert InBounds(input, tokens.value) by { LexBounds(input); }
    var parser := new Cursor(input, tokens.value);
    r := parser.ParseProgram();
  }

  lemma LexBounds(input: string)
    ensures LexSpec.Lex(input).Done? ==> InBounds(input, LexSpec.Lex(input).value)
  {
    LexInBounds(input, 0, []);
  }
}
