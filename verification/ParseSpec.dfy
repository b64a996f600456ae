/** What the parser builds from tokens: src/shell/parse.rs. */
module ParseSpec {
  import opened Base
  import opened Shell
  import opened LexSpec

  type Tokens = seq<Token>

  predicate IsAt(tokens: Tokens, c: nat, kind: TokenKind) { c < |tokens| && tokens[c].kind == kind }

  function Unexpected<T>(input: string, tokens: Tokens, c: nat): Parsed<T> {
    if c < |tokens| then Fail(ParseError(tokens[c].position, UnexpectedToken))
    else Fail(ParseError(|input|, UnexpectedEof))
  }

  function SkipNewlines(tokens: Tokens, c: nat): (end: nat)
    requires c <= |tokens|
    ensures c <= end <= |tokens|
    decreases |tokens| - c
  {
    if IsAt(tokens, c, Newline) then SkipNewlines(tokens, c + 1) else c
  }

  predicate IsAssignmentName(name: string) {
    name != "" && IsNameStart(name[0]) && forall i :: 0 <= i < |name| ==> IsNameContinue(name[i])
  }

  /** The first place `s` has `+=`, or its length. */
  function FindAppend(s: string): (i: nat)
    ensures i <= |s|
  {
    if |s| < 2 then |s| else if s[0] == '+' && s[1] == '=' then 0 else FindAppend(s[1..]) + 1
  }

  function FindEquals(s: string): (i: nat)
    ensures i <= |s| && (i < |s| ==> s[i] == '=')
  {
    if s == "" || s[0] == '=' then 0 else FindEquals(s[1..]) + 1
  }

  /** Where in the source the `target`th character of an unquoted literal is. */
  function SourcePosition(input: string, p: nat, literal: nat, target: nat): nat
    requires p <= |input|
    decreases |input| - p
  {
    if p >= |input| || literal == target || IsWordBreak(input[p]) then p
    else if input[p] == '\\' && At(input, p + 1, '\n') then SourcePosition(input, p + 2, literal, target)
    else SourcePosition(input, p + 1, literal + 1, target)
  }

  function AssignmentFromWord(input: string, word: Word, p: nat): Parsed<Option<Assignment>>
    requires p <= |input|
  {
    if word.segments == [] || !word.segments[0].Literal? || word.segments[0].quoted then Done(None) else
    var value := word.segments[0].value;
    var append := FindAppend(value);
    if append < |value| && IsAssignmentName(value[..append]) then Refuse(SourcePosition(input, p, 0, append), AppendAssignment) else
    var equals := FindEquals(value);
    if equals == |value| || !IsAssignmentName(value[..equals]) then Done(None) else
    var rest := value[equals + 1..];
    Done(Some(Assignment(value[..equals],
      Word((if rest != "" then [Literal(rest, false)] else []) + word.segments[1..]))))
  }

  predicate IsNegation(kind: TokenKind) { kind == WordToken(Word([Literal("!", false)])) }

  predicate StartsCommand(tokens: Tokens, c: nat) {
    c < |tokens| && (tokens[c].kind.WordToken? || tokens[c].kind.RedirectKind?)
  }

  predicate InBounds(input: string, tokens: Tokens) { forall i :: 0 <= i < |tokens| ==> tokens[i].position <= |input| }

  /** The target of the redirect token before `c`. */
  function ParseRedirect(tokens: Tokens, c: nat, redirect: RedirectToken): (r: Parsed<(Redirect, nat)>)
    requires 0 < c <= |tokens|
    ensures r.Done? ==> c <= r.value.1 <= |tokens|
  {
    if redirect.targetFd.Some? then Done((Redirect(redirect.fd, redirect.op, FdTarget(redirect.targetFd.value)), c))
    else if c < |tokens| && tokens[c].kind.WordToken? then
      Done((Redirect(redirect.fd, redirect.op, WordTarget(tokens[c].kind.word)), c + 1))
    else Fail(ParseError(tokens[c - 1].position, MissingRedirectTarget))
  }

  /** The word at `c`: before the first command word it may be an assignment. */
  function WithWord(input: string, tokens: Tokens, c: nat, cmd: SimpleCommand): Parsed<SimpleCommand>
    requires c < |tokens| && tokens[c].kind.WordToken? && InBounds(input, tokens)
  {
    var word := tokens[c].kind.word;
    if cmd.words != [] then Done(cmd.(words := cmd.words + [word])) else
    var a := AssignmentFromWord(input, word, tokens[c].position);
    if a.Fail? then Fail(a.error)
    else if a.value.Some? then Done(cmd.(assignments := cmd.assignments + [a.value.value]))
    else Done(cmd.(words := [word]))
  }

  function CommandFrom(input: string, tokens: Tokens, c: nat, cmd: SimpleCommand): (r: Parsed<(SimpleCommand, nat)>)
    requires c <= |tokens| && InBounds(input, tokens)
    ensures r.Done? ==> c <= r.value.1 <= |tokens| && (StartsCommand(tokens, c) ==> c < r.value.1)
    decreases |tokens| - c
  {
    if !StartsCommand(tokens, c) then Done((cmd, c))
    else if tokens[c].kind.WordToken? then
      var w := WithWord(input, tokens, c, cmd);
      if w.Fail? then Fail(w.error) else CommandFrom(input, tokens, c + 1, w.value)
    else
      var r := ParseRedirect(tokens, c + 1, tokens[c].kind.redirect);
      if r.Fail? then Fail(r.error)
      else CommandFrom(input, tokens, r.value.1, cmd.(redirects := cmd.redirects + [r.value.0]))
  }

  function ParseCommand(input: string, tokens: Tokens, c: nat): (r: Parsed<(SimpleCommand, nat)>)
    requires c <= |tokens| && InBounds(input, tokens)
    ensures r.Done? ==> c < r.value.1 <= |tokens|
  {
    if !StartsCommand(tokens, c) then Unexpected(input, tokens, c)
    else if IsNegation(tokens[c].kind) then Refuse(tokens[c].position, PipelineNegation)
    else CommandFrom(input, tokens, c, SimpleCommand([], [], []))
  }

  function PipelineFrom(input: string, tokens: Tokens, c: nat, commands: seq<SimpleCommand>): (r: Parsed<(Pipeline, nat)>)
    requires c <= |tokens| && InBounds(input, tokens)
    ensures r.Done? ==> c <= r.value.1 <= |tokens|
    decreases |tokens| - c
  {
    if !IsAt(tokens, c, Pipe) then Done((Pipeline(commands), c)) else
    var cmd := ParseCommand(input, tokens, SkipNewlines(tokens, c + 1));
    if cmd.Fail? then Fail(cmd.error) else PipelineFrom(input, tokens, cmd.value.1, commands + [cmd.value.0])
  }

  function ParsePipeline(input: string, tokens: Tokens, c: nat): (r: Parsed<(Pipeline, nat)>)
    requires c <= |tokens| && InBounds(input, tokens)
    ensures r.Done? ==> c < r.value.1 <= |tokens|
  {
    var first := ParseCommand(input, tokens, c);
    if first.Fail? then Fail(first.error) else PipelineFrom(input, tokens, first.value.1, [first.value.0])
  }

  function AndOrFrom(input: string, tokens: Tokens, c: nat, list: AndOrList): (r: Parsed<(AndOrList, nat)>)
    requires c <= |tokens| && InBounds(input, tokens)
    ensures r.Done? ==> c <= r.value.1 <= |tokens|
    decreases |tokens| - c
  {
    if !IsAt(tokens, c, AndIf) && !IsAt(tokens, c, OrIf) then Done((list, c)) else
    var op := if IsAt(tokens, c, AndIf) then And else Or;
    var p := ParsePipeline(input, tokens, SkipNewlines(tokens, c + 1));
    if p.Fail? then Fail(p.error)
    else AndOrFrom(input, tokens, p.value.1, list.(rest := list.rest + [AndOr(op, p.value.0)]))
  }

  function ParseAndOr(input: string, tokens: Tokens, c: nat): (r: Parsed<(AndOrList, nat)>)
    requires c <= |tokens| && InBounds(input, tokens)
    ensures r.Done? ==> c < r.value.1 <= |tokens|
  {
    var first := ParsePipeline(input, tokens, c);
    if first.Fail? then Fail(first.error) else AndOrFrom(input, tokens, first.value.1, AndOrList(first.value.0, []))
  }

  function ProgramFrom(input: string, tokens: Tokens, c: nat, lists: seq<AndOrList>): Parsed<Program>
    requires c <= |tokens| && InBounds(input, tokens)
    decreases |tokens| - c
  {
    if c >= |tokens| then Done(Program(lists)) else
    var list := ParseAndOr(input, tokens, c);
    if list.Fail? then Fail(list.error) else
    var next := list.value.1;
    if IsAt(tokens, next, Semi) || IsAt(tokens, next, Newline)
    then ProgramFrom(input, tokens, SkipNewlines(tokens, next + 1), lists + [list.value.0])
    else if next < |tokens| then Unexpected(input, tokens, next)
    else Done(Program(lists + [list.value.0]))
  }

  lemma {:induction false} LexInBounds(input: string, p: nat, tokens: Tokens)
    requires p <= |input| && InBounds(input, tokens)
    ensures LexFrom(input, p, tokens).Done? ==> InBounds(input, LexFrom(input, p, tokens).value)
    decreases |input| - p
  {
    var q := SkipBlanks(input, p);
    if q < |input| && !IsBlank(input[q]) {
      var t := ScanToken(input, q);
      if t.Done? {
        LexInBounds(input, t.value.1, tokens + Listed(t.value.0, q));
      }
    }
  }

  function Parse(input: string): Parsed<Program> {
    var tokens := Lex(input);
    if tokens.Fail? then Fail(tokens.error) else
    LexInBounds(input, 0, []);
    ProgramFrom(input, tokens.value, SkipNewlines(tokens.value, 0), [])
  }
}
