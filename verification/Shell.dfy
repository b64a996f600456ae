/** Shell syntax: src/shell/mod.rs. Positions count characters. */
module Shell {
  import opened Base

  datatype Segment =
    | Literal(value: string, quoted: bool)
    | Expansion(name: string, quoted: bool)

  datatype Word = Word(segments: seq<Segment>)

  datatype RedirectOp = Read | Write | Append
  datatype RedirectTarget = WordTarget(word: Word) | FdTarget(fd: nat)
  datatype Redirect = Redirect(fd: Option<nat>, op: RedirectOp, target: RedirectTarget)
  datatype Assignment = Assignment(name: string, value: Word)

  datatype SimpleCommand = SimpleCommand(assignments: seq<Assignment>, words: seq<Word>, redirects: seq<Redirect>)
  datatype Pipeline = Pipeline(commands: seq<SimpleCommand>)
  datatype AndOrOp = And | Or
  datatype AndOr = AndOr(op: AndOrOp, pipeline: Pipeline)
  datatype AndOrList = AndOrList(first: Pipeline, rest: seq<AndOr>)
  datatype Program = Program(lists: seq<AndOrList>)

  datatype Construct =
    | Glob | CommandSubstitution | Backticks | Background | Subshell | BraceExpansion | Heredoc
    | TildeExpansion | ParameterExpansion | RedirectFdDup | AnsiCString | LocaleTranslation
    | AppendAssignment | PipelineNegation

  datatype ErrorKind =
    | UnexpectedEof | UnexpectedToken | MissingRedirectTarget
    | UnterminatedSingle | UnterminatedDouble | UnterminatedEscape | UnterminatedBracedExpansion
    | InvalidParameterExpansion | InvalidFileDescriptor | AmbiguousRedirect
    | Unsupported(construct: Construct)

  datatype ParseError = ParseError(position: nat, kind: ErrorKind)

  datatype Parsed<+T> = Done(value: T) | Fail(error: ParseError)

  function Refuse<T>(position: nat, construct: Construct): Parsed<T> { Fail(ParseError(position, Unsupported(construct))) }

  datatype RedirectToken = RedirectToken(fd: Option<nat>, op: RedirectOp, targetFd: Option<nat>)

  datatype TokenKind =
    | WordToken(word: Word) | Pipe | AndIf | OrIf | Semi | Newline | RedirectKind(redirect: RedirectToken)

  datatype Token = Token(kind: TokenKind, position: nat)

  predicate IsDigit(c: char) { '0' <= c <= '9' }
  predicate IsNameStart(c: char) { 'a' <= c <= 'z' || 'A' <= c <= 'Z' || c == '_' }
  predicate IsNameContinue(c: char) { IsNameStart(c) || IsDigit(c) }
  predicate IsRejectedSpecial(c: char) { c == '$' || c == '!' || c == '#' || c == '*' || c == '@' || c == '-' }
  predicate IsBlank(c: char) { c == ' ' || c == '\t' }
  predicate IsWordBreak(c: char) { IsBlank(c) || c == '\n' || c == '|' || c == '&' || c == ';' || c == '<' || c == '>' }

  /** A quoted word is a sequence of quoted literals; its text is what they hold. */
  predicate AllQuoted(segments: seq<Segment>) {
    forall i :: 0 <= i < |segments| ==> segments[i].Literal? && segments[i].quoted
  }

  function Text(segments: seq<Segment>): string {
    if segments == [] then ""
    else (if segments[0].Literal? then segments[0].value else "") + Text(segments[1..])
  }
}
