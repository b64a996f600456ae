/** Writing a program out as tokens and parsing it again. */
module ParseRoundTrip {
  import opened Base
  import opened Shell
  import opened ParseSpec

  type Kinds = seq<TokenKind>

  /** The word an assignment is written as: its name and `=` join an unquoted literal after them. */
  function AssignmentWord(a: Assignment): Word {
    var segments := a.value.segments;
    if segments != [] && segments[0].Literal? && !segments[0].quoted
    then Word([Literal(a.name + "=" + segments[0].value, false)] + segments[1..])
    else Word([Literal(a.name + "=", false)] + segments)
  }

  function PrintAssignments(assignments: seq<Assignment>): Kinds {
    if assignments == [] then [] else [WordToken(AssignmentWord(assignments[0]))] + PrintAssignments(assignments[1..])
  }

  function PrintWords(words: seq<Word>): Kinds {
    if words == [] then [] else [WordToken(words[0])] + PrintWords(words[1..])
  }

  function PrintRedirect(r: Redirect): Kinds {
    match r.target
    case FdTarget(fd) => [RedirectKind(RedirectToken(r.fd, r.op, Some(fd)))]
    case WordTarget(word) => [RedirectKind(RedirectToken(r.fd, r.op, None)), WordToken(word)]
  }

  function PrintRedirects(redirects: seq<Redirect>): Kinds {
    if redirects == [] then [] else PrintRedirect(redirects[0]) + PrintRedirects(redirects[1..])
  }

  /** A first word `!` would be refused at the start of a command, but not behind a redirect. */
  predicate StartsWithBang(cmd: SimpleCommand) {
    cmd.assignments == [] && cmd.words != [] && IsNegation(WordToken(cmd.words[0]))
  }

  function PrintCommand(cmd: SimpleCommand): Kinds {
    if StartsWithBang(cmd) then PrintRedirects(cmd.redirects) + PrintWords(cmd.words)
    else PrintAssignments(cmd.assignments) + (PrintWords(cmd.words) + PrintRedirects(cmd.redirects))
  }

  function Newlines(n: nat): Kinds { seq(n, _ => Newline) }

  /** Newlines to write where any number may stand: after each `|` of a pipeline, by how many
      commands are left; after an `&&` or `||`; and after the `;` or newline that ends a list. */
  type Gaps = nat -> nat
  datatype OpLayout = OpLayout(gap: nat, pipes: Gaps)
  datatype ListLayout = ListLayout(pipes: Gaps, rest: nat -> OpLayout, newline: bool, gap: nat, ended: bool)
  type Layout = nat -> ListLayout

  function PrintPiped(commands: seq<SimpleCommand>, gaps: Gaps): Kinds {
    if commands == [] then []
    else [Pipe] + (Newlines(gaps(|commands|)) + (PrintCommand(commands[0]) + PrintPiped(commands[1..], gaps)))
  }

  function PrintPipeline(p: Pipeline, gaps: Gaps): Kinds {
    if p.commands == [] then [] else PrintCommand(p.commands[0]) + PrintPiped(p.commands[1..], gaps)
  }

  function PrintOp(op: AndOrOp): TokenKind { if op.And? then AndIf else OrIf }

  function PrintRest(rest: seq<AndOr>, layout: nat -> OpLayout): Kinds {
    if rest == [] then [] else
    var l := layout(|rest|);
    [PrintOp(rest[0].op)] + (Newlines(l.gap) + (PrintPipeline(rest[0].pipeline, l.pipes) + PrintRest(rest[1..], layout)))
  }

  function PrintList(list: AndOrList, l: ListLayout): Kinds { PrintPipeline(list.first, l.pipes) + PrintRest(list.rest, l.rest) }

  function Separator(l: ListLayout): TokenKind { if l.newline then Newline else Semi }

  /** Lists with a `;` or newlines between them, and after the last if the layout has it so. */
  function PrintLists(lists: seq<AndOrList>, layout: Layout): Kinds {
    if lists == [] then [] else
    var l := layout(|lists|);
    PrintList(lists[0], l)
    + (if |lists| == 1 && !l.ended then [] else [Separator(l)] + (Newlines(l.gap) + PrintLists(lists[1..], layout)))
  }

  /** A program, with `blank` newlines before it. */
  function PrintProgram(program: Program, blank: nat, layout: Layout): Kinds { Newlines(blank) + PrintLists(program.lists, layout) }

  // ----------------------------------------------------------- what can be written

  /** Values as the parser makes them: an unquoted literal at the start is not empty. */
  predicate IsAssignment(a: Assignment) {
    && IsAssignmentName(a.name)
    && (a.value.segments != [] && a.value.segments[0].Literal? && !a.value.segments[0].quoted ==> a.value.segments[0].value != "")
  }

  /** A word that does not look like `name=` or `name+=`. */
  predicate IsPlainWord(w: Word) { AssignmentFromWord("", w, 0) == Done(None) }

  lemma PlainAnywhere(w: Word, input: string, p: nat)
    requires IsPlainWord(w) && p <= |input|
    ensures AssignmentFromWord(input, w, p) == Done(None)
  {
  }

  /** A command that has something in it, whose first word reads as a word and is `!` only if a
      redirect can come before it. */
  ghost predicate IsCommand(cmd: SimpleCommand) {
    && (cmd.assignments != [] || cmd.words != [] || cmd.redirects != [])
    && (forall i :: 0 <= i < |cmd.assignments| ==> IsAssignment(cmd.assignments[i]))
    && (cmd.words != [] ==> IsPlainWord(cmd.words[0]))
    && (StartsWithBang(cmd) ==> cmd.redirects != [])
  }

  ghost predicate IsPipeline(p: Pipeline) {
    p.commands != [] && forall i :: 0 <= i < |p.commands| ==> IsCommand(p.commands[i])
  }

  ghost predicate IsList(list: AndOrList) {
    IsPipeline(list.first) && forall i :: 0 <= i < |list.rest| ==> IsPipeline(list.rest[i].pipeline)
  }

  // -------------------------------------------------------------------- assignments

  lemma {:induction false} EqualsAfterName(name: string, rest: string)
    requires forall i :: 0 <= i < |name| ==> IsNameContinue(name[i])
    ensures FindEquals(name + "=" + rest) == |name|
  {
    if name == "" {
      assert (name + "=" + rest)[0] == '=';
    } else {
      assert (name + "=" + rest)[0] == name[0] != '=';
      assert (name + "=" + rest)[1..] == name[1..] + "=" + rest;
      EqualsAfterName(name[1..], rest);
    }
  }

  /** `+=` can only come after the first `=`. */
  lemma {:induction false} AppendAfterName(name: string, rest: string)
    requires forall i :: 0 <= i < |name| ==> IsNameContinue(name[i])
    ensures var s := name + "=" + rest; FindAppend(s) > |name| || FindAppend(s) == |s|
  {
    var s := name + "=" + rest;
    if name == "" {
      assert s[0] == '=';
    } else {
      assert s[0] == name[0] != '+';
      assert s[1..] == name[1..] + "=" + rest;
      AppendAfterName(name[1..], rest);
    }
  }

  lemma NoAppendName(name: string, rest: string)
    requires IsAssignmentName(name)
    ensures var s := name + "=" + rest; FindAppend(s) < |s| ==> !IsAssignmentName(s[..FindAppend(s)])
  {
    var s := name + "=" + rest;
    AppendAfterName(name, rest);
    if FindAppend(s) < |s| { assert s[..FindAppend(s)][|name|] == '='; }
  }

  lemma NameEqualsReads(input: string, name: string, rest: string, more: seq<Segment>, p: nat)
    requires IsAssignmentName(name) && p <= |input|
    ensures AssignmentFromWord(input, Word([Literal(name + "=" + rest, false)] + more), p)
      == Done(Some(Assignment(name, Word((if rest != "" then [Literal(rest, false)] else []) + more))))
  {
    var value, segments := name + "=" + rest, [Literal(name + "=" + rest, false)] + more;
    EqualsAfterName(name, rest);
    NoAppendName(name, rest);
    hide FindAppend, FindEquals, SourcePosition, IsAssignmentName;
    assert segments[0] == Literal(value, false) && segments[1..] == more;
    assert value[..|name|] == name && value[|name| + 1..] == rest;
  }

  lemma AssignmentReads(input: string, a: Assignment, p: nat)
    requires IsAssignment(a) && p <= |input|
    ensures AssignmentFromWord(input, AssignmentWord(a), p) == Done(Some(a))
  {
    hide AssignmentFromWord, IsAssignmentName;
    var segments := a.value.segments;
    if segments != [] && segments[0].Literal? && !segments[0].quoted {
      NameEqualsReads(input, a.name, segments[0].value, segments[1..], p);
      assert [segments[0]] + segments[1..] == segments;
    } else {
      NameEqualsReads(input, a.name, "", segments, p);
      assert a.name + "=" + "" == a.name + "=" && [] + segments == segments;
    }
  }

  // -------------------------------------------------------------------- one command

  /** The tokens from `c` on begin with these. */
  ghost predicate Begins(tokens: Tokens, c: nat, kinds: Kinds) {
    c + |kinds| <= |tokens| && forall i :: 0 <= i < |kinds| ==> tokens[c + i].kind == kinds[i]
  }

  lemma BeginsSplit(tokens: Tokens, c: nat, a: Kinds, b: Kinds)
    requires Begins(tokens, c, a + b)
    ensures Begins(tokens, c, a) && Begins(tokens, c + |a|, b)
  {
    assert forall i :: 0 <= i < |a| ==> (a + b)[i] == a[i];
    forall i | 0 <= i < |b| ensures tokens[c + |a| + i].kind == b[i] {
      assert tokens[c + (|a| + i)].kind == (a + b)[|a| + i];
    }
  }

  lemma BeginsWith(tokens: Tokens, c: nat, k: TokenKind, rest: Kinds)
    requires Begins(tokens, c, [k] + rest)
    ensures c < |tokens| && tokens[c].kind == k && Begins(tokens, c + 1, rest)
  {
    BeginsSplit(tokens, c, [k], rest);
    assert tokens[c + 0].kind == [k][0];
  }

  lemma {:induction false} AssignmentsRead(input: string, tokens: Tokens, c: nat, cmd: SimpleCommand, assignments: seq<Assignment>)
    requires InBounds(input, tokens) && cmd.words == [] && Begins(tokens, c, PrintAssignments(assignments))
    requires forall i :: 0 <= i < |assignments| ==> IsAssignment(assignments[i])
    ensures |PrintAssignments(assignments)| == |assignments|
    ensures CommandFrom(input, tokens, c, cmd)
      == CommandFrom(input, tokens, c + |assignments|, cmd.(assignments := cmd.assignments + assignments))
    decreases |assignments|
  {
    hide AssignmentWord, IsAssignment, AssignmentFromWord;
    if assignments == [] {
      assert cmd.assignments + [] == cmd.assignments;
    } else {
      var a := assignments[0];
      BeginsWith(tokens, c, WordToken(AssignmentWord(a)), PrintAssignments(assignments[1..]));
      AssignmentReads(input, a, tokens[c].position);
      var next := cmd.(assignments := cmd.assignments + [a]);
      assert WithWord(input, tokens, c, cmd) == Done(next);
      AssignmentsRead(input, tokens, c + 1, next, assignments[1..]);
      assert cmd.assignments + [a] + assignments[1..] == cmd.assignments + assignments;
    }
  }

  lemma {:induction false} WordsRead(input: string, tokens: Tokens, c: nat, cmd: SimpleCommand, words: seq<Word>)
    requires InBounds(input, tokens) && Begins(tokens, c, PrintWords(words))
    requires cmd.words == [] && words != [] ==> IsPlainWord(words[0])
    ensures |PrintWords(words)| == |words|
    ensures CommandFrom(input, tokens, c, cmd) == CommandFrom(input, tokens, c + |words|, cmd.(words := cmd.words + words))
    decreases |words|
  {
    hide AssignmentFromWord, IsPlainWord;
    if words == [] {
      assert cmd.words + [] == cmd.words;
    } else {
      BeginsWith(tokens, c, WordToken(words[0]), PrintWords(words[1..]));
      if cmd.words == [] { PlainAnywhere(words[0], input, tokens[c].position); }
      var next := cmd.(words := cmd.words + [words[0]]);
      assert cmd.words == [] ==> next.words == [words[0]];
      assert WithWord(input, tokens, c, cmd) == Done(next);
      WordsRead(input, tokens, c + 1, next, words[1..]);
      assert cmd.words + [words[0]] + words[1..] == cmd.words + words;
    }
  }

  lemma RedirectRead(input: string, tokens: Tokens, c: nat, cmd: SimpleCommand, r: Redirect)
    requires InBounds(input, tokens) && Begins(tokens, c, PrintRedirect(r))
    ensures CommandFrom(input, tokens, c, cmd)
      == CommandFrom(input, tokens, c + |PrintRedirect(r)|, cmd.(redirects := cmd.redirects + [r]))
  {
    assert tokens[c + 0].kind == PrintRedirect(r)[0];
    assert r.target.WordTarget? ==> tokens[c + 1].kind == PrintRedirect(r)[1];
    assert ParseRedirect(tokens, c + 1, tokens[c].kind.redirect) == Done((r, c + |PrintRedirect(r)|));
  }

  lemma {:induction false} RedirectsRead(input: string, tokens: Tokens, c: nat, cmd: SimpleCommand, redirects: seq<Redirect>)
    requires InBounds(input, tokens) && Begins(tokens, c, PrintRedirects(redirects))
    ensures CommandFrom(input, tokens, c, cmd)
      == CommandFrom(input, tokens, c + |PrintRedirects(redirects)|, cmd.(redirects := cmd.redirects + redirects))
    decreases |redirects|
  {
    hide Begins, CommandFrom, PrintRedirect;
    BeginsWithin(tokens, c, PrintRedirects(redirects));
    if redirects == [] {
      assert cmd.redirects + [] == cmd.redirects;
    } else {
      var r := redirects[0];
      BeginsSplit(tokens, c, PrintRedirect(r), PrintRedirects(redirects[1..]));
      RedirectRead(input, tokens, c, cmd, r);
      RedirectsRead(input, tokens, c + |PrintRedirect(r)|, cmd.(redirects := cmd.redirects + [r]), redirects[1..]);
      assert cmd.redirects + [r] + redirects[1..] == cmd.redirects + redirects;
    }
  }

  lemma CommandStarts(tokens: Tokens, c: nat, cmd: SimpleCommand)
    requires IsCommand(cmd) && Begins(tokens, c, PrintCommand(cmd))
    ensures PrintCommand(cmd) != [] && StartsCommand(tokens, c) && !IsNegation(tokens[c].kind)
  {
    hide IsPlainWord;
    if cmd.redirects != [] { assert PrintRedirects(cmd.redirects)[0].RedirectKind?; }
    if cmd.assignments != [] {
      assert PrintCommand(cmd)[0] == WordToken(AssignmentWord(cmd.assignments[0]));
      NotNegation(cmd.assignments[0]);
    } else if cmd.words != [] && !StartsWithBang(cmd) {
      assert PrintCommand(cmd)[0] == WordToken(cmd.words[0]);
    }
    assert tokens[c + 0].kind == PrintCommand(cmd)[0];
  }

  lemma NotNegation(a: Assignment)
    requires IsAssignment(a)
    ensures !IsNegation(WordToken(AssignmentWord(a)))
  {
    assert AssignmentWord(a).segments[0].value[0] == a.name[0];
  }

  /** A command written out, with no word or redirect after it, is parsed as itself. */
  lemma CommandReads(input: string, tokens: Tokens, c: nat, cmd: SimpleCommand)
    requires InBounds(input, tokens) && IsCommand(cmd) && Begins(tokens, c, PrintCommand(cmd))
    requires !StartsCommand(tokens, c + |PrintCommand(cmd)|)
    ensures ParseCommand(input, tokens, c) == Done((cmd, c + |PrintCommand(cmd)|))
  {
    hide PrintAssignments, PrintWords, PrintRedirects, IsPlainWord, IsAssignment, Begins, CommandFrom;
    CommandStarts(tokens, c, cmd);
    if StartsWithBang(cmd) { BangReads(input, tokens, c, cmd); } else { UsualReads(input, tokens, c, cmd); }
    BeginsWithin(tokens, c, PrintCommand(cmd));
    CommandEnds(input, tokens, c + |PrintCommand(cmd)|, cmd);
  }

  /** Assignments, words and redirects, in that order. */
  lemma PartsRead(input: string, tokens: Tokens, c: nat, assignments: seq<Assignment>, words: seq<Word>, redirects: seq<Redirect>)
    requires InBounds(input, tokens) && (forall i :: 0 <= i < |assignments| ==> IsAssignment(assignments[i]))
    requires words != [] ==> IsPlainWord(words[0])
    requires Begins(tokens, c, PrintAssignments(assignments)) && Begins(tokens, c + |PrintAssignments(assignments)|, PrintWords(words))
    requires var d := c + |PrintAssignments(assignments)| + |PrintWords(words)|;
      d + |PrintRedirects(redirects)| <= |tokens| && Begins(tokens, d, PrintRedirects(redirects))
    ensures CommandFrom(input, tokens, c, SimpleCommand([], [], []))
      == CommandFrom(input, tokens, c + |PrintAssignments(assignments)| + |PrintWords(words)| + |PrintRedirects(redirects)|,
                     SimpleCommand(assignments, words, redirects))
  {
    hide PrintAssignments, PrintWords, PrintRedirects, IsPlainWord, IsAssignment, Begins, CommandFrom;
    assert [] + assignments == assignments && [] + words == words && [] + redirects == redirects;
    AssignmentsRead(input, tokens, c, SimpleCommand([], [], []), assignments);
    WordsRead(input, tokens, c + |assignments|, SimpleCommand(assignments, [], []), words);
    RedirectsRead(input, tokens, c + |assignments| + |words|, SimpleCommand(assignments, words, []), redirects);
  }

  lemma UsualReads(input: string, tokens: Tokens, c: nat, cmd: SimpleCommand)
    requires InBounds(input, tokens) && IsCommand(cmd) && Begins(tokens, c, PrintCommand(cmd)) && !StartsWithBang(cmd)
    ensures c + |PrintCommand(cmd)| <= |tokens|
    ensures CommandFrom(input, tokens, c, SimpleCommand([], [], [])) == CommandFrom(input, tokens, c + |PrintCommand(cmd)|, cmd)
  {
    hide PrintAssignments, PrintWords, PrintRedirects, PrintCommand, IsPlainWord, IsAssignment, Begins, CommandFrom, StartsWithBang;
    var a, w, r := PrintAssignments(cmd.assignments), PrintWords(cmd.words), PrintRedirects(cmd.redirects);
    UsualPrints(cmd);
    BeginsSplit(tokens, c, a, w + r);
    BeginsSplit(tokens, c + |a|, w, r);
    BeginsWithin(tokens, c + |a| + |w|, r);
    PartsRead(input, tokens, c, cmd.assignments, cmd.words, cmd.redirects);
  }

  lemma UsualPrints(cmd: SimpleCommand)
    requires !StartsWithBang(cmd)
    ensures var a, w, r := PrintAssignments(cmd.assignments), PrintWords(cmd.words), PrintRedirects(cmd.redirects);
      PrintCommand(cmd) == a + (w + r) && |PrintCommand(cmd)| == |a| + |w| + |r|
  {
    hide PrintAssignments, PrintWords, PrintRedirects;
  }

  lemma BangPrints(cmd: SimpleCommand)
    requires StartsWithBang(cmd)
    ensures var w, r := PrintWords(cmd.words), PrintRedirects(cmd.redirects);
      PrintCommand(cmd) == r + w && |PrintCommand(cmd)| == |r| + |w|
  {
    hide PrintWords, PrintRedirects;
  }

  lemma BangReads(input: string, tokens: Tokens, c: nat, cmd: SimpleCommand)
    requires InBounds(input, tokens) && IsCommand(cmd) && Begins(tokens, c, PrintCommand(cmd)) && StartsWithBang(cmd)
    ensures c + |PrintCommand(cmd)| <= |tokens|
    ensures CommandFrom(input, tokens, c, SimpleCommand([], [], [])) == CommandFrom(input, tokens, c + |PrintCommand(cmd)|, cmd)
  {
    hide PrintAssignments, PrintWords, PrintRedirects, PrintCommand, IsPlainWord, IsAssignment, Begins, CommandFrom;
    var w, r := PrintWords(cmd.words), PrintRedirects(cmd.redirects);
    BangPrints(cmd);
    BeginsSplit(tokens, c, r, w);
    BeginsWithin(tokens, c + |r|, w);
    assert [] + cmd.words == cmd.words && [] + cmd.redirects == cmd.redirects;
    RedirectsRead(input, tokens, c, SimpleCommand([], [], []), cmd.redirects);
    WordsRead(input, tokens, c + |r|, SimpleCommand([], [], cmd.redirects), cmd.words);
  }

  lemma CommandEnds(input: string, tokens: Tokens, c: nat, cmd: SimpleCommand)
    requires InBounds(input, tokens) && c <= |tokens| && !StartsCommand(tokens, c)
    ensures CommandFrom(input, tokens, c, cmd) == Done((cmd, c))
  {
  }

  lemma BeginsWithin(tokens: Tokens, c: nat, kinds: Kinds)
    requires Begins(tokens, c, kinds)
    ensures c + |kinds| <= |tokens|
    ensures kinds != [] ==> tokens[c].kind == kinds[0]
  {
    if kinds != [] { assert tokens[c + 0].kind == kinds[0]; }
  }

  // ------------------------------------------------------------------- the program

  /** What comes after a command, a pipeline or a list does not go on with it. */
  predicate EndsAt(tokens: Tokens, c: nat, kinds: set<TokenKind>) { c >= |tokens| || tokens[c].kind in kinds }

  /** Newlines are passed over, up to what comes after them. */
  lemma {:induction false} NewlinesSkipped(tokens: Tokens, c: nat, n: nat, rest: Kinds)
    requires Begins(tokens, c, Newlines(n) + rest)
    requires if rest == [] then c + n == |tokens| else rest[0] != Newline
    ensures Begins(tokens, c + n, rest) && SkipNewlines(tokens, c) == c + n
    decreases n
  {
    if n == 0 {
      assert Newlines(n) + rest == rest;
      BeginsWithin(tokens, c, rest);
    } else {
      assert Newlines(n) + rest == [Newline] + (Newlines(n - 1) + rest);
      BeginsWith(tokens, c, Newline, Newlines(n - 1) + rest);
      NewlinesSkipped(tokens, c + 1, n - 1, rest);
    }
  }

  /** What can come after a command. */
  lemma NextCommand(input: string, tokens: Tokens, c: nat, cmd: SimpleCommand)
    requires InBounds(input, tokens) && IsCommand(cmd) && Begins(tokens, c, PrintCommand(cmd))
    requires EndsAt(tokens, c + |PrintCommand(cmd)|, {Pipe, AndIf, OrIf, Semi, Newline})
    ensures ParseCommand(input, tokens, c) == Done((cmd, c + |PrintCommand(cmd)|))
  {
    hide IsCommand, PrintCommand, ParseCommand;
    CommandReads(input, tokens, c, cmd);
  }

  lemma CommandPrints(cmd: SimpleCommand)
    requires IsCommand(cmd)
    ensures PrintCommand(cmd) != [] && PrintCommand(cmd)[0] != Newline
  {
    var kinds := PrintCommand(cmd);
    var tokens := seq(|kinds|, i requires 0 <= i < |kinds| => Token(kinds[i], 0));
    CommandStarts(tokens, 0, cmd);
  }

  lemma PipeStep(input: string, tokens: Tokens, c: nat, done: seq<SimpleCommand>, at: nat, cmd: SimpleCommand, next: nat)
    requires InBounds(input, tokens) && IsAt(tokens, c, Pipe) && SkipNewlines(tokens, c + 1) == at
    requires ParseCommand(input, tokens, at) == Done((cmd, next))
    ensures PipelineFrom(input, tokens, c, done) == PipelineFrom(input, tokens, next, done + [cmd])
  {
    hide ParseCommand;
  }

  lemma {:induction false} PipedReads(input: string, tokens: Tokens, c: nat, done: seq<SimpleCommand>, commands: seq<SimpleCommand>, gaps: Gaps)
    requires InBounds(input, tokens) && Begins(tokens, c, PrintPiped(commands, gaps))
    requires forall i :: 0 <= i < |commands| ==> IsCommand(commands[i])
    requires EndsAt(tokens, c + |PrintPiped(commands, gaps)|, {AndIf, OrIf, Semi, Newline})
    ensures PipelineFrom(input, tokens, c, done) == Done((Pipeline(done + commands), c + |PrintPiped(commands, gaps)|))
    decreases |commands|
  {
    hide IsCommand, PrintCommand, ParseCommand, Begins, Newlines, SkipNewlines;
    BeginsWithin(tokens, c, PrintPiped(commands, gaps));
    if commands == [] {
      assert done + [] == done;
    } else {
      hide PipelineFrom;
      var n, first, more := gaps(|commands|), PrintCommand(commands[0]), PrintPiped(commands[1..], gaps);
      BeginsWith(tokens, c, Pipe, Newlines(n) + (first + more));
      CommandPrints(commands[0]);
      NewlinesSkipped(tokens, c + 1, n, first + more);
      NewlinesCount(n);
      BeginsSplit(tokens, c + 1 + n, first, more);
      var next := c + 1 + n + |first|;
      BeginsWithin(tokens, next, more);
      PipedPrints(commands[1..], gaps);
      NextCommand(input, tokens, c + 1 + n, commands[0]);
      PipeStep(input, tokens, c, done, c + 1 + n, commands[0], next);
      PipedReads(input, tokens, next, done + [commands[0]], commands[1..], gaps);
      assert done + [commands[0]] + commands[1..] == done + commands;
    }
  }

  lemma NewlinesCount(n: nat)
    ensures |Newlines(n)| == n
  {
  }

  lemma PipedPrints(commands: seq<SimpleCommand>, gaps: Gaps)
    ensures var kinds := PrintPiped(commands, gaps); kinds != [] ==> kinds[0] == Pipe
  {
    hide PrintCommand, Newlines;
  }

  lemma PipelineSplits(p: Pipeline, gaps: Gaps)
    requires p.commands != []
    ensures var first, more := PrintCommand(p.commands[0]), PrintPiped(p.commands[1..], gaps);
      PrintPipeline(p, gaps) == first + more && |PrintPipeline(p, gaps)| == |first| + |more|
  {
    hide PrintCommand, PrintPiped;
  }

  lemma PipelineReads(input: string, tokens: Tokens, c: nat, p: Pipeline, gaps: Gaps)
    requires InBounds(input, tokens) && IsPipeline(p) && Begins(tokens, c, PrintPipeline(p, gaps))
    requires EndsAt(tokens, c + |PrintPipeline(p, gaps)|, {AndIf, OrIf, Semi, Newline})
    ensures c <= |tokens| && ParsePipeline(input, tokens, c) == Done((p, c + |PrintPipeline(p, gaps)|))
  {
    hide IsCommand, PrintCommand, PrintPiped, PrintPipeline, ParseCommand, Begins, PipelineFrom;
    PipelineSplits(p, gaps);
    var first, more := PrintCommand(p.commands[0]), PrintPiped(p.commands[1..], gaps);
    BeginsSplit(tokens, c, first, more);
    BeginsWithin(tokens, c + |first|, more);
    PipedPrints(p.commands[1..], gaps);
    NextCommand(input, tokens, c, p.commands[0]);
    PipedReads(input, tokens, c + |first|, [p.commands[0]], p.commands[1..], gaps);
    assert [p.commands[0]] + p.commands[1..] == p.commands;
  }

  lemma PipelinePrints(p: Pipeline, gaps: Gaps)
    requires IsPipeline(p)
    ensures PrintPipeline(p, gaps) != [] && PrintPipeline(p, gaps)[0] != Newline
  {
    hide IsCommand, PrintCommand;
    CommandPrints(p.commands[0]);
  }

  lemma OpStep(input: string, tokens: Tokens, c: nat, list: AndOrList, at: nat, a: AndOr, next: nat)
    requires InBounds(input, tokens) && IsAt(tokens, c, PrintOp(a.op)) && SkipNewlines(tokens, c + 1) == at
    requires ParsePipeline(input, tokens, at) == Done((a.pipeline, next))
    ensures AndOrFrom(input, tokens, c, list) == AndOrFrom(input, tokens, next, list.(rest := list.rest + [a]))
  {
    hide ParsePipeline;
  }

  lemma {:induction false} RestReads(input: string, tokens: Tokens, c: nat, list: AndOrList, rest: seq<AndOr>, layout: nat -> OpLayout)
    requires InBounds(input, tokens) && (forall i :: 0 <= i < |rest| ==> IsPipeline(rest[i].pipeline))
    requires Begins(tokens, c, PrintRest(rest, layout)) && EndsAt(tokens, c + |PrintRest(rest, layout)|, {Semi, Newline})
    ensures AndOrFrom(input, tokens, c, list) == Done((list.(rest := list.rest + rest), c + |PrintRest(rest, layout)|))
    decreases |rest|
  {
    hide PrintPipeline, ParsePipeline, Begins, IsPipeline, Newlines, SkipNewlines;
    BeginsWithin(tokens, c, PrintRest(rest, layout));
    if rest == [] {
      assert list.rest + [] == list.rest;
    } else {
      hide AndOrFrom;
      var l := layout(|rest|);
      var op, first, more := PrintOp(rest[0].op), PrintPipeline(rest[0].pipeline, l.pipes), PrintRest(rest[1..], layout);
      BeginsWith(tokens, c, op, Newlines(l.gap) + (first + more));
      PipelinePrints(rest[0].pipeline, l.pipes);
      NewlinesSkipped(tokens, c + 1, l.gap, first + more);
      NewlinesCount(l.gap);
      BeginsSplit(tokens, c + 1 + l.gap, first, more);
      var next := c + 1 + l.gap + |first|;
      BeginsWithin(tokens, next, more);
      RestPrints(rest[1..], layout);
      PipelineReads(input, tokens, c + 1 + l.gap, rest[0].pipeline, l.pipes);
      OpStep(input, tokens, c, list, c + 1 + l.gap, rest[0], next);
      RestReads(input, tokens, next, list.(rest := list.rest + [rest[0]]), rest[1..], layout);
      assert list.rest + [rest[0]] + rest[1..] == list.rest + rest;
    }
  }

  lemma RestPrints(rest: seq<AndOr>, layout: nat -> OpLayout)
    ensures var kinds := PrintRest(rest, layout); kinds != [] ==> kinds[0] == AndIf || kinds[0] == OrIf
  {
    hide PrintPipeline, Newlines;
  }

  lemma ListReads(input: string, tokens: Tokens, c: nat, list: AndOrList, l: ListLayout)
    requires InBounds(input, tokens) && IsList(list) && Begins(tokens, c, PrintList(list, l))
    requires EndsAt(tokens, c + |PrintList(list, l)|, {Semi, Newline})
    ensures c <= |tokens| && ParseAndOr(input, tokens, c) == Done((list, c + |PrintList(list, l)|))
  {
    hide PrintPipeline, PrintRest, ParsePipeline, Begins, IsPipeline, AndOrFrom;
    var first, more := PrintPipeline(list.first, l.pipes), PrintRest(list.rest, l.rest);
    BeginsSplit(tokens, c, first, more);
    BeginsWithin(tokens, c + |first|, more);
    RestPrints(list.rest, l.rest);
    PipelineReads(input, tokens, c, list.first, l.pipes);
    RestReads(input, tokens, c + |first|, AndOrList(list.first, []), list.rest, l.rest);
    assert [] + list.rest == list.rest;
  }

  lemma ListsPrint(lists: seq<AndOrList>, layout: Layout)
    requires lists != [] ==> IsList(lists[0])
    ensures lists != [] ==> PrintLists(lists, layout) != [] && PrintLists(lists, layout)[0] != Newline
  {
    hide PrintPipeline, IsPipeline;
    if lists != [] { PipelinePrints(lists[0].first, layout(|lists|).pipes); }
  }

  lemma {:induction false} ListsRead(input: string, tokens: Tokens, c: nat, done: seq<AndOrList>, lists: seq<AndOrList>, layout: Layout)
    requires InBounds(input, tokens) && (forall i :: 0 <= i < |lists| ==> IsList(lists[i]))
    requires Begins(tokens, c, PrintLists(lists, layout)) && c + |PrintLists(lists, layout)| == |tokens|
    ensures ProgramFrom(input, tokens, c, done) == Done(Program(done + lists))
    decreases |lists|
  {
    hide PrintList, ParseAndOr, Begins, IsList, Newlines, SkipNewlines;
    BeginsWithin(tokens, c, PrintLists(lists, layout));
    if lists == [] {
      assert done + [] == done;
    } else {
      var l := layout(|lists|);
      var first, rest := PrintList(lists[0], l), PrintLists(lists[1..], layout);
      var more := if |lists| == 1 && !l.ended then [] else [Separator(l)] + (Newlines(l.gap) + rest);
      BeginsSplit(tokens, c, first, more);
      var next := c + |first|;
      BeginsWithin(tokens, next, more);
      ListReads(input, tokens, c, lists[0], l);
      assert done + [lists[0]] + lists[1..] == done + lists;
      ListsPrint(lists, layout);
      if more != [] {
        BeginsWith(tokens, next, Separator(l), Newlines(l.gap) + rest);
        NewlinesCount(l.gap);
        ListsPrint(lists[1..], layout);
        NewlinesSkipped(tokens, next + 1, l.gap, rest);
        ListsRead(input, tokens, next + 1 + l.gap, done + [lists[0]], lists[1..], layout);
      } else {
        assert done + [lists[0]] == done + lists;
      }
    }
  }

  /** Parsing what a program is written as gives the program, for every program whose commands
      can be written at all, wherever its tokens stand in the input and wherever newlines may. */
  lemma PrintParses(input: string, tokens: Tokens, program: Program, blank: nat, layout: Layout)
    requires InBounds(input, tokens) && (forall i :: 0 <= i < |program.lists| ==> IsList(program.lists[i]))
    requires |tokens| == |PrintProgram(program, blank, layout)| && Begins(tokens, 0, PrintProgram(program, blank, layout))
    ensures ProgramFrom(input, tokens, SkipNewlines(tokens, 0), []) == Done(program)
  {
    hide ProgramFrom, PrintLists, IsList;
    NewlinesCount(blank);
    ListsPrint(program.lists, layout);
    assert program.lists == [] ==> PrintLists(program.lists, layout) == [] by { NothingPrints(layout); }
    NewlinesSkipped(tokens, 0, blank, PrintLists(program.lists, layout));
    ListsRead(input, tokens, blank, [], program.lists, layout);
    assert [] + program.lists == program.lists;
  }

  lemma NothingPrints(layout: Layout)
    ensures PrintLists([], layout) == []
  {
  }
}
