/** Exactly which tokens are a program, said token by token. */
module ParseAccepts {
  import opened Base
  import opened Shell
  import opened ParseSpec
  import LexSpec

  /** A word or a redirect: what commands are made of. */
  predicate IsPart(tokens: Tokens, i: int) { 0 <= i < |tokens| && (tokens[i].kind.WordToken? || tokens[i].kind.RedirectKind?) }

  /** A redirect that needs a word after it. */
  predicate NeedsTarget(tokens: Tokens, i: int) { 0 <= i < |tokens| && tokens[i].kind.RedirectKind? && tokens[i].kind.redirect.targetFd.None? }

  predicate Assigns(w: Word) { var a := AssignmentFromWord("", w, 0); a.Done? && a.value.Some? }
  predicate Appends(w: Word) { AssignmentFromWord("", w, 0).Fail? }

  /** No word before `i` in its command is one of the command's own: they are assignments and the
      targets of redirects. */
  predicate InPrefix(tokens: Tokens, i: nat) {
    if !IsPart(tokens, i - 1) then true
    else if NeedsTarget(tokens, i - 2) then InPrefix(tokens, i - 2)
    else InPrefix(tokens, i - 1) && (tokens[i - 1].kind.WordToken? ==> Assigns(tokens[i - 1].kind.word))
  }

  /** Commands on both sides of an operator, newlines before the second; a command before a `;`; a
      word after a redirect; no `!` at the start of a command; no `name+=` before its first word. */
  ghost predicate Fits(tokens: Tokens, i: nat)
    requires i < |tokens|
  {
    match tokens[i].kind
    case WordToken(w) =>
      && !(IsNegation(tokens[i].kind) && !IsPart(tokens, i - 1))
      && !(Appends(w) && !NeedsTarget(tokens, i - 1) && InPrefix(tokens, i))
    case RedirectKind(_) => NeedsTarget(tokens, i) ==> i + 1 < |tokens| && tokens[i + 1].kind.WordToken?
    case Newline => true
    case Semi => IsPart(tokens, i - 1)
    case _ => IsPart(tokens, i - 1) && exists j :: i < j && IsPart(tokens, j) && forall k :: i < k < j ==> tokens[k].kind == Newline
  }

  ghost predicate AllFit(tokens: Tokens, from: nat, to: nat) { forall i :: from <= i < to <= |tokens| ==> Fits(tokens, i) }

  lemma AppendsAnywhere(w: Word, input: string, p: nat)
    requires p <= |input|
    ensures var a := AssignmentFromWord(input, w, p);
      && (a.Fail? <==> Appends(w)) && (a.Done? && a.value.Some? <==> Assigns(w))
  {
    hide FindAppend, FindEquals, SourcePosition;
  }

  // ------------------------------------------------------------------------ commands

  /** Where the parser stands in a command: not before a redirect's target, and with words of its
      own exactly if some word so far is one. */
  predicate Stands(tokens: Tokens, c: nat, cmd: SimpleCommand) {
    c <= |tokens| && !NeedsTarget(tokens, c - 1) && (InPrefix(tokens, c) <==> cmd.words == [])
  }

  lemma WordStands(input: string, tokens: Tokens, c: nat, cmd: SimpleCommand)
    requires InBounds(input, tokens) && Stands(tokens, c, cmd) && c < |tokens| && tokens[c].kind.WordToken?
    requires IsNegation(tokens[c].kind) ==> IsPart(tokens, c - 1)
    ensures var w := WithWord(input, tokens, c, cmd);
      && (w.Done? <==> Fits(tokens, c)) && (w.Done? ==> Stands(tokens, c + 1, w.value))
  {
    hide AssignmentFromWord, Assigns, Appends;
    AppendsAnywhere(tokens[c].kind.word, input, tokens[c].position);
  }

  lemma RedirectStands(tokens: Tokens, c: nat, cmd: SimpleCommand)
    requires Stands(tokens, c, cmd) && c < |tokens| && tokens[c].kind.RedirectKind?
    ensures var r := ParseRedirect(tokens, c + 1, tokens[c].kind.redirect);
      && (r.Done? <==> Fits(tokens, c))
      && (r.Done? ==> AllFit(tokens, c, r.value.1) && IsPart(tokens, r.value.1 - 1)
                      && Stands(tokens, r.value.1, cmd.(redirects := cmd.redirects + [r.value.0])))
  {
    hide Assigns, Appends;
    if NeedsTarget(tokens, c) && c + 1 < |tokens| { assert IsPart(tokens, c); }
  }

  lemma FitsOn(tokens: Tokens, a: nat, b: nat, c: nat)
    requires a <= b <= c
    ensures AllFit(tokens, a, c) && c <= |tokens| ==> AllFit(tokens, a, b) && AllFit(tokens, b, c)
    ensures AllFit(tokens, a, b) && AllFit(tokens, b, c) && b <= |tokens| ==> AllFit(tokens, a, c)
  {
  }

  lemma {:induction false} CommandFits(input: string, tokens: Tokens, c: nat, cmd: SimpleCommand)
    requires InBounds(input, tokens) && Stands(tokens, c, cmd)
    requires c < |tokens| && IsNegation(tokens[c].kind) ==> IsPart(tokens, c - 1)
    ensures var r := CommandFrom(input, tokens, c, cmd);
      && (r.Fail? ==> !AllFit(tokens, c, |tokens|))
      && (r.Done? ==> AllFit(tokens, c, r.value.1) && !IsPart(tokens, r.value.1) && (IsPart(tokens, c) ==> IsPart(tokens, r.value.1 - 1)))
    decreases |tokens| - c
  {
    hide Stands, WithWord, ParseRedirect, Fits, IsNegation, InPrefix;
    if IsPart(tokens, c) {
      if tokens[c].kind.WordToken? {
        WordStands(input, tokens, c, cmd);
        var w := WithWord(input, tokens, c, cmd);
        if w.Done? { CommandFits(input, tokens, c + 1, w.value); }
      } else {
        RedirectStands(tokens, c, cmd);
        var r := ParseRedirect(tokens, c + 1, tokens[c].kind.redirect);
        if r.Done? {
          var next := cmd.(redirects := cmd.redirects + [r.value.0]);
          CommandFits(input, tokens, r.value.1, next);
        }
      }
    }
  }

  /** A command is parsed where one starts, exactly if its tokens fit. */
  lemma OneCommandFits(input: string, tokens: Tokens, c: nat)
    requires InBounds(input, tokens) && c <= |tokens| && !IsPart(tokens, c - 1)
    ensures var r := ParseCommand(input, tokens, c);
      && (r.Fail? ==> !IsPart(tokens, c) || !AllFit(tokens, c, |tokens|))
      && (r.Done? ==> IsPart(tokens, c) && AllFit(tokens, c, r.value.1) && IsPart(tokens, r.value.1 - 1) && !IsPart(tokens, r.value.1))
  {
    hide CommandFrom;
    if IsPart(tokens, c) && !IsNegation(tokens[c].kind) { CommandFits(input, tokens, c, SimpleCommand([], [], [])); }
    if IsPart(tokens, c) && IsNegation(tokens[c].kind) { assert !Fits(tokens, c); }
  }

  // ----------------------------------------------------------------------- operators

  /** Newlines are passed over, up to what is none. */
  lemma {:induction false} SkipsTo(tokens: Tokens, c: nat)
    requires c <= |tokens|
    ensures var end := SkipNewlines(tokens, c);
      && (forall k :: c <= k < end ==> tokens[k].kind == Newline) && (end < |tokens| ==> tokens[end].kind != Newline)
      && AllFit(tokens, c, end)
      && (c < end ==> !IsPart(tokens, end - 1))
    decreases |tokens| - c
  {
    if c < |tokens| && tokens[c].kind == Newline { SkipsTo(tokens, c + 1); }
  }

  /** An operator fits exactly if a command ends before it and one starts after its newlines. */
  lemma OperatorFits(tokens: Tokens, i: nat)
    requires i < |tokens| && (tokens[i].kind.Pipe? || tokens[i].kind.AndIf? || tokens[i].kind.OrIf?)
    ensures Fits(tokens, i) <==> IsPart(tokens, i - 1) && IsPart(tokens, SkipNewlines(tokens, i + 1))
    ensures !IsPart(tokens, SkipNewlines(tokens, i + 1) - 1)
  {
    hide SkipNewlines;
    SkipsTo(tokens, i + 1);
    var end := SkipNewlines(tokens, i + 1);
    if j :| i < j && IsPart(tokens, j) && forall k :: i < k < j ==> tokens[k].kind == Newline {
      assert j == end;
    }
  }

  /** What ends where a command does and starts nothing more of its kind. */
  predicate StopsAt(tokens: Tokens, c: nat) { c <= |tokens| && IsPart(tokens, c - 1) && !IsPart(tokens, c) }

  lemma {:induction false} PipedFits(input: string, tokens: Tokens, c: nat, commands: seq<SimpleCommand>)
    requires InBounds(input, tokens) && StopsAt(tokens, c)
    ensures var r := PipelineFrom(input, tokens, c, commands);
      && (r.Fail? ==> !AllFit(tokens, c, |tokens|))
      && (r.Done? ==> AllFit(tokens, c, r.value.1) && StopsAt(tokens, r.value.1) && !IsAt(tokens, r.value.1, Pipe))
    decreases |tokens| - c
  {
    hide ParseCommand, Fits, SkipNewlines, IsPart;
    if IsAt(tokens, c, Pipe) {
      var next := SkipNewlines(tokens, c + 1);
      OperatorFits(tokens, c);
      SkipsTo(tokens, c + 1);
      OneCommandFits(input, tokens, next);
      var cmd := ParseCommand(input, tokens, next);
      if cmd.Done? { PipedFits(input, tokens, cmd.value.1, commands + [cmd.value.0]); }
    }
  }

  lemma OnePipelineFits(input: string, tokens: Tokens, c: nat)
    requires InBounds(input, tokens) && c <= |tokens| && !IsPart(tokens, c - 1)
    ensures var r := ParsePipeline(input, tokens, c);
      && (r.Fail? ==> !IsPart(tokens, c) || !AllFit(tokens, c, |tokens|))
      && (r.Done? ==> IsPart(tokens, c) && AllFit(tokens, c, r.value.1) && StopsAt(tokens, r.value.1) && !IsAt(tokens, r.value.1, Pipe))
  {
    hide ParseCommand, PipelineFrom, Fits, IsPart;
    OneCommandFits(input, tokens, c);
    var first := ParseCommand(input, tokens, c);
    if first.Done? { PipedFits(input, tokens, first.value.1, [first.value.0]); }
  }

  lemma {:induction false} RestFits(input: string, tokens: Tokens, c: nat, list: AndOrList)
    requires InBounds(input, tokens) && StopsAt(tokens, c) && !IsAt(tokens, c, Pipe)
    ensures var r := AndOrFrom(input, tokens, c, list);
      && (r.Fail? ==> !AllFit(tokens, c, |tokens|))
      && (r.Done? ==> AllFit(tokens, c, r.value.1) && StopsAt(tokens, r.value.1)
                      && (r.value.1 < |tokens| ==> tokens[r.value.1].kind.Semi? || tokens[r.value.1].kind.Newline?))
    decreases |tokens| - c
  {
    hide ParsePipeline, Fits, SkipNewlines;
    if IsAt(tokens, c, AndIf) || IsAt(tokens, c, OrIf) {
      var op, next := if IsAt(tokens, c, AndIf) then And else Or, SkipNewlines(tokens, c + 1);
      OperatorFits(tokens, c);
      SkipsTo(tokens, c + 1);
      OnePipelineFits(input, tokens, next);
      var p := ParsePipeline(input, tokens, next);
      if p.Done? { RestFits(input, tokens, p.value.1, list.(rest := list.rest + [AndOr(op, p.value.0)])); }
    }
  }

  lemma OneListFits(input: string, tokens: Tokens, c: nat)
    requires InBounds(input, tokens) && c <= |tokens| && !IsPart(tokens, c - 1)
    ensures var r := ParseAndOr(input, tokens, c);
      && (r.Fail? ==> !IsPart(tokens, c) || !AllFit(tokens, c, |tokens|))
      && (r.Done? ==> IsPart(tokens, c) && AllFit(tokens, c, r.value.1) && StopsAt(tokens, r.value.1)
                      && (r.value.1 < |tokens| ==> tokens[r.value.1].kind.Semi? || tokens[r.value.1].kind.Newline?))
  {
    hide ParsePipeline, AndOrFrom, Fits, IsPart;
    OnePipelineFits(input, tokens, c);
    var first := ParsePipeline(input, tokens, c);
    if first.Done? { RestFits(input, tokens, first.value.1, AndOrList(first.value.0, [])); }
  }

  lemma {:induction false} ListsFit(input: string, tokens: Tokens, c: nat, lists: seq<AndOrList>)
    requires InBounds(input, tokens) && c <= |tokens| && !IsPart(tokens, c - 1) && !IsAt(tokens, c, Newline)
    ensures ProgramFrom(input, tokens, c, lists).Done? <==> AllFit(tokens, c, |tokens|)
    decreases |tokens| - c
  {
    hide ParseAndOr, SkipNewlines;
    if c < |tokens| {
      OneListFits(input, tokens, c);
      var list := ParseAndOr(input, tokens, c);
      if list.Done? {
        var next := list.value.1;
        if next < |tokens| {
          var after := SkipNewlines(tokens, next + 1);
          SkipsTo(tokens, next + 1);
          ListsFit(input, tokens, after, lists + [list.value.0]);
          assert Fits(tokens, next);
          FitsOn(tokens, next + 1, after, |tokens|);
          FitsOn(tokens, c, next, |tokens|);
          NextFits(tokens, next);
        }
      } else if !IsPart(tokens, c) {
        assert !Fits(tokens, c);
      }
    }
  }

  lemma NextFits(tokens: Tokens, c: nat)
    requires c < |tokens| && Fits(tokens, c)
    ensures AllFit(tokens, c, |tokens|) <==> AllFit(tokens, c + 1, |tokens|)
  {
    hide Fits;
  }

  /** Tokens are a program exactly if every one of them fits where it stands. */
  lemma AcceptsExactly(input: string, tokens: Tokens)
    requires InBounds(input, tokens)
    ensures ProgramFrom(input, tokens, SkipNewlines(tokens, 0), []).Done? <==> forall i :: 0 <= i < |tokens| ==> Fits(tokens, i)
  {
    hide ProgramFrom, SkipNewlines, Fits;
    SkipsTo(tokens, 0);
    var c := SkipNewlines(tokens, 0);
    ListsFit(input, tokens, c, []);
    FitsOn(tokens, 0, c, |tokens|);
  }

  predicate AppendAt(s: string, k: nat) { k + 1 < |s| && s[k] == '+' && s[k + 1] == '=' }

  /** A word is refused there exactly if it begins, outside quotes, with a name and `+=`. */
  lemma AppendsIs(w: Word)
    ensures Appends(w) <==>
      && w.segments != [] && w.segments[0].Literal? && !w.segments[0].quoted
      && exists k: nat :: AppendAt(w.segments[0].value, k) && IsAssignmentName(w.segments[0].value[..k])
  {
    hide FindAppend, FindEquals, SourcePosition;
    if w.segments != [] && w.segments[0].Literal? && !w.segments[0].quoted {
      var s := w.segments[0].value;
      FindAppendIs(s);
      if k: nat :| AppendAt(s, k) && IsAssignmentName(s[..k]) {
        assert forall i :: 0 <= i < k ==> s[i] == s[..k][i];
      }
    }
  }

  lemma {:induction false} FindAppendIs(s: string)
    ensures var f := FindAppend(s);
      && (f < |s| ==> AppendAt(s, f))
      && forall k: nat :: AppendAt(s, k) ==> f <= k
  {
    if |s| >= 2 && !AppendAt(s, 0) {
      FindAppendIs(s[1..]);
      forall k: nat | AppendAt(s, k) ensures FindAppend(s) <= k {
        assert AppendAt(s[1..], k - 1);
      }
    }
  }

  // ------------------------------------------------------------------ where it says so

  /** Text without its line continuations. */
  function Unfolded(s: string): string {
    if |s| >= 2 && s[0] == '\\' && s[1] == '\n' then Unfolded(s[2..])
    else if s == "" then "" else [s[0]] + Unfolded(s[1..])
  }

  /** The position found is that of the character wanted: the text up to it, without continuations,
      has as many characters as come before it. */
  lemma {:induction false} PositionCounts(input: string, p: nat, literal: nat, target: nat)
    requires p <= |input| && literal <= target
    ensures var q := SourcePosition(input, p, literal, target);
      && p <= q <= |input|
      && (q == |input| || IsWordBreak(input[q]) || literal + |Unfolded(input[p..q])| == target)
    decreases |input| - p
  {
    var q := SourcePosition(input, p, literal, target);
    if p >= |input| || literal == target || IsWordBreak(input[p]) {
      assert input[p..q] == "";
    } else if input[p] == '\\' && LexSpec.At(input, p + 1, '\n') {
      PositionCounts(input, p + 2, literal, target);
      assert input[p..q][2..] == input[p + 2..q] && input[p..q][0] == '\\' && input[p..q][1] == '\n';
    } else {
      PositionCounts(input, p + 1, literal + 1, target);
      var s := input[p..q];
      assert s[1..] == input[p + 1..q] && s[0] == input[p] && (|s| >= 2 ==> s[1] == input[p + 1]);
    }
  }

  /** With no continuation in it, a name and `+=` at `p` is refused at its `+`. */
  lemma AppendRefused(input: string, p: nat, name: string, rest: string, more: seq<Segment>)
    requires IsAssignmentName(name) && p + |name| + 2 <= |input| && input[p..p + |name|] == name
    ensures AssignmentFromWord(input, Word([Literal(name + "+=" + rest, false)] + more), p) == Refuse(p + |name|, AppendAssignment)
  {
    hide FindAppend, FindEquals, SourcePosition;
    var s := name + "+=" + rest;
    assert ([Literal(s, false)] + more)[0] == Literal(s, false);
    assert forall i :: 0 <= i < |name| ==> s[i] == name[i];
    FindAppendIs(s);
    assert AppendAt(s, |name|) && s[..|name|] == name;
    NamePosition(input, p, 0, name);
  }

  lemma {:induction false} NamePosition(input: string, p: nat, literal: nat, name: string)
    requires p + |name| <= |input| && input[p..p + |name|] == name && forall i :: 0 <= i < |name| ==> IsNameContinue(name[i])
    ensures SourcePosition(input, p, literal, literal + |name|) == p + |name|
    decreases |name|
  {
    if name != "" {
      assert input[p] == input[p..p + |name|][0];
      assert input[p + 1..p + |name|] == input[p..p + |name|][1..];
      NamePosition(input, p + 1, literal + 1, name[1..]);
    }
  }
}
