/** What one pipeline's expansions may hold in all, and what quoted lists expand to. */
module ShellBudget {
  import opened Base
  import opened Shell
  import opened ParseSpec
  import opened ShellRoundTrip
  import opened ExpandSpec
  import opened Expansion

  // ------------------------------------------------------------------ conservation

  function Held(fields: seq<string>): nat {
    if fields == [] then 0 else StringSize + Bytes(fields[0]) + Held(fields[1..])
  }

  function HeldAll(targets: seq<seq<string>>): nat {
    if targets == [] then 0 else VecSize + Held(targets[0]) + HeldAll(targets[1..])
  }

  /** What an expanded command keeps in memory. */
  ghost function Produced(x: Expanded): nat { CommandSize + EnvCost(x.env) + Held(x.words) + HeldAll(x.targets) }

  lemma {:induction false} HeldAdds(a: seq<string>, b: seq<string>)
    ensures Held(a + b) == Held(a) + Held(b)
  {
    if a == [] {
      assert a + b == b;
    } else {
      assert (a + b)[1..] == a[1..] + b;
      HeldAdds(a[1..], b);
    }
  }

  function TagBytes(tags: seq<Tag>): nat {
    if tags == [] then 0 else (if tags[0].Content? then CharBytes(tags[0].c) else 0) + TagBytes(tags[1..])
  }

  lemma {:induction false} TagBytesAdds(a: seq<Tag>, b: seq<Tag>)
    ensures TagBytes(a + b) == TagBytes(a) + TagBytes(b)
  {
    if a == [] {
      assert a + b == b;
    } else {
      assert (a + b)[1..] == a[1..] + b;
      TagBytesAdds(a[1..], b);
    }
  }

  lemma BytesLast(s: string, c: char)
    ensures Bytes(s + [c]) == Bytes(s) + CharBytes(c)
  {
    assert (s + [c])[..|s|] == s;
  }

  lemma {:induction false} TextTagBytes(text: string, splits: bool)
    ensures TagBytes(TagText(text, splits)) <= Bytes(text)
  {
    if text != "" {
      var n := |text| - 1;
      TextTagBytes(text[..n], splits);
      var last := TagText(text, splits)[n..];
      assert TagText(text, splits) == TagText(text[..n], splits) + last;
      TagBytesAdds(TagText(text[..n], splits), last);
      assert last[1..] == [] && TagBytes(last) == (if last[0].Content? then CharBytes(last[0].c) else 0) + TagBytes([]);
    }
  }

  lemma {:induction false} TagsBytes(segments: seq<Segment>, env: Env, status: int, split: bool)
    ensures TagBytes(Tags(segments, env, status, split)) <= ValueBytes(segments, env, status)
  {
    if segments != [] {
      var s := segments[0];
      var mark: seq<Tag> := if Splits(s, split) then [] else [Mark];
      var text, more := TagText(Value(s, env, status), Splits(s, split)), Tags(segments[1..], env, status, split);
      TagBytesAdds(mark + text, more);
      TagBytesAdds(mark, text);
      assert TagBytes(mark) == 0 by { assert mark != [] ==> mark[1..] == []; }
      TextTagBytes(Value(s, env, status), Splits(s, split));
      TagsBytes(segments[1..], env, status, split);
    }
  }

  /** Fields hold no more than the text they come from. */
  lemma {:induction false} RestBytes(current: string, keep: bool, tags: seq<Tag>)
    requires !keep ==> current == ""
    ensures Held(Rest(current, keep, tags)) <= Bytes(current) + TagBytes(tags) + StringSize * |Rest(current, keep, tags)|
    decreases |tags|
  {
    if tags == [] {
      assert [current][1..] == [];
    } else {
      match tags[0]
      case Mark => RestBytes(current, true, tags[1..]);
      case Content(c) => BytesLast(current, c); RestBytes(current + [c], true, tags[1..]);
      case Separator =>
        RestBytes("", false, tags[1..]);
        assert ([current] + Rest("", false, tags[1..]))[1..] == Rest("", false, tags[1..]);
    }
  }

  /** A word's fields hold no more than the word was charged. */
  lemma FieldsHeld(word: Word, env: Env, status: int, split: bool)
    ensures Held(Fields(word, env, status, split)) <= WordCost(word, env, status, split)
  {
    var tags := Tags(word.segments, env, status, split);
    FieldsAreRest(word, env, status, split);
    assert [] + Rest("", !split, tags) == Rest("", !split, tags);
    RestBytes("", !split, tags);
    TagsBytes(word.segments, env, status, split);
  }

  lemma {:induction false} WordsHeld(words: seq<Word>, env: Env, status: int)
    ensures Held(WordsFields(words, env, status)) <= WordsCost(words, env, status)
  {
    hide Fields, WordCost;
    if words != [] {
      HeldAdds(Fields(words[0], env, status, true), WordsFields(words[1..], env, status));
      FieldsHeld(words[0], env, status, true);
      WordsHeld(words[1..], env, status);
    }
  }

  lemma {:induction false} TargetsHeld(redirects: seq<Redirect>, env: Env, status: int)
    ensures HeldAll(Targets(redirects, env, status)) <= TargetsCost(redirects, env, status)
  {
    hide Fields, WordCost;
    if redirects != [] {
      var t := redirects[0].target;
      if t.WordTarget? { FieldsHeld(t.word, env, status, true); }
      TargetsHeld(redirects[1..], env, status);
      var rest := Targets(redirects[1..], env, status);
      assert ([TargetFields(t, env, status)] + rest)[1..] == rest;
    }
  }

  lemma EnvInsert(env: Env, k: string, v: string)
    ensures EnvCost(env[k := v]) <= EnvCost(env) + EntryCost(k, v)
  {
    EnvCostWithout(env[k := v], k);
    if k in env {
      EnvCostWithout(env, k);
      assert env[k := v] - {k} == env - {k};
    } else {
      assert env[k := v] - {k} == env;
    }
  }

  lemma {:induction false} AssignHeld(assignments: seq<Assignment>, env: Env, status: int)
    ensures EnvCost(AssignEnv(assignments, env, status)) <= EnvCost(env) + AssignCost(assignments, env, status)
    decreases |assignments|
  {
    hide Fields, WordCost, EnvCost;
    if assignments != [] {
      var a := assignments[0];
      OneField(a.value, env, status);
      var fields := Fields(a.value, env, status, false);
      FieldsHeld(a.value, env, status, false);
      assert fields[1..] == [] && Held(fields) == StringSize + Bytes(fields[0]) + Held([]);
      EnvInsert(env, a.name, fields[0]);
      AssignHeld(assignments[1..], env[a.name := fields[0]], status);
    }
  }

  /** What a command's expansion keeps was charged for. */
  lemma CommandHeld(cmd: SimpleCommand, base: Env, status: int)
    ensures Produced(Expand(cmd, base, status)) <= ExpandCost(cmd, base, status)
  {
    hide EnvCost;
    AssignHeld(cmd.assignments, base, status);
    WordsHeld(cmd.words, base, status);
    var x := Expand(cmd, base, status);
    TargetsHeld(cmd.redirects, if x.words == [] then x.env else base, status);
  }

  // --------------------------------------------------------------------- pipelines

  function ExpandAll(commands: seq<SimpleCommand>, base: Env, status: int): seq<Expanded> {
    if commands == [] then [] else [Expand(commands[0], base, status)] + ExpandAll(commands[1..], base, status)
  }

  ghost function PipelineCost(commands: seq<SimpleCommand>, base: Env, status: int): nat {
    if commands == [] then 0 else ExpandCost(commands[0], base, status) + PipelineCost(commands[1..], base, status)
  }

  ghost function ProducedAll(xs: seq<Expanded>): nat { if xs == [] then 0 else Produced(xs[0]) + ProducedAll(xs[1..]) }

  lemma {:induction false} PipelineHeld(commands: seq<SimpleCommand>, base: Env, status: int)
    ensures ProducedAll(ExpandAll(commands, base, status)) <= PipelineCost(commands, base, status)
  {
    hide Produced, ExpandCost, Expand;
    if commands != [] {
      CommandHeld(commands[0], base, status);
      PipelineHeld(commands[1..], base, status);
      var rest := ExpandAll(commands[1..], base, status);
      assert ([Expand(commands[0], base, status)] + rest)[1..] == rest;
    }
  }

  /** The expansion of every stage of a pipeline under one budget, before any stage runs: it
      succeeds exactly if the budget covers all of it, and all it keeps fits in the budget. */
  method ExpandPipeline(commands: seq<SimpleCommand>, base: Env, status: int, shellInput: nat, hostInput: nat)
    returns (r: Option<seq<Expanded>>)
    ensures r.Some? <==> PipelineCost(commands, base, status) <= shellInput || PipelineCost(commands, base, status) <= hostInput
    ensures r.Some? ==> r.value == ExpandAll(commands, base, status)
    ensures r.Some? ==> ProducedAll(r.value) <= shellInput || ProducedAll(r.value) <= hostInput
  {
    hide Expand, ExpandCost, Produced;
    var bytes := if shellInput < hostInput then hostInput else shellInput;
    var budget := new Budget(bytes);
    var out, i := [], 0;
    assert commands[0..] == commands;
    while i < |commands|
      invariant i <= |commands|
      invariant ExpandAll(commands, base, status) == out + ExpandAll(commands[i..], base, status)
      invariant budget.left + PipelineCost(commands, base, status) == bytes + PipelineCost(commands[i..], base, status)
    {
      assert commands[i..][0] == commands[i] && commands[i..][1..] == commands[i + 1..];
      var x := budget.ExpandCommand(commands[i], base, status);
      if x.None? { return None; }
      ghost var rest := ExpandAll(commands[i + 1..], base, status);
      assert out + ([x.value] + rest) == out + [x.value] + rest;
      out := out + [x.value];
      i := i + 1;
    }
    assert out + [] == out;
    PipelineHeld(commands, base, status);
    r := Some(out);
  }

  // ------------------------------------------------------------- quoted lists

  lemma {:induction false} QuotedRest(segments: seq<Segment>, env: Env, status: int, current: string, keep: bool)
    requires AllQuoted(segments)
    ensures Rest(current, keep, Tags(segments, env, status, true))
      == if keep || segments != [] then [current + Text(segments)] else []
    decreases |segments|
  {
    if segments == [] {
      assert current + "" == current;
    } else {
      hide Rest, Tags;
      var text, more := segments[0].value, Tags(segments[1..], env, status, true);
      assert segments[0..] == segments;
      SegmentTags(segments, 0, env, status, true);
      MarkedText(current, keep, text, more);
      QuotedRest(segments[1..], env, status, current + text, true);
      Assoc(current, text, Text(segments[1..]));
    }
  }

  /** A quoted word is one field, its text, under any environment. */
  lemma QuotedField(w: Word, x: string, env: Env, status: int)
    requires IsQuotedWord(w, x)
    ensures Fields(w, env, status, true) == [x]
  {
    FieldsAreRest(w, env, status, true);
    QuotedRest(w.segments, env, status, "", false);
    assert "" + x == x;
  }

  lemma {:induction false} QuotedFields(words: seq<Word>, xs: seq<string>, env: Env, status: int)
    requires |words| == |xs| && forall i :: 0 <= i < |xs| ==> IsQuotedWord(words[i], xs[i])
    ensures WordsFields(words, env, status) == xs
    decreases |xs|
  {
    hide Fields, IsQuotedWord;
    if xs != [] {
      QuotedField(words[0], xs[0], env, status);
      QuotedFields(words[1..], xs[1..], env, status);
      assert xs == [xs[0]] + xs[1..];
    }
  }

  /** The round trip: quote each string of a non-empty list, space them with blanks, and the
      shell reads one simple command whose expansion is the list, in any environment. */
  lemma RoundTrip(xs: seq<string>, gaps: seq<string>, env: Env, status: int) returns (cmd: SimpleCommand)
    requires xs != [] && IsSpacing(gaps, |xs|)
    ensures Parse(Line(xs, gaps)) == Done(Program([AndOrList(Pipeline([cmd]), [])]))
    ensures cmd.assignments == [] && cmd.redirects == []
    ensures Expand(cmd, env, status) == Expanded(env, xs, [])
  {
    hide Parse, Line;
    var words := QuotedLineParses(xs, gaps);
    cmd := SimpleCommand([], words, []);
    QuotedFields(words, xs, env, status);
  }

  // -------------------------------------------------------------- what it all costs

  lemma {:induction false} BytesAdd(a: string, b: string)
    ensures Bytes(a + b) == Bytes(a) + Bytes(b)
    decreases |b|
  {
    if b == "" {
      assert a + b == a;
    } else {
      var n := |b| - 1;
      assert (a + b)[..|a + b| - 1] == a + b[..n];
      BytesAdd(a, b[..n]);
    }
  }

  /** The first code point that does not fit `n` bytes of UTF-8: 7, 11, 16 and 21 bits. */
  function Capacity(n: nat): nat
    requires 1 <= n <= 4
  {
    if n == 1 then 0x80 else if n == 2 then 0x20 * 0x40 else if n == 3 then 0x10 * 0x40 * 0x40 else 0x8 * 0x40 * 0x40 * 0x40
  }

  /** A character takes the fewest bytes that hold it. */
  lemma CharBytesLeast(c: char)
    ensures var n := CharBytes(c); 1 <= n <= 4 && c as int < Capacity(n) && (n > 1 ==> c as int >= Capacity(n - 1))
  {
  }

  /** A character of ASCII is one byte. */
  lemma {:induction false} AsciiBytes(s: string)
    requires forall i :: 0 <= i < |s| ==> s[i] as int < 128
    ensures Bytes(s) == |s|
  {
    if s != "" { AsciiBytes(s[..|s| - 1]); }
  }

  lemma {:induction false} QuotedBytes(segments: seq<Segment>, env: Env, status: int)
    requires AllQuoted(segments)
    ensures ValueBytes(segments, env, status) == Bytes(Text(segments))
  {
    if segments != [] {
      QuotedBytes(segments[1..], env, status);
      BytesAdd(segments[0].value, Text(segments[1..]));
    }
  }

  /** The bytes of each string and 24 more. */
  function ListCost(xs: seq<string>): nat { if xs == [] then 0 else 24 + Bytes(xs[0]) + ListCost(xs[1..]) }

  lemma {:induction false} QuotedWordsCost(words: seq<Word>, xs: seq<string>, env: Env, status: int)
    requires |words| == |xs| && forall i :: 0 <= i < |xs| ==> IsQuotedWord(words[i], xs[i])
    ensures WordsCost(words, env, status) == ListCost(xs)
    decreases |xs|
  {
    hide Fields;
    if xs != [] {
      QuotedField(words[0], xs[0], env, status);
      QuotedBytes(words[0].segments, env, status);
      QuotedWordsCost(words[1..], xs[1..], env, status);
    }
  }

  /** Expanding a quoted list takes exactly 80 bytes, the environment, and the list: so a budget of
      that much is enough, and one byte less is not. */
  lemma QuotedListCost(words: seq<Word>, xs: seq<string>, env: Env, status: int)
    requires |words| == |xs| && forall i :: 0 <= i < |xs| ==> IsQuotedWord(words[i], xs[i])
    ensures ExpandCost(SimpleCommand([], words, []), env, status) == 80 + EnvCost(env) + ListCost(xs)
  {
    hide EnvCost, WordsCost;
    QuotedWordsCost(words, xs, env, status);
  }

  /** Each variable of the environment takes its two texts and 48 bytes. */
  lemma EnvCostAdds(env: Env, k: string, v: string)
    requires k !in env
    ensures EnvCost(env[k := v]) == EnvCost(env) + 48 + Bytes(k) + Bytes(v) && EnvCost(map[]) == 0
  {
    EnvCostWithout(env[k := v], k);
    assert env[k := v] - {k} == env;
    EmptyEnv(map[]);
  }

  /** An assignment takes its name, its value and 48 bytes; a redirect its target and 24. */
  lemma PartsCost(n: string, v: string, fd: nat, env: Env, status: int)
    ensures AssignCost([Assignment(n, Word([Literal(v, true)]))], env, status) == 48 + Bytes(n) + Bytes(v)
    ensures TargetsCost([Redirect(None, Write, FdTarget(fd))], env, status) == 24
    ensures TargetsCost([Redirect(None, Write, WordTarget(Word([Literal(v, true)])))], env, status) == 48 + Bytes(v)
  {
    hide Fields, Bytes;
    var w, a := Word([Literal(v, true)]), Assignment(n, Word([Literal(v, true)]));
    OneField(w, env, status);
    assert IsQuotedWord(w, v) by { assert [Literal(v, true)][1..] == [] && Text([Literal(v, true)]) == v + ""; }
    QuotedField(w, v, env, status);
    assert [Literal(v, true)][1..] == [] && ValueBytes(w.segments, env, status) == Bytes(v) + ValueBytes([], env, status);
    assert [a][1..] == [];
    var f, t := Redirect(None, Write, FdTarget(fd)), Redirect(None, Write, WordTarget(w));
    assert [f][1..] == [] && [t][1..] == [];
  }
}
