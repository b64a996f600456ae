/** Expansion under a byte budget: src/sandbox/expansion.rs, and the pipeline that shares one
    budget, src/sandbox/mod.rs. */
module Expansion {
  import opened Base
  import opened Shell
  import opened ExpandSpec

  // ---------------------------------------------------------------- one command

  /** Assignments see the ones before them. */
  function AssignEnv(assignments: seq<Assignment>, env: Env, status: int): Env {
    if assignments == [] then env else
    var a := assignments[0];
    OneField(a.value, env, status);
    AssignEnv(assignments[1..], env[a.name := Fields(a.value, env, status, false)[0]], status)
  }

  function AssignCost(assignments: seq<Assignment>, env: Env, status: int): nat {
    if assignments == [] then 0 else
    var a := assignments[0];
    OneField(a.value, env, status);
    StringSize + Bytes(a.name) + WordCost(a.value, env, status, false)
    + AssignCost(assignments[1..], env[a.name := Fields(a.value, env, status, false)[0]], status)
  }

  function WordsFields(words: seq<Word>, env: Env, status: int): seq<string> {
    if words == [] then [] else Fields(words[0], env, status, true) + WordsFields(words[1..], env, status)
  }

  function WordsCost(words: seq<Word>, env: Env, status: int): nat {
    if words == [] then 0 else WordCost(words[0], env, status, true) + WordsCost(words[1..], env, status)
  }

  function TargetFields(t: RedirectTarget, env: Env, status: int): seq<string> {
    if t.FdTarget? then [] else Fields(t.word, env, status, true)
  }

  function TargetCost(t: RedirectTarget, env: Env, status: int): nat {
    VecSize + if t.FdTarget? then 0 else WordCost(t.word, env, status, true)
  }

  function Targets(redirects: seq<Redirect>, env: Env, status: int): seq<seq<string>> {
    if redirects == [] then [] else [TargetFields(redirects[0].target, env, status)] + Targets(redirects[1..], env, status)
  }

  function TargetsCost(redirects: seq<Redirect>, env: Env, status: int): nat {
    if redirects == [] then 0 else TargetCost(redirects[0].target, env, status) + TargetsCost(redirects[1..], env, status)
  }

  function EntryCost(name: string, value: string): nat { 2 * StringSize + Bytes(name) + Bytes(value) }

  ghost function EnvCost(env: Env): nat
    decreases |env.Keys|
  {
    if env.Keys == {} then 0 else
    var k :| k in env.Keys;
    assert (env - {k}).Keys == env.Keys - {k};
    EntryCost(k, env[k]) + EnvCost(env - {k})
  }

  lemma {:induction false} EnvCostWithout(env: Env, k: string)
    requires k in env
    ensures EnvCost(env) == EntryCost(k, env[k]) + EnvCost(env - {k})
    decreases |env.Keys|
  {
    hide EntryCost;
    var j :| j in env.Keys && EnvCost(env) == EntryCost(j, env[j]) + EnvCost(env - {j});
    if j != k {
      assert (env - {j}).Keys == env.Keys - {j} && (env - {k}).Keys == env.Keys - {k};
      EnvCostWithout(env - {j}, k);
      EnvCostWithout(env - {k}, j);
      assert env - {j} - {k} == env - {k} - {j};
    }
  }

  datatype Expanded = Expanded(env: Env, words: seq<string>, targets: seq<seq<string>>)

  /** Words see the environment the command was given; so do redirects, unless there is no word. */
  function Expand(cmd: SimpleCommand, base: Env, status: int): Expanded {
    var env := AssignEnv(cmd.assignments, base, status);
    var words := WordsFields(cmd.words, base, status);
    Expanded(env, words, Targets(cmd.redirects, if words == [] then env else base, status))
  }

  ghost function ExpandCost(cmd: SimpleCommand, base: Env, status: int): nat {
    var env := AssignEnv(cmd.assignments, base, status);
    var words := WordsFields(cmd.words, base, status);
    CommandSize + EnvCost(base) + AssignCost(cmd.assignments, base, status) + WordsCost(cmd.words, base, status)
    + TargetsCost(cmd.redirects, if words == [] then env else base, status)
  }

  // ------------------------------------------------------------------- the budget

  /** Where the part that starts at `i` ends: at a space, or at the end. */
  function PartEnd(value: string, i: nat): (j: nat)
    requires i <= |value|
    ensures i <= j <= |value| && (forall k :: i <= k < j ==> !IsSpace(value[k])) && (j < |value| ==> IsSpace(value[j]))
    decreases |value| - i
  {
    if i < |value| && !IsSpace(value[i]) then PartEnd(value, i + 1) else i
  }

  lemma PartTags(value: string, i: nat, j: nat, more: seq<Tag>)
    requires i <= j < |value| && IsSpace(value[j]) && forall k :: i <= k < j ==> !IsSpace(value[k])
    ensures TagText(value[i..], true) + more == TagText(value[i..j], true) + ([Separator] + (TagText(value[j + 1..], true) + more))
  {
    var a, b := TagText(value[i..], true), TagText(value[i..j], true) + [Separator] + TagText(value[j + 1..], true);
    assert |a| == |b|;
    forall k | 0 <= k < |a| ensures a[k] == b[k] {
      if k > j - i { assert value[i..][k] == value[j + 1..][k - (j - i) - 1]; }
    }
    assert a == b;
  }

  class Budget {
    var left: nat

    constructor (bytes: nat)
      ensures left == bytes
    {
      left := bytes;
    }

    /** Takes the bytes if they are there, and never more than that. */
    method Charge(bytes: nat) returns (ok: bool)
      modifies this
      ensures ok == (bytes <= old(left))
      ensures left == if ok then old(left) - bytes else old(left)
    {
      ok := bytes <= left;
      if ok { left := left - bytes; }
    }

    /** The inner loop of `word`: the parts of one value that is to be split. */
    method SplitValue(value: string, fields: seq<string>, current: string, keep: bool, ghost more: seq<Tag>)
      returns (ok: bool, fields': seq<string>, current': string, keep': bool)
      requires !keep ==> current == ""
      modifies this
      ensures |fields'| >= |fields| && (!keep' ==> current' == "")
      ensures ok ==> fields' + Rest(current', keep', more) == fields + Rest(current, keep, TagText(value, true) + more)
      ensures ok ==> left + StringSize * |fields'| == old(left) + StringSize * |fields|
      ensures !ok ==> StringSize * |Rest(current, keep, TagText(value, true) + more)| > old(left)
    {
      ok, fields', current', keep' := true, fields, current, keep;
      var i := 0;
      assert value[0..] == value;
      ghost var all := fields + Rest(current, keep, TagText(value, true) + more);
      while i < |value|
        invariant i <= |value| && |fields'| >= |fields| && (!keep' ==> current' == "")
        invariant fields' + Rest(current', keep', TagText(value[i..], true) + more) == all
        invariant left + StringSize * |fields'| == old(left) + StringSize * |fields|
      {
        var j := PartEnd(value, i);
        var text := value[i..j];
        if j == |value| {
          assert value[i..] == text;
          RestText(current', keep', text, true, more);
          assert TagText(value[j..], true) + more == more;
          current', keep' := current' + text, keep' || text != "";
          i := j;
        } else {
          ghost var ahead := TagText(value[j + 1..], true) + more;
          PartTags(value, i, j, more);
          RestSeparator(current', keep', text, ahead);
          current', keep' := current' + text, keep' || text != "";
          if keep' {
            ok := Charge(StringSize);
            if !ok { return; }
            assert fields' + ([current'] + Rest("", false, ahead)) == fields' + [current'] + Rest("", false, ahead);
            fields', current', keep' := fields' + [current'], "", false;
          } else {
            assert [] + Rest("", false, ahead) == Rest("", false, ahead);
          }
          i := j + 1;
        }
      }
      assert TagText(value[i..], true) + more == more;
    }

    /** A word's fields, if the budget covers them. */
    method ExpandWord(word: Word, env: Env, status: int, split: bool) returns (r: Option<seq<string>>)
      modifies this
      ensures r.Some? <==> WordCost(word, env, status, split) <= old(left)
      ensures r.Some? ==> r.value == Fields(word, env, status, split) && left == old(left) - WordCost(word, env, status, split)
    {
      hide Rest, Tags, Fields, Groups, Kept, ValueBytes, Bytes, Value, TagText;
      var segments := word.segments;
      var fields, current, keep := [], "", !split;
      ghost var all := Fields(word, env, status, split);
      ghost var total := ValueBytes(segments, env, status);
      assert segments[0..] == segments;
      FieldsAreRest(word, env, status, split);
      var i := 0;
      while i < |segments|
        invariant i <= |segments| && (!keep ==> current == "")
        invariant all == fields + Rest(current, keep, Tags(segments[i..], env, status, split))
        invariant left + total + StringSize * |fields| == old(left) + ValueBytes(segments[i..], env, status)
      {
        var segment := segments[i];
        var value, splits := Value(segment, env, status), Splits(segment, split);
        ghost var more := Tags(segments[i + 1..], env, status, split);
        SegmentTags(segments, i, env, status, split);
        var ok := Charge(Bytes(value));
        if !ok { return None; }
        if splits {
          ok, fields, current, keep := SplitValue(value, fields, current, keep, more);
          if !ok { return None; }
        } else {
          MarkedText(current, keep, value, more);
          current, keep := current + value, true;
        }
        i := i + 1;
      }
      assert segments[i..] == [];
      NothingLeft(current, keep, env, status, split);
      if keep {
        var ok := Charge(StringSize);
        if !ok { return None; }
        fields := fields + [current];
      }
      assert fields + [] == fields;
      r := Some(fields);
    }

    /** A command's expansion, if the budget covers it. */
    method ExpandCommand(cmd: SimpleCommand, base: Env, status: int) returns (r: Option<Expanded>)
      modifies this
      ensures r.Some? <==> ExpandCost(cmd, base, status) <= old(left)
      ensures r.Some? ==> r.value == Expand(cmd, base, status) && left == old(left) - ExpandCost(cmd, base, status)
    {
      hide Fields, WordCost, Bytes, EnvCost;
      var ok := Charge(CommandSize);
      if !ok { return None; }
      ok := ChargeEnv(base);
      if !ok { return None; }
      var env := Assign(cmd.assignments, base, status);
      if env.None? { return None; }
      var words := ExpandWords(cmd.words, base, status);
      if words.None? { return None; }
      var targets := ExpandTargets(cmd.redirects, if words.value == [] then env.value else base, status);
      if targets.None? { return None; }
      r := Some(Expanded(env.value, words.value, targets.value));
    }

    method ChargeEnv(base: Env) returns (ok: bool)
      modifies this
      ensures ok == (EnvCost(base) <= old(left))
      ensures ok ==> left == old(left) - EnvCost(base)
    {
      hide EnvCost, Bytes;
      var todo := base;
      while todo.Keys != {}
        invariant left + EnvCost(base) == old(left) + EnvCost(todo)
        decreases |todo.Keys|
      {
        var name :| name in todo.Keys;
        EnvCostWithout(todo, name);
        ok := Charge(2 * StringSize);
        if !ok { return; }
        ok := Charge(Bytes(name));
        if !ok { return; }
        ok := Charge(Bytes(todo[name]));
        if !ok { return; }
        assert (todo - {name}).Keys == todo.Keys - {name};
        todo := todo - {name};
      }
      EmptyEnv(todo);
      ok := true;
    }

    method Assign(assignments: seq<Assignment>, base: Env, status: int) returns (r: Option<Env>)
      modifies this
      ensures r.Some? <==> AssignCost(assignments, base, status) <= old(left)
      ensures r.Some? ==> r.value == AssignEnv(assignments, base, status) && left == old(left) - AssignCost(assignments, base, status)
    {
      hide Fields, WordCost, Bytes;
      var env, i := base, 0;
      assert assignments[0..] == assignments;
      while i < |assignments|
        invariant i <= |assignments|
        invariant AssignEnv(assignments, base, status) == AssignEnv(assignments[i..], env, status)
        invariant left + AssignCost(assignments, base, status) == old(left) + AssignCost(assignments[i..], env, status)
      {
        var a := assignments[i];
        assert assignments[i..][0] == a && assignments[i..][1..] == assignments[i + 1..];
        OneField(a.value, env, status);
        var ok := Charge(StringSize);
        if !ok { return None; }
        ok := Charge(Bytes(a.name));
        if !ok { return None; }
        var value := ExpandWord(a.value, env, status, false);
        if value.None? { return None; }
        env := env[a.name := value.value[|value.value| - 1]];
        i := i + 1;
      }
      r := Some(env);
    }

    method ExpandWords(words: seq<Word>, env: Env, status: int) returns (r: Option<seq<string>>)
      modifies this
      ensures r.Some? <==> WordsCost(words, env, status) <= old(left)
      ensures r.Some? ==> r.value == WordsFields(words, env, status) && left == old(left) - WordsCost(words, env, status)
    {
      hide Fields, WordCost;
      var out, i := [], 0;
      assert words[0..] == words;
      while i < |words|
        invariant i <= |words|
        invariant WordsFields(words, env, status) == out + WordsFields(words[i..], env, status)
        invariant left + WordsCost(words, env, status) == old(left) + WordsCost(words[i..], env, status)
      {
        assert words[i..][0] == words[i] && words[i..][1..] == words[i + 1..];
        var fields := ExpandWord(words[i], env, status, true);
        if fields.None? { return None; }
        ghost var rest := WordsFields(words[i + 1..], env, status);
        assert out + (fields.value + rest) == out + fields.value + rest;
        out := out + fields.value;
        i := i + 1;
      }
      assert out + [] == out;
      r := Some(out);
    }

    method ExpandTargets(redirects: seq<Redirect>, env: Env, status: int) returns (r: Option<seq<seq<string>>>)
      modifies this
      ensures r.Some? <==> TargetsCost(redirects, env, status) <= old(left)
      ensures r.Some? ==> r.value == Targets(redirects, env, status) && left == old(left) - TargetsCost(redirects, env, status)
    {
      hide Fields, WordCost;
      var out, i := [], 0;
      assert redirects[0..] == redirects;
      while i < |redirects|
        invariant i <= |redirects|
        invariant Targets(redirects, env, status) == out + Targets(redirects[i..], env, status)
        invariant left + TargetsCost(redirects, env, status) == old(left) + TargetsCost(redirects[i..], env, status)
      {
        var target := redirects[i].target;
        assert redirects[i..][0] == redirects[i] && redirects[i..][1..] == redirects[i + 1..];
        var ok := Charge(VecSize);
        if !ok { return None; }
        var fields: seq<string> := [];
        if target.WordTarget? {
          var expanded := ExpandWord(target.word, env, status, true);
          if expanded.None? { return None; }
          fields := expanded.value;
        }
        ghost var rest := Targets(redirects[i + 1..], env, status);
        assert out + ([fields] + rest) == out + [fields] + rest;
        out := out + [fields];
        i := i + 1;
      }
      assert out + [] == out;
      r := Some(out);
    }
  }

  lemma EmptyEnv(env: Env)
    requires env.Keys == {}
    ensures EnvCost(env) == 0
  {
  }

  lemma NothingLeft(current: string, keep: bool, env: Env, status: int, split: bool)
    ensures Rest(current, keep, Tags([], env, status, split)) == if keep then [current] else []
    ensures ValueBytes([], env, status) == 0
  {
  }

  lemma FieldsAreRest(word: Word, env: Env, status: int, split: bool)
    ensures Fields(word, env, status, split) == [] + Rest("", !split, Tags(word.segments, env, status, split))
  {
    var tags := Tags(word.segments, env, status, split);
    var g: seq<Tag> := if split then [] else [Mark];
    OnePass(g, tags);
    assert Chars([Mark]) == "" + Chars([]) == "";
    assert Chars([]) == "";
  }

  lemma SegmentTags(segments: seq<Segment>, i: nat, env: Env, status: int, split: bool)
    requires i < |segments|
    ensures var value, splits := Value(segments[i], env, status), Splits(segments[i], split);
      var more := Tags(segments[i + 1..], env, status, split);
      && Tags(segments[i..], env, status, split) == (if splits then TagText(value, true) + more else [Mark] + (TagText(value, false) + more))
      && ValueBytes(segments[i..], env, status) == Bytes(value) + ValueBytes(segments[i + 1..], env, status)
  {
    assert segments[i..][0] == segments[i] && segments[i..][1..] == segments[i + 1..];
    var value, splits := Value(segments[i], env, status), Splits(segments[i], split);
    var more := Tags(segments[i + 1..], env, status, split);
    if splits {
      assert [] + TagText(value, true) + more == TagText(value, true) + more;
    } else {
      assert [Mark] + TagText(value, false) + more == [Mark] + (TagText(value, false) + more);
    }
  }

  lemma MarkedText(current: string, keep: bool, text: string, more: seq<Tag>)
    ensures Rest(current, keep, [Mark] + (TagText(text, false) + more)) == Rest(current + text, true, more)
  {
    assert ([Mark] + (TagText(text, false) + more))[1..] == TagText(text, false) + more;
    RestText(current, true, text, false, more);
  }
}
