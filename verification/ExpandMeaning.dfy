/** What words and assignments expand to, said of the environment: src/sandbox/expansion.rs. */
module ExpandMeaning {
  import Base
  import opened Shell
  import opened ExpandSpec
  import opened Expansion
  import LexSpec

  // ---------------------------------------------------------------------- variables

  /** A quoted variable is one field, its value; empty if it is not set. */
  lemma QuotedVariable(n: string, env: Env, status: int)
    requires n != "?"
    ensures Fields(Word([Expansion(n, true)]), env, status, true) == [if n in env then env[n] else ""]
  {
    var text := if n in env then env[n] else "";
    FieldsAreRest(Word([Expansion(n, true)]), env, status, true);
    OneSegment(Expansion(n, true), env, status, true);
    MarkedText("", false, text, []);
    assert "" + text == text;
  }

  /** The tags of a word of one segment. */
  lemma OneSegment(s: Segment, env: Env, status: int, split: bool)
    ensures Tags([s], env, status, split) ==
      if Splits(s, split) then TagText(Value(s, env, status), true) else [Mark] + (TagText(Value(s, env, status), false) + [])
  {
    SegmentTags([s], 0, env, status, split);
    assert [s][0..] == [s] && [s][1..] == [];
    var text := TagText(Value(s, env, status), true);
    assert text + [] == text;
  }

  /** The maximal runs of characters that are not spaces, tabs or newlines. */
  function Runs(s: string): seq<string>
    decreases |s|
  {
    if s == "" then []
    else if IsSpace(s[0]) then Runs(s[1..])
    else [s[..RunLength(s)]] + Runs(s[RunLength(s)..])
  }

  function RunLength(s: string): (n: nat)
    ensures n <= |s| && (forall i :: 0 <= i < n ==> !IsSpace(s[i])) && (n < |s| ==> IsSpace(s[n]))
    ensures s != "" && !IsSpace(s[0]) ==> n > 0
  {
    if s == "" || IsSpace(s[0]) then 0 else RunLength(s[1..]) + 1
  }

  lemma {:induction false} RunsAreRest(s: string)
    ensures Rest("", false, TagText(s, true)) == Runs(s)
    decreases |s|
  {
    if s == "" {
      assert TagText(s, true) == [];
    } else {
      var n := RunLength(s);
      var run, rest := s[..n], s[n..];
      if n == |s| {
        assert run == s && rest == "";
        assert TagText(s, true) == TagText(s, true) + [];
        RestText("", false, s, true, []);
        assert "" + s == s && [s] + [] == [s];
      } else {
        var after := TagText(s[n + 1..], true);
        assert TagText(s, true) == TagText(run, true) + ([Separator] + after);
        RestSeparator("", false, run, after);
        RunsAreRest(s[n + 1..]);
        assert "" + run == run;
        if n == 0 {
          assert s[1..] == s[n + 1..];
          assert [] + Runs(s[1..]) == Runs(s[1..]);
        } else {
          assert rest[0] == s[n] && rest[1..] == s[n + 1..];
          assert Runs(rest) == Runs(s[n + 1..]);
        }
      }
    }
  }

  /** An unquoted variable is split into the runs of its value; an unset one gives no field. */
  lemma UnquotedVariable(n: string, env: Env, status: int)
    requires n != "?"
    ensures Fields(Word([Expansion(n, false)]), env, status, true) == if n in env then Runs(env[n]) else []
  {
    FieldsAreRest(Word([Expansion(n, false)]), env, status, true);
    OneSegment(Expansion(n, false), env, status, true);
    var text := if n in env then env[n] else "";
    RunsAreRest(text);
    assert [] + Runs(text) == Runs(text);
  }

  // ------------------------------------------------------------------ the last status

  /** A number as the shell writes it. */
  predicate IsNumeral(text: string, n: int) {
    if n < 0 then |text| > 1 && text[0] == '-' && IsDecimal(text[1..], -n) else IsDecimal(text, n)
  }

  predicate IsDecimal(text: string, n: nat) {
    text != "" && (forall i :: 0 <= i < |text| ==> IsDigit(text[i])) && LexSpec.Decimal(text) == n
  }

  lemma {:induction false} DigitsAre(n: nat)
    ensures IsDecimal(Digits(n), n)
  {
    var last := ('0' as int + n % 10) as char;
    assert LexSpec.DigitValue(last) == n % 10;
    if n < 10 {
      assert [last][..0] == "" && LexSpec.Decimal([last]) == LexSpec.Decimal("") * 10 + LexSpec.DigitValue(last);
    } else {
      DigitsAre(n / 10);
      var d := Digits(n);
      assert d[..|d| - 1] == Digits(n / 10);
    }
  }

  /** `$?` is the last status in decimal, quoted or not. */
  lemma StatusExpands(env: Env, status: int, quoted: bool)
    ensures var f := Fields(Word([Expansion("?", quoted)]), env, status, true); |f| == 1 && IsNumeral(f[0], status)
  {
    var text := StatusText(status);
    DigitsAre(if status < 0 then -status else status);
    assert status < 0 ==> text[1..] == Digits(-status);
    FieldsAreRest(Word([Expansion("?", quoted)]), env, status, true);
    OneSegment(Expansion("?", quoted), env, status, true);
    assert "" + text == text;
    if quoted {
      MarkedText("", false, text, []);
    } else {
      assert TagText(text, true) == TagText(text, true) + [];
      RestText("", false, text, true, []);
    }
  }

  // -------------------------------------------------------------------- whole words

  /** Without splitting, the text of a word is the texts of its parts, in order. */
  lemma WholeWord(a: seq<Segment>, b: seq<Segment>, env: Env, status: int)
    ensures |Fields(Word(a), env, status, false)| == |Fields(Word(b), env, status, false)| == |Fields(Word(a + b), env, status, false)| == 1
    ensures Fields(Word(a + b), env, status, false)[0] == Fields(Word(a), env, status, false)[0] + Fields(Word(b), env, status, false)[0]
  {
    OneField(Word(a), env, status);
    OneField(Word(b), env, status);
    OneField(Word(a + b), env, status);
    WholeText(a, env, status, "");
    WholeText(b, env, status, "");
    WholeText(a + b, env, status, "");
    FieldsAreRest(Word(a), env, status, false);
    FieldsAreRest(Word(b), env, status, false);
    FieldsAreRest(Word(a + b), env, status, false);
    AllTextAppend(a, b, env, status);
    assert "" + AllText(a, env, status) == AllText(a, env, status);
    assert "" + AllText(b, env, status) == AllText(b, env, status);
    assert "" + AllText(a + b, env, status) == AllText(a + b, env, status);
  }

  function AllText(segments: seq<Segment>, env: Env, status: int): string {
    if segments == [] then "" else Value(segments[0], env, status) + AllText(segments[1..], env, status)
  }

  lemma {:induction false} AllTextAppend(a: seq<Segment>, b: seq<Segment>, env: Env, status: int)
    ensures AllText(a + b, env, status) == AllText(a, env, status) + AllText(b, env, status)
  {
    if a == [] {
      assert a + b == b;
    } else {
      assert (a + b)[1..] == a[1..] + b;
      AllTextAppend(a[1..], b, env, status);
    }
  }

  lemma {:induction false} WholeText(segments: seq<Segment>, env: Env, status: int, current: string)
    ensures Rest(current, true, Tags(segments, env, status, false)) == [current + AllText(segments, env, status)]
    decreases |segments|
  {
    if segments == [] {
      assert current + "" == current;
    } else {
      hide Rest, Tags;
      var text, more := Value(segments[0], env, status), Tags(segments[1..], env, status, false);
      assert segments[0..] == segments;
      SegmentTags(segments, 0, env, status, false);
      MarkedText(current, true, text, more);
      WholeText(segments[1..], env, status, current + text);
      assert current + text + AllText(segments[1..], env, status) == current + (text + AllText(segments[1..], env, status));
    }
  }

  /** A word of one part, unsplit: the literal, or the value of the variable. */
  lemma WholePart(s: Segment, env: Env, status: int)
    requires s.Expansion? ==> s.name != "?"
    ensures Fields(Word([s]), env, status, false) == [if s.Literal? then s.value else if s.name in env then env[s.name] else ""]
  {
    FieldsAreRest(Word([s]), env, status, false);
    WholeText([s], env, status, "");
    assert [s][1..] == [] && AllText([s], env, status) == Value(s, env, status) + AllText([], env, status);
    assert "" + AllText([s], env, status) == Value(s, env, status);
  }

  // -------------------------------------------------------------------- assignments

  lemma {:induction false} AssignAppend(a: seq<Assignment>, b: seq<Assignment>, env: Env, status: int)
    ensures AssignEnv(a + b, env, status) == AssignEnv(b, AssignEnv(a, env, status), status)
    decreases |a|
  {
    if a == [] {
      assert a + b == b;
    } else {
      assert (a + b)[1..] == a[1..] + b;
      OneField(a[0].value, env, status);
      AssignAppend(a[1..], b, env[a[0].name := Fields(a[0].value, env, status, false)[0]], status);
    }
  }

  /** The last assignment binds its name to its value as the ones before it left the environment,
      and leaves every other name. */
  lemma AssignLast(before: seq<Assignment>, n: string, value: Word, env: Env, status: int)
    ensures var so := AssignEnv(before, env, status);
      && |Fields(value, so, status, false)| == 1
      && AssignEnv(before + [Assignment(n, value)], env, status) == so[n := Fields(value, so, status, false)[0]]
  {
    AssignAppend(before, [Assignment(n, value)], env, status);
    OneField(value, AssignEnv(before, env, status), status);
    assert [Assignment(n, value)][1..] == [];
  }

  /** `n=v m=$n`: both names are bound to v. */
  lemma LaterAssignmentSees(n: string, v: string, m: string, env: Env, status: int)
    requires n != "?"
    ensures AssignEnv([Assignment(n, Word([Literal(v, true)])), Assignment(m, Word([Expansion(n, true)]))], env, status)
      == env[n := v][m := v]
  {
    var first, second := Assignment(n, Word([Literal(v, true)])), Assignment(m, Word([Expansion(n, true)]));
    assert [] + [first] == [first] && [first] + [second] == [first, second];
    AssignLast([], n, first.value, env, status);
    WholePart(Literal(v, true), env, status);
    AssignLast([first], m, second.value, env, status);
    WholePart(Expansion(n, true), env[n := v], status);
  }

  /** `n=v echo "$n" >"$n"`: words and redirects see the environment from before. */
  lemma WordsSeeBase(n: string, v: string, env: Env, status: int)
    requires n != "?"
    ensures var was := if n in env then env[n] else "";
      var cmd := SimpleCommand([Assignment(n, Word([Literal(v, true)]))], [Word([Literal("echo", true)]), Word([Expansion(n, true)])],
                               [Redirect(Base.None, Write, WordTarget(Word([Expansion(n, true)])))]);
      Expand(cmd, env, status) == Expanded(env[n := v], ["echo", was], [[was]])
  {
    var x, e := Word([Expansion(n, true)]), Word([Literal("echo", true)]);
    QuotedVariable(n, env, status);
    LiteralField("echo", env, status);
    OneBinding(n, v, env, status);
    assert [e, x][1..] == [x] && [x][1..] == [];
    assert WordsFields([x], env, status) == Fields(x, env, status, true) + WordsFields([], env, status);
    assert WordsFields([e, x], env, status) == ["echo"] + WordsFields([x], env, status);
    var r := Redirect(Base.None, Write, WordTarget(x));
    assert [r][1..] == [] && Targets([r], env, status) == [TargetFields(r.target, env, status)] + Targets([], env, status);
  }

  /** `n=v words... >"$n"`: the redirect sees the assignment exactly if the words come to nothing. */
  lemma RedirectSeesAssignment(n: string, v: string, words: seq<Word>, env: Env, status: int)
    requires n != "?"
    ensures var was := if n in env then env[n] else "";
      var cmd := SimpleCommand([Assignment(n, Word([Literal(v, true)]))], words, [Redirect(Base.None, Write, WordTarget(Word([Expansion(n, true)])))]);
      var fields := WordsFields(words, env, status);
      Expand(cmd, env, status) == Expanded(env[n := v], fields, [[if fields == [] then v else was]])
  {
    var x := Word([Expansion(n, true)]);
    QuotedVariable(n, env[n := v], status);
    QuotedVariable(n, env, status);
    OneBinding(n, v, env, status);
    var r := Redirect(Base.None, Write, WordTarget(x));
    var sees := if WordsFields(words, env, status) == [] then env[n := v] else env;
    assert [r][1..] == [] && Targets([r], sees, status) == [TargetFields(r.target, sees, status)] + Targets([], sees, status);
  }

  lemma OneBinding(n: string, v: string, env: Env, status: int)
    ensures AssignEnv([Assignment(n, Word([Literal(v, true)]))], env, status) == env[n := v]
  {
    var a := Assignment(n, Word([Literal(v, true)]));
    assert [] + [a] == [a];
    AssignLast([], n, a.value, env, status);
    WholePart(Literal(v, true), env, status);
  }

  lemma LiteralField(v: string, env: Env, status: int)
    ensures Fields(Word([Literal(v, true)]), env, status, true) == [v]
  {
    FieldsAreRest(Word([Literal(v, true)]), env, status, true);
    OneSegment(Literal(v, true), env, status, true);
    MarkedText("", false, v, []);
    assert "" + v == v;
  }
}
