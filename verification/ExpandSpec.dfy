/** What a shell word expands to, and what that costs: src/sandbox/expansion.rs. */
module ExpandSpec {
  import opened Shell

  type Env = map<string, string>

  /** Sizes the budget charges: a string, a vector and an expanded command. */
  const StringSize := 24
  const VecSize := 24
  const CommandSize := 80

  function CharBytes(c: char): nat {
    if c as int < 0x80 then 1 else if c as int < 0x800 then 2 else if c as int < 0x10000 then 3 else 4
  }

  /** The length in UTF-8. */
  function Bytes(s: string): nat { if s == "" then 0 else Bytes(s[..|s| - 1]) + CharBytes(s[|s| - 1]) }

  predicate IsSpace(c: char) { c == ' ' || c == '\t' || c == '\n' }

  function Digits(n: nat): string {
    if n < 10 then [('0' as int + n) as char] else Digits(n / 10) + [('0' as int + n % 10) as char]
  }

  function StatusText(status: int): string { if status < 0 then "-" + Digits(-status) else Digits(status) }

  function Value(s: Segment, env: Env, status: int): string {
    if s.Literal? then s.value
    else if s.name == "?" then StatusText(status)
    else if s.name in env then env[s.name] else ""
  }

  predicate Splits(s: Segment, split: bool) { s.Expansion? && split && !s.quoted }

  // ------------------------------------------------------------- field splitting

  /** A character of the word: one that separates, or one that stays; or a mark, which stands
      for quoted or literal text even if it is empty. */
  datatype Tag = Mark | Content(c: char) | Separator

  function TagText(text: string, splits: bool): seq<Tag> {
    seq(|text|, i requires 0 <= i < |text| => if splits && IsSpace(text[i]) then Separator else Content(text[i]))
  }

  function Tags(segments: seq<Segment>, env: Env, status: int, split: bool): seq<Tag> {
    if segments == [] then [] else
    var s := segments[0];
    (if Splits(s, split) then [] else [Mark]) + TagText(Value(s, env, status), Splits(s, split)) + Tags(segments[1..], env, status, split)
  }

  /** The tags between separators, of which there is always one more than separators. */
  function Groups(tags: seq<Tag>): (g: seq<seq<Tag>>)
    ensures g != []
  {
    if tags == [] then [[]]
    else if tags[0].Separator? then [[]] + Groups(tags[1..])
    else [[tags[0]] + Groups(tags[1..])[0]] + Groups(tags[1..])[1..]
  }

  function Chars(g: seq<Tag>): string {
    if g == [] then "" else (if g[0].Content? then [g[0].c] else "") + Chars(g[1..])
  }

  /** Groups with neither a character nor a mark vanish. */
  function Kept(groups: seq<seq<Tag>>): seq<string> {
    if groups == [] then [] else (if groups[0] == [] then [] else [Chars(groups[0])]) + Kept(groups[1..])
  }

  /** The fields of a word: without splitting, the whole of it is marked. */
  function Fields(word: Word, env: Env, status: int, split: bool): seq<string> {
    Kept(Groups((if split then [] else [Mark]) + Tags(word.segments, env, status, split)))
  }

  function ValueBytes(segments: seq<Segment>, env: Env, status: int): nat {
    if segments == [] then 0 else Bytes(Value(segments[0], env, status)) + ValueBytes(segments[1..], env, status)
  }

  function WordCost(word: Word, env: Env, status: int, split: bool): nat {
    ValueBytes(word.segments, env, status) + StringSize * |Fields(word, env, status, split)|
  }

  // -------------------------------------------------------- the one-pass form

  /** The fields still to come from a field begun as `current`, kept or not, and the tags ahead. */
  function Rest(current: string, keep: bool, tags: seq<Tag>): seq<string>
    decreases |tags|
  {
    if tags == [] then if keep then [current] else [] else
    match tags[0]
    case Mark => Rest(current, true, tags[1..])
    case Content(c) => Rest(current + [c], true, tags[1..])
    case Separator => if keep then [current] + Rest("", false, tags[1..]) else Rest(current, false, tags[1..])
  }

  predicate NoSeparator(g: seq<Tag>) { forall i :: 0 <= i < |g| ==> !g[i].Separator? }

  lemma {:induction false} CharsAppend(g: seq<Tag>, t: Tag)
    ensures Chars(g + [t]) == Chars(g) + if t.Content? then [t.c] else ""
  {
    if g == [] {
      assert g + [t] == [t];
    } else {
      assert (g + [t])[1..] == g[1..] + [t];
      CharsAppend(g[1..], t);
    }
  }

  lemma {:induction false} GroupsAfter(g: seq<Tag>, tags: seq<Tag>)
    requires NoSeparator(g)
    ensures Groups(g + tags) == [g + Groups(tags)[0]] + Groups(tags)[1..]
  {
    if g == [] {
      assert g + tags == tags;
      assert Groups(tags) == [Groups(tags)[0]] + Groups(tags)[1..];
      assert [] + Groups(tags)[0] == Groups(tags)[0];
    } else {
      assert (g + tags)[1..] == g[1..] + tags;
      GroupsAfter(g[1..], tags);
      assert [g[0]] + (g[1..] + Groups(tags)[0]) == g + Groups(tags)[0];
    }
  }

  /** Building fields in one pass gives the fields of the groups. */
  lemma {:induction false} OnePass(g: seq<Tag>, tags: seq<Tag>)
    requires NoSeparator(g)
    ensures Rest(Chars(g), g != [], tags) == Kept(Groups(g + tags))
    decreases |tags|
  {
    if tags == [] {
      GroupsAfter(g, []);
      assert g + [] == g;
      assert Groups([]) == [[]];
      assert Groups(g) == [g];
      assert Kept([g]) == (if g == [] then [] else [Chars(g)]) + Kept([]);
    } else {
      var t, more := tags[0], tags[1..];
      if t.Separator? {
        GroupsAfter(g, tags);
        assert Groups(tags) == [[]] + Groups(more);
        assert ([[]] + Groups(more))[0] == [] && ([[]] + Groups(more))[1..] == Groups(more);
        assert g + [] == g;
        assert Groups(g + tags) == [g] + Groups(more);
        OnePass([], more);
        assert [] + more == more;
        assert ([g] + Groups(more))[1..] == Groups(more);
      } else {
        CharsAppend(g, t);
        OnePass(g + [t], more);
        assert g + tags == g + [t] + more;
        assert t.Mark? ==> Chars(g + [t]) == Chars(g);
      }
    }
  }

  /** Text with no separator joins the field. */
  lemma {:induction false} RestText(current: string, keep: bool, text: string, splits: bool, tags: seq<Tag>)
    requires splits ==> forall i :: 0 <= i < |text| ==> !IsSpace(text[i])
    ensures Rest(current, keep, TagText(text, splits) + tags) == Rest(current + text, keep || text != "", tags)
    decreases |text|
  {
    if text == "" {
      assert TagText(text, splits) + tags == tags;
      assert current + text == current;
    } else {
      var all := TagText(text, splits) + tags;
      assert all[0] == Content(text[0]);
      assert all[1..] == TagText(text[1..], splits) + tags;
      RestText(current + [text[0]], true, text[1..], splits, tags);
      assert current + [text[0]] + text[1..] == current + text;
    }
  }

  /** A separator ends a field that is kept. */
  lemma RestSeparator(current: string, keep: bool, text: string, tags: seq<Tag>)
    requires forall i :: 0 <= i < |text| ==> !IsSpace(text[i])
    requires !keep && text == "" ==> current == ""
    ensures Rest(current, keep, TagText(text, true) + ([Separator] + tags))
      == (if keep || text != "" then [current + text] else []) + Rest("", false, tags)
  {
    RestText(current, keep, text, true, [Separator] + tags);
    assert ([Separator] + tags)[1..] == tags;
    var rest := Rest("", false, tags);
    assert [] + rest == rest;
    if !keep && text == "" { assert current + text == ""; }
  }

  /** Without splitting there is exactly one field, the whole text. */
  lemma {:induction false} Unsplit(segments: seq<Segment>, env: Env, status: int, current: string)
    ensures |Rest(current, true, Tags(segments, env, status, false))| == 1
    decreases |segments|
  {
    if segments != [] {
      var text, more := Value(segments[0], env, status), Tags(segments[1..], env, status, false);
      assert Tags(segments, env, status, false) == [Mark] + (TagText(text, false) + more);
      assert ([Mark] + (TagText(text, false) + more))[1..] == TagText(text, false) + more;
      RestText(current, true, text, false, more);
      Unsplit(segments[1..], env, status, current + text);
    }
  }

  lemma OneField(word: Word, env: Env, status: int)
    ensures |Fields(word, env, status, false)| == 1
  {
    var tags := Tags(word.segments, env, status, false);
    OnePass([Mark], tags);
    Unsplit(word.segments, env, status, "");
    assert Chars([Mark]) == "" + Chars([]) == "";
  }
}
