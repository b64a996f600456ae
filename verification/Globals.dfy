/** Names of host globals: the sorted check of tinysandbox-js-runtime/src/index.ts, the registry of
    src/sandbox/mod.rs, and their installation by the glue in src/js/quickjs_shim.c. */
module Globals {
  import opened Base
  import opened Paths
  import Shell

  /** Names the runtime keeps for itself. */
  const Reserved: set<string> := {
    "Buffer", "Headers", "Response", "__dirname", "__filename", "console", "exports", "fetch", "globalThis",
    "module", "process", "require", "setTimeout", "clearTimeout", "setInterval", "clearInterval",
    "setImmediate", "clearImmediate"}

  function Parts(name: string): (parts: seq<string>)
    ensures |parts| >= 1
  {
    Split(name, '.')
  }

  predicate IsIdentifier(s: string) {
    s != "" && Shell.IsNameStart(s[0]) && forall i :: 0 <= i < |s| ==> Shell.IsNameContinue(s[i])
  }

  predicate IsGlobalName(name: string) { forall i :: 0 <= i < |Parts(name)| ==> IsIdentifier(Parts(name)[i]) }

  predicate IsAllowed(name: string) { IsGlobalName(name) && Parts(name)[0] !in Reserved }

  /** `path` is in the namespace `space`. */
  predicate IsInside(space: string, path: string) { |path| > |space| && path[|space|] == '.' && path[..|space|] == space }

  predicate Conflict(a: string, b: string) { a == b || IsInside(a, b) || IsInside(b, a) }

  ghost predicate ConflictFree(names: set<string>) {
    forall a, b :: a in names && b in names && a != b ==> !Conflict(a, b)
  }

  // ---------------------------------------------------------------- neighbours

  /** Lexicographic order. */
  predicate Less(a: string, b: string) {
    b != "" && (a == "" || a[0] < b[0] || (a[0] == b[0] && Less(a[1..], b[1..])))
  }

  ghost predicate IsSorted(names: seq<string>) { forall i, j :: 0 <= i < j < |names| ==> Less(names[i], names[j]) }

  /** All that validity is needed for: `.` is the least character in a name. */
  predicate DotIsLeast(name: string) { forall i :: 0 <= i < |name| ==> '.' <= name[i] }

  lemma {:induction false} NameChars(name: string)
    requires IsGlobalName(name)
    ensures DotIsLeast(name)
  {
    forall i, k | 0 <= i < |Split(name, '.')| && 0 <= k < |Split(name, '.')[i]|
      ensures Shell.IsNameContinue(Split(name, '.')[i][k])
    {
      assert IsIdentifier(Parts(name)[i]);
    }
    TailChars(name);
  }

  /** The same for what is left of a name after some of its characters. */
  lemma {:induction false} TailChars(s: string)
    requires forall i, k :: 0 <= i < |Split(s, '.')| && 0 <= k < |Split(s, '.')[i]| ==> Shell.IsNameContinue(Split(s, '.')[i][k])
    ensures DotIsLeast(s)
  {
    if s != "" {
      var parts, rest := Split(s, '.'), Split(s[1..], '.');
      if s[0] == '.' {
        assert forall i :: 0 <= i < |rest| ==> rest[i] == parts[i + 1];
      } else {
        assert parts[0] == [s[0]] + rest[0] && parts[0][0] == s[0];
        assert forall i :: 0 < i < |rest| ==> rest[i] == parts[i];
        assert forall i :: 0 <= i < |rest[0]| ==> rest[0][i] == parts[0][i + 1];
      }
      TailChars(s[1..]);
    }
  }

  /** Between a namespace and a name inside it, in order, there is nothing outside it. */
  lemma {:induction false} BetweenIsInside(a: string, x: string, b: string)
    requires Less(a, x) && Less(x, b) && IsInside(a, b) && DotIsLeast(x)
    ensures IsInside(a, x)
  {
    if a == "" {
      assert x[..0] == "";
    } else {
      assert b[..|a|][0] == b[0];
      assert b[1..][..|a| - 1] == b[..|a|][1..];
      BetweenIsInside(a[1..], x[1..], b[1..]);
      assert x == [x[0]] + x[1..];
      assert x[..|a|] == [x[0]] + x[1..][..|a| - 1];
    }
  }

  lemma {:induction false} InsideIsLater(a: string, b: string)
    requires IsInside(a, b)
    ensures Less(a, b) && !Less(b, a)
  {
    if a != "" {
      assert b[..|a|][0] == b[0];
      assert b[1..][..|a| - 1] == b[..|a|][1..];
      InsideIsLater(a[1..], b[1..]);
    }
  }

  lemma {:induction false} LessNotBoth(a: string, b: string)
    requires Less(a, b)
    ensures !Less(b, a) && a != b
  {
    if a != "" && a[0] == b[0] { LessNotBoth(a[1..], b[1..]); }
  }

  /** The loop of `validateGlobals` over sorted names: looking only at neighbours finds a conflict
      exactly when there is one. */
  method NeighboursConflict(names: seq<string>) returns (conflict: bool)
    requires IsSorted(names) && forall i :: 0 <= i < |names| ==> IsGlobalName(names[i])
    ensures conflict <==> exists i, j :: 0 <= i < j < |names| && Conflict(names[i], names[j])
  {
    var k := 1;
    while k < |names|
      invariant k >= 1 && forall i :: 0 < i < k && i < |names| ==> !IsInside(names[i - 1], names[i])
    {
      if IsInside(names[k - 1], names[k]) {
        assert Conflict(names[k - 1], names[k]);
        return true;
      }
      k := k + 1;
    }
    forall i, j | 0 <= i < j < |names| ensures !Conflict(names[i], names[j]) {
      NeighboursSuffice(names, i, j);
    }
    conflict := false;
  }

  lemma NeighboursSuffice(names: seq<string>, i: nat, j: nat)
    requires IsSorted(names) && i < j < |names| && forall k :: 0 <= k < |names| ==> IsGlobalName(names[k])
    requires forall k :: 0 < k < |names| ==> !IsInside(names[k - 1], names[k])
    ensures !Conflict(names[i], names[j])
  {
    var a, b, next := names[i], names[j], i + 1;
    assert Less(a, b) && !IsInside(names[next - 1], names[next]);
    LessNotBoth(a, b);
    if IsInside(b, a) {
      InsideIsLater(b, a);
    } else if IsInside(a, b) && i + 1 < j {
      NameChars(names[i + 1]);
      BetweenIsInside(a, names[i + 1], b);
    }
  }

  // ------------------------------------------------------------------ validation

  function InsertName(names: seq<string>, x: string): seq<string> {
    if names == [] || Less(x, names[0]) then [x] + names else [names[0]] + InsertName(names[1..], x)
  }

  /** The engine's sort of distinct names. */
  function SortNames(names: seq<string>): seq<string> {
    if names == [] then [] else InsertName(SortNames(names[1..]), names[0])
  }

  lemma {:induction false} LessTotal(a: string, b: string)
    ensures a == b || Less(a, b) || Less(b, a)
  {
    if a != "" && b != "" && a[0] == b[0] {
      LessTotal(a[1..], b[1..]);
      assert a == [a[0]] + a[1..] && b == [b[0]] + b[1..];
    }
  }

  lemma {:induction false} LessTransitive(a: string, b: string, c: string)
    requires Less(a, b) && Less(b, c)
    ensures Less(a, c)
  {
    if a != "" && a[0] == b[0] == c[0] { LessTransitive(a[1..], b[1..], c[1..]); }
  }

  lemma {:induction false} InsertSorts(names: seq<string>, x: string)
    requires IsSorted(names) && x !in names
    ensures IsSorted(InsertName(names, x)) && forall y :: y in InsertName(names, x) <==> y in names || y == x
  {
    var all := InsertName(names, x);
    if names == [] {
    } else if Less(x, names[0]) {
      forall k | 0 <= k < |names| ensures Less(x, names[k]) {
        if k > 0 { LessTransitive(x, names[0], names[k]); }
      }
    } else {
      InsertSorts(names[1..], x);
      LessTotal(x, names[0]);
      var rest := InsertName(names[1..], x);
      forall k | 0 <= k < |rest| ensures Less(names[0], rest[k]) {
        assert rest[k] in rest;
      }
      assert names == [names[0]] + names[1..];
    }
  }

  lemma {:induction false} SortSorts(names: seq<string>)
    requires forall i, j :: 0 <= i < j < |names| ==> names[i] != names[j]
    ensures IsSorted(SortNames(names)) && forall x :: x in SortNames(names) <==> x in names
  {
    if names != [] {
      SortSorts(names[1..]);
      InsertSorts(SortNames(names[1..]), names[0]);
      assert names == [names[0]] + names[1..];
    }
  }

  ghost function Elements(names: seq<string>): set<string> { set x | x in names }

  /** `validateGlobals` over the keys of an object: it accepts exactly the names that are allowed,
      each and together. */
  method ValidateGlobals(keys: seq<string>) returns (r: Option<seq<string>>)
    requires forall i, j :: 0 <= i < j < |keys| ==> keys[i] != keys[j]
    ensures r.Some? <==> (forall x :: x in keys ==> IsAllowed(x)) && ConflictFree(Elements(keys))
    ensures r.Some? ==> IsSorted(r.value) && forall x :: x in r.value <==> x in keys
  {
    hide IsAllowed, IsGlobalName, Conflict;
    var names := SortNames(keys);
    SortSorts(keys);
    for i := 0 to |names|
      invariant forall j :: 0 <= j < i ==> IsAllowed(names[j])
    {
      if !IsAllowed(names[i]) {
        assert names[i] in names;
        return None;
      }
    }
    forall i | 0 <= i < |names| ensures IsGlobalName(names[i]) { AllowedIsName(names[i]); }
    var conflict := NeighboursConflict(names);
    SortedConflict(names, Elements(keys));
    r := if conflict then None else Some(names);
  }

  lemma AllowedIsName(x: string)
    requires IsAllowed(x)
    ensures IsGlobalName(x)
  {
  }

  lemma SortedConflict(names: seq<string>, all: set<string>)
    requires IsSorted(names) && forall x :: x in names <==> x in all
    ensures ConflictFree(all) <==> !(exists i, j :: 0 <= i < j < |names| && Conflict(names[i], names[j]))
  {
    if ConflictFree(all) {
      forall i, j | 0 <= i < j < |names| ensures !Conflict(names[i], names[j]) {
        assert Less(names[i], names[j]);
        LessNotBoth(names[i], names[j]);
        assert names[i] in all && names[j] in all;
      }
    } else {
      var a, b :| a in all && b in all && a != b && Conflict(a, b);
      var i :| 0 <= i < |names| && names[i] == a;
      var j :| 0 <= j < |names| && names[j] == b;
      assert Conflict(names[i], names[j]) && Conflict(names[j], names[i]);
    }
  }

  // --------------------------------------------------------------------- merging

  /** What merging adds, if it is accepted: later bindings of a name replace the earlier. */
  function Bind<G>(merged: map<string, G>, entries: seq<(string, G)>): map<string, G>
    decreases |entries|
  {
    if entries == [] then merged else Bind(merged[entries[0].0 := entries[0].1], entries[1..])
  }

  ghost predicate IsNamed<G>(entries: seq<(string, G)>, k: string) { exists i :: 0 <= i < |entries| && entries[i].0 == k }

  lemma {:induction false} BindKeys<G>(merged: map<string, G>, entries: seq<(string, G)>, k: string)
    ensures k in Bind(merged, entries) <==> k in merged || IsNamed(entries, k)
    decreases |entries|
  {
    if entries != [] {
      BindKeys(merged[entries[0].0 := entries[0].1], entries[1..], k);
      if IsNamed(entries[1..], k) {
        var i :| 0 <= i < |entries[1..]| && entries[1..][i].0 == k;
        assert entries[i + 1].0 == k;
      }
      if i :| 0 <= i < |entries| && entries[i].0 == k {
        if i > 0 { assert entries[1..][i - 1].0 == k; }
      }
    }
  }

  /** The entries are allowed, named once each, and conflict with nothing already there. */
  ghost predicate Mergeable<G>(merged: map<string, G>, entries: seq<(string, G)>) {
    && (forall i :: 0 <= i < |entries| ==> IsAllowed(entries[i].0))
    && (forall i, j :: 0 <= i < j < |entries| ==> entries[i].0 != entries[j].0)
    && (forall i, j :: 0 <= i < j < |entries| ==> !Conflict(entries[i].0, entries[j].0))
    && (forall i, k :: 0 <= i < |entries| && k in merged && k != entries[i].0 ==> !Conflict(k, entries[i].0))
  }

  method FindConflict<G>(merged: map<string, G>, name: string) returns (found: bool)
    ensures found <==> exists k :: k in merged && Conflict(k, name)
  {
    var todo := merged.Keys;
    while todo != {}
      invariant todo <= merged.Keys && forall k :: k in merged && k !in todo ==> !Conflict(k, name)
      decreases |todo|
    {
      var k :| k in todo;
      if Conflict(k, name) { return true; }
      todo := todo - {k};
    }
    found := false;
  }

  /** The entries up to `i`, and what they were merged into so far. */
  ghost predicate MergedTo<G>(base: map<string, G>, entries: seq<(string, G)>, i: nat, merged: map<string, G>) {
    && i <= |entries|
    && Mergeable(base, entries[..i])
    && Bind(merged, entries[i..]) == Bind(base, entries)
    && (forall k :: k in merged <==> k in base || IsNamed(entries[..i], k))
  }

  lemma MergeStep<G>(base: map<string, G>, entries: seq<(string, G)>, i: nat, merged: map<string, G>)
    requires MergedTo(base, entries, i, merged) && i < |entries|
    ensures var name := entries[i].0;
      Mergeable(base, entries[..i + 1]) <==>
      (IsAllowed(name) && !IsNamed(entries[..i], name) && forall k :: k in merged && k != name ==> !Conflict(k, name))
  {
    hide IsAllowed, Conflict, Bind;
    var before, upto, name := entries[..i], entries[..i + 1], entries[i].0;
    assert upto == before + [entries[i]];
    if Mergeable(base, upto) {
      assert upto[i].0 == name;
      forall k | k in merged && k != name ensures !Conflict(k, name) {
        if k !in base {
          var j :| 0 <= j < i && before[j].0 == k;
          assert upto[j].0 == k;
        }
      }
    } else if IsAllowed(name) && !IsNamed(before, name) && forall k :: k in merged && k != name ==> !Conflict(k, name) {
      forall j | 0 <= j < i ensures before[j].0 in merged { assert IsNamed(before, before[j].0); }
    }
  }

  lemma MergedNext<G>(base: map<string, G>, entries: seq<(string, G)>, i: nat, merged: map<string, G>)
    requires MergedTo(base, entries, i, merged) && i < |entries| && Mergeable(base, entries[..i + 1])
    ensures MergedTo(base, entries, i + 1, merged[entries[i].0 := entries[i].1])
  {
    hide Mergeable;
    var before, upto, name := entries[..i], entries[..i + 1], entries[i].0;
    assert entries[i..][0] == entries[i] && entries[i..][1..] == entries[i + 1..];
    forall k ensures IsNamed(upto, k) <==> IsNamed(before, k) || k == name {
      if IsNamed(before, k) { var j :| 0 <= j < i && before[j].0 == k; assert upto[j].0 == k; }
      if k == name { assert upto[i].0 == k; }
      if IsNamed(upto, k) && k != name { var j :| 0 <= j <= i && upto[j].0 == k; assert before[j].0 == k; }
    }
  }

  lemma {:induction false} NotMergeable<G>(base: map<string, G>, entries: seq<(string, G)>, i: nat)
    requires i <= |entries| && !Mergeable(base, entries[..i])
    ensures !Mergeable(base, entries)
  {
    var upto := entries[..i];
    assert forall j :: 0 <= j < i ==> upto[j] == entries[j];
  }

  /** `merge_js_globals`: it accepts exactly what can be merged, and then every entry is bound. */
  method Merge<G>(base: map<string, G>, entries: seq<(string, G)>) returns (r: Option<map<string, G>>)
    ensures r.Some? <==> Mergeable(base, entries)
    ensures r.Some? ==> r.value == Bind(base, entries)
  {
    hide Mergeable, IsAllowed, Conflict, Bind;
    var merged, added := base, {};
    Nothing(base, entries);
    for i := 0 to |entries|
      invariant MergedTo(base, entries, i, merged)
      invariant forall k :: k in added <==> IsNamed(entries[..i], k)
    {
      var name := entries[i].0;
      MergeStep(base, entries, i, merged);
      if !Mergeable(base, entries[..i + 1]) { NotMergeable(base, entries, i + 1); }
      if !IsAllowed(name) || name in added { return None; }
      var conflict := FindConflict(merged - {name}, name);
      if conflict { return None; }
      MergedNext(base, entries, i, merged);
      NamedNext(entries, i);
      merged, added := merged[name := entries[i].1], added + {name};
    }
    assert entries[..|entries|] == entries && entries[|entries|..] == [];
    Everything(base, entries, merged);
    r := Some(merged);
  }

  lemma Nothing<G>(base: map<string, G>, entries: seq<(string, G)>)
    ensures MergedTo(base, entries, 0, base) && forall k :: !IsNamed(entries[..0], k)
  {
    assert entries[0..] == entries;
  }

  lemma Everything<G>(base: map<string, G>, entries: seq<(string, G)>, merged: map<string, G>)
    requires MergedTo(base, entries, |entries|, merged)
    ensures Mergeable(base, entries) && merged == Bind(base, entries)
  {
    assert entries[..|entries|] == entries && entries[|entries|..] == [];
  }

  lemma NamedNext<G>(entries: seq<(string, G)>, i: nat)
    requires i < |entries|
    ensures forall k :: IsNamed(entries[..i + 1], k) <==> IsNamed(entries[..i], k) || k == entries[i].0
  {
    var before, upto := entries[..i], entries[..i + 1];
    forall k ensures IsNamed(upto, k) <==> IsNamed(before, k) || k == entries[i].0 {
      if IsNamed(before, k) { var j :| 0 <= j < i && before[j].0 == k; assert upto[j].0 == k; }
      if k == entries[i].0 { assert upto[i].0 == k; }
      if IsNamed(upto, k) && k != entries[i].0 { var j :| 0 <= j <= i && upto[j].0 == k; assert before[j].0 == k; }
    }
  }

  /** Merging into a conflict-free registry is accepted exactly if the entries are allowed, named
      once, and the registry stays conflict-free. */
  lemma MergeKeepsConflictFree<G>(base: map<string, G>, entries: seq<(string, G)>)
    requires ConflictFree(base.Keys)
    requires forall i :: 0 <= i < |entries| ==> IsAllowed(entries[i].0)
    requires forall i, j :: 0 <= i < j < |entries| ==> entries[i].0 != entries[j].0
    ensures Mergeable(base, entries) <==> ConflictFree(Bind(base, entries).Keys)
  {
    hide Bind, IsAllowed;
    var all := Bind(base, entries).Keys;
    forall k ensures k in all <==> k in base || IsNamed(entries, k) { BindKeys(base, entries, k); }
    if ConflictFree(all) {
      forall i | 0 <= i < |entries| ensures entries[i].0 in all { assert IsNamed(entries, entries[i].0); }
    } else if Mergeable(base, entries) {
      forall a, b | a in all && b in all && a != b ensures !Conflict(a, b) {
        if a !in base {
          var i :| 0 <= i < |entries| && entries[i].0 == a;
          if b !in base {
            var j :| 0 <= j < |entries| && entries[j].0 == b;
            assert i < j || j < i;
          }
        } else if b !in base {
          var j :| 0 <= j < |entries| && entries[j].0 == b;
        }
      }
    }
  }
}
