/** Installing dotted globals as nested namespaces: `installGlobals` in src/js/quickjs_shim.c. */
module GlobalTree {
  import opened Base
  import opened Paths
  import opened Globals

  /** A property of the global object: one that was there before, a host function, or a namespace
      made for one. */
  datatype Node = Foreign | Leaf(path: string) | Space(children: map<string, Node>)

  datatype Kind = Absent | IsForeign | IsLeaf(path: string) | IsSpace

  function KindOf(n: Node): Kind {
    match n case Foreign => IsForeign case Leaf(p) => IsLeaf(p) case Space(_) => IsSpace
  }

  /** What a dotted path finds. */
  function Find(n: Node, parts: seq<string>): Kind
    decreases |parts|
  {
    if parts == [] then KindOf(n)
    else if n.Space? && parts[0] in n.children then Find(n.children[parts[0]], parts[1..]) else Absent
  }

  /** One path: namespaces are made on the way, and nothing that is not one is walked through or
      replaced. */
  function Install(n: Node, parts: seq<string>, path: string): Option<Node>
    requires parts != []
    decreases |parts|
  {
    if !n.Space? then None
    else if |parts| == 1 then if parts[0] in n.children then None else Some(Space(n.children[parts[0] := Leaf(path)]))
    else
      var child := if parts[0] in n.children then n.children[parts[0]] else Space(map[]);
      var r := Install(child, parts[1..], path);
      if r.None? then None else Some(Space(n.children[parts[0] := r.value]))
  }

  function InstallAll(n: Node, names: seq<string>): Option<Node> {
    if names == [] then Some(n) else
    var last := names[|names| - 1];
    var before := InstallAll(n, names[..|names| - 1]);
    if before.None? then None else Install(before.value, Parts(last), last)
  }

  predicate ProperPrefix(a: seq<string>, b: seq<string>) { |a| < |b| && b[..|a|] == a }

  predicate Passable(k: Kind) { k.Absent? || k.IsSpace? }

  lemma {:induction false} InstallSucceeds(n: Node, parts: seq<string>, path: string)
    requires n.Space? && parts != []
    ensures Install(n, parts, path).Some? <==>
      (Find(n, parts).Absent? && forall k :: 0 < k < |parts| ==> Passable(Find(n, parts[..k])))
    decreases |parts|
  {
    if |parts| == 1 {
      assert parts[1..] == [];
    } else {
      var here := parts[0] in n.children;
      var child := if here then n.children[parts[0]] else Space(map[]);
      var tail := parts[1..];
      assert Find(n, parts[..1]) == if here then KindOf(child) else Absent by { assert parts[..1][1..] == []; }
      forall k | 1 < k < |parts| ensures Find(n, parts[..k]) == if here then Find(child, tail[..k - 1]) else Absent {
        assert parts[..k][1..] == tail[..k - 1];
      }
      if child.Space? {
        InstallSucceeds(child, tail, path);
        if here {
          assert forall k :: 0 < k < |tail| ==> Find(child, tail[..k]) == Find(n, parts[..k + 1]);
        } else {
          assert forall k :: 0 < k < |tail| ==> Find(child, tail[..k]) == Absent;
        }
      } else {
        assert !Passable(Find(n, parts[..1]));
      }
    }
  }

  /** Afterwards the path finds its function, each namespace on the way is one, and everything
      else is as it was. */
  lemma {:induction false} InstallFinds(n: Node, parts: seq<string>, path: string, q: seq<string>)
    requires parts != [] && Install(n, parts, path).Some?
    ensures Find(Install(n, parts, path).value, q)
      == if q == parts then IsLeaf(path) else if ProperPrefix(q, parts) then IsSpace else Find(n, q)
    decreases |parts|
  {
    var t := Install(n, parts, path).value;
    if q == [] {
    } else if q[0] != parts[0] {
    } else if |parts| == 1 {
      assert t.children[parts[0]] == Leaf(path);
      assert q == [parts[0]] + q[1..] && parts == [parts[0]];
    } else {
      var child := if parts[0] in n.children then n.children[parts[0]] else Space(map[]);
      InstallFinds(child, parts[1..], path, q[1..]);
      assert parts == [parts[0]] + parts[1..] && q == [q[0]] + q[1..];
      if q != parts && ProperPrefix(q[1..], parts[1..]) { assert parts[..|q|] == [parts[0]] + parts[1..][..|q| - 1]; }
      if ProperPrefix(q, parts) { assert parts[1..][..|q| - 1] == parts[..|q|][1..]; }
      assert Find(t, q) == Find(t.children[q[0]], q[1..]);
    }
  }

  // --------------------------------------------------------------- names and parts

  lemma {:induction false} JoinSplit(s: string)
    ensures Join(Split(s, '.'), '.') == s
  {
    if s != "" {
      var rest := Split(s[1..], '.');
      JoinSplit(s[1..]);
      assert s == [s[0]] + s[1..];
      if s[0] == '.' {
        assert Join([""] + rest, '.') == "" + "." + Join(rest, '.') by { assert ([""] + rest)[1..] == rest; }
      } else if |rest| > 1 {
        var all := [[s[0]] + rest[0]] + rest[1..];
        assert all[1..] == rest[1..];
        assert Join(all, '.') == [s[0]] + (rest[0] + "." + Join(rest[1..], '.'));
      }
    }
  }

  lemma {:induction false} JoinAppend(a: seq<string>, b: seq<string>)
    requires a != [] && b != []
    ensures Join(a + b, '.') == Join(a, '.') + "." + Join(b, '.')
  {
    if |a| == 1 {
      assert (a + b)[1..] == b;
    } else {
      assert (a + b)[1..] == a[1..] + b;
      JoinAppend(a[1..], b);
      assert a[0] + "." + (Join(a[1..], '.') + "." + Join(b, '.')) == a[0] + "." + Join(a[1..], '.') + "." + Join(b, '.');
    }
  }

  /** A name is inside another exactly if its parts go on from the other's. */
  lemma InsideIsPrefix(a: string, b: string)
    ensures IsInside(a, b) <==> ProperPrefix(Parts(a), Parts(b))
    ensures Parts(a) == Parts(b) ==> a == b
  {
    JoinSplit(a);
    JoinSplit(b);
    if IsInside(a, b) { InsideSplits(a, b); }
    if ProperPrefix(Parts(a), Parts(b)) { PrefixJoins(a, b); }
  }

  lemma InsideSplits(a: string, b: string)
    requires IsInside(a, b)
    ensures ProperPrefix(Parts(a), Parts(b))
  {
    var t := b[|a| + 1..];
    assert b == a + "." + t;
    SplitAppend(a, t, '.');
    assert (Parts(a) + Split(t, '.'))[..|Parts(a)|] == Parts(a);
  }

  lemma PrefixJoins(a: string, b: string)
    requires ProperPrefix(Parts(a), Parts(b))
    ensures IsInside(a, b)
  {
    JoinSplit(a);
    JoinSplit(b);
    var rest := Parts(b)[|Parts(a)|..];
    assert Parts(b) == Parts(a) + rest;
    JoinAppend(Parts(a), rest);
    assert b == a + "." + Join(rest, '.');
  }

  // --------------------------------------------------------------------- theorem

  ghost predicate Leads(names: seq<string>, q: seq<string>) { exists i :: 0 <= i < |names| && ProperPrefix(q, Parts(names[i])) }

  /** The global object holds what it held before, and these names. */
  ghost predicate Represents(n: Node, names: seq<string>, foreign: set<string>) {
    && n.Space?
    && (forall i :: 0 <= i < |names| ==> Find(n, Parts(names[i])) == IsLeaf(names[i]))
    && (forall f :: f in foreign ==> Find(n, [f]) == IsForeign)
    && (forall q :: FoundOk(Find(n, q), names, foreign, q))
  }

  /** What is found at `q` is there for a reason. */
  ghost predicate FoundOk(k: Kind, names: seq<string>, foreign: set<string>, q: seq<string>) {
    && (k.IsLeaf? ==> k.path in names && Parts(k.path) == q)
    && (k.IsForeign? ==> |q| == 1 && q[0] in foreign)
    && (k.IsSpace? && q != [] ==> Leads(names, q))
    && (Leads(names, q) ==> k.IsSpace?)
  }

  /** A name can be installed beside the others exactly if it conflicts with none of them and its
      root was not taken before. */
  ghost predicate Fits(names: seq<string>, foreign: set<string>, name: string) {
    Parts(name)[0] !in foreign && forall i :: 0 <= i < |names| ==> !Conflict(names[i], name)
  }

  lemma InstallFits(n: Node, names: seq<string>, foreign: set<string>, name: string)
    requires Represents(n, names, foreign)
    ensures Install(n, Parts(name), name).Some? <==> Fits(names, foreign, name)
  {
    hide IsInside;
    var parts := Parts(name);
    InstallSucceeds(n, parts, name);
    assert parts[..1] == [parts[0]];
    if Fits(names, foreign, name) {
      forall i | 0 <= i < |names| ensures !ProperPrefix(Parts(names[i]), parts) && !ProperPrefix(parts, Parts(names[i])) && Parts(names[i]) != parts {
        InsideIsPrefix(names[i], name);
        InsideIsPrefix(name, names[i]);
      }
      if |parts| == 1 { assert parts == [parts[0]]; }
      assert FoundOk(Find(n, parts), names, foreign, parts);
      assert !Find(n, parts).IsLeaf? && !Leads(names, parts);
      forall k | 0 < k < |parts| ensures Passable(Find(n, parts[..k])) {
        PrefixFound(n, names, foreign, parts, k);
      }
    } else {
      if parts[0] in foreign {
        assert Find(n, [parts[0]]) == IsForeign;
        if |parts| == 1 { assert parts == [parts[0]]; } else { assert !Passable(Find(n, parts[..1])); }
      } else {
        var i :| 0 <= i < |names| && Conflict(names[i], name);
        InsideIsPrefix(names[i], name);
        InsideIsPrefix(name, names[i]);
        if ProperPrefix(Parts(names[i]), parts) {
          assert !Passable(Find(n, parts[..|Parts(names[i])|]));
        } else if ProperPrefix(parts, Parts(names[i])) {
          assert Leads(names, parts) && FoundOk(Find(n, parts), names, foreign, parts);
        }
      }
    }
  }

  lemma PrefixFound(n: Node, names: seq<string>, foreign: set<string>, parts: seq<string>, k: nat)
    requires Represents(n, names, foreign) && 0 < k < |parts| && parts[0] !in foreign
    requires forall i :: 0 <= i < |names| ==> !ProperPrefix(Parts(names[i]), parts)
    ensures Passable(Find(n, parts[..k]))
  {
    var q := parts[..k];
    assert ProperPrefix(q, parts) && q[0] == parts[0];
    assert FoundOk(Find(n, q), names, foreign, q);
  }

  lemma LeadsMore(names: seq<string>, name: string, q: seq<string>)
    ensures Leads(names + [name], q) <==> Leads(names, q) || ProperPrefix(q, Parts(name))
  {
    var all := names + [name];
    if Leads(names, q) {
      var i :| 0 <= i < |names| && ProperPrefix(q, Parts(names[i]));
      assert ProperPrefix(q, Parts(all[i]));
    }
    if ProperPrefix(q, Parts(name)) { assert ProperPrefix(q, Parts(all[|names|])); }
  }

  lemma FoundMore(n: Node, names: seq<string>, foreign: set<string>, name: string, q: seq<string>)
    requires Represents(n, names, foreign) && Install(n, Parts(name), name).Some? && Fits(names, foreign, name)
    ensures FoundOk(Find(Install(n, Parts(name), name).value, q), names + [name], foreign, q)
  {
    hide Find, Install, Leads, ProperPrefix;
    InstallFinds(n, Parts(name), name, q);
    LeadsMore(names, name, q);
    NotLeading(n, names, foreign, name);
    NotItself(Parts(name));
    assert FoundOk(Find(n, q), names, foreign, q);
    assert name in names + [name];
  }

  lemma NotItself(parts: seq<string>)
    ensures !ProperPrefix(parts, parts)
  {
  }

  lemma InstallRepresents(n: Node, names: seq<string>, foreign: set<string>, name: string)
    requires Represents(n, names, foreign) && Install(n, Parts(name), name).Some?
    ensures Represents(Install(n, Parts(name), name).value, names + [name], foreign)
  {
    hide Find, Leads, FoundOk, ProperPrefix, Fits;
    InstallFits(n, names, foreign, name);
    var t, all := Install(n, Parts(name), name).value, names + [name];
    forall q ensures FoundOk(Find(t, q), all, foreign, q) { FoundMore(n, names, foreign, name, q); }
    forall i | 0 <= i < |all| ensures Find(t, Parts(all[i])) == IsLeaf(all[i]) {
      InstallFinds(n, Parts(name), name, Parts(all[i]));
      if i < |names| { Apart(names, foreign, name, i); }
    }
    Roots(names, foreign, name);
    forall f | f in foreign ensures Find(t, [f]) == IsForeign {
      InstallFinds(n, Parts(name), name, [f]);
    }
  }

  lemma Apart(names: seq<string>, foreign: set<string>, name: string, i: nat)
    requires Fits(names, foreign, name) && i < |names|
    ensures Parts(names[i]) != Parts(name) && !ProperPrefix(Parts(names[i]), Parts(name)) && !ProperPrefix(Parts(name), Parts(names[i]))
  {
    InsideIsPrefix(names[i], name);
    InsideIsPrefix(name, names[i]);
  }

  lemma Roots(names: seq<string>, foreign: set<string>, name: string)
    requires Fits(names, foreign, name)
    ensures forall f :: f in foreign ==> [f] != Parts(name) && !ProperPrefix([f], Parts(name))
  {
    assert Parts(name)[..1][0] == Parts(name)[0];
  }

  lemma NotLeading(n: Node, names: seq<string>, foreign: set<string>, name: string)
    requires Represents(n, names, foreign) && Fits(names, foreign, name)
    ensures !Leads(names, Parts(name))
  {
    forall i | 0 <= i < |names| ensures !ProperPrefix(Parts(name), Parts(names[i])) { Apart(names, foreign, name, i); }
  }

  /** The global object before anything is installed. */
  function Bare(foreign: set<string>): Node { Space(map f | f in foreign :: Foreign) }

  lemma BareRepresents(foreign: set<string>)
    ensures Represents(Bare(foreign), [], foreign)
  {
    var n := Bare(foreign);
    forall q | q != [] ensures Find(n, q) == if |q| == 1 && q[0] in foreign then IsForeign else Absent {
      if q[0] in foreign && |q| > 1 { assert Find(n, q) == Find(Foreign, q[1..]); }
      if q[0] in foreign && |q| == 1 { assert q[1..] == []; }
    }
    forall q ensures FoundOk(Find(n, q), [], foreign, q) { }
  }

  ghost predicate AllFit(names: seq<string>, foreign: set<string>) {
    && (forall i :: 0 <= i < |names| ==> Parts(names[i])[0] !in foreign)
    && (forall i, j :: 0 <= i < j < |names| ==> !Conflict(names[i], names[j]))
  }

  /** Installing a list of names never collides exactly if no two of them conflict and no root was
      taken before; then every name finds its own function. */
  lemma {:induction false} InstallsAll(names: seq<string>, foreign: set<string>)
    ensures InstallAll(Bare(foreign), names).Some? <==> AllFit(names, foreign)
    ensures InstallAll(Bare(foreign), names).Some? ==> Represents(InstallAll(Bare(foreign), names).value, names, foreign)
    decreases |names|
  {
    hide Represents, Install, Conflict;
    if names == [] {
      BareRepresents(foreign);
    } else {
      var before, last := names[..|names| - 1], names[|names| - 1];
      assert names == before + [last];
      InstallsAll(before, foreign);
      FitMore(before, last, foreign);
      var n := InstallAll(Bare(foreign), before);
      if n.Some? {
        InstallFits(n.value, before, foreign, last);
        if Fits(before, foreign, last) { InstallRepresents(n.value, before, foreign, last); }
      }
    }
  }

  lemma FitMore(before: seq<string>, last: string, foreign: set<string>)
    ensures AllFit(before + [last], foreign) <==> AllFit(before, foreign) && Fits(before, foreign, last)
  {
    var names := before + [last];
    assert forall i :: 0 <= i < |before| ==> names[i] == before[i];
    if AllFit(names, foreign) { assert names[|before|] == last; }
  }

  /** Names that validation or merging accepted do not collide with one another. */
  lemma AcceptedInstalls(names: seq<string>, foreign: set<string>)
    requires IsSorted(names) && ConflictFree(Elements(names))
    requires forall i :: 0 <= i < |names| ==> Parts(names[i])[0] !in foreign
    ensures InstallAll(Bare(foreign), names).Some?
    ensures forall i :: 0 <= i < |names| ==> Find(InstallAll(Bare(foreign), names).value, Parts(names[i])) == IsLeaf(names[i])
  {
    hide Conflict, InstallAll;
    SortedConflict(names, Elements(names));
    InstallsAll(names, foreign);
  }
}
