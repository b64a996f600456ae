/** The directory tree of src/vfs/mem.rs and what editing it does to every path. */
module MemTree {
  import opened Base
  import opened Paths

  type Inode = nat

  datatype Node = File(inode: Inode) | Directory(entries: map<string, Node>)

  /** What a path names, without the contents of a directory. */
  datatype Entry = NoEntry | IsFile(inode: Inode) | IsDir

  /** `get_node`, as a recursion on the path. */
  function GetNode(n: Node, p: Path): (r: Result<Node>)
    ensures r.Err? ==> r.errno in {ENOTDIR, ENOENT}
    decreases |p|
  {
    if p == [] then Ok(n)
    else match n
      case File(_) => Err(ENOTDIR)
      case Directory(m) => if p[0] in m then GetNode(m[p[0]], p[1..]) else Err(ENOENT)
  }

  /** `get_node`: the loop that walks down one component at a time. */
  method FindNode(root: Node, path: Path) returns (r: Result<Node>)
    ensures r == GetNode(root, path)
  {
    var current := root;
    for i := 0 to |path|
      invariant GetNode(root, path) == GetNode(current, path[i..])
    {
      assert path[i..][1..] == path[i + 1..];
      match current
      case File(_) => return Err(ENOTDIR);
      case Directory(m) =>
        if path[i] !in m {
          return Err(ENOENT);
        }
        current := m[path[i]];
    }
    return Ok(current);
  }

  function EntryOf(n: Node): Entry {
    match n case File(i) => IsFile(i) case Directory(_) => IsDir
  }

  function At(n: Node, p: Path): Entry {
    match GetNode(n, p) case Ok(m) => EntryOf(m) case Err(_) => NoEntry
  }

  /** Every path that names something below a node, the node itself being `[]`. */
  ghost function AllPaths(n: Node): set<Path> {
    match n
    case File(_) => {[]}
    case Directory(m) => {[]} + set k, p | k in m && p in AllPaths(m[k]) :: [k] + p
  }

  /** Paths with one more component in front. */
  ghost function Under(k: string, paths: set<Path>): set<Path> {
    set p | p in paths :: [k] + p
  }

  lemma UnderSize(k: string, paths: set<Path>)
    ensures |Under(k, paths)| == |paths|
  {
    var f := (p: Path) => [k] + p;
    forall p, q | p in paths && q in paths && f(p) == f(q) ensures p == q {
      assert f(p)[1..] == p && f(q)[1..] == q;
    }
    forall y | y in Under(k, paths) ensures exists p :: p in paths && f(p) == y {
      var p :| p in paths && y == [k] + p;
      assert f(p) == y;
    }
    ImageSize(paths, f, Under(k, paths));
  }

  lemma {:induction false} AllPathsExact(n: Node, p: Path)
    ensures p in AllPaths(n) <==> At(n, p) != NoEntry
    decreases |p|
  {
    if p != [] && n.Directory? {
      if p[0] in n.entries {
        AllPathsExact(n.entries[p[0]], p[1..]);
      }
      assert [p[0]] + p[1..] == p;
      forall k, q | k in n.entries && [k] + q == p
        ensures k == p[0] && q == p[1..]
      {
        assert ([k] + q)[0] == k;
        assert ([k] + q)[1..] == q;
      }
    }
  }

  lemma {:induction false} GetNodeAppend(n: Node, p: Path, q: Path)
    requires GetNode(n, p).Ok?
    ensures GetNode(n, p + q) == GetNode(GetNode(n, p).value, q)
    decreases |p|
  {
    if p == [] {
      assert p + q == q;
    } else {
      assert (p + q)[1..] == p[1..] + q;
      GetNodeAppend(n.entries[p[0]], p[1..], q);
    }
  }

  /** Ancestors of something that exists are directories. */
  lemma {:induction false} AncestorIsDir(n: Node, p: Path, q: Path)
    requires p < q && At(n, q) != NoEntry
    ensures At(n, p) == IsDir
    decreases |p|
  {
    if p != [] {
      AncestorIsDir(n.entries[p[0]], p[1..], q[1..]);
    }
  }

  function Parent(p: Path): Path requires p != [] { p[..|p| - 1] }

  /** Inserting under an existing parent directory, as `parent_dir_mut` and `insert` do. */
  function PutAt(n: Node, p: Path, child: Node): (r: Node)
    requires p != [] && At(n, Parent(p)) == IsDir
    ensures r.Directory?
    decreases |p|
  {
    assert Parent(p) != [] ==> Parent(p)[0] == p[0] && Parent(p)[1..] == Parent(p[1..]);
    if |p| == 1 then Directory(n.entries[p[0] := child])
    else Directory(n.entries[p[0] := PutAt(n.entries[p[0]], p[1..], child)])
  }

  /** Removing under an existing parent directory, as `parent_dir_mut` and `remove` do. */
  function CutAt(n: Node, p: Path): (r: Node)
    requires p != [] && At(n, Parent(p)) == IsDir
    ensures r.Directory?
    decreases |p|
  {
    assert Parent(p) != [] ==> Parent(p)[0] == p[0] && Parent(p)[1..] == Parent(p[1..]);
    if |p| == 1 then Directory(n.entries - {p[0]})
    else Directory(n.entries[p[0] := CutAt(n.entries[p[0]], p[1..])])
  }

  lemma {:induction false} AtPut(n: Node, p: Path, child: Node, q: Path)
    requires p != [] && At(n, Parent(p)) == IsDir
    ensures At(PutAt(n, p, child), q) == if p <= q then At(child, q[|p|..]) else At(n, q)
    decreases |p|
  {
    if q != [] {
      if |p| == 1 {
        assert q[0] == p[0] ==> p <= q;
      } else {
        assert Parent(p)[0] == p[0] && Parent(p)[1..] == Parent(p[1..]);
        if q[0] == p[0] {
          AtPut(n.entries[p[0]], p[1..], child, q[1..]);
          assert p <= q <==> p[1..] <= q[1..];
          if p <= q {
            assert q[|p|..] == q[1..][|p[1..]|..];
          }
        }
      }
    }
  }

  lemma {:induction false} AtCut(n: Node, p: Path, q: Path)
    requires p != [] && At(n, Parent(p)) == IsDir
    ensures At(CutAt(n, p), q) == if p <= q then NoEntry else At(n, q)
    decreases |p|
  {
    if q != [] {
      if |p| == 1 {
        assert q[0] == p[0] ==> p <= q;
      } else {
        assert Parent(p)[0] == p[0] && Parent(p)[1..] == Parent(p[1..]);
        if q[0] == p[0] {
          AtCut(n.entries[p[0]], p[1..], q[1..]);
          assert p <= q <==> p[1..] <= q[1..];
        }
      }
    }
  }

  /** Nothing lies below a file or an empty directory. */
  predicate IsLeaf(n: Node) { n.Directory? ==> n.entries == map[] }

  lemma LeafPaths(n: Node, p: Path)
    requires IsLeaf(n)
    ensures At(n, p) == if p == [] then EntryOf(n) else NoEntry
  {
  }

  /** The whole meaning of a tree: each path with what it names. */
  ghost function Flat(n: Node): map<Path, Entry> {
    map p | p in AllPaths(n) :: At(n, p)
  }

  lemma FlatAt(n: Node, p: Path)
    ensures p in Flat(n) <==> At(n, p) != NoEntry
    ensures p in Flat(n) ==> Flat(n)[p] == At(n, p)
  {
    AllPathsExact(n, p);
  }

  /** Adding a file or an empty directory at a free name adds that one path. */
  lemma FlatPutLeaf(n: Node, p: Path, child: Node)
    requires p != [] && At(n, Parent(p)) == IsDir && At(n, p) == NoEntry && IsLeaf(child)
    ensures Flat(PutAt(n, p, child)) == Flat(n)[p := EntryOf(child)]
  {
    var r := PutAt(n, p, child);
    forall q ensures q in Flat(r) <==> q in Flat(n)[p := EntryOf(child)]
             ensures q in Flat(r) ==> Flat(r)[q] == Flat(n)[p := EntryOf(child)][q]
    {
      FlatAt(r, q);
      FlatAt(n, q);
      AtPut(n, p, child, q);
      if p <= q {
        LeafPaths(child, q[|p|..]);
        if p < q && At(n, q) != NoEntry {
          AncestorIsDir(n, p, q);
          assert false;
        }
        assert q[|p|..] == [] ==> p == q;
      }
    }
  }

  /** Removing a file or an empty directory removes that one path. */
  lemma FlatCutLeaf(n: Node, p: Path)
    requires p != [] && At(n, Parent(p)) == IsDir
    requires GetNode(n, p).Ok? && IsLeaf(GetNode(n, p).value)
    ensures Flat(CutAt(n, p)) == Flat(n) - {p}
  {
    var r := CutAt(n, p);
    forall q ensures q in Flat(r) <==> q in Flat(n) - {p}
             ensures q in Flat(r) ==> Flat(r)[q] == (Flat(n) - {p})[q]
    {
      FlatAt(r, q);
      FlatAt(n, q);
      AtCut(n, p, q);
      if p <= q {
        GetNodeAppend(n, p, q[|p|..]);
        assert p + q[|p|..] == q;
        LeafPaths(GetNode(n, p).value, q[|p|..]);
        assert q[|p|..] == [] <==> p == q;
      }
    }
  }

  /** Where a rename of `from` to `to` takes a path. */
  function Moved(from: Path, to: Path, q: Path): Path {
    if from <= q then to + q[|from|..] else q
  }

  /** The meaning of a tree after `from` is renamed to `to`: each path of the old tree but a
      replaced target, taken where the rename takes it. */
  ghost predicate IsRenamed(before: map<Path, Entry>, after: map<Path, Entry>, from: Path, to: Path) {
    && (forall q :: q in before && q != to ==>
          Moved(from, to, q) in after && after[Moved(from, to, q)] == before[q])
    && (forall r :: r in after ==> exists q :: q in before && q != to && r == Moved(from, to, q))
    && (forall q, r :: q in before && r in before && q != to && r != to && q != r ==>
          Moved(from, to, q) != Moved(from, to, r))
  }

  lemma {:induction false} PrefixSplit(p: Path, q: Path)
    requires p <= q
    ensures q == p + q[|p|..]
  {
  }

  lemma RenamedAt(n: Node, from: Path, to: Path, q: Path)
    requires from != [] && to != [] && !(from <= to)
    requires GetNode(n, from).Ok? && At(n, Parent(from)) == IsDir
    requires At(CutAt(n, from), Parent(to)) == IsDir
    ensures At(PutAt(CutAt(n, from), to, GetNode(n, from).value), q)
         == if to <= q then At(n, from + q[|to|..]) else if from <= q then NoEntry else At(n, q)
  {
    AtPut(CutAt(n, from), to, GetNode(n, from).value, q);
    AtCut(n, from, q);
    if to <= q {
      GetNodeAppend(n, from, q[|to|..]);
    }
  }

  /** A rename moves exactly the source subtree, drops only a replaced leaf at the target,
      leaves every other path alone, and never makes two paths collide. */
  lemma RenameMoves(n: Node, from: Path, to: Path)
    requires from != [] && to != [] && !(from <= to)
    requires GetNode(n, from).Ok? && At(n, Parent(from)) == IsDir
    requires At(CutAt(n, from), Parent(to)) == IsDir
    requires GetNode(n, to).Ok? ==> IsLeaf(GetNode(n, to).value)
    ensures IsRenamed(Flat(n), Flat(PutAt(CutAt(n, from), to, GetNode(n, from).value)), from, to)
  {
    var r := PutAt(CutAt(n, from), to, GetNode(n, from).value);
    var before, after := Flat(n), Flat(r);
    forall q | q in before && q != to
      ensures Moved(from, to, q) in after && after[Moved(from, to, q)] == before[q]
    {
      FlatAt(n, q);
      if to <= q {
        BelowLeaf(n, to, q);
      }
      var m := Moved(from, to, q);
      RenamedAt(n, from, to, m);
      FlatAt(r, m);
      if from <= q {
        assert m[|to|..] == q[|from|..];
        PrefixSplit(from, q);
      }
    }
    forall m | m in after
      ensures exists q :: q in before && q != to && m == Moved(from, to, q)
    {
      FlatAt(r, m);
      RenamedAt(n, from, to, m);
      var q := if to <= m then from + m[|to|..] else m;
      FlatAt(n, q);
      if to <= m {
        assert q[|from|..] == m[|to|..];
        PrefixSplit(to, m);
        assert from <= q;
      }
      assert m == Moved(from, to, q);
    }
    forall q, q' | q in before && q' in before && q != to && q' != to && q != q'
      ensures Moved(from, to, q) != Moved(from, to, q')
    {
      FlatAt(n, q);
      FlatAt(n, q');
      MovedApart(n, from, to, q, q');
    }
  }

  lemma MovedApart(n: Node, from: Path, to: Path, q: Path, q': Path)
    requires GetNode(n, to).Ok? ==> IsLeaf(GetNode(n, to).value)
    requires At(n, q) != NoEntry && At(n, q') != NoEntry && q != to && q' != to && q != q'
    ensures Moved(from, to, q) != Moved(from, to, q')
  {
    if to <= q {
      BelowLeaf(n, to, q);
    }
    if to <= q' {
      BelowLeaf(n, to, q');
    }
    if from <= q && from <= q' {
      PrefixSplit(from, q);
      PrefixSplit(from, q');
      assert (to + q[|from|..])[|to|..] == q[|from|..];
      assert (to + q'[|from|..])[|to|..] == q'[|from|..];
    }
  }

  lemma BelowLeaf(n: Node, p: Path, q: Path)
    requires p <= q && At(n, q) != NoEntry
    requires GetNode(n, p).Ok? ==> IsLeaf(GetNode(n, p).value)
    ensures p == q
  {
    if p != q {
      AncestorIsDir(n, p, q);
      PrefixSplit(p, q);
      GetNodeAppend(n, p, q[|p|..]);
      LeafPaths(GetNode(n, p).value, q[|p|..]);
    }
  }

  /** The height test that `subtree_fits` must agree with. */
  predicate Fits(n: Node, allowance: nat) {
    match n
    case File(_) => true
    case Directory(m) => forall k :: k in m ==> allowance >= 1 && Fits(m[k], allowance - 1)
  }

  lemma {:induction false} FitsIsDepth(n: Node, allowance: nat)
    ensures Fits(n, allowance) <==> forall p :: p in AllPaths(n) ==> |p| <= allowance
  {
    if n.Directory? {
      if Fits(n, allowance) {
        forall p | p in AllPaths(n) ensures |p| <= allowance {
          if p != [] {
            var k, q :| k in n.entries && q in AllPaths(n.entries[k]) && p == [k] + q;
            FitsIsDepth(n.entries[k], allowance - 1);
          }
        }
      }
      if forall p :: p in AllPaths(n) ==> |p| <= allowance {
        forall k | k in n.entries ensures allowance >= 1 && Fits(n.entries[k], allowance - 1) {
          forall q | q in AllPaths(n.entries[k]) ensures |q| <= allowance - 1 {
            assert [k] + q in AllPaths(n);
          }
          AllPathsExact(n.entries[k], []);
          assert [] in AllPaths(n.entries[k]);
          FitsIsDepth(n.entries[k], allowance - 1);
        }
      }
    }
  }
}
