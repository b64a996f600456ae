/** `collect_snapshot_entries` of src/vfs/mem.rs: one walk that gathers inodes and totals. */
module MemCollect {
  import opened Base
  import opened Paths
  import opened MemTree
  import opened MemSpec
  import opened MemProofs

  /** No inode is linked at two paths below a node. */
  ghost predicate Unique(n: Node) {
    forall p, q :: At(n, p).IsFile? && At(n, p) == At(n, q) ==> p == q
  }

  ghost function Below(m: map<string, Node>, names: set<string>): Node {
    Directory(map k | k in m && k in names :: m[k])
  }

  ghost function LengthsIn(sizes: map<Inode, nat>, which: set<Inode>): map<Inode, nat> {
    map i | i in which && i in sizes :: sizes[i]
  }

  lemma AtInode(n: Node, p: Path, i: Inode)
    requires At(n, p) == IsFile(i)
    ensures i in Inodes(n)
  {
    FlatAt(n, p);
  }

  lemma InodeAt(n: Node, i: Inode) returns (p: Path)
    requires i in Inodes(n)
    ensures At(n, p) == IsFile(i)
  {
    p :| p in Flat(n) && Flat(n)[p].IsFile? && Flat(n)[p].inode == i;
    FlatAt(n, p);
  }

  /** What entering one more child adds to the inodes. */
  lemma InodesStep(m: map<string, Node>, done: set<string>, k: string)
    requires k in m && k !in done && done <= m.Keys && Unique(Directory(m))
    ensures Inodes(Below(m, done + {k})) == Inodes(Below(m, done)) + Inodes(m[k])
    ensures Inodes(Below(m, done)) !! Inodes(m[k])
    ensures Unique(m[k])
  {
    hide Inodes, Flat, Unique;
    var n, n' := Below(m, done), Below(m, done + {k});
    forall p ensures At(Directory(m), [k] + p) == At(m[k], p) == At(n', [k] + p) {
      assert ([k] + p)[1..] == p;
    }
    forall i | i in Inodes(n') ensures i in Inodes(n) + Inodes(m[k]) {
      var p := InodeAt(n', i);
      if p[0] == k {
        AtInode(m[k], p[1..], i);
      } else {
        AtInode(n, p, i);
      }
    }
    forall i | i in Inodes(n) ensures i in Inodes(n') {
      var p := InodeAt(n, i);
      AtInode(n', p, i);
    }
    forall i | i in Inodes(m[k]) ensures i in Inodes(n') {
      var p := InodeAt(m[k], i);
      AtInode(n', [k] + p, i);
    }
    UniqueChild(m, k);
    forall i | i in Inodes(n) ensures i !in Inodes(m[k]) {
      var p := InodeAt(n, i);
      if i in Inodes(m[k]) {
        var q := InodeAt(m[k], i);
        UniqueAt(Directory(m), p, [k] + q);
      }
    }
  }

  lemma UniqueAt(n: Node, p: Path, q: Path)
    requires Unique(n) && At(n, p).IsFile? && At(n, p) == At(n, q)
    ensures p == q
  {
  }

  lemma UniqueChild(m: map<string, Node>, k: string)
    requires k in m && Unique(Directory(m))
    ensures Unique(m[k])
  {
    forall p, q | At(m[k], p).IsFile? && At(m[k], p) == At(m[k], q) ensures p == q {
      assert ([k] + p)[1..] == p && ([k] + q)[1..] == q;
      assert At(Directory(m), [k] + p) == At(Directory(m), [k] + q);
    }
  }

  ghost function DirPaths(n: Node): set<Path> { Dirs(Flat(n)) }

  lemma DirAt(n: Node, p: Path)
    ensures p in DirPaths(n) <==> p != [] && At(n, p) == IsDir
  {
    FlatAt(n, p);
  }

  lemma BelowAt(m: map<string, Node>, names: set<string>, p: Path)
    ensures At(Below(m, names), p)
         == if p == [] then IsDir else if p[0] in names && p[0] in m then At(m[p[0]], p[1..]) else NoEntry
  {
  }

  /** What entering one more child adds to the directories: its own, and itself if it is one. */
  lemma DirsStep(m: map<string, Node>, done: set<string>, k: string)
    requires k in m && k !in done && done <= m.Keys
    ensures |DirPaths(Below(m, done + {k}))|
         == |DirPaths(Below(m, done))| + |DirPaths(m[k])| + (if m[k].Directory? then 1 else 0)
  {
    hide DirPaths;
    var n, n' := Below(m, done), Below(m, done + {k});
    var own: set<Path> := if m[k].Directory? then {[k]} else {};
    var deep := Under(k, DirPaths(m[k]));
    UnderSize(k, DirPaths(m[k]));
    forall p ensures p in DirPaths(n') <==> p in DirPaths(n) || p in deep || p in own {
      DirAt(n', p);
      DirAt(n, p);
      BelowAt(m, done + {k}, p);
      BelowAt(m, done, p);
      if p != [] && p[0] == k {
        DirAt(m[k], p[1..]);
        assert p == [k] + p[1..];
        assert p[1..] == [] <==> p == [k];
        if p in deep {
          var q :| q in DirPaths(m[k]) && p == [k] + q;
          assert p[1..] == q;
        }
      } else {
        assert p !in deep && p !in own;
      }
    }
    assert DirPaths(n') == DirPaths(n) + deep + own;
    forall p | p in DirPaths(n) ensures p !in deep && p !in own {
      DirAt(n, p);
    }
    DirAt(m[k], []);
    forall q | q in DirPaths(m[k]) ensures [k] != [k] + q {
      DirAt(m[k], q);
    }
  }

  lemma {:induction false} TotalUnion(sizes: map<Inode, nat>, a: set<Inode>, b: set<Inode>)
    requires a !! b
    ensures Total(LengthsIn(sizes, a + b)) == Total(LengthsIn(sizes, a)) + Total(LengthsIn(sizes, b))
    decreases |b|
  {
    if b == {} {
      assert a + b == a;
    } else {
      var k :| k in b;
      TotalUnion(sizes, a, b - {k});
      if k in sizes {
        TotalRemove(LengthsIn(sizes, a + b), k);
        TotalRemove(LengthsIn(sizes, b), k);
      }
      assert LengthsIn(sizes, a + b) - {k} == LengthsIn(sizes, a + (b - {k}));
      assert LengthsIn(sizes, b) - {k} == LengthsIn(sizes, b - {k});
      if k !in sizes {
        assert LengthsIn(sizes, a + b) == LengthsIn(sizes, a + (b - {k}));
        assert LengthsIn(sizes, b) == LengthsIn(sizes, b - {k});
      }
    }
  }

  /** The totals of one subtree. */
  ghost function Bytes(n: Node, sizes: map<Inode, nat>): nat { Total(LengthsIn(sizes, Inodes(n))) }
  ghost function Entries(n: Node): nat { |Inodes(n)| + |DirPaths(n)| }

  lemma LeafTotals(i: Inode, sizes: map<Inode, nat>)
    ensures Inodes(File(i)) == {i} && DirPaths(File(i)) == {}
    ensures i in sizes ==> Bytes(File(i), sizes) == sizes[i]
  {
    assert AllPaths(File(i)) == {[]};
    assert [] in Flat(File(i)) && Flat(File(i))[[]] == IsFile(i);
    if i in sizes {
      TotalRemove(LengthsIn(sizes, {i}), i);
      assert LengthsIn(sizes, {i}) - {i} == map[];
    }
  }

  lemma EmptyTotals(sizes: map<Inode, nat>)
    ensures Inodes(Directory(map[])) == {} && DirPaths(Directory(map[])) == {}
    ensures Bytes(Directory(map[]), sizes) == 0
  {
    assert AllPaths(Directory(map[])) == {[]};
    assert LengthsIn(sizes, {}) == map[];
  }

  /** The walk: inodes gathered so far, plus the subtree's, and both totals likewise. The
      checked additions cannot fail while the end totals fit. */
  method Collect(n: Node, sizes: map<Inode, nat>, found: set<Inode>, used: nat, count: nat)
    returns (found': set<Inode>, used': nat, count': nat)
    requires Unique(n) && Inodes(n) <= sizes.Keys
    requires used + Bytes(n, sizes) <= U64_MAX && count + Entries(n) <= U64_MAX
    ensures found' == found + Inodes(n)
    ensures used' == used + Bytes(n, sizes) && count' == count + Entries(n)
    decreases n, 1
  {
    hide Unique, Inodes, DirPaths, Total, LengthsIn;
    match n
    case File(i) =>
      LeafTotals(i, sizes);
      found', used', count' := found + {i}, used + sizes[i], count + 1;
    case Directory(_) =>
      found', used', count' := CollectEntries(n, sizes, found, used, count);
  }

  method CollectEntries(n: Node, sizes: map<Inode, nat>, found: set<Inode>, used: nat, count: nat)
    returns (found': set<Inode>, used': nat, count': nat)
    requires n.Directory? && Unique(n) && Inodes(n) <= sizes.Keys
    requires used + Bytes(n, sizes) <= U64_MAX && count + Entries(n) <= U64_MAX
    ensures found' == found + Inodes(n)
    ensures used' == used + Bytes(n, sizes) && count' == count + Entries(n)
    decreases n, 0
  {
    hide Unique, Inodes, Bytes, Entries, Below;
    found', used', count' := found, used, count;
    var m := n.entries;
    var left := m.Keys;
    ghost var done: set<string> := {};
    NoneAndAll(m, sizes);
    while left != {}
      invariant done + left == m.Keys && done !! left
      invariant found' == found + Inodes(Below(m, done))
      invariant used' == used + Bytes(Below(m, done), sizes)
      invariant count' == count + Entries(Below(m, done))
      decreases left
    {
      var k :| k in left;
      Fraction(m, done, k, sizes);
      if m[k].Directory? { count' := count' + 1; }
      found', used', count' := Collect(m[k], sizes, found', used', count');
      left := left - {k};
      done := done + {k};
    }
    assert done == m.Keys;
  }

  lemma NoneAndAll(m: map<string, Node>, sizes: map<Inode, nat>)
    ensures Inodes(Below(m, {})) == {} && Bytes(Below(m, {}), sizes) == 0 && Entries(Below(m, {})) == 0
    ensures Below(m, m.Keys) == Directory(m)
  {
    assert Below(m, {}) == Directory(map[]);
    EmptyTotals(sizes);
  }

  /** One more child brings exactly its own totals, and never more than the whole has. */
  lemma Fraction(m: map<string, Node>, done: set<string>, k: string, sizes: map<Inode, nat>)
    requires k in m && k !in done && done <= m.Keys && Unique(Directory(m)) && Inodes(Directory(m)) <= sizes.Keys
    ensures Unique(m[k]) && Inodes(m[k]) <= sizes.Keys
    ensures Inodes(Below(m, done + {k})) == Inodes(Below(m, done)) + Inodes(m[k])
    ensures Bytes(Below(m, done + {k}), sizes) == Bytes(Below(m, done), sizes) + Bytes(m[k], sizes)
    ensures Entries(Below(m, done + {k})) == Entries(Below(m, done)) + Entries(m[k]) + (if m[k].Directory? then 1 else 0)
    ensures Bytes(Below(m, done + {k}), sizes) <= Bytes(Directory(m), sizes)
    ensures Entries(Below(m, done + {k})) <= Entries(Directory(m))
  {
    hide Unique, Inodes, DirPaths, Total;
    InodesStep(m, done, k);
    DirsStep(m, done, k);
    TotalUnion(sizes, Inodes(Below(m, done)), Inodes(m[k]));
    PartOfWhole(m, done + {k}, sizes);
  }

  lemma PartOfWhole(m: map<string, Node>, some: set<string>, sizes: map<Inode, nat>)
    requires some <= m.Keys && Unique(Directory(m))
    ensures Inodes(Below(m, some)) <= Inodes(Directory(m))
    ensures Bytes(Below(m, some), sizes) <= Bytes(Directory(m), sizes)
    ensures Entries(Below(m, some)) <= Entries(Directory(m))
  {
    hide Inodes, DirPaths, Total, Unique;
    var n, whole := Below(m, some), Directory(m);
    forall i | i in Inodes(n) ensures i in Inodes(whole) {
      var p := InodeAt(n, i);
      AtInode(whole, p, i);
    }
    forall p | p in DirPaths(n) ensures p in DirPaths(whole) {
      DirAt(n, p);
      DirAt(whole, p);
    }
    SubsetSize(Inodes(n), Inodes(whole));
    SubsetSize(DirPaths(n), DirPaths(whole));
    var rest := Inodes(whole) - Inodes(n);
    TotalUnion(sizes, Inodes(n), rest);
    assert Inodes(n) + rest == Inodes(whole);
  }
}
