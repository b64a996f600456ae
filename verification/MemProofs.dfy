/** Every operation of the in-memory filesystem keeps its counters, its tree and its quotas. */
module MemProofs {
  import opened Base
  import opened Paths
  import opened MemTree
  import opened MemSpec

  // ------------------------------------------------------------------- sums

  lemma {:induction false} TotalRemove(m: map<Inode, nat>, k: Inode)
    requires k in m
    ensures Total(m) == m[k] + Total(m - {k})
  {
    var j :| j in m && Total(m) == m[j] + Total(m - {j});
    if j != k {
      TotalRemove(m - {j}, k);
      TotalRemove(m - {k}, j);
      assert m - {j} - {k} == m - {k} - {j};
    }
  }

  lemma LengthsSet(files: map<Inode, FileNode<Bytes>>, i: Inode, f: FileNode<Bytes>)
    ensures i in files ==> Total(Lengths(files[i := f])) == Total(Lengths(files)) - |files[i].data| + |f.data|
    ensures i !in files ==> Total(Lengths(files[i := f])) == Total(Lengths(files)) + |f.data|
    ensures i in files ==> Total(Lengths(files)) >= |files[i].data|
  {
    TotalRemove(Lengths(files[i := f]), i);
    assert Lengths(files[i := f]) - {i} == Lengths(files) - {i};
    if i in files {
      TotalRemove(Lengths(files), i);
    } else {
      assert Lengths(files) - {i} == Lengths(files);
    }
  }

  lemma LengthsDrop(files: map<Inode, FileNode<Bytes>>, i: Inode)
    requires i in files
    ensures Total(Lengths(files - {i})) == Total(Lengths(files)) - |files[i].data|
  {
    TotalRemove(Lengths(files), i);
    assert Lengths(files - {i}) == Lengths(files) - {i};
  }

  // ------------------------------------------------------------- references

  lemma LinksAdd(t: map<Path, Entry>, p: Path, e: Entry)
    requires p !in t && p != []
    ensures forall i :: Links(t[p := e], i) == if e == IsFile(i) then Links(t, i) + {p} else Links(t, i)
    ensures Dirs(t[p := e]) == if e == IsDir then Dirs(t) + {p} else Dirs(t)
  {
  }

  lemma LinksDrop(t: map<Path, Entry>, p: Path)
    requires p in t && p != []
    ensures forall i :: Links(t - {p}, i) == Links(t, i) - {p}
    ensures Dirs(t - {p}) == Dirs(t) - {p}
  {
  }

  lemma FileLink(t: map<Path, Entry>, p: Path, i: Inode)
    requires p in t && t[p] == IsFile(i) && |Links(t, i)| <= 1
    ensures Links(t, i) == {p}
  {
    assert p in Links(t, i);
    assert {p} <= Links(t, i);
    SubsetSize({p}, Links(t, i));
  }

  ghost function MovedSet(from: Path, to: Path, s: set<Path>): set<Path> {
    set p | p in s :: Moved(from, to, p)
  }

  lemma MovedSize(from: Path, to: Path, s: set<Path>)
    requires forall p, q :: p in s && q in s && p != q ==> Moved(from, to, p) != Moved(from, to, q)
    ensures |MovedSet(from, to, s)| == |s|
  {
    var f := (p: Path) => Moved(from, to, p);
    forall y | y in MovedSet(from, to, s) ensures exists p :: p in s && f(p) == y {
      var p :| p in s && y == Moved(from, to, p);
      assert f(p) == y;
    }
    ImageSize(s, f, MovedSet(from, to, s));
  }

  /** Renaming permutes links and directories, but for a replaced target. */
  lemma RenameLinks(t: map<Path, Entry>, t': map<Path, Entry>, from: Path, to: Path, i: Inode)
    requires IsRenamed(t, t', from, to)
    ensures |Links(t', i)| == |Links(t, i) - {to}|
  {
    var s := Links(t, i) - {to};
    MovedSize(from, to, s);
    forall r | r in Links(t', i) ensures r in MovedSet(from, to, s) {
      var p :| p in t && p != to && r == Moved(from, to, p);
    }
    assert Links(t', i) == MovedSet(from, to, s);
  }

  lemma RenameDirs(t: map<Path, Entry>, t': map<Path, Entry>, from: Path, to: Path)
    requires IsRenamed(t, t', from, to) && from != [] && to != []
    ensures |Dirs(t')| == |Dirs(t) - {to}|
  {
    var s := Dirs(t) - {to};
    MovedSize(from, to, s);
    forall r | r in Dirs(t') ensures r in MovedSet(from, to, s) {
      var p :| p in t && p != to && r == Moved(from, to, p);
      assert p == [] ==> r == [];
    }
    assert Dirs(t') == MovedSet(from, to, s);
  }

  // ------------------------------------------- one part of the invariant at a time

  lemma TreeGrow(t: map<Path, Entry>, files: map<Inode, FileNode<Bytes>>, files': map<Inode, FileNode<Bytes>>)
    requires TreeInv(t, files) && files.Keys <= files'.Keys
    ensures TreeInv(t, files')
  {
  }

  /** A state with the same inodes and handles, or fewer handles, or more room ahead. */
  lemma TableFrame(s: S, s': S)
    requires TableInv(s)
    requires s'.files.Keys == s.files.Keys && s.nextInode <= s'.nextInode && s.nextHandle <= s'.nextHandle
    requires forall h :: h in s'.handles ==> h in s.handles && s'.handles[h] == s.handles[h]
    ensures TableInv(s')
  {
  }

  lemma UsageSet(t: map<Path, Entry>, s: S, s': S, i: Inode)
    requires UsageInv(t, s) && i in s.files && i in s'.files && s'.files == s.files[i := s'.files[i]]
    requires s'.usedBytes == s.usedBytes - |s.files[i].data| + |s'.files[i].data| && s'.fileCount == s.fileCount
    ensures UsageInv(t, s') && s'.files.Keys == s.files.Keys
  {
    hide Total, Lengths, Dirs;
    LengthsSet(s.files, i, s'.files[i]);
    assert s'.files.Keys == s.files.Keys;
  }

  lemma QuotaSet(s: S, s': S, q: Quota, i: Inode)
    requires QuotaInv(s, q) && i in s'.files && s'.files == s.files[i := s'.files[i]]
    requires s'.usedBytes <= q.maxBytes && s'.fileCount <= q.maxFiles && |s'.files[i].data| <= q.maxFileSize
    ensures QuotaInv(s', q)
  {
  }

  lemma CountSet(t: map<Path, Entry>, files: map<Inode, FileNode<Bytes>>, handles: map<FileHandle, Handle>,
                 i: Inode, f: FileNode<Bytes>)
    requires CountInv(t, files, handles, {}) && i in files
    requires f.links == files[i].links && f.openHandles == files[i].openHandles
    ensures CountInv(t, files[i := f], handles, {})
  {
  }

  lemma CountClose(t: map<Path, Entry>, files: map<Inode, FileNode<Bytes>>, handles: map<FileHandle, Handle>, h: FileHandle)
    requires h in handles && CountInv(t, files, handles, {}) && handles[h].inode in files
    ensures var i := handles[h].inode;
      && files[i].openHandles > 0
      && CountInv(t, files[i := files[i].(openHandles := files[i].openHandles - 1)], handles - {h}, {i})
  {
    hide Links;
    var i := handles[h].inode;
    assert h in HandlesOn(handles, i);
    forall j ensures HandlesOn(handles - {h}, j) == if j == i then HandlesOn(handles, i) - {h} else HandlesOn(handles, j) {
    }
  }

  lemma HandlesAdd(handles: map<FileHandle, Handle>, h: FileHandle, e: Handle)
    requires h !in handles
    ensures |HandlesOn(handles[h := e], e.inode)| == |HandlesOn(handles, e.inode)| + 1
    ensures forall j :: j != e.inode ==> HandlesOn(handles[h := e], j) == HandlesOn(handles, j)
  {
    assert HandlesOn(handles[h := e], e.inode) == HandlesOn(handles, e.inode) + {h};
  }

  lemma CountOpen(t: map<Path, Entry>, files: map<Inode, FileNode<Bytes>>, handles: map<FileHandle, Handle>,
                  h: FileHandle, e: Handle)
    requires h !in handles && CountInv(t, files, handles, {}) && e.inode in files
    ensures var i := e.inode;
      CountInv(t, files[i := files[i].(openHandles := files[i].openHandles + 1)], handles[h := e], {})
  {
    hide Links;
    HandlesAdd(handles, h, e);
    hide HandlesOn;
  }

  lemma CountCreate(t: map<Path, Entry>, files: map<Inode, FileNode<Bytes>>, handles: map<FileHandle, Handle>,
                    p: Path, i: Inode)
    requires CountInv(t, files, handles, {}) && TreeInv(t, files) && p !in t && p != [] && i !in files
    requires forall h :: h in handles ==> handles[h].inode in files
    ensures CountInv(t[p := IsFile(i)], files[i := FileNode([], 1, 0)], handles, {})
  {
    UnusedInode(t, files, handles, i);
    LinksAdd(t, p, IsFile(i));
    hide TreeInv, Links, HandlesOn;
  }

  lemma UnusedInode(t: map<Path, Entry>, files: map<Inode, FileNode<Bytes>>, handles: map<FileHandle, Handle>, i: Inode)
    requires TreeInv(t, files) && i !in files
    requires forall h :: h in handles ==> handles[h].inode in files
    ensures Links(t, i) == {} && HandlesOn(handles, i) == {}
  {
  }

  lemma OnlyFile(t: map<Path, Entry>, p: Path, i: Inode)
    requires p in t && t[p] == IsFile(i)
    ensures forall j :: j != i ==> Links(t, j) - {p} == Links(t, j)
    ensures Dirs(t) - {p} == Dirs(t)
  {
  }

  lemma UnlinkCounts(t: map<Path, Entry>, t': map<Path, Entry>, p: Path, i: Inode)
    requires p in t && t[p] == IsFile(i) && |Links(t, i)| <= 1
    requires forall j :: |Links(t', j)| == |Links(t, j) - {p}|
    ensures |Links(t, i)| == 1 && |Links(t', i)| == 0
    ensures forall j :: j != i ==> |Links(t', j)| == |Links(t, j)|
  {
    FileLink(t, p, i);
    OnlyFile(t, p, i);
    assert Links(t, i) - {p} == {};
  }

  lemma CountUnlink(t: map<Path, Entry>, t': map<Path, Entry>, files: map<Inode, FileNode<Bytes>>,
                    handles: map<FileHandle, Handle>, p: Path, i: Inode)
    requires CountInv(t, files, handles, {}) && i in files && p in t && t[p] == IsFile(i)
    requires forall j :: |Links(t', j)| == |Links(t, j) - {p}|
    ensures files[i].links == 1
    ensures CountInv(t', files[i := files[i].(links := 0)], handles, {i})
  {
    hide HandlesOn;
    UnlinkCounts(t, t', p, i);
    hide Links;
  }

  lemma CountSame(t: map<Path, Entry>, t': map<Path, Entry>, files: map<Inode, FileNode<Bytes>>,
                  handles: map<FileHandle, Handle>)
    requires CountInv(t, files, handles, {})
    requires forall j :: |Links(t', j)| == |Links(t, j)|
    ensures CountInv(t', files, handles, {})
  {
  }

  lemma Unreferenced(t: map<Path, Entry>, s: S, i: Inode)
    requires CountInv(t, s.files, s.handles, {i}) && i in s.files
    requires s.files[i].links == 0 && s.files[i].openHandles == 0
    ensures forall p :: p in t ==> t[p] != IsFile(i)
    ensures forall h :: h in s.handles ==> s.handles[h].inode != i
    ensures CountInv(t, s.files - {i}, s.handles, {})
  {
    assert Links(t, i) == {} && HandlesOn(s.handles, i) == {};
    forall p | p in t ensures t[p] != IsFile(i) {
      assert p !in Links(t, i);
    }
    forall h | h in s.handles ensures s.handles[h].inode != i {
      assert h !in HandlesOn(s.handles, i);
    }
  }

  lemma UsageDrop(t: map<Path, Entry>, s: S, i: Inode)
    requires UsageInv(t, s) && i in s.files
    ensures s.usedBytes >= |s.files[i].data| && s.fileCount > 0
    ensures UsageInv(t, s.(files := s.files - {i}, usedBytes := s.usedBytes - |s.files[i].data|, fileCount := s.fileCount - 1))
  {
    hide Total, Lengths, Dirs;
    LengthsDrop(s.files, i);
    LengthsSet(s.files, i, s.files[i]);
    assert (s.files - {i}).Keys == s.files.Keys - {i};
  }

  lemma UsageCreate(t: map<Path, Entry>, s: S, s': S, p: Path, i: Inode)
    requires UsageInv(t, s) && i !in s.files && p !in t && p != []
    requires s'.files == s.files[i := FileNode([], 1, 0)] && s'.usedBytes == s.usedBytes && s'.fileCount == s.fileCount + 1
    ensures UsageInv(t[p := IsFile(i)], s')
  {
    hide Total, Lengths;
    LinksAdd(t, p, IsFile(i));
    LengthsSet(s.files, i, FileNode([], 1, 0));
    assert s'.files.Keys == s.files.Keys + {i};
  }

  // ---------------------------------------------------------- building blocks

  /** Replacing an inode's bytes. */
  lemma SetData(t: map<Path, Entry>, s: S, q: Quota, i: Inode, data: Bytes, used: nat)
    requires InvOn(t, s, q, {}) && i in s.files
    requires used == s.usedBytes - |s.files[i].data| + |data| <= q.maxBytes && |data| <= q.maxFileSize
    ensures InvOn(t, s.(files := s.files[i := s.files[i].(data := data)], usedBytes := used), q, {})
  {
    var s' := s.(files := s.files[i := s.files[i].(data := data)], usedBytes := used);
    assert s.fileCount <= q.maxFiles by { WithinQuota(s, q); }
    hide TreeInv, CountInv, TableInv, UsageInv, QuotaInv;
    UsageSet(t, s, s', i);
    TreeGrow(t, s.files, s'.files);
    TableFrame(s, s');
    QuotaSet(s, s', q, i);
    CountSet(t, s.files, s.handles, i, s'.files[i]);
  }

  lemma WithinQuota(s: S, q: Quota)
    requires QuotaInv(s, q)
    ensures s.usedBytes <= q.maxBytes && s.fileCount <= q.maxFiles
    ensures forall i :: i in s.files ==> |s.files[i].data| <= q.maxFileSize
  {
  }

  lemma ResizeKeeps(t: map<Path, Entry>, s: S, q: Quota, i: Inode, newLen: nat)
    requires InvOn(t, s, q, {}) && i in s.files
    ensures var (s', r) := ResizeFile(s, q, i, newLen);
      && InvOn(t, s', q, {})
      && (r == Done || (r == Failed(ENOSPC) && s' == s))
      && (newLen <= |s.files[i].data| ==> r == Done)
  {
    hide TreeInv, CountInv, TableInv, UsageInv, QuotaInv, Resized;
    WithinQuota(s, q);
    UsageDrop(t, s, i);
    if ResizeFile(s, q, i, newLen).1 == Done {
      SetData(t, s, q, i, Resized(s.files[i].data, newLen), s.usedBytes + newLen - |s.files[i].data|);
    }
  }

  lemma ReleaseKeeps(t: map<Path, Entry>, s: S, q: Quota, i: Inode)
    requires InvOn(t, s, q, {i})
    ensures var (s', r) := ReleaseIfUnreferenced(s, i); InvOn(t, s', q, {}) && r == Done && s'.root == s.root
  {
    hide TreeInv, CountInv, TableInv, UsageInv, QuotaInv;
    if i in s.files && s.files[i].links == 0 && s.files[i].openHandles == 0 {
      Unreferenced(t, s, i);
      UsageDrop(t, s, i);
      ReleaseRest(t, s, q, i);
    } else {
      StillReferenced(t, s, i);
    }
  }

  lemma StillReferenced(t: map<Path, Entry>, s: S, i: Inode)
    requires CountInv(t, s.files, s.handles, {i})
    requires i in s.files ==> s.files[i].links > 0 || s.files[i].openHandles > 0
    ensures CountInv(t, s.files, s.handles, {})
  {
  }

  lemma ReleaseRest(t: map<Path, Entry>, s: S, q: Quota, i: Inode)
    requires TreeInv(t, s.files) && TableInv(s) && QuotaInv(s, q)
    requires i in s.files && s.usedBytes >= |s.files[i].data| && s.fileCount > 0
    requires forall p :: p in t ==> t[p] != IsFile(i)
    requires forall h :: h in s.handles ==> s.handles[h].inode != i
    ensures var s' := s.(files := s.files - {i}, usedBytes := s.usedBytes - |s.files[i].data|, fileCount := s.fileCount - 1);
      TreeInv(t, s'.files) && TableInv(s') && QuotaInv(s', q)
  {
  }

  lemma FlatNode(n: Node, p: Path)
    ensures p in Flat(n) <==> GetNode(n, p).Ok?
    ensures p in Flat(n) ==> Flat(n)[p] == EntryOf(GetNode(n, p).value)
  {
    FlatAt(n, p);
  }

  /** The invariant sees the tree only through its meaning. */
  lemma AnyRoot(t: map<Path, Entry>, s: S, q: Quota, root: Node)
    requires InvOn(t, s, q, {})
    ensures InvOn(t, s.(root := root), q, {})
  {
    hide TreeInv, CountInv;
  }

  /** Dropping what a leaf counted for, once the tree has lost the path `p` to it. */
  lemma RemoveLeafKeeps(t: map<Path, Entry>, t': map<Path, Entry>, s: S, q: Quota, p: Path, n: Node)
    requires InvOn(t, s, q, {}) && p in t && p != [] && IsLeaf(n) && t[p] == EntryOf(n)
    requires TreeInv(t', s.files)
    requires forall i :: |Links(t', i)| == |Links(t, i) - {p}|
    requires |Dirs(t')| == |Dirs(t) - {p}|
    ensures var (s', r) := RemoveLeaf(s, n); InvOn(t', s', q, {}) && r == Done && s'.root == s.root
  {
    match n
    case Directory(_) =>
      RemoveDirKeeps(t, t', s, q, p);
    case File(i) =>
      RemoveFileKeeps(t, t', s, q, p, i);
  }

  lemma RemoveDirKeeps(t: map<Path, Entry>, t': map<Path, Entry>, s: S, q: Quota, p: Path)
    requires InvOn(t, s, q, {}) && p in t && p != [] && t[p] == IsDir
    requires TreeInv(t', s.files)
    requires forall i :: |Links(t', i)| == |Links(t, i) - {p}|
    requires |Dirs(t')| == |Dirs(t) - {p}|
    ensures s.fileCount > 0 && InvOn(t', s.(fileCount := s.fileCount - 1), q, {})
  {
    hide TreeInv, CountInv, TableInv, UsageInv, QuotaInv, Links, Dirs;
    RemoveDirUsage(t, t', s, p);
    OnlyDir(t, p);
    CountSame(t, t', s.files, s.handles);
    FewerEntries(s, q);
  }

  lemma FewerEntries(s: S, q: Quota)
    requires TableInv(s) && QuotaInv(s, q) && s.fileCount > 0
    ensures var s' := s.(fileCount := s.fileCount - 1); TableInv(s') && QuotaInv(s', q)
  {
  }

  lemma RemoveDirUsage(t: map<Path, Entry>, t': map<Path, Entry>, s: S, p: Path)
    requires UsageInv(t, s) && p in t && p != [] && t[p] == IsDir && |Dirs(t')| == |Dirs(t) - {p}|
    ensures s.fileCount > 0 && UsageInv(t', s.(fileCount := s.fileCount - 1))
  {
    hide Total, Lengths;
    OnlyDir(t, p);
  }

  lemma OnlyDir(t: map<Path, Entry>, p: Path)
    requires p in t && p != [] && t[p] == IsDir
    ensures forall j :: Links(t, j) - {p} == Links(t, j)
    ensures |Dirs(t) - {p}| == |Dirs(t)| - 1
  {
    assert p in Dirs(t);
  }

  lemma RemoveFileKeeps(t: map<Path, Entry>, t': map<Path, Entry>, s: S, q: Quota, p: Path, i: Inode)
    requires InvOn(t, s, q, {}) && p in t && p != [] && t[p] == IsFile(i)
    requires TreeInv(t', s.files)
    requires forall i :: |Links(t', i)| == |Links(t, i) - {p}|
    requires |Dirs(t')| == |Dirs(t) - {p}|
    ensures var (s', r) := RemoveLeaf(s, File(i)); InvOn(t', s', q, {}) && r == Done && s'.root == s.root
  {
    assert i in s.files && s.usedBytes <= q.maxBytes && s.fileCount <= q.maxFiles && |s.files[i].data| <= q.maxFileSize;
    assert UsageInv(t', s) by { OnlyFile(t, p, i); }
    hide TreeInv, CountInv, TableInv, UsageInv, QuotaInv;
    CountUnlink(t, t', s.files, s.handles, p, i);
    var s1 := s.(files := s.files[i := s.files[i].(links := 0)]);
    UsageSet(t', s, s1, i);
    TreeGrow(t', s.files, s1.files);
    TableFrame(s, s1);
    QuotaSet(s, s1, q, i);
    ReleaseKeeps(t', s1, q, i);
  }

  lemma MintKeeps(t: map<Path, Entry>, s: S, q: Quota, i: Inode, mode: OpenMode)
    requires InvOn(t, s, q, {}) && i in s.files
    ensures var (s', r) := MintHandle(s, i, mode);
      InvOn(t, s', q, {}) && r == Opened(s.nextHandle) && s'.root == s.root
  {
    assert s.nextHandle !in s.handles;
    assert s.usedBytes <= q.maxBytes && s.fileCount <= q.maxFiles && |s.files[i].data| <= q.maxFileSize;
    var s' := MintHandle(s, i, mode).0;
    MintTable(s, i, mode);
    hide TreeInv, CountInv, TableInv, UsageInv, QuotaInv;
    UsageSet(t, s, s', i);
    TreeGrow(t, s.files, s'.files);
    QuotaSet(s, s', q, i);
    CountOpen(t, s.files, s.handles, s.nextHandle, s'.handles[s.nextHandle]);
  }

  lemma MintTable(s: S, i: Inode, mode: OpenMode)
    requires TableInv(s) && i in s.files
    ensures TableInv(MintHandle(s, i, mode).0)
  {
  }

  lemma CreateKeeps(t: map<Path, Entry>, s: S, s': S, q: Quota, p: Path)
    requires InvOn(t, s, q, {}) && p !in t && p != [] && |p| <= MAX_PATH_DEPTH && s.fileCount < q.maxFiles
    requires s'.files == s.files[s.nextInode := FileNode([], 1, 0)] && s'.handles == s.handles
    requires s'.nextInode == s.nextInode + 1 && s'.nextHandle == s.nextHandle
    requires s'.fileCount == s.fileCount + 1 && s'.usedBytes == s.usedBytes
    ensures InvOn(t[p := IsFile(s.nextInode)], s', q, {})
  {
    CreateRest(t, s, s', q, p);
    assert s.nextInode !in s.files;
    assert forall h :: h in s.handles ==> s.handles[h].inode in s.files;
    hide TreeInv, CountInv, TableInv, UsageInv, QuotaInv;
    CountCreate(t, s.files, s.handles, p, s.nextInode);
    UsageCreate(t, s, s', p, s.nextInode);
  }

  lemma CreateRest(t: map<Path, Entry>, s: S, s': S, q: Quota, p: Path)
    requires TreeInv(t, s.files) && TableInv(s) && QuotaInv(s, q)
    requires p !in t && p != [] && |p| <= MAX_PATH_DEPTH && s.fileCount < q.maxFiles
    requires s'.files == s.files[s.nextInode := FileNode([], 1, 0)] && s'.handles == s.handles
    requires s'.nextInode == s.nextInode + 1 && s'.nextHandle == s.nextHandle
    requires s'.fileCount == s.fileCount + 1 && s'.usedBytes == s.usedBytes
    ensures TreeInv(t[p := IsFile(s.nextInode)], s'.files) && TableInv(s') && QuotaInv(s', q)
  {
  }

  lemma AddDirKeeps(t: map<Path, Entry>, s: S, s': S, q: Quota, p: Path)
    requires InvOn(t, s, q, {}) && p !in t && p != [] && |p| <= MAX_PATH_DEPTH && s.fileCount < q.maxFiles
    requires s' == s.(root := s'.root, fileCount := s.fileCount + 1)
    ensures InvOn(t[p := IsDir], s', q, {})
  {
    AddDirTree(t, s.files, p);
    LinksAdd(t, p, IsDir);
    assert TableInv(s') && QuotaInv(s', q);
    hide TreeInv, CountInv, TableInv, QuotaInv, Total, Lengths, Links, Dirs;
    CountSame(t, t[p := IsDir], s.files, s.handles);
    AddDirUsage(t, s, s', p);
  }

  lemma AddDirTree(t: map<Path, Entry>, files: map<Inode, FileNode<Bytes>>, p: Path)
    requires TreeInv(t, files) && p != [] && |p| <= MAX_PATH_DEPTH
    ensures TreeInv(t[p := IsDir], files)
  {
  }

  lemma AddDirUsage(t: map<Path, Entry>, s: S, s': S, p: Path)
    requires UsageInv(t, s) && p !in t && p != []
    requires s'.files == s.files && s'.usedBytes == s.usedBytes && s'.fileCount == s.fileCount + 1
    ensures UsageInv(t[p := IsDir], s')
  {
    hide Total, Lengths;
    LinksAdd(t, p, IsDir);
    assert p !in Dirs(t);
  }

  lemma UncountKeeps(t: map<Path, Entry>, s: S, q: Quota, h: FileHandle)
    requires InvOn(t, s, q, {}) && h in s.handles
    ensures var i := s.handles[h].inode;
      && i in s.files && s.files[i].openHandles > 0
      && InvOn(t, s.(handles := s.handles - {h},
                     files := s.files[i := s.files[i].(openHandles := s.files[i].openHandles - 1)]), q, {i})
  {
    var i := s.handles[h].inode;
    assert s.usedBytes <= q.maxBytes && s.fileCount <= q.maxFiles && |s.files[i].data| <= q.maxFileSize;
    hide TreeInv, CountInv, TableInv, UsageInv, QuotaInv;
    CountClose(t, s.files, s.handles, h);
    var s' := s.(handles := s.handles - {h},
                 files := s.files[i := s.files[i].(openHandles := s.files[i].openHandles - 1)]);
    UsageSet(t, s, s', i);
    TreeGrow(t, s.files, s'.files);
    TableFrame(s, s');
    QuotaSet(s, s', q, i);
  }

  /** What a handle or a path refers to is in the table, with its bytes accounted for. */
  lemma InvFacts(t: map<Path, Entry>, s: S, q: Quota)
    requires InvOn(t, s, q, {})
    ensures forall h :: h in s.handles ==> h < s.nextHandle && s.handles[h].inode in s.files
    ensures forall p :: p in t && t[p].IsFile? ==> t[p].inode in s.files
    ensures forall p :: p in t ==> |p| <= MAX_PATH_DEPTH
    ensures s.usedBytes <= q.maxBytes && s.fileCount <= q.maxFiles
    ensures forall i :: i in s.files ==> |s.files[i].data| <= q.maxFileSize
  {
  }

  // --------------------------------------------------------------- operations

  lemma MkdirKeeps(s: S, q: Quota, path: string)
    requires Inv(s, q)
    ensures var (s', r) := Mkdir(s, q, path);
      Inv(s', q) && r != Fault && (r.Failed? ==> s' == s)
  {
    hide Flat, InvOn;
    NormalizeIsNormal(path);
    if Mkdir(s, q, path).1 == Done {
      var p := Normalize(path).value;
      FlatNode(s.root, p);
      FlatPutLeaf(s.root, p, Directory(map[]));
      AddDirKeeps(Flat(s.root), s, Mkdir(s, q, path).0, q, p);
    }
  }

  lemma CutTree(t: map<Path, Entry>, files: map<Inode, FileNode<Bytes>>, p: Path)
    requires TreeInv(t, files) && p != []
    ensures TreeInv(t - {p}, files)
  {
  }

  lemma RemoveKeeps(s: S, q: Quota, path: string, wantDir: bool)
    requires Inv(s, q)
    ensures var (s', r) := Remove(s, path, wantDir);
      Inv(s', q) && r != Fault && (r.Failed? ==> s' == s)
  {
    hide Flat, TreeInv, CountInv, TableInv, UsageInv, QuotaInv;
    if Normalize(path).Ok? {
      var p := Normalize(path).value;
      if p != [] && ParentDir(s.root, p).Ok? && GetNode(s.root, p).Ok? && IsLeaf(GetNode(s.root, p).value) {
        var t := Flat(s.root);
        FlatNode(s.root, p);
        FlatCutLeaf(s.root, p);
        LinksDrop(t, p);
        AnyRoot(t, s, q, CutAt(s.root, p));
        CutTree(t, s.files, p);
        RemoveLeafKeeps(t, t - {p}, s.(root := CutAt(s.root, p)), q, p, GetNode(s.root, p).value);
      }
    }
  }

  lemma OpenKeeps(s: S, q: Quota, path: string, mode: OpenMode)
    requires Inv(s, q)
    ensures var (s', r) := Open(s, q, path, mode);
      Inv(s', q) && r != Fault && (r.Failed? ==> s' == s)
  {
    hide Flat, TreeInv, CountInv, TableInv, UsageInv, QuotaInv;
    InvFacts(Flat(s.root), s, q);
    if mode.Valid() && Normalize(path).Ok? {
      var p := Normalize(path).value;
      var t := Flat(s.root);
      NormalizeIsNormal(path);
      FlatNode(s.root, p);
      match GetNode(s.root, p)
      case Ok(Directory(_)) =>
      case Ok(File(i)) =>
        assert t[p] == IsFile(i) && i in s.files;
        if mode.truncate {
          ResizeKeeps(t, s, q, i, 0);
          MintKeeps(t, ResizeFile(s, q, i, 0).0, q, i, mode);
        } else {
          MintKeeps(t, s, q, i, mode);
        }
      case Err(_) =>
        if ParentDir(s.root, p).Ok? && s.fileCount < q.maxFiles {
          FlatPutLeaf(s.root, p, File(s.nextInode));
          var s1 := CreateFile(s, p);
          CreateKeeps(t, s, s1, q, p);
          MintKeeps(Flat(s1.root), s1, q, s.nextInode, mode);
        }
    }
  }

  lemma WriteKeeps(s: S, q: Quota, h: FileHandle, offset: u64, data: Bytes)
    requires Inv(s, q)
    ensures var (s', r) := WriteAt(s, q, h, offset, data);
      Inv(s', q) && r != Fault && (r.Failed? ==> s' == s)
  {
    hide Flat, TreeInv, CountInv, TableInv, UsageInv, QuotaInv;
    hide Spliced, Resized, InvOn;
    InvFacts(Flat(s.root), s, q);
    if h in s.handles && data != [] {
      var t := Flat(s.root);
      var i := s.handles[h].inode;
      var oldLen := |s.files[i].data|;
      var start := if s.handles[h].append then oldLen else offset;
      var end := start + |data|;
      var len := if oldLen > end then oldLen else end;
      ResizeKeeps(t, s, q, i, len);
      var (s1, r) := ResizeFile(s, q, i, len);
      if r == Done {
        SetData(t, s1, q, i, Spliced(s1.files[i].data, start, data), s1.usedBytes);
      }
    }
  }

  lemma TruncateKeeps(s: S, q: Quota, h: FileHandle, len: u64)
    requires Inv(s, q)
    ensures var (s', r) := Truncate(s, q, h, len);
      Inv(s', q) && r != Fault && (r.Failed? ==> s' == s)
  {
    hide Flat, TreeInv, CountInv, TableInv, UsageInv, QuotaInv;
    InvFacts(Flat(s.root), s, q);
    if h in s.handles {
      ResizeKeeps(Flat(s.root), s, q, s.handles[h].inode, len);
    }
  }

  lemma CloseKeeps(s: S, q: Quota, h: FileHandle)
    requires Inv(s, q)
    ensures var (s', r) := Close(s, h);
      Inv(s', q) && r != Fault && (r.Failed? ==> s' == s)
  {
    hide Flat, TreeInv, CountInv, TableInv, UsageInv, QuotaInv;
    InvFacts(Flat(s.root), s, q);
    if h in s.handles {
      var t := Flat(s.root);
      var i := s.handles[h].inode;
      UncountKeeps(t, s, q, h);
      ReleaseKeeps(t, s.(handles := s.handles - {h},
                         files := s.files[i := s.files[i].(openHandles := s.files[i].openHandles - 1)]), q, i);
    }
  }

  // ------------------------------------------------------------------- rename

  /** Removing the source cannot take the destination's parent with it. */
  lemma ParentSurvives(root: Node, from: Path, to: Path)
    requires from != [] && to != [] && GetNode(root, from).Ok?
    requires GetNode(root, from).value.Directory? ==> !(from <= to)
    requires ParentDir(root, to).Ok? && from != to
    ensures !(from <= to) && ParentDir(root, from).Ok? && ParentDir(CutAt(root, from), to).Ok?
  {
    AncestorIsDir(root, Parent(from), from);
    if from <= to {
      assert from <= Parent(to);
      if from != Parent(to) {
        AncestorIsDir(root, from, Parent(to));
      }
    }
    AtCut(root, from, Parent(to));
    assert from <= Parent(to) ==> from <= to;
  }

  /** Nothing ends up deeper than the limit: a shallower target only lifts the subtree, and a
      deeper one was checked against the subtree's height. */
  lemma RenameDepth(root: Node, t: map<Path, Entry>, from: Path, to: Path, p: Path)
    requires forall p :: p in t <==> At(root, p) != NoEntry
    requires forall p :: p in t ==> |p| <= MAX_PATH_DEPTH
    requires GetNode(root, from).Ok? && |to| <= MAX_PATH_DEPTH
    requires DepthAllowed(GetNode(root, from).value, from, to)
    requires p in t
    ensures |Moved(from, to, p)| <= MAX_PATH_DEPTH
  {
    if from <= p && |to| > |from| {
      var source := GetNode(root, from).value;
      var rest := p[|from|..];
      PrefixSplit(from, p);
      GetNodeAppend(root, from, rest);
      AllPathsExact(source, rest);
      if source.Directory? {
        FitsIsDepth(source, MAX_PATH_DEPTH - |to|);
      } else {
        LeafPaths(source, rest);
      }
    }
  }

  lemma RenameTree(t: map<Path, Entry>, t': map<Path, Entry>, files: map<Inode, FileNode<Bytes>>, from: Path, to: Path)
    requires TreeInv(t, files) && IsRenamed(t, t', from, to) && from != [] && to != []
    requires forall p :: p in t ==> |Moved(from, to, p)| <= MAX_PATH_DEPTH
    ensures TreeInv(t', files)
  {
    assert Moved(from, to, []) == [];
    forall r | r in t' ensures |r| <= MAX_PATH_DEPTH && (t'[r].IsFile? ==> t'[r].inode in files) {
      var p :| p in t && p != to && r == Moved(from, to, p);
    }
  }

  lemma RenameFree(t: map<Path, Entry>, t': map<Path, Entry>, s: S, q: Quota, from: Path, to: Path)
    requires InvOn(t, s, q, {}) && IsRenamed(t, t', from, to) && from != [] && to != [] && to !in t
    requires TreeInv(t', s.files)
    ensures InvOn(t', s, q, {})
  {
    hide IsRenamed, TreeInv, CountInv, TableInv, QuotaInv, Total, Lengths, Links, Dirs;
    forall i ensures |Links(t', i)| == |Links(t, i)| {
      RenameLinks(t, t', from, to, i);
      NothingThere(t, to, i);
    }
    CountSame(t, t', s.files, s.handles);
    RenameDirs(t, t', from, to);
    NothingThere(t, to, 0);
  }

  lemma NothingThere(t: map<Path, Entry>, to: Path, i: Inode)
    requires to !in t
    ensures Links(t, i) - {to} == Links(t, i) && Dirs(t) - {to} == Dirs(t)
  {
  }

  lemma RenameOver(t: map<Path, Entry>, t': map<Path, Entry>, s: S, q: Quota, from: Path, to: Path, target: Node)
    requires InvOn(t, s, q, {}) && IsRenamed(t, t', from, to) && from != [] && to != []
    requires TreeInv(t', s.files) && to in t && t[to] == EntryOf(target) && IsLeaf(target)
    ensures var (s', r) := RemoveLeaf(s, target); InvOn(t', s', q, {}) && r == Done && s'.root == s.root
  {
    hide IsRenamed, InvOn, TreeInv, Links, Dirs;
    forall i ensures |Links(t', i)| == |Links(t, i) - {to}| {
      RenameLinks(t, t', from, to, i);
    }
    RenameDirs(t, t', from, to);
    RemoveLeafKeeps(t, t', s, q, to, target);
  }

  /** What the checks of `rename` establish before the tree is touched. */
  lemma RenameChecked(root: Node, from: Path, to: Path)
    requires from != [] && to != [] && from != to && RenameCheck(root, from, to).Ok?
    ensures GetNode(root, from).Ok? && RenameCheck(root, from, to) == GetNode(root, from)
    ensures !(from <= to) && ParentDir(root, from).Ok? && ParentDir(CutAt(root, from), to).Ok?
    ensures GetNode(root, to).Ok? ==> IsLeaf(GetNode(root, to).value)
    ensures DepthAllowed(GetNode(root, from).value, from, to)
  {
    ParentSurvives(root, from, to);
  }

  /** A rename that succeeds moves exactly the source subtree and drops only the replaced leaf. */
  lemma RenameMeaning(root: Node, from: Path, to: Path)
    requires from != [] && to != [] && from != to && RenameCheck(root, from, to).Ok?
    ensures ParentDir(root, from).Ok? && ParentDir(CutAt(root, from), to).Ok?
    ensures IsRenamed(Flat(root), Flat(PutAt(CutAt(root, from), to, RenameCheck(root, from, to).value)), from, to)
  {
    hide Flat, IsRenamed;
    RenameChecked(root, from, to);
    RenameMoves(root, from, to);
  }

  lemma RenameKeeps(s: S, q: Quota, from: Path, to: Path)
    requires Inv(s, q) && from != [] && to != [] && |to| <= MAX_PATH_DEPTH
    ensures var (s', r) := RenamePaths(s, from, to);
      Inv(s', q) && r != Fault && (r.Failed? ==> s' == s)
  {
    hide Flat, TreeInv, CountInv, TableInv, UsageInv, QuotaInv, IsRenamed;
    if RenameCheck(s.root, from, to).Ok? && from != to {
      var t := Flat(s.root);
      InvFacts(t, s, q);
      RenameChecked(s.root, from, to);
      RenameMeaning(s.root, from, to);
      var moved := s.(root := PutAt(CutAt(s.root, from), to, GetNode(s.root, from).value));
      var t' := Flat(moved.root);
      forall p ensures p in t <==> At(s.root, p) != NoEntry {
        FlatAt(s.root, p);
      }
      forall p | p in t ensures |Moved(from, to, p)| <= MAX_PATH_DEPTH {
        RenameDepth(s.root, t, from, to, p);
      }
      RenameTree(t, t', s.files, from, to);
      AnyRoot(t, s, q, moved.root);
      FlatNode(s.root, to);
      if to in t {
        RenameOver(t, t', moved, q, from, to, GetNode(s.root, to).value);
      } else {
        RenameFree(t, t', moved, q, from, to);
      }
    }
  }
}
