/** What the operations of src/vfs/mem.rs do, said of the paths and bytes a reader finds. */
module MemMeaning {
  import opened Base
  import opened Paths
  import opened MemTree
  import opened MemSpec
  import opened MemProofs
  import opened MemRuns

  type Files = map<Inode, FileNode<Bytes>>
  type Tree = map<Path, Entry>

  /** No inode has other bytes than before; some may be gone. */
  ghost predicate SameData(files: Files, files': Files) {
    forall i :: i in files' ==> i in files && files'[i].data == files[i].data
  }

  ghost predicate Rooted(t: Tree, files: Files) { forall p :: p in t && t[p].IsFile? ==> t[p].inode in files }

  lemma RootedBy(s: S, q: Quota)
    requires Inv(s, q)
    ensures Rooted(Flat(s.root), s.files)
    ensures forall h :: h in s.handles ==> s.handles[h].inode in s.files
    ensures s.nextInode !in s.files && s.nextHandle !in s.handles
  {
  }

  lemma ViewSame(t: Tree, files: Files, files': Files)
    requires SameData(files, files') && Rooted(t, files')
    ensures ViewOn(t, files') == ViewOn(t, files)
  {
  }

  lemma ViewAdd(t: Tree, files: Files, p: Path, e: Entry)
    requires Rooted(t, files) && e != NoEntry && (e.IsFile? ==> e.inode in files)
    ensures ViewOn(t[p := e], files) == ViewOn(t, files)[p := if e.IsFile? then Text(files[e.inode].data) else Folder]
  {
  }

  lemma ViewCut(t: Tree, files: Files, p: Path)
    requires Rooted(t, files)
    ensures ViewOn(t - {p}, files) == ViewOn(t, files) - {p}
  {
  }

  /** What a path shows is what the tree has there. */
  lemma ViewAt(s: S, q: Quota, p: Path)
    requires Inv(s, q)
    ensures p in View(s) <==> GetNode(s.root, p).Ok?
    ensures p in View(s) ==> (View(s)[p] == Folder <==> GetNode(s.root, p).value.Directory?)
    ensures p in View(s) && GetNode(s.root, p).value.File? ==>
      var i := GetNode(s.root, p).value.inode; i in s.files && View(s)[p] == Text(s.files[i].data)
  {
    hide Inv, Flat;
    RootedBy(s, q);
    FlatNode(s.root, p);
  }

  function MetaOfContent(c: Content): Metadata { if c.Folder? then DirMeta else FileMeta(|c.bytes|) }

  /** `stat` tells what a path shows, and fails exactly if it shows nothing. */
  lemma StatShows(s: S, q: Quota, path: string)
    requires Inv(s, q) && Normalize(path).Ok?
    ensures var p := Normalize(path).value;
      if p in View(s) then StatPath(s, path) == Stat(MetaOfContent(View(s)[p])) else StatPath(s, path).Failed?
  {
    hide Inv, Flat, ViewOn;
    ViewAt(s, q, Normalize(path).value);
  }

  /** `readdir` lists exactly the paths one step below, each with what `stat` tells of it. */
  lemma ReadDirLists(s: S, q: Quota, path: string)
    requires Inv(s, q) && Normalize(path).Ok? && Normalize(path).value in View(s)
    ensures var p := Normalize(path).value; var r := ReadDir(s, path);
      if View(s)[p] != Folder then r == Failed(ENOTDIR)
      else r.Listing? && forall name :: (name in r.entries <==> p + [name] in View(s))
                                        && (name in r.entries ==> r.entries[name] == MetaOfContent(View(s)[p + [name]]))
  {
    hide Inv, Flat, ViewOn;
    var p := Normalize(path).value;
    ViewAt(s, q, p);
    if View(s)[p] == Folder {
      var m := GetNode(s.root, p).value.entries;
      forall name
        ensures name in m <==> p + [name] in View(s)
        ensures name in m ==> MetaOf(s, m[name]) == Stat(MetaOfContent(View(s)[p + [name]]))
      {
        GetNodeAppend(s.root, p, [name]);
        assert [name][1..] == [];
        ViewAt(s, q, p + [name]);
      }
    }
  }

  /** Every open handle reads what it read before. */
  ghost predicate ReadsSame(s: S, s': S) {
    forall h, offset: u64, want: nat :: h in s'.handles ==> ReadAt(s', h, offset, want) == ReadAt(s, h, offset, want)
  }

  lemma SameReads(s: S, s': S)
    requires SameData(s.files, s'.files)
    requires forall h :: h in s'.handles ==> h in s.handles && s'.handles[h] == s.handles[h] && s.handles[h].inode in s'.files
    ensures ReadsSame(s, s')
  {
  }

  // ------------------------------------------------------------------- the tree

  /** A directory appears, nothing else changes; and it does exactly if the name is free, in a
      directory, and the quota has room. */
  lemma MkdirMakes(s: S, q: Quota, path: string)
    requires Inv(s, q)
    ensures var (s', r) := Mkdir(s, q, path);
      && (r == Done <==>
            (Normalize(path).Ok? && Normalize(path).value != [] && Normalize(path).value !in View(s)
             && Parent(Normalize(path).value) in View(s) && View(s)[Parent(Normalize(path).value)] == Folder
             && s.fileCount < q.maxFiles))
      && (r == Done ==> View(s') == View(s)[Normalize(path).value := Folder] && ReadsSame(s, s'))
  {
    hide Inv, Flat, ViewOn;
    if Normalize(path).Ok? && Normalize(path).value != [] {
      var p := Normalize(path).value;
      ViewAt(s, q, p);
      ViewAt(s, q, Parent(p));
      if ParentDir(s.root, p).Ok? { FreeName(s.root, p); }
      if Mkdir(s, q, path).1 == Done {
        RootedBy(s, q);
        FlatPutLeaf(s.root, p, Directory(map[]));
        ViewAdd(Flat(s.root), s.files, p, IsDir);
        SameReads(s, Mkdir(s, q, path).0);
      }
    }
  }

  /** Under a directory, a name that finds nothing is a name that is not there. */
  lemma FreeName(root: Node, p: Path)
    requires p != [] && GetNode(root, Parent(p)).Ok? && GetNode(root, Parent(p)).value.Directory?
    ensures GetNode(root, p).Err? ==> GetNode(root, p) == Err(ENOENT)
  {
    GetNodeAppend(root, Parent(p), [p[|p| - 1]]);
    assert Parent(p) + [p[|p| - 1]] == p;
  }

  /** What removing a leaf leaves in the table. */
  lemma RemoveLeafData(s: S, n: Node)
    requires IsLeaf(n)
    ensures var (s', r) := RemoveLeaf(s, n);
      s'.root == s.root && s'.handles == s.handles && s'.nextHandle == s.nextHandle && SameData(s.files, s'.files)
  {
  }

  /** One path disappears, a file for `unlink` and an empty directory for `rmdir`; a handle on it
      still reads it. */
  lemma RemoveDrops(s: S, q: Quota, path: string, wantDir: bool)
    requires Inv(s, q)
    ensures var (s', r) := Remove(s, path, wantDir);
      && (r == Done <==>
            (Normalize(path).Ok? && Normalize(path).value != [] && GetNode(s.root, Normalize(path).value).Ok?
             && GetNode(s.root, Normalize(path).value).value.Directory? == wantDir
             && IsLeaf(GetNode(s.root, Normalize(path).value).value)))
      && (r == Done ==> Normalize(path).value in View(s) && View(s') == View(s) - {Normalize(path).value} && ReadsSame(s, s'))
  {
    hide Flat, ViewOn, InvOn, Parent;
    RemoveKeeps(s, q, path, wantDir);
    if Normalize(path).Ok? && Normalize(path).value != [] {
      var p := Normalize(path).value;
      var node := GetNode(s.root, p);
      ViewAt(s, q, p);
      if node.Ok? {
        ParentExists(s.root, p);
        if node.value.Directory? == wantDir && IsLeaf(node.value) {
          var cut := s.(root := CutAt(s.root, p));
          RemoveLeafData(cut, node.value);
          var s' := RemoveLeaf(cut, node.value).0;
          FlatCutLeaf(s.root, p);
          RootedBy(s, q);
          RootedBy(s', q);
          ViewSame(Flat(s'.root), s.files, s'.files);
          ViewCut(Flat(s.root), s.files, p);
          SameReads(s, s');
        }
      }
    }
  }

  lemma ParentExists(root: Node, p: Path)
    requires p != [] && GetNode(root, p).Ok?
    ensures ParentDir(root, p).Ok? && At(root, Parent(p)) == IsDir
  {
    AncestorIsDir(root, Parent(p), p);
  }

  /** When a rename of two paths other than the root succeeds. */
  ghost predicate CanRename(v: map<Path, Content>, from: Path, to: Path)
    requires to != []
  {
    && from in v
    && (from == to ||
        (&& (v[from] == Folder ==> !(from <= to))
         && Parent(to) in v && v[Parent(to)] == Folder
         && (to in v ==> (v[from] == Folder <==> v[to] == Folder))
         && (to in v && v[to] == Folder ==> forall p :: p in v ==> !(to < p))
         && (forall p :: p in v && from <= p ==> |to| + |p| - |from| <= MAX_PATH_DEPTH)))
  }

  /** A directory is empty exactly if the view has nothing below it. */
  lemma EmptyBelow(s: S, q: Quota, d: Path)
    requires Inv(s, q) && GetNode(s.root, d).Ok? && GetNode(s.root, d).value.Directory?
    ensures IsLeaf(GetNode(s.root, d).value) <==> forall p :: p in View(s) ==> !(d < p)
  {
    hide Inv, Flat, ViewOn;
    var node := GetNode(s.root, d).value;
    if k :| k in node.entries {
      GetNodeAppend(s.root, d, [k]);
      assert [k][1..] == [];
      ViewAt(s, q, d + [k]);
      assert d < d + [k];
    } else {
      forall p | p in View(s) ensures !(d < p) {
        if d < p {
          PrefixSplit(d, p);
          GetNodeAppend(s.root, d, p[|d|..]);
          ViewAt(s, q, p);
        }
      }
    }
  }

  /** The depth test looks at exactly what the view has below the source. */
  lemma DepthBelow(s: S, q: Quota, from: Path, to: Path)
    requires Inv(s, q) && GetNode(s.root, from).Ok? && |to| <= MAX_PATH_DEPTH
    ensures DepthAllowed(GetNode(s.root, from).value, from, to)
      <==> forall p :: p in View(s) && from <= p ==> |to| + |p| - |from| <= MAX_PATH_DEPTH
  {
    hide Inv, Flat, ViewOn, Fits, AllPaths;
    var source := GetNode(s.root, from).value;
    ShortPaths(s, q);
    forall p | from <= p ensures p in View(s) <==> p[|from|..] in AllPaths(source) {
      PrefixSplit(from, p);
      GetNodeAppend(s.root, from, p[|from|..]);
      AllPathsExact(source, p[|from|..]);
      ViewAt(s, q, p);
    }
    if source.Directory? && |to| > |from| {
      FitsIsDepth(source, MAX_PATH_DEPTH - |to|);
      if DepthAllowed(source, from, to) {
        forall p | p in View(s) && from <= p ensures |to| + |p| - |from| <= MAX_PATH_DEPTH {
          assert p[|from|..] in AllPaths(source);
        }
      } else {
        var rest :| rest in AllPaths(source) && |rest| > MAX_PATH_DEPTH - |to|;
        assert from <= from + rest && (from + rest)[|from|..] == rest;
      }
    } else if source.File? {
      forall p | p in View(s) && from <= p ensures p == from {
        LeafPaths(source, p[|from|..]);
        AllPathsExact(source, p[|from|..]);
        PrefixSplit(from, p);
      }
    }
  }

  lemma ShortPaths(s: S, q: Quota)
    requires Inv(s, q)
    ensures forall p :: p in View(s) ==> |p| <= MAX_PATH_DEPTH
  {
  }

  lemma RenameAllowed(s: S, q: Quota, from: Path, to: Path)
    requires Inv(s, q) && from != [] && to != [] && |to| <= MAX_PATH_DEPTH
    ensures RenameCheck(s.root, from, to).Ok? <==> CanRename(View(s), from, to)
  {
    hide Inv, View, Fits, DepthAllowed, IsLeaf;
    ViewAt(s, q, from);
    ViewAt(s, q, to);
    ViewAt(s, q, Parent(to));
    var source, target := GetNode(s.root, from), GetNode(s.root, to);
    if source.Ok? { DepthBelow(s, q, from, to); }
    if target.Ok? && target.value.Directory? { EmptyBelow(s, q, to); }
    if ParentDir(s.root, to).Ok? { FreeName(s.root, to); }
  }

  /** A rename succeeds exactly on the condition above; then the subtree moves, the replaced leaf
      goes, and every other path shows what it showed. */
  lemma RenameMovesView(s: S, q: Quota, from: Path, to: Path)
    requires Inv(s, q) && from != [] && to != [] && |to| <= MAX_PATH_DEPTH
    ensures var (s', r) := RenamePaths(s, from, to);
      && (r == Done <==> CanRename(View(s), from, to)) && (r != Done ==> r.Failed? && s' == s)
      && (r == Done && from == to ==> s' == s)
      && (r == Done ==> ReadsSame(s, s'))
      && (r == Done && from != to ==> ViewMoved(View(s), View(s'), from, to))
  {
    hide Flat, InvOn, ViewOn, RenameCheck, CanRename, ViewMoved, RemoveLeaf;
    RenameKeeps(s, q, from, to);
    RenameAllowed(s, q, from, to);
    if RenameCheck(s.root, from, to).Ok? {
      if from == to {
        RootedBy(s, q);
        SameReads(s, s);
      } else {
        RenameMoved(s, q, from, to);
      }
    }
  }

  ghost predicate ViewMoved(v: map<Path, Content>, v': map<Path, Content>, from: Path, to: Path) {
    && (forall p :: p in v && p != to ==> Moved(from, to, p) in v' && v'[Moved(from, to, p)] == v[p])
    && (forall m :: m in v' ==> exists p :: p in v && p != to && m == Moved(from, to, p))
  }

  lemma RenameMoved(s: S, q: Quota, from: Path, to: Path)
    requires Inv(s, q) && from != [] && to != [] && from != to && |to| <= MAX_PATH_DEPTH
    requires RenameCheck(s.root, from, to).Ok?
    ensures var (s', r) := RenamePaths(s, from, to);
      r == Done && ReadsSame(s, s') && ViewMoved(View(s), View(s'), from, to)
  {
    hide Flat, InvOn, IsRenamed, ViewOn, ViewMoved;
    RenameKeeps(s, q, from, to);
    RenameChecked(s.root, from, to);
    RenameMeaning(s.root, from, to);
    var moved := s.(root := PutAt(CutAt(s.root, from), to, GetNode(s.root, from).value));
    var target := GetNode(s.root, to);
    if target.Ok? { RemoveLeafData(moved, target.value); }
    var s' := RenamePaths(s, from, to).0;
    RootedBy(s, q);
    RootedBy(s', q);
    ViewSame(Flat(s'.root), s.files, s'.files);
    ViewRenamed(Flat(s.root), Flat(s'.root), s.files, from, to);
    SameReads(s, s');
  }

  lemma ViewRenamed(t: Tree, t': Tree, files: Files, from: Path, to: Path)
    requires IsRenamed(t, t', from, to) && Rooted(t, files)
    ensures ViewMoved(ViewOn(t, files), ViewOn(t', files), from, to)
  {
  }

  // ---------------------------------------------------------------------- bytes

  /** A resize is admitted exactly if the file and the total stay within their limits. */
  lemma ResizeAdmits(s: S, q: Quota, i: Inode, newLen: nat)
    requires Inv(s, q) && i in s.files
    ensures |s.files[i].data| <= s.usedBytes
    ensures var (s', r) := ResizeFile(s, q, i, newLen);
      && (r == Done <==> newLen <= q.maxFileSize && s.usedBytes - |s.files[i].data| + newLen <= q.maxBytes)
      && (r != Done ==> r == Failed(ENOSPC))
  {
    hide Flat;
    TotalRemove(Lengths(s.files), i);
  }

  /** `data` is what `was` becomes when `patch` is laid over it at `start`: zeros fill a gap. */
  ghost predicate LaidOver(was: Bytes, start: nat, patch: Bytes, data: Bytes) {
    && |data| == (if start + |patch| < |was| then |was| else start + |patch|)
    && forall k :: 0 <= k < |data| ==>
      data[k] == if start <= k < start + |patch| then patch[k - start] else if k < |was| then was[k] else 0
  }

  /** Where a write through `h` starts. */
  function Start(s: S, h: FileHandle, offset: nat): nat
    requires h in s.handles && s.handles[h].inode in s.files
  {
    if s.handles[h].append then |s.files[s.handles[h].inode].data| else offset
  }

  /** Only the bytes of one inode change, wherever it is linked. */
  ghost predicate OnlyInode(s: S, s': S, i: Inode) {
    && s'.root == s.root && s'.handles == s.handles && s'.files.Keys == s.files.Keys && i in s'.files
    && forall j :: j in s.files && j != i ==> s'.files[j] == s.files[j]
  }

  /** A write lays its bytes over the file, all or none of them, and touches no other file; it is
      refused for lack of space exactly if the limits would be passed. */
  lemma WriteStores(s: S, q: Quota, h: FileHandle, offset: u64, data: Bytes)
    requires Inv(s, q) && h in s.handles && s.handles[h].writable && data != []
    ensures s.handles[h].inode in s.files
    ensures var i := s.handles[h].inode; var start := Start(s, h, offset);
      var was := s.files[i].data; var end := if start + |data| < |was| then |was| else start + |data|;
      var (s', r) := WriteAt(s, q, h, offset, data);
      && (r == Wrote(|data|) <==>
            (start + |data| <= U64_MAX && end <= q.maxFileSize && s.usedBytes - |was| + end <= q.maxBytes))
      && (r != Wrote(|data|) ==> r == Failed(EINVAL) || r == Failed(ENOSPC))
      && (r == Wrote(|data|) ==> OnlyInode(s, s', i) && LaidOver(was, start, data, s'.files[i].data))
  {
    hide Inv;
    RootedBy(s, q);
    var i, start := s.handles[h].inode, Start(s, h, offset);
    var was := s.files[i].data;
    ResizeAdmits(s, q, i, if |was| > start + |data| then |was| else start + |data|);
  }

  /** What was written is what is read back, through any handle that may read the file. */
  lemma WriteReadsBack(s: S, q: Quota, h: FileHandle, offset: u64, data: Bytes, g: FileHandle)
    requires Inv(s, q) && h in s.handles && s.handles[h].writable && data != []
    requires g in s.handles && s.handles[g].readable && s.handles[g].inode == s.handles[h].inode
    ensures s.handles[h].inode in s.files
    ensures var (s', r) := WriteAt(s, q, h, offset, data);
      r == Wrote(|data|) ==> Start(s, h, offset) <= U64_MAX && ReadAt(s', g, Start(s, h, offset), |data|) == ReadBytes(data)
  {
    hide Inv, WriteAt, Start;
    WriteStores(s, q, h, offset, data);
    var (s', r) := WriteAt(s, q, h, offset, data);
    if r == Wrote(|data|) {
      var start, now := Start(s, h, offset), s'.files[s.handles[h].inode].data;
      assert now[start..start + |data|] == data;
    }
  }

  /** A read gives the bytes from the offset on: as many as were wanted, or up to the end of the
      file; and EBADF exactly for a handle that is unknown or not readable. */
  lemma ReadGives(s: S, q: Quota, h: FileHandle, offset: u64, want: nat)
    requires Inv(s, q)
    ensures ReadAt(s, h, offset, want) == Failed(EBADF) <==> h !in s.handles || !s.handles[h].readable
    ensures h in s.handles && s.handles[h].readable ==>
      && s.handles[h].inode in s.files && ReadAt(s, h, offset, want).ReadBytes?
      && IsReadOf(s.files[s.handles[h].inode].data, offset, want, ReadAt(s, h, offset, want).bytes)
  {
    hide Inv;
    RootedBy(s, q);
  }

  ghost predicate IsReadOf(d: Bytes, offset: nat, want: nat, r: Bytes) {
    && |r| <= want && (offset >= |d| ==> r == [])
    && (offset < |d| ==> offset + |r| <= |d| && (|r| == want || offset + |r| == |d|))
    && (forall k :: 0 <= k < |r| ==> r[k] == d[offset + k])
  }

  /** Those are the bytes the view shows at the path of the file. */
  lemma ReadShows(s: S, q: Quota, h: FileHandle, offset: u64, want: nat, p: Path)
    requires Inv(s, q) && h in s.handles && s.handles[h].readable && At(s.root, p) == IsFile(s.handles[h].inode)
    ensures p in View(s) && View(s)[p].Text? && ReadAt(s, h, offset, want).ReadBytes?
    ensures IsReadOf(View(s)[p].bytes, offset, want, ReadAt(s, h, offset, want).bytes)
  {
    hide Inv, View, IsReadOf;
    ViewAt(s, q, p);
    ReadGives(s, q, h, offset, want);
  }

  /** A truncate keeps the bytes before the new length and adds zeros up to it. */
  lemma TruncateCuts(s: S, q: Quota, h: FileHandle, len: u64)
    requires Inv(s, q) && h in s.handles && s.handles[h].writable
    ensures s.handles[h].inode in s.files
    ensures var i := s.handles[h].inode; var was := s.files[i].data; var (s', r) := Truncate(s, q, h, len);
      && (r == Done <==> len <= q.maxFileSize && s.usedBytes - |was| + len <= q.maxBytes)
      && (r != Done ==> r == Failed(ENOSPC))
      && (r == Done ==> OnlyInode(s, s', i) && |s'.files[i].data| == len)
      && (r == Done ==> forall k :: 0 <= k < len ==> s'.files[i].data[k] == if k < |was| then was[k] else 0)
  {
    hide Inv;
    RootedBy(s, q);
    ResizeAdmits(s, q, s.handles[h].inode, len);
  }

  // -------------------------------------------------------------------- handles

  /** When an open succeeds. */
  ghost predicate CanOpen(s: S, q: Quota, path: string, mode: OpenMode) {
    && mode.Valid() && Normalize(path).Ok?
    && var p := Normalize(path).value;
       if p in View(s) then View(s)[p] != Folder && !mode.createNew
       else p != [] && (mode.create || mode.createNew) && Parent(p) in View(s) && View(s)[Parent(p)] == Folder && s.fileCount < q.maxFiles
  }

  lemma InQuota(s: S, q: Quota)
    requires Inv(s, q)
    ensures s.usedBytes <= q.maxBytes
  {
  }

  lemma OpenSucceeds(s: S, q: Quota, path: string, mode: OpenMode)
    requires Inv(s, q)
    ensures var (s', r) := Open(s, q, path, mode);
      && (r.Opened? <==> CanOpen(s, q, path, mode)) && (!r.Opened? ==> r.Failed? && s' == s)
  {
    hide Inv, View, PutAt;
    OpenKeeps(s, q, path, mode);
    if mode.Valid() && Normalize(path).Ok? {
      var p := Normalize(path).value;
      ViewAt(s, q, p);
      RootedBy(s, q);
      match GetNode(s.root, p)
      case Ok(File(i)) => ResizeAdmits(s, q, i, 0); InQuota(s, q);
      case Ok(Directory(_)) =>
      case Err(_) =>
        if p != [] {
          ViewAt(s, q, Parent(p));
          if ParentDir(s.root, p).Ok? { FreeName(s.root, p); }
        }
    }
  }

  /** An open gives a fresh handle on the file at the path, made or emptied if so asked, and shows
      nothing else differently. */
  lemma OpenGives(s: S, q: Quota, path: string, mode: OpenMode)
    requires Inv(s, q)
    ensures var (s', r) := Open(s, q, path, mode);
      r.Opened? ==> Normalize(path).Ok? && var p := Normalize(path).value;
        && r.handle == s.nextHandle && r.handle !in s.handles && r.handle in s'.handles
        && s'.handles == s.handles[r.handle := s'.handles[r.handle]]
        && s'.handles[r.handle] == Handle(s'.handles[r.handle].inode, mode.read, mode.write, mode.append)
        && At(s'.root, p) == IsFile(s'.handles[r.handle].inode)
        && (if p in View(s) then !mode.createNew else mode.create || mode.createNew)
        && View(s') == if p !in View(s) || mode.truncate then Emptied(s, p) else View(s)
  {
    hide Inv, Flat, ViewOn;
    OpenKeeps(s, q, path, mode);
    var (s', r) := Open(s, q, path, mode);
    if r.Opened? {
      var p := Normalize(path).value;
      ViewAt(s, q, p);
      RootedBy(s, q);
      match GetNode(s.root, p)
      case Ok(File(i)) => OpenFound(s, q, p, i, mode, s');
      case Err(_) => OpenMade(s, q, p, mode, s');
    }
  }

  /** The view with an empty file at `p`. */
  ghost function Emptied(s: S, p: Path): map<Path, Content> {
    map x | x in View(s).Keys + {p} :: if x == p then Text([]) else View(s)[x]
  }

  lemma OpenFound(s: S, q: Quota, p: Path, i: Inode, mode: OpenMode, s': S)
    requires Inv(s, q) && Inv(s', q) && GetNode(s.root, p) == Ok(File(i)) && s'.root == s.root && i in s.files
    requires s'.files.Keys == s.files.Keys && (forall j :: j in s.files && j != i ==> s'.files[j].data == s.files[j].data)
    requires s'.files[i].data == if mode.truncate then [] else s.files[i].data
    ensures View(s') == if p !in View(s) || mode.truncate then Emptied(s, p) else View(s)
  {
    hide Inv, Flat;
    RootedBy(s, q);
    ViewAt(s, q, p);
    FlatNode(s.root, p);
    if !mode.truncate {
      ViewSame(Flat(s.root), s.files, s'.files);
    } else {
      forall x | x in Flat(s.root) && Flat(s.root)[x] == IsFile(i) ensures x == p { LinkedOnce(s, q, p, x, i); }
    }
  }

  /** A file is linked at one path. */
  lemma LinkedOnce(s: S, q: Quota, p: Path, x: Path, i: Inode)
    requires Inv(s, q) && i in s.files
    requires p in Flat(s.root) && x in Flat(s.root) && Flat(s.root)[p] == IsFile(i) && Flat(s.root)[x] == IsFile(i)
    ensures x == p
  {
    hide Flat, Links, TreeInv, TableInv, UsageInv, QuotaInv;
    TwoLinks(Flat(s.root), i, p, x);
  }

  lemma TwoLinks(t: Tree, i: Inode, p: Path, x: Path)
    requires p in t && x in t && t[p] == IsFile(i) && t[x] == IsFile(i) && |Links(t, i)| <= 1
    ensures x == p
  {
    assert p in Links(t, i) && x in Links(t, i);
    SubsetSize({p, x}, Links(t, i));
  }

  lemma OpenMade(s: S, q: Quota, p: Path, mode: OpenMode, s': S)
    requires Inv(s, q) && Inv(s', q) && p != [] && GetNode(s.root, p).Err? && At(s.root, Parent(p)) == IsDir
    requires s'.root == PutAt(s.root, p, File(s.nextInode)) && s'.files.Keys == s.files.Keys + {s.nextInode}
    requires s'.files[s.nextInode].data == [] && forall j :: j in s.files ==> s'.files[j].data == s.files[j].data
    ensures View(s') == Emptied(s, p) && At(s'.root, p) == IsFile(s.nextInode)
  {
    hide Inv, Flat;
    RootedBy(s, q);
    ViewAt(s, q, p);
    FlatPutLeaf(s.root, p, File(s.nextInode));
    AtPut(s.root, p, File(s.nextInode), p);
    assert p[|p|..] == [];
  }

  /** A close forgets the handle; no path and no other handle sees it. */
  lemma CloseForgets(s: S, q: Quota, h: FileHandle)
    requires Inv(s, q) && h in s.handles
    ensures var (s', r) := Close(s, h);
      r == Done && s'.handles == s.handles - {h} && View(s') == View(s) && ReadsSame(s, s')
  {
    hide Flat, InvOn, ViewOn;
    CloseKeeps(s, q, h);
    RootedBy(s, q);
    var (s', r) := Close(s, h);
    RootedBy(s', q);
    ViewSame(Flat(s.root), s.files, s'.files);
    SameReads(s, s');
  }
}
