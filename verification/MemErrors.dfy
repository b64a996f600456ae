/** Which error each refused operation of src/vfs/mem.rs gives, said of what the paths show. */
module MemErrors {
  import opened Base
  import opened Paths
  import opened MemTree
  import opened MemSpec
  import opened MemRuns
  import opened MemMeaning

  type Shown = map<Path, Content>

  /** The path leads through a file. */
  predicate Blocked(v: Shown, p: Path) { exists k :: 0 <= k < |p| && IsTextAt(v, p[..k]) }

  predicate IsTextAt(v: Shown, p: Path) { p in v && v[p].Text? }

  ghost predicate ThroughFile(n: Node, p: Path) { exists k :: 0 <= k < |p| && At(n, p[..k]).IsFile? }

  /** A walk fails with ENOTDIR exactly if it meets a file on the way. */
  lemma {:induction false} WalkFails(n: Node, p: Path)
    ensures GetNode(n, p) == Err(ENOTDIR) <==> ThroughFile(n, p)
    ensures GetNode(n, p).Err? ==> GetNode(n, p).errno == ENOTDIR || GetNode(n, p).errno == ENOENT
    decreases |p|
  {
    if p != [] {
      match n
      case File(_) => assert At(n, p[..0]).IsFile?;
      case Directory(m) =>
        var here, rest := p[0] in m, p[1..];
        forall k | 0 < k <= |p| ensures At(n, p[..k]) == if here then At(m[p[0]], rest[..k - 1]) else NoEntry {
          assert p[..k][1..] == rest[..k - 1];
        }
        assert !At(n, p[..0]).IsFile?;
        if here {
          WalkFails(m[p[0]], rest);
          if ThroughFile(m[p[0]], rest) {
            var k :| 0 <= k < |rest| && At(m[p[0]], rest[..k]).IsFile?;
            assert At(n, p[..k + 1]).IsFile?;
          }
        }
    }
  }

  /** The error of a walk, from what the view shows. */
  function WalkErrno(v: Shown, p: Path): Errno { if Blocked(v, p) then ENOTDIR else ENOENT }

  lemma NotFound(s: S, q: Quota, p: Path)
    requires Inv(s, q)
    ensures GetNode(s.root, p).Err? <==> p !in View(s)
    ensures p !in View(s) ==> GetNode(s.root, p) == Err(WalkErrno(View(s), p))
  {
    hide Inv, View;
    ViewAt(s, q, p);
    WalkFails(s.root, p);
    forall k | 0 <= k < |p| ensures At(s.root, p[..k]).IsFile? <==> IsTextAt(View(s), p[..k]) { ViewAt(s, q, p[..k]); }
  }

  predicate FolderAt(v: Shown, p: Path) { p in v && v[p] == Folder }

  /** The directory a path is in: missing, or a file on the way or in its place. */
  lemma NoParent(s: S, q: Quota, p: Path)
    requires Inv(s, q) && p != []
    ensures ParentDir(s.root, p).Ok? <==> FolderAt(View(s), Parent(p))
    ensures ParentDir(s.root, p).Err? ==> ParentDir(s.root, p) == Err(WalkErrno(View(s), p))
    ensures FolderAt(View(s), Parent(p)) ==> !Blocked(View(s), p)
  {
    hide Inv, View;
    ViewAt(s, q, Parent(p));
    NotFound(s, q, Parent(p));
    forall k | 0 <= k < |p| ensures IsTextAt(View(s), p[..k]) <==> At(s.root, p[..k]).IsFile? { ViewAt(s, q, p[..k]); }
    var n := |p| - 1;
    forall k | 0 <= k < n ensures p[..k] == Parent(p)[..k] { }
    if Blocked(View(s), Parent(p)) {
      var k :| 0 <= k < n && IsTextAt(View(s), Parent(p)[..k]);
      assert IsTextAt(View(s), p[..k]);
    }
    assert p[..n] == Parent(p);
    if FolderAt(View(s), Parent(p)) {
      forall k | 0 <= k < |p| ensures !IsTextAt(View(s), p[..k]) {
        if k < n { AncestorIsDir(s.root, p[..k], Parent(p)); }
      }
    } else if IsTextAt(View(s), Parent(p)) {
      assert IsTextAt(View(s), p[..n]);
    } else if Blocked(View(s), p) {
      var k :| 0 <= k < |p| && IsTextAt(View(s), p[..k]);
      assert k < n && IsTextAt(View(s), Parent(p)[..k]);
    }
  }

  // ----------------------------------------------------------------------- by path

  /** Each operation's error for a path in its normal form, in the order the conditions count. */
  function MkdirErrno(v: Shown, p: Path): Errno {
    if p in v then EEXIST else if p == [] then EEXIST else if !FolderAt(v, Parent(p)) then WalkErrno(v, p) else ENOSPC
  }

  lemma MkdirRefuses(s: S, q: Quota, path: string)
    requires Inv(s, q) && Mkdir(s, q, path).1.Failed?
    ensures Mkdir(s, q, path).1.errno == if Normalize(path).Err? then EINVAL else MkdirErrno(View(s), Normalize(path).value)
  {
    hide Inv, View, WalkErrno, Blocked, PutAt;
    NormalizeIsNormal(path);
    if Normalize(path).Ok? {
      NotFound(s, q, Normalize(path).value);
      if Normalize(path).value != [] { NoParent(s, q, Normalize(path).value); WalkSame(View(s), Normalize(path).value); }
    }
  }

  lemma WalkSame(v: Shown, p: Path)
    ensures WalkErrno(v, p) == ENOTDIR <==> Blocked(v, p)
    ensures WalkErrno(v, p) != ENOTDIR ==> WalkErrno(v, p) == ENOENT
  {
  }

  function RemoveErrno(v: Shown, p: Path, wantDir: bool): Errno {
    if p == [] then (if wantDir then EBUSY else EISDIR)
    else if !FolderAt(v, Parent(p)) then WalkErrno(v, p)
    else if p !in v then ENOENT
    else if wantDir then (if v[p].Text? then ENOTDIR else ENOTEMPTY)
    else EISDIR
  }

  lemma RemoveRefuses(s: S, q: Quota, path: string, wantDir: bool)
    requires Inv(s, q) && Remove(s, path, wantDir).1.Failed?
    ensures Remove(s, path, wantDir).1.errno ==
      if Normalize(path).Err? then EINVAL else RemoveErrno(View(s), Normalize(path).value, wantDir)
  {
    hide Inv, View, WalkErrno, Blocked, CutAt, ReleaseIfUnreferenced;
    NormalizeIsNormal(path);
    if Normalize(path).Ok? && Normalize(path).value != [] {
      var p := Normalize(path).value;
      ViewAt(s, q, p);
      NoParent(s, q, p);
      RemoveDrops(s, q, path, wantDir);
    }
  }

  function OpenErrno(v: Shown, p: Path, mode: OpenMode): Errno {
    if p in v then (if v[p] == Folder then EISDIR else EEXIST)
    else if Blocked(v, p) then ENOTDIR
    else if p == [] || !(mode.create || mode.createNew) || !FolderAt(v, Parent(p)) then ENOENT
    else ENOSPC
  }

  lemma OpenRefuses(s: S, q: Quota, path: string, mode: OpenMode)
    requires Inv(s, q) && Open(s, q, path, mode).1.Failed?
    ensures Open(s, q, path, mode).1.errno ==
      if !mode.Valid() || Normalize(path).Err? then EINVAL else OpenErrno(View(s), Normalize(path).value, mode)
  {
    hide Inv, View, WalkErrno, Blocked, PutAt, MintHandle, ResizeFile;
    NormalizeIsNormal(path);
    if mode.Valid() && Normalize(path).Ok? {
      var p := Normalize(path).value;
      OpenSucceeds(s, q, path, mode);
      ViewAt(s, q, p);
      NotFound(s, q, p);
      WalkSame(View(s), p);
      if p != [] { NoParent(s, q, p); }
      OnlyDone(s, q, p, mode);
    }
  }

  /** Emptying a file is never refused. */
  lemma OnlyDone(s: S, q: Quota, p: Path, mode: OpenMode)
    requires Inv(s, q)
    ensures GetNode(s.root, p).Ok? && GetNode(s.root, p).value.File? ==>
      ResizeFile(s, q, GetNode(s.root, p).value.inode, 0).1 == Done && MintHandle(s, GetNode(s.root, p).value.inode, mode).1.Opened?
  {
    hide Inv, View;
    ViewAt(s, q, p);
    RootedBy(s, q);
    if GetNode(s.root, p).Ok? && GetNode(s.root, p).value.File? && p in View(s) {
      ResizeAdmits(s, q, GetNode(s.root, p).value.inode, 0);
      InQuota(s, q);
    }
  }

  function RenameErrno(v: Shown, from: Path, to: Path): Errno {
    if from !in v then WalkErrno(v, from)
    else if v[from] == Folder && from <= to then EINVAL
    else if to == [] || !FolderAt(v, Parent(to)) then WalkErrno(v, to)
    else if to in v && v[from] != Folder && v[to] == Folder then EISDIR
    else if to in v && v[from] == Folder && v[to] != Folder then ENOTDIR
    else if to in v && v[from] == Folder && exists p :: p in v && to < p then ENOTEMPTY
    else EINVAL
  }

  lemma RenameRefuses(s: S, q: Quota, from: Path, to: Path)
    requires Inv(s, q) && from != [] && to != [] && |to| <= MAX_PATH_DEPTH && RenameCheck(s.root, from, to).Err?
    ensures RenameCheck(s.root, from, to).errno == RenameErrno(View(s), from, to)
    ensures RenamePaths(s, from, to) == (s, Failed(RenameErrno(View(s), from, to)))
  {
    hide Inv, View, WalkErrno, Blocked, IsLeaf, DepthAllowed;
    ViewAt(s, q, from);
    NotFound(s, q, from);
    ViewAt(s, q, to);
    NotFound(s, q, to);
    NoParent(s, q, to);
    WalkSame(View(s), to);
    if GetNode(s.root, to).Ok? && GetNode(s.root, to).value.Directory? { EmptyBelow(s, q, to); }
  }

  /** A rename of, or onto, the root is EINVAL, as is a path that is not normalisable. */
  lemma RenameRoot(s: S, from: string, to: string)
    requires Normalize(from).Err? || Normalize(to).Err? || Normalize(from).value == [] || Normalize(to).value == []
    ensures Rename(s, from, to) == (s, Failed(EINVAL))
  {
    NormalizeIsNormal(from);
    NormalizeIsNormal(to);
  }

  // --------------------------------------------------------------------- by handle

  /** EBADF for a handle that is not open, and for writing through one not opened to write; EINVAL
      for truncating through one, and for a write past the last offset. */
  lemma HandleRefuses(s: S, q: Quota, h: FileHandle, offset: u64, data: Bytes, len: u64)
    requires Inv(s, q)
    ensures WriteAt(s, q, h, offset, data).1 == Failed(EBADF) <==> h !in s.handles || !s.handles[h].writable
    ensures h in s.handles && s.handles[h].writable && data == [] ==> WriteAt(s, q, h, offset, data) == (s, Wrote(0))
    ensures h in s.handles ==> s.handles[h].inode in s.files
    ensures h in s.handles && s.handles[h].writable && data != [] ==>
      (WriteAt(s, q, h, offset, data).1 == Failed(EINVAL) <==> Start(s, h, offset) + |data| > U64_MAX)
    ensures Truncate(s, q, h, len).1 == Failed(EBADF) <==> h !in s.handles
    ensures Truncate(s, q, h, len).1 == Failed(EINVAL) <==> h in s.handles && !s.handles[h].writable
    ensures Close(s, h).1 == Failed(EBADF) <==> h !in s.handles
  {
    hide Inv, Spliced, Resized, View;
    RootedBy(s, q);
    if h in s.handles {
      CloseForgets(s, q, h);
      ResizeAdmits(s, q, s.handles[h].inode, len);
      if data != [] && s.handles[h].writable { WriteStores(s, q, h, offset, data); }
    }
  }
}
