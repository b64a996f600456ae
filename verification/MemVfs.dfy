/** The in-memory filesystem over shared, reference-counted buffers: src/vfs/mem.rs. */
module MemVfs {
  import opened Base
  import opened Paths
  import opened MemTree
  import opened MemSpec
  import opened MemProofs
  import opened MemRuns
  import SubtreeFits

  /** `Arc<Vec<u8>>`: bytes that several inode tables may hold at once. The ghost field names
      the holders, so that `strong` is a count of something. */
  class ArcBytes {
    var bytes: Bytes
    var strong: nat
    ghost var owners: set<(object, Inode)>

    ghost predicate Counted() reads this { strong == |owners| }

    constructor (bytes: Bytes, ghost owner: object, ghost i: Inode)
      ensures this.bytes == bytes && strong == 1 && owners == {(owner, i)}
    {
      this.bytes := bytes;
      strong := 1;
      owners := {(owner, i)};
    }
  }

  /** An identity in lists of holders, which one filesystem owns. */
  class Holder {
    ghost const owner: object

    ghost constructor (owner: object)
      ensures this.owner == owner
    {
      this.owner := owner;
    }
  }

  type Table = map<Inode, FileNode<ArcBytes>>
  type Plain = map<Inode, FileNode<Bytes>>

  ghost function BuffersOf(files: Table): set<ArcBytes> {
    set i | i in files :: files[i].data
  }

  /** `holder` is a counted holder of each buffer of its table, and the buffers hold `view`. */
  ghost predicate Backs(holder: object, files: Table, view: Plain)
    reads BuffersOf(files)
  {
    && files.Keys == view.Keys
    && forall i :: i in files ==>
         && files[i].data as object != holder && files[i].data.Counted() && (holder, i) in files[i].data.owners
         && view[i] == FileNode(files[i].data.bytes, files[i].links, files[i].openHandles)
  }

  /** What a step by `me` may do to a buffer: it may come and go as a holder, and it may change
      the bytes only while nobody else holds them. */
  twostate predicate Fair(b: ArcBytes, new me: object)
    reads b
  {
    && (old(b.Counted()) ==> b.Counted())
    && (forall o :: o in old(b.owners) && o.0 != me ==> o in b.owners)
    && ((exists o :: o in old(b.owners) && o.0 != me) ==> b.bytes == old(b.bytes))
  }

  twostate predicate AllFair(files: Table, new me: object)
    reads BuffersOf(files)
  {
    forall i :: i in files ==> Fair(files[i].data, me)
  }

  lemma BytesAt(me: object, files: Table, view: Plain, i: Inode)
    requires Backs(me, files, view)
    ensures i in files <==> i in view
    ensures i in files ==> files[i].data.Counted() && (me, i) in files[i].data.owners
    ensures i in files ==> view[i] == FileNode(files[i].data.bytes, files[i].links, files[i].openHandles)
  {
  }

  /** `Arc::make_mut` followed by an overwrite: in place when this table is the only holder,
      on a fresh copy otherwise. */
  method PutBytes(ghost me: object, files: Table, i: Inode, bytes: Bytes, ghost view: Plain) returns (after: Table)
    requires Backs(me, files, view) && i in files
    modifies files[i].data
    ensures Backs(me, after, view[i := view[i].(data := bytes)])
    ensures fresh(BuffersOf(after) - BuffersOf(files))
    ensures i in after && after[i].data.owners == {(me, i)}
    ensures AllFair(files, me)
  {
    if files[i].data.strong == 1 {
      Overwrite(me, files, i, bytes, view);
      after := files;
    } else {
      after := Detach(me, files, i, bytes, view);
    }
  }

  method Overwrite(ghost me: object, files: Table, i: Inode, bytes: Bytes, ghost view: Plain)
    requires Backs(me, files, view) && i in files && files[i].data.strong == 1
    modifies files[i].data
    ensures Backs(me, files, view[i := view[i].(data := bytes)])
    ensures files[i].data.owners == {(me, i)}
    ensures AllFair(files, me)
  {
    var b := files[i].data;
    SoleOwner(b, (me, i));
    assert forall j :: j in files && j != i ==> files[j].data != b;
    b.bytes := bytes;
    assert Fair(b, me);
  }

  method Detach(ghost me: object, files: Table, i: Inode, bytes: Bytes, ghost view: Plain) returns (after: Table)
    requires Backs(me, files, view) && i in files && files[i].data.strong != 1
    modifies files[i].data
    ensures Backs(me, after, view[i := view[i].(data := bytes)])
    ensures fresh(BuffersOf(after) - BuffersOf(files))
    ensures i in after && after[i].data.owners == {(me, i)}
    ensures AllFair(files, me)
  {
    var b := files[i].data;
    var copy := new ArcBytes(bytes, me, i);
    b.strong := b.strong - 1;
    b.owners := b.owners - {(me, i)};
    after := files[i := files[i].(data := copy)];
    assert Fair(b, me);
  }

  lemma SoleOwner(b: ArcBytes, o: (object, Inode))
    requires b.Counted() && b.strong == 1 && o in b.owners
    ensures b.owners == {o}
  {
    SubsetSize({o}, b.owners);
  }

  /** A state over buffers shows a plain state: same bytes, everything else equal. */
  ghost predicate Shows(me: object, st: State<ArcBytes>, v: S)
    reads BuffersOf(st.files)
  {
    && Backs(me, st.files, v.files)
    && v == State(st.root, v.files, st.nextInode, st.nextHandle, st.handles, st.usedBytes, st.fileCount)
  }

  /** `resize_file`. */
  method ResizeShared(ghost me: object, q: Quota, st: State<ArcBytes>, ghost v: S, i: Inode, newLen: nat)
    returns (st': State<ArcBytes>, r: Reply)
    requires Shows(me, st, v)
    modifies BuffersOf(st.files)
    ensures Shows(me, st', MemSpec.ResizeFile(v, q, i, newLen).0) && r == MemSpec.ResizeFile(v, q, i, newLen).1
    ensures fresh(BuffersOf(st'.files) - BuffersOf(st.files))
    ensures r == Done ==> i in st'.files && st'.files[i].data.owners == {(me, i)}
    ensures AllFair(st.files, me)
  {
    hide Resized, Backs;
    assert AllFair(st.files, me);
    hide AllFair;
    BytesAt(me, st.files, v.files, i);
    st' := st;
    if i !in st.files { return st, Fault; }
    var b := st.files[i].data;
    r := ResizeVerdict(st.usedBytes, |b.bytes|, newLen, q);
    if r != Done { return; }
    assert v.files[i].data == b.bytes;
    var bytes := Resized(b.bytes, newLen);
    var used := st.usedBytes + newLen - |b.bytes|;
    var files := PutBytes(me, st.files, i, bytes, v.files);
    st' := st.(files := files, usedBytes := used);
  }

  /** Removing an inode drops its reference to the buffer, whoever else holds it. */
  method DropInode(ghost me: object, files: Table, i: Inode, ghost view: Plain)
    requires Backs(me, files, view) && i in files
    modifies files[i].data
    ensures Backs(me, files - {i}, view - {i})
    ensures AllFair(files, me)
  {
    var b := files[i].data;
    b.strong := b.strong - 1;
    b.owners := b.owners - {(me, i)};
    assert Fair(b, me);
  }

  /** `release_file_if_unreferenced`. */
  method Release(ghost me: object, st: State<ArcBytes>, ghost v: S, i: Inode)
    returns (st': State<ArcBytes>, r: Reply)
    requires Shows(me, st, v)
    modifies BuffersOf(st.files)
    ensures Shows(me, st', ReleaseIfUnreferenced(v, i).0) && r == ReleaseIfUnreferenced(v, i).1
    ensures BuffersOf(st'.files) <= BuffersOf(st.files)
    ensures AllFair(st.files, me)
  {
    hide Backs;
    assert AllFair(st.files, me);
    hide AllFair;
    BytesAt(me, st.files, v.files, i);
    st', r := st, Done;
    if i !in st.files || st.files[i].links > 0 || st.files[i].openHandles > 0 { return; }
    var len := |st.files[i].data.bytes|;
    if st.usedBytes < len || st.fileCount == 0 { return st, Fault; }
    DropInode(me, st.files, i, v.files);
    st' := st.(files := st.files - {i}, usedBytes := st.usedBytes - len, fileCount := st.fileCount - 1);
  }

  /** Changing an inode's counts leaves its buffer alone. */
  lemma Recount(me: object, files: Table, view: Plain, i: Inode, links: nat, openHandles: nat)
    requires Backs(me, files, view) && i in files
    ensures i in view
    ensures Backs(me, files[i := files[i].(links := links, openHandles := openHandles)],
                  view[i := view[i].(links := links, openHandles := openHandles)])
    ensures BuffersOf(files[i := files[i].(links := links, openHandles := openHandles)]) == BuffersOf(files)
  {
    var f := files[i].(links := links, openHandles := openHandles);
    forall b | b in BuffersOf(files) ensures b in BuffersOf(files[i := f]) {
      var j :| j in files && files[j].data == b;
      assert files[i := f][j].data == b;
    }
  }

  /** `remove_tree` of a detached leaf. */
  method RemoveDetached(ghost me: object, st: State<ArcBytes>, ghost v: S, n: Node)
    returns (st': State<ArcBytes>, r: Reply)
    requires Shows(me, st, v) && IsLeaf(n)
    modifies BuffersOf(st.files)
    ensures Shows(me, st', RemoveLeaf(v, n).0) && r == RemoveLeaf(v, n).1
    ensures BuffersOf(st'.files) <= BuffersOf(st.files)
    ensures AllFair(st.files, me)
  {
    hide Backs, ReleaseIfUnreferenced;
    assert AllFair(st.files, me);
    match n
    case Directory(_) =>
      if st.fileCount == 0 { return st, Fault; }
      st', r := st.(fileCount := st.fileCount - 1), Done;
    case File(i) =>
      BytesAt(me, st.files, v.files, i);
      if i !in st.files || st.files[i].links == 0 { return st, Fault; }
      Recount(me, st.files, v.files, i, st.files[i].links - 1, st.files[i].openHandles);
      var st1 := st.(files := st.files[i := st.files[i].(links := st.files[i].links - 1)]);
      ghost var v1 := v.(files := v.files[i := v.files[i].(links := v.files[i].links - 1)]);
      st', r := Release(me, st1, v1, i);
      assert forall j :: j in st.files ==> st1.files[j].data == st.files[j].data;
  }

  class InMemoryVfs {
    const quota: Quota
    var state: State<ArcBytes>
    ghost var view: S
    /** Who this table is in its buffers' lists of holders; a restore takes a new one. */
    ghost var tag: Holder?

    ghost predicate Valid()
      reads this, BuffersOf(state.files)
    {
      tag != null && tag.owner == this && Shows(tag, state, view) && Inv(view, quota)
    }

    constructor (quota: Quota)
      ensures fresh(tag) && Valid() && view == Empty() && state.files == map[] && this.quota == quota
    {
      hide Inv;
      this.quota := quota;
      state := Empty();
      view := Empty();
      tag := null;
      new;
      tag := new Holder(this);
      EmptyKeeps(quota);
    }

    method Commit(st: State<ArcBytes>, ghost v: S)
      requires tag != null && Shows(tag, st, v)
      modifies this`state, this`view
      ensures state == st && view == v && Shows(tag, state, view)
    {
      state, view := st, v;
    }

    method Stat(path: string) returns (r: Reply)
      requires Valid()
      ensures r == StatPath(view, path)
    {
      hide Inv;
      var n := NormalizePath(path);
      if n.Err? { return Failed(n.errno); }
      var node := FindNode(state.root, n.value);
      if node.Err? { return Failed(node.errno); }
      match node.value
      case Directory(_) => r := Reply.Stat(DirMeta);
      case File(i) =>
        r := if i in state.files then Reply.Stat(FileMeta(|state.files[i].data.bytes|)) else Fault;
    }

    method ReadAt(h: FileHandle, offset: u64, want: nat) returns (r: Reply)
      requires Valid()
      ensures r == MemSpec.ReadAt(view, h, offset, want)
    {
      hide Inv;
      if h !in state.handles || !state.handles[h].readable { return Failed(EBADF); }
      var i := state.handles[h].inode;
      if i !in state.files { return Fault; }
      var data := state.files[i].data.bytes;
      if offset >= |data| { return ReadBytes([]); }
      var len := if |data| - offset < want then |data| - offset else want;
      r := ReadBytes(data[offset..offset + len]);
    }

    method Mkdir(path: string) returns (r: Reply)
      requires Valid()
      modifies this`state, this`view
      ensures Valid() && (view, r) == MemSpec.Mkdir(old(view), quota, path) && state.files == old(state.files)
    {
      hide Inv, PutAt;
      MkdirKeeps(view, quota, path);
      var n := NormalizePath(path);
      if n.Err? { return Failed(n.errno); }
      var p := n.value;
      if p == [] { return Failed(EEXIST); }
      var found := FindNode(state.root, p);
      if found.Ok? { return Failed(EEXIST); }
      if found.errno != ENOENT { return Failed(found.errno); }
      var parent := ParentDir(state.root, p);
      if parent.Err? { return Failed(parent.errno); }
      if state.fileCount >= quota.maxFiles { return Failed(ENOSPC); }
      var root := PutAt(state.root, p, Directory(map[]));
      Commit(state.(root := root, fileCount := state.fileCount + 1), MemSpec.Mkdir(view, quota, path).0);
      r := Done;
    }

    /** `unlink`, and `rmdir` when a directory is wanted. */
    method RemovePath(path: string, wantDir: bool) returns (r: Reply)
      requires Valid()
      modifies this`state, this`view, BuffersOf(state.files)
      ensures Valid() && (view, r) == Remove(old(view), path, wantDir)
      ensures fresh(BuffersOf(state.files) - old(BuffersOf(state.files))) && AllFair(old(state.files), tag)
    {
      hide Backs, Inv, RemoveLeaf, CutAt;
      assert AllFair(state.files, tag);
      RemoveKeeps(view, quota, path, wantDir);
      var n := NormalizePath(path);
      if n.Err? { return Failed(n.errno); }
      var p := n.value;
      if p == [] { return Failed(if wantDir then EBUSY else EISDIR); }
      var parent := ParentDir(state.root, p);
      if parent.Err? { return Failed(parent.errno); }
      var target := FindNode(state.root, p);
      if target.Err? { return Failed(ENOENT); }
      if wantDir && target.value.File? { return Failed(ENOTDIR); }
      if wantDir && !IsLeaf(target.value) { return Failed(ENOTEMPTY); }
      if !wantDir && target.value.Directory? { return Failed(EISDIR); }
      ghost var v := view.(root := CutAt(view.root, p));
      var st := state.(root := CutAt(state.root, p));
      st, r := RemoveDetached(tag, st, v, target.value);
      Commit(st, RemoveLeaf(v, target.value).0);
    }

    method Rename(from: string, to: string) returns (r: Reply)
      requires Valid()
      modifies this`state, this`view, BuffersOf(state.files)
      ensures Valid() && (view, r) == MemSpec.Rename(old(view), from, to)
      ensures fresh(BuffersOf(state.files) - old(BuffersOf(state.files))) && AllFair(old(state.files), tag)
    {
      hide Backs, Inv, RenamePaths;
      assert AllFair(state.files, tag);
      var f := NormalizePath(from);
      if f.Err? { return Failed(f.errno); }
      var t := NormalizePath(to);
      if t.Err? { return Failed(t.errno); }
      var p, q := f.value, t.value;
      if p == [] || q == [] { return Failed(EINVAL); }
      RenameKeeps(view, quota, p, q);
      var st;
      st, r := RenameShared(tag, state, view, p, q);
      Commit(st, RenamePaths(view, p, q).0);
    }

    method Open(path: string, mode: OpenMode) returns (r: Reply)
      requires Valid()
      modifies this`state, this`view, BuffersOf(state.files)
      ensures Valid() && (view, r) == MemSpec.Open(old(view), quota, path, mode)
      ensures fresh(BuffersOf(state.files) - old(BuffersOf(state.files))) && AllFair(old(state.files), tag)
    {
      hide Backs, Inv, PutAt, MintHandle, CreateFile, MemSpec.ResizeFile;
      assert AllFair(state.files, tag);
      OpenKeeps(view, quota, path, mode);
      if !mode.Valid() { return Failed(EINVAL); }
      var n := NormalizePath(path);
      if n.Err? { return Failed(n.errno); }
      var p := n.value;
      var node := FindNode(state.root, p);
      match node
      case Ok(Directory(_)) => r := Failed(EISDIR);
      case Ok(File(i)) =>
        if mode.createNew { return Failed(EEXIST); }
        var st;
        st, r := OpenShared(tag, quota, state, view, i, mode);
        Commit(st, MemSpec.Open(view, quota, path, mode).0);
      case Err(e) =>
        if e != ENOENT || !(mode.create || mode.createNew) { return Failed(e); }
        var parent := ParentDir(state.root, p);
        if parent.Err? { return Failed(parent.errno); }
        if state.fileCount >= quota.maxFiles { return Failed(ENOSPC); }
        var st := Create(tag, state, view, p);
        st, r := Mint(tag, st, CreateFile(view, p), state.nextInode, mode);
        Commit(st, MintHandle(CreateFile(view, p), view.nextInode, mode).0);
    }

    method WriteAt(h: FileHandle, offset: u64, data: Bytes) returns (r: Reply)
      requires Valid()
      modifies this`state, this`view, BuffersOf(state.files)
      ensures Valid() && (view, r) == MemSpec.WriteAt(old(view), quota, h, offset, data)
      ensures fresh(BuffersOf(state.files) - old(BuffersOf(state.files))) && AllFair(old(state.files), tag)
    {
      hide Backs, Inv, MemSpec.ResizeFile, Spliced;
      assert AllFair(state.files, tag);
      WriteKeeps(view, quota, h, offset, data);
      if h !in state.handles || !state.handles[h].writable { return Failed(EBADF); }
      if data == [] { return Wrote(0); }
      var i := state.handles[h].inode;
      BytesAt(tag, state.files, view.files, i);
      if i !in state.files { return Fault; }
      var oldLen := |state.files[i].data.bytes|;
      var start := if state.handles[h].append then oldLen else offset;
      if start + |data| > U64_MAX { return Failed(EINVAL); }
      var end := start + |data|;
      var st;
      st, r := Patch(tag, quota, state, view, i, if oldLen > end then oldLen else end, start, data);
      Commit(st, MemSpec.WriteAt(view, quota, h, offset, data).0);
    }

    method Truncate(h: FileHandle, len: u64) returns (r: Reply)
      requires Valid()
      modifies this`state, this`view, BuffersOf(state.files)
      ensures Valid() && (view, r) == MemSpec.Truncate(old(view), quota, h, len)
      ensures fresh(BuffersOf(state.files) - old(BuffersOf(state.files))) && AllFair(old(state.files), tag)
    {
      hide Backs, Inv, MemSpec.ResizeFile;
      assert AllFair(state.files, tag);
      TruncateKeeps(view, quota, h, len);
      if h !in state.handles { return Failed(EBADF); }
      if !state.handles[h].writable { return Failed(EINVAL); }
      var st;
      st, r := ResizeShared(tag, quota, state, view, state.handles[h].inode, len);
      Commit(st, MemSpec.Truncate(view, quota, h, len).0);
    }

    method Close(h: FileHandle) returns (r: Reply)
      requires Valid()
      modifies this`state, this`view, BuffersOf(state.files)
      ensures Valid() && (view, r) == MemSpec.Close(old(view), h)
      ensures fresh(BuffersOf(state.files) - old(BuffersOf(state.files))) && AllFair(old(state.files), tag)
    {
      hide Backs, Inv, ReleaseIfUnreferenced;
      assert AllFair(state.files, tag);
      CloseKeeps(view, quota, h);
      if h !in state.handles { return Failed(EBADF); }
      var i := state.handles[h].inode;
      BytesAt(tag, state.files, view.files, i);
      if i !in state.files || state.files[i].openHandles == 0 { return Fault; }
      Recount(tag, state.files, view.files, i, state.files[i].links, state.files[i].openHandles - 1);
      var f := state.files[i].(openHandles := state.files[i].openHandles - 1);
      var st := state.(handles := state.handles - {h}, files := state.files[i := f]);
      ghost var v := view.(handles := view.handles - {h},
                           files := view.files[i := view.files[i].(openHandles := view.files[i].openHandles - 1)]);
      st, r := Release(tag, st, v, i);
      Commit(st, ReleaseIfUnreferenced(v, i).0);
    }
  }

  method CheckRename(root: Node, from: Path, to: Path) returns (r: Result<Node>)
    requires |to| <= MAX_PATH_DEPTH
    ensures r == RenameCheck(root, from, to)
  {
    hide Fits;
    r := FindNode(root, from);
    if r.Err? || from == to { return; }
    var source := r.value;
    if source.Directory? && from <= to { return Err(EINVAL); }
    var parent := ParentDir(root, to);
    if parent.Err? { return Err(parent.errno); }
    var target := FindNode(root, to);
    if target.Ok? {
      if source.File? && target.value.Directory? { return Err(EISDIR); }
      if source.Directory? && target.value.File? { return Err(ENOTDIR); }
      if source.Directory? && !IsLeaf(target.value) { return Err(ENOTEMPTY); }
    } else if target.errno != ENOENT {
      return Err(target.errno);
    }
    if source.Directory? && |to| > |from| {
      var fits := SubtreeFits.SubtreeFits(source, MAX_PATH_DEPTH - |to|);
      if !fits { return Err(EINVAL); }
    }
  }

  method RenameShared(ghost me: object, st: State<ArcBytes>, ghost v: S, from: Path, to: Path)
    returns (st': State<ArcBytes>, r: Reply)
    requires Shows(me, st, v) && from != [] && to != [] && |to| <= MAX_PATH_DEPTH
    modifies BuffersOf(st.files)
    ensures Shows(me, st', RenamePaths(v, from, to).0) && r == RenamePaths(v, from, to).1
    ensures BuffersOf(st'.files) <= BuffersOf(st.files)
    ensures AllFair(st.files, me)
  {
    hide Backs, RemoveLeaf, CutAt, PutAt, RenameCheck;
    assert AllFair(st.files, me);
    var checked := CheckRename(st.root, from, to);
    if checked.Err? { return st, Failed(checked.errno); }
    if from == to { return st, Done; }
    var target := FindNode(st.root, to);
    RenameChecked(st.root, from, to);
    var root := PutAt(CutAt(st.root, from), to, checked.value);
    if target.Err? { return st.(root := root), Done; }
    st', r := RemoveDetached(me, st.(root := root), v.(root := root), target.value);
  }

  /** Opening an inode that exists: truncate it if asked, then mint a handle. */
  method OpenShared(ghost me: object, q: Quota, st: State<ArcBytes>, ghost v: S, i: Inode, mode: OpenMode)
    returns (st': State<ArcBytes>, r: Reply)
    requires Shows(me, st, v)
    modifies BuffersOf(st.files)
    ensures var (v1, r1) := if mode.truncate then MemSpec.ResizeFile(v, q, i, 0) else (v, Done);
      if r1 != Done then Shows(me, st', v1) && r == r1
      else Shows(me, st', MintHandle(v1, i, mode).0) && r == MintHandle(v1, i, mode).1
    ensures fresh(BuffersOf(st'.files) - BuffersOf(st.files))
    ensures AllFair(st.files, me)
  {
    hide Backs, MintHandle, MemSpec.ResizeFile;
    assert AllFair(st.files, me);
    st', r := st, Done;
    ghost var v1 := v;
    if mode.truncate {
      st', r := ResizeShared(me, q, st, v, i, 0);
      v1 := MemSpec.ResizeFile(v, q, i, 0).0;
      if r != Done { return; }
    }
    st', r := Mint(me, st', v1, i, mode);
  }

  method Mint(ghost me: object, st: State<ArcBytes>, ghost v: S, i: Inode, mode: OpenMode)
    returns (st': State<ArcBytes>, r: Reply)
    requires Shows(me, st, v)
    ensures Shows(me, st', MintHandle(v, i, mode).0) && r == MintHandle(v, i, mode).1
    ensures BuffersOf(st'.files) == BuffersOf(st.files)
  {
    hide Backs;
    BytesAt(me, st.files, v.files, i);
    if i !in st.files { return st, Fault; }
    Recount(me, st.files, v.files, i, st.files[i].links, st.files[i].openHandles + 1);
    var h := st.nextHandle;
    st' := st.(nextHandle := h + 1,
               handles := st.handles[h := Handle(i, mode.read, mode.write, mode.append)],
               files := st.files[i := st.files[i].(openHandles := st.files[i].openHandles + 1)]);
    r := Opened(h);
  }

  method Create(ghost me: object, st: State<ArcBytes>, ghost v: S, p: Path) returns (st': State<ArcBytes>)
    requires Shows(me, st, v) && p != [] && At(st.root, Parent(p)) == IsDir
    ensures Shows(me, st', CreateFile(v, p))
    ensures fresh(BuffersOf(st'.files) - BuffersOf(st.files))
  {
    hide PutAt;
    var b := new ArcBytes([], me, st.nextInode);
    st' := st.(files := st.files[st.nextInode := FileNode(b, 1, 0)],
               root := PutAt(st.root, p, File(st.nextInode)),
               nextInode := st.nextInode + 1,
               fileCount := st.fileCount + 1);
  }

  /** A write's two steps: resize, then overwrite the range. */
  method Patch(ghost me: object, q: Quota, st: State<ArcBytes>, ghost v: S, i: Inode, len: nat, start: nat, data: Bytes)
    returns (st': State<ArcBytes>, r: Reply)
    requires Shows(me, st, v) && i in st.files && start + |data| <= len
    modifies BuffersOf(st.files)
    ensures var (v1, r1) := MemSpec.ResizeFile(v, q, i, len);
      if r1 != Done then Shows(me, st', v1) && r == r1
      else
        && i in v1.files && start + |data| <= |v1.files[i].data| && r == Wrote(|data|)
        && Shows(me, st', v1.(files := v1.files[i := v1.files[i].(data := Spliced(v1.files[i].data, start, data))]))
    ensures fresh(BuffersOf(st'.files) - BuffersOf(st.files))
    ensures AllFair(st.files, me)
  {
    hide Spliced, Resized, Backs;
    var st1;
    st1, r := ResizeShared(me, q, st, v, i, len);
    if r != Done { return st1, r; }
    ghost var v1 := MemSpec.ResizeFile(v, q, i, len).0;
    BytesAt(me, st1.files, v1.files, i);
    ghost var b := st1.files[i].data;
    var bytes := Spliced(st1.files[i].data.bytes, start, data);
    label L:
    var files := PutBytes(me, st1.files, i, bytes, v1.files);
    st', r := st1.(files := files), Wrote(|data|);
    assert Fair@L(b, me);
    forall j | j in st.files ensures Fair(st.files[j].data, me) {
      if st.files[j].data != b {
        assert Fair@L(st.files[j].data, me);
      }
    }
  }
}
