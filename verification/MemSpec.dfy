/** The operations of src/vfs/mem.rs on plain values, with file contents as byte sequences. */
module MemSpec {
  import opened Base
  import opened Paths
  import opened MemTree

  type FileHandle = nat

  /** An inode, generic in how its bytes are held. */
  datatype FileNode<+D> = FileNode(data: D, links: nat, openHandles: nat)

  datatype Handle = Handle(inode: Inode, readable: bool, writable: bool, append: bool)

  datatype Quota = Quota(maxBytes: u64, maxFiles: u64, maxFileSize: u64)

  datatype State<+D> = State(
    root: Node,
    files: map<Inode, FileNode<D>>,
    nextInode: Inode,
    nextHandle: FileHandle,
    handles: map<FileHandle, Handle>,
    usedBytes: nat,
    fileCount: nat)

  datatype Snapshot<+D> = Snapshot(
    root: Node,
    files: map<Inode, FileNode<D>>,
    nextInode: Inode,
    usedBytes: nat,
    fileCount: nat)

  type Bytes = seq<byte>

  datatype OpenMode = OpenMode(read: bool, write: bool, append: bool, create: bool, createNew: bool, truncate: bool) {
    predicate Valid() { (read || write) && (truncate ==> write) && (append ==> write) }
  }

  datatype Metadata = FileMeta(len: nat) | DirMeta

  /** A call's answer. `Fault` stands for the code's internal failures: an inode missing from
      the table, a counter going below zero, a detached node with no parent to go to. */
  datatype Reply =
    | Done
    | Opened(handle: FileHandle)
    | Wrote(count: nat)
    | ReadBytes(bytes: Bytes)
    | Stat(meta: Metadata)
    | Listing(entries: map<string, Metadata>)
    | Failed(errno: Errno)
    | Fault

  type S = State<Bytes>

  function Empty<D>(): State<D> {
    State(Directory(map[]), map[], 1, 1, map[], 0, 0)
  }

  // ------------------------------------------------------------------ queries

  function MetaOf(s: S, n: Node): Reply {
    match n
    case File(i) => if i in s.files then Stat(FileMeta(|s.files[i].data|)) else Fault
    case Directory(_) => Stat(DirMeta)
  }

  function StatPath(s: S, path: string): Reply {
    match Normalize(path)
    case Err(e) => Failed(e)
    case Ok(p) =>
      match GetNode(s.root, p)
      case Err(e) => Failed(e)
      case Ok(n) => MetaOf(s, n)
  }

  function ReadDir(s: S, path: string): Reply {
    match Normalize(path)
    case Err(e) => Failed(e)
    case Ok(p) =>
      match GetNode(s.root, p)
      case Err(e) => Failed(e)
      case Ok(File(_)) => Failed(ENOTDIR)
      case Ok(Directory(m)) =>
        if forall k :: k in m ==> MetaOf(s, m[k]).Stat?
        then Listing(map k | k in m :: MetaOf(s, m[k]).meta)
        else Fault
  }

  function ReadAt(s: S, h: FileHandle, offset: u64, want: nat): Reply {
    if h !in s.handles || !s.handles[h].readable then Failed(EBADF)
    else if s.handles[h].inode !in s.files then Fault
    else
      var data := s.files[s.handles[h].inode].data;
      if offset >= |data| then ReadBytes([])
      else
        var len := if |data| - offset < want then |data| - offset else want;
        ReadBytes(data[offset..offset + len])
  }

  // ------------------------------------------------------------ building blocks

  /** `parent_dir_mut` and `ensure_parent_is_dir` answer alike. */
  function ParentDir(root: Node, p: Path): Result<()> {
    if p == [] then Err(EINVAL)
    else match GetNode(root, Parent(p))
      case Err(e) => Err(e)
      case Ok(File(_)) => Err(ENOTDIR)
      case Ok(Directory(_)) => Ok(())
  }

  /** Bytes after a resize: the old bytes, cut or padded with zeros. */
  function Resized(data: Bytes, newLen: nat): (r: Bytes)
    ensures |r| == newLen
  {
    if newLen <= |data| then data[..newLen] else data + seq(newLen - |data|, _ => 0)
  }

  /** Bytes after a write that lies within them. */
  function Spliced(data: Bytes, offset: nat, patch: Bytes): (r: Bytes)
    requires offset + |patch| <= |data|
    ensures |r| == |data|
    ensures forall k :: 0 <= k < |r| ==>
      r[k] == if offset <= k < offset + |patch| then patch[k - offset] else data[k]
  {
    data[..offset] + patch + data[offset + |patch|..]
  }

  /** Whether a resize is admitted: the file-size limit, the byte counter, the byte quota. */
  function ResizeVerdict(used: nat, oldLen: nat, newLen: nat, q: Quota): Reply {
    if newLen > q.maxFileSize then Failed(ENOSPC)
    else if newLen >= oldLen && used + (newLen - oldLen) > U64_MAX then Failed(ENOSPC)
    else if used + newLen < oldLen then Fault
    else if used + newLen - oldLen > q.maxBytes then Failed(ENOSPC)
    else Done
  }

  function ResizeFile(s: S, q: Quota, i: Inode, newLen: nat): (S, Reply) {
    if i !in s.files then (s, Fault)
    else
      var file := s.files[i];
      var verdict := ResizeVerdict(s.usedBytes, |file.data|, newLen, q);
      if verdict != Done then (s, verdict)
      else (s.(files := s.files[i := file.(data := Resized(file.data, newLen))],
               usedBytes := s.usedBytes + newLen - |file.data|), Done)
  }

  function ReleaseIfUnreferenced(s: S, i: Inode): (S, Reply) {
    if i !in s.files || s.files[i].links > 0 || s.files[i].openHandles > 0 then (s, Done)
    else if s.usedBytes < |s.files[i].data| || s.fileCount == 0 then (s, Fault)
    else (s.(files := s.files - {i}, usedBytes := s.usedBytes - |s.files[i].data|, fileCount := s.fileCount - 1), Done)
  }

  /** `remove_tree` of what the callers detach: a file, or a directory without entries. */
  function RemoveLeaf(s: S, n: Node): (S, Reply)
    requires IsLeaf(n)
  {
    match n
    case File(i) =>
      if i !in s.files || s.files[i].links == 0 then (s, Fault)
      else ReleaseIfUnreferenced(s.(files := s.files[i := s.files[i].(links := s.files[i].links - 1)]), i)
    case Directory(_) =>
      if s.fileCount == 0 then (s, Fault) else (s.(fileCount := s.fileCount - 1), Done)
  }

  // ------------------------------------------------------------------ updates

  function Mkdir(s: S, q: Quota, path: string): (S, Reply) {
    match Normalize(path)
    case Err(e) => (s, Failed(e))
    case Ok(p) =>
      if p == [] then (s, Failed(EEXIST))
      else match GetNode(s.root, p)
        case Ok(_) => (s, Failed(EEXIST))
        case Err(e) =>
          if e != ENOENT then (s, Failed(e))
          else match ParentDir(s.root, p)
            case Err(e) => (s, Failed(e))
            case Ok(_) =>
              if s.fileCount >= q.maxFiles then (s, Failed(ENOSPC))
              else (s.(root := PutAt(s.root, p, Directory(map[])), fileCount := s.fileCount + 1), Done)
  }

  /** The checks `rename` makes on two normalised, non-root paths before it detaches anything. */
  function RenameCheck(root: Node, from: Path, to: Path): Result<Node> {
    match GetNode(root, from)
    case Err(e) => Err(e)
    case Ok(source) =>
      if from == to then Ok(source)
      else if source.Directory? && from <= to then Err(EINVAL)
      else match ParentDir(root, to)
        case Err(e) => Err(e)
        case Ok(_) =>
          match GetNode(root, to)
          case Ok(target) =>
            if source.File? && target.Directory? then Err(EISDIR)
            else if source.Directory? && target.File? then Err(ENOTDIR)
            else if source.Directory? && !IsLeaf(target) then Err(ENOTEMPTY)
            else if !DepthAllowed(source, from, to) then Err(EINVAL)
            else Ok(source)
          case Err(e) =>
            if e != ENOENT then Err(e)
            else if !DepthAllowed(source, from, to) then Err(EINVAL)
            else Ok(source)
  }

  predicate DepthAllowed(source: Node, from: Path, to: Path) {
    source.Directory? && |to| > |from| ==> |to| <= MAX_PATH_DEPTH && Fits(source, MAX_PATH_DEPTH - |to|)
  }

  function RenamePaths(s: S, from: Path, to: Path): (S, Reply) {
    match RenameCheck(s.root, from, to)
    case Err(e) => (s, Failed(e))
    case Ok(source) =>
      if from == to then (s, Done)
      else
        var target := GetNode(s.root, to);
        if ParentDir(s.root, from).Err? then (s, Fault)
        else
          var cut := CutAt(s.root, from);
          if ParentDir(cut, to).Err? then (s, Fault)
          else
            var moved := s.(root := PutAt(cut, to, source));
            if target.Ok? && IsLeaf(target.value) then RemoveLeaf(moved, target.value)
            else if target.Ok? then (s, Fault)
            else (moved, Done)
  }

  function Rename(s: S, from: string, to: string): (S, Reply) {
    match Normalize(from)
    case Err(e) => (s, Failed(e))
    case Ok(f) =>
      match Normalize(to)
      case Err(e) => (s, Failed(e))
      case Ok(t) => if f == [] || t == [] then (s, Failed(EINVAL)) else RenamePaths(s, f, t)
  }

  /** `unlink` and `rmdir`, which differ in what they accept and in the errors they give. */
  function Remove(s: S, path: string, wantDir: bool): (S, Reply) {
    match Normalize(path)
    case Err(e) => (s, Failed(e))
    case Ok(p) =>
      if p == [] then (s, Failed(if wantDir then EBUSY else EISDIR))
      else match ParentDir(s.root, p)
        case Err(e) => (s, Failed(e))
        case Ok(_) =>
          match GetNode(s.root, p)
          case Err(_) => (s, Failed(ENOENT))
          case Ok(n) =>
            if wantDir && n.File? then (s, Failed(ENOTDIR))
            else if wantDir && !IsLeaf(n) then (s, Failed(ENOTEMPTY))
            else if !wantDir && n.Directory? then (s, Failed(EISDIR))
            else RemoveLeaf(s.(root := CutAt(s.root, p)), n)
  }

  function MintHandle(s: S, i: Inode, mode: OpenMode): (S, Reply) {
    if i !in s.files then (s, Fault)
    else
      var h := s.nextHandle;
      (s.(nextHandle := h + 1,
          handles := s.handles[h := Handle(i, mode.read, mode.write, mode.append)],
          files := s.files[i := s.files[i].(openHandles := s.files[i].openHandles + 1)]),
       Opened(h))
  }

  function CreateFile(s: S, p: Path): S
    requires p != [] && At(s.root, Parent(p)) == IsDir
  {
    s.(files := s.files[s.nextInode := FileNode([], 1, 0)],
       root := PutAt(s.root, p, File(s.nextInode)),
       nextInode := s.nextInode + 1,
       fileCount := s.fileCount + 1)
  }

  function Open(s: S, q: Quota, path: string, mode: OpenMode): (S, Reply) {
    if !mode.Valid() then (s, Failed(EINVAL))
    else match Normalize(path)
      case Err(e) => (s, Failed(e))
      case Ok(p) =>
        match GetNode(s.root, p)
        case Ok(Directory(_)) => (s, Failed(EISDIR))
        case Ok(File(i)) =>
          if mode.createNew then (s, Failed(EEXIST))
          else if mode.truncate then
            var (s', r) := ResizeFile(s, q, i, 0);
            if r != Done then (s', r) else MintHandle(s', i, mode)
          else MintHandle(s, i, mode)
        case Err(e) =>
          if e != ENOENT || !(mode.create || mode.createNew) then (s, Failed(e))
          else match ParentDir(s.root, p)
            case Err(e) => (s, Failed(e))
            case Ok(_) =>
              if s.fileCount >= q.maxFiles then (s, Failed(ENOSPC))
              else MintHandle(CreateFile(s, p), s.nextInode, mode)
  }

  function WriteAt(s: S, q: Quota, h: FileHandle, offset: u64, data: Bytes): (S, Reply) {
    if h !in s.handles || !s.handles[h].writable then (s, Failed(EBADF))
    else if data == [] then (s, Wrote(0))
    else if s.handles[h].inode !in s.files then (s, Fault)
    else
      var i := s.handles[h].inode;
      var oldLen := |s.files[i].data|;
      var start := if s.handles[h].append then oldLen else offset;
      if start + |data| > U64_MAX then (s, Failed(EINVAL))
      else
        var end := start + |data|;
        var (s', r) := ResizeFile(s, q, i, if oldLen > end then oldLen else end);
        if r != Done then (s', r)
        else (s'.(files := s'.files[i := s'.files[i].(data := Spliced(s'.files[i].data, start, data))]), Wrote(|data|))
  }

  function Truncate(s: S, q: Quota, h: FileHandle, len: u64): (S, Reply) {
    if h !in s.handles then (s, Failed(EBADF))
    else if !s.handles[h].writable then (s, Failed(EINVAL))
    else ResizeFile(s, q, s.handles[h].inode, len)
  }

  function Close(s: S, h: FileHandle): (S, Reply) {
    if h !in s.handles then (s, Failed(EBADF))
    else
      var i := s.handles[h].inode;
      if i !in s.files || s.files[i].openHandles == 0 then (s, Fault)
      else ReleaseIfUnreferenced(
             s.(handles := s.handles - {h},
                files := s.files[i := s.files[i].(openHandles := s.files[i].openHandles - 1)]), i)
  }

  // ---------------------------------------------------------------- snapshots

  ghost function Inodes(n: Node): set<Inode> {
    set p | p in Flat(n) && Flat(n)[p].IsFile? :: Flat(n)[p].inode
  }

  /** What `SnapshotState::from_state` captures: the tree, and the inodes it reaches. */
  ghost function Capture(s: S): Snapshot<Bytes>
    requires Inodes(s.root) <= s.files.Keys
  {
    var files := map i | i in Inodes(s.root) :: FileNode(s.files[i].data, 1, 0);
    Snapshot(s.root, files, s.nextInode, Total(Lengths(files)), |files.Keys| + |Dirs(Flat(s.root))|)
  }

  predicate SnapshotFits(sn: Snapshot<Bytes>, q: Quota) {
    sn.usedBytes <= q.maxBytes && sn.fileCount <= q.maxFiles
    && forall i :: i in sn.files ==> |sn.files[i].data| <= q.maxFileSize
  }

  function FromSnapshot<D>(sn: Snapshot<D>, nextHandle: FileHandle): State<D> {
    State(sn.root, sn.files, sn.nextInode, nextHandle, map[], sn.usedBytes, sn.fileCount)
  }

  function Restore(s: S, q: Quota, sn: Snapshot<Bytes>): (S, Reply) {
    if SnapshotFits(sn, q) then (FromSnapshot(sn, s.nextHandle), Done) else (s, Failed(ENOSPC))
  }

  // --------------------------------------------------------- what is counted

  ghost function Total(m: map<Inode, nat>): nat {
    if m == map[] then 0 else var k :| k in m; m[k] + Total(m - {k})
  }

  ghost function Lengths(files: map<Inode, FileNode<Bytes>>): map<Inode, nat> {
    map i | i in files :: |files[i].data|
  }

  /** The paths at which an inode is linked. */
  ghost function Links(t: map<Path, Entry>, i: Inode): set<Path> {
    set p | p in t && t[p] == IsFile(i)
  }

  /** The directories other than the root. */
  ghost function Dirs(t: map<Path, Entry>): set<Path> {
    set p | p in t && p != [] && t[p] == IsDir
  }

  ghost function HandlesOn(handles: map<FileHandle, Handle>, i: Inode): set<FileHandle> {
    set h | h in handles && handles[h].inode == i
  }

  /** The tree is rooted, bounded in depth, and names only inodes of the table. */
  ghost predicate TreeInv(t: map<Path, Entry>, files: map<Inode, FileNode<Bytes>>) {
    && [] in t && t[[]] == IsDir
    && (forall p :: p in t ==> |p| <= MAX_PATH_DEPTH)
    && (forall p :: p in t && t[p].IsFile? ==> t[p].inode in files)
  }

  /** Each inode's two reference counts are the references that exist, and there is one
      unless the inode is `spare`, about to be released. */
  ghost predicate CountInv(t: map<Path, Entry>, files: map<Inode, FileNode<Bytes>>,
                           handles: map<FileHandle, Handle>, spare: set<Inode>) {
    forall i :: i in files ==>
      && files[i].links == |Links(t, i)| <= 1
      && files[i].openHandles == |HandlesOn(handles, i)|
      && (i in spare || files[i].links + files[i].openHandles > 0)
  }

  ghost predicate TableInv(s: S) {
    && (forall h :: h in s.handles ==> h < s.nextHandle && s.handles[h].inode in s.files)
    && (forall i :: i in s.files ==> i < s.nextInode)
  }

  ghost predicate UsageInv(t: map<Path, Entry>, s: S) {
    && s.usedBytes == Total(Lengths(s.files))
    && s.fileCount == |s.files.Keys| + |Dirs(t)|
  }

  ghost predicate QuotaInv(s: S, q: Quota) {
    && s.usedBytes <= q.maxBytes && s.fileCount <= q.maxFiles
    && forall i :: i in s.files ==> |s.files[i].data| <= q.maxFileSize
  }

  /** The whole invariant, for a state whose tree means `t`. */
  ghost predicate InvOn(t: map<Path, Entry>, s: S, q: Quota, spare: set<Inode>) {
    && TreeInv(t, s.files) && CountInv(t, s.files, s.handles, spare)
    && TableInv(s) && UsageInv(t, s) && QuotaInv(s, q)
  }

  /** What every reachable state satisfies. */
  ghost predicate Inv(s: S, q: Quota) { InvOn(Flat(s.root), s, q, {}) }
}
