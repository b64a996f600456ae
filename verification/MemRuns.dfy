/** Whole runs of the in-memory filesystem: every sequence of calls, snapshots and restores. */
module MemRuns {
  import opened Base
  import opened Paths
  import opened MemTree
  import opened MemSpec
  import opened MemProofs

  // ---------------------------------------------------------------- snapshots

  ghost predicate SnapInvOn(t: map<Path, Entry>, sn: Snapshot<Bytes>) {
    && TreeInv(t, sn.files)
    && (forall i :: i in sn.files ==>
          sn.files[i].links == |Links(t, i)| == 1 && sn.files[i].openHandles == 0 && i < sn.nextInode)
    && sn.usedBytes == Total(Lengths(sn.files))
    && sn.fileCount == |sn.files.Keys| + |Dirs(t)|
  }

  ghost predicate SnapInv(sn: Snapshot<Bytes>) { SnapInvOn(Flat(sn.root), sn) }

  lemma LinkOfInode(t: map<Path, Entry>, i: Inode, p: Path)
    requires p in t && t[p] == IsFile(i) && |Links(t, i)| <= 1
    ensures |Links(t, i)| == 1
  {
    FileLink(t, p, i);
  }

  /** The tree of a valid state reaches only inodes of the table. */
  lemma InodesListed(s: S, q: Quota)
    requires Inv(s, q)
    ensures Inodes(s.root) <= s.files.Keys
    ensures forall i :: i in Inodes(s.root) ==> |Links(Flat(s.root), i)| == 1 && i < s.nextInode
  {
    var t := Flat(s.root);
    hide Flat, UsageInv, QuotaInv;
    forall i | i in Inodes(s.root) ensures i in s.files && |Links(t, i)| == 1 {
      var p :| p in t && t[p].IsFile? && t[p].inode == i;
      LinkOfInode(t, i, p);
    }
  }

  lemma CaptureKeeps(s: S, q: Quota)
    requires Inv(s, q)
    ensures Inodes(s.root) <= s.files.Keys && SnapInv(Capture(s))
  {
    InodesListed(s, q);
    var t := Flat(s.root);
    var sn := Capture(s);
    CaptureTree(s, q);
    hide Flat, Inodes, TreeInv, Total, Lengths, Links, Dirs, InvOn;
  }

  lemma CaptureTree(s: S, q: Quota)
    requires Inv(s, q) && Inodes(s.root) <= s.files.Keys
    ensures TreeInv(Flat(s.root), Capture(s).files)
  {
    hide Flat, Total, Lengths, Links, Dirs, CountInv, TableInv, UsageInv, QuotaInv;
    var t := Flat(s.root);
    forall p | p in t && t[p].IsFile? ensures t[p].inode in Capture(s).files {
      assert t[p].inode in Inodes(s.root);
    }
  }

  lemma FromSnapshotKeeps(t: map<Path, Entry>, sn: Snapshot<Bytes>, q: Quota, nextHandle: FileHandle)
    requires SnapInvOn(t, sn) && SnapshotFits(sn, q)
    ensures InvOn(t, FromSnapshot(sn, nextHandle), q, {})
  {
    hide Total, Lengths, Links, Dirs;
    forall i ensures HandlesOn(map[], i) == {} {
    }
  }

  lemma {:induction false} TotalSubset(m: map<Inode, nat>, n: map<Inode, nat>)
    requires m.Keys <= n.Keys && forall i :: i in m ==> m[i] == n[i]
    ensures Total(m) <= Total(n)
    decreases |m.Keys|
  {
    if m != map[] {
      var k :| k in m;
      TotalRemove(m, k);
      TotalRemove(n, k);
      assert (m - {k}).Keys == m.Keys - {k};
      TotalSubset(m - {k}, n - {k});
    }
  }

  /** A snapshot never fails the quota of the filesystem it was taken from. */
  lemma CaptureFits(s: S, q: Quota)
    requires Inv(s, q)
    ensures Inodes(s.root) <= s.files.Keys && SnapshotFits(Capture(s), q)
  {
    InodesListed(s, q);
    hide Flat, Links, Dirs, HandlesOn, TreeInv, CountInv, TableInv;
    var files := Capture(s).files;
    TotalSubset(Lengths(files), Lengths(s.files));
    SubsetSize(files.Keys, s.files.Keys);
  }

  // ------------------------------------------------------------ what is visible

  datatype Content = Folder | Text(bytes: Bytes)

  /** Every path with the bytes a reader would find there. */
  ghost function ViewOn(t: map<Path, Entry>, files: map<Inode, FileNode<Bytes>>): map<Path, Content> {
    map p | p in t && (t[p].IsFile? ==> t[p].inode in files) ::
      if t[p].IsFile? then Text(files[t[p].inode].data) else Folder
  }

  ghost function View(s: S): map<Path, Content> { ViewOn(Flat(s.root), s.files) }

  lemma SameView(t: map<Path, Entry>, files: map<Inode, FileNode<Bytes>>, files': map<Inode, FileNode<Bytes>>)
    requires forall p :: p in t && t[p].IsFile? ==>
      t[p].inode in files && t[p].inode in files' && files'[t[p].inode].data == files[t[p].inode].data
    ensures ViewOn(t, files') == ViewOn(t, files)
  {
  }

  /** Restoring brings back exactly the paths and bytes of the capture, whatever happened since,
      and no handle survives. */
  lemma RestoreBringsBack(s: S, later: S, q: Quota)
    requires Inv(s, q)
    ensures Inodes(s.root) <= s.files.Keys
    ensures var (s', r) := Restore(later, q, Capture(s));
      r == Done && View(s') == View(s) && s'.handles == map[] && s'.nextHandle == later.nextHandle
  {
    CaptureFits(s, q);
    var t := Flat(s.root);
    var files := Capture(s).files;
    hide Flat, Total, Lengths, Links, Dirs, InvOn, SnapshotFits, ViewOn;
    forall p | p in t && t[p].IsFile?
      ensures t[p].inode in s.files && t[p].inode in files && files[t[p].inode].data == s.files[t[p].inode].data
    {
      assert t[p].inode in Inodes(s.root);
    }
    SameView(t, s.files, files);
  }

  // --------------------------------------------------------------------- runs

  /** The calls that can change something; `Take` and `Revert` are snapshot and restore. */
  datatype Call =
    | CallMkdir(path: string)
    | CallRename(from: string, to: string)
    | CallUnlink(path: string)
    | CallRmdir(path: string)
    | CallOpen(path: string, mode: OpenMode)
    | CallWrite(handle: FileHandle, offset: u64, data: Bytes)
    | CallTruncate(handle: FileHandle, len: u64)
    | CallClose(handle: FileHandle)
    | CallRestore(index: nat)
    | CallSnapshot

  datatype System = System(live: S, snapshots: seq<Snapshot<Bytes>>)

  ghost predicate SystemInv(y: System, q: Quota) {
    Inv(y.live, q) && forall k :: 0 <= k < |y.snapshots| ==> SnapInv(y.snapshots[k])
  }

  function Apply(s: S, q: Quota, c: Call): (S, Reply)
    requires !c.CallRestore? && !c.CallSnapshot?
  {
    match c
    case CallMkdir(path) => Mkdir(s, q, path)
    case CallRename(from, to) => Rename(s, from, to)
    case CallUnlink(path) => Remove(s, path, false)
    case CallRmdir(path) => Remove(s, path, true)
    case CallOpen(path, mode) => Open(s, q, path, mode)
    case CallWrite(h, offset, data) => WriteAt(s, q, h, offset, data)
    case CallTruncate(h, len) => Truncate(s, q, h, len)
    case CallClose(h) => Close(s, h)
  }

  ghost function Step(y: System, q: Quota, c: Call): (System, Reply) {
    match c
    case CallRestore(k) =>
      if k >= |y.snapshots| then (y, Failed(EINVAL))
      else var (s, r) := Restore(y.live, q, y.snapshots[k]); (y.(live := s), r)
    case CallSnapshot =>
      if Inodes(y.live.root) <= y.live.files.Keys
      then (y.(snapshots := y.snapshots + [Capture(y.live)]), Done)
      else (y, Fault)
    case _ => var (s, r) := Apply(y.live, q, c); (y.(live := s), r)
  }

  ghost function Run(y: System, q: Quota, calls: seq<Call>): System {
    if calls == [] then y else Step(Run(y, q, calls[..|calls| - 1]), q, calls[|calls| - 1]).0
  }

  lemma ApplyKeeps(s: S, q: Quota, c: Call)
    requires Inv(s, q) && !c.CallRestore? && !c.CallSnapshot?
    ensures var (s', r) := Apply(s, q, c); Inv(s', q) && r != Fault && (r.Failed? ==> s' == s)
  {
    hide Inv, Mkdir, RenamePaths, Remove, Open, WriteAt, Truncate, Close;
    match c
    case CallMkdir(path) => MkdirKeeps(s, q, path);
    case CallRename(from, to) =>
      NormalizeIsNormal(from);
      NormalizeIsNormal(to);
      if Normalize(from).Ok? && Normalize(to).Ok? && Normalize(from).value != [] && Normalize(to).value != [] {
        RenameKeeps(s, q, Normalize(from).value, Normalize(to).value);
      }
    case CallUnlink(path) => RemoveKeeps(s, q, path, false);
    case CallRmdir(path) => RemoveKeeps(s, q, path, true);
    case CallOpen(path, mode) => OpenKeeps(s, q, path, mode);
    case CallWrite(h, offset, data) => WriteKeeps(s, q, h, offset, data);
    case CallTruncate(h, len) => TruncateKeeps(s, q, h, len);
    case CallClose(h) => CloseKeeps(s, q, h);
  }

  /** Every call keeps the counters equal to what they count and the quotas respected, never
      meets an internal failure, and changes nothing when it fails. */
  lemma StepKeeps(y: System, q: Quota, c: Call)
    requires SystemInv(y, q)
    ensures var (y', r) := Step(y, q, c);
      SystemInv(y', q) && r != Fault && (r.Failed? ==> y' == y) && y.snapshots <= y'.snapshots
  {
    hide Inv, Apply, SnapInvOn, InvOn, Capture;
    match c
    case CallRestore(k) =>
      if k < |y.snapshots| && SnapshotFits(y.snapshots[k], q) {
        RestoreKeeps(y.snapshots[k], q, y.live.nextHandle);
      }
    case CallSnapshot =>
      CaptureKeeps(y.live, q);
    case _ =>
      ApplyKeeps(y.live, q, c);
  }

  lemma RestoreKeeps(sn: Snapshot<Bytes>, q: Quota, nextHandle: FileHandle)
    requires SnapInv(sn) && SnapshotFits(sn, q)
    ensures Inv(FromSnapshot(sn, nextHandle), q)
  {
    hide Flat;
    FromSnapshotKeeps(Flat(sn.root), sn, q, nextHandle);
  }

  lemma EmptyKeeps(q: Quota)
    ensures Inv(Empty(), q)
  {
    var t := Flat(Directory(map[]));
    assert AllPaths(Directory(map[])) == {[]};
    assert t == map[[] := IsDir];
    assert Dirs(t) == {};
  }

  /** From an empty filesystem, the invariant holds after every sequence of calls. */
  lemma {:induction false} RunKeeps(q: Quota, calls: seq<Call>)
    ensures SystemInv(Run(System(Empty(), []), q, calls), q)
  {
    if calls == [] {
      EmptyKeeps(q);
    } else {
      RunKeeps(q, calls[..|calls| - 1]);
      hide SystemInv, Step;
      StepKeeps(Run(System(Empty(), []), q, calls[..|calls| - 1]), q, calls[|calls| - 1]);
    }
  }

  // ------------------------------------------------------------ stale handles

  /** A handle number that was given out and is no longer open. */
  predicate Stale(s: S, h: FileHandle) { h < s.nextHandle && h !in s.handles }

  lemma StaleStep(y: System, q: Quota, c: Call, h: FileHandle)
    requires Stale(y.live, h)
    ensures Stale(Step(y, q, c).0.live, h)
  {
    hide Normalize, Inodes, Capture, SnapshotFits, GetNode, PutAt, CutAt, Spliced, Resized, Fits;
  }

  lemma {:induction false} StaleForever(y: System, q: Quota, calls: seq<Call>, h: FileHandle)
    requires Stale(y.live, h)
    ensures Stale(Run(y, q, calls).live, h)
  {
    if calls != [] {
      StaleForever(y, q, calls[..|calls| - 1], h);
      hide Step, Stale;
      StaleStep(Run(y, q, calls[..|calls| - 1]), q, calls[|calls| - 1], h);
    }
  }

  /** Every handle given out before a restore answers EBADF after it, for ever. */
  lemma RestoreInvalidates(y: System, q: Quota, k: nat, calls: seq<Call>, h: FileHandle, offset: u64, want: nat, data: Bytes, len: u64)
    requires SystemInv(y, q) && h < y.live.nextHandle && k < |y.snapshots|
    requires Step(y, q, CallRestore(k)).1 == Done
    ensures var s := Run(Step(y, q, CallRestore(k)).0, q, calls).live;
      && ReadAt(s, h, offset, want) == Failed(EBADF)
      && WriteAt(s, q, h, offset, data) == (s, Failed(EBADF))
      && Truncate(s, q, h, len) == (s, Failed(EBADF))
      && Close(s, h) == (s, Failed(EBADF))
  {
    hide SystemInv, SnapshotFits, Run;
    StaleForever(Step(y, q, CallRestore(k)).0, q, calls, h);
  }
}
