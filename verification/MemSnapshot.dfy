/** Snapshots, restore and branches over shared buffers: src/vfs/mem.rs. */
module MemSnapshot {
  import opened Base
  import opened MemTree
  import opened MemSpec
  import opened MemProofs
  import opened MemRuns
  import opened MemVfs
  import MemCollect

  class VfsSnapshot {
    const state: Snapshot<ArcBytes>
    ghost const view: Snapshot<Bytes>

    constructor (state: Snapshot<ArcBytes>, ghost view: Snapshot<Bytes>)
      ensures this.state == state && this.view == view
    {
      this.state := state;
      this.view := view;
    }

    /** The snapshot still holds its buffers, and they still hold the bytes it captured. */
    ghost predicate Valid()
      reads BuffersOf(state.files)
    {
      && Backs(this, state.files, view.files)
      && view == Snapshot(state.root, view.files, state.nextInode, state.usedBytes, state.fileCount)
      && SnapInv(view)
    }
  }

  /** Buffers that hold the bytes of `view`, whoever holds them. */
  ghost predicate Carries(files: Table, view: Plain)
    reads BuffersOf(files)
  {
    && files.Keys == view.Keys
    && forall i :: i in files ==>
         && files[i].data.Counted()
         && view[i] == FileNode(files[i].data.bytes, files[i].links, files[i].openHandles)
  }

  /** `Arc::clone` and the drop of an `Arc`. */
  method Retain(b: ArcBytes, ghost o: (object, Inode))
    requires b.Counted() && o !in b.owners
    modifies b
    ensures b.Counted() && b.bytes == old(b.bytes) && b.owners == old(b.owners) + {o}
  {
    b.strong := b.strong + 1;
    b.owners := b.owners + {o};
  }

  method LetGo(b: ArcBytes, ghost o: (object, Inode))
    requires b.Counted() && o in b.owners
    modifies b
    ensures b.Counted() && b.bytes == old(b.bytes) && b.owners == old(b.owners) - {o}
  {
    b.strong := b.strong - 1;
    b.owners := b.owners - {o};
  }

  type Holders = map<ArcBytes, set<(object, Inode)>>

  /** From the holders `was`, `me` has joined for the inodes of `done`, and nobody has left. */
  ghost predicate Joined(me: object, files: Table, view: Plain, was: Holders, done: set<Inode>)
    reads BuffersOf(files)
  {
    && Carries(files, view)
    && forall i :: i in files ==>
         var b := files[i].data;
         && b in was && was[b] <= b.owners
         && (forall o :: o in b.owners - was[b] ==> o.0 == me && o.1 in done)
         && (i in done ==> (me, i) in b.owners)
  }

  method ShareOne(ghost me: object, files: Table, i: Inode, ghost view: Plain, ghost was: Holders, ghost done: set<Inode>)
    requires Joined(me, files, view, was, done) && i in files && i !in done
    requires files[i].data in was && (me, i) !in was[files[i].data]
    modifies files[i].data
    ensures Joined(me, files, view, was, done + {i})
  {
    Retain(files[i].data, (me, i));
  }

  method ShareEach(ghost me: object, files: Table, ghost view: Plain, ghost was: Holders)
    requires Joined(me, files, view, was, {})
    requires forall i :: i in files ==> files[i].data in was && (me, i) !in was[files[i].data]
    modifies BuffersOf(files)
    ensures Joined(me, files, view, was, files.Keys)
  {
    hide Joined;
    var left := files.Keys;
    ghost var done: set<Inode> := {};
    while left != {}
      invariant done + left == files.Keys && done !! left
      invariant Joined(me, files, view, was, done)
      decreases left
    {
      var i :| i in left;
      ShareOne(me, files, i, view, was, done);
      left := left - {i};
      done := done + {i};
    }
    assert done == files.Keys;
  }

  /** Cloning a table clones its `Arc`s: one more count for each inode. */
  method Share(ghost me: object, files: Table, ghost view: Plain)
    requires Carries(files, view)
    requires forall i :: i in files ==> files[i].data as object != me && (me, i) !in files[i].data.owners
    modifies BuffersOf(files)
    ensures Backs(me, files, view)
    ensures AllFair(files, me)
  {
    ghost var was: Holders := map b | b in BuffersOf(files) :: b.owners;
    ShareEach(me, files, view, was);
  }

  /** From the holders `was`, `me` has left for the inodes of `done`, and nobody has joined. */
  ghost predicate Departed(me: object, files: Table, view: Plain, was: Holders, done: set<Inode>)
    reads BuffersOf(files)
  {
    && Carries(files, view)
    && forall i :: i in files ==>
         var b := files[i].data;
         && b in was && b.owners <= was[b]
         && (forall o :: o in was[b] - b.owners ==> o.0 == me && o.1 in done)
         && (i in done <==> (me, i) !in b.owners)
  }

  method DropOne(ghost me: object, files: Table, i: Inode, ghost view: Plain, ghost was: Holders, ghost done: set<Inode>)
    requires Departed(me, files, view, was, done) && i in files && i !in done
    modifies files[i].data
    ensures Departed(me, files, view, was, done + {i})
  {
    LetGo(files[i].data, (me, i));
  }

  method DropEach(ghost me: object, files: Table, ghost view: Plain, ghost was: Holders)
    requires Departed(me, files, view, was, {})
    modifies BuffersOf(files)
    ensures Departed(me, files, view, was, files.Keys)
  {
    hide Departed;
    var left := files.Keys;
    ghost var done: set<Inode> := {};
    while left != {}
      invariant done + left == files.Keys && done !! left
      invariant Departed(me, files, view, was, done)
      decreases left
    {
      var i :| i in left;
      DropOne(me, files, i, view, was, done);
      left := left - {i};
      done := done + {i};
    }
    assert done == files.Keys;
  }

  /** Dropping a table drops its `Arc`s; the buffers live on for whoever else holds them. */
  method DropTable(ghost me: object, files: Table, ghost view: Plain)
    requires Backs(me, files, view)
    modifies BuffersOf(files)
    ensures AllFair(files, me)
    ensures forall i :: i in files ==> (me, i) !in files[i].data.owners
    ensures forall i :: i in files ==> files[i].data.owners <= old(files[i].data.owners)
  {
    ghost var was: Holders := map b | b in BuffersOf(files) :: b.owners;
    DropEach(me, files, view, was);
  }

  // ------------------------------------------------------------------ capture

  lemma InvUnique(s: S, q: Quota)
    requires Inv(s, q)
    ensures MemCollect.Unique(s.root)
  {
    var t := Flat(s.root);
    hide Flat, TreeInv, TableInv, UsageInv, QuotaInv;
    forall p, p' | At(s.root, p).IsFile? && At(s.root, p) == At(s.root, p') ensures p == p' {
      FlatAt(s.root, p);
      FlatAt(s.root, p');
      var i := At(s.root, p).inode;
      MemRuns.InodesListed(s, q);
      MemCollect.AtInode(s.root, p, i);
      FileLink(t, p, i);
      FileLink(t, p', i);
    }
  }

  /** The walk's totals are the ones `Capture` names, and they fit in 64 bits. */
  lemma CaptureTotals(s: S, q: Quota, sizes: map<Inode, nat>)
    requires Inv(s, q) && Inodes(s.root) <= s.files.Keys && sizes == Lengths(s.files)
    ensures MemCollect.Bytes(s.root, sizes) == Capture(s).usedBytes <= U64_MAX
    ensures MemCollect.Entries(s.root) == Capture(s).fileCount <= U64_MAX
  {
    hide Flat, Inodes, Total, Inv, Dirs;
    CaptureFits(s, q);
    var files := Capture(s).files;
    assert files.Keys == Inodes(s.root);
    assert Lengths(files) == MemCollect.LengthsIn(sizes, Inodes(s.root));
  }

  /** The walk of `SnapshotState::from_state`, before any buffer is shared. */
  method Gather(vfs: InMemoryVfs) returns (state: Snapshot<ArcBytes>)
    requires vfs.Valid()
    ensures Inodes(vfs.view.root) <= vfs.view.files.Keys
    ensures Carries(state.files, Capture(vfs.view).files)
    ensures Capture(vfs.view) == Snapshot(state.root, Capture(vfs.view).files, state.nextInode, state.usedBytes, state.fileCount)
    ensures forall i :: i in state.files ==> i in vfs.state.files && vfs.state.files[i].data == state.files[i].data
  {
    hide Inv, Inodes, Capture, Lengths;
    var sizes := Sizes(vfs.tag, vfs.state.files, vfs.view.files);
    var found, used, count := Walk(vfs.state.root, sizes, vfs.view, vfs.quota);
    var all := vfs.state.files;
    var files := map i | i in found && i in all :: FileNode(all[i].data, 1, 0);
    Reached(vfs.tag, vfs.state, vfs.view, files);
    state := Snapshot(vfs.state.root, files, vfs.state.nextInode, used, count);
  }

  method Walk(root: Node, sizes: map<Inode, nat>, ghost v: S, ghost q: Quota)
    returns (found: set<Inode>, used: nat, count: nat)
    requires Inv(v, q) && root == v.root && sizes == Lengths(v.files) && sizes.Keys == v.files.Keys
    ensures Inodes(v.root) <= v.files.Keys && found == Inodes(v.root)
    ensures used == Capture(v).usedBytes && count == Capture(v).fileCount
  {
    hide Inv, Inodes, MemCollect.Unique, MemCollect.Bytes, MemCollect.Entries, Capture, Lengths;
    InodesListed(v, q);
    InvUnique(v, q);
    CaptureTotals(v, q, sizes);
    found, used, count := MemCollect.Collect(root, sizes, {}, 0, 0);
  }

  method Sizes(ghost h: object, files: Table, ghost view: Plain) returns (sizes: map<Inode, nat>)
    requires Backs(h, files, view)
    ensures sizes == Lengths(view) && sizes.Keys == view.Keys
  {
    sizes := map i | i in files :: |files[i].data.bytes|;
  }

  lemma Reached(h: object, st: State<ArcBytes>, v: S, files: Table)
    requires Shows(h, st, v) && Inodes(v.root) <= v.files.Keys
    requires files == map i | i in Inodes(v.root) && i in st.files :: FileNode(st.files[i].data, 1, 0)
    ensures Carries(files, Capture(v).files)
    ensures Capture(v).root == st.root && Capture(v).nextInode == st.nextInode
    ensures forall i :: i in files ==> i in st.files && st.files[i].data == files[i].data
  {
    hide Inodes, Total, Lengths, Dirs, Flat;
  }

  /** Creating the snapshot object takes a share of each buffer. */
  method Publish(ghost all: Table, state: Snapshot<ArcBytes>, ghost snView: Snapshot<Bytes>)
    returns (sn: VfsSnapshot)
    requires Carries(state.files, snView.files)
    requires forall i :: i in state.files ==> i in all && all[i].data == state.files[i].data
    requires snView == Snapshot(state.root, snView.files, state.nextInode, state.usedBytes, state.fileCount)
    requires SnapInv(snView)
    modifies BuffersOf(state.files)
    ensures fresh(sn) && sn.Valid() && sn.view == snView && sn.state == state
    ensures AllFair(all, sn)
  {
    hide SnapInv;
    sn := new VfsSnapshot(state, snView);
    Share(sn, state.files, snView.files);
    forall i | i in all ensures Fair(all[i].data, sn) {
      if all[i].data !in BuffersOf(state.files) {
        assert unchanged(all[i].data);
      }
    }
  }

  method PublishBeside(ghost h: object, ghost all: Table, ghost view: Plain, state: Snapshot<ArcBytes>, ghost snView: Snapshot<Bytes>)
    returns (sn: VfsSnapshot)
    requires Backs(h, all, view) && Carries(state.files, snView.files)
    requires forall i :: i in state.files ==> i in all && all[i].data == state.files[i].data
    requires snView == Snapshot(state.root, snView.files, state.nextInode, state.usedBytes, state.fileCount)
    requires SnapInv(snView)
    modifies BuffersOf(state.files)
    ensures fresh(sn) && sn.Valid() && sn.view == snView && sn.state == state
    ensures Backs(h, all, view) && AllFair(all, sn)
  {
    hide SnapInv, VfsSnapshot.Valid, Carries;
    sn := Publish(all, state, snView);
    assert h != sn;
    forall i | i in all
      ensures all[i].data.Counted() && (h, i) in all[i].data.owners && all[i].data.bytes == old(all[i].data.bytes)
    {
      assert Fair(all[i].data, sn);
      assert (h, i) in old(all[i].data.owners);
    }
  }

  /** `snapshot`: the tree, and a share of each buffer it reaches. */
  method TakeSnapshot(vfs: InMemoryVfs) returns (sn: VfsSnapshot)
    requires vfs.Valid()
    modifies BuffersOf(vfs.state.files)
    ensures fresh(sn) && sn.Valid() && vfs.Valid()
    ensures Inodes(vfs.view.root) <= vfs.view.files.Keys && sn.view == Capture(vfs.view)
    ensures BuffersOf(sn.state.files) <= BuffersOf(vfs.state.files) && AllFair(vfs.state.files, sn)
  {
    hide Inv, SnapInv, Inodes, Flat, Capture, Backs;
    var state := Gather(vfs);
    CaptureKeeps(vfs.view, vfs.quota);
    assert BuffersOf(state.files) <= BuffersOf(vfs.state.files);
    sn := PublishBeside(vfs.tag, vfs.state.files, vfs.view.files, state, Capture(vfs.view));
  }

  // ------------------------------------------------------- restore and branch

  /** `ensure_snapshot_fits_quota`. */
  method FitsQuota(sn: VfsSnapshot, q: Quota) returns (fits: bool)
    requires sn.Valid()
    ensures fits == SnapshotFits(sn.view, q)
  {
    hide SnapInv;
    if sn.state.usedBytes > q.maxBytes || sn.state.fileCount > q.maxFiles {
      return false;
    }
    var left := sn.state.files.Keys;
    while left != {}
      invariant left <= sn.state.files.Keys
      invariant forall i :: i in sn.state.files && i !in left ==> |sn.state.files[i].data.bytes| <= q.maxFileSize
      decreases left
    {
      var i :| i in left;
      if |sn.state.files[i].data.bytes| > q.maxFileSize {
        assert i in sn.view.files;
        return false;
      }
      left := left - {i};
    }
    return true;
  }

  /** A snapshot does not notice that its table is shared with `me`. */
  method ShareBeside(ghost me: object, h: VfsSnapshot)
    requires h.Valid() && h != me
    requires forall i :: i in h.state.files ==> h.state.files[i].data as object != me && (me, i) !in h.state.files[i].data.owners
    modifies BuffersOf(h.state.files)
    ensures h.Valid() && Backs(me, h.state.files, h.view.files)
    ensures AllFair(h.state.files, me)
  {
    hide SnapInv;
    Share(me, h.state.files, h.view.files);
    forall i | i in h.state.files ensures (h, i) in h.state.files[i].data.owners {
      assert Fair(h.state.files[i].data, me);
      assert (h, i) in old(h.state.files[i].data.owners);
    }
  }

  method Install(vfs: InMemoryVfs, sn: VfsSnapshot, ghost tag: Holder)
    requires sn.Valid() && Backs(tag, sn.state.files, sn.view.files) && tag.owner == vfs
    requires Inv(FromSnapshot(sn.view, vfs.state.nextHandle), vfs.quota)
    modifies vfs
    ensures sn.Valid() && vfs.Valid() && vfs.view == FromSnapshot(sn.view, old(vfs.state.nextHandle))
    ensures vfs.state.files == sn.state.files
  {
    hide SnapInv, Inv;
    vfs.state, vfs.view, vfs.tag := FromSnapshot(sn.state, vfs.state.nextHandle), FromSnapshot(sn.view, vfs.state.nextHandle), tag;
  }

  // ------------------------------------------------------------------- calls

  /** Any one call on a filesystem. */
  method Perform(vfs: InMemoryVfs, c: Call) returns (r: Reply)
    requires vfs.Valid() && !c.CallRestore? && !c.CallSnapshot?
    modifies vfs`state, vfs`view, BuffersOf(vfs.state.files)
    ensures vfs.Valid() && (vfs.view, r) == Apply(old(vfs.view), vfs.quota, c)
    ensures fresh(BuffersOf(vfs.state.files) - old(BuffersOf(vfs.state.files))) && AllFair(old(vfs.state.files), vfs.tag)
  {
    hide Backs, Inv, Mkdir, Rename, Remove, Open, WriteAt, Truncate, Close;
    assert AllFair(vfs.state.files, vfs.tag);
    match c
    case CallMkdir(path) => r := vfs.Mkdir(path);
    case CallRename(from, to) => r := vfs.Rename(from, to);
    case CallUnlink(path) => r := vfs.RemovePath(path, false);
    case CallRmdir(path) => r := vfs.RemovePath(path, true);
    case CallOpen(path, mode) => r := vfs.Open(path, mode);
    case CallWrite(h, offset, data) => r := vfs.WriteAt(h, offset, data);
    case CallTruncate(h, len) => r := vfs.Truncate(h, len);
    case CallClose(h) => r := vfs.Close(h);
  }
}
