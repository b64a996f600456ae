/** Any number of filesystems and snapshots that share buffers: src/vfs/mem.rs. */
module MemWorld {
  import opened Base
  import opened MemTree
  import opened MemSpec
  import opened MemRuns
  import opened MemVfs
  import opened MemSnapshot

  type Volumes = set<InMemoryVfs>
  type Snapshots = set<VfsSnapshot>

  /** Every filesystem and every snapshot holds its buffers, and they hold what it shows. */
  ghost predicate AllValid(all: Volumes, sns: Snapshots)
    reads all, set v, i | v in all && i in v.state.files :: v.state.files[i].data
    reads set sn, i | sn in sns && i in sn.state.files :: sn.state.files[i].data
  {
    && (forall v :: v in all ==> v.Valid())
    && (forall sn :: sn in sns ==> sn.Valid())
  }

  /** One call on one filesystem: every other filesystem and every snapshot keeps all it showed,
      even where they share buffers. */
  method PerformAmong(target: InMemoryVfs, c: Call, ghost all: Volumes, ghost sns: Snapshots) returns (r: Reply)
    requires target in all && AllValid(all, sns) && !c.CallRestore? && !c.CallSnapshot?
    modifies target`state, target`view, BuffersOf(target.state.files)
    ensures AllValid(all, sns)
    ensures fresh(BuffersOf(target.state.files) - old(BuffersOf(target.state.files)))
    ensures (target.view, r) == Apply(old(target.view), target.quota, c)
    ensures forall v :: v in all && v != target ==> v.view == old(v.view)
  {
    hide Inv, Apply, SnapInv;
    ghost var files := target.state.files;
    r := MemSnapshot.Perform(target, c);
    forall v | v in all && v != target ensures v.Valid() {
      forall i | i in v.state.files
        ensures var b := v.state.files[i].data; b.Counted() && (v.tag, i) in b.owners && b.bytes == old(b.bytes)
      {
        var b := v.state.files[i].data;
        if b in BuffersOf(files) {
          assert Fair(b, target.tag);
          assert (v.tag, i) in old(b.owners);
        }
      }
    }
    forall sn | sn in sns ensures sn.Valid() {
      forall i | i in sn.state.files
        ensures var b := sn.state.files[i].data; b.Counted() && (sn, i) in b.owners && b.bytes == old(b.bytes)
      {
        var b := sn.state.files[i].data;
        if b in BuffersOf(files) {
          assert Fair(b, target.tag);
          assert (sn, i) in old(b.owners);
        }
      }
    }
  }

  /** A new snapshot beside all others. */
  method TakeAmong(vfs: InMemoryVfs, ghost all: Volumes, ghost sns: Snapshots) returns (sn: VfsSnapshot)
    requires vfs in all && AllValid(all, sns)
    modifies BuffersOf(vfs.state.files)
    ensures fresh(sn) && AllValid(all, sns + {sn}) && BuffersOf(sn.state.files) <= BuffersOf(vfs.state.files)
    ensures Inodes(vfs.view.root) <= vfs.view.files.Keys && sn.view == Capture(vfs.view)
  {
    hide Inv, SnapInv, Capture, Inodes;
    ghost var files := vfs.state.files;
    sn := TakeSnapshot(vfs);
    forall v | v in all ensures v.Valid() {
      forall i | i in v.state.files
        ensures var b := v.state.files[i].data; b.Counted() && (v.tag, i) in b.owners && b.bytes == old(b.bytes)
      {
        var b := v.state.files[i].data;
        if b in BuffersOf(files) {
          assert Fair(b, sn);
          assert (v.tag, i) in old(b.owners);
        }
      }
    }
    forall s | s in sns ensures s.Valid() {
      forall i | i in s.state.files
        ensures var b := s.state.files[i].data; b.Counted() && (s, i) in b.owners && b.bytes == old(b.bytes)
      {
        var b := s.state.files[i].data;
        if b in BuffersOf(files) {
          assert Fair(b, sn);
          assert (s, i) in old(b.owners);
        }
      }
    }
  }

  /** A filesystem lets go of its table; `others` does not include it. */
  method DropAmong(vfs: InMemoryVfs, ghost others: Volumes, ghost sns: Snapshots)
    requires vfs.Valid() && vfs !in others && AllValid(others, sns)
    modifies BuffersOf(vfs.state.files)
    ensures AllValid(others, sns)
  {
    hide Inv, SnapInv;
    ghost var files := vfs.state.files;
    DropTable(vfs.tag, vfs.state.files, vfs.view.files);
    forall v | v in others ensures v.Valid() {
      forall i | i in v.state.files
        ensures var b := v.state.files[i].data; b.Counted() && (v.tag, i) in b.owners && b.bytes == old(b.bytes)
      {
        var b := v.state.files[i].data;
        if b in BuffersOf(files) {
          assert Fair(b, vfs.tag);
          assert (v.tag, i) in old(b.owners);
        }
      }
    }
    forall s | s in sns ensures s.Valid() {
      forall i | i in s.state.files
        ensures var b := s.state.files[i].data; b.Counted() && (s, i) in b.owners && b.bytes == old(b.bytes)
      {
        var b := s.state.files[i].data;
        if b in BuffersOf(files) {
          assert Fair(b, vfs.tag);
          assert (s, i) in old(b.owners);
        }
      }
    }
  }

  /** A snapshot's table is shared with a holder that is nobody yet. */
  method ShareAmong(ghost me: Holder, sn: VfsSnapshot, ghost others: Volumes, ghost sns: Snapshots)
    requires sn in sns && AllValid(others, sns) && forall v :: v in others ==> v.tag != me
    requires forall i :: i in sn.state.files ==> (me, i) !in sn.state.files[i].data.owners
    modifies BuffersOf(sn.state.files)
    ensures AllValid(others, sns) && Backs(me, sn.state.files, sn.view.files)
  {
    hide Inv, SnapInv;
    ghost var files := sn.state.files;
    ShareBeside(me, sn);
    forall v | v in others ensures v.Valid() {
      forall i | i in v.state.files
        ensures var b := v.state.files[i].data; b.Counted() && (v.tag, i) in b.owners && b.bytes == old(b.bytes)
      {
        var b := v.state.files[i].data;
        if b in BuffersOf(files) {
          assert Fair(b, me);
          assert (v.tag, i) in old(b.owners);
        }
      }
    }
    forall s | s in sns ensures s.Valid() {
      forall i | i in s.state.files
        ensures var b := s.state.files[i].data; b.Counted() && (s, i) in b.owners && b.bytes == old(b.bytes)
      {
        var b := s.state.files[i].data;
        if b in BuffersOf(files) {
          assert Fair(b, me);
          assert (s, i) in old(b.owners);
        }
      }
    }
  }

  /** The table of a snapshot becomes that of a filesystem; nobody else sees its fields. */
  method InstallAmong(vfs: InMemoryVfs, sn: VfsSnapshot, ghost tag: Holder, ghost others: Volumes, ghost sns: Snapshots)
    requires sn in sns && vfs !in others && AllValid(others, sns)
    requires Backs(tag, sn.state.files, sn.view.files) && tag.owner == vfs
    requires Inv(FromSnapshot(sn.view, vfs.state.nextHandle), vfs.quota)
    modifies vfs
    ensures AllValid(others + {vfs}, sns) && vfs.view == FromSnapshot(sn.view, old(vfs.state.nextHandle))
    ensures vfs.state.files == sn.state.files
  {
    hide Inv, SnapInv;
    Install(vfs, sn, tag);
  }

  /** The old table is dropped and the snapshot's shared, under a new name. */
  method Exchange(vfs: InMemoryVfs, sn: VfsSnapshot, ghost others: Volumes, ghost sns: Snapshots) returns (ghost tag: Holder)
    requires vfs.Valid() && vfs !in others && sn in sns && AllValid(others, sns)
    modifies BuffersOf(vfs.state.files), BuffersOf(sn.state.files)
    ensures AllValid(others, sns) && tag.owner == vfs && Backs(tag, sn.state.files, sn.view.files)
  {
    hide Inv, SnapInv;
    DropAmong(vfs, others, sns);
    tag := new Holder(vfs);
    ShareAmong(tag, sn, others, sns);
  }

  /** `restore`: the old table is dropped and the snapshot's shared; handles are forgotten and
      their numbers stay used. Nothing else in the world shows anything different. */
  method RestoreAmong(vfs: InMemoryVfs, sn: VfsSnapshot, ghost all: Volumes, ghost sns: Snapshots) returns (r: Reply)
    requires vfs in all && sn in sns && AllValid(all, sns)
    modifies vfs, BuffersOf(vfs.state.files), BuffersOf(sn.state.files)
    ensures AllValid(all, sns)
    ensures (vfs.view, r) == Restore(old(vfs.view), vfs.quota, sn.view)
    ensures vfs.state.files == if r == Done then sn.state.files else old(vfs.state.files)
    ensures forall v :: v in all && v != vfs ==> v.view == old(v.view)
  {
    hide Inv, SnapInv, SnapshotFits;
    var fits := FitsQuota(sn, vfs.quota);
    if !fits { return Failed(ENOSPC); }
    RestoreKeeps(sn.view, vfs.quota, vfs.view.nextHandle);
    ghost var others := all - {vfs};
    assert others + {vfs} == all;
    ghost var tag := Exchange(vfs, sn, others, sns);
    InstallAmong(vfs, sn, tag, others, sns);
    r := Done;
  }

  /** `branch`: a new filesystem that starts from the snapshot, with handles numbered afresh, if
      it fits the quota. Nothing else in the world shows anything different. */
  method BranchAmong(q: Quota, sn: VfsSnapshot, ghost all: Volumes, ghost sns: Snapshots) returns (r: Option<InMemoryVfs>)
    requires sn in sns && AllValid(all, sns)
    modifies BuffersOf(sn.state.files)
    ensures r.Some? <==> SnapshotFits(sn.view, q)
    ensures r.None? ==> AllValid(all, sns)
    ensures r.Some? ==> fresh(r.value) && AllValid(all + {r.value}, sns) && r.value.state.files == sn.state.files
    ensures r.Some? ==> r.value.quota == q && r.value.view == FromSnapshot(sn.view, 1)
  {
    hide Inv, SnapInv, SnapshotFits;
    var fits := FitsQuota(sn, q);
    if !fits { return None; }
    var vfs := new InMemoryVfs(q);
    RestoreKeeps(sn.view, q, 1);
    ShareAmong(vfs.tag, sn, all, sns);
    InstallAmong(vfs, sn, vfs.tag, all, sns);
    r := Some(vfs);
  }

  // ------------------------------------------------------------------ the world

  datatype Volume = Volume(view: S, quota: Quota)

  /** What all filesystems and all snapshots show. */
  datatype Picture = Picture(volumes: seq<Volume>, snapshots: seq<Snapshot<Bytes>>)

  /** A new filesystem; a call on filesystem `k`, a snapshot of it, its restore from snapshot `j`,
      or a branch from snapshot `j` under its quota. */
  datatype Step =
    | Found(quota: Quota)
    | Perform(k: nat, call: Call)
    | Take(k: nat)
    | Revert(k: nat, j: nat)
    | Fork(k: nat, j: nat)

  predicate CanBe(step: Step, volumes: nat, snapshots: nat) {
    match step
    case Found(_) => true
    case Perform(k, c) => k < volumes && !c.CallRestore? && !c.CallSnapshot?
    case Take(k) => k < volumes
    case Revert(k, j) => k < volumes && j < snapshots
    case Fork(k, j) => k < volumes && j < snapshots
  }

  predicate Possible(p: Picture, step: Step) { CanBe(step, |p.volumes|, |p.snapshots|) }

  /** On plain values nothing is shared, so a step can only change what it names. */
  ghost function Next(p: Picture, step: Step): Picture
    requires Possible(p, step)
  {
    match step
    case Found(q) => p.(volumes := p.volumes + [Volume(Empty(), q)])
    case Perform(k, c) => Changed(p, k, Apply(p.volumes[k].view, p.volumes[k].quota, c).0)
    case Take(k) =>
      var v := p.volumes[k].view;
      if Inodes(v.root) <= v.files.Keys then p.(snapshots := p.snapshots + [Capture(v)]) else p
    case Revert(k, j) => Changed(p, k, Restore(p.volumes[k].view, p.volumes[k].quota, p.snapshots[j]).0)
    case Fork(k, j) =>
      var q := p.volumes[k].quota;
      if SnapshotFits(p.snapshots[j], q) then p.(volumes := p.volumes + [Volume(FromSnapshot(p.snapshots[j], 1), q)]) else p
  }

  function Changed(p: Picture, k: nat, v: S): Picture
    requires k < |p.volumes|
  {
    p.(volumes := p.volumes[k := p.volumes[k].(view := v)])
  }

  /** Steps that name what is not there are not taken. */
  ghost function History(p: Picture, steps: seq<Step>): Picture
    decreases |steps|
  {
    if steps == [] then p
    else if Possible(p, steps[0]) then History(Next(p, steps[0]), steps[1..])
    else History(p, steps[1..])
  }

  /** The buffers that these hold. */
  ghost function Held(all: Volumes, sns: Snapshots): set<ArcBytes>
    reads all
  {
    (set v, i | v in all && i in v.state.files :: v.state.files[i].data) + (set sn, i | sn in sns && i in sn.state.files :: sn.state.files[i].data)
  }

  lemma NextFork(p: Picture, k: nat, j: nat)
    requires Possible(p, Fork(k, j))
    ensures Next(p, Fork(k, j)) ==
      if SnapshotFits(p.snapshots[j], p.volumes[k].quota)
      then p.(volumes := p.volumes + [Volume(FromSnapshot(p.snapshots[j], 1), p.volumes[k].quota)]) else p
  {
  }

  class World {
    var volumes: seq<InMemoryVfs>
    var snapshots: seq<VfsSnapshot>
    ghost var shown: Picture

    ghost function Vols(): Volumes reads this { set v | v in volumes }
    ghost function Sns(): Snapshots reads this { set sn | sn in snapshots }

    /** Everything the world may change. */
    ghost function Footprint(): set<object>
      reads this, Vols()
    {
      {this} + Vols() + Held(Vols(), Sns())
    }

    /** All is valid, and `shown` is what it shows. */
    ghost predicate Valid()
      reads this, Vols(), Held(Vols(), Sns())
    {
      AllValid(Vols(), Sns()) && Pictured()
    }

    constructor ()
      ensures Valid() && fresh(Footprint()) && shown == Picture([], [])
    {
      volumes, snapshots, shown := [], [], Picture([], []);
    }

    /** Records what the world now has and shows. */
    method Record(vs: seq<InMemoryVfs>, sns: seq<VfsSnapshot>, ghost p: Picture)
      requires AllValid(set v | v in vs, set sn | sn in sns)
      modifies this
      ensures volumes == vs && snapshots == sns && shown == p && AllValid(Vols(), Sns())
    {
      hide Inv, SnapInv;
      volumes, snapshots, shown := vs, sns, p;
    }

    /** What the world shows, beside its being valid. */
    ghost predicate Pictured()
      reads this, Vols()
    {
      && (forall i, j :: 0 <= i < j < |volumes| ==> volumes[i] != volumes[j])
      && |shown.volumes| == |volumes| && |shown.snapshots| == |snapshots|
      && (forall i :: 0 <= i < |volumes| ==> shown.volumes[i] == Volume(volumes[i].view, volumes[i].quota))
      && (forall j :: 0 <= j < |snapshots| ==> shown.snapshots[j] == snapshots[j].view)
    }

    method Add(v: InMemoryVfs)
      requires Pictured() && AllValid(Vols() + {v}, Sns()) && v !in volumes
      modifies this
      ensures Valid() && volumes == old(volumes) + [v] && snapshots == old(snapshots)
      ensures Footprint() == old(Footprint()) + {v} + BuffersOf(v.state.files)
      ensures shown == old(shown).(volumes := old(shown).volumes + [Volume(v.view, v.quota)])
    {
      hide AllValid, InMemoryVfs.Valid;
      var more := volumes + [v];
      assert forall x :: x in more <==> x in volumes || x == v;
      assert (set x | x in more) == Vols() + {v};
      Record(more, snapshots, shown.(volumes := shown.volumes + [Volume(v.view, v.quota)]));
    }

    method Keep(sn: VfsSnapshot)
      requires Pictured() && AllValid(Vols(), Sns() + {sn})
      modifies this
      ensures Valid() && volumes == old(volumes) && snapshots == old(snapshots) + [sn]
      ensures Footprint() == old(Footprint()) + BuffersOf(sn.state.files)
      ensures shown == old(shown).(snapshots := old(shown).snapshots + [sn.view])
    {
      hide AllValid, InMemoryVfs.Valid;
      var more := snapshots + [sn];
      assert forall x :: x in more <==> x in snapshots || x == sn;
      assert (set x | x in more) == Sns() + {sn};
      Record(volumes, more, shown.(snapshots := shown.snapshots + [sn.view]));
    }

    /** Filesystem `k`, and nothing else, has changed since the picture was drawn. */
    ghost predicate Stale(k: nat)
      reads this, Vols()
    {
      && k < |volumes|
      && (forall i, j :: 0 <= i < j < |volumes| ==> volumes[i] != volumes[j])
      && |shown.volumes| == |volumes| && |shown.snapshots| == |snapshots|
      && (forall i :: 0 <= i < |volumes| && i != k ==> shown.volumes[i] == Volume(volumes[i].view, volumes[i].quota))
      && shown.volumes[k].quota == volumes[k].quota
      && (forall j :: 0 <= j < |snapshots| ==> shown.snapshots[j] == snapshots[j].view)
    }

    method Redraw(k: nat)
      requires Stale(k) && AllValid(Vols(), Sns())
      modifies this`shown
      ensures Valid() && Footprint() == old(Footprint()) && shown == Changed(old(shown), k, volumes[k].view)
    {
      hide Inv, SnapInv;
      shown := Changed(shown, k, volumes[k].view);
    }

    method Performed(k: nat, c: Call) returns (r: Reply)
      requires Valid() && Possible(shown, Perform(k, c))
      modifies Vols(), Held(Vols(), Sns())
      ensures unchanged(this)
      ensures volumes[k].view == Apply(shown.volumes[k].view, shown.volumes[k].quota, c).0
      ensures AllValid(Vols(), Sns()) && Stale(k) && fresh(Held(Vols(), Sns()) - old(Held(Vols(), Sns())))
    {
      hide AllValid, Apply, Inv, InMemoryVfs.Valid, VfsSnapshot.Valid;
      r := PerformAmong(volumes[k], c, Vols(), Sns());
    }

    method DoPerform(k: nat, c: Call) returns (r: Reply)
      requires Valid() && Possible(shown, Perform(k, c))
      modifies Footprint()
      ensures Valid() && fresh(Footprint() - old(Footprint()))
      ensures volumes == old(volumes) && snapshots == old(snapshots)
      ensures shown == Next(old(shown), Perform(k, c))
    {
      hide AllValid, Apply, Held;
      r := Performed(k, c);
      Redraw(k);
    }

    method Taken(k: nat) returns (sn: VfsSnapshot)
      requires Valid() && k < |volumes|
      modifies Held(Vols(), Sns())
      ensures unchanged(this) && Pictured() && AllValid(Vols(), Sns() + {sn}) && BuffersOf(sn.state.files) <= Held(Vols(), Sns())
      ensures var v := shown.volumes[k].view; Inodes(v.root) <= v.files.Keys && sn.view == Capture(v)
    {
      hide AllValid, Inv, Capture, Inodes, InMemoryVfs.Valid, VfsSnapshot.Valid;
      sn := TakeAmong(volumes[k], Vols(), Sns());
    }

    method DoTake(k: nat)
      requires Valid() && Possible(shown, Take(k))
      modifies Footprint()
      ensures Valid() && fresh(Footprint() - old(Footprint()))
      ensures volumes == old(volumes) && old(snapshots) <= snapshots
      ensures shown == Next(old(shown), Take(k))
    {
      hide AllValid, Capture, Inodes, InMemoryVfs.Valid, VfsSnapshot.Valid, Held;
      var sn := Taken(k);
      Keep(sn);
    }

    method Reverted(k: nat, j: nat) returns (r: Reply)
      requires Valid() && Possible(shown, Revert(k, j))
      modifies Vols(), Held(Vols(), Sns())
      ensures unchanged(this)
      ensures volumes[k].view == Restore(shown.volumes[k].view, shown.volumes[k].quota, shown.snapshots[j]).0
      ensures AllValid(Vols(), Sns()) && Stale(k) && Held(Vols(), Sns()) <= old(Held(Vols(), Sns()))
    {
      hide AllValid, Restore, Inv, InMemoryVfs.Valid, VfsSnapshot.Valid;
      r := RestoreAmong(volumes[k], snapshots[j], Vols(), Sns());
    }

    method DoRevert(k: nat, j: nat) returns (r: Reply)
      requires Valid() && Possible(shown, Revert(k, j))
      modifies Footprint()
      ensures Valid() && fresh(Footprint() - old(Footprint()))
      ensures volumes == old(volumes) && snapshots == old(snapshots)
      ensures shown == Next(old(shown), Revert(k, j))
    {
      hide AllValid, Restore, Held;
      r := Reverted(k, j);
      Redraw(k);
    }

    method DoFound(q: Quota)
      requires Valid()
      modifies this
      ensures Valid() && fresh(Footprint() - old(Footprint()))
      ensures old(volumes) <= volumes && snapshots == old(snapshots)
      ensures shown == Next(old(shown), Found(q))
    {
      hide Inv, SnapInv;
      var v := new InMemoryVfs(q);
      assert AllValid(Vols() + {v}, Sns());
      Add(v);
    }

    method Branched(k: nat, j: nat) returns (r: Option<InMemoryVfs>)
      requires Valid() && k < |volumes| && j < |snapshots|
      modifies Held(Vols(), Sns())
      ensures unchanged(this) && Pictured() && (r.Some? <==> SnapshotFits(shown.snapshots[j], shown.volumes[k].quota))
      ensures r.None? ==> AllValid(Vols(), Sns())
      ensures r.Some? ==> fresh(r.value) && r.value !in volumes && AllValid(Vols() + {r.value}, Sns())
      ensures r.Some? ==> BuffersOf(r.value.state.files) <= Held(Vols(), Sns())
      ensures r.Some? ==> Volume(r.value.view, r.value.quota) == Volume(FromSnapshot(shown.snapshots[j], 1), shown.volumes[k].quota)
    {
      hide AllValid, Inv, SnapshotFits, FromSnapshot, InMemoryVfs.Valid, VfsSnapshot.Valid;
      r := BranchAmong(volumes[k].quota, snapshots[j], Vols(), Sns());
    }

    method DoFork(k: nat, j: nat)
      requires Valid() && Possible(shown, Fork(k, j))
      modifies Footprint()
      ensures Valid() && fresh(Footprint() - old(Footprint()))
      ensures old(volumes) <= volumes && snapshots == old(snapshots)
      ensures shown == Next(old(shown), Fork(k, j))
    {
      hide AllValid, Next, InMemoryVfs.Valid, VfsSnapshot.Valid;
      NextFork(shown, k, j);
      var r := Branched(k, j);
      if r.Some? { Add(r.value); }
    }

    method DoStep(step: Step)
      requires Valid() && Possible(shown, step)
      modifies Footprint()
      ensures Valid() && fresh(Footprint() - old(Footprint()))
      ensures old(volumes) <= volumes && old(snapshots) <= snapshots
      ensures shown == Next(old(shown), step)
    {
      hide AllValid, Next, Held, Pictured;
      match step
      case Found(q) => DoFound(q);
      case Perform(k, c) => var _ := DoPerform(k, c);
      case Take(k) => DoTake(k);
      case Revert(k, j) => var _ := DoRevert(k, j);
      case Fork(k, j) => DoFork(k, j);
    }

    /** Any sequence of steps. Every filesystem and every snapshot of before is still there, and the
        world shows what it would if nothing were shared: so each snapshot shows what it captured. */
    method Run(steps: seq<Step>)
      requires Valid()
      modifies Footprint()
      ensures Valid() && fresh(Footprint() - old(Footprint()))
      ensures old(volumes) <= volumes && old(snapshots) <= snapshots
      ensures shown == History(old(shown), steps)
    {
      hide AllValid, Next, Held, Pictured;
      var i := 0;
      assert steps[0..] == steps;
      while i < |steps|
        invariant i <= |steps| && Valid() && fresh(Footprint() - old(Footprint()))
        invariant old(volumes) <= volumes && old(snapshots) <= snapshots
        invariant History(shown, steps[i..]) == History(old(shown), steps)
      {
        assert steps[i..][0] == steps[i] && steps[i..][1..] == steps[i + 1..];
        CanDoIt(steps[i]);
        if CanDo(steps[i]) {
          ghost var before := Footprint();
          label L:
          DoStep(steps[i]);
          forall o | o in Footprint() ensures o in old(Footprint()) || fresh(o) {
            assert o in before || fresh@L(o);
          }
        }
        i := i + 1;
      }
    }

    lemma CanDoIt(step: Step)
      requires Pictured()
      ensures CanDo(step) <==> Possible(shown, step)
    {
    }

    predicate CanDo(step: Step)
      reads this
    {
      CanBe(step, |volumes|, |snapshots|)
    }
  }

  // ---------------------------------------------------------- what follows from it

  lemma {:induction false} SnapshotsStay(p: Picture, steps: seq<Step>)
    ensures p.snapshots <= History(p, steps).snapshots && |p.volumes| <= |History(p, steps).volumes|
    decreases |steps|
  {
    if steps != [] {
      SnapshotsStay(if Possible(p, steps[0]) then Next(p, steps[0]) else p, steps[1..]);
    }
  }

  ghost predicate PictureInv(p: Picture) {
    && (forall k :: 0 <= k < |p.volumes| ==> Inv(p.volumes[k].view, p.volumes[k].quota))
    && (forall j :: 0 <= j < |p.snapshots| ==> SnapInv(p.snapshots[j]))
  }

  lemma NextKeeps(p: Picture, step: Step)
    requires PictureInv(p) && Possible(p, step)
    ensures PictureInv(Next(p, step))
    ensures forall k :: 0 <= k < |p.volumes| && (step.Perform? || step.Revert? ==> k != step.k) ==> Next(p, step).volumes[k] == p.volumes[k]
    ensures p.snapshots <= Next(p, step).snapshots
  {
    hide Inv, SnapInv, Apply, Capture, SnapshotFits;
    match step
    case Found(q) => EmptyKeeps(q);
    case Perform(k, c) => ApplyKeeps(p.volumes[k].view, p.volumes[k].quota, c);
    case Take(k) => CaptureKeeps(p.volumes[k].view, p.volumes[k].quota);
    case Revert(k, j) =>
      var v := p.volumes[k];
      if SnapshotFits(p.snapshots[j], v.quota) { RestoreKeeps(p.snapshots[j], v.quota, v.view.nextHandle); }
    case Fork(k, j) =>
      var q := p.volumes[k].quota;
      if SnapshotFits(p.snapshots[j], q) { RestoreKeeps(p.snapshots[j], q, 1); }
  }

  lemma {:induction false} HistoryKeeps(p: Picture, steps: seq<Step>)
    requires PictureInv(p)
    ensures PictureInv(History(p, steps))
    decreases |steps|
  {
    hide PictureInv, Next;
    if steps != [] {
      if Possible(p, steps[0]) { NextKeeps(p, steps[0]); }
      HistoryKeeps(if Possible(p, steps[0]) then Next(p, steps[0]) else p, steps[1..]);
    }
  }

  /** Whatever happens after a snapshot was taken, on any filesystem, restored or branched as often
      as you like: the snapshot is what was captured. */
  lemma CapturedForEver(p: Picture, k: nat, steps: seq<Step>)
    requires PictureInv(p) && k < |p.volumes|
    ensures var v := p.volumes[k].view; var later := History(Next(p, Take(k)), steps);
      && Inodes(v.root) <= v.files.Keys
      && |p.snapshots| < |later.snapshots| && later.snapshots[|p.snapshots|] == Capture(v)
  {
    hide Inv, SnapInv, Capture, History, Inodes;
    CaptureKeeps(p.volumes[k].view, p.volumes[k].quota);
    SnapshotsStay(Next(p, Take(k)), steps);
  }

  /** And a filesystem restored from it shows exactly what was shown when it was taken. */
  lemma RevertShows(p: Picture, k: nat, j: nat, s: S, q: Quota)
    requires Possible(p, Revert(k, j)) && Inv(s, q) && SnapshotFits(p.snapshots[j], p.volumes[k].quota)
    requires Inodes(s.root) <= s.files.Keys && p.snapshots[j] == Capture(s)
    ensures View(Next(p, Revert(k, j)).volumes[k].view) == View(s)
  {
    hide Inv, Capture, SnapshotFits, View, Inodes;
    CaptureShows(s, q, p.volumes[k].view.nextHandle);
  }

  /** So does a branch. */
  lemma ForkShows(p: Picture, k: nat, j: nat, s: S, q: Quota)
    requires Possible(p, Fork(k, j)) && Inv(s, q) && SnapshotFits(p.snapshots[j], p.volumes[k].quota)
    requires Inodes(s.root) <= s.files.Keys && p.snapshots[j] == Capture(s)
    ensures |Next(p, Fork(k, j)).volumes| == |p.volumes| + 1 && View(Next(p, Fork(k, j)).volumes[|p.volumes|].view) == View(s)
  {
    hide Inv, Capture, SnapshotFits, View, Inodes;
    CaptureShows(s, q, 1);
  }

  lemma CaptureShows(s: S, q: Quota, nextHandle: FileHandle)
    requires Inv(s, q)
    ensures Inodes(s.root) <= s.files.Keys && View(FromSnapshot(Capture(s), nextHandle)) == View(s)
  {
    hide Inv, View, Flat, Capture;
    RestoreBringsBack(s, Empty().(nextHandle := nextHandle), q);
  }
}
